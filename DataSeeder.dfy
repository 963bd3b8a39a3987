/**
 * The startup seeder: makes sure the "Admin" role exists and, unless a
 * user with the configured address is already there, creates the admin
 * user and puts it in that role.  The configuration, the environment and
 * the clock are inputs.
 */
module DataSeeder {
  import opened Wrappers
  import opened Entities
  import opened Identity
  import opened Text
  import opened ContactMessageValidator

  /** The two settings the seeder reads; None is a setting that is not there. */
  datatype Configuration = Configuration(adminEmail: Option<string>, adminPassword: Option<string>)

  /** The InvalidOperationException SeedAsync throws, by cause. */
  datatype SeedError = MissingSetting(message: string) | CreateFailed(errors: seq<IdentityError>)

  const AdminRole := "Admin"
  const DefaultEmail := "admin@admin.com"
  const DefaultPassword := "Admin123!"
  const EmailMissing := "Admin:Email environment variable must be set in Production"
  const PasswordMissing := "Admin:Password environment variable must be set in Production"

  /** A setting, or in production a failure, or outside it the fallback. */
  function Resolve(value: Option<string>, isProduction: bool, fallback: string, missing: string): Result<string, SeedError> {
    if value.Some? then Success(value.value)
    else if isProduction then Failure(MissingSetting(missing))
    else Success(fallback)
  }

  /** The user the seeder creates for an address. */
  function NewAdmin(email: string, now: DateTime): AppUser {
    AppUser(email, email, true, Some("Admin"), Some("User"), now)
  }

  /** What a run leaves behind: the identity tables and how SeedAsync ended. */
  datatype SeedRun = SeedRun(state: IdentityState, outcome: Result<(), SeedError>)

  /** The role, then the two settings, then the user and its role, in that order. */
  function Seed(s: IdentityState, config: Configuration, isProduction: bool, now: DateTime): (run: SeedRun)
    ensures AdminRole in run.state.roles
    ensures run.outcome.Failure? ==> run.state.users == s.users && run.state.userRoles == s.userRoles
    ensures run.state.users == s.users || (|run.state.users| == |s.users| + 1 && run.state.users[..|s.users|] == s.users)
  {
    var s1 := if AdminRole in s.roles then s else s.(roles := s.roles + [AdminRole]);
    var email := Resolve(config.adminEmail, isProduction, DefaultEmail, EmailMissing);
    var password := Resolve(config.adminPassword, isProduction, DefaultPassword, PasswordMissing);
    if email.Failure? then SeedRun(s1, Failure(email.error))
    else if password.Failure? then SeedRun(s1, Failure(password.error))
    else if EmailTaken(s1.users, email.value) then SeedRun(s1, Success(()))
    else
      var user := NewAdmin(email.value, now);
      var errors := CreateErrors(user, password.value, s1.users);
      if errors == [] then
        SeedRun(s1.(users := s1.users + [user], userRoles := s1.userRoles + [(user.userName, AdminRole)]), Success(()))
      else
        SeedRun(s1, Failure(CreateFailed(errors)))
  }

  class DataSeeder {
    const store: IdentityStore
    const configuration: Configuration
    const isProduction: bool

    constructor (store: IdentityStore, configuration: Configuration, isProduction: bool)
      ensures this.store == store && this.configuration == configuration && this.isProduction == isProduction
    {
      this.store := store;
      this.configuration := configuration;
      this.isProduction := isProduction;
    }

    /** SeedAsync. */
    method SeedAsync(now: DateTime) returns (r: Result<(), SeedError>)
      modifies store
      ensures var run := Seed(old(store.State()), configuration, isProduction, now);
        store.State() == run.state && r == run.outcome
    {
      var roleExists := store.RoleExists(AdminRole);
      if !roleExists {
        var _ := store.CreateRole(AdminRole);
      }
      var email := Resolve(configuration.adminEmail, isProduction, DefaultEmail, EmailMissing);
      if email.Failure? {
        return Failure(email.error);
      }
      var password := Resolve(configuration.adminPassword, isProduction, DefaultPassword, PasswordMissing);
      if password.Failure? {
        return Failure(password.error);
      }
      var adminUser := store.FindByEmail(email.value);
      if adminUser.None? {
        var user := NewAdmin(email.value, now);
        var errors := store.CreateUser(user, password.value);
        if errors == [] {
          store.AddToRole(user, AdminRole);
        } else {
          return Failure(CreateFailed(errors));
        }
      }
      return Success(());
    }
  }

  /** The default password meets the policy the site configures. */
  lemma DefaultPasswordMeetsPolicy()
    ensures PasswordErrors(DefaultPassword) == []
  {
    assert !IsWhiteSpace(DefaultPassword[0]);
    assert IsSymbol(DefaultPassword[8]) && IsDigit(DefaultPassword[5]);
    assert IsLower(DefaultPassword[1]) && IsUpper(DefaultPassword[0]);
  }

  /** A string with a single '@' strictly inside it passes the email check. */
  lemma SingleInnerAt(e: string, k: nat)
    requires 0 < k < |e| - 1
    requires forall j :: 0 <= j < |e| ==> (e[j] == '@' <==> j == k)
    ensures IsEmailAddress(e) && !IsNullOrWhiteSpace(e)
  {
    assert !IsWhiteSpace(e[k]);
  }

  /** A non-empty string of lower-case letters, '@' and '.' is a valid user name. */
  lemma LowerUserName(e: string)
    requires |e| > 0
    requires forall j :: 0 <= j < |e| ==> IsLower(e[j]) || e[j] in "@."
    ensures UserNameAllowed(e)
  {
    assert !IsWhiteSpace(e[0]);
  }

  /** The default address has one '@', at position 5, and is otherwise lower-case letters and a dot. */
  lemma DefaultEmailWellFormed()
    ensures UserNameAllowed(DefaultEmail)
    ensures !IsNullOrWhiteSpace(DefaultEmail) && IsEmailAddress(DefaultEmail)
  {
    assert forall j :: 0 <= j < |DefaultEmail| ==> (DefaultEmail[j] == '@' <==> j == 5);
    assert forall j :: 0 <= j < |DefaultEmail| ==> IsLower(DefaultEmail[j]) || DefaultEmail[j] in "@.";
    SingleInnerAt(DefaultEmail, 5);
    LowerUserName(DefaultEmail);
  }

  /** The default address passes the user checks when nobody holds it yet. */
  lemma DefaultAdminAccepted(users: seq<AppUser>, now: DateTime)
    requires !EmailTaken(users, DefaultEmail) && !UserNameTaken(users, DefaultEmail)
    ensures UserErrors(NewAdmin(DefaultEmail, now), users) == []
  {
    DefaultEmailWellFormed();
  }

  /** Every run leaves the "Admin" role in place, and adds it only when it was missing. */
  lemma AdminRoleEnsured(s: IdentityState, config: Configuration, isProduction: bool, now: DateTime)
    ensures AdminRole in Seed(s, config, isProduction, now).state.roles
    ensures Seed(s, config, isProduction, now).state.roles ==
      if AdminRole in s.roles then s.roles else s.roles + [AdminRole]
  {
  }

  /**
   * In production a missing setting stops the run before any user or role
   * membership is written, with the message of the address when that is
   * missing and otherwise of the password.
   */
  lemma ProductionNeedsSettings(s: IdentityState, config: Configuration, now: DateTime)
    requires config.adminEmail.None? || config.adminPassword.None?
    ensures var run := Seed(s, config, true, now);
      && run.outcome.Failure?
      && run.outcome.error == MissingSetting(if config.adminEmail.None? then EmailMissing else PasswordMissing)
      && run.state.users == s.users && run.state.userRoles == s.userRoles
  {
  }

  /**
   * A run whose settings resolve, whose address nobody holds and whose
   * user passes CreateAsync's checks creates that user as an admin.
   */
  lemma {:induction false} CreatesAdmin(s: IdentityState, config: Configuration, isProduction: bool, now: DateTime,
                                        email: string, password: string)
    requires Resolve(config.adminEmail, isProduction, DefaultEmail, EmailMissing) == Success(email)
    requires Resolve(config.adminPassword, isProduction, DefaultPassword, PasswordMissing) == Success(password)
    requires !EmailTaken(s.users, email)
    requires CreateErrors(NewAdmin(email, now), password, s.users) == []
    ensures var run := Seed(s, config, isProduction, now);
      && run.outcome == Success(())
      && run.state.users == s.users + [NewAdmin(email, now)]
      && run.state.userRoles == s.userRoles + [(email, AdminRole)]
  {
    var s1 := if AdminRole in s.roles then s else s.(roles := s.roles + [AdminRole]);
    assert s1.users == s.users && s1.userRoles == s.userRoles;
  }

  /**
   * Outside production and with nothing configured, the seeder creates
   * admin@admin.com with the password Admin123! and makes it an admin.
   */
  lemma DevelopmentDefaults(s: IdentityState, now: DateTime)
    requires !EmailTaken(s.users, DefaultEmail) && !UserNameTaken(s.users, DefaultEmail)
    ensures var run := Seed(s, Configuration(None, None), false, now);
      && run.outcome == Success(())
      && run.state.users == s.users + [NewAdmin(DefaultEmail, now)]
      && run.state.userRoles == s.userRoles + [(DefaultEmail, AdminRole)]
  {
    DefaultPasswordMeetsPolicy();
    DefaultAdminAccepted(s.users, now);
    CreatesAdmin(s, Configuration(None, None), false, now, DefaultEmail, DefaultPassword);
  }

  /** A user already holding the resolved address is left alone and gets no role. */
  lemma ExistingUserUntouched(s: IdentityState, config: Configuration, isProduction: bool, now: DateTime)
    requires var email := Resolve(config.adminEmail, isProduction, DefaultEmail, EmailMissing);
      && email.Success? && EmailTaken(s.users, email.value)
      && Resolve(config.adminPassword, isProduction, DefaultPassword, PasswordMissing).Success?
    ensures var run := Seed(s, config, isProduction, now);
      && run.outcome == Success(())
      && run.state.users == s.users && run.state.userRoles == s.userRoles
  {
  }

  /**
   * When a run adds a user, it is the resolved address as both user name and
   * email, confirmed, named "Admin User", created now, and in the "Admin" role.
   */
  lemma CreatedAdminShape(s: IdentityState, config: Configuration, isProduction: bool, now: DateTime)
    requires Seed(s, config, isProduction, now).state.users != s.users
    ensures var run := Seed(s, config, isProduction, now);
            var email := Resolve(config.adminEmail, isProduction, DefaultEmail, EmailMissing);
      && run.outcome == Success(())
      && email.Success? && !EmailTaken(s.users, email.value)
      && run.state.users == s.users + [AppUser(email.value, email.value, true, Some("Admin"), Some("User"), now)]
      && run.state.userRoles == s.userRoles + [(email.value, AdminRole)]
  {
  }

  /** A failed run writes no user and no role membership. */
  lemma FailureAssignsNoRole(s: IdentityState, config: Configuration, isProduction: bool, now: DateTime)
    requires Seed(s, config, isProduction, now).outcome.Failure?
    ensures Seed(s, config, isProduction, now).state.users == s.users
    ensures Seed(s, config, isProduction, now).state.userRoles == s.userRoles
  {
  }

  /** Running the seeder again, at any later time, changes nothing and ends the same way. */
  lemma {:induction false} SeedIdempotent(s: IdentityState, config: Configuration, isProduction: bool, t1: DateTime, t2: DateTime)
    ensures var first := Seed(s, config, isProduction, t1);
      Seed(first.state, config, isProduction, t2) == first
  {
    var first := Seed(s, config, isProduction, t1);
    var email := Resolve(config.adminEmail, isProduction, DefaultEmail, EmailMissing);
    var password := Resolve(config.adminPassword, isProduction, DefaultPassword, PasswordMissing);
    var s1 := if AdminRole in s.roles then s else s.(roles := s.roles + [AdminRole]);
    assert AdminRole in first.state.roles && first.state.roles == s1.roles;
    if email.Success? && password.Success? && !EmailTaken(s.users, email.value) {
      var errors := CreateErrors(NewAdmin(email.value, t1), password.value, s1.users);
      if errors == [] {
        assert first.state.users == s1.users + [NewAdmin(email.value, t1)];
        assert first.state.users[|s.users|].email == email.value;
        assert EmailTaken(first.state.users, email.value);
      } else {
        assert first.state == s1;
        assert CreateErrors(NewAdmin(email.value, t2), password.value, s1.users) == errors;
      }
    } else {
      assert first.state == s1;
    }
  }
}
