/**
 * The part of ASP.NET Core Identity the startup seeder drives: the role and
 * user tables behind RoleManager and UserManager, the password policy the
 * site configures, and the user checks CreateAsync makes before it stores
 * a user.
 */
module Identity {
  import opened Wrappers
  import opened Entities
  import opened Text
  import opened ContactMessageValidator

  /** An ApplicationUser row, keyed here by its user name. */
  datatype AppUser = AppUser(
    userName: string,
    email: string,
    emailConfirmed: bool,
    firstName: Option<string>,
    lastName: Option<string>,
    createdAt: DateTime)

  /** The reasons CreateAsync refuses a user, in the order it reports them. */
  datatype IdentityError =
    | PasswordTooShort
    | PasswordRequiresNonAlphanumeric
    | PasswordRequiresDigit
    | PasswordRequiresLower
    | PasswordRequiresUpper
    | InvalidUserName
    | DuplicateUserName
    | InvalidEmail
    | DuplicateEmail

  /** The password options the site configures. */
  const RequiredLength := 8

  predicate IsDigit(c: char) { '0' <= c <= '9' }
  predicate IsLower(c: char) { 'a' <= c <= 'z' }
  predicate IsUpper(c: char) { 'A' <= c <= 'Z' }
  predicate IsLetterOrDigit(c: char) { IsDigit(c) || IsLower(c) || IsUpper(c) }

  /** Whether some character of `s` is of the kind `p` describes. */
  predicate Has(s: string, p: char -> bool) {
    exists i :: 0 <= i < |s| && p(s[i])
  }

  predicate IsSymbol(c: char) { !IsLetterOrDigit(c) }

  /**
   * The password validator: each rule of the policy that the password breaks.
   * A password of white space only counts as too short whatever its length.
   */
  function PasswordErrors(password: string): (errors: seq<IdentityError>)
    ensures PasswordTooShort in errors <==> IsNullOrWhiteSpace(password) || |password| < RequiredLength
    ensures PasswordRequiresNonAlphanumeric in errors <==> !Has(password, IsSymbol)
    ensures PasswordRequiresDigit in errors <==> !Has(password, IsDigit)
    ensures PasswordRequiresLower in errors <==> !Has(password, IsLower)
    ensures PasswordRequiresUpper in errors <==> !Has(password, IsUpper)
    ensures errors == [] <==>
      !IsNullOrWhiteSpace(password) && |password| >= RequiredLength && Has(password, IsSymbol) && Has(password, IsDigit)
      && Has(password, IsLower) && Has(password, IsUpper)
  {
    (if IsNullOrWhiteSpace(password) || |password| < RequiredLength then [PasswordTooShort] else [])
    + (if Has(password, IsSymbol) then [] else [PasswordRequiresNonAlphanumeric])
    + (if Has(password, IsDigit) then [] else [PasswordRequiresDigit])
    + (if Has(password, IsLower) then [] else [PasswordRequiresLower])
    + (if Has(password, IsUpper) then [] else [PasswordRequiresUpper])
  }

  /** The characters a user name may contain by default: ASCII letters and digits and "-._@+". */
  predicate AllowedUserNameCharacter(c: char) {
    IsLetterOrDigit(c) || c in "-._@+"
  }

  predicate UserNameAllowed(userName: string) {
    !IsNullOrWhiteSpace(userName) && forall i :: 0 <= i < |userName| ==> AllowedUserNameCharacter(userName[i])
  }

  predicate UserNameTaken(users: seq<AppUser>, userName: string) {
    exists i :: 0 <= i < |users| && users[i].userName == userName
  }

  predicate EmailTaken(users: seq<AppUser>, email: string) {
    exists i :: 0 <= i < |users| && users[i].email == email
  }

  /**
   * The user validator with a unique email required: a user name made of
   * the allowed characters and not taken, and an address that passes the
   * email check and is not taken.
   */
  function UserErrors(user: AppUser, users: seq<AppUser>): (errors: seq<IdentityError>)
    ensures errors == [] <==>
      UserNameAllowed(user.userName) && !UserNameTaken(users, user.userName)
      && !IsNullOrWhiteSpace(user.email) && IsEmailAddress(user.email) && !EmailTaken(users, user.email)
  {
    (if !UserNameAllowed(user.userName) then [InvalidUserName]
     else if UserNameTaken(users, user.userName) then [DuplicateUserName]
     else [])
    + (if IsNullOrWhiteSpace(user.email) || !IsEmailAddress(user.email) then [InvalidEmail]
       else if EmailTaken(users, user.email) then [DuplicateEmail]
       else [])
  }

  /** CreateAsync(user, password) checks the password first and the user only after it passes. */
  function CreateErrors(user: AppUser, password: string, users: seq<AppUser>): (errors: seq<IdentityError>)
    ensures errors == [] <==> PasswordErrors(password) == [] && UserErrors(user, users) == []
  {
    if PasswordErrors(password) != [] then PasswordErrors(password) else UserErrors(user, users)
  }

  datatype IdentityState = IdentityState(roles: seq<string>, users: seq<AppUser>, userRoles: seq<(string, string)>)

  /** The role, user and user-role tables RoleManager and UserManager work on. */
  class IdentityStore {
    var roles: seq<string>
    var users: seq<AppUser>
    var userRoles: seq<(string, string)>

    function State(): IdentityState
      reads this
    {
      IdentityState(roles, users, userRoles)
    }

    constructor (s: IdentityState)
      ensures State() == s
    {
      roles, users, userRoles := s.roles, s.users, s.userRoles;
    }

    /** RoleManager.RoleExistsAsync. */
    method RoleExists(name: string) returns (b: bool)
      ensures b <==> name in roles
    {
      b := name in roles;
    }

    /** RoleManager.CreateAsync: a role name already present is refused. */
    method CreateRole(name: string) returns (succeeded: bool)
      modifies this
      ensures succeeded <==> name !in old(roles)
      ensures roles == if succeeded then old(roles) + [name] else old(roles)
      ensures users == old(users) && userRoles == old(userRoles)
    {
      succeeded := name !in roles;
      if succeeded {
        roles := roles + [name];
      }
    }

    /** UserManager.FindByEmailAsync. */
    method FindByEmail(email: string) returns (u: Option<AppUser>)
      ensures u.Some? <==> EmailTaken(users, email)
      ensures u.Some? ==> u.value in users && u.value.email == email
    {
      u := None;
      var i := 0;
      while i < |users|
        invariant 0 <= i <= |users|
        invariant forall j :: 0 <= j < i ==> users[j].email != email
      {
        if users[i].email == email {
          return Some(users[i]);
        }
        i := i + 1;
      }
    }

    /** UserManager.CreateAsync(user, password): stores the user unless a check fails. */
    method CreateUser(user: AppUser, password: string) returns (errors: seq<IdentityError>)
      modifies this
      ensures errors == CreateErrors(user, password, old(users))
      ensures users == if errors == [] then old(users) + [user] else old(users)
      ensures roles == old(roles) && userRoles == old(userRoles)
    {
      errors := CreateErrors(user, password, users);
      if errors == [] {
        users := users + [user];
      }
    }

    /** UserManager.AddToRoleAsync. */
    method AddToRole(user: AppUser, role: string)
      modifies this
      ensures userRoles == old(userRoles) + [(user.userName, role)]
      ensures roles == old(roles) && users == old(users)
    {
      userRoles := userRoles + [(user.userName, role)];
    }
  }
}
