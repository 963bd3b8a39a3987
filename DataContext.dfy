/**
 * The persistence session: one `EntitySet` per entity kind (EF Core's DbSet)
 * and the context that owns them.  Each set holds two maps keyed by Id: `saved`,
 * the rows in the database, and `staged`, the rows as the session sees them
 * with every pending add, edit and removal applied.  Only `SaveChanges`
 * copies the staged rows into the database.
 */
module DataContext {
  import opened Wrappers
  import opened Entities

  /** Every row is stored under its own Id. */
  ghost predicate KeysMatch<T>(m: map<Guid, Entity<T>>) {
    forall id :: id in m ==> m[id].id == id
  }

  /** Ids whose row differs between the database and the session. */
  function PendingIds<T(==)>(saved: map<Guid, Entity<T>>, staged: map<Guid, Entity<T>>): set<Guid> {
    set id | id in saved.Keys + staged.Keys
      && (id !in saved || id !in staged || saved[id] != staged[id])
  }

  /** Nothing is pending exactly when the session and the database agree. */
  lemma NothingPendingIffSame<T>(saved: map<Guid, Entity<T>>, staged: map<Guid, Entity<T>>)
    ensures PendingIds(saved, staged) == {} <==> saved == staged
  {
    var ids := PendingIds(saved, staged);
    if ids == {} {
      forall id | id in saved.Keys + staged.Keys ensures id in saved && id in staged {
        assert id !in ids;
      }
      assert saved.Keys == staged.Keys;
      forall id | id in saved ensures saved[id] == staged[id] {
        assert id !in ids;
      }
    }
  }

  /** DbSet<T>: one table, its tracked view, and whether the soft-delete filter applies. */
  class EntitySet<T(==)> {
    var saved: map<Guid, Entity<T>>
    var staged: map<Guid, Entity<T>>
    const filtered: bool

    ghost predicate Valid()
      reads this
    {
      KeysMatch(saved) && KeysMatch(staged)
    }

    constructor (filtered: bool)
      ensures Valid() && this.filtered == filtered
      ensures saved == map[] && staged == map[]
    {
      this.filtered := filtered;
      saved := map[];
      staged := map[];
    }

    /**
     * The change tracker records field assignments made on a tracked instance;
     * this writes the assigned row back into the session.
     */
    method WriteBack(e: Entity<T>)
      requires Valid() && e.id in staged
      modifies this
      ensures Valid()
      ensures staged == old(staged)[e.id := e] && saved == old(saved)
    {
      staged := staged[e.id := e];
    }

    /** Writes the session's rows of this set to the database. */
    method Publish()
      requires Valid()
      modifies this
      ensures Valid()
      ensures saved == old(staged) && staged == old(staged)
    {
      saved := staged;
    }
  }

  /** The value of one set: database rows and session rows. */
  datatype Table<T> = Table(saved: map<Guid, Entity<T>>, staged: map<Guid, Entity<T>>) {
    function Published(): Table<T> {
      Table(staged, staged)
    }
  }

  /** The value of the whole session. */
  datatype DbState = DbState(
    projects: Table<ProjectFields>,
    contactMessages: Table<ContactMessageFields>,
    resumeItems: Table<ResumeItemFields>,
    skills: Table<SkillFields>,
    aboutMe: Table<AboutMeFields>)
  {
    /** The state after SaveChanges: every staged row is in the database. */
    function Published(): DbState {
      DbState(projects.Published(), contactMessages.Published(), resumeItems.Published(),
              skills.Published(), aboutMe.Published())
    }

    /** The number of rows whose value SaveChanges changes in the database. */
    function PendingCount(): nat {
      |PendingIds(projects.saved, projects.staged)|
      + |PendingIds(contactMessages.saved, contactMessages.staged)|
      + |PendingIds(resumeItems.saved, resumeItems.staged)|
      + |PendingIds(skills.saved, skills.staged)|
      + |PendingIds(aboutMe.saved, aboutMe.staged)|
    }

    function StageProjects(m: map<Guid, Project>): DbState {
      this.(projects := projects.(staged := m))
    }

    function StageContactMessages(m: map<Guid, ContactMessage>): DbState {
      this.(contactMessages := contactMessages.(staged := m))
    }

    function StageResumeItems(m: map<Guid, ResumeItem>): DbState {
      this.(resumeItems := resumeItems.(staged := m))
    }

    function StageSkills(m: map<Guid, Skill>): DbState {
      this.(skills := skills.(staged := m))
    }

    function StageAboutMe(m: map<Guid, AboutMe>): DbState {
      this.(aboutMe := aboutMe.(staged := m))
    }
  }

  /** ApplicationDbContext: the five sets of one session. */
  class ApplicationDbContext {
    const projects: EntitySet<ProjectFields>
    const contactMessages: EntitySet<ContactMessageFields>
    const resumeItems: EntitySet<ResumeItemFields>
    const skills: EntitySet<SkillFields>
    const aboutMe: EntitySet<AboutMeFields>
    ghost const Repr: set<object>
    var disposed: bool

    ghost predicate Valid()
      reads this, Repr
    {
      && Repr == {projects as object, contactMessages, resumeItems, skills, aboutMe}
      && projects.Valid() && contactMessages.Valid() && resumeItems.Valid()
      && skills.Valid() && aboutMe.Valid()
      // HasQueryFilter(e => !e.IsDeleted) is configured for these two kinds only.
      && projects.filtered && contactMessages.filtered
    }

    function State(): DbState
      reads this, Repr
      requires Valid()
    {
      DbState(
        Table(projects.saved, projects.staged),
        Table(contactMessages.saved, contactMessages.staged),
        Table(resumeItems.saved, resumeItems.staged),
        Table(skills.saved, skills.staged),
        Table(aboutMe.saved, aboutMe.staged))
    }

    /** Whether the session has nothing to write. */
    ghost predicate Clean()
      reads this, Repr
      requires Valid()
    {
      && projects.saved == projects.staged
      && contactMessages.saved == contactMessages.staged
      && resumeItems.saved == resumeItems.staged
      && skills.saved == skills.staged
      && aboutMe.saved == aboutMe.staged
    }

    /**
     * A session over an empty database.  Whether ResumeItem, Skill and AboutMe
     * have the soft-delete filter is not fixed by the configured model, so it
     * is a parameter.
     */
    constructor (resumeItemsFiltered: bool, skillsFiltered: bool, aboutMeFiltered: bool)
      ensures Valid() && fresh(Repr) && !disposed
      ensures resumeItems.filtered == resumeItemsFiltered
      ensures skills.filtered == skillsFiltered
      ensures aboutMe.filtered == aboutMeFiltered
      ensures Clean() && State().projects.saved == map[]
    {
      var p := new EntitySet<ProjectFields>(true);
      var c := new EntitySet<ContactMessageFields>(true);
      var r := new EntitySet<ResumeItemFields>(resumeItemsFiltered);
      var s := new EntitySet<SkillFields>(skillsFiltered);
      var a := new EntitySet<AboutMeFields>(aboutMeFiltered);
      projects, contactMessages, resumeItems, skills, aboutMe := p, c, r, s, a;
      Repr := {p as object, c, r, s, a};
      disposed := false;
    }

    /**
     * SaveChanges: writes every pending add, edit and removal of every set to the
     * database and returns how many rows changed value.
     */
    method SaveChanges() returns (written: nat)
      requires Valid()
      modifies Repr
      ensures Valid()
      ensures State() == old(State()).Published()
      ensures written == old(State()).PendingCount()
      ensures Clean()
    {
      written := State().PendingCount();
      PublishAll();
    }

    /** Copies the staged rows of every set into the database. */
    method PublishAll()
      requires Valid()
      modifies Repr
      ensures Valid()
      ensures State() == old(State()).Published()
    {
      var before := State();
      projects.Publish();
      contactMessages.Publish();
      resumeItems.Publish();
      skills.Publish();
      aboutMe.Publish();
      assert State().projects == before.projects.Published();
      assert State().contactMessages == before.contactMessages.Published();
      assert State().resumeItems == before.resumeItems.Published();
      assert State().skills == before.skills.Published();
      assert State().aboutMe == before.aboutMe.Published();
    }

    method Dispose()
      modifies this
      ensures disposed
    {
      disposed := true;
    }
  }
}
