/**
 * UnitOfWork: one session, five lazily created repositories over it, and an
 * optional open database transaction.
 */
module UnitOfWork {
  import opened Entities
  import opened DataContext
  import opened Repository

  datatype TransactionState = Active | Committed | RolledBack

  /** IDbContextTransaction. */
  class Transaction {
    var state: TransactionState
    var disposed: bool

    constructor ()
      ensures state == Active && !disposed
    {
      state := Active;
      disposed := false;
    }

    method Commit()
      modifies this
      ensures state == Committed && disposed == old(disposed)
    {
      state := Committed;
    }

    method Rollback()
      modifies this
      ensures state == RolledBack && disposed == old(disposed)
    {
      state := RolledBack;
    }

    /** Disposing a transaction that was never completed rolls it back. */
    method Dispose()
      modifies this
      ensures disposed
      ensures state == if old(state) == Active then RolledBack else old(state)
    {
      if state == Active {
        state := RolledBack;
      }
      disposed := true;
    }
  }

  class UnitOfWork {
    const context: ApplicationDbContext
    var transaction: Transaction?
    var projects: GenericRepository?<ProjectFields>
    var contactMessages: GenericRepository?<ContactMessageFields>
    var resumeItems: GenericRepository?<ResumeItemFields>
    var skills: GenericRepository?<SkillFields>
    var aboutMe: GenericRepository?<AboutMeFields>

    /** The session is consistent and every cached repository works on its own set. */
    ghost predicate Valid()
      reads this, context, context.Repr
    {
      && context.Valid()
      && (projects != null ==> projects.dbSet == context.projects)
      && (contactMessages != null ==> contactMessages.dbSet == context.contactMessages)
      && (resumeItems != null ==> resumeItems.dbSet == context.resumeItems)
      && (skills != null ==> skills.dbSet == context.skills)
      && (aboutMe != null ==> aboutMe.dbSet == context.aboutMe)
    }

    constructor (context: ApplicationDbContext)
      requires context.Valid()
      ensures Valid() && this.context == context
      ensures transaction == null
      ensures projects == null && contactMessages == null && resumeItems == null
      ensures skills == null && aboutMe == null
    {
      this.context := context;
      transaction := null;
      projects, contactMessages, resumeItems, skills, aboutMe := null, null, null, null, null;
    }

    /** The Projects accessor: created on first use, the same instance afterwards. */
    method Projects() returns (r: GenericRepository<ProjectFields>)
      requires Valid()
      modifies this`projects
      ensures Valid() && r == projects && r.dbSet == context.projects
      ensures old(projects) != null ==> r == old(projects)
      ensures old(projects) == null ==> fresh(r)
    {
      if projects == null {
        projects := new GenericRepository(context.projects);
      }
      r := projects;
    }

    method ContactMessages() returns (r: GenericRepository<ContactMessageFields>)
      requires Valid()
      modifies this`contactMessages
      ensures Valid() && r == contactMessages && r.dbSet == context.contactMessages
      ensures old(contactMessages) != null ==> r == old(contactMessages)
      ensures old(contactMessages) == null ==> fresh(r)
    {
      if contactMessages == null {
        contactMessages := new GenericRepository(context.contactMessages);
      }
      r := contactMessages;
    }

    method ResumeItems() returns (r: GenericRepository<ResumeItemFields>)
      requires Valid()
      modifies this`resumeItems
      ensures Valid() && r == resumeItems && r.dbSet == context.resumeItems
      ensures old(resumeItems) != null ==> r == old(resumeItems)
      ensures old(resumeItems) == null ==> fresh(r)
    {
      if resumeItems == null {
        resumeItems := new GenericRepository(context.resumeItems);
      }
      r := resumeItems;
    }

    method Skills() returns (r: GenericRepository<SkillFields>)
      requires Valid()
      modifies this`skills
      ensures Valid() && r == skills && r.dbSet == context.skills
      ensures old(skills) != null ==> r == old(skills)
      ensures old(skills) == null ==> fresh(r)
    {
      if skills == null {
        skills := new GenericRepository(context.skills);
      }
      r := skills;
    }

    method AboutMe() returns (r: GenericRepository<AboutMeFields>)
      requires Valid()
      modifies this`aboutMe
      ensures Valid() && r == aboutMe && r.dbSet == context.aboutMe
      ensures old(aboutMe) != null ==> r == old(aboutMe)
      ensures old(aboutMe) == null ==> fresh(r)
    {
      if aboutMe == null {
        aboutMe := new GenericRepository(context.aboutMe);
      }
      r := aboutMe;
    }

    /**
     * Opens a transaction.  The connection refuses a second one while the
     * current transaction is still active (an InvalidOperationException,
     * here `started == false`), and the open transaction is kept.
     */
    method BeginTransaction() returns (started: bool)
      modifies this`transaction
      ensures started <==> old(transaction) == null || old(transaction.state) != Active
      ensures started ==> transaction != null && fresh(transaction)
                          && transaction.state == Active && !transaction.disposed
      ensures !started ==> transaction == old(transaction)
    {
      if transaction != null && transaction.state == Active {
        started := false;
      } else {
        transaction := new Transaction();
        started := true;
      }
    }

    /** Commits and disposes the open transaction; a no-op when none is open. */
    method CommitTransaction()
      modifies this`transaction, transaction
      ensures transaction == null
      ensures old(transaction) != null ==> old(transaction).state == Committed && old(transaction).disposed
    {
      if transaction != null {
        transaction.Commit();
        transaction.Dispose();
        transaction := null;
      }
    }

    /** Rolls back and disposes the open transaction; a no-op when none is open. */
    method RollbackTransaction()
      modifies this`transaction, transaction
      ensures transaction == null
      ensures old(transaction) != null ==> old(transaction).state == RolledBack && old(transaction).disposed
    {
      if transaction != null {
        transaction.Rollback();
        transaction.Dispose();
        transaction := null;
      }
    }

    /** SaveChangesAsync: the only way staged changes reach the database. */
    method SaveChanges() returns (written: nat)
      requires Valid()
      modifies context.Repr
      ensures Valid()
      ensures context.State() == old(context.State()).Published()
      ensures written == old(context.State()).PendingCount()
    {
      written := context.SaveChanges();
    }

    /** Disposes the open transaction, if any, and then the session. */
    method Dispose()
      modifies transaction, context
      ensures context.disposed
      ensures transaction == old(transaction)
      ensures transaction != null ==> transaction.disposed
      ensures transaction != null ==>
                transaction.state == if old(transaction.state) == Active then RolledBack else old(transaction.state)
    {
      if transaction != null {
        transaction.Dispose();
      }
      context.Dispose();
    }
  }
}
