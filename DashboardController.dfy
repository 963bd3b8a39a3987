/** The admin dashboard: four counts over the default queries, with no writes. */
module DashboardController {
  import opened Entities
  import opened DataContext
  import opened Repository
  import opened UnitOfWork

  datatype DashboardView = DashboardView(
    totalProjects: nat,
    totalMessages: nat,
    unreadMessages: nat,
    featuredProjects: nat)

  /** GET Index. */
  method Index(uow: UnitOfWork) returns (view: DashboardView)
    requires uow.Valid()
    modifies uow
    ensures uow.Valid() && uow.context.State() == old(uow.context.State())
    ensures var projects := uow.context.projects.staged;
            var messages := uow.context.contactMessages.staged;
      && view.totalProjects == |MatchingIds(projects, true, All)|
      && view.totalMessages == |MatchingIds(messages, true, All)|
      && view.unreadMessages == |MatchingIds(messages, true, IsUnread)|
      && view.featuredProjects == |MatchingIds(projects, true, IsFeatured)|
    ensures view.unreadMessages <= view.totalMessages
    ensures view.featuredProjects <= view.totalProjects
  {
    var totalProjects, featuredProjects := CountProjects(uow);
    var totalMessages, unreadMessages := CountMessages(uow);
    view := DashboardView(totalProjects, totalMessages, unreadMessages, featuredProjects);
  }

  /** The two project counts: all visible projects and the featured ones. */
  method CountProjects(uow: UnitOfWork) returns (total: nat, featured: nat)
    requires uow.Valid()
    modifies uow
    ensures uow.Valid() && uow.context.State() == old(uow.context.State())
    ensures total == |MatchingIds(uow.context.projects.staged, true, All)|
    ensures featured == |MatchingIds(uow.context.projects.staged, true, IsFeatured)|
    ensures featured <= total
  {
    var repo := uow.Projects();
    var all := repo.GetAll();
    var some := repo.Find(IsFeatured);
    var m := uow.context.projects.staged;
    ListingSize(all, m, true, All);
    ListingSize(some, m, true, IsFeatured);
    NarrowerQueryNoLarger(m, true, All, IsFeatured);
    total, featured := |all|, |some|;
  }

  /** The two message counts: all visible messages and the unread ones. */
  method CountMessages(uow: UnitOfWork) returns (total: nat, unread: nat)
    requires uow.Valid()
    modifies uow
    ensures uow.Valid() && uow.context.State() == old(uow.context.State())
    ensures total == |MatchingIds(uow.context.contactMessages.staged, true, All)|
    ensures unread == |MatchingIds(uow.context.contactMessages.staged, true, IsUnread)|
    ensures unread <= total
  {
    var repo := uow.ContactMessages();
    var all := repo.GetAll();
    var some := repo.Find(IsUnread);
    var m := uow.context.contactMessages.staged;
    ListingSize(all, m, true, All);
    ListingSize(some, m, true, IsUnread);
    NarrowerQueryNoLarger(m, true, All, IsUnread);
    total, unread := |all|, |some|;
  }
}
