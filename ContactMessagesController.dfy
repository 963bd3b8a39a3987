/**
 * The admin ContactMessagesController: the inbox listing, opening a message
 * (which marks it read), marking it read explicitly and deleting it.
 * The clock is an input.
 */
module ContactMessagesController {
  import opened Wrappers
  import opened Entities
  import opened DataContext
  import opened Repository
  import opened UnitOfWork
  import opened Linq
  import opened Listings
  import opened Mvc

  /** `OrderByDescending(CreatedAt)`: newer messages first. */
  predicate NewerFirst(a: ContactMessage, b: ContactMessage) {
    a.createdAt > b.createdAt
  }

  /** The message after `IsRead = true` and UpdateAsync. */
  function MarkedRead(m: ContactMessage, now: DateTime): (r: ContactMessage)
    ensures r.fields.isRead && r.updatedDate == Some(now)
    ensures r.id == m.id && r.createdAt == m.createdAt && r.isDeleted == m.isDeleted
    ensures r.fields.name == m.fields.name && r.fields.email == m.fields.email
    ensures r.fields.subject == m.fields.subject && r.fields.message == m.fields.message
  {
    m.(fields := m.fields.(isRead := true), updatedDate := Some(now))
  }

  /**
   * The messages after Details has shown message `id`: an unread visible
   * message is marked read, anything else is left as it was.
   */
  function Opened(m: map<Guid, ContactMessage>, id: Guid, now: DateTime): map<Guid, ContactMessage> {
    if id in m && !m[id].isDeleted && !m[id].fields.isRead then m[id := MarkedRead(m[id], now)] else m
  }

  lemma NewerFirstIsStrictWeak()
    ensures StrictWeakOrder(NewerFirst)
  {
  }

  /** GET Index: every visible message once, newest first. */
  method Index(uow: UnitOfWork) returns (page: seq<ContactMessage>)
    requires uow.Valid()
    modifies uow
    ensures uow.Valid() && uow.context.State() == old(uow.context.State())
    ensures Lists(page, uow.context.contactMessages.staged, true, All)
    ensures Sorted(page, NewerFirst)
  {
    var repo := uow.ContactMessages();
    var all := repo.GetAll();
    NewerFirstIsStrictWeak();
    SortLists(all, uow.context.contactMessages.staged, true, All, NewerFirst);
    page := Sort(all, NewerFirst);
  }

  /** GET Details: shows a visible message, marking it read and saving if it was unread. */
  method Details(uow: UnitOfWork, id: Guid, now: DateTime) returns (result: ActionResult)
    requires uow.Valid()
    modifies uow, uow.context.Repr
    ensures uow.Valid()
    ensures var before := old(uow.context.State());
            var m := before.contactMessages.staged;
      if id !in m || m[id].isDeleted then
        result == NotFound && uow.context.State() == before
      else if m[id].fields.isRead then
        result == ShowPage && uow.context.State() == before
      else
        && result == ShowPage
        && uow.context.State() == before.StageContactMessages(Opened(m, id, now)).Published()
  {
    var before := uow.context.State();
    var repo := uow.ContactMessages();
    var message := repo.GetById(id);
    if message.None? {
      result := NotFound;
    } else {
      if !message.value.fields.isRead {
        var _ := repo.Update(message.value.(fields := message.value.fields.(isRead := true)), now);
        assert uow.context.State() == before.StageContactMessages(Opened(before.contactMessages.staged, id, now));
        var _ := uow.SaveChanges();
      }
      result := ShowPage;
    }
  }

  /** POST MarkAsRead: marks a visible message read and stamps it, whatever it was before. */
  method MarkAsRead(uow: UnitOfWork, id: Guid, now: DateTime) returns (result: ActionResult)
    requires uow.Valid()
    modifies uow, uow.context.Repr
    ensures uow.Valid()
    ensures var before := old(uow.context.State());
            var m := before.contactMessages.staged;
      if id !in m || m[id].isDeleted then
        result == NotFound && uow.context.State() == before
      else
        && result == Redirect(ToIndex)
        && uow.context.State() == before.StageContactMessages(m[id := MarkedRead(m[id], now)]).Published()
  {
    var before := uow.context.State();
    var repo := uow.ContactMessages();
    var message := repo.GetById(id);
    if message.None? {
      result := NotFound;
    } else {
      var _ := repo.Update(message.value.(fields := message.value.fields.(isRead := true)), now);
      assert uow.context.State() == before.StageContactMessages(uow.context.contactMessages.staged);
      var _ := uow.SaveChanges();
      result := Redirect(ToIndex);
    }
  }

  /** POST Delete: soft delete of a visible message. */
  method DeleteConfirmed(uow: UnitOfWork, id: Guid, now: DateTime) returns (result: ActionResult)
    requires uow.Valid()
    modifies uow, uow.context.Repr
    ensures uow.Valid()
    ensures var before := old(uow.context.State());
            var m := before.contactMessages.staged;
      if id !in m || m[id].isDeleted then
        result == NotFound && uow.context.State() == before
      else
        && result == Redirect(ToIndex)
        && uow.context.State() == before.StageContactMessages(m[id := SoftDeleted(m[id], now)]).Published()
  {
    var before := uow.context.State();
    var repo := uow.ContactMessages();
    var message := repo.GetById(id);
    if message.None? {
      result := NotFound;
    } else {
      repo.Delete(id, now);
      assert uow.context.State() == before.StageContactMessages(uow.context.contactMessages.staged);
      var _ := uow.SaveChanges();
      result := Redirect(ToIndex);
    }
  }

  /** Opening a message a second time changes nothing, at any later time. */
  lemma OpenedIdempotent(m: map<Guid, ContactMessage>, id: Guid, t1: DateTime, t2: DateTime)
    ensures Opened(Opened(m, id, t1), id, t2) == Opened(m, id, t1)
  {
  }

  /**
   * Opening or marking a visible message removes exactly that message from
   * the unread ones the dashboard counts.
   */
  lemma {:induction false} ReadingClearsUnread(m: map<Guid, ContactMessage>, id: Guid, now: DateTime)
    requires id in m && !m[id].isDeleted
    ensures MatchingIds(m[id := MarkedRead(m[id], now)], true, IsUnread) == MatchingIds(m, true, IsUnread) - {id}
    ensures MatchingIds(Opened(m, id, now), true, IsUnread) == MatchingIds(m, true, IsUnread) - {id}
  {
    var after := m[id := MarkedRead(m[id], now)];
    assert MatchingIds(after, true, IsUnread) == MatchingIds(m, true, IsUnread) - {id};
    if m[id].fields.isRead {
      assert id !in MatchingIds(m, true, IsUnread);
    }
  }

  /**
   * No action of the controller turns a read message back into an unread
   * one: opening, marking and deleting all keep `IsRead` where it was set.
   */
  lemma NeverUnread(m: map<Guid, ContactMessage>, id: Guid, now: DateTime, k: Guid)
    requires k in m && m[k].fields.isRead
    ensures Opened(m, id, now)[k].fields.isRead
    ensures id in m ==> m[id := MarkedRead(m[id], now)][k].fields.isRead
    ensures id in m ==> m[id := SoftDeleted(m[id], now)][k].fields.isRead
  {
  }
}
