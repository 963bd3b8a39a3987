/**
 * The public ContactController's POST Index: a submitted message is
 * validated, then added to the inbox and saved.  Model binding's own
 * verdict, `Guid.NewGuid` and the clock are inputs.
 */
module ContactController {
  import opened Wrappers
  import opened Entities
  import opened DataContext
  import opened Repository
  import opened UnitOfWork
  import opened ContactMessageValidator
  import opened Mvc

  /** POST Index. */
  method Index(uow: UnitOfWork, model: ContactMessage, bindingValid: bool, newGuid: Guid, now: DateTime)
    returns (result: ActionResult)
    requires uow.Valid()
    requires newGuid != EmptyGuid && newGuid !in uow.context.contactMessages.staged
    modifies uow, uow.context.Repr
    ensures uow.Valid()
    ensures var before := old(uow.context.State());
            var m := before.contactMessages.staged;
            var row := Stamped(model, newGuid, now);
      if !bindingValid || !IsValid(model.fields) then
        result == ShowForm && uow.context.State() == before
      else if row.id in m then
        result == ServerError && uow.context.State() == before
      else
        && result == Redirect(ToIndex)
        && uow.context.State() == before.StageContactMessages(m[row.id := row]).Published()
  {
    if !bindingValid || !IsValid(model.fields) {
      result := ShowForm;
    } else {
      result := SaveMessage(uow, model, newGuid, now);
    }
  }

  /** The part of POST Index after validation: add the message and save. */
  method SaveMessage(uow: UnitOfWork, model: ContactMessage, newGuid: Guid, now: DateTime) returns (result: ActionResult)
    requires uow.Valid()
    requires newGuid != EmptyGuid && newGuid !in uow.context.contactMessages.staged
    modifies uow, uow.context.Repr
    ensures uow.Valid()
    ensures var before := old(uow.context.State());
            var m := before.contactMessages.staged;
            var row := Stamped(model, newGuid, now);
      if row.id in m then
        result == ServerError && uow.context.State() == before
      else
        && result == Redirect(ToIndex)
        && uow.context.State() == before.StageContactMessages(m[row.id := row]).Published()
  {
    var before := uow.context.State();
    var repo := uow.ContactMessages();
    var added := repo.Add(model, newGuid, now);
    if added.Failure? {
      result := ServerError;
    } else {
      assert uow.context.State() == before.StageContactMessages(uow.context.contactMessages.staged);
      var _ := uow.SaveChanges();
      result := Redirect(ToIndex);
    }
  }

  /**
   * A submission leaves every existing message as it was and, when the new
   * message is unread, adds exactly it to the unread ones.
   */
  lemma {:induction false} SubmissionKeepsInbox(m: map<Guid, ContactMessage>, row: ContactMessage)
    requires row.id !in m
    ensures forall k :: k in m ==> k in m[row.id := row] && m[row.id := row][k] == m[k]
    ensures !row.isDeleted && IsUnread(row) ==>
      MatchingIds(m[row.id := row], true, IsUnread) == MatchingIds(m, true, IsUnread) + {row.id}
  {
    if !row.isDeleted && IsUnread(row) {
      var after := m[row.id := row];
      forall id | id in MatchingIds(after, true, IsUnread)
        ensures id in MatchingIds(m, true, IsUnread) + {row.id}
      {
        if id != row.id {
          assert after[id] == m[id];
        }
      }
    }
  }
}
