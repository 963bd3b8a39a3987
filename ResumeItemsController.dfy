/** The admin ResumeItemsController's POST actions as transitions of the session. */
module ResumeItemsController {
  import opened Wrappers
  import opened Entities
  import opened DataContext
  import opened Repository
  import opened UnitOfWork
  import opened Mvc

  /**
   * The stored item after Edit: the eight editable fields come from the
   * form; Id, CreatedAt, UpdatedDate and IsDeleted stay as stored.
   */
  function Edited(stored: ResumeItem, form: ResumeItemFields): (r: ResumeItem)
    ensures r.id == stored.id && r.createdAt == stored.createdAt
    ensures r.updatedDate == stored.updatedDate && r.isDeleted == stored.isDeleted
    ensures r.fields == form
  {
    stored.(fields := ResumeItemFields(form.title, form.companyOrInstitution, form.location,
                                       form.startDate, form.endDate, form.description,
                                       form.displayOrder, form.itemType))
  }

  /** POST Create: a valid form adds one item and saves; an invalid one changes nothing. */
  method Create(uow: UnitOfWork, item: ResumeItem, modelValid: bool, newGuid: Guid, now: DateTime)
    returns (result: ActionResult)
    requires uow.Valid()
    requires newGuid != EmptyGuid && newGuid !in uow.context.resumeItems.staged
    modifies uow, uow.context.Repr
    ensures uow.Valid()
    ensures var before := old(uow.context.State());
            var row := Stamped(item, newGuid, now);
      if !modelValid then
        result == ShowForm && uow.context.State() == before
      else if row.id in before.resumeItems.staged then
        result == ServerError && uow.context.State() == before
      else
        && result == Redirect(ToIndex)
        && uow.context.State() == before.StageResumeItems(before.resumeItems.staged[row.id := row]).Published()
  {
    if !modelValid {
      result := ShowForm;
    } else {
      var before := uow.context.State();
      var repo := uow.ResumeItems();
      var added := repo.Add(item, newGuid, now);
      if added.Failure? {
        result := ServerError;
      } else {
        assert uow.context.State() == before.StageResumeItems(uow.context.resumeItems.staged);
        var _ := uow.SaveChanges();
        result := Redirect(ToIndex);
      }
    }
  }

  /** POST Edit. */
  method Edit(uow: UnitOfWork, id: Guid, item: ResumeItem, modelValid: bool) returns (result: ActionResult)
    requires uow.Valid()
    modifies uow, uow.context.Repr
    ensures uow.Valid()
    ensures var before := old(uow.context.State());
            var m := before.resumeItems.staged;
      if id != item.id then
        result == NotFound && uow.context.State() == before
      else if !modelValid then
        result == ShowForm && uow.context.State() == before
      else if id !in m || !Visible(m[id], uow.context.resumeItems.filtered) then
        result == NotFound && uow.context.State() == before
      else
        && result == Redirect(ToIndex)
        && uow.context.State() == before.StageResumeItems(m[id := Edited(m[id], item.fields)]).Published()
  {
    if id != item.id {
      result := NotFound;
    } else if !modelValid {
      result := ShowForm;
    } else {
      var before := uow.context.State();
      var repo := uow.ResumeItems();
      var existing := repo.GetById(id);
      if existing.None? {
        result := NotFound;
      } else {
        var edited := Edited(existing.value, item.fields);
        uow.context.resumeItems.WriteBack(edited);
        assert uow.context.State() == before.StageResumeItems(before.resumeItems.staged[id := edited]);
        var _ := uow.SaveChanges();
        result := Redirect(ToIndex);
      }
    }
  }

  /** POST Delete: soft delete of a visible item; the row stays in the table. */
  method DeleteConfirmed(uow: UnitOfWork, id: Guid, now: DateTime) returns (result: ActionResult)
    requires uow.Valid()
    modifies uow, uow.context.Repr
    ensures uow.Valid()
    ensures var before := old(uow.context.State());
            var m := before.resumeItems.staged;
      if id !in m || !Visible(m[id], uow.context.resumeItems.filtered) then
        result == NotFound && uow.context.State() == before
      else
        && result == Redirect(ToIndex)
        && uow.context.State() == before.StageResumeItems(m[id := SoftDeleted(m[id], now)]).Published()
  {
    var before := uow.context.State();
    var repo := uow.ResumeItems();
    if repo.GetById(id).None? {
      result := NotFound;
    } else {
      repo.Delete(id, now);
      assert uow.context.State() == before.StageResumeItems(uow.context.resumeItems.staged);
      var _ := uow.SaveChanges();
      result := Redirect(ToIndex);
    }
  }
}
