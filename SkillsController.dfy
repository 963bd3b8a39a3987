/** The admin SkillsController's POST actions as transitions of the session. */
module SkillsController {
  import opened Wrappers
  import opened Entities
  import opened DataContext
  import opened Repository
  import opened UnitOfWork
  import opened Mvc

  /**
   * The stored skill after Edit: Name, Category and DisplayOrder come from
   * the form; every other field stays as stored.
   */
  function Edited(stored: Skill, form: SkillFields): (r: Skill)
    ensures r.id == stored.id && r.createdAt == stored.createdAt
    ensures r.updatedDate == stored.updatedDate && r.isDeleted == stored.isDeleted
    ensures r.fields == form
  {
    stored.(fields := SkillFields(form.name, form.category, form.displayOrder))
  }

  /** POST Create: a valid form adds one skill and saves; an invalid one changes nothing. */
  method Create(uow: UnitOfWork, skill: Skill, modelValid: bool, newGuid: Guid, now: DateTime)
    returns (result: ActionResult)
    requires uow.Valid()
    requires newGuid != EmptyGuid && newGuid !in uow.context.skills.staged
    modifies uow, uow.context.Repr
    ensures uow.Valid()
    ensures var before := old(uow.context.State());
            var row := Stamped(skill, newGuid, now);
      if !modelValid then
        result == ShowForm && uow.context.State() == before
      else if row.id in before.skills.staged then
        result == ServerError && uow.context.State() == before
      else
        && result == Redirect(ToIndex)
        && uow.context.State() == before.StageSkills(before.skills.staged[row.id := row]).Published()
  {
    if !modelValid {
      result := ShowForm;
    } else {
      var before := uow.context.State();
      var repo := uow.Skills();
      var added := repo.Add(skill, newGuid, now);
      if added.Failure? {
        result := ServerError;
      } else {
        assert uow.context.State() == before.StageSkills(uow.context.skills.staged);
        var _ := uow.SaveChanges();
        result := Redirect(ToIndex);
      }
    }
  }

  /** POST Edit. */
  method Edit(uow: UnitOfWork, id: Guid, skill: Skill, modelValid: bool) returns (result: ActionResult)
    requires uow.Valid()
    modifies uow, uow.context.Repr
    ensures uow.Valid()
    ensures var before := old(uow.context.State());
            var m := before.skills.staged;
      if id != skill.id then
        result == NotFound && uow.context.State() == before
      else if !modelValid then
        result == ShowForm && uow.context.State() == before
      else if id !in m || !Visible(m[id], uow.context.skills.filtered) then
        result == NotFound && uow.context.State() == before
      else
        && result == Redirect(ToIndex)
        && uow.context.State() == before.StageSkills(m[id := Edited(m[id], skill.fields)]).Published()
  {
    if id != skill.id {
      result := NotFound;
    } else if !modelValid {
      result := ShowForm;
    } else {
      var before := uow.context.State();
      var repo := uow.Skills();
      var existing := repo.GetById(id);
      if existing.None? {
        result := NotFound;
      } else {
        var edited := Edited(existing.value, skill.fields);
        uow.context.skills.WriteBack(edited);
        assert uow.context.State() == before.StageSkills(before.skills.staged[id := edited]);
        var _ := uow.SaveChanges();
        result := Redirect(ToIndex);
      }
    }
  }

  /** POST Delete: soft delete of a visible skill; the row stays in the table. */
  method DeleteConfirmed(uow: UnitOfWork, id: Guid, now: DateTime) returns (result: ActionResult)
    requires uow.Valid()
    modifies uow, uow.context.Repr
    ensures uow.Valid()
    ensures var before := old(uow.context.State());
            var m := before.skills.staged;
      if id !in m || !Visible(m[id], uow.context.skills.filtered) then
        result == NotFound && uow.context.State() == before
      else
        && result == Redirect(ToIndex)
        && uow.context.State() == before.StageSkills(m[id := SoftDeleted(m[id], now)]).Published()
  {
    var before := uow.context.State();
    var repo := uow.Skills();
    if repo.GetById(id).None? {
      result := NotFound;
    } else {
      repo.Delete(id, now);
      assert uow.context.State() == before.StageSkills(uow.context.skills.staged);
      var _ := uow.SaveChanges();
      result := Redirect(ToIndex);
    }
  }
}
