/**
 * The admin ProjectsController's POST actions as transitions of the session:
 * each reads through the Projects repository, stages its change and saves.
 * The route and body ids, the form's validity, the uploaded file and the
 * values of `Guid.NewGuid` and the clock are inputs.
 */
module ProjectsController {
  import opened Wrappers
  import opened Entities
  import opened Paths
  import opened DataContext
  import opened Repository
  import opened UnitOfWork
  import opened ImageUpload
  import opened Mvc

  const MaxSizeInMB := 5

  /** The ImageUrl a request leaves: a new upload replaces it, otherwise it is kept. */
  function NewImageUrl(current: Option<string>, imageFile: Option<FormFile>, fileGuid: Guid): (url: Option<string>)
    ensures HasUpload(imageFile) ==> url == Some(ImageUrl(fileGuid, imageFile.value.fileName))
    ensures !HasUpload(imageFile) ==> url == current
  {
    if HasUpload(imageFile) then Some(ImageUrl(fileGuid, imageFile.value.fileName)) else current
  }

  /** The project Create hands to AddAsync. */
  function Posted(project: Project, imageFile: Option<FormFile>, fileGuid: Guid): Project {
    project.(fields := project.fields.(imageUrl := NewImageUrl(project.fields.imageUrl, imageFile, fileGuid)))
  }

  /**
   * The stored project after Edit: the six editable fields come from the
   * form, the image from the upload if there is one, everything else stays.
   */
  function Edited(stored: Project, form: ProjectFields, imageFile: Option<FormFile>, fileGuid: Guid): (r: Project)
    ensures r.id == stored.id && r.createdAt == stored.createdAt
    ensures r.updatedDate == stored.updatedDate && r.isDeleted == stored.isDeleted
    ensures r.fields.title == form.title && r.fields.description == form.description
    ensures r.fields.technologies == form.technologies && r.fields.gitHubUrl == form.gitHubUrl
    ensures r.fields.liveUrl == form.liveUrl && r.fields.isFeatured == form.isFeatured
    ensures r.fields.imageUrl == NewImageUrl(stored.fields.imageUrl, imageFile, fileGuid)
  {
    stored.(fields := ProjectFields(
      form.title, form.description, NewImageUrl(stored.fields.imageUrl, imageFile, fileGuid),
      form.technologies, form.gitHubUrl, form.liveUrl, form.isFeatured))
  }

  /** Without an upload, editing twice with the same form is the same as editing once. */
  lemma EditIdempotent(stored: Project, form: ProjectFields)
    ensures Edited(Edited(stored, form, None, EmptyGuid), form, None, EmptyGuid) == Edited(stored, form, None, EmptyGuid)
  {
  }

  /** POST Create. */
  method Create(uow: UnitOfWork, project: Project, imageFile: Option<FormFile>, modelValid: bool,
                os: Platform, fileGuid: Guid, newGuid: Guid, now: DateTime) returns (result: ActionResult)
    requires uow.Valid()
    requires newGuid != EmptyGuid && newGuid !in uow.context.projects.staged
    modifies uow, uow.context.Repr
    ensures uow.Valid()
    ensures var before := old(uow.context.State());
            var row := Stamped(Posted(project, imageFile, fileGuid), newGuid, now);
      if !ValidateImageFile(imageFile, MaxSizeInMB, os).isValid || !modelValid then
        result == ShowForm && uow.context.State() == before
      else if row.id in before.projects.staged then
        result == ServerError && uow.context.State() == before
      else
        && result == Redirect(ToIndex)
        && uow.context.State() == before.StageProjects(before.projects.staged[row.id := row]).Published()
  {
    if !ValidateImageFile(imageFile, MaxSizeInMB, os).isValid || !modelValid {
      result := ShowForm;
    } else {
      result := SaveNew(uow, Posted(project, imageFile, fileGuid), newGuid, now);
    }
  }

  /** The part of POST Create after the form checks: add the project and save. */
  method SaveNew(uow: UnitOfWork, project: Project, newGuid: Guid, now: DateTime) returns (result: ActionResult)
    requires uow.Valid()
    requires newGuid != EmptyGuid && newGuid !in uow.context.projects.staged
    modifies uow, uow.context.Repr
    ensures uow.Valid()
    ensures var before := old(uow.context.State());
            var row := Stamped(project, newGuid, now);
      if row.id in before.projects.staged then
        result == ServerError && uow.context.State() == before
      else
        && result == Redirect(ToIndex)
        && uow.context.State() == before.StageProjects(before.projects.staged[row.id := row]).Published()
  {
    var before := uow.context.State();
    var repo := uow.Projects();
    var added := repo.Add(project, newGuid, now);
    if added.Failure? {
      result := ServerError;
    } else {
      assert uow.context.State() == before.StageProjects(uow.context.projects.staged);
      var _ := uow.SaveChanges();
      result := Redirect(ToIndex);
    }
  }

  /** POST Edit. */
  method Edit(uow: UnitOfWork, id: Guid, project: Project, imageFile: Option<FormFile>, modelValid: bool,
              os: Platform, fileGuid: Guid) returns (result: ActionResult)
    requires uow.Valid()
    modifies uow, uow.context.Repr
    ensures uow.Valid()
    ensures var before := old(uow.context.State());
            var m := before.projects.staged;
      if id != project.id then
        result == NotFound && uow.context.State() == before
      else if !ValidateImageFile(imageFile, MaxSizeInMB, os).isValid || !modelValid then
        result == ShowForm && uow.context.State() == before
      else if id !in m || m[id].isDeleted then
        result == NotFound && uow.context.State() == before
      else
        && result == Redirect(ToIndex)
        && uow.context.State() == before.StageProjects(m[id := Edited(m[id], project.fields, imageFile, fileGuid)]).Published()
  {
    if id != project.id {
      result := NotFound;
    } else if !ValidateImageFile(imageFile, MaxSizeInMB, os).isValid || !modelValid {
      result := ShowForm;
    } else {
      result := SaveEdit(uow, id, project.fields, imageFile, fileGuid);
    }
  }

  /** The part of POST Edit after the form checks: look the project up, copy the fields, save. */
  method SaveEdit(uow: UnitOfWork, id: Guid, form: ProjectFields, imageFile: Option<FormFile>, fileGuid: Guid)
    returns (result: ActionResult)
    requires uow.Valid()
    modifies uow, uow.context.Repr
    ensures uow.Valid()
    ensures var before := old(uow.context.State());
            var m := before.projects.staged;
      if id !in m || m[id].isDeleted then
        result == NotFound && uow.context.State() == before
      else
        && result == Redirect(ToIndex)
        && uow.context.State() == before.StageProjects(m[id := Edited(m[id], form, imageFile, fileGuid)]).Published()
  {
    var before := uow.context.State();
    var repo := uow.Projects();
    var existing := repo.GetById(id);
    if existing.None? {
      result := NotFound;
    } else {
      var edited := Edited(existing.value, form, imageFile, fileGuid);
      uow.context.projects.WriteBack(edited);
      assert uow.context.State() == before.StageProjects(before.projects.staged[id := edited]);
      var _ := uow.SaveChanges();
      result := Redirect(ToIndex);
    }
  }

  /** POST Delete: soft delete of a visible project. */
  method DeleteConfirmed(uow: UnitOfWork, id: Guid, now: DateTime) returns (result: ActionResult)
    requires uow.Valid()
    modifies uow, uow.context.Repr
    ensures uow.Valid()
    ensures var before := old(uow.context.State());
            var m := before.projects.staged;
      if id !in m || m[id].isDeleted then
        result == NotFound && uow.context.State() == before
      else
        && result == Redirect(ToIndex)
        && uow.context.State() == before.StageProjects(m[id := SoftDeleted(m[id], now)]).Published()
  {
    var before := uow.context.State();
    var repo := uow.Projects();
    var project := repo.GetById(id);
    if project.None? {
      return NotFound;
    }
    repo.Delete(id, now);
    assert uow.context.State() == before.StageProjects(uow.context.projects.staged);
    var _ := uow.SaveChanges();
    return Redirect(ToIndex);
  }
}
