/**
 * The admin AboutMeController.  The site shows a single About Me record, and
 * the actions keep it that way: Create refuses to add a second visible
 * record, Edit keeps a record's visibility and Delete only hides one.
 */
module AboutMeController {
  import opened Wrappers
  import opened Entities
  import opened DataContext
  import opened Repository
  import opened UnitOfWork
  import opened Mvc

  /** Ids of the About Me records the default query returns. */
  function VisibleIds(m: map<Guid, AboutMe>, filtered: bool): set<Guid> {
    MatchingIds(m, filtered, All)
  }

  /** The rule the controller keeps: at most one visible About Me record. */
  predicate SingleRecord(m: map<Guid, AboutMe>, filtered: bool) {
    |VisibleIds(m, filtered)| <= 1
  }

  /** The record POST Create builds from the form: a fresh id, the six texts, not deleted. */
  function NewRecord(form: AboutMeFields, newGuid: Guid, utcNow: DateTime): (r: AboutMe)
    requires newGuid != EmptyGuid
    ensures r.id == newGuid && !r.isDeleted && r.updatedDate == None && r.fields == form
  {
    Entity(newGuid, utcNow, None, false, form)
  }

  /** The stored record after Edit: six texts from the form, UpdatedDate stamped, the rest kept. */
  function Edited(stored: AboutMe, form: AboutMeFields, utcNow: DateTime): (r: AboutMe)
    ensures r.id == stored.id && r.createdAt == stored.createdAt && r.isDeleted == stored.isDeleted
    ensures r.updatedDate == Some(utcNow)
    ensures r.fields == form
  {
    stored.(fields := AboutMeFields(form.title, form.shortDescription, form.fullDescription,
                                    form.twitterUrl, form.linkedInUrl, form.gitHubUrl),
            updatedDate := Some(utcNow))
  }

  /** Adding a visible record to a table with none leaves exactly that one visible. */
  lemma {:induction false} AddToEmptyIsSingle(m: map<Guid, AboutMe>, filtered: bool, row: AboutMe)
    requires VisibleIds(m, filtered) == {}
    requires !row.isDeleted
    ensures VisibleIds(m[row.id := row], filtered) == {row.id}
    ensures SingleRecord(m[row.id := row], filtered)
  {
    var after := VisibleIds(m[row.id := row], filtered);
    forall id | id in after ensures id == row.id {
      assert id != row.id ==> id in VisibleIds(m, filtered);
    }
    assert row.id in after;
  }

  /** Replacing a record by one with the same IsDeleted flag changes nobody's visibility. */
  lemma {:induction false} SameFlagSameVisible(m: map<Guid, AboutMe>, filtered: bool, row: AboutMe)
    requires row.id in m && row.isDeleted == m[row.id].isDeleted
    ensures VisibleIds(m[row.id := row], filtered) == VisibleIds(m, filtered)
  {
    var before, after := VisibleIds(m, filtered), VisibleIds(m[row.id := row], filtered);
    forall id | id in before ensures id in after {
      if id == row.id {
        assert Visible(row, filtered);
      }
    }
    forall id | id in after ensures id in before {
      if id == row.id {
        assert Visible(m[id], filtered);
      }
    }
  }

  /** Soft-deleting a record never makes another one visible. */
  lemma {:induction false} SoftDeleteHidesOnly(m: map<Guid, AboutMe>, filtered: bool, id: Guid, now: DateTime)
    requires id in m
    ensures VisibleIds(m[id := SoftDeleted(m[id], now)], filtered) <= VisibleIds(m, filtered)
    ensures SingleRecord(m, filtered) ==> SingleRecord(m[id := SoftDeleted(m[id], now)], filtered)
  {
    var before, after := VisibleIds(m, filtered), VisibleIds(m[id := SoftDeleted(m[id], now)], filtered);
    forall k | k in after ensures k in before {
      if k == id {
        assert !filtered;
      }
    }
    assert before == after + (before - after);
  }

  /** Index: the record's page, or a redirect to Create when there is none. */
  method Index(uow: UnitOfWork) returns (result: ActionResult)
    requires uow.Valid()
    modifies uow
    ensures uow.Valid()
    ensures result == Redirect(ToCreate) <==> VisibleIds(uow.context.aboutMe.staged, uow.context.aboutMe.filtered) == {}
    ensures result != Redirect(ToCreate) ==> result == ShowPage
  {
    var repo := uow.AboutMe();
    var list := repo.GetAll();
    AnyIffFindNonEmpty(list, uow.context.aboutMe.staged, uow.context.aboutMe.filtered, All);
    if |list| == 0 {
      return Redirect(ToCreate);
    }
    return ShowPage;
  }

  /** GET Create: the empty form, or a redirect to the existing record's Edit. */
  method CreateForm(uow: UnitOfWork) returns (result: ActionResult)
    requires uow.Valid()
    modifies uow
    ensures uow.Valid()
    ensures var ids := VisibleIds(uow.context.aboutMe.staged, uow.context.aboutMe.filtered);
      if ids == {} then result == ShowForm else result.Redirect? && result.to.ToEdit? && result.to.id in ids
  {
    var repo := uow.AboutMe();
    var list := repo.GetAll();
    AnyIffFindNonEmpty(list, uow.context.aboutMe.staged, uow.context.aboutMe.filtered, All);
    if |list| == 0 {
      return ShowForm;
    }
    return Redirect(ToEdit(list[0].id));
  }

  /**
   * POST Create: with a visible record present, nothing is added and the
   * browser is sent to its Edit page; otherwise a valid form adds one record.
   */
  method Create(uow: UnitOfWork, form: AboutMe, modelValid: bool, newGuid: Guid, utcNow: DateTime, now: DateTime)
    returns (result: ActionResult)
    requires uow.Valid()
    requires newGuid != EmptyGuid && newGuid !in uow.context.aboutMe.staged
    modifies uow, uow.context.Repr
    ensures uow.Valid()
    ensures var before := old(uow.context.State());
            var m := before.aboutMe.staged;
            var ids := VisibleIds(m, uow.context.aboutMe.filtered);
            var row := Stamped(NewRecord(form.fields, newGuid, utcNow), newGuid, now);
      if ids != {} then
        result.Redirect? && result.to.ToEdit? && result.to.id in ids && uow.context.State() == before
      else if !modelValid then
        result == ShowForm && uow.context.State() == before
      else
        && result == Redirect(ToIndex)
        && uow.context.State() == before.StageAboutMe(m[newGuid := row]).Published()
    ensures SingleRecord(old(uow.context.aboutMe.staged), uow.context.aboutMe.filtered) ==>
            SingleRecord(uow.context.aboutMe.staged, uow.context.aboutMe.filtered)
    ensures result == Redirect(ToIndex) ==>
            VisibleIds(uow.context.aboutMe.staged, uow.context.aboutMe.filtered) == {newGuid}
  {
    var repo := uow.AboutMe();
    var list := repo.GetAll();
    AnyIffFindNonEmpty(list, uow.context.aboutMe.staged, uow.context.aboutMe.filtered, All);
    if |list| > 0 {
      result := Redirect(ToEdit(list[0].id));
    } else if !modelValid {
      result := ShowForm;
    } else {
      AddRecord(uow, NewRecord(form.fields, newGuid, utcNow), now);
      result := Redirect(ToIndex);
    }
  }

  /** The add-and-save step of POST Create, for a record with a fresh id. */
  method AddRecord(uow: UnitOfWork, record: AboutMe, now: DateTime)
    requires uow.Valid()
    requires record.id != EmptyGuid && record.id !in uow.context.aboutMe.staged
    modifies uow, uow.context.Repr
    ensures uow.Valid()
    ensures var before := old(uow.context.State());
      uow.context.State() == before.StageAboutMe(before.aboutMe.staged[record.id := Stamped(record, record.id, now)]).Published()
    ensures VisibleIds(old(uow.context.aboutMe.staged), uow.context.aboutMe.filtered) == {} && !record.isDeleted ==>
            VisibleIds(uow.context.aboutMe.staged, uow.context.aboutMe.filtered) == {record.id}
  {
    var before := uow.context.State();
    var repo := uow.AboutMe();
    var added := repo.Add(record, record.id, now);
    assert uow.context.State() == before.StageAboutMe(uow.context.aboutMe.staged);
    var _ := uow.SaveChanges();
    if VisibleIds(before.aboutMe.staged, uow.context.aboutMe.filtered) == {} && !record.isDeleted {
      AddToEmptyIsSingle(before.aboutMe.staged, uow.context.aboutMe.filtered, Stamped(record, record.id, now));
    }
  }

  /** POST Edit. */
  method Edit(uow: UnitOfWork, id: Guid, form: AboutMe, modelValid: bool, utcNow: DateTime) returns (result: ActionResult)
    requires uow.Valid()
    modifies uow, uow.context.Repr
    ensures uow.Valid()
    ensures var before := old(uow.context.State());
            var m := before.aboutMe.staged;
      if id != form.id then
        result == NotFound && uow.context.State() == before
      else if !modelValid then
        result == ShowForm && uow.context.State() == before
      else if id !in m || !Visible(m[id], uow.context.aboutMe.filtered) then
        result == NotFound && uow.context.State() == before
      else
        && result == Redirect(ToIndex)
        && uow.context.State() == before.StageAboutMe(m[id := Edited(m[id], form.fields, utcNow)]).Published()
    ensures SingleRecord(old(uow.context.aboutMe.staged), uow.context.aboutMe.filtered) ==>
            SingleRecord(uow.context.aboutMe.staged, uow.context.aboutMe.filtered)
  {
    if id != form.id {
      return NotFound;
    }
    if !modelValid {
      return ShowForm;
    }
    var before := uow.context.State();
    var repo := uow.AboutMe();
    var existing := repo.GetById(id);
    if existing.None? {
      return NotFound;
    }
    var edited := Edited(existing.value, form.fields, utcNow);
    uow.context.aboutMe.WriteBack(edited);
    assert uow.context.aboutMe.staged == before.aboutMe.staged[id := edited];
    assert uow.context.State() == before.StageAboutMe(uow.context.aboutMe.staged);
    var _ := uow.SaveChanges();
    SameFlagSameVisible(before.aboutMe.staged, uow.context.aboutMe.filtered, edited);
    return Redirect(ToIndex);
  }

  /** POST Delete: soft delete of a visible record. */
  method DeleteConfirmed(uow: UnitOfWork, id: Guid, now: DateTime) returns (result: ActionResult)
    requires uow.Valid()
    modifies uow, uow.context.Repr
    ensures uow.Valid()
    ensures var before := old(uow.context.State());
            var m := before.aboutMe.staged;
      if id !in m || !Visible(m[id], uow.context.aboutMe.filtered) then
        result == NotFound && uow.context.State() == before
      else
        && result == Redirect(ToIndex)
        && uow.context.State() == before.StageAboutMe(m[id := SoftDeleted(m[id], now)]).Published()
    ensures SingleRecord(old(uow.context.aboutMe.staged), uow.context.aboutMe.filtered) ==>
            SingleRecord(uow.context.aboutMe.staged, uow.context.aboutMe.filtered)
  {
    var before := uow.context.State();
    var repo := uow.AboutMe();
    var record := repo.GetById(id);
    if record.None? {
      result := NotFound;
    } else {
      var m := before.aboutMe.staged;
      repo.Delete(id, now);
      assert uow.context.State() == before.StageAboutMe(m[id := SoftDeleted(m[id], now)]);
      var _ := uow.SaveChanges();
      SoftDeleteHidesOnly(m, uow.context.aboutMe.filtered, id, now);
      result := Redirect(ToIndex);
    }
  }
}
