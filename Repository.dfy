/**
 * GenericRepository<T>: uniform CRUD with soft delete over one entity set.
 * Queries see the session's rows through the soft-delete filter; writes are
 * staged in the session and reach the database only through SaveChanges.
 */
module Repository {
  import opened Wrappers
  import opened Entities
  import opened DataContext

  /** Why an operation threw instead of completing. */
  datatype RepoError = DuplicateKey(id: Guid)

  /** The query with no condition, as GetAllAsync runs it. */
  predicate All<T>(e: Entity<T>) {
    true
  }

  /** Ids of the rows the default query path returns that also satisfy `p`. */
  function MatchingIds<T>(m: map<Guid, Entity<T>>, filtered: bool, p: Entity<T> -> bool): set<Guid> {
    set id | id in m && Visible(m[id], filtered) && p(m[id])
  }

  /**
   * `r` lists exactly the visible rows of `m` that satisfy `p`, each once,
   * in no particular order.
   */
  ghost predicate Lists<T>(r: seq<Entity<T>>, m: map<Guid, Entity<T>>, filtered: bool, p: Entity<T> -> bool) {
    && (forall i :: 0 <= i < |r| ==> r[i].id in m && m[r[i].id] == r[i] && Visible(r[i], filtered) && p(r[i]))
    && (forall id :: id in m && Visible(m[id], filtered) && p(m[id]) ==> m[id] in r)
    && (forall i, j :: 0 <= i < j < |r| ==> r[i].id != r[j].id)
  }

  function IdsOf<T>(r: seq<Entity<T>>): set<Guid> {
    set i | 0 <= i < |r| :: r[i].id
  }

  /** A listing has one entry per matching id. */
  lemma {:induction false} ListingSize<T>(r: seq<Entity<T>>, m: map<Guid, Entity<T>>, filtered: bool, p: Entity<T> -> bool)
    requires KeysMatch(m)
    requires Lists(r, m, filtered, p)
    ensures |r| == |MatchingIds(m, filtered, p)|
  {
    assert IdsOf(r) == MatchingIds(m, filtered, p) by {
      forall id | id in MatchingIds(m, filtered, p) ensures id in IdsOf(r) {
        var i :| 0 <= i < |r| && r[i] == m[id];
      }
    }
    DistinctIdsSize(r);
  }

  lemma {:induction false} DistinctIdsSize<T>(r: seq<Entity<T>>)
    requires forall i, j :: 0 <= i < j < |r| ==> r[i].id != r[j].id
    ensures |IdsOf(r)| == |r|
  {
    if r != [] {
      var tail := r[1..];
      forall i, j | 0 <= i < j < |tail| ensures tail[i].id != tail[j].id {
        assert tail[i] == r[i + 1] && tail[j] == r[j + 1];
      }
      DistinctIdsSize(tail);
      assert IdsOf(r) == {r[0].id} + IdsOf(tail) by {
        forall id | id in IdsOf(r) ensures id in {r[0].id} + IdsOf(tail) {
          var i :| 0 <= i < |r| && r[i].id == id;
          if i > 0 { assert tail[i - 1].id == id; }
        }
        forall id | id in IdsOf(tail) ensures id in IdsOf(r) {
          var i :| 0 <= i < |tail| && tail[i].id == id;
          assert r[i + 1].id == id;
        }
      }
      assert r[0].id !in IdsOf(tail) by {
        forall i | 0 <= i < |tail| ensures tail[i].id != r[0].id {
          assert tail[i] == r[i + 1];
        }
      }
    }
  }

  /** AnyAsync(p) is true exactly when FindAsync(p) returns a row. */
  lemma AnyIffFindNonEmpty<T>(r: seq<Entity<T>>, m: map<Guid, Entity<T>>, filtered: bool, p: Entity<T> -> bool)
    requires Lists(r, m, filtered, p)
    ensures |r| > 0 <==> MatchingIds(m, filtered, p) != {}
  {
    if |r| > 0 {
      assert r[0].id in MatchingIds(m, filtered, p);
    }
  }

  /** A query narrowed by a stronger predicate returns no more rows. */
  lemma {:induction false} NarrowerQueryNoLarger<T>(m: map<Guid, Entity<T>>, filtered: bool, p: Entity<T> -> bool, q: Entity<T> -> bool)
    requires forall e :: q(e) ==> p(e)
    ensures MatchingIds(m, filtered, q) <= MatchingIds(m, filtered, p)
    ensures |MatchingIds(m, filtered, q)| <= |MatchingIds(m, filtered, p)|
  {
    var a, b := MatchingIds(m, filtered, q), MatchingIds(m, filtered, p);
    assert b == a + (b - a);
  }

  /**
   * The row AddAsync stores: an empty Id is replaced by the fresh one, CreatedAt
   * is always the clock, everything else is kept as given.
   */
  function Stamped<T>(e: Entity<T>, newGuid: Guid, now: DateTime): (r: Entity<T>)
    requires newGuid != EmptyGuid
    ensures r.id != EmptyGuid
    ensures e.id != EmptyGuid ==> r.id == e.id
    ensures r.createdAt == now
    ensures r.updatedDate == e.updatedDate && r.isDeleted == e.isDeleted && r.fields == e.fields
  {
    e.(id := if e.id == EmptyGuid then newGuid else e.id, createdAt := now)
  }

  /** The row DeleteAsync leaves behind: flagged and stamped, otherwise untouched. */
  function SoftDeleted<T>(e: Entity<T>, now: DateTime): (r: Entity<T>)
    ensures r.isDeleted && r.updatedDate == Some(now)
    ensures r.id == e.id && r.createdAt == e.createdAt && r.fields == e.fields
  {
    e.(isDeleted := true, updatedDate := Some(now))
  }

  /** Soft delete is idempotent up to the timestamp, and the flag never reverts. */
  lemma SoftDeleteTwice<T>(e: Entity<T>, t1: DateTime, t2: DateTime)
    ensures SoftDeleted(SoftDeleted(e, t1), t2) == SoftDeleted(e, t2)
  {
  }

  class GenericRepository<T(==)> {
    const dbSet: EntitySet<T>

    constructor (dbSet: EntitySet<T>)
      ensures this.dbSet == dbSet
    {
      this.dbSet := dbSet;
    }

    /** GetAllAsync: every visible row, each once. */
    method GetAll() returns (r: seq<Entity<T>>)
      requires dbSet.Valid()
      ensures Lists(r, dbSet.staged, dbSet.filtered, All)
    {
      r := Find(All);
    }

    /** FindAsync: the visible rows satisfying `p`, each once. */
    method Find(p: Entity<T> -> bool) returns (r: seq<Entity<T>>)
      requires dbSet.Valid()
      ensures Lists(r, dbSet.staged, dbSet.filtered, p)
    {
      var m := dbSet.staged;
      r := [];
      var left := m.Keys;
      while left != {}
        invariant left <= m.Keys
        invariant forall i :: 0 <= i < |r| ==> r[i].id in m && r[i].id !in left && m[r[i].id] == r[i]
                                                && Visible(r[i], dbSet.filtered) && p(r[i])
        invariant forall id :: id in m && id !in left && Visible(m[id], dbSet.filtered) && p(m[id]) ==> m[id] in r
        invariant forall i, j :: 0 <= i < j < |r| ==> r[i].id != r[j].id
        decreases |left|
      {
        var id :| id in left;
        if Visible(m[id], dbSet.filtered) && p(m[id]) {
          r := r + [m[id]];
        }
        left := left - {id};
      }
    }

    /** GetByIdAsync: the row with that Id, unless it is missing or filtered out. */
    function GetById(id: Guid): (r: Option<Entity<T>>)
      requires dbSet.Valid()
      reads dbSet
      ensures r.Some? <==> id in dbSet.staged && Visible(dbSet.staged[id], dbSet.filtered)
      ensures r.Some? ==> r.value == dbSet.staged[id] && r.value.id == id
    {
      if id in dbSet.staged && Visible(dbSet.staged[id], dbSet.filtered) then Some(dbSet.staged[id]) else None
    }

    /** AnyAsync: whether some visible row satisfies `p`. */
    method Any(p: Entity<T> -> bool) returns (b: bool)
      requires dbSet.Valid()
      ensures b <==> exists id :: id in dbSet.staged && Visible(dbSet.staged[id], dbSet.filtered) && p(dbSet.staged[id])
      ensures b <==> MatchingIds(dbSet.staged, dbSet.filtered, p) != {}
    {
      var m := dbSet.staged;
      b := exists id | id in m :: Visible(m[id], dbSet.filtered) && p(m[id]);
      if b {
        var id :| id in m && Visible(m[id], dbSet.filtered) && p(m[id]);
        assert id in MatchingIds(m, dbSet.filtered, p);
      }
    }

    /**
     * AddAsync: stages the stamped row and returns it.  Tracking a second row
     * under an Id already present throws.
     */
    method Add(e: Entity<T>, newGuid: Guid, now: DateTime) returns (r: Result<Entity<T>, RepoError>)
      requires dbSet.Valid()
      requires newGuid != EmptyGuid && newGuid !in dbSet.staged
      modifies dbSet
      ensures dbSet.Valid() && dbSet.saved == old(dbSet.saved)
      ensures var s := Stamped(e, newGuid, now);
        if s.id in old(dbSet.staged) then
          r == Failure(DuplicateKey(s.id)) && dbSet.staged == old(dbSet.staged)
        else
          r == Success(s) && dbSet.staged == old(dbSet.staged)[s.id := s]
    {
      var s := Stamped(e, newGuid, now);
      if s.id in dbSet.staged {
        r := Failure(DuplicateKey(s.id));
      } else {
        dbSet.staged := dbSet.staged[s.id := s];
        r := Success(s);
      }
    }

    /**
     * UpdateAsync: stamps UpdatedDate on a tracked row and stages it; every
     * other field is written as given.
     */
    method Update(e: Entity<T>, now: DateTime) returns (r: Entity<T>)
      requires dbSet.Valid() && e.id in dbSet.staged
      modifies dbSet
      ensures r == e.(updatedDate := Some(now))
      ensures dbSet.Valid() && dbSet.saved == old(dbSet.saved)
      ensures dbSet.staged == old(dbSet.staged)[e.id := r]
    {
      r := e.(updatedDate := Some(now));
      dbSet.staged := dbSet.staged[e.id := r];
    }

    /** DeleteAsync: soft delete of a visible row; nothing happens otherwise. */
    method Delete(id: Guid, now: DateTime)
      requires dbSet.Valid()
      modifies dbSet
      ensures dbSet.Valid() && dbSet.saved == old(dbSet.saved)
      ensures dbSet.staged ==
        if id in old(dbSet.staged) && Visible(old(dbSet.staged)[id], dbSet.filtered)
        then old(dbSet.staged)[id := SoftDeleted(old(dbSet.staged)[id], now)]
        else old(dbSet.staged)
    {
      var found := GetById(id);
      if found.Some? {
        dbSet.staged := dbSet.staged[id := SoftDeleted(found.value, now)];
      }
    }

    /** DeletePermanentlyAsync: removes a visible row; nothing happens otherwise. */
    method DeletePermanently(id: Guid)
      requires dbSet.Valid()
      modifies dbSet
      ensures dbSet.Valid() && dbSet.saved == old(dbSet.saved)
      ensures dbSet.staged ==
        if id in old(dbSet.staged) && Visible(old(dbSet.staged)[id], dbSet.filtered)
        then old(dbSet.staged) - {id}
        else old(dbSet.staged)
    {
      var found := GetById(id);
      if found.Some? {
        dbSet.staged := dbSet.staged - {id};
      }
    }
  }
}
