/**
 * How the LINQ operators act on a repository listing: filtering a listing
 * with `Where` lists the narrower query, and reordering a listing (as
 * `OrderBy` does) still lists the same rows.
 */
module Listings {
  import opened Entities
  import opened Repository
  import opened Linq

  /** No element occurs twice. */
  ghost predicate NoDuplicates<T>(s: seq<T>) {
    forall i, j :: 0 <= i < j < |s| ==> s[i] != s[j]
  }

  lemma {:induction false} CountsOfNoDuplicates<T>(s: seq<T>)
    requires NoDuplicates(s)
    ensures forall x :: multiset(s)[x] <= 1
  {
    if s != [] {
      var tail := s[1..];
      assert NoDuplicates(tail) by {
        forall i, j | 0 <= i < j < |tail| ensures tail[i] != tail[j] {
          assert tail[i] == s[i + 1] && tail[j] == s[j + 1];
        }
      }
      CountsOfNoDuplicates(tail);
      assert s == [s[0]] + tail;
      assert s[0] !in tail by {
        forall j | 0 <= j < |tail| ensures tail[j] != s[0] {
          assert tail[j] == s[j + 1];
        }
      }
    }
  }

  lemma NoDuplicatesOfCounts<T>(s: seq<T>)
    requires forall x :: multiset(s)[x] <= 1
    ensures NoDuplicates(s)
  {
    forall i, j | 0 <= i < j < |s| ensures s[i] != s[j] {
      var a, b := s[..j], s[j..];
      assert s == a + b;
      assert s[i] == a[i] && s[j] == b[0];
      assert multiset(s)[s[j]] == multiset(a)[s[j]] + multiset(b)[s[j]];
    }
  }

  /** Within a listing, rows with different positions are different rows, and conversely. */
  lemma {:induction false} DistinctIdsIffNoDuplicates<T>(r: seq<Entity<T>>, m: map<Guid, Entity<T>>)
    requires forall i :: 0 <= i < |r| ==> r[i].id in m && m[r[i].id] == r[i]
    ensures (forall i, j :: 0 <= i < j < |r| ==> r[i].id != r[j].id) <==> NoDuplicates(r)
  {
  }

  /** `Where(q)` over a full listing lists exactly the rows the query `q` matches. */
  lemma {:induction false} WhereLists<T>(r: seq<Entity<T>>, m: map<Guid, Entity<T>>, filtered: bool, q: Entity<T> -> bool)
    requires Lists(r, m, filtered, All)
    ensures Lists(Where(r, q), m, filtered, q)
  {
    var w := Where(r, q);
    forall i | 0 <= i < |w| ensures w[i].id in m && m[w[i].id] == w[i] && Visible(w[i], filtered)
    {
      assert w[i] in multiset(w);
      assert w[i] in r;
    }
    forall id | id in m && Visible(m[id], filtered) && q(m[id]) ensures m[id] in w {
      assert All(m[id]);
      var i :| 0 <= i < |r| && r[i] == m[id];
    }
    DistinctIdsIffNoDuplicates(r, m);
    CountsOfNoDuplicates(r);
    forall x ensures multiset(w)[x] <= 1 {
      assert multiset(w)[x] <= multiset(r)[x];
    }
    NoDuplicatesOfCounts(w);
    DistinctIdsIffNoDuplicates(w, m);
  }

  /** Any reordering of a listing is a listing of the same query. */
  lemma {:induction false} PermutedLists<T>(a: seq<Entity<T>>, b: seq<Entity<T>>, m: map<Guid, Entity<T>>,
                                            filtered: bool, p: Entity<T> -> bool)
    requires Lists(a, m, filtered, p)
    requires multiset(b) == multiset(a)
    ensures Lists(b, m, filtered, p)
  {
    forall i | 0 <= i < |b| ensures b[i].id in m && m[b[i].id] == b[i] && Visible(b[i], filtered) && p(b[i])
    {
      assert b[i] in multiset(a);
      assert b[i] in a;
    }
    forall id | id in m && Visible(m[id], filtered) && p(m[id]) ensures m[id] in b {
      assert m[id] in multiset(a);
    }
    DistinctIdsIffNoDuplicates(a, m);
    CountsOfNoDuplicates(a);
    NoDuplicatesOfCounts(b);
    DistinctIdsIffNoDuplicates(b, m);
  }

  /** Sorting a listing with any order lists the same rows, now sorted. */
  lemma SortLists<T(!new)>(r: seq<Entity<T>>, m: map<Guid, Entity<T>>, filtered: bool, p: Entity<T> -> bool,
                           before: (Entity<T>, Entity<T>) -> bool)
    requires Lists(r, m, filtered, p)
    requires StrictWeakOrder(before)
    ensures Lists(Sort(r, before), m, filtered, p)
    ensures Sorted(Sort(r, before), before)
  {
    PermutedLists(r, Sort(r, before), m, filtered, p);
    SortSorted(r, before);
  }
}
