/**
 * The two orderings the pages ask the store for: newest first by creation
 * time (history), and most recently updated first with never-updated rows
 * last, ties broken by creation time (dashboard, limited to ten rows).
 * The store's sort is modelled by an insertion sort proved to return a
 * sorted permutation of the table.
 */
module Listing {

  import opened Wrappers
  import opened Drafts

  datatype Order =
    | CreatedDesc  // .order('created_at', { ascending: false })
    | RecentFirst  // .order('updated_at', { ascending: false, nullsFirst: false }).order('created_at', { ascending: false })

  /** A null `updated_at` sorts after every timestamp. */
  function UpdatedKey(d: Draft): int {
    match d.updatedAt
    case None => -1
    case Some(t) => t
  }

  /** `a` may be listed before `b`. */
  predicate Before(o: Order, a: Draft, b: Draft) {
    match o
    case CreatedDesc => a.createdAt >= b.createdAt
    case RecentFirst =>
      UpdatedKey(a) > UpdatedKey(b) || (UpdatedKey(a) == UpdatedKey(b) && a.createdAt >= b.createdAt)
  }

  /** Each ordering is total and transitive, so sorting by it is well defined. */
  lemma BeforeTotal(o: Order, a: Draft, b: Draft)
    ensures Before(o, a, b) || Before(o, b, a)
  {
  }

  lemma BeforeTransitive(o: Order, a: Draft, b: Draft, c: Draft)
    requires Before(o, a, b) && Before(o, b, c)
    ensures Before(o, a, c)
  {
  }

  /** Under the recent-first order an updated row precedes every row never updated. */
  lemma UpdatedBeforeNeverUpdated(a: Draft, b: Draft)
    requires a.updatedAt.Some? && b.updatedAt.None?
    ensures Before(RecentFirst, a, b) && !Before(RecentFirst, b, a)
  {
  }

  predicate Sorted(o: Order, s: seq<Draft>) {
    forall i, j :: 0 <= i < j < |s| ==> Before(o, s[i], s[j])
  }

  function InsertSorted(o: Order, x: Draft, s: seq<Draft>): (r: seq<Draft>)
    requires Sorted(o, s)
    ensures Sorted(o, r)
    ensures multiset(r) == multiset(s) + multiset{x}
  {
    if s == [] then [x]
    else if Before(o, x, s[0]) then
      assert forall j :: 0 <= j < |s| ==> Before(o, x, s[j]) by {
        forall j | 0 <= j < |s| ensures Before(o, x, s[j]) {
          if j > 0 { BeforeTransitive(o, x, s[0], s[j]); }
        }
      }
      [x] + s
    else
      var rest := InsertSorted(o, x, s[1..]);
      assert s == [s[0]] + s[1..];
      BeforeTotal(o, x, s[0]);
      assert forall j :: 0 <= j < |rest| ==> Before(o, s[0], rest[j]) by {
        forall j | 0 <= j < |rest| ensures Before(o, s[0], rest[j]) {
          assert rest[j] in multiset(rest);
          if rest[j] != x {
            assert rest[j] in multiset(s[1..]);
            var k :| 0 <= k < |s[1..]| && s[1..][k] == rest[j];
            assert s[k + 1] == rest[j];
          }
        }
      }
      [s[0]] + rest
  }

  /** The rows of the table in the order `o` (the store's ORDER BY). */
  function SortBy(o: Order, rows: seq<Draft>): (r: seq<Draft>)
    ensures Sorted(o, r)
    ensures multiset(r) == multiset(rows)
  {
    if rows == [] then []
    else
      assert rows == [rows[0]] + rows[1..];
      InsertSorted(o, rows[0], SortBy(o, rows[1..]))
  }

  /** The history page's listing: every row, newest first. */
  function HistoryRows(rows: seq<Draft>): (r: seq<Draft>)
    ensures Sorted(CreatedDesc, r) && multiset(r) == multiset(rows)
  {
    SortBy(CreatedDesc, rows)
  }

  /** `.limit(10)` on the dashboard's query. */
  const RecentLimit: nat := 10

  /**
   * The dashboard's listing: the ten rows that come first in the
   * recent-first order, in that order; every row left out comes after
   * every row listed.
   */
  function RecentDrafts(rows: seq<Draft>): (r: seq<Draft>)
    ensures |r| == if |rows| < RecentLimit then |rows| else RecentLimit
    ensures Sorted(RecentFirst, r)
    ensures multiset(r) <= multiset(rows)
    ensures forall x, y :: x in r && y in multiset(rows) - multiset(r) ==> Before(RecentFirst, x, y)
  {
    var s := SortBy(RecentFirst, rows);
    assert |s| == |multiset(s)| == |rows|;
    var k := if |s| < RecentLimit then |s| else RecentLimit;
    assert s == s[..k] + s[k..];
    assert multiset(s) == multiset(s[..k]) + multiset(s[k..]);
    assert forall x, y :: x in s[..k] && y in multiset(s[k..]) ==> Before(RecentFirst, x, y) by {
      forall x, y | x in s[..k] && y in multiset(s[k..]) ensures Before(RecentFirst, x, y) {
        var i :| 0 <= i < k && s[i] == x;
        assert y in s[k..];
        var j :| 0 <= j < |s| - k && s[k..][j] == y;
        assert s[k + j] == y;
      }
    }
    s[..k]
  }
}
