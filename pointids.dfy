/**
 * `get_next_point_id`: the next free point id is one more than the largest id
 * stored, or 0 for an empty collection or when the scroll raises.
 */
module PointIds {
  import opened Values
  import opened Store

  /** The page size of the id scan. */
  const ScrollLimit: nat := 10000

  /** `max(point.id for point in s)` */
  function MaxId(s: seq<Point>): (r: nat)
    requires s != []
    ensures forall k :: 0 <= k < |s| ==> s[k].id <= r
    ensures r in Ids(s)
  {
    if |s| == 1 then s[0].id
    else
      var m := MaxId(s[1..]);
      assert forall k :: 1 <= k < |s| ==> s[k] == s[1..][k - 1];
      assert m in Ids(s) by {
        var j :| 0 <= j < |s[1..]| && s[1..][j].id == m;
        assert s[j + 1].id == m;
      }
      if s[0].id >= m then s[0].id else m
  }

  /** The id the scan proposes for points `s`. */
  function NextFree(s: seq<Point>): nat {
    if s == [] then 0 else MaxId(s) + 1
  }

  /** The proposal is above every scanned id, and is the least such number. */
  lemma NextFreeIsFresh(s: seq<Point>)
    ensures forall k :: 0 <= k < |s| ==> s[k].id < NextFree(s)
    ensures NextFree(s) == 0 || NextFree(s) - 1 in Ids(s)
  {
  }

  /** The proposal for two parts is the larger of their proposals. */
  lemma NextFreeConcat(a: seq<Point>, b: seq<Point>)
    ensures NextFree(a + b) == if NextFree(a) >= NextFree(b) then NextFree(a) else NextFree(b)
  {
    var s := a + b;
    if a != [] && b != [] {
      var m := MaxId(s);
      var j :| 0 <= j < |s| && s[j].id == m;
      if j < |a| {
        assert a[j] == s[j];
        assert m <= MaxId(a);
        var i :| 0 <= i < |a| && a[i].id == MaxId(a);
        assert s[i] == a[i];
      } else {
        assert b[j - |a|] == s[j];
        assert m <= MaxId(b);
        var i :| 0 <= i < |b| && b[i].id == MaxId(b);
        assert s[|a| + i] == b[i];
      }
      forall k | 0 <= k < |a| ensures a[k].id <= m { assert s[k] == a[k]; }
      forall k | 0 <= k < |b| ensures b[k].id <= m { assert s[|a| + k] == b[k]; }
    } else if a == [] {
      assert s == b;
    } else {
      assert s == a;
    }
  }

  /**
   * `get_next_point_id` as written: a single scroll of at most 10000 points,
   * the maximum of their ids plus one; 0 when the scroll raises.
   */
  method NextPointIdSinglePage(col: Collection) returns (id: nat)
    ensures id == if col.Fails(ScrollOp) then 0 else NextFree(Window(col.points, 0, ScrollLimit))
  {
    var page := col.Scroll([], 0, ScrollLimit);
    SelectNoFilter(col.points);
    if page.None? {
      return 0;
    }
    var points := page.value.points;
    if points == [] {
      return 0;
    }
    return MaxId(points) + 1;
  }

  lemma {:induction false} SelectNoFilter(s: seq<Point>)
    ensures Select(s, []) == s
  {
    if s != [] {
      SelectNoFilter(s[..|s| - 1]);
      assert s[..|s| - 1] + [s[|s| - 1]] == s;
    }
  }

  /** Up to 10000 points, the single page sees them all and the proposal is fresh. */
  lemma SinglePageFreshWhenSmall(s: seq<Point>)
    requires |s| <= ScrollLimit
    ensures NextFree(Window(s, 0, ScrollLimit)) == NextFree(s)
    ensures NextFree(Window(s, 0, ScrollLimit)) !in Ids(s)
  {
    if s != [] {
      assert Window(s, 0, ScrollLimit) == s;
    }
    NextFreeIsFresh(s);
  }

  /** The points 0, 1, ..., n - 1, stored in id order. */
  function Consecutive(n: nat, payload: Payload): (s: seq<Point>)
    ensures |s| == n && forall k :: 0 <= k < n ==> s[k].id == k
  {
    seq(n, k requires 0 <= k < n => Point(k, [], payload))
  }

  lemma {:induction false} MaxIdOfConsecutive(s: seq<Point>)
    requires s != [] && forall k :: 0 <= k < |s| ==> s[k].id == k
    ensures MaxId(s) == |s| - 1
  {
    assert s[|s| - 1].id == |s| - 1;
  }

  /**
   * Past 10000 points the single page misses ids: with ids 0..10000 stored in
   * id order, the proposal is 10000, which is already taken, so the next upsert
   * would overwrite point 10000.
   */
  lemma SinglePageReusesIdWhenLarge(payload: Payload)
    ensures var s := Consecutive(ScrollLimit + 1, payload);
      DistinctIds(s) && NextFree(Window(s, 0, ScrollLimit)) == ScrollLimit && ScrollLimit in Ids(s)
  {
    var s := Consecutive(ScrollLimit + 1, payload);
    var w := Window(s, 0, ScrollLimit);
    assert |w| == ScrollLimit;
    MaxIdOfConsecutive(w);
    assert s[ScrollLimit].id == ScrollLimit;
  }

  /**
   * The scan as its comment intends it: scroll page after page until there is
   * no next page, and propose one more than the largest id seen; 0 when a
   * scroll raises.
   */
  method NextPointId(col: Collection) returns (id: nat)
    ensures id == if col.Fails(ScrollOp) then 0 else NextFree(col.points)
    ensures !col.Fails(ScrollOp) ==> id !in Ids(col.points)
  {
    SelectNoFilter(col.points);
    ghost var s := col.points;
    var cursor: nat := 0;
    var best: nat := 0;
    while true
      invariant cursor <= |s|
      invariant !col.Fails(ScrollOp) ==> best == NextFree(s[..cursor])
      decreases |s| - cursor
    {
      var page := col.Scroll([], cursor, ScrollLimit);
      if page.None? {
        return 0;
      }
      ScanStep(s, cursor, ScrollLimit);
      var seen := page.value.points;
      best := if NextFree(seen) > best then NextFree(seen) else best;
      if page.value.next.None? {
        assert s[..|s|] == s;
        NextFreeIsFresh(s);
        return best;
      }
      cursor := page.value.next.value;
    }
  }

  /** One page of the scan: the proposal for the points up to the page's end. */
  lemma ScanStep(s: seq<Point>, cursor: nat, limit: nat)
    requires cursor <= |s|
    ensures var end := if cursor + limit <= |s| then cursor + limit else |s|;
      var a, b := NextFree(s[..cursor]), NextFree(Window(s, cursor, limit));
      NextFree(s[..end]) == if a >= b then a else b
  {
    var end := if cursor + limit <= |s| then cursor + limit else |s|;
    assert s[..cursor] + Window(s, cursor, limit) == s[..end];
    NextFreeConcat(s[..cursor], Window(s, cursor, limit));
  }
}
