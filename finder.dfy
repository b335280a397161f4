/**
 * The chunk finder: `find_chunks` reads every point of a scope by counting
 * and then scrolling pages of 100, and `display_chunks` orders, counts and
 * previews what was found.
 */
module Finder {
  import opened Values
  import opened Store
  import opened Scope

  /** The page size of the scroll. */
  const PageSize: nat := 100

  /**
   * What `find_chunks` returns for a store holding `s`, with `fails` the
   * calls that raise: an empty count answers [] without scrolling, and an
   * exception from the count or the scroll escapes.
   */
  function Found(s: seq<Point>, fails: set<Op>, courseId: int, moduleId: Option<int>, resourceId: Option<int>)
    : Result<seq<Point>>
  {
    var f := ScopeFilter(courseId, moduleId, resourceId);
    if CountOp in fails then Err(Unavailable)
    else if |Select(s, f)| == 0 then Ok([])
    else if ScrollOp in fails then Err(Unavailable)
    else Ok(Select(s, f))
  }

  /**
   * `find_chunks(course_id, module_id, resource_id)`: the pages of the scroll,
   * concatenated in order until no next cursor is given.
   */
  method FindChunks(col: Collection, courseId: int, moduleId: Option<int>, resourceId: Option<int>)
    returns (r: Result<seq<Point>>)
    modifies col
    ensures col.points == old(col.points) && col.config == old(col.config)
    ensures col.indexes == if old(col.Fails(IndexOp)) then old(col.indexes) else old(col.indexes) + IndexedFields
    ensures r == Found(old(col.points), old(col.FailingOps()), courseId, moduleId, resourceId)
  {
    ghost var fails := col.FailingOps();
    EnsureIndexesExist(col);
    var f := BuildScopeFilter(courseId, moduleId, resourceId);
    var total := col.Count(f);
    if total.None? {
      return Err(Unavailable);
    }
    if total.value == 0 {
      return Ok([]);
    }
    ghost var matching := Select(col.points, f);
    var all: seq<Point> := [];
    var offset: nat := 0;
    var more := true;
    while more
      invariant col.points == old(col.points) && col.config == old(col.config)
      invariant col.indexes == if old(col.Fails(IndexOp)) then old(col.indexes) else old(col.indexes) + IndexedFields
      invariant more ==> offset < |matching| && all == matching[..offset]
      invariant !more ==> all == matching && ScrollOp !in fails
      decreases if more then |matching| - offset + 1 else 0
    {
      var page := col.Scroll(f, offset, PageSize);
      if page.None? {
        return Err(Unavailable);
      }
      var end := if offset + PageSize < |matching| then offset + PageSize else |matching|;
      assert page.value.points == matching[offset..end];
      assert matching[..offset] + matching[offset..end] == matching[..end];
      all := all + page.value.points;
      if page.value.next.None? {
        assert matching[..end] == matching;
        assert col.Fails(ScrollOp) == old(col.Fails(ScrollOp));
        more := false;
      } else {
        offset := page.value.next.value;
      }
    }
    return Ok(all);
  }

  /**
   * `find_chunks` finds exactly the points of the scope, in storage order,
   * unless a call raised: a point is in the answer if and only if it is
   * stored and carries the course and every supplied module and resource id.
   */
  lemma FoundExactlyScope(s: seq<Point>, fails: set<Op>, courseId: int, moduleId: Option<int>, resourceId: Option<int>)
    requires Found(s, fails, courseId, moduleId, resourceId).Ok?
    ensures var found := Found(s, fails, courseId, moduleId, resourceId).value;
      forall p :: p in found <==> p in s && InScope(p, courseId, moduleId, resourceId)
  {
    var f := ScopeFilter(courseId, moduleId, resourceId);
    SelectRemoveSplit(s, f);
  }

  /** Narrowing the scope narrows what is found. */
  lemma FoundNarrows(s: seq<Point>, courseId: int, moduleId: int, resourceId: int)
    ensures Found(s, {}, courseId, Some(moduleId), Some(resourceId)).Ok?
    ensures forall p :: p in Found(s, {}, courseId, Some(moduleId), Some(resourceId)).value ==>
      p in Found(s, {}, courseId, Some(moduleId), None).value
    ensures forall p :: p in Found(s, {}, courseId, Some(moduleId), None).value ==>
      p in Found(s, {}, courseId, None, None).value
  {
    ScopesNest(s, courseId, moduleId, resourceId);
  }

  /** The sort key of `display_chunks`: course, module, resource and chunk index, 0 where a key is missing. */
  function SortKey(p: Point): (int, int, int, int) {
    match p.payload
    case VideoChunk(c, m, r, _, idx, _, _) => (c, m, r, idx)
    case MaterialChunk(c, _, _, _, _) => (c, 0, 0, 0)
  }

  /** Tuple order on sort keys. */
  predicate KeyLe(a: (int, int, int, int), b: (int, int, int, int)) {
    a.0 < b.0 || (a.0 == b.0 && (a.1 < b.1 || (a.1 == b.1 && (a.2 < b.2 || (a.2 == b.2 && a.3 <= b.3)))))
  }

  predicate SortedByKey(s: seq<Point>) {
    forall i, j :: 0 <= i < j < |s| ==> KeyLe(SortKey(s[i]), SortKey(s[j]))
  }

  /** `p` placed after every point whose key is not above its own. */
  function Insert(p: Point, s: seq<Point>): seq<Point> {
    if s == [] || !KeyLe(SortKey(s[0]), SortKey(p)) then [p] + s
    else [s[0]] + Insert(p, s[1..])
  }

  /** `sorted(chunks, key=...)`, built by stable insertion. */
  function SortedChunks(s: seq<Point>): seq<Point> {
    if s == [] then [] else Insert(s[|s| - 1], SortedChunks(s[..|s| - 1]))
  }

  /** Insertion adds `p` and keeps every other point. */
  lemma {:induction false} InsertKeeps(p: Point, s: seq<Point>)
    ensures multiset(Insert(p, s)) == multiset(s) + multiset{p}
  {
    if s != [] && KeyLe(SortKey(s[0]), SortKey(p)) {
      InsertKeeps(p, s[1..]);
      assert s == [s[0]] + s[1..];
    }
  }

  /** Insertion into a sorted list keeps it sorted. */
  lemma {:induction false} InsertSorted(p: Point, s: seq<Point>)
    requires SortedByKey(s)
    ensures SortedByKey(Insert(p, s))
  {
    if s != [] && KeyLe(SortKey(s[0]), SortKey(p)) {
      InsertSorted(p, s[1..]);
      InsertKeeps(p, s[1..]);
      var r := Insert(p, s[1..]);
      forall k | 0 <= k < |r| ensures KeyLe(SortKey(s[0]), SortKey(r[k])) {
        assert r[k] in multiset(r);
        if r[k] != p {
          assert r[k] in multiset(s[1..]);
          var j :| 0 <= j < |s[1..]| && s[1..][j] == r[k];
          assert s[j + 1] == r[k];
        }
      }
      var out := [s[0]] + r;
      forall i, j | 0 <= i < j < |out| ensures KeyLe(SortKey(out[i]), SortKey(out[j])) {
        assert out[j] == r[j - 1];
        if i > 0 {
          assert out[i] == r[i - 1];
        }
      }
    }
  }

  lemma InsertFacts(p: Point, s: seq<Point>)
    requires SortedByKey(s)
    ensures SortedByKey(Insert(p, s))
    ensures multiset(Insert(p, s)) == multiset(s) + multiset{p}
  {
    InsertKeeps(p, s);
    InsertSorted(p, s);
  }

  /** The displayed order is sorted by key and holds exactly the found points. */
  lemma {:induction false} SortedChunksFacts(s: seq<Point>)
    ensures SortedByKey(SortedChunks(s))
    ensures multiset(SortedChunks(s)) == multiset(s)
  {
    if s != [] {
      var n := |s| - 1;
      SortedChunksFacts(s[..n]);
      InsertFacts(s[n], SortedChunks(s[..n]));
      assert s == s[..n] + [s[n]];
    }
  }

  /** The number of points whose `chunk_type` is `t`. */
  function TypeCount(s: seq<Point>, t: ChunkType): nat {
    if s == [] then 0
    else
      var p := s[|s| - 1].payload;
      TypeCount(s[..|s| - 1], t) + (if p.VideoChunk? && p.chunkType == t then 1 else 0)
  }

  /**
   * The summary and chapter counts add up to at most the number of points,
   * and to exactly that number when every point is a video chunk.
   */
  lemma {:induction false} TypeCountsAddUp(s: seq<Point>)
    ensures TypeCount(s, Summary) + TypeCount(s, Chapter) <= |s|
    ensures TypeCount(s, Summary) + TypeCount(s, Chapter) == |s| <==> forall k :: 0 <= k < |s| ==> s[k].payload.VideoChunk?
  {
    if s != [] {
      var n := |s| - 1;
      TypeCountsAddUp(s[..n]);
      assert forall k :: 0 <= k < n ==> s[..n][k] == s[k];
    }
  }

  /** The key `resource_map` files a point under. */
  function ResourceKey(p: Point): Option<int> {
    Field(p.payload, ResourceId)
  }

  /** The number of points filed under `key`. */
  function CountWith(s: seq<Point>, key: Option<int>): nat {
    if s == [] then 0
    else CountWith(s[..|s| - 1], key) + (if ResourceKey(s[|s| - 1]) == key then 1 else 0)
  }

  /** The keys of `resource_map` in insertion order: each key at its first occurrence. */
  function KeysInOrder(s: seq<Point>): seq<Option<int>> {
    if s == [] then []
    else
      var keys := KeysInOrder(s[..|s| - 1]);
      var key := ResourceKey(s[|s| - 1]);
      if key in keys then keys else keys + [key]
  }

  /** The counts of `keys` added up. */
  function Total(keys: seq<Option<int>>, s: seq<Point>): nat {
    if keys == [] then 0 else Total(keys[..|keys| - 1], s) + CountWith(s, keys[|keys| - 1])
  }

  /**
   * The `resource_map` loop of `display_chunks`: one count per resource id,
   * the keys in the order they were first seen.
   */
  method ResourceCounts(chunks: seq<Point>) returns (counts: map<Option<int>, nat>, order: seq<Option<int>>)
    ensures order == KeysInOrder(chunks)
    ensures counts.Keys == set key | key in order
    ensures forall key :: key in counts ==> counts[key] == CountWith(chunks, key)
  {
    counts, order := map[], [];
    var i := 0;
    while i < |chunks|
      invariant i <= |chunks|
      invariant order == KeysInOrder(chunks[..i])
      invariant counts.Keys == set key | key in order
      invariant forall key :: key in counts ==> counts[key] == CountWith(chunks[..i], key)
    {
      var key := ResourceKey(chunks[i]);
      assert chunks[..i + 1][..i] == chunks[..i];
      if key !in counts {
        NoCountWithout(chunks[..i], key);
      }
      counts := counts[key := (if key in counts then counts[key] else 0) + 1];
      if key !in order {
        order := order + [key];
      }
      i := i + 1;
    }
    assert chunks[..i] == chunks;
  }

  predicate DistinctKeys(keys: seq<Option<int>>) {
    forall i, j :: 0 <= i < j < |keys| ==> keys[i] != keys[j]
  }

  /** Every point's key is among the keys, and no key repeats. */
  lemma {:induction false} KeysInOrderFacts(s: seq<Point>)
    ensures DistinctKeys(KeysInOrder(s))
    ensures forall k :: 0 <= k < |s| ==> ResourceKey(s[k]) in KeysInOrder(s)
    ensures forall key :: key in KeysInOrder(s) ==> CountWith(s, key) > 0
  {
    if s != [] {
      var n := |s| - 1;
      KeysInOrderFacts(s[..n]);
      assert forall k :: 0 <= k < n ==> s[..n][k] == s[k];
    }
  }

  /** Adding one point raises the total of distinct keys by one when its key is among them, else by nothing. */
  lemma {:induction false} TotalAfterPoint(keys: seq<Option<int>>, s: seq<Point>, p: Point)
    requires DistinctKeys(keys)
    ensures Total(keys, s + [p]) == Total(keys, s) + (if ResourceKey(p) in keys then 1 else 0)
  {
    if keys != [] {
      var n := |keys| - 1;
      assert (s + [p])[..|s|] == s;
      TotalAfterPoint(keys[..n], s, p);
      assert ResourceKey(p) in keys <==> ResourceKey(p) in keys[..n] || ResourceKey(p) == keys[n];
    }
  }

  /** The per-resource counts add up to the number of points. */
  lemma {:induction false} ResourceCountsAddUp(s: seq<Point>)
    ensures Total(KeysInOrder(s), s) == |s|
  {
    if s != [] {
      var n := |s| - 1;
      var init, p := s[..n], s[n];
      assert s == init + [p];
      ResourceCountsAddUp(init);
      var keys := KeysInOrder(init);
      KeysInOrderFacts(init);
      TotalAfterPoint(keys, init, p);
      if ResourceKey(p) !in keys {
        assert CountWith(init, ResourceKey(p)) == 0 by {
          NoCountWithout(init, ResourceKey(p));
        }
        assert (keys + [ResourceKey(p)])[..|keys|] == keys;
      }
    }
  }

  /** A key that is not among the keys counts no point. */
  lemma {:induction false} NoCountWithout(s: seq<Point>, key: Option<int>)
    requires key !in KeysInOrder(s)
    ensures CountWith(s, key) == 0
  {
    if s != [] {
      var n := |s| - 1;
      KeysInOrderFacts(s);
      assert s[n] == s[n];
      NoCountWithout(s[..n], key);
    }
  }

  /** The number of characters of content shown. */
  const PreviewLength: nat := 500

  /** `f"{content[:500]}{'...' if len(content) > 500 else ''}"` */
  function Preview(content: string): (r: string)
    ensures |r| <= PreviewLength + 3
    ensures |content| <= PreviewLength ==> r == content
    ensures |content| > PreviewLength <==> |r| == PreviewLength + 3 && r[PreviewLength..] == "..."
    ensures forall i :: 0 <= i < |r| && i < PreviewLength && i < |content| ==> r[i] == content[i]
  {
    if |content| > PreviewLength then content[..PreviewLength] + "..." else content
  }
}
