/**
 * The vector store as the pipeline uses it: a collection of points, each with an
 * id, an opaque vector and a payload, filtered by equality conditions on the
 * integer payload fields `course_id`, `module_id` and `resource_id`.
 *
 * Points are kept in storage order with distinct ids; that order stands for the
 * order in which the store pages and ranks them. Looking a point up by id
 * (`FindId`) is the id-to-point map, and an upsert overwrites by id.
 */
module Store {
  import opened Values
  import opened Embedding

  datatype FieldKey = CourseId | ModuleId | ResourceId

  datatype ChunkType = Summary | Chapter

  /**
   * The payload of a point: a video resource chunk or a PDF material chunk. The
   * `chunk_id` string of each is a function of the other fields (`ChunkId`).
   */
  datatype Payload =
    | VideoChunk(courseId: int, moduleId: int, resourceId: int,
                 chunkType: ChunkType, chunkIndex: nat, titles: Option<(Json, Json)>, text: Json)
    | MaterialChunk(courseId: int, bookName: string, page: nat, counter: nat, materialText: string)

  /** `f"{course_id}_{module_id}_{resource_id}_{idx}"` */
  function VideoChunkId(courseId: int, moduleId: int, resourceId: int, idx: nat): string {
    IntToString(courseId) + "_" + (IntToString(moduleId) + "_" + (IntToString(resourceId) + "_" + NatToString(idx)))
  }

  /** `f"{course_id}_{book_name}_{page_num}_{chunk_counter}"` */
  function MaterialChunkId(courseId: int, bookName: string, page: nat, counter: nat): string {
    IntToString(courseId) + "_" + bookName + "_" + NatToString(page) + "_" + NatToString(counter)
  }

  /** The `chunk_id` entry of a payload. */
  function ChunkId(p: Payload): string {
    match p
    case VideoChunk(c, m, r, _, idx, _, _) => VideoChunkId(c, m, r, idx)
    case MaterialChunk(c, b, page, counter, _) => MaterialChunkId(c, b, page, counter)
  }

  datatype Point = Point(id: nat, vector: Vector, payload: Payload)

  /** `FieldCondition(key=..., match=MatchValue(value=...))` */
  datatype Condition = Condition(key: FieldKey, value: int)

  /** `Filter(must=[...])`: every condition must hold. */
  type Filter = seq<Condition>

  /** The value a payload holds under `key`, if it has one. */
  function Field(p: Payload, key: FieldKey): Option<int> {
    match p
    case VideoChunk(c, m, r, _, _, _, _) =>
      (match key case CourseId => Some(c) case ModuleId => Some(m) case ResourceId => Some(r))
    case MaterialChunk(c, _, _, _, _) =>
      if key == CourseId then Some(c) else None
  }

  predicate Holds(p: Point, c: Condition) {
    Field(p.payload, c.key) == Some(c.value)
  }

  predicate Matches(p: Point, f: Filter) {
    forall k :: 0 <= k < |f| ==> Holds(p, f[k])
  }

  /** The points that match `f`, in storage order; `SelectRemoveSplit` states what that means. */
  function Select(s: seq<Point>, f: Filter): (r: seq<Point>)
    ensures |r| <= |s|
  {
    if s == [] then []
    else Select(s[..|s| - 1], f) + (if Matches(s[|s| - 1], f) then [s[|s| - 1]] else [])
  }

  /** The points that do not match `f`: what a delete by `f` leaves (see `SelectRemoveSplit`). */
  function Remove(s: seq<Point>, f: Filter): (r: seq<Point>)
    ensures |r| <= |s|
  {
    if s == [] then []
    else Remove(s[..|s| - 1], f) + (if Matches(s[|s| - 1], f) then [] else [s[|s| - 1]])
  }

  function Ids(s: seq<Point>): set<nat> {
    set k | 0 <= k < |s| :: s[k].id
  }

  predicate DistinctIds(s: seq<Point>) {
    forall i, j :: 0 <= i < j < |s| ==> s[i].id != s[j].id
  }

  /** The point stored under `id`, if any. */
  function FindId(s: seq<Point>, id: nat): (r: Option<Point>)
    ensures r.Some? <==> id in Ids(s)
    ensures r.Some? ==> r.value in s && r.value.id == id
  {
    if s == [] then None
    else if s[|s| - 1].id == id then Some(s[|s| - 1])
    else
      var r := FindId(s[..|s| - 1], id);
      assert Ids(s) == Ids(s[..|s| - 1]) + {s[|s| - 1].id};
      r
  }

  /** Index of the point with `id`, or `|s|` when there is none. */
  function PositionOf(s: seq<Point>, id: nat): (k: nat)
    ensures k <= |s|
    ensures k < |s| ==> s[k].id == id
    ensures k == |s| ==> id !in Ids(s)
  {
    if s == [] then 0
    else if s[0].id == id then 0
    else
      var k := 1 + PositionOf(s[1..], id);
      assert Ids(s) == {s[0].id} + Ids(s[1..]);
      k
  }

  /** One point upserted: it replaces the point with the same id in place, or is appended. */
  function UpsertOne(s: seq<Point>, p: Point): (r: seq<Point>)
    ensures Ids(r) == Ids(s) + {p.id}
  {
    var k := PositionOf(s, p.id);
    if k < |s| then
      var r := s[k := p];
      assert forall q :: q in Ids(r) <==> q in Ids(s) by {
        forall q ensures q in Ids(r) <==> q in Ids(s) {
          if q in Ids(s) {
            var j :| 0 <= j < |s| && s[j].id == q;
            assert r[j].id == q;
          }
          if q in Ids(r) {
            var j :| 0 <= j < |r| && r[j].id == q;
            assert s[j].id == q;
          }
        }
      }
      r
    else
      var r := s + [p];
      assert forall q :: q in Ids(r) <==> q in Ids(s) || q == p.id by {
        forall q ensures q in Ids(r) <==> q in Ids(s) || q == p.id {
          if q in Ids(s) {
            var j :| 0 <= j < |s| && s[j].id == q;
            assert r[j].id == q;
          }
          if q == p.id {
            assert r[|s|].id == q;
          }
          if q in Ids(r) {
            var j :| 0 <= j < |r| && r[j].id == q;
            if j < |s| { assert s[j].id == q; }
          }
        }
      }
      r
  }

  /** A batch upserted point by point. */
  function UpsertAll(s: seq<Point>, batch: seq<Point>): seq<Point>
    decreases |batch|
  {
    if batch == [] then s else UpsertAll(UpsertOne(s, batch[0]), batch[1..])
  }

  /** The last point of `batch` with `id`, if any: the one an upsert keeps. */
  function LastWith(batch: seq<Point>, id: nat): Option<Point> {
    if batch == [] then None
    else if batch[|batch| - 1].id == id then Some(batch[|batch| - 1])
    else LastWith(batch[..|batch| - 1], id)
  }

  datatype Op = CountOp | DeleteOp | ScrollOp | UpsertOp | QueryOp | IndexOp | CollectionOp

  const AllOps: set<Op> := {CountOp, DeleteOp, ScrollOp, UpsertOp, QueryOp, IndexOp, CollectionOp}

  lemma AllOpsListed()
    ensures forall op: Op :: op in AllOps
  {
    forall op: Op ensures op in AllOps {
      match op
      case CountOp => case DeleteOp => case ScrollOp => case UpsertOp =>
      case QueryOp => case IndexOp => case CollectionOp =>
    }
  }

  datatype Distance = Cosine

  /** `VectorParams(size=..., distance=...)` */
  datatype Config = Config(size: nat, distance: Distance)

  /** One page of a scroll: the points and the cursor of the next page, if any. */
  datatype Page = Page(points: seq<Point>, next: Option<nat>)

  /**
   * The points of `s` from position `offset`, at most `limit` of them
   * (`s[offset:offset + limit]`); `PointIds.ScanStep` uses that consecutive
   * windows tile the store.
   */
  function Window(s: seq<Point>, offset: nat, limit: nat): (r: seq<Point>)
    ensures |r| <= limit
  {
    if offset >= |s| then [] else Slice(s, offset, limit)
  }

  /**
   * A collection. The kinds of call in `faulty` always raise; so does every call
   * while the collection does not exist (`config == None`).
   */
  class Collection {
    const faulty: set<Op>
    var points: seq<Point>
    var indexes: set<FieldKey>
    var config: Option<Config>

    ghost predicate Valid()
      reads this
    {
      DistinctIds(points)
    }

    predicate Fails(op: Op)
      reads this
    {
      op in faulty || config.None?
    }

    /** The call kinds that raise in the current state. */
    function FailingOps(): (r: set<Op>)
      reads this
      ensures forall op :: op in r <==> Fails(op)
    {
      AllOpsListed();
      if config.None? then AllOps else faulty
    }

    constructor (faulty: set<Op>, config: Option<Config>, points: seq<Point>)
      requires DistinctIds(points)
      ensures Valid()
      ensures this.faulty == faulty && this.config == config && this.points == points && indexes == {}
    {
      this.faulty := faulty;
      this.config := config;
      this.points := points;
      this.indexes := {};
    }

    /** `count(count_filter=f).count`, or None when the call raises. */
    method Count(f: Filter) returns (r: Option<nat>)
      ensures r == if Fails(CountOp) then None else Some(|Select(points, f)|)
    {
      if Fails(CountOp) {
        return None;
      }
      return Some(|Select(points, f)|);
    }

    /** `delete(points_selector=f)`: removes exactly the matching points. */
    method Delete(f: Filter) returns (ok: bool)
      requires Valid()
      modifies this
      ensures Valid()
      ensures ok == !old(Fails(DeleteOp))
      ensures points == if ok then Remove(old(points), f) else old(points)
      ensures indexes == old(indexes) && config == old(config)
    {
      if Fails(DeleteOp) {
        return false;
      }
      RemoveDistinct(points, f);
      points := Remove(points, f);
      return true;
    }

    /** `upsert(points=batch)`: each point overwrites the one with its id, or is added. */
    method Upsert(batch: seq<Point>) returns (ok: bool)
      requires Valid()
      modifies this
      ensures Valid()
      ensures ok == !old(Fails(UpsertOp))
      ensures points == if ok then UpsertAll(old(points), batch) else old(points)
      ensures indexes == old(indexes) && config == old(config)
    {
      if Fails(UpsertOp) {
        return false;
      }
      UpsertAllDistinct(points, batch);
      points := UpsertAll(points, batch);
      return true;
    }

    /**
     * `scroll(scroll_filter=f, limit=limit, offset=cursor)`: the matching points
     * from position `cursor` on, at most `limit` of them, and the cursor of the
     * next page when more remain.
     */
    method Scroll(f: Filter, cursor: nat, limit: nat) returns (r: Option<Page>)
      ensures r.None? <==> Fails(ScrollOp)
      ensures r.Some? ==> r.value.points == Window(Select(points, f), cursor, limit)
      ensures r.Some? ==> r.value.next == if cursor + limit < |Select(points, f)| then Some(cursor + limit) else None
    {
      if Fails(ScrollOp) {
        return None;
      }
      var matching := Select(points, f);
      var next := if cursor + limit < |matching| then Some(cursor + limit) else None;
      return Some(Page(Window(matching, cursor, limit), next));
    }

    /** `query_points(query_filter=f, limit=topK)`: the first `topK` matching points (all points without a filter). */
    method Query(f: Option<Filter>, topK: nat) returns (r: Option<seq<Point>>)
      ensures r.None? <==> Fails(QueryOp)
      ensures r.Some? ==> r.value == Window(if f.Some? then Select(points, f.value) else points, 0, topK)
    {
      if Fails(QueryOp) {
        return None;
      }
      var candidates := if f.Some? then Select(points, f.value) else points;
      return Some(Window(candidates, 0, topK));
    }

    /** `create_payload_index(field_name=key, field_schema=INTEGER)` */
    method CreatePayloadIndex(key: FieldKey) returns (ok: bool)
      modifies this
      ensures ok == !old(Fails(IndexOp))
      ensures indexes == if ok then old(indexes) + {key} else old(indexes)
      ensures points == old(points) && config == old(config)
    {
      if Fails(IndexOp) {
        return false;
      }
      indexes := indexes + {key};
      return true;
    }

    /** `delete_collection()`: the collection and its points and indexes are gone. */
    method DeleteCollection() returns (ok: bool)
      requires Valid()
      modifies this
      ensures Valid()
      ensures ok == (CollectionOp !in faulty)
      ensures if ok then points == [] && indexes == {} && config == None
              else points == old(points) && indexes == old(indexes) && config == old(config)
    {
      if CollectionOp in faulty {
        return false;
      }
      points, indexes, config := [], {}, None;
      return true;
    }

    /** `create_collection(vectors_config=cfg)`: raises when the collection already exists. */
    method CreateCollection(cfg: Config) returns (ok: bool)
      requires Valid()
      modifies this
      ensures Valid()
      ensures ok == (CollectionOp !in faulty && old(config).None?)
      ensures if ok then points == [] && indexes == {} && config == Some(cfg)
              else points == old(points) && indexes == old(indexes) && config == old(config)
    {
      if CollectionOp in faulty || config.Some? {
        return false;
      }
      points, indexes, config := [], {}, Some(cfg);
      return true;
    }

    /** `get_collection().points_count` */
    method PointsCount() returns (r: Option<nat>)
      ensures r == if Fails(CollectionOp) then None else Some(|points|)
    {
      if Fails(CollectionOp) {
        return None;
      }
      return Some(|points|);
    }
  }

  // ---------------------------------------------------------------------------
  // Filtering

  lemma {:induction false} SelectRemoveSplit(s: seq<Point>, f: Filter)
    ensures |Select(s, f)| + |Remove(s, f)| == |s|
    ensures forall p :: p in Select(s, f) <==> p in s && Matches(p, f)
    ensures forall p :: p in Remove(s, f) <==> p in s && !Matches(p, f)
  {
    if s != [] {
      var init := s[..|s| - 1];
      SelectRemoveSplit(init, f);
      assert s == init + [s[|s| - 1]];
    }
  }

  lemma {:induction false} RemoveSubsequence(s: seq<Point>, f: Filter)
    ensures Ids(Remove(s, f)) <= Ids(s)
    ensures DistinctIds(s) ==> DistinctIds(Remove(s, f))
  {
    if s != [] {
      var init, last := s[..|s| - 1], s[|s| - 1];
      RemoveSubsequence(init, f);
      assert s == init + [last];
      IdsAppend(init, last);
      var r := Remove(s, f);
      var r2 := Remove(init, f);
      if !Matches(last, f) {
        assert r == r2 + [last];
        IdsAppend(r2, last);
        if DistinctIds(s) {
          assert last.id !in Ids(init);
          forall i, j | 0 <= i < j < |r| ensures r[i].id != r[j].id {
            if j == |r| - 1 {
              assert r[i].id in Ids(r2);
            }
          }
        }
      }
    }
  }

  lemma IdsAppend(s: seq<Point>, p: Point)
    ensures Ids(s + [p]) == Ids(s) + {p.id}
  {
    var r := s + [p];
    forall q ensures q in Ids(r) <==> q in Ids(s) + {p.id} {
      if q in Ids(s) {
        var j :| 0 <= j < |s| && s[j].id == q;
        assert r[j].id == q;
      }
      if q == p.id {
        assert r[|s|].id == q;
      }
      if q in Ids(r) {
        var j :| 0 <= j < |r| && r[j].id == q;
        if j < |s| { assert s[j].id == q; }
      }
    }
  }

  lemma RemoveDistinct(s: seq<Point>, f: Filter)
    requires DistinctIds(s)
    ensures DistinctIds(Remove(s, f))
  {
    RemoveSubsequence(s, f);
  }

  /** After a delete by `f`, nothing matches `f`: a recount by the same filter is zero. */
  lemma {:induction false} NothingMatchesAfterRemove(s: seq<Point>, f: Filter)
    ensures Select(Remove(s, f), f) == []
  {
    if s != [] {
      var init, last := s[..|s| - 1], s[|s| - 1];
      NothingMatchesAfterRemove(init, f);
      if !Matches(last, f) {
        var r := Remove(init, f) + [last];
        assert Remove(s, f) == r;
        assert r[..|r| - 1] == Remove(init, f) && r[|r| - 1] == last;
      } else {
        assert Remove(init, f) + [] == Remove(init, f);
        assert Remove(s, f) == Remove(init, f);
      }
    }
  }

  /** Deleting by a filter that matches nothing leaves the points as they are. */
  lemma {:induction false} RemoveNoMatch(s: seq<Point>, f: Filter)
    requires |Select(s, f)| == 0
    ensures Remove(s, f) == s
  {
    if s != [] {
      var init := s[..|s| - 1];
      RemoveNoMatch(init, f);
      assert s == init + [s[|s| - 1]];
    }
  }

  lemma NoUnderscore(i: int)
    ensures '_' !in IntToString(i)
  {
    if i < 0 {
      assert IntToString(i) == "-" + NatToString(-i);
    }
  }

  /** Different video chunk coordinates give different chunk ids. */
  lemma VideoChunkIdInjective(c: int, m: int, r: int, i: nat, c2: int, m2: int, r2: int, i2: nat)
    requires VideoChunkId(c, m, r, i) == VideoChunkId(c2, m2, r2, i2)
    ensures c == c2 && m == m2 && r == r2 && i == i2
  {
    NoUnderscore(c); NoUnderscore(c2);
    NoUnderscore(m); NoUnderscore(m2);
    NoUnderscore(r); NoUnderscore(r2);
    SplitAtUnderscore(IntToString(c), IntToString(m) + "_" + (IntToString(r) + "_" + NatToString(i)),
                      IntToString(c2), IntToString(m2) + "_" + (IntToString(r2) + "_" + NatToString(i2)));
    SplitAtUnderscore(IntToString(m), IntToString(r) + "_" + NatToString(i), IntToString(m2), IntToString(r2) + "_" + NatToString(i2));
    SplitAtUnderscore(IntToString(r), NatToString(i), IntToString(r2), NatToString(i2));
    IntToStringInjective(c, c2);
    IntToStringInjective(m, m2);
    IntToStringInjective(r, r2);
    NatToStringInjective(i, i2);
  }

  /**
   * Material chunk ids differ when their counters differ, whatever the book
   * name holds (it may itself contain underscores): the counter is what follows
   * the last underscore.
   */
  lemma MaterialChunkIdsDiffer(c: int, b: string, p: nat, k: nat, c2: int, b2: string, p2: nat, k2: nat)
    requires k != k2
    ensures MaterialChunkId(c, b, p, k) != MaterialChunkId(c2, b2, p2, k2)
  {
    var x, y := NatToString(k), NatToString(k2);
    var a, a2 := IntToString(c) + "_" + b + "_" + NatToString(p), IntToString(c2) + "_" + b2 + "_" + NatToString(p2);
    if a + "_" + x == a2 + "_" + y {
      LastUnderscore(a, x, a2, y);
      NatToStringInjective(k, k2);
    }
  }

  /** The part after the last underscore is the same on both sides. */
  lemma LastUnderscore(a: string, x: string, a2: string, y: string)
    requires forall i :: 0 <= i < |x| ==> x[i] != '_'
    requires forall i :: 0 <= i < |y| ==> y[i] != '_'
    requires a + "_" + x == a2 + "_" + y
    ensures x == y
  {
    var s := a + "_" + x;
    assert s[|s| - |x| - 1] == '_';
    assert s[|s| - |y| - 1] == '_';
    assert |x| == |y|;
    assert x == s[|s| - |x|..] == y;
  }

  lemma MatchesConcat(p: Point, f: Filter, g: Filter)
    ensures Matches(p, f + g) <==> Matches(p, f) && Matches(p, g)
  {
    if Matches(p, f) && Matches(p, g) {
      forall k | 0 <= k < |f + g| ensures Holds(p, (f + g)[k]) {
        if k >= |f| { assert (f + g)[k] == g[k - |f|]; }
      }
    }
    if Matches(p, f + g) {
      forall k | 0 <= k < |g| ensures Holds(p, g[k]) {
        assert (f + g)[|f| + k] == g[k];
      }
      forall k | 0 <= k < |f| ensures Holds(p, f[k]) {
        assert (f + g)[k] == f[k];
      }
    }
  }

  /** A filter that holds every condition of `f` (and maybe more) selects a subset. */
  lemma NarrowerFilter(s: seq<Point>, f: Filter, g: Filter)
    requires forall c :: c in f ==> c in g
    ensures forall p :: p in Select(s, g) ==> p in Select(s, f)
  {
    SelectRemoveSplit(s, f);
    SelectRemoveSplit(s, g);
    forall p | p in Select(s, g) ensures p in Select(s, f) {
      forall k | 0 <= k < |f| ensures Holds(p, f[k]) {
        var c := f[k];
        assert c in g;
        var j :| 0 <= j < |g| && g[j] == c;
      }
    }
  }

  // ---------------------------------------------------------------------------
  // Upsert by id

  lemma UpsertOneFacts(s: seq<Point>, p: Point)
    requires DistinctIds(s)
    ensures DistinctIds(UpsertOne(s, p))
    ensures FindId(UpsertOne(s, p), p.id) == Some(p)
    ensures forall id :: id != p.id ==> FindId(UpsertOne(s, p), id) == FindId(s, id)
  {
    var k := PositionOf(s, p.id);
    var r := UpsertOne(s, p);
    if k < |s| {
      assert r == s[k := p];
      forall i, j | 0 <= i < j < |r| ensures r[i].id != r[j].id {
        assert r[i].id == s[i].id && r[j].id == s[j].id;
      }
    } else {
      assert r == s + [p];
    }
    FindAfterUpdate(s, k, p);
  }

  /** `FindId` as a map lookup: in a list with distinct ids, the point at index `k` is what `k`'s id finds. */
  lemma {:induction false} FindAt(s: seq<Point>, k: nat)
    requires DistinctIds(s) && k < |s|
    ensures FindId(s, s[k].id) == Some(s[k])
  {
    if k < |s| - 1 {
      FindAt(s[..|s| - 1], k);
    }
  }

  lemma FindAfterUpdate(s: seq<Point>, k: nat, p: Point)
    requires DistinctIds(s) && k == PositionOf(s, p.id)
    requires DistinctIds(UpsertOne(s, p))
    ensures FindId(UpsertOne(s, p), p.id) == Some(p)
    ensures forall id :: id != p.id ==> FindId(UpsertOne(s, p), id) == FindId(s, id)
  {
    var r := UpsertOne(s, p);
    var kr := if k < |s| then k else |s|;
    assert r[kr] == p;
    FindAt(r, kr);
    forall id | id != p.id ensures FindId(r, id) == FindId(s, id) {
      if id in Ids(s) {
        var j :| 0 <= j < |s| && s[j].id == id;
        FindAt(s, j);
        assert j != kr;
        assert r[j] == s[j];
        FindAt(r, j);
      } else {
        assert id !in Ids(r);
      }
    }
  }

  lemma {:induction false} UpsertAllDistinct(s: seq<Point>, batch: seq<Point>)
    requires DistinctIds(s)
    ensures DistinctIds(UpsertAll(s, batch))
    decreases |batch|
  {
    if batch != [] {
      UpsertOneFacts(s, batch[0]);
      UpsertAllDistinct(UpsertOne(s, batch[0]), batch[1..]);
    }
  }

  /**
   * Upsert is overwrite-by-id: after upserting `batch`, an id finds the last
   * point of the batch with that id, or else what it found before. Ids stay
   * distinct.
   */
  lemma {:induction false} UpsertAllLookup(s: seq<Point>, batch: seq<Point>, id: nat)
    requires DistinctIds(s)
    ensures DistinctIds(UpsertAll(s, batch))
    ensures FindId(UpsertAll(s, batch), id) == if LastWith(batch, id).Some? then LastWith(batch, id) else FindId(s, id)
    decreases |batch|
  {
    if batch != [] {
      var p := batch[0];
      var s2 := UpsertOne(s, p);
      UpsertOneFacts(s, p);
      UpsertAllLookup(s2, batch[1..], id);
      LastWithCons(batch, id);
    }
  }

  lemma {:induction false} LastWithCons(batch: seq<Point>, id: nat)
    requires batch != []
    ensures LastWith(batch, id) == if LastWith(batch[1..], id).Some? then LastWith(batch[1..], id)
                                   else if batch[0].id == id then Some(batch[0]) else None
  {
    if |batch| > 1 {
      var init := batch[..|batch| - 1];
      assert init[1..] == batch[1..][..|batch[1..]| - 1];
      LastWithCons(init, id);
    }
  }

  /** Upserting points whose ids are all new keeps every stored point and adds exactly the batch. */
  lemma {:induction false} UpsertFreshIds(s: seq<Point>, batch: seq<Point>)
    requires DistinctIds(batch)
    requires forall k :: 0 <= k < |batch| ==> batch[k].id !in Ids(s)
    ensures UpsertAll(s, batch) == s + batch
    decreases |batch|
  {
    if batch != [] {
      var p, tail := batch[0], batch[1..];
      var s2 := s + [p];
      UpsertFreshOne(s, p);
      assert UpsertAll(s, batch) == UpsertAll(s2, tail);
      FreshAfterFirst(s, batch);
      UpsertFreshIds(s2, tail);
      assert s2 + tail == s + batch;
    }
  }

  /** A point with a new id is appended. */
  lemma UpsertFreshOne(s: seq<Point>, p: Point)
    requires p.id !in Ids(s)
    ensures UpsertOne(s, p) == s + [p]
  {
    assert PositionOf(s, p.id) == |s|;
  }

  /** Once the first point of a fresh batch is stored, the rest of the batch is still fresh. */
  lemma FreshAfterFirst(s: seq<Point>, batch: seq<Point>)
    requires batch != [] && DistinctIds(batch)
    requires forall k :: 0 <= k < |batch| ==> batch[k].id !in Ids(s)
    ensures DistinctIds(batch[1..])
    ensures forall k :: 0 <= k < |batch| - 1 ==> batch[1..][k].id !in Ids(s + [batch[0]])
  {
    IdsAppend(s, batch[0]);
    forall k | 0 <= k < |batch| - 1 ensures batch[1..][k].id !in Ids(s + [batch[0]]) {
      assert batch[1..][k] == batch[k + 1];
    }
  }

  lemma AppendFreshDistinct(s: seq<Point>, p: Point)
    requires DistinctIds(s) && p.id !in Ids(s)
    ensures DistinctIds(s + [p])
  {
    var r := s + [p];
    forall i, j | 0 <= i < j < |r| ensures r[i].id != r[j].id {
      if j == |s| {
        assert r[i] == s[i];
        assert s[i].id in Ids(s);
      }
    }
  }

  /** Upserting a batch in two parts is upserting it whole. */
  lemma {:induction false} UpsertAllConcat(s: seq<Point>, a: seq<Point>, b: seq<Point>)
    ensures UpsertAll(s, a + b) == UpsertAll(UpsertAll(s, a), b)
    decreases |a|
  {
    if a == [] {
      assert a + b == b;
    } else {
      assert (a + b)[0] == a[0] && (a + b)[1..] == a[1..] + b;
      UpsertAllConcat(UpsertOne(s, a[0]), a[1..], b);
    }
  }
  /** Selecting from two parts is selecting from each. */
  lemma {:induction false} SelectConcat(a: seq<Point>, b: seq<Point>, f: Filter)
    ensures Select(a + b, f) == Select(a, f) + Select(b, f)
    ensures Remove(a + b, f) == Remove(a, f) + Remove(b, f)
  {
    if b == [] {
      assert a + b == a;
    } else {
      var init := b[..|b| - 1];
      assert (a + b)[..|a + b| - 1] == a + init;
      SelectConcat(a, init, f);
    }
  }

  /** Points that all match are all selected and none is left by a delete. */
  lemma {:induction false} AllMatch(s: seq<Point>, f: Filter)
    requires forall k :: 0 <= k < |s| ==> Matches(s[k], f)
    ensures Select(s, f) == s && Remove(s, f) == []
  {
    if s != [] {
      var init := s[..|s| - 1];
      assert forall k :: 0 <= k < |init| ==> init[k] == s[k];
      AllMatch(init, f);
    }
  }

  /**
   * Deleting by `f` and then appending points that all match `f`: what `f`
   * selects is exactly the new points, and what lies outside `f` is as before.
   */
  lemma ReplaceMatching(s: seq<Point>, f: Filter, pts: seq<Point>)
    requires forall k :: 0 <= k < |pts| ==> Matches(pts[k], f)
    ensures Select(Remove(s, f) + pts, f) == pts
    ensures Remove(Remove(s, f) + pts, f) == Remove(s, f)
  {
    SelectConcat(Remove(s, f), pts, f);
    AllMatch(pts, f);
    NothingMatchesAfterRemove(s, f);
    RemoveNoMatch(Remove(s, f), f);
  }
}
