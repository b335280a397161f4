/**
 * From normalised rows to stored points, as `upload_data`,
 * `upload_course_data` and `process_and_upload_data` do it: the chunk list of
 * each resource (summary first, then its chapter chunks), one embedding per
 * chunk, a point with the next consecutive id for every chunk whose embedding
 * succeeded, and upserts in slices of 100.
 */
module Assembly {
  import opened Values
  import opened Embedding
  import opened Store
  import opened Chapters
  import opened Rows
  import opened PointIds

  /** One entry of `chunks_to_embed` with its `chunk_metadata`. */
  datatype Chunk = Chunk(text: Json, payload: Payload)

  /** The summary chunk: index 0, its text the summary itself. */
  function SummaryEntry(row: Row): Chunk {
    Chunk(row.summary, VideoChunk(row.courseId, row.moduleId, row.resourceId, Summary, 0, None, row.summary))
  }

  /** The chapter chunk at position `idx` (counting from 1). */
  function ChapterEntry(row: Row, idx: nat, c: ChapterChunk): Chunk {
    Chunk(JStr(c.text), VideoChunk(row.courseId, row.moduleId, row.resourceId, Chapter, idx,
      Some((c.topicTitle, c.subtopicTitle)), JStr(c.text)))
  }

  /** The chapter chunks of a resource, numbered from 1. */
  function ChapterEntries(row: Row, cs: seq<ChapterChunk>): (r: seq<Chunk>)
    ensures |r| == |cs| && forall k :: 0 <= k < |cs| ==> r[k] == ChapterEntry(row, k + 1, cs[k])
  {
    seq(|cs|, k requires 0 <= k < |cs| => ChapterEntry(row, k + 1, cs[k]))
  }

  /** The chunks of one resource; an exception from `process_chapters` propagates. */
  function ResourceChunks(row: Row): Result<seq<Chunk>> {
    var head := if Truthy(row.summary) then [SummaryEntry(row)] else [];
    if !Truthy(row.chapters) then Ok(head)
    else
      match ChapterChunks(row.chapters)
      case Err(e) => Err(e)
      case Ok(cs) => Ok(head + ChapterEntries(row, cs))
  }

  method BuildResourceChunks(row: Row) returns (r: Result<seq<Chunk>>)
    ensures r == ResourceChunks(row)
  {
    var chunks: seq<Chunk> := [];
    if Truthy(row.summary) {
      chunks := chunks + [SummaryEntry(row)];
    }
    assert chunks == if Truthy(row.summary) then [SummaryEntry(row)] else [];
    if Truthy(row.chapters) {
      var chapterChunks := ProcessChapters(row.chapters);
      if chapterChunks.Err? {
        return Err(chapterChunks.error);
      }
      chunks := AppendChapterEntries(row, chunks, chapterChunks.value);
    }
    return Ok(chunks);
  }

  /** The loop `for idx, chunk_data in enumerate(chapter_chunks, start=1)`. */
  method AppendChapterEntries(row: Row, head: seq<Chunk>, cs: seq<ChapterChunk>) returns (chunks: seq<Chunk>)
    ensures chunks == head + ChapterEntries(row, cs)
  {
    chunks := head;
    var idx := 1;
    while idx <= |cs|
      invariant 1 <= idx <= |cs| + 1
      invariant chunks == head + ChapterEntries(row, cs[..idx - 1])
    {
      assert ChapterEntries(row, cs[..idx]) == ChapterEntries(row, cs[..idx - 1]) + [ChapterEntry(row, idx, cs[idx - 1])];
      chunks := chunks + [ChapterEntry(row, idx, cs[idx - 1])];
      idx := idx + 1;
    }
    assert cs[..idx - 1] == cs;
  }

  /** The summary chunk opens the list when the summary is truthy; the chapter chunks follow in order. */
  lemma ResourceChunksEntries(row: Row)
    requires ResourceChunks(row).Ok?
    ensures var chunks, s := ResourceChunks(row).value, if Truthy(row.summary) then 1 else 0;
      && |chunks| == s + (if Truthy(row.chapters) then |ChapterChunks(row.chapters).value| else 0)
      && (forall k :: 0 <= k < |chunks| ==>
            chunks[k] == if k < s then SummaryEntry(row) else ChapterEntry(row, k + 1 - s, ChapterChunks(row.chapters).value[k - s]))
  {
    var head := if Truthy(row.summary) then [SummaryEntry(row)] else [];
    if Truthy(row.chapters) {
      EntriesAfter(row, head, ChapterChunks(row.chapters).value);
    }
  }

  /** In `head + ChapterEntries(row, cs)`, the chapter chunks sit after the head, numbered from 1. */
  lemma EntriesAfter(row: Row, head: seq<Chunk>, cs: seq<ChapterChunk>)
    ensures var chunks := head + ChapterEntries(row, cs);
      forall k :: |head| <= k < |chunks| ==> chunks[k] == ChapterEntry(row, k + 1 - |head|, cs[k - |head|])
  {
    var chunks := head + ChapterEntries(row, cs);
    forall k | |head| <= k < |chunks| ensures chunks[k] == ChapterEntry(row, k + 1 - |head|, cs[k - |head|]) {
      assert chunks[k] == ChapterEntries(row, cs)[k - |head|];
    }
  }

  /**
   * The chunk list of a resource: a summary chunk at index 0 exactly when the
   * summary is truthy, then the chapter chunks at indices 1..N in
   * `process_chapters` order; each chunk id ends in its index, every chunk
   * carries the row's three ids, and the ids within a resource are distinct.
   */
  lemma ResourceChunksShape(row: Row)
    requires ResourceChunks(row).Ok?
    ensures var chunks, s := ResourceChunks(row).value, if Truthy(row.summary) then 1 else 0;
      && |chunks| == s + (if Truthy(row.chapters) then |ChapterChunks(row.chapters).value| else 0)
      && (forall k :: 0 <= k < |chunks| ==>
            var p := chunks[k].payload;
            && p.VideoChunk?
            && p.courseId == row.courseId && p.moduleId == row.moduleId && p.resourceId == row.resourceId
            && p.chunkIndex == k + 1 - s
            && (p.chunkType == Summary <==> k < s)
            && ChunkId(p) == VideoChunkId(row.courseId, row.moduleId, row.resourceId, p.chunkIndex)
            && chunks[k].text == p.text)
      && (forall j, k :: 0 <= j < k < |chunks| ==> ChunkId(chunks[j].payload) != ChunkId(chunks[k].payload))
      && (forall k :: s <= k < |chunks| ==>
            var c := ChapterChunks(row.chapters).value[k - s];
            chunks[k].text == JStr(c.text) && chunks[k].payload.titles == Some((c.topicTitle, c.subtopicTitle)))
  {
    var chunks, s := ResourceChunks(row).value, if Truthy(row.summary) then 1 else 0;
    ResourceChunksEntries(row);
    forall j, k | 0 <= j < k < |chunks| ensures ChunkId(chunks[j].payload) != ChunkId(chunks[k].payload) {
      if ChunkId(chunks[j].payload) == ChunkId(chunks[k].payload) {
        VideoChunkIdInjective(row.courseId, row.moduleId, row.resourceId, chunks[j].payload.chunkIndex,
                         row.courseId, row.moduleId, row.resourceId, chunks[k].payload.chunkIndex);
      }
    }
  }

  // ---------------------------------------------------------------------------
  // Points for the chunks whose embedding succeeded

  /** `zip(a, b)`: pairs up to the shorter length. */
  function Zip<A, B>(a: seq<A>, b: seq<B>): (r: seq<(A, B)>)
    ensures |r| == if |a| <= |b| then |a| else |b|
    ensures forall j :: 0 <= j < |r| ==> r[j] == (a[j], b[j])
  {
    var n := if |a| <= |b| then |a| else |b|;
    seq(n, j requires 0 <= j < n => (a[j], b[j]))
  }

  /** Points for the pairs with an embedding, numbered from `start` in order. */
  function AssemblePairs(start: nat, pairs: seq<(Option<Vector>, Payload)>): seq<Point> {
    if pairs == [] then []
    else
      var init := AssemblePairs(start, pairs[..|pairs| - 1]);
      var last := pairs[|pairs| - 1];
      init + (if last.0.Some? then [Point(start + |init|, last.0.value, last.1)] else [])
  }

  /** The positions of the pairs that have an embedding. */
  function Picked(pairs: seq<(Option<Vector>, Payload)>): seq<nat> {
    if pairs == [] then []
    else
      var n := |pairs| - 1;
      Picked(pairs[..n]) + (if pairs[n].0.Some? then [n] else [])
  }

  /** The picked positions are in range, increasing, and exactly those with an embedding. */
  lemma {:induction false} PickedFacts(pairs: seq<(Option<Vector>, Payload)>)
    ensures var idx := Picked(pairs);
      && (forall k :: 0 <= k < |idx| ==> idx[k] < |pairs| && pairs[idx[k]].0.Some?)
      && (forall k, l :: 0 <= k < l < |idx| ==> idx[k] < idx[l])
      && (forall j :: 0 <= j < |pairs| ==> (j in idx <==> pairs[j].0.Some?))
  {
    if pairs != [] {
      var n := |pairs| - 1;
      var init := pairs[..n];
      PickedFacts(init);
      var idx, idx2 := Picked(pairs), Picked(init);
      assert forall k :: 0 <= k < |idx2| ==> idx[k] == idx2[k];
      assert forall j :: 0 <= j < n ==> pairs[j] == init[j];
      forall j | 0 <= j < |pairs| ensures j in idx <==> pairs[j].0.Some? {
        if j < n {
          assert j in idx <==> j in idx2;
        }
      }
    }
  }

  /** The k-th point is made from the k-th picked pair and has id `start + k`. */
  lemma {:induction false} AssembleAlongPicked(start: nat, pairs: seq<(Option<Vector>, Payload)>)
    ensures var out, idx := AssemblePairs(start, pairs), Picked(pairs);
      && |out| == |idx|
      && (forall k :: 0 <= k < |idx| && idx[k] < |pairs| && pairs[idx[k]].0.Some? ==>
            out[k] == Point(start + k, pairs[idx[k]].0.value, pairs[idx[k]].1))
  {
    if pairs != [] {
      var n := |pairs| - 1;
      var init := pairs[..n];
      AssembleAlongPicked(start, init);
      PickedFacts(init);
      var out, idx := AssemblePairs(start, pairs), Picked(pairs);
      var out2, idx2 := AssemblePairs(start, init), Picked(init);
      forall k | 0 <= k < |idx| && idx[k] < |pairs| && pairs[idx[k]].0.Some?
        ensures out[k] == Point(start + k, pairs[idx[k]].0.value, pairs[idx[k]].1)
      {
        if k < |idx2| {
          assert idx[k] == idx2[k] && out[k] == out2[k] && pairs[idx[k]] == init[idx2[k]];
        }
      }
    }
  }

  /**
   * Point assembly is an order-preserving selection with consecutive ids: the
   * k-th point has id `start + k` and is built from the k-th pair that has an
   * embedding, and a pair is used exactly when its embedding is not None.
   */
  lemma AssembleSelects(start: nat, pairs: seq<(Option<Vector>, Payload)>)
    ensures var out, idx := AssemblePairs(start, pairs), Picked(pairs);
      && |out| == |idx|
      && (forall k :: 0 <= k < |idx| ==>
            idx[k] < |pairs| && pairs[idx[k]].0.Some? && out[k] == Point(start + k, pairs[idx[k]].0.value, pairs[idx[k]].1))
      && (forall k, l :: 0 <= k < l < |idx| ==> idx[k] < idx[l])
      && (forall j :: 0 <= j < |pairs| ==> (j in idx <==> pairs[j].0.Some?))
  {
    PickedFacts(pairs);
    AssembleAlongPicked(start, pairs);
  }

  /** The loop `for embedding, metadata in zip(...)`, which bumps `point_id` per point made. */
  method AssemblePoints(start: nat, embeddings: seq<Option<Vector>>, payloads: seq<Payload>)
    returns (points: seq<Point>, next: nat)
    ensures points == AssemblePairs(start, Zip(embeddings, payloads))
    ensures next == start + |points|
  {
    var pairs := Zip(embeddings, payloads);
    points, next := [], start;
    var i := 0;
    while i < |pairs|
      invariant i <= |pairs|
      invariant points == AssemblePairs(start, pairs[..i]) && next == start + |points|
    {
      assert pairs[..i + 1][..i] == pairs[..i];
      var (embedding, metadata) := pairs[i];
      if embedding.Some? {
        points := points + [Point(next, embedding.value, metadata)];
        next := next + 1;
      }
      i := i + 1;
    }
    assert pairs[..i] == pairs;
  }

  function Texts(chunks: seq<Chunk>): (r: seq<Json>)
    ensures |r| == |chunks| && forall k :: 0 <= k < |r| ==> r[k] == chunks[k].text
  {
    seq(|chunks|, k requires 0 <= k < |chunks| => chunks[k].text)
  }

  function Payloads(chunks: seq<Chunk>): (r: seq<Payload>)
    ensures |r| == |chunks| && forall k :: 0 <= k < |r| ==> r[k] == chunks[k].payload
  {
    seq(|chunks|, k requires 0 <= k < |chunks| => chunks[k].payload)
  }

  /** The points one resource contributes, numbered from `start`. */
  function ResourcePoints(row: Row, start: nat, embed: Embedder<Json>): Result<seq<Point>> {
    match ResourceChunks(row)
    case Err(e) => Err(e)
    case Ok(chunks) =>
      if chunks == [] then Ok([])
      else Ok(AssemblePairs(start, Zip(Embeddings(Texts(chunks), EmbedBatch, embed), Payloads(chunks))))
  }

  /** What one resource contributes, given the first free id. */
  type Step = (Row, nat) -> Result<seq<Point>>

  /** The loop over resources: each contributes its points, numbered on from where the last stopped. */
  function NumberOn(data: seq<Row>, start: nat, step: Step): Result<seq<Point>> {
    if data == [] then Ok([])
    else
      match NumberOn(data[..|data| - 1], start, step)
      case Err(e) => Err(e)
      case Ok(init) =>
        match step(data[|data| - 1], start + |init|)
        case Err(e) => Err(e)
        case Ok(more) => Ok(init + more)
  }

  function ResourceStep(embed: Embedder<Json>): Step {
    (row: Row, s: nat) => ResourcePoints(row, s, embed)
  }

  /** The points of all resources, numbered on from `start` across resources. */
  function PointsFor(data: seq<Row>, start: nat, embed: Embedder<Json>): Result<seq<Point>> {
    NumberOn(data, start, ResourceStep(embed))
  }

  /** The body of the loop over resources: one resource's chunks, embedded and numbered from `start`. */
  method ResourcePointsOf(row: Row, start: nat, embed: Embedder<Json>) returns (r: Result<seq<Point>>)
    ensures r == ResourcePoints(row, start, embed)
  {
    var chunks := BuildResourceChunks(row);
    if chunks.Err? {
      return Err(chunks.error);
    }
    if chunks.value == [] {
      return Ok([]);
    }
    var embeddings, pauses := CreateEmbeddings(Texts(chunks.value), EmbedBatch, embed);
    var points, next := AssemblePoints(start, embeddings, Payloads(chunks.value));
    return Ok(points);
  }

  /** The loop over resources that fills `all_points`. */
  method BuildPoints(data: seq<Row>, start: nat, embed: Embedder<Json>) returns (r: Result<seq<Point>>)
    ensures r == PointsFor(data, start, embed)
  {
    ghost var step := ResourceStep(embed);
    var all: seq<Point> := [];
    var pointId := start;
    var i := 0;
    while i < |data|
      invariant i <= |data|
      invariant NumberOn(data[..i], start, step) == Ok(all) && pointId == start + |all|
    {
      var more := ResourcePointsOf(data[i], pointId, embed);
      NumberOnSnoc(data, i, start, step, all, more);
      if more.Err? {
        ErrorStops(data, i + 1, start, step);
        return Err(more.error);
      }
      all := all + more.value;
      pointId := pointId + |more.value|;
      i := i + 1;
    }
    assert data[..i] == data;
    return Ok(all);
  }

  /** One more resource: the loop so far, then that resource's step. */
  lemma NumberOnSnoc(data: seq<Row>, i: nat, start: nat, step: Step, all: seq<Point>, more: Result<seq<Point>>)
    requires i < |data| && NumberOn(data[..i], start, step) == Ok(all)
    requires step(data[i], start + |all|) == more
    ensures NumberOn(data[..i + 1], start, step) == if more.Err? then Err(more.error) else Ok(all + more.value)
  {
    assert data[..i + 1][..i] == data[..i];
  }

  /** An exception while processing a resource is the result of the whole loop. */
  lemma {:induction false} ErrorStops(data: seq<Row>, i: nat, start: nat, step: Step)
    requires i <= |data| && NumberOn(data[..i], start, step).Err?
    ensures NumberOn(data, start, step) == NumberOn(data[..i], start, step)
    decreases |data| - i
  {
    if i < |data| {
      var n := |data| - 1;
      assert data[..n][..i] == data[..i];
      ErrorStops(data[..n], i, start, step);
    } else {
      assert data[..i] == data;
    }
  }

  /** A step that numbers its points consecutively from the id it is given. */
  ghost predicate NumbersFrom(step: Step) {
    forall row, s: nat :: step(row, s).Ok? ==> forall k :: 0 <= k < |step(row, s).value| ==> step(row, s).value[k].id == s + k
  }

  /** A step whose points are all chunks of the row it is given. */
  ghost predicate FromRow(step: Step) {
    forall row, s: nat :: step(row, s).Ok? ==> forall k :: 0 <= k < |step(row, s).value| ==> ChunkOfRow(step(row, s).value[k].payload, row)
  }

  /** With consecutive steps, the ids run consecutively from `start` across all resources. */
  lemma {:induction false} NumberOnIds(data: seq<Row>, start: nat, step: Step)
    requires NumbersFrom(step) && NumberOn(data, start, step).Ok?
    ensures var pts := NumberOn(data, start, step).value;
      forall k :: 0 <= k < |pts| ==> pts[k].id == start + k
  {
    if data != [] {
      var n := |data| - 1;
      var init := NumberOn(data[..n], start, step).value;
      NumberOnIds(data[..n], start, step);
      var more := step(data[n], start + |init|).value;
      var pts := NumberOn(data, start, step).value;
      assert pts == init + more;
      forall k | 0 <= k < |pts| ensures pts[k].id == start + k {
        if k >= |init| {
          assert pts[k] == more[k - |init|];
        }
      }
    }
  }

  /** With steps that stay within their row, every point is a chunk of one of the rows. */
  lemma {:induction false} NumberOnFromRows(data: seq<Row>, start: nat, step: Step)
    requires FromRow(step) && NumberOn(data, start, step).Ok?
    ensures var pts := NumberOn(data, start, step).value;
      forall k :: 0 <= k < |pts| ==> exists j :: 0 <= j < |data| && ChunkOfRow(pts[k].payload, data[j])
  {
    if data != [] {
      var n := |data| - 1;
      var init := NumberOn(data[..n], start, step).value;
      NumberOnFromRows(data[..n], start, step);
      var more := step(data[n], start + |init|).value;
      var pts := NumberOn(data, start, step).value;
      assert pts == init + more;
      forall k | 0 <= k < |pts| ensures exists j :: 0 <= j < |data| && ChunkOfRow(pts[k].payload, data[j]) {
        if k < |init| {
          var j :| 0 <= j < n && ChunkOfRow(init[k].payload, data[..n][j]);
          assert data[..n][j] == data[j];
        } else {
          assert pts[k] == more[k - |init|];
          assert ChunkOfRow(pts[k].payload, data[n]);
        }
      }
    }
  }

  /** A video chunk of `row`: it carries the row's three ids and a chunk id ending in its index. */
  predicate ChunkOfRow(p: Payload, row: Row) {
    && p.VideoChunk?
    && p.courseId == row.courseId && p.moduleId == row.moduleId && p.resourceId == row.resourceId
    && ChunkId(p) == VideoChunkId(row.courseId, row.moduleId, row.resourceId, p.chunkIndex)
  }

  /** The points of one resource are numbered consecutively and are all chunks of that resource. */
  lemma ResourcePointsFacts(row: Row, start: nat, embed: Embedder<Json>)
    requires ResourcePoints(row, start, embed).Ok?
    ensures var more := ResourcePoints(row, start, embed).value;
      forall k :: 0 <= k < |more| ==> more[k].id == start + k && ChunkOfRow(more[k].payload, row)
  {
    var more := ResourcePoints(row, start, embed).value;
    var chunks := ResourceChunks(row).value;
    if chunks != [] {
      var pairs := Zip(Embeddings(Texts(chunks), EmbedBatch, embed), Payloads(chunks));
      AssembleSelects(start, pairs);
      ResourceChunksShape(row);
      forall k | 0 <= k < |more| ensures more[k].id == start + k && ChunkOfRow(more[k].payload, row) {
        var j := Picked(pairs)[k];
        assert more[k].payload == pairs[j].1 == chunks[j].payload;
      }
    }
  }

  lemma ResourceStepFacts(embed: Embedder<Json>)
    ensures NumbersFrom(ResourceStep(embed)) && FromRow(ResourceStep(embed))
  {
    forall row, s: nat | ResourceStep(embed)(row, s).Ok?
      ensures var more := ResourceStep(embed)(row, s).value;
        forall k :: 0 <= k < |more| ==> more[k].id == s + k && ChunkOfRow(more[k].payload, row)
    {
      ResourcePointsFacts(row, s, embed);
    }
  }

  /**
   * The assembled points of a whole upload: ids run consecutively from
   * `start`, and every point is a chunk of one of the rows.
   */
  lemma PointsForFacts(data: seq<Row>, start: nat, embed: Embedder<Json>)
    requires PointsFor(data, start, embed).Ok?
    ensures var pts := PointsFor(data, start, embed).value;
      && (forall k :: 0 <= k < |pts| ==> pts[k].id == start + k)
      && (forall k :: 0 <= k < |pts| ==> exists j :: 0 <= j < |data| && ChunkOfRow(pts[k].payload, data[j]))
  {
    ResourceStepFacts(embed);
    NumberOnIds(data, start, ResourceStep(embed));
    NumberOnFromRows(data, start, ResourceStep(embed));
  }
}
