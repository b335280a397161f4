/**
 * `upload_data`: number the new points on from the next free id, assemble
 * them for every resource, and upsert them in slices of 100.
 */
module Upload {
  import opened Values
  import opened Embedding
  import opened Store
  import opened Rows
  import opened PointIds
  import opened Assembly

  /** The slice size of the upserts. */
  const UploadBatch: nat := 100

  /**
   * Upserts `pts` in consecutive slices of `UploadBatch`; the first upsert
   * that raises ends the loop. A call kind either always raises or never
   * does, so either every slice lands or none does.
   */
  method UpsertInSlices(col: Collection, pts: seq<Point>) returns (ok: bool)
    requires col.Valid()
    modifies col
    ensures col.Valid()
    ensures ok == (pts == [] || !old(col.Fails(UpsertOp)))
    ensures col.points == if ok then UpsertAll(old(col.points), pts) else old(col.points)
    ensures col.indexes == old(col.indexes) && col.config == old(col.config)
  {
    ghost var s0 := col.points;
    var i := 0;
    while i < |pts|
      invariant col.Valid()
      invariant col.indexes == old(col.indexes) && col.config == old(col.config)
      invariant i > 0 ==> !old(col.Fails(UpsertOp))
      invariant col.points == UpsertAll(s0, pts[..if i < |pts| then i else |pts|])
    {
      var batch := Slice(pts, i, UploadBatch);
      var done := col.Upsert(batch);
      if !done {
        return false;
      }
      SliceStep(s0, pts, i);
      i := i + UploadBatch;
    }
    assert pts[..|pts|] == pts;
    return true;
  }

  /** Upserting one more slice extends the upserted prefix by that slice. */
  lemma SliceStep(s: seq<Point>, pts: seq<Point>, i: nat)
    requires i < |pts|
    ensures var end := if i + UploadBatch < |pts| then i + UploadBatch else |pts|;
      UpsertAll(UpsertAll(s, pts[..i]), Slice(pts, i, UploadBatch)) == UpsertAll(s, pts[..end])
  {
    var end := if i + UploadBatch < |pts| then i + UploadBatch else |pts|;
    assert pts[..i] + Slice(pts, i, UploadBatch) == pts[..end];
    UpsertAllConcat(s, pts[..i], Slice(pts, i, UploadBatch));
  }

  /**
   * The first id of an upload, as `get_next_point_id` computes it: one more
   * than the largest id on the single first page of the scroll, or 0 when
   * that scroll raised.
   */
  function StartId(s: seq<Point>, scrollFails: bool): nat {
    if scrollFails then 0 else NextFree(Window(s, 0, ScrollLimit))
  }

  /**
   * What `upload_data` does to a store holding `s`, given which calls raise:
   * its outcome and the new contents. Nothing is stored when an exception
   * from chunking or from the store escapes.
   */
  function AfterUpload(s: seq<Point>, scrollFails: bool, upsertFails: bool, data: seq<Row>, step: Step)
    : (Result<()>, seq<Point>)
  {
    if data == [] then (Ok(()), s)
    else
      match NumberOn(data, StartId(s, scrollFails), step)
      case Err(e) => (Err(e), s)
      case Ok(pts) => if pts != [] && upsertFails then (Err(Unavailable), s) else (Ok(()), UpsertAll(s, pts))
  }

  /** `upload_data(data, client, collection_name)`. */
  method UploadData(data: seq<Row>, col: Collection, embed: Embedder<Json>) returns (r: Result<()>)
    requires col.Valid()
    modifies col
    ensures col.Valid()
    ensures (r, col.points) == AfterUpload(old(col.points), old(col.Fails(ScrollOp)), old(col.Fails(UpsertOp)), data, ResourceStep(embed))
    ensures col.indexes == old(col.indexes) && col.config == old(col.config)
  {
    if data == [] {
      return Ok(());
    }
    var start := NextPointIdSinglePage(col);
    var pts := BuildPoints(data, start, embed);
    if pts.Err? {
      return Err(pts.error);
    }
    var ok := UpsertInSlices(col, pts.value);
    if !ok {
      return Err(Unavailable);
    }
    return Ok(());
  }

  /**
   * While the store holds at most 10000 points, the single page sees every id,
   * so an upload only adds: every stored point is kept and the new points
   * follow, all of them chunks of the uploaded rows. `ResourceStepFacts` shows
   * that the steps of the pipeline qualify. `UploadOverwritesWhenLarge` shows
   * that the bound is needed.
   */
  lemma UploadAppends(s: seq<Point>, upsertFails: bool, data: seq<Row>, step: Step)
    requires NumbersFrom(step) && FromRow(step)
    requires |s| <= ScrollLimit
    requires DistinctIds(s) && NumberOn(data, NextFree(s), step).Ok?
    requires AfterUpload(s, false, upsertFails, data, step).0.Ok?
    ensures var pts := NumberOn(data, NextFree(s), step).value;
      && AfterUpload(s, false, upsertFails, data, step).1 == (if data == [] then s else s + pts)
      && forall k :: 0 <= k < |pts| ==> exists j :: 0 <= j < |data| && ChunkOfRow(pts[k].payload, data[j])
  {
    var start := NextFree(s);
    SinglePageFreshWhenSmall(s);
    var pts := NumberOn(data, start, step).value;
    NumberOnIds(data, start, step);
    NumberOnFromRows(data, start, step);
    NextFreeIsFresh(s);
    forall k | 0 <= k < |pts| ensures pts[k].id !in Ids(s) {
      assert pts[k].id >= start;
    }
    assert DistinctIds(pts) by {
      forall i, j | 0 <= i < j < |pts| ensures pts[i].id != pts[j].id {
        assert pts[i].id == start + i && pts[j].id == start + j;
      }
    }
    UpsertFreshIds(s, pts);
  }

  /** Consecutive ids from `start`: the last point with id `start + k` is the `k`-th. */
  lemma {:induction false} LastWithNumbered(pts: seq<Point>, start: nat, k: nat)
    requires forall i :: 0 <= i < |pts| ==> pts[i].id == start + i
    requires k < |pts|
    ensures LastWith(pts, start + k) == Some(pts[k])
  {
    if k < |pts| - 1 {
      var init := pts[..|pts| - 1];
      assert init[k] == pts[k];
      LastWithNumbered(init, start, k);
    }
  }

  /**
   * When the next-id lookup raised, numbering restarts at 0: a successful
   * upload then overwrites whatever point held id 0 with its own first point.
   */
  lemma UploadAfterScrollFailureOverwrites(s: seq<Point>, upsertFails: bool, data: seq<Row>, step: Step)
    requires NumbersFrom(step)
    requires DistinctIds(s) && data != []
    requires NumberOn(data, 0, step).Ok? && NumberOn(data, 0, step).value != []
    requires AfterUpload(s, true, upsertFails, data, step).0.Ok?
    ensures FindId(AfterUpload(s, true, upsertFails, data, step).1, 0) == Some(NumberOn(data, 0, step).value[0])
  {
    var pts := NumberOn(data, 0, step).value;
    NumberOnIds(data, 0, step);
    UpsertNumberedFrom(s, pts, 0);
  }

  /** After upserting points numbered from `start`, id `start` finds the first of them. */
  lemma UpsertNumberedFrom(s: seq<Point>, pts: seq<Point>, start: nat)
    requires DistinctIds(s) && pts != [] && forall i :: 0 <= i < |pts| ==> pts[i].id == start + i
    ensures FindId(UpsertAll(s, pts), start) == Some(pts[0])
  {
    LastWithNumbered(pts, start, 0);
    assert LastWith(pts, start) == Some(pts[0]);
    UpsertAllLookup(s, pts, start);
  }

  /**
   * Past 10000 points the upload overwrites: with ids 0..10000 stored in id
   * order, `get_next_point_id` proposes 10000, so a successful upload puts its
   * first new point in place of the stored point 10000, which is lost.
   */
  lemma UploadOverwritesWhenLarge(payload: Payload, upsertFails: bool, data: seq<Row>, step: Step)
    requires NumbersFrom(step) && data != []
    requires NumberOn(data, ScrollLimit, step).Ok? && NumberOn(data, ScrollLimit, step).value != []
    requires var s := Consecutive(ScrollLimit + 1, payload);
      AfterUpload(s, false, upsertFails, data, step).0.Ok?
    ensures var s := Consecutive(ScrollLimit + 1, payload);
      && FindId(s, ScrollLimit) == Some(s[ScrollLimit])
      && FindId(AfterUpload(s, false, upsertFails, data, step).1, ScrollLimit) == Some(NumberOn(data, ScrollLimit, step).value[0])
  {
    var s := Consecutive(ScrollLimit + 1, payload);
    SinglePageReusesIdWhenLarge(payload);
    FindAt(s, ScrollLimit);
    var pts := NumberOn(data, ScrollLimit, step).value;
    NumberOnIds(data, ScrollLimit, step);
    UpsertNumberedFrom(s, pts, ScrollLimit);
  }
}
