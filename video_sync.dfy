/**
 * The three ways the video collection is brought in line with the course
 * database: `update_resource` (a course, module or resource scope; fetches
 * before it deletes), the course updater's `main` (deletes the course, then
 * fetches) and the full reload `process_and_upload_data` (recreates the
 * collection and numbers from 0).
 *
 * The database is the parameter `db`: the joined resource table, or None
 * when connecting or querying raises.
 */
module VideoSync {
  import opened Values
  import opened Embedding
  import opened Store
  import opened Rows
  import opened Scope
  import opened Deletion
  import opened PointIds
  import opened Assembly
  import opened Upload

  /** A row of the joined table answers the query of a scope when it carries every supplied id. */
  predicate RowInScope(row: Row, courseId: int, moduleId: Option<int>, resourceId: Option<int>) {
    && row.courseId == courseId
    && (moduleId.Some? ==> row.moduleId == moduleId.value)
    && (resourceId.Some? ==> row.resourceId == resourceId.value)
  }

  /**
   * What `fetch_data` (and, with no module or resource, `fetch_course_data`)
   * returns: the rows in scope, in table order, as `FetchScopeExact` states.
   */
  function FetchScope(table: seq<Row>, courseId: int, moduleId: Option<int>, resourceId: Option<int>): (rows: seq<Row>)
    ensures |rows| <= |table|
  {
    if table == [] then []
    else
      var last := table[|table| - 1];
      FetchScope(table[..|table| - 1], courseId, moduleId, resourceId)
        + (if RowInScope(last, courseId, moduleId, resourceId) then [last] else [])
  }

  /** The query returns exactly the rows of the table that lie in the scope. */
  lemma {:induction false} FetchScopeExact(table: seq<Row>, courseId: int, moduleId: Option<int>, resourceId: Option<int>)
    ensures forall row :: row in FetchScope(table, courseId, moduleId, resourceId) <==>
      row in table && RowInScope(row, courseId, moduleId, resourceId)
  {
    if table != [] {
      var init := table[..|table| - 1];
      FetchScopeExact(init, courseId, moduleId, resourceId);
      assert table == init + [table[|table| - 1]];
    }
  }

  /** Normalising keeps a row's ids, so the transform of rows in scope stays in scope. */
  lemma {:induction false} TransformInScope(rows: seq<Row>, parse: Parser, courseId: int, moduleId: Option<int>, resourceId: Option<int>)
    requires forall k :: 0 <= k < |rows| ==> RowInScope(rows[k], courseId, moduleId, resourceId)
    ensures forall k :: 0 <= k < |Transform(rows, parse)| ==> RowInScope(Transform(rows, parse)[k], courseId, moduleId, resourceId)
  {
    if rows != [] {
      var init := rows[..|rows| - 1];
      assert forall k :: 0 <= k < |init| ==> init[k] == rows[k];
      TransformInScope(init, parse, courseId, moduleId, resourceId);
    }
  }

  lemma FetchedRowsInScope(table: seq<Row>, courseId: int, moduleId: Option<int>, resourceId: Option<int>)
    ensures forall k :: 0 <= k < |FetchScope(table, courseId, moduleId, resourceId)| ==>
      RowInScope(FetchScope(table, courseId, moduleId, resourceId)[k], courseId, moduleId, resourceId)
  {
    FetchScopeExact(table, courseId, moduleId, resourceId);
    var rows := FetchScope(table, courseId, moduleId, resourceId);
    assert forall k :: 0 <= k < |rows| ==> rows[k] in rows;
  }

  /**
   * Points assembled from rows that all lie in a scope lie in that scope:
   * they match the scope's filter.
   */
  lemma ChunksInScope(data: seq<Row>, pts: seq<Point>, courseId: int, moduleId: Option<int>, resourceId: Option<int>)
    requires forall k :: 0 <= k < |data| ==> RowInScope(data[k], courseId, moduleId, resourceId)
    requires forall k :: 0 <= k < |pts| ==> exists j :: 0 <= j < |data| && ChunkOfRow(pts[k].payload, data[j])
    ensures forall k :: 0 <= k < |pts| ==> Matches(pts[k], ScopeFilter(courseId, moduleId, resourceId))
  {
    forall k | 0 <= k < |pts| ensures Matches(pts[k], ScopeFilter(courseId, moduleId, resourceId)) {
      var j :| 0 <= j < |data| && ChunkOfRow(pts[k].payload, data[j]);
      assert InScope(pts[k], courseId, moduleId, resourceId);
    }
  }

  /**
   * `upload_data` followed by `get_collection().points_count`, from a store
   * holding `s`: the count, or the exception that escapes, and the new
   * contents.
   */
  function UploadAndCount(s: seq<Point>, fails: set<Op>, data: seq<Row>, step: Step): (Result<nat>, seq<Point>) {
    var u := AfterUpload(s, ScrollOp in fails, UpsertOp in fails, data, step);
    if u.0.Err? then (Err(u.0.error), u.1)
    else if CollectionOp in fails then (Err(Unavailable), u.1)
    else (Ok(|u.1|), u.1)
  }

  /**
   * Uploading rows of a scope into a working store from which that scope was
   * deleted replaces the scope, as long as at most 10000 points remain after
   * the delete so that `get_next_point_id`'s single page sees them all:
   * outside the scope nothing changes, and inside it there are exactly the
   * freshly assembled points, numbered on from the largest id left.
   */
  lemma ReplaceScope(s: seq<Point>, courseId: int, moduleId: Option<int>, resourceId: Option<int>, data: seq<Row>, step: Step)
    requires NumbersFrom(step) && FromRow(step) && DistinctIds(s)
    requires |Remove(s, ScopeFilter(courseId, moduleId, resourceId))| <= ScrollLimit
    requires forall k :: 0 <= k < |data| ==> RowInScope(data[k], courseId, moduleId, resourceId)
    requires data != [] && UploadAndCount(Remove(s, ScopeFilter(courseId, moduleId, resourceId)), {}, data, step).0.Ok?
    ensures var f := ScopeFilter(courseId, moduleId, resourceId);
      var after := UploadAndCount(Remove(s, f), {}, data, step).1;
      && Remove(after, f) == Remove(s, f)
      && NumberOn(data, NextFree(Remove(s, f)), step).Ok?
      && Select(after, f) == NumberOn(data, NextFree(Remove(s, f)), step).value
  {
    var f := ScopeFilter(courseId, moduleId, resourceId);
    var cleared := Remove(s, f);
    RemoveDistinct(s, f);
    SinglePageFreshWhenSmall(cleared);
    assert StartId(cleared, false) == NextFree(cleared);
    var pts := NumberOn(data, NextFree(cleared), step).value;
    UploadAppends(cleared, false, data, step);
    assert UploadAndCount(cleared, {}, data, step).1 == cleared + pts;
    ChunksInScope(data, pts, courseId, moduleId, resourceId);
    ReplaceMatching(s, f, pts);
  }

  /** The rows an update or a course update goes on to upload all lie in its scope. */
  lemma UploadedRowsInScope(table: seq<Row>, parse: Parser, courseId: int, moduleId: Option<int>, resourceId: Option<int>)
    ensures forall k :: 0 <= k < |Transform(FetchScope(table, courseId, moduleId, resourceId), parse)| ==>
      RowInScope(Transform(FetchScope(table, courseId, moduleId, resourceId), parse)[k], courseId, moduleId, resourceId)
  {
    FetchedRowsInScope(table, courseId, moduleId, resourceId);
    TransformInScope(FetchScope(table, courseId, moduleId, resourceId), parse, courseId, moduleId, resourceId);
  }

  /** The dictionary `update_resource` returns. */
  datatype UpdateOutcome =
    | NoRows                            // "No data found in PostgreSQL"
    | NoValidRows                       // "No valid data after transformation"
    | Updated(resourcesProcessed: nat, totalVectors: nat)
    | UpdateFailed(error: Exception)    // an exception caught by the outer handler

  /** What a scoped `delete_vectors` leaves: the scope removed, unless the count or the delete raised. */
  function ScopeCleared(s: seq<Point>, fails: set<Op>, courseId: int, moduleId: Option<int>, resourceId: Option<int>): seq<Point> {
    if CountOp in fails || DeleteOp in fails then s else Remove(s, ScopeFilter(courseId, moduleId, resourceId))
  }

  /**
   * What `update_resource` returns and leaves in a store holding `s` whose
   * raising call kinds are `fails`. The store is touched only once the
   * fetched rows survive the transform.
   */
  function Update(s: seq<Point>, fails: set<Op>, courseId: Option<int>, moduleId: Option<int>, resourceId: Option<int>,
                  db: Option<seq<Row>>, parse: Parser, step: Step): (Result<UpdateOutcome>, seq<Point>)
  {
    if courseId.None? then (Err(ValueError), s)
    else if db.None? then (Ok(UpdateFailed(Unavailable)), s)
    else
      var c := courseId.value;
      var rows := FetchScope(db.value, c, moduleId, resourceId);
      var data := Transform(rows, parse);
      if rows == [] then (Ok(NoRows), s)
      else if data == [] then (Ok(NoValidRows), s)
      else
        var u := UploadAndCount(ScopeCleared(s, fails, c, moduleId, resourceId), fails, data, step);
        (if u.0.Ok? then Ok(Updated(|data|, u.0.value)) else Ok(UpdateFailed(u.0.error)), u.1)
  }

  /**
   * The store side of `update_resource`: the indexes, the scoped delete, the
   * upload and the final size of the collection.
   */
  method ClearAndUpload(c: int, moduleId: Option<int>, resourceId: Option<int>, data: seq<Row>,
                        col: Collection, embed: Embedder<Json>)
    returns (r: Result<nat>)
    requires col.Valid()
    modifies col
    ensures col.Valid()
    ensures (r, col.points) == UploadAndCount(ScopeCleared(old(col.points), old(col.FailingOps()), c, moduleId, resourceId),
                                              old(col.FailingOps()), data, ResourceStep(embed))
    ensures col.config == old(col.config)
    ensures col.indexes == if old(col.Fails(IndexOp)) then old(col.indexes) else old(col.indexes) + IndexedFields
  {
    ghost var fails := col.FailingOps();
    EnsureIndexesExist(col);
    var deleted := DeleteVectors(col, c, moduleId, resourceId);
    if deleted.NothingToDelete? {
      RemoveNoMatch(old(col.points), ScopeFilter(c, moduleId, resourceId));
    }
    assert col.points == ScopeCleared(old(col.points), fails, c, moduleId, resourceId);
    var up := UploadData(data, col, embed);
    if up.Err? {
      return Err(up.error);
    }
    var total := col.PointsCount();
    if total.None? {
      return Err(Unavailable);
    }
    return Ok(total.value);
  }

  /** `update_resource(course_id, module_id, resource_id)`; a missing course id raises `ValueError`. */
  method UpdateResource(courseId: Option<int>, moduleId: Option<int>, resourceId: Option<int>,
                        db: Option<seq<Row>>, parse: Parser, col: Collection, embed: Embedder<Json>)
    returns (r: Result<UpdateOutcome>)
    requires col.Valid()
    modifies col
    ensures col.Valid()
    ensures (r, col.points) == Update(old(col.points), old(col.FailingOps()), courseId, moduleId, resourceId, db, parse, ResourceStep(embed))
    ensures col.config == old(col.config)
    ensures col.indexes ==
      if courseId.Some? && db.Some? && Transform(FetchScope(db.value, courseId.value, moduleId, resourceId), parse) != []
         && !old(col.Fails(IndexOp))
      then old(col.indexes) + IndexedFields
      else old(col.indexes)
  {
    if courseId.None? {
      return Err(ValueError);
    }
    var c := courseId.value;
    if db.None? {
      return Ok(UpdateFailed(Unavailable));
    }
    var rows := FetchScope(db.value, c, moduleId, resourceId);
    if rows == [] {
      return Ok(NoRows);
    }
    var data := TransformRows(rows, parse);
    if data == [] {
      return Ok(NoValidRows);
    }
    var up := ClearAndUpload(c, moduleId, resourceId, data, col, embed);
    if up.Err? {
      return Ok(UpdateFailed(up.error));
    }
    return Ok(Updated(|data|, up.value));
  }

  /**
   * A successful update on a working store with at most 10000 points outside
   * the scope replaces the scope: outside it nothing changes, and inside it
   * there are exactly the freshly assembled points, numbered on from the
   * largest id left after the delete.
   */
  lemma UpdateReplacesScope(s: seq<Point>, courseId: int, moduleId: Option<int>, resourceId: Option<int>,
                            table: seq<Row>, parse: Parser, step: Step)
    requires NumbersFrom(step) && FromRow(step) && DistinctIds(s)
    requires |Remove(s, ScopeFilter(courseId, moduleId, resourceId))| <= ScrollLimit
    requires Update(s, {}, Some(courseId), moduleId, resourceId, Some(table), parse, step).0.Ok?
    requires Update(s, {}, Some(courseId), moduleId, resourceId, Some(table), parse, step).0.value.Updated?
    ensures var after := Update(s, {}, Some(courseId), moduleId, resourceId, Some(table), parse, step).1;
      var f := ScopeFilter(courseId, moduleId, resourceId);
      var data := Transform(FetchScope(table, courseId, moduleId, resourceId), parse);
      && Remove(after, f) == Remove(s, f)
      && NumberOn(data, NextFree(Remove(s, f)), step).Ok?
      && Select(after, f) == NumberOn(data, NextFree(Remove(s, f)), step).value
  {
    var data := Transform(FetchScope(table, courseId, moduleId, resourceId), parse);
    var cleared := Remove(s, ScopeFilter(courseId, moduleId, resourceId));
    assert ScopeCleared(s, {}, courseId, moduleId, resourceId) == cleared;
    UploadedRowsInScope(table, parse, courseId, moduleId, resourceId);
    ReplaceScope(s, courseId, moduleId, resourceId, data, step);
  }

  /**
   * When the delete works but the upload raises, the update still reports
   * through its handler, and the scope's old points are gone with no
   * replacement.
   */
  lemma FailedUploadLosesScope(s: seq<Point>, courseId: int, moduleId: Option<int>, resourceId: Option<int>,
                               table: seq<Row>, parse: Parser, step: Step)
    requires Update(s, {UpsertOp}, Some(courseId), moduleId, resourceId, Some(table), parse, step).0.Ok?
    requires Update(s, {UpsertOp}, Some(courseId), moduleId, resourceId, Some(table), parse, step).0.value.UpdateFailed?
    ensures var after := Update(s, {UpsertOp}, Some(courseId), moduleId, resourceId, Some(table), parse, step).1;
      var f := ScopeFilter(courseId, moduleId, resourceId);
      after == Remove(s, f) && Select(after, f) == []
  {
    var f := ScopeFilter(courseId, moduleId, resourceId);
    var data := Transform(FetchScope(table, courseId, moduleId, resourceId), parse);
    assert ScopeCleared(s, {UpsertOp}, courseId, moduleId, resourceId) == Remove(s, f);
    assert UploadAndCount(Remove(s, f), {UpsertOp}, data, step).1 == Remove(s, f);
    NothingMatchesAfterRemove(s, f);
  }

  /** What the course updater's `main` finishes with, when it does not raise. */
  datatype CourseOutcome = NoCourseRows | NoValidCourseRows | CourseUploaded(totalVectors: nat)

  /**
   * What the course updater's `main` raises or returns, and what it leaves
   * in the store: it deletes the course's points before it looks at the
   * database, and every exception after that propagates.
   */
  function CourseUpdate(s: seq<Point>, fails: set<Op>, courseId: int, db: Option<seq<Row>>, parse: Parser,
                        step: Step): (Result<CourseOutcome>, seq<Point>)
  {
    var cleared := if DeleteOp in fails then s else Remove(s, CourseFilter(courseId));
    if db.None? then (Err(Unavailable), cleared)
    else
      var rows := FetchScope(db.value, courseId, None, None);
      var data := Transform(rows, parse);
      if rows == [] then (Ok(NoCourseRows), cleared)
      else if data == [] then (Ok(NoValidCourseRows), cleared)
      else
        var u := UploadAndCount(cleared, fails, data, step);
        (if u.0.Ok? then Ok(CourseUploaded(u.0.value)) else Err(u.0.error), u.1)
  }

  /**
   * The course updater's `main` for course `courseId`. `upload_course_data`
   * differs from `upload_data` only in lacking the empty-data guard, which
   * `main` makes unreachable, so `UploadData` stands for it.
   */
  method UpdateCourse(courseId: int, db: Option<seq<Row>>, parse: Parser, col: Collection, embed: Embedder<Json>)
    returns (r: Result<CourseOutcome>)
    requires col.Valid()
    modifies col
    ensures col.Valid()
    ensures (r, col.points) == CourseUpdate(old(col.points), old(col.FailingOps()), courseId, db, parse, ResourceStep(embed))
    ensures col.config == old(col.config) && col.indexes == old(col.indexes)
  {
    var deleted := DeleteCourseVectors(col, courseId);
    if db.None? {
      return Err(Unavailable);
    }
    var rows := FetchScope(db.value, courseId, None, None);
    if rows == [] {
      return Ok(NoCourseRows);
    }
    var data := TransformRows(rows, parse);
    if data == [] {
      return Ok(NoValidCourseRows);
    }
    var up := UploadData(data, col, embed);
    if up.Err? {
      return Err(up.error);
    }
    var total := col.PointsCount();
    if total.None? {
      return Err(Unavailable);
    }
    return Ok(CourseUploaded(total.value));
  }

  lemma CourseFilterIsScope(courseId: int)
    ensures CourseFilter(courseId) == ScopeFilter(courseId, None, None)
  {
    assert ScopeFilter(courseId, None, None) == [Condition(CourseId, courseId)] + [] + [];
  }

  /**
   * Unlike `update_resource`, the course updater deletes first: when the
   * database has no rows for the course, its points are gone all the same.
   */
  lemma CourseDeletedWithoutRows(s: seq<Point>, fails: set<Op>, courseId: int, table: seq<Row>, parse: Parser,
                                 step: Step, k: nat)
    requires DeleteOp !in fails && FetchScope(table, courseId, None, None) == []
    requires k < |s| && Field(s[k].payload, CourseId) == Some(courseId)
    ensures CourseUpdate(s, fails, courseId, Some(table), parse, step).0 == Ok(NoCourseRows)
    ensures |CourseUpdate(s, fails, courseId, Some(table), parse, step).1| < |s|
  {
    RemoveDropsMatches(s, CourseFilter(courseId), k);
  }

  /**
   * The two orders side by side: for a course the database has no rows for,
   * `update_resource` leaves the store as it was, while the course updater
   * has already removed the course's points.
   */
  lemma EmptyFetchOrdering(s: seq<Point>, fails: set<Op>, courseId: int, table: seq<Row>, parse: Parser,
                           step: Step, k: nat)
    requires DeleteOp !in fails && FetchScope(table, courseId, None, None) == []
    requires k < |s| && Field(s[k].payload, CourseId) == Some(courseId)
    ensures Update(s, fails, Some(courseId), None, None, Some(table), parse, step) == (Ok(NoRows), s)
    ensures CourseUpdate(s, fails, courseId, Some(table), parse, step).1 != s
  {
    CourseDeletedWithoutRows(s, fails, courseId, table, parse, step, k);
  }

  /**
   * A successful course update, with at most 10000 points of other courses
   * stored, replaces the course: other courses keep their points.
   */
  lemma CourseUpdateReplacesCourse(s: seq<Point>, courseId: int, table: seq<Row>, parse: Parser, step: Step)
    requires NumbersFrom(step) && FromRow(step) && DistinctIds(s)
    requires |Remove(s, CourseFilter(courseId))| <= ScrollLimit
    requires CourseUpdate(s, {}, courseId, Some(table), parse, step).0.Ok?
    requires CourseUpdate(s, {}, courseId, Some(table), parse, step).0.value.CourseUploaded?
    ensures var after := CourseUpdate(s, {}, courseId, Some(table), parse, step).1;
      var f := CourseFilter(courseId);
      var data := Transform(FetchScope(table, courseId, None, None), parse);
      && Remove(after, f) == Remove(s, f)
      && NumberOn(data, NextFree(Remove(s, f)), step).Ok?
      && Select(after, f) == NumberOn(data, NextFree(Remove(s, f)), step).value
  {
    CourseFilterIsScope(courseId);
    var data := Transform(FetchScope(table, courseId, None, None), parse);
    UploadedRowsInScope(table, parse, courseId, None, None);
    ReplaceScope(s, courseId, None, None, data, step);
  }

  /** `VectorParams(size=768, distance=Distance.COSINE)` */
  const VideoConfig: Config := Config(768, Cosine)

  /**
   * `setup_qdrant_collection`: drops the collection, ignoring any failure,
   * creates it afresh and creates the three indexes; a failure to create
   * propagates.
   */
  method SetupCollection(col: Collection) returns (r: Result<()>)
    requires col.Valid()
    modifies col
    ensures col.Valid()
    ensures r.Ok? <==> CollectionOp !in col.faulty && IndexOp !in col.faulty
    ensures CollectionOp in col.faulty ==>
      col.points == old(col.points) && col.config == old(col.config) && col.indexes == old(col.indexes)
    ensures CollectionOp !in col.faulty ==>
      col.points == [] && col.config == Some(VideoConfig) && col.indexes == (if r.Ok? then IndexedFields else {})
  {
    var dropped := col.DeleteCollection();
    var created := col.CreateCollection(VideoConfig);
    if !created {
      return Err(Unavailable);
    }
    var ok := col.CreatePayloadIndex(CourseId);
    if !ok {
      return Err(Unavailable);
    }
    ok := col.CreatePayloadIndex(ModuleId);
    if !ok {
      return Err(Unavailable);
    }
    ok := col.CreatePayloadIndex(ResourceId);
    if !ok {
      return Err(Unavailable);
    }
    assert col.indexes == {CourseId} + {ModuleId} + {ResourceId};
    return Ok(());
  }

  /**
   * A full reload numbers from 0 into an empty collection: the stored points
   * are exactly the assembled ones, their ids are their positions, and the
   * next free id afterwards is their number.
   */
  lemma FreshLoad(data: seq<Row>, step: Step)
    requires NumbersFrom(step) && NumberOn(data, 0, step).Ok?
    ensures var pts := NumberOn(data, 0, step).value;
      && UpsertAll([], pts) == pts
      && (forall k :: 0 <= k < |pts| ==> pts[k].id == k)
      && NextFree(pts) == |pts|
  {
    var pts := NumberOn(data, 0, step).value;
    NumberOnIds(data, 0, step);
    assert DistinctIds(pts) by {
      forall i, j | 0 <= i < j < |pts| ensures pts[i].id != pts[j].id {
        assert pts[i].id == i && pts[j].id == j;
      }
    }
    UpsertFreshIds([], pts);
    assert [] + pts == pts;
    if pts != [] {
      MaxIdOfConsecutive(pts);
    }
  }

  /**
   * `process_and_upload_data`: the rows loaded from the export, a freshly
   * set-up collection, points numbered from 0, upserts in slices of 100
   * without an empty-batch guard, and the final point count. Every failure
   * propagates.
   */
  method ProcessAndUploadData(data: seq<Row>, col: Collection, embed: Embedder<Json>) returns (r: Result<nat>)
    requires col.Valid()
    modifies col
    ensures col.Valid()
    ensures var built := NumberOn(data, 0, ResourceStep(embed));
      r.Ok? <==> && CollectionOp !in col.faulty && IndexOp !in col.faulty
                 && built.Ok? && (built.value == [] || UpsertOp !in col.faulty)
    ensures r.Ok? ==> col.points == NumberOn(data, 0, ResourceStep(embed)).value && r.value == |col.points|
    ensures r.Ok? ==> col.config == Some(VideoConfig) && col.indexes == IndexedFields
    ensures CollectionOp in col.faulty ==>
      col.points == old(col.points) && col.config == old(col.config) && col.indexes == old(col.indexes)
    ensures CollectionOp !in col.faulty && r.Err? ==>
      && col.points == [] && col.config == Some(VideoConfig)
      && col.indexes == if IndexOp in col.faulty then {} else IndexedFields
  {
    var setup := SetupCollection(col);
    if setup.Err? {
      return Err(setup.error);
    }
    var built := BuildPoints(data, 0, embed);
    if built.Err? {
      return Err(built.error);
    }
    ResourceStepFacts(embed);
    FreshLoad(data, ResourceStep(embed));
    var ok := UpsertInSlices(col, built.value);
    if !ok {
      return Err(Unavailable);
    }
    var total := col.PointsCount();
    if total.None? {
      return Err(Unavailable);
    }
    return Ok(total.value);
  }
}
