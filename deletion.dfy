/**
 * The three deletion routines: the scoped, count-gated `delete_vectors`; the
 * course-wide deletes of the course and material updaters; and the
 * confirmation-gated `delete_resource_vectors` with its recount.
 */
module Deletion {
  import opened Values
  import opened Store
  import opened Scope

  /** What `delete_vectors` reports: nothing matched, the number deleted, or a swallowed failure. */
  datatype DeleteOutcome = NothingToDelete | Deleted(count: nat) | Failed

  /**
   * `delete_vectors`: counts the points in scope, returns when there are none,
   * deletes them otherwise; any failure is reported and swallowed.
   */
  method DeleteVectors(col: Collection, courseId: int, moduleId: Option<int>, resourceId: Option<int>)
    returns (outcome: DeleteOutcome)
    requires col.Valid()
    modifies col
    ensures col.Valid()
    ensures col.indexes == old(col.indexes) && col.config == old(col.config)
    ensures var n := |Select(old(col.points), ScopeFilter(courseId, moduleId, resourceId))|;
      outcome == if old(col.Fails(CountOp)) then Failed
                 else if n == 0 then NothingToDelete
                 else if old(col.Fails(DeleteOp)) then Failed
                 else Deleted(n)
    ensures col.points == if outcome.Deleted? then Remove(old(col.points), ScopeFilter(courseId, moduleId, resourceId))
                          else old(col.points)
  {
    var f := BuildScopeFilter(courseId, moduleId, resourceId);
    var count := col.Count(f);
    if count.None? {
      return Failed;
    }
    if count.value == 0 {
      return NothingToDelete;
    }
    var ok := col.Delete(f);
    if !ok {
      return Failed;
    }
    return Deleted(count.value);
  }

  /**
   * Whatever happens, `delete_vectors` either leaves the points alone or removes
   * exactly those in scope, and afterwards nothing in scope remains unless a
   * call failed.
   */
  lemma DeleteVectorsEffect(s: seq<Point>, courseId: int, moduleId: Option<int>, resourceId: Option<int>, outcome: DeleteOutcome, after: seq<Point>)
    requires outcome != Failed
    requires outcome == (var n := |Select(s, ScopeFilter(courseId, moduleId, resourceId))|; if n == 0 then NothingToDelete else Deleted(n))
    requires after == if outcome.Deleted? then Remove(s, ScopeFilter(courseId, moduleId, resourceId)) else s
    ensures after == Remove(s, ScopeFilter(courseId, moduleId, resourceId))
    ensures forall p :: p in after ==> p in s && !InScope(p, courseId, moduleId, resourceId)
  {
    var f := ScopeFilter(courseId, moduleId, resourceId);
    if outcome == NothingToDelete {
      RemoveNoMatch(s, f);
    }
    SelectRemoveSplit(s, f);
  }

  /**
   * `delete_course_vectors` and `delete_course_material_vectors`: delete every
   * point of the course, with no count first; a failure is swallowed.
   */
  method DeleteCourseVectors(col: Collection, courseId: int) returns (deleted: bool)
    requires col.Valid()
    modifies col
    ensures col.Valid()
    ensures col.indexes == old(col.indexes) && col.config == old(col.config)
    ensures deleted == !old(col.Fails(DeleteOp))
    ensures col.points == if deleted then Remove(old(col.points), CourseFilter(courseId)) else old(col.points)
  {
    deleted := col.Delete(CourseFilter(courseId));
  }

  /** A delete by a filter that matches some point changes the collection. */
  lemma RemoveDropsMatches(s: seq<Point>, f: Filter, k: nat)
    requires k < |s| && Matches(s[k], f)
    ensures |Remove(s, f)| < |s|
    ensures Remove(s, f) != s
  {
    SelectRemoveSplit(s, f);
    assert s[k] in Select(s, f);
  }

  /** What `delete_resource_vectors` reports. */
  datatype ResourceDeleteOutcome =
    | NoChunks                              // the count was zero: no prompt, no delete
    | Cancelled(count: nat)                 // the confirmation was not `YES`
    | Removed(count: nat, remaining: nat)   // deleted, and the recount's result
    | Error                                 // a call raised; reported, not propagated

  /** The answer that confirms a deletion, after surrounding whitespace is stripped. */
  predicate Confirms(answer: string) {
    Strip(answer) == "YES"
  }

  /**
   * `delete_resource_vectors`: count, prompt, delete and recount, all with the
   * same three-field filter. `answer` is what the user typed at the prompt.
   */
  method DeleteResourceVectors(col: Collection, courseId: int, moduleId: int, resourceId: int, answer: string)
    returns (outcome: ResourceDeleteOutcome)
    requires col.Valid()
    modifies col
    ensures col.Valid()
    ensures col.indexes == old(col.indexes) && col.config == old(col.config)
    ensures var f := ScopeFilter(courseId, Some(moduleId), Some(resourceId));
      var n := |Select(old(col.points), f)|;
      var removes := !old(col.Fails(CountOp)) && n > 0 && Confirms(answer) && !old(col.Fails(DeleteOp));
      && col.points == (if removes then Remove(old(col.points), f) else old(col.points))
      && outcome == if old(col.Fails(CountOp)) then Error
                    else if n == 0 then NoChunks
                    else if !Confirms(answer) then Cancelled(n)
                    else if old(col.Fails(DeleteOp)) then Error
                    else Removed(n, 0)
  {
    var f := ScopeFilter(courseId, Some(moduleId), Some(resourceId));
    var count := col.Count(f);
    if count.None? {
      return Error;
    }
    if count.value == 0 {
      return NoChunks;
    }
    if Strip(answer) != "YES" {
      return Cancelled(count.value);
    }
    var ok := col.Delete(f);
    if !ok {
      return Error;
    }
    // Counting worked a moment ago, so under a fixed fault set the recount works too.
    var remaining := col.Count(f);
    NothingMatchesAfterRemove(old(col.points), f);
    return Removed(count.value, remaining.value);
  }
}
