/**
 * The scope of an update, a deletion or a lookup: a conjunction of equality
 * tests on `course_id`, `module_id` and `resource_id`, one per supplied id.
 */
module Scope {
  import opened Values
  import opened Store

  /** A point is in the scope (course, module?, resource?) when it carries every supplied id. */
  predicate InScope(p: Point, courseId: int, moduleId: Option<int>, resourceId: Option<int>) {
    && Field(p.payload, CourseId) == Some(courseId)
    && (moduleId.Some? ==> Field(p.payload, ModuleId) == moduleId)
    && (resourceId.Some? ==> Field(p.payload, ResourceId) == resourceId)
  }

  /** Conditions for the ids that are supplied, in the order course, module, resource. */
  function Conditions(courseId: Option<int>, moduleId: Option<int>, resourceId: Option<int>): (f: Filter)
    ensures |f| <= 3
    ensures forall p :: Matches(p, f) <==>
      && (courseId.Some? ==> Field(p.payload, CourseId) == courseId)
      && (moduleId.Some? ==> Field(p.payload, ModuleId) == moduleId)
      && (resourceId.Some? ==> Field(p.payload, ResourceId) == resourceId)
    ensures f == [] <==> courseId.None? && moduleId.None? && resourceId.None?
  {
    var c := if courseId.Some? then [Condition(CourseId, courseId.value)] else [];
    var m := if moduleId.Some? then [Condition(ModuleId, moduleId.value)] else [];
    var r := if resourceId.Some? then [Condition(ResourceId, resourceId.value)] else [];
    forall p ensures Matches(p, c + m + r) <==>
      && (courseId.Some? ==> Field(p.payload, CourseId) == courseId)
      && (moduleId.Some? ==> Field(p.payload, ModuleId) == moduleId)
      && (resourceId.Some? ==> Field(p.payload, ResourceId) == resourceId)
    {
      MatchesConcat(p, c + m, r);
      MatchesConcat(p, c, m);
      assert Matches(p, c) <==> (courseId.Some? ==> Field(p.payload, CourseId) == courseId) by {
        if c != [] { assert Matches(p, c) <==> Holds(p, c[0]); }
      }
      assert Matches(p, m) <==> (moduleId.Some? ==> Field(p.payload, ModuleId) == moduleId) by {
        if m != [] { assert Matches(p, m) <==> Holds(p, m[0]); }
      }
      assert Matches(p, r) <==> (resourceId.Some? ==> Field(p.payload, ResourceId) == resourceId) by {
        if r != [] { assert Matches(p, r) <==> Holds(p, r[0]); }
      }
    }
    c + m + r
  }

  /** The filter of a scoped delete or lookup: `course_id` always, the others when supplied. */
  function ScopeFilter(courseId: int, moduleId: Option<int>, resourceId: Option<int>): (f: Filter)
    ensures forall p :: Matches(p, f) <==> InScope(p, courseId, moduleId, resourceId)
    ensures f != [] && f[0] == Condition(CourseId, courseId)
  {
    Conditions(Some(courseId), moduleId, resourceId)
  }

  /** The filter of a similarity search: None, an unfiltered search, when no id is supplied. */
  function SearchFilter(courseId: Option<int>, moduleId: Option<int>, resourceId: Option<int>): (f: Option<Filter>)
    ensures f.None? <==> courseId.None? && moduleId.None? && resourceId.None?
    ensures f.Some? ==> forall p :: Matches(p, f.value) <==>
      && (courseId.Some? ==> Field(p.payload, CourseId) == courseId)
      && (moduleId.Some? ==> Field(p.payload, ModuleId) == moduleId)
      && (resourceId.Some? ==> Field(p.payload, ResourceId) == resourceId)
  {
    var f := Conditions(courseId, moduleId, resourceId);
    if f == [] then None else Some(f)
  }

  /** The course-only filter of `delete_course_vectors` and `delete_course_material_vectors`. */
  function CourseFilter(courseId: int): (f: Filter)
    ensures forall p :: Matches(p, f) <==> Field(p.payload, CourseId) == Some(courseId)
  {
    var f := [Condition(CourseId, courseId)];
    assert forall p :: Matches(p, f) <==> Holds(p, f[0]);
    f
  }

  /** Builds the filter by conditional appends, as `delete_vectors` and `find_chunks` do. */
  method BuildScopeFilter(courseId: int, moduleId: Option<int>, resourceId: Option<int>) returns (f: Filter)
    ensures f == ScopeFilter(courseId, moduleId, resourceId)
  {
    f := [Condition(CourseId, courseId)];
    if moduleId.Some? {
      f := f + [Condition(ModuleId, moduleId.value)];
    }
    if resourceId.Some? {
      f := f + [Condition(ResourceId, resourceId.value)];
    }
  }

  /** Builds the search filter by conditional appends, as `search_similar_chunks` does. */
  method BuildSearchFilter(courseId: Option<int>, moduleId: Option<int>, resourceId: Option<int>) returns (f: Option<Filter>)
    ensures f == SearchFilter(courseId, moduleId, resourceId)
  {
    var conditions: Filter := [];
    if courseId.Some? {
      conditions := conditions + [Condition(CourseId, courseId.value)];
    }
    if moduleId.Some? {
      conditions := conditions + [Condition(ModuleId, moduleId.value)];
    }
    if resourceId.Some? {
      conditions := conditions + [Condition(ResourceId, resourceId.value)];
    }
    assert conditions == Conditions(courseId, moduleId, resourceId);
    f := if conditions != [] then Some(conditions) else None;
  }

  /** With a course supplied, the search filter is the scope filter. */
  lemma SearchWithCourseIsScope(courseId: int, moduleId: Option<int>, resourceId: Option<int>)
    ensures SearchFilter(Some(courseId), moduleId, resourceId) == Some(ScopeFilter(courseId, moduleId, resourceId))
  {
  }

  /** A resource scope lies inside its module scope, which lies inside its course scope. */
  lemma ScopesNest(s: seq<Point>, courseId: int, moduleId: int, resourceId: int)
    ensures forall p :: p in Select(s, ScopeFilter(courseId, Some(moduleId), Some(resourceId))) ==>
      p in Select(s, ScopeFilter(courseId, Some(moduleId), None))
    ensures forall p :: p in Select(s, ScopeFilter(courseId, Some(moduleId), None)) ==>
      p in Select(s, ScopeFilter(courseId, None, None))
  {
    var course, inModule, resource := ScopeFilter(courseId, None, None), ScopeFilter(courseId, Some(moduleId), None),
      ScopeFilter(courseId, Some(moduleId), Some(resourceId));
    NarrowerFilter(s, inModule, resource);
    NarrowerFilter(s, course, inModule);
  }

  /** The fields that carry an integer payload index. */
  const IndexedFields: set<FieldKey> := {CourseId, ModuleId, ResourceId}

  /**
   * `ensure_indexes_exist`: asks for an integer index on each of the three
   * fields and ignores every failure.
   */
  method EnsureIndexesExist(col: Collection)
    modifies col
    ensures col.points == old(col.points) && col.config == old(col.config)
    ensures col.indexes == if old(col.Fails(IndexOp)) then old(col.indexes) else old(col.indexes) + IndexedFields
  {
    var keys := [CourseId, ModuleId, ResourceId];
    var i := 0;
    while i < |keys|
      invariant i <= |keys|
      invariant col.points == old(col.points) && col.config == old(col.config)
      invariant col.indexes == if col.Fails(IndexOp) then old(col.indexes) else old(col.indexes) + (set k | k in keys[..i])
    {
      var created := col.CreatePayloadIndex(keys[i]);
      assert keys[..i + 1] == keys[..i] + [keys[i]];
      i := i + 1;
    }
    assert (set k | k in keys[..3]) == IndexedFields by {
      assert keys[..3] == keys;
      assert keys[0] == CourseId && keys[1] == ModuleId && keys[2] == ResourceId;
    }
  }
}
