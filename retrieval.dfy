/**
 * The retrieval tool: `search_similar_chunks` embeds a query and asks the
 * store for the `top_k` nearest points inside an optional scope, and `main`
 * answers queries read line by line until an exit word.
 *
 * The store's ranking is its storage order (see the Store module), so a
 * search answers the first `top_k` points of the scope.
 */
module Retrieval {
  import opened Values
  import opened Embedding
  import opened Store
  import opened Scope

  /** `top_k=5` */
  const TopK: nat := 5

  /** The candidates of a search: the scope's points, or every point without a filter. */
  function Candidates(s: seq<Point>, f: Option<Filter>): seq<Point> {
    if f.Some? then Select(s, f.value) else s
  }

  /**
   * What `search_similar_chunks` returns for a store holding `s`, with
   * `fails` the calls that raise: the query is embedded as a retrieval
   * query, and an exception from the embedding or the query escapes.
   */
  function Searched(s: seq<Point>, fails: set<Op>, query: string, courseId: Option<int>, moduleId: Option<int>,
                    resourceId: Option<int>, topK: nat, embed: Embedder<string>): Result<seq<Point>>
  {
    if embed(RetrievalQuery, [query]).None? then Err(Unavailable)
    else if QueryOp in fails then Err(Unavailable)
    else Ok(Window(Candidates(s, SearchFilter(courseId, moduleId, resourceId)), 0, topK))
  }

  /** `search_similar_chunks(query, course_id, module_id, resource_id, top_k)` */
  method SearchSimilarChunks(col: Collection, query: string, courseId: Option<int>, moduleId: Option<int>,
                             resourceId: Option<int>, topK: nat, embed: Embedder<string>)
    returns (r: Result<seq<Point>>)
    ensures r == Searched(col.points, col.FailingOps(), query, courseId, moduleId, resourceId, topK, embed)
  {
    var queryEmbedding := embed(RetrievalQuery, [query]);
    if queryEmbedding.None? {
      return Err(Unavailable);
    }
    var f := BuildSearchFilter(courseId, moduleId, resourceId);
    var results := col.Query(f, topK);
    if results.None? {
      return Err(Unavailable);
    }
    return Ok(results.value);
  }

  /**
   * A search answers at most `top_k` points, each of them stored and
   * carrying every supplied id; they are the first of the matching points,
   * and fewer than `top_k` only when no other point matches.
   */
  lemma SearchInScope(s: seq<Point>, fails: set<Op>, query: string, courseId: Option<int>, moduleId: Option<int>,
                      resourceId: Option<int>, topK: nat, embed: Embedder<string>)
    requires Searched(s, fails, query, courseId, moduleId, resourceId, topK, embed).Ok?
    ensures var found := Searched(s, fails, query, courseId, moduleId, resourceId, topK, embed).value;
      && |found| <= topK
      && (forall p :: p in found ==>
            (&& p in s
             && (courseId.Some? ==> Field(p.payload, CourseId) == courseId)
             && (moduleId.Some? ==> Field(p.payload, ModuleId) == moduleId)
             && (resourceId.Some? ==> Field(p.payload, ResourceId) == resourceId)))
      && found == Candidates(s, SearchFilter(courseId, moduleId, resourceId))[..|found|]
      && (|found| < topK ==> found == Candidates(s, SearchFilter(courseId, moduleId, resourceId)))
  {
    var f := SearchFilter(courseId, moduleId, resourceId);
    var c := Candidates(s, f);
    var found := Window(c, 0, topK);
    if f.Some? {
      SelectRemoveSplit(s, f.value);
    }
    assert forall p :: p in found ==> p in c;
  }

  /** What one answered query shows. */
  datatype Turn = NoResults | Shown(results: seq<Point>) | SearchFailed(error: Exception)

  /** How `main` reports the outcome of one search. */
  function TurnOf(r: Result<seq<Point>>): Turn {
    match r
    case Err(e) => SearchFailed(e)
    case Ok(results) => if results == [] then NoResults else Shown(results)
  }

  /** `user_query.lower() in ['exit', 'quit', 'bye']` */
  predicate IsExit(query: string) {
    LowerAscii(query) in ["exit", "quit", "bye"]
  }

  /** How `main` treats an input line. */
  datatype Line = Blank | ExitWord | Query(text: string)

  /** The line stripped: blank, an exit word, or a query. */
  function Classify(line: string): Line {
    var query := Strip(line);
    if query == [] then Blank else if IsExit(query) then ExitWord else Query(query)
  }

  /**
   * The turns of `main` for the input lines `lines`, each line read by
   * `classify` and each query searched by `answer`: a blank line is skipped,
   * an exit word ends the session, and every query gets one turn.
   */
  function Session(lines: seq<string>, classify: string -> Line, answer: string -> Result<seq<Point>>): seq<Turn> {
    if lines == [] then []
    else
      match classify(lines[0])
      case Blank => Session(lines[1..], classify, answer)
      case ExitWord => []
      case Query(q) => [TurnOf(answer(q))] + Session(lines[1..], classify, answer)
  }

  /** The search `main` runs, for the configured scope. */
  function ScopedSearch(s: seq<Point>, fails: set<Op>, courseId: Option<int>, moduleId: Option<int>,
                        resourceId: Option<int>, embed: Embedder<string>): string -> Result<seq<Point>>
  {
    (query: string) => Searched(s, fails, query, courseId, moduleId, resourceId, TopK, embed)
  }

  /** `main()`: the `while True` input loop over `lines`. */
  method QueryLoop(col: Collection, lines: seq<string>, courseId: Option<int>, moduleId: Option<int>,
                   resourceId: Option<int>, embed: Embedder<string>)
    returns (turns: seq<Turn>)
    ensures turns == Session(lines, Classify, ScopedSearch(col.points, col.FailingOps(), courseId, moduleId, resourceId, embed))
  {
    ghost var classify := Classify;
    ghost var answer := ScopedSearch(col.points, col.FailingOps(), courseId, moduleId, resourceId, embed);
    turns := [];
    var i := 0;
    while i < |lines|
      invariant i <= |lines|
      invariant turns + Session(lines[i..], classify, answer) == Session(lines, classify, answer)
    {
      var line := Classify(lines[i]);
      if line.Blank? {
        SessionStep(lines, i, classify, answer, turns);
        i := i + 1;
        continue;
      }
      if line.ExitWord? {
        SessionStep(lines, i, classify, answer, turns);
        return;
      }
      var query := line.text;
      var results := SearchSimilarChunks(col, query, courseId, moduleId, resourceId, TopK, embed);
      assert results == answer(query);
      SessionStep(lines, i, classify, answer, turns);
      turns := turns + [TurnOf(results)];
      i := i + 1;
    }
  }

  /** One line of the loop keeps its invariant: skipped, ending the session, or adding one turn. */
  lemma SessionStep(lines: seq<string>, i: nat, classify: string -> Line, answer: string -> Result<seq<Point>>,
                    turns: seq<Turn>)
    requires i < |lines|
    requires turns + Session(lines[i..], classify, answer) == Session(lines, classify, answer)
    ensures classify(lines[i]).Blank? ==> turns + Session(lines[i + 1..], classify, answer) == Session(lines, classify, answer)
    ensures classify(lines[i]).ExitWord? ==> turns == Session(lines, classify, answer)
    ensures classify(lines[i]).Query? ==>
      (turns + [TurnOf(answer(classify(lines[i]).text))] + Session(lines[i + 1..], classify, answer) == Session(lines, classify, answer))
  {
    SessionAt(lines, i, classify, answer);
    if classify(lines[i]).Query? {
      ConcatAssoc(turns, [TurnOf(answer(classify(lines[i]).text))], Session(lines[i + 1..], classify, answer));
    }
  }

  /** The session from line `i` on, by what line `i` is. */
  lemma SessionAt(lines: seq<string>, i: nat, classify: string -> Line, answer: string -> Result<seq<Point>>)
    requires i < |lines|
    ensures classify(lines[i]).Blank? ==> Session(lines[i..], classify, answer) == Session(lines[i + 1..], classify, answer)
    ensures classify(lines[i]).ExitWord? ==> Session(lines[i..], classify, answer) == []
    ensures classify(lines[i]).Query? ==>
      (Session(lines[i..], classify, answer) == [TurnOf(answer(classify(lines[i]).text))] + Session(lines[i + 1..], classify, answer))
  {
    assert lines[i..][1..] == lines[i + 1..];
  }

  /** Every turn answers one line, so a session has at most as many turns as lines. */
  lemma {:induction false} SessionBounded(lines: seq<string>, classify: string -> Line, answer: string -> Result<seq<Point>>)
    ensures |Session(lines, classify, answer)| <= |lines|
  {
    if lines != [] {
      SessionBounded(lines[1..], classify, answer);
    }
  }

  /** Nothing after an exit word is searched: the session ends there. */
  lemma {:induction false} SessionEndsAtExit(lines: seq<string>, i: nat, classify: string -> Line,
                                             answer: string -> Result<seq<Point>>)
    requires i < |lines| && classify(lines[i]) == ExitWord
    ensures Session(lines, classify, answer) == Session(lines[..i], classify, answer)
  {
    if i > 0 {
      SessionEndsAtExit(lines[1..], i - 1, classify, answer);
      assert lines[1..][..i - 1] == lines[..i][1..];
    }
  }

  /** A blank line changes nothing: dropping it leaves the same session. */
  lemma {:induction false} BlankLineSkipped(before: seq<string>, blank: string, after: seq<string>,
                                            classify: string -> Line, answer: string -> Result<seq<Point>>)
    requires classify(blank) == Blank
    ensures Session(before + [blank] + after, classify, answer) == Session(before + after, classify, answer)
  {
    if before != [] {
      BlankLineSkipped(before[1..], blank, after, classify, answer);
      assert (before + [blank] + after)[1..] == before[1..] + [blank] + after;
      assert (before + after)[1..] == before[1..] + after;
      assert (before + [blank] + after)[0] == (before + after)[0];
    } else {
      assert before + after == after;
      assert (before + [blank] + after)[0] == blank;
      assert (before + [blank] + after)[1..] == after;
    }
  }

  /** Every query line gets exactly the turn of its search. */
  lemma QueryLineAnswered(line: string, rest: seq<string>, classify: string -> Line, answer: string -> Result<seq<Point>>)
    requires classify(line).Query?
    ensures Session([line] + rest, classify, answer)
      == [TurnOf(answer(classify(line).text))] + Session(rest, classify, answer)
  {
    assert ([line] + rest)[1..] == rest;
  }

  /** A line is blank exactly when it is all whitespace. */
  lemma BlankIffWhitespace(line: string)
    ensures Classify(line) == Blank <==> forall i :: 0 <= i < |line| ==> IsSpace(line[i])
  {
    StripBlank(line);
  }

  /**
   * A query ends the session exactly when it spells "exit", "quit" or "bye"
   * in any mixture of ASCII letter cases.
   */
  lemma ExitAnyCase(query: string)
    ensures IsExit(query) <==>
      SameUpToCase(query, "exit") || SameUpToCase(query, "quit") || SameUpToCase(query, "bye")
  {
    LowerAsciiSpells(query, "exit");
    LowerAsciiSpells(query, "quit");
    LowerAsciiSpells(query, "bye");
  }
}
