/**
 * The row normaliser shared by `transform_data`, `transform_course_data` and
 * `transform_rows`, and the `export_to_json` pipeline around it.
 *
 * A `summary` or `chapters` column arrives as JSON text (`JStr`), as an
 * already-parsed structure, or as null (`JNull`). `json.loads` is the parameter
 * `parse`: `None` stands for a parse that raised.
 */
module Rows {
  import opened Values

  /** A row of the resource query, before or after normalisation. */
  datatype Row = Row(courseId: int, moduleId: int, resourceId: int, summary: Json, chapters: Json)

  type Parser = string -> Option<Json>

  /** The value of a column after the `isinstance(x, str)` / `json.loads` step; a failed parse gives None. */
  function Parsed(raw: Json, parse: Parser): Json {
    if raw.JStr? then parse(raw.s).GetOr(JNull) else raw
  }

  /** The new `summary`: the `content` entry of the (parsed) dict, or None. */
  function NormalizeSummary(raw: Json, parse: Parser): Json {
    var s := Parsed(raw, parse);
    if s.JObj? && HasKey(s, "content") then Get(s, "content", JNull) else JNull
  }

  /** The new `chapters`: the parsed value of a string, any other value unchanged. */
  function NormalizeChapters(raw: Json, parse: Parser): Json {
    Parsed(raw, parse)
  }

  /** The copy `dict(row)` with its two columns replaced. */
  function Normalize(row: Row, parse: Parser): Row {
    row.(summary := NormalizeSummary(row.summary, parse), chapters := NormalizeChapters(row.chapters, parse))
  }

  /** A normalised row is kept unless both of its columns are falsy. */
  predicate Kept(row: Row) {
    Truthy(row.summary) || Truthy(row.chapters)
  }

  /** What the transform returns for `rows`: the normalised rows that are kept, in order. */
  function Transform(rows: seq<Row>, parse: Parser): seq<Row> {
    if rows == [] then []
    else
      var last := Normalize(rows[|rows| - 1], parse);
      Transform(rows[..|rows| - 1], parse) + (if Kept(last) then [last] else [])
  }

  method TransformRows(rows: seq<Row>, parse: Parser) returns (transformed: seq<Row>)
    ensures transformed == Transform(rows, parse)
  {
    transformed := [];
    var i := 0;
    while i < |rows|
      invariant i <= |rows|
      invariant transformed == Transform(rows[..i], parse)
    {
      assert rows[..i + 1][..i] == rows[..i];
      var row := rows[i];
      var summary := row.summary;
      var chapters := row.chapters;
      if summary.JStr? {
        summary := parse(summary.s).GetOr(JNull);
      }
      var newSummary := if summary.JObj? && HasKey(summary, "content") then Get(summary, "content", JNull) else JNull;
      if chapters.JStr? {
        chapters := parse(chapters.s).GetOr(JNull);
      }
      var newRow := row.(summary := newSummary, chapters := chapters);
      if !Truthy(newRow.summary) && !Truthy(newRow.chapters) {
        i := i + 1;
        continue;
      }
      transformed := transformed + [newRow];
      i := i + 1;
    }
    assert rows[..i] == rows;
  }

  /** The positions of the kept rows, in increasing order. */
  function KeptIndices(rows: seq<Row>, parse: Parser): seq<nat> {
    if rows == [] then []
    else
      var n := |rows| - 1;
      KeptIndices(rows[..n], parse) + (if Kept(Normalize(rows[n], parse)) then [n] else [])
  }

  /**
   * The transform is an order-preserving selection: its k-th row is the
   * normalised copy of the input row at the k-th kept position, the positions
   * increase, and a position is selected exactly when its normalised summary or
   * chapters is truthy.
   */
  lemma {:induction false} TransformSelectsKeptRows(rows: seq<Row>, parse: Parser)
    ensures var out, idx := Transform(rows, parse), KeptIndices(rows, parse);
      && |out| == |idx|
      && (forall k :: 0 <= k < |idx| ==> idx[k] < |rows| && out[k] == Normalize(rows[idx[k]], parse))
      && (forall k, l :: 0 <= k < l < |idx| ==> idx[k] < idx[l])
      && (forall i :: 0 <= i < |rows| ==> (i in idx <==> Kept(Normalize(rows[i], parse))))
  {
    if rows != [] {
      var n := |rows| - 1;
      var init := rows[..n];
      TransformSelectsKeptRows(init, parse);
      var out, idx := Transform(rows, parse), KeptIndices(rows, parse);
      var out2, idx2 := Transform(init, parse), KeptIndices(init, parse);
      assert forall k :: 0 <= k < |idx2| ==> idx[k] == idx2[k] && out[k] == out2[k];
      assert forall i :: 0 <= i < n ==> rows[i] == init[i];
      forall i | 0 <= i < |rows| ensures i in idx <==> Kept(Normalize(rows[i], parse)) {
        if i < n {
          assert i in idx <==> i in idx2;
        }
      }
    }
  }

  /** Every row the transform returns has a truthy summary or truthy chapters. */
  lemma {:induction false} TransformKeepsOnlyContent(rows: seq<Row>, parse: Parser)
    ensures forall k :: 0 <= k < |Transform(rows, parse)| ==> Kept(Transform(rows, parse)[k])
  {
    if rows != [] {
      TransformKeepsOnlyContent(rows[..|rows| - 1], parse);
    }
  }

  /**
   * The summary column becomes non-null only through a dict with a `content`
   * key, given directly or as text that parses to one.
   */
  lemma SummaryComesFromContent(raw: Json, parse: Parser)
    requires NormalizeSummary(raw, parse) != JNull
    ensures var d := if raw.JStr? then parse(raw.s).value else raw;
      && (raw.JStr? ==> parse(raw.s).Some?)
      && d.JObj? && HasKey(d, "content")
      && NormalizeSummary(raw, parse) == Get(d, "content", JNull)
  {
  }

  /** The same row text that fails to parse normalises to None in either column. */
  lemma UnparseableIsNone(text: string, parse: Parser)
    requires parse(text).None?
    ensures NormalizeSummary(JStr(text), parse) == JNull
    ensures NormalizeChapters(JStr(text), parse) == JNull
  {
  }

  /**
   * `export_to_json`: the cleaned rows when fetching and saving both succeed,
   * None when either raises. `fetched` is what the database returned (None:
   * the query raised) and `saved` whether writing the file succeeded.
   */
  method ExportToJson(fetched: Option<seq<Row>>, parse: Parser, saved: bool) returns (result: Option<seq<Row>>)
    ensures result.Some? <==> fetched.Some? && saved
    ensures result.Some? ==> result.value == Transform(fetched.value, parse)
  {
    if fetched.None? {
      return None;
    }
    var cleaned := TransformRows(fetched.value, parse);
    if !saved {
      return None;
    }
    return Some(cleaned);
  }
}
