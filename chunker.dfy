/**
 * `chunk_text_by_words`: split a text into whitespace-separated words and
 * re-join them, `maxWords` at a time, with single spaces.
 */
module Chunker {
  import opened Values

  /** A word as `str.split()` yields it: non-empty, no whitespace. */
  predicate IsWord(w: string) {
    w != [] && forall i :: 0 <= i < |w| ==> !IsSpace(w[i])
  }

  /** The longest prefix of `s` without whitespace. */
  function WordAt(s: string): (w: string)
    ensures |w| <= |s| && w == s[..|w|]
    ensures forall i :: 0 <= i < |w| ==> !IsSpace(w[i])
    ensures |w| < |s| ==> IsSpace(s[|w|])
    ensures s != [] && !IsSpace(s[0]) ==> |w| >= 1
  {
    if s == [] || IsSpace(s[0]) then [] else [s[0]] + WordAt(s[1..])
  }

  /** `s.split()`: the maximal runs of non-whitespace characters, in order. */
  function Words(s: string): seq<string>
    decreases |s|
  {
    if s == [] then []
    else if IsSpace(s[0]) then Words(s[1..])
    else
      var w := WordAt(s);
      [w] + Words(s[|w|..])
  }

  /** `" ".join(ws)` */
  function Join(ws: seq<string>): string {
    if ws == [] then []
    else if |ws| == 1 then ws[0]
    else ws[0] + " " + Join(ws[1..])
  }

  /** The runs `ws[0:m]`, `ws[m:2m]`, ... that the chunking loop visits. */
  function Group(ws: seq<string>, m: nat): seq<seq<string>>
    requires m > 0
    decreases |ws|
  {
    if ws == [] then []
    else if |ws| <= m then [ws]
    else [ws[..m]] + Group(ws[m..], m)
  }

  function JoinAll(gs: seq<seq<string>>): (r: seq<string>)
    ensures |r| == |gs|
  {
    seq(|gs|, i requires 0 <= i < |gs| => Join(gs[i]))
  }

  function Flatten<T>(xss: seq<seq<T>>): seq<T> {
    if xss == [] then [] else xss[0] + Flatten(xss[1..])
  }

  function WordsOfEach(chunks: seq<string>): (r: seq<seq<string>>)
    ensures |r| == |chunks|
  {
    seq(|chunks|, i requires 0 <= i < |chunks| => Words(chunks[i]))
  }

  /** What `chunk_text_by_words(text, m)` returns: nothing for a falsy or non-string `text`. */
  function ChunkTexts(text: Json, m: nat): seq<string>
    requires m > 0
  {
    if text.JStr? && Truthy(text) then JoinAll(Group(Words(text.s), m)) else []
  }

  /** The words still to be grouped once the loop index is `i`. */
  function Rest<T>(s: seq<T>, i: nat): seq<T> {
    if i < |s| then s[i..] else []
  }

  /** One pass of the chunking loop takes the run `words[i:i + m]` off the front of the remaining groups. */
  lemma GroupStep(words: seq<string>, i: nat, m: nat)
    requires m > 0 && i < |words|
    ensures var end := if i + m <= |words| then i + m else |words|;
      Group(Rest(words, i), m) == [words[i..end]] + Group(Rest(words, i + m), m)
  {
    var rest := words[i..];
    assert Rest(words, i) == rest;
    if |rest| > m {
      assert rest[..m] == words[i..i + m];
      assert rest[m..] == words[i + m..] == Rest(words, i + m);
    } else {
      assert Rest(words, i + m) == [];
      assert words[i..|words|] == rest;
    }
  }

  /** The loop's invariant survives one pass that appends the chunk `words[i:i + m]`. */
  lemma ChunkStep(words: seq<string>, i: nat, m: nat, chunks: seq<string>)
    requires m > 0 && i < |words|
    requires chunks + JoinAll(Group(Rest(words, i), m)) == JoinAll(Group(words, m))
    ensures var end := if i + m <= |words| then i + m else |words|;
      chunks + [Join(words[i..end])] + JoinAll(Group(Rest(words, i + m), m)) == JoinAll(Group(words, m))
  {
    var end := if i + m <= |words| then i + m else |words|;
    var later := Group(Rest(words, i + m), m);
    GroupStep(words, i, m);
    assert JoinAll([words[i..end]] + later) == [Join(words[i..end])] + JoinAll(later);
  }

  method ChunkTextByWords(text: Json, maxWords: nat) returns (chunks: seq<string>)
    requires maxWords > 0
    ensures chunks == ChunkTexts(text, maxWords)
  {
    if !Truthy(text) || !text.JStr? {
      return [];
    }
    var words := Words(text.s);
    chunks := [];
    var i := 0;
    while i < |words|
      invariant chunks + JoinAll(Group(Rest(words, i), maxWords)) == JoinAll(Group(words, maxWords))
      decreases |words| - i
    {
      var end := if i + maxWords <= |words| then i + maxWords else |words|;
      var chunk := Join(words[i..end]);
      ChunkStep(words, i, maxWords, chunks);
      chunks := chunks + [chunk];
      i := i + maxWords;
    }
    assert Rest(words, 0) == words;
  }

  // ---------------------------------------------------------------------------
  // Properties of the words of a text

  lemma {:induction false} WordsAreWords(s: string)
    ensures forall k :: 0 <= k < |Words(s)| ==> IsWord(Words(s)[k])
    decreases |s|
  {
    if s != [] {
      if IsSpace(s[0]) {
        WordsAreWords(s[1..]);
      } else {
        WordsAreWords(s[|WordAt(s)|..]);
      }
    }
  }

  lemma {:induction false} WordAtOfWordThenSpace(w: string, t: string)
    requires IsWord(w)
    requires t == [] || IsSpace(t[0])
    ensures WordAt(w + t) == w
  {
    if |w| > 1 {
      assert (w + t)[1..] == w[1..] + t;
      WordAtOfWordThenSpace(w[1..], t);
    }
  }

  /** Splitting a space-joined list of words gives the words back. */
  lemma {:induction false} WordsOfJoin(ws: seq<string>)
    requires forall k :: 0 <= k < |ws| ==> IsWord(ws[k])
    ensures Words(Join(ws)) == ws
  {
    if ws == [] {
    } else if |ws| == 1 {
      WordAtOfWordThenSpace(ws[0], []);
      assert ws[0] + [] == ws[0];
      assert ws[0][|ws[0]|..] == [];
    } else {
      var w, rest := ws[0], Join(ws[1..]);
      var s := w + " " + rest;
      WordAtOfWordThenSpace(w, " " + rest);
      assert w + (" " + rest) == s;
      assert s[|w|..] == " " + rest;
      assert (" " + rest)[1..] == rest;
      WordsOfJoin(ws[1..]);
    }
  }

  // ---------------------------------------------------------------------------
  // Properties of the grouping

  lemma {:induction false} FlattenGroup(ws: seq<string>, m: nat)
    requires m > 0
    ensures Flatten(Group(ws, m)) == ws
    decreases |ws|
  {
    if ws != [] && |ws| > m {
      FlattenGroup(ws[m..], m);
      assert ws[..m] + ws[m..] == ws;
    }
  }

  /** Every run is non-empty and holds at most `m` words; there are ceil(n / m) runs. */
  lemma {:induction false} GroupShape(ws: seq<string>, m: nat)
    requires m > 0
    ensures forall k :: 0 <= k < |Group(ws, m)| ==> 1 <= |Group(ws, m)[k]| <= m
    ensures ws == [] <==> Group(ws, m) == []
    ensures ws != [] ==> (|Group(ws, m)| - 1) * m < |ws| <= |Group(ws, m)| * m
    decreases |ws|
  {
    if ws != [] && |ws| > m {
      var g, g2 := Group(ws, m), Group(ws[m..], m);
      GroupShape(ws[m..], m);
      assert g == [ws[..m]] + g2;
      assert |g| * m == |g2| * m + m;
      assert (|g| - 1) * m == (|g2| - 1) * m + m;
      forall k | 0 <= k < |g| ensures 1 <= |g[k]| <= m {
        if k > 0 { assert g[k] == g2[k - 1]; }
      }
    }
  }

  lemma {:induction false} FlattenWordsOfJoinAll(gs: seq<seq<string>>)
    requires forall k, j :: 0 <= k < |gs| && 0 <= j < |gs[k]| ==> IsWord(gs[k][j])
    ensures WordsOfEach(JoinAll(gs)) == gs
  {
    forall k | 0 <= k < |gs| ensures Words(JoinAll(gs)[k]) == gs[k] {
      WordsOfJoin(gs[k]);
    }
  }

  lemma GroupMembers(ws: seq<string>, m: nat)
    requires m > 0
    requires forall j :: 0 <= j < |ws| ==> IsWord(ws[j])
    ensures forall k, j :: 0 <= k < |Group(ws, m)| && 0 <= j < |Group(ws, m)[k]| ==> IsWord(Group(ws, m)[k][j])
    decreases |ws|
  {
    if ws != [] && |ws| > m {
      GroupMembers(ws[m..], m);
      var g, g2 := Group(ws, m), Group(ws[m..], m);
      forall k, j | 0 <= k < |g| && 0 <= j < |g[k]| ensures IsWord(g[k][j]) {
        if k > 0 {
          assert g[k] == g2[k - 1];
        }
      }
    }
  }

  lemma {:induction false} FlattenConcat<T>(a: seq<seq<T>>, b: seq<seq<T>>)
    ensures Flatten(a + b) == Flatten(a) + Flatten(b)
  {
    if a == [] {
      assert a + b == b;
    } else {
      assert (a + b)[0] == a[0] && (a + b)[1..] == a[1..] + b;
      FlattenConcat(a[1..], b);
    }
  }

  /**
   * The promise of `chunk_text_by_words`: read back with `split()`, each chunk is
   * a run of 1 to `m` words; the runs, in order, are exactly the words of the text;
   * and there are ceil(n / m) of them for n words.
   */
  lemma ChunkTextsRoundTrip(text: Json, m: nat)
    requires m > 0
    ensures var chunks := ChunkTexts(text, m);
      && (forall k :: 0 <= k < |chunks| ==> 1 <= |Words(chunks[k])| <= m)
      && Flatten(WordsOfEach(chunks)) == (if text.JStr? then Words(text.s) else [])
      && (text.JStr? && Words(text.s) != [] ==>
            (|chunks| - 1) * m < |Words(text.s)| <= |chunks| * m)
      && (!text.JStr? || Words(text.s) == [] <==> chunks == [])
  {
    if text.JStr? && Truthy(text) {
      var ws := Words(text.s);
      WordsAreWords(text.s);
      GroupShape(ws, m);
      GroupMembers(ws, m);
      FlattenWordsOfJoinAll(Group(ws, m));
      FlattenGroup(ws, m);
    } else if text.JStr? {
      assert text.s == [];
    }
  }
}
