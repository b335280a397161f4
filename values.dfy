/**
 * Python values as the synchroniser sees them: the rows of the course database,
 * what `json.loads` returns, Python truthiness, `dict.get`, iteration, the
 * whitespace that `str.split()` and `str.strip()` use, and `str()` of an integer.
 */
module Values {

  datatype Option<T> = None | Some(value: T) {
    function GetOr(default: T): T {
      if Some? then value else default
    }
  }

  /** The Python exceptions the modelled code raises or catches. */
  datatype Exception =
    | TypeError          // iterating a value that is not iterable
    | AttributeError     // calling `.get` on a value that is not a dict
    | ValueError         // `course_id is required!`
    | FileNotFound       // the PDF path does not exist
    | Unavailable        // a database, PDF library, embedding or vector-store call failed

  datatype Result<T> = Ok(value: T) | Err(error: Exception)

  /**
   * A value produced by `json.loads` or by the database driver. A dict is its
   * sequence of key/value pairs in insertion order; the keys of a Python dict
   * are distinct, and a lookup takes the first pair with the key.
   */
  datatype Json =
    | JNull
    | JBool(b: bool)
    | JNum(n: real)
    | JStr(s: string)
    | JList(items: seq<Json>)
    | JObj(fields: seq<(string, Json)>)

  /** `bool(v)` in Python: None, False, 0, "", [] and {} are false. */
  predicate Truthy(v: Json) {
    match v
    case JNull => false
    case JBool(b) => b
    case JNum(n) => n != 0.0
    case JStr(s) => s != []
    case JList(items) => items != []
    case JObj(fields) => fields != []
  }

  /**
   * The value of `key` in a parsed object whose entries are `fields`. As in a
   * Python dict built by `json.loads`, the last entry with the key wins.
   */
  function Lookup(fields: seq<(string, Json)>, key: string): (r: Option<Json>)
    ensures r.Some? <==> exists i :: 0 <= i < |fields| && fields[i].0 == key
    ensures r.Some? ==> exists i :: 0 <= i < |fields| && fields[i] == (key, r.value)
                                    && forall j :: i < j < |fields| ==> fields[j].0 != key
  {
    if fields == [] then None
    else
      var n := |fields| - 1;
      if fields[n].0 == key then Some(fields[n].1)
      else
        var r := Lookup(fields[..n], key);
        assert forall i :: 0 <= i < n ==> fields[..n][i] == fields[i];
        r
  }

  /** `d.get(key, default)` on a dict `d`. */
  function Get(d: Json, key: string, default: Json): Json
    requires d.JObj?
  {
    Lookup(d.fields, key).GetOr(default)
  }

  /** `key in d` on a dict `d`. */
  predicate HasKey(d: Json, key: string)
    requires d.JObj?
  {
    Lookup(d.fields, key).Some?
  }

  /**
   * What a Python `for` loop visits: the items of a list, the keys of a dict,
   * the one-character strings of a string; None, booleans and numbers are not
   * iterable (TypeError).
   */
  function Iterate(v: Json): (r: Option<seq<Json>>)
    ensures r.Some? <==> v.JList? || v.JObj? || v.JStr?
    ensures v.JList? ==> r == Some(v.items)
  {
    match v
    case JList(items) => Some(items)
    case JObj(fields) => Some(seq(|fields|, i requires 0 <= i < |fields| => JStr(fields[i].0)))
    case JStr(s) => Some(seq(|s|, i requires 0 <= i < |s| => JStr([s[i]])))
    case _ => None
  }

  /** Python's `s[i:i + m]` for `0 <= i <= len(s)`: it stops at the end of the sequence. */
  function Slice<T>(s: seq<T>, i: nat, m: nat): (r: seq<T>)
    requires i <= |s|
    ensures |r| == (if i + m <= |s| then m else |s| - i)
    ensures forall k :: 0 <= k < |r| ==> r[k] == s[i + k]
  {
    if i + m <= |s| then s[i..i + m] else s[i..]
  }

  /** `c.isspace()`: the characters that `str.split()` and `str.strip()` treat as whitespace. */
  predicate IsSpace(c: char) {
    || c == ' '
    || '\t' <= c <= '\r'
    || '\U{1C}' <= c <= '\U{1F}'
    || c == '\U{85}' || c == '\U{A0}' || c == '\U{1680}'
    || '\U{2000}' <= c <= '\U{200A}'
    || c == '\U{2028}' || c == '\U{2029}' || c == '\U{202F}' || c == '\U{205F}' || c == '\U{3000}'
  }

  function TrimStart(s: string): (r: string)
    ensures |r| <= |s| && r == s[|s| - |r|..]
    ensures r == [] || !IsSpace(r[0])
    ensures forall i :: 0 <= i < |s| - |r| ==> IsSpace(s[i])
  {
    if s != [] && IsSpace(s[0]) then TrimStart(s[1..]) else s
  }

  function TrimEnd(s: string): (r: string)
    ensures |r| <= |s| && r == s[..|r|]
    ensures r == [] || !IsSpace(r[|r| - 1])
    ensures forall i :: |r| <= i < |s| ==> IsSpace(s[i])
  {
    if s != [] && IsSpace(s[|s| - 1]) then TrimEnd(s[..|s| - 1]) else s
  }

  /** `s.strip()` */
  function Strip(s: string): string {
    TrimEnd(TrimStart(s))
  }

  lemma StripBlank(s: string)
    ensures Strip(s) == [] <==> forall i :: 0 <= i < |s| ==> IsSpace(s[i])
  {
  }

  /** `s.lower()` on the ASCII letters; every other character is kept. */
  function LowerAscii(s: string): (r: string)
    ensures |r| == |s|
    ensures forall i :: 0 <= i < |s| ==> r[i] == (if 'A' <= s[i] <= 'Z' then (s[i] as int + 32) as char else s[i])
  {
    seq(|s|, i requires 0 <= i < |s| => if 'A' <= s[i] <= 'Z' then (s[i] as int + 32) as char else s[i])
  }

  /**
   * `s` spells `w` up to ASCII case: at each position the same character, or
   * the upper-case form of a lower-case letter of `w`.
   */
  predicate SameUpToCase(s: string, w: string) {
    |s| == |w| && forall i :: 0 <= i < |s| ==> s[i] == w[i] || ('a' <= w[i] <= 'z' && s[i] as int == w[i] as int - 32)
  }

  /**
   * Lower-casing `s` gives a word `w` without upper-case letters exactly when
   * `s` spells `w` up to ASCII case.
   */
  lemma LowerAsciiSpells(s: string, w: string)
    requires forall i :: 0 <= i < |w| ==> !('A' <= w[i] <= 'Z')
    ensures LowerAscii(s) == w <==> SameUpToCase(s, w)
  {
    var r := LowerAscii(s);
    if r == w {
      forall i | 0 <= i < |s|
        ensures s[i] == w[i] || ('a' <= w[i] <= 'z' && s[i] as int == w[i] as int - 32)
      {
        assert r[i] == w[i];
      }
    }
    if SameUpToCase(s, w) {
      forall i | 0 <= i < |s| ensures r[i] == w[i] {
        if s[i] != w[i] {
          assert 'A' <= s[i] <= 'Z';
        }
      }
    }
  }

  function DigitChar(d: nat): (c: char)
    requires d < 10
    ensures '0' <= c <= '9'
  {
    (d + '0' as int) as char
  }

  /** `str(n)` for a non-negative integer: its decimal digits, no leading zeros. */
  function NatToString(n: nat): (s: string)
    ensures 1 <= |s|
    ensures forall i :: 0 <= i < |s| ==> '0' <= s[i] <= '9'
    ensures |s| == 1 <==> n < 10
  {
    if n < 10 then [DigitChar(n)] else NatToString(n / 10) + [DigitChar(n % 10)]
  }

  /** `str(i)` for any integer. */
  function IntToString(i: int): (s: string)
    ensures 1 <= |s|
  {
    if i < 0 then "-" + NatToString(-i) else NatToString(i)
  }

  /** Different numbers print differently. */
  lemma {:induction false} NatToStringInjective(a: nat, b: nat)
    requires NatToString(a) == NatToString(b)
    ensures a == b
  {
    if a >= 10 && b >= 10 {
      var sa, sb := NatToString(a / 10), NatToString(b / 10);
      assert NatToString(a) == sa + [DigitChar(a % 10)];
      assert NatToString(b) == sb + [DigitChar(b % 10)];
      assert |sa| == |sb|;
      assert sa == NatToString(a)[..|sa|] == NatToString(b)[..|sb|] == sb;
      NatToStringInjective(a / 10, b / 10);
      assert DigitChar(a % 10) == NatToString(a)[|sa|] == NatToString(b)[|sb|] == DigitChar(b % 10);
    }
  }

  lemma IntToStringSign(i: int)
    ensures IntToString(i)[0] == '-' <==> i < 0
  {
  }

  lemma IntToStringInjective(a: int, b: int)
    requires IntToString(a) == IntToString(b)
    ensures a == b
  {
    IntToStringSign(a);
    IntToStringSign(b);
    if a < 0 {
      assert NatToString(-a) == IntToString(a)[1..] == IntToString(b)[1..] == NatToString(-b);
      NatToStringInjective(-a, -b);
    } else {
      NatToStringInjective(a, b);
    }
  }

  /** The index of the first `ch` in `s`, or `|s|` when there is none. */
  function IndexOfChar(s: string, ch: char): (k: nat)
    ensures k <= |s|
  {
    if s == [] || s[0] == ch then 0 else 1 + IndexOfChar(s[1..], ch)
  }

  lemma {:induction false} IndexOfCharAfter(a: string, b: string, ch: char)
    requires ch !in a
    ensures IndexOfChar(a + [ch] + b, ch) == |a|
  {
    if a != [] {
      assert (a + [ch] + b)[1..] == a[1..] + [ch] + b;
      IndexOfCharAfter(a[1..], b, ch);
    }
  }

  /** Two strings `a + "_" + b` and `c + "_" + d` with no underscore in `a` or `c` split at the same place. */
  lemma SplitAtUnderscore(a: string, b: string, c: string, d: string)
    requires '_' !in a && '_' !in c
    requires a + "_" + b == c + "_" + d
    ensures a == c && b == d
  {
    var s := a + "_" + b;
    IndexOfCharAfter(a, b, '_');
    IndexOfCharAfter(c, d, '_');
    assert a == s[..|a|] == c;
    assert b == s[|a| + 1..] == d;
  }
}
