/** The JavaScript string and array built-ins that the modelled code relies on,
    with the semantics ECMAScript gives them for the arguments the code passes:
    String.prototype.includes / indexOf, split and replace with a string pattern,
    a global replace with a literal pattern, Array.prototype.join and slice, trim,
    and the line terminators that `.` refuses to match in a regular expression. */
module JsBuiltins {

  /** `pat` occurs in `s` starting at index `i`. */
  predicate OccursAt(s: string, pat: string, i: nat) {
    i + |pat| <= |s| && s[i..i + |pat|] == pat
  }

  /** `sub` is a contiguous piece of `s`. */
  ghost predicate IsSubstring(sub: string, s: string) {
    exists a: nat :: OccursAt(s, sub, a)
  }

  /** String.prototype.indexOf(pat, from): the first occurrence at or after
      `from`, or -1. */
  function IndexOfFrom(s: string, pat: string, from: nat): (r: int)
    ensures r == -1 || (from <= r && OccursAt(s, pat, r))
    ensures r == -1 ==> forall j: nat :: from <= j ==> !OccursAt(s, pat, j)
    ensures r != -1 ==> forall j: nat :: from <= j < r ==> !OccursAt(s, pat, j)
    decreases |s| + 1 - from
  {
    if from > |s| then -1
    else if OccursAt(s, pat, from) then from
    else IndexOfFrom(s, pat, from + 1)
  }

  /** String.prototype.includes. */
  predicate Includes(s: string, pat: string)
  {
    IndexOfFrom(s, pat, 0) != -1
  }

  lemma IncludesIff(s: string, pat: string)
    ensures Includes(s, pat) <==> exists i: nat :: OccursAt(s, pat, i)
  {
  }

  /** An occurrence inside a slice is an occurrence in the whole string. */
  lemma OccursInSlice(s: string, pat: string, a: nat, b: nat, p: nat)
    requires a <= b <= |s|
    requires OccursAt(s[a..b], pat, p)
    ensures OccursAt(s, pat, a + p) && a + p + |pat| <= b
  {
    assert p + |pat| <= b - a;
    forall t | 0 <= t < |pat|
      ensures s[a + p + t] == pat[t]
    {
      assert s[a..b][p..p + |pat|][t] == pat[t];
    }
    assert s[a + p..a + p + |pat|] == pat;
  }

  /** A one-character pattern occurs exactly where that character is. */
  lemma OccursSingleChar(s: string, c: char, i: nat)
    ensures OccursAt(s, [c], i) <==> i < |s| && s[i] == c
  {
    if i < |s| {
      assert s[i..i + 1] == [s[i]];
    }
  }

  lemma NotIncludesSingleChar(s: string, c: char)
    ensures !Includes(s, [c]) <==> c !in s
  {
    if c in s {
      var i :| 0 <= i < |s| && s[i] == c;
      OccursSingleChar(s, c, i);
    }
    if Includes(s, [c]) {
      var i := IndexOfFrom(s, [c], 0);
      OccursSingleChar(s, c, i);
    }
  }

  /** Array.prototype.join(sep). */
  function Join(parts: seq<string>, sep: string): string
  {
    if |parts| == 0 then ""
    else if |parts| == 1 then parts[0]
    else parts[0] + sep + Join(parts[1..], sep)
  }

  /** With two pieces or more, the last piece follows the separator. */
  lemma {:induction false} JoinLast(parts: seq<string>, sep: string)
    requires |parts| >= 2
    ensures Join(parts, sep) == Join(parts[..|parts| - 1], sep) + sep + parts[|parts| - 1]
  {
    if |parts| > 2 {
      JoinLast(parts[1..], sep);
      assert parts[1..][..|parts[1..]| - 1] == parts[..|parts| - 1][1..];
      assert parts[1..][|parts[1..]| - 1] == parts[|parts| - 1];
    } else {
      assert parts[1..] == [parts[1]];
    }
  }

  /** String.prototype.split with a non-empty string separator: the pieces
      between consecutive occurrences of `sep`, scanning left to right. */
  function Split(s: string, sep: string): (r: seq<string>)
    requires |sep| > 0
    ensures |r| >= 1
    ensures Join(r, sep) == s
    ensures forall k: nat, j: nat :: k < |r| ==> !OccursAt(r[k], sep, j)
    ensures forall k, c :: 0 <= k < |r| && c in r[k] ==> c in s
    decreases |s|
  {
    var i := IndexOfFrom(s, sep, 0);
    if i == -1 then [s]
    else
      var rest := Split(s[i + |sep|..], sep);
      forall j: nat | OccursAt(s[..i], sep, j)
        ensures false
      {
        OccursInSlice(s, sep, 0, i, j);
      }
      assert s == s[..i] + sep + s[i + |sep|..];
      [s[..i]] + rest
  }

  /** String.prototype.replace with a string pattern: only the first
      occurrence is replaced (`$` patterns in the replacement are not modelled). */
  function ReplaceFirst(s: string, pat: string, rep: string): (r: string)
    ensures !Includes(s, pat) ==> r == s
    ensures Includes(s, pat) ==>
      exists i: nat :: OccursAt(s, pat, i) && (forall j: nat :: j < i ==> !OccursAt(s, pat, j)) &&
        r == s[..i] + rep + s[i + |pat|..]
  {
    var i := IndexOfFrom(s, pat, 0);
    if i == -1 then s else s[..i] + rep + s[i + |pat|..]
  }

  /** String.prototype.replace with a global regular expression that matches
      the literal `pat`: every non-overlapping occurrence, left to right. */
  function ReplaceAll(s: string, pat: string, rep: string): string
    requires |pat| > 0
    decreases |s|
  {
    var i := IndexOfFrom(s, pat, 0);
    if i == -1 then s else s[..i] + rep + ReplaceAll(s[i + |pat|..], pat, rep)
  }

  /** A global replace is a split on the pattern joined with the replacement. */
  lemma {:induction false} ReplaceAllIsSplitJoin(s: string, pat: string, rep: string)
    requires |pat| > 0
    ensures ReplaceAll(s, pat, rep) == Join(Split(s, pat), rep)
    decreases |s|
  {
    var i := IndexOfFrom(s, pat, 0);
    if i != -1 {
      var rest := s[i + |pat|..];
      ReplaceAllIsSplitJoin(rest, pat, rep);
      assert Split(s, pat) == [s[..i]] + Split(rest, pat);
      assert |Split(rest, pat)| >= 1;
      assert Join(Split(s, pat), rep) == s[..i] + rep + Join(Split(rest, pat), rep);
    }
  }

  /** Replacing a pattern by itself changes nothing. */
  lemma {:induction false} ReplaceAllSelf(s: string, pat: string)
    requires |pat| > 0
    ensures ReplaceAll(s, pat, pat) == s
    decreases |s|
  {
    var i := IndexOfFrom(s, pat, 0);
    if i != -1 {
      ReplaceAllSelf(s[i + |pat|..], pat);
      assert s[..i] + pat + s[i + |pat|..] == s;
    }
  }

  /** The characters that `.` in a regular expression does not match. */
  predicate IsLineTerminator(c: char) {
    c == '\n' || c == '\r' || c == '\U{2028}' || c == '\U{2029}'
  }

  /** The characters String.prototype.trim and parseInt strip: WhiteSpace
      and LineTerminator of ECMAScript. */
  predicate IsJsWhitespace(c: char) {
    c == ' ' || c == '\t' || c == '\U{000B}' || c == '\U{000C}' || c == '\U{00A0}' || c == '\U{FEFF}'
    || c == '\U{1680}' || ('\U{2000}' <= c <= '\U{200A}') || c == '\U{202F}' || c == '\U{205F}'
    || c == '\U{3000}' || IsLineTerminator(c)
  }

  /** Leading whitespace removed (String.prototype.trimStart). */
  function TrimStart(s: string): (r: string)
    ensures |r| <= |s| && r == s[|s| - |r|..]
    ensures forall k :: 0 <= k < |s| - |r| ==> IsJsWhitespace(s[k])
    ensures |r| > 0 ==> !IsJsWhitespace(r[0])
  {
    if |s| > 0 && IsJsWhitespace(s[0]) then TrimStart(s[1..]) else s
  }

  /** Trailing whitespace removed (String.prototype.trimEnd). */
  function TrimEnd(s: string): (r: string)
    ensures |r| <= |s| && r == s[..|r|]
    ensures forall k :: |r| <= k < |s| ==> IsJsWhitespace(s[k])
    ensures |r| > 0 ==> !IsJsWhitespace(r[|r| - 1])
  {
    if |s| > 0 && IsJsWhitespace(s[|s| - 1]) then TrimEnd(s[..|s| - 1]) else s
  }

  /** String.prototype.trim. */
  function Trim(s: string): string
  {
    TrimEnd(TrimStart(s))
  }

  /** The index Array.prototype.slice uses for a relative position. */
  function RelativeIndex(k: int, len: nat): (r: nat)
    ensures r <= len
  {
    if k < 0 then (if len + k < 0 then 0 else len + k)
    else if k > len then len else k
  }

  /** Array.prototype.slice(start, end), including negative positions. */
  function Slice<T>(s: seq<T>, start: int, end: int): (r: seq<T>)
  {
    var from, to := RelativeIndex(start, |s|), RelativeIndex(end, |s|);
    if to <= from then [] else s[from..to]
  }
}
