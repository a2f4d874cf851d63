/** Character classes and string operations the chatbot's Python code takes
    from `str` and `re`: `isdigit`/`\d`, `isspace`/`\s`, `lower`, `in`,
    `strip` and `split('\n')`. */
module Strings {

  /** `\d`, restricted to the ASCII digits. */
  predicate IsDigit(c: char) {
    '0' <= c <= '9'
  }

  /** Python's `str.isspace()`, which is also what `\s` and `strip()` use. */
  predicate IsSpace(c: char) {
    || c == ' '
    || '\t' <= c <= '\r'
    || '\U{1c}' <= c <= '\U{1f}'
    || c == '\U{85}' || c == '\U{a0}' || c == '\U{1680}'
    || '\U{2000}' <= c <= '\U{200a}'
    || c == '\U{2028}' || c == '\U{2029}' || c == '\U{202f}' || c == '\U{205f}'
    || c == '\U{3000}'
  }

  predicate IsLetter(c: char) {
    'A' <= c <= 'Z' || 'a' <= c <= 'z'
  }

  ghost predicate AllDigits(s: string) {
    forall k :: 0 <= k < |s| ==> IsDigit(s[k])
  }

  ghost predicate AllSpace(s: string) {
    forall k :: 0 <= k < |s| ==> IsSpace(s[k])
  }

  /** Neither starts nor ends with whitespace: what `strip()` leaves. */
  ghost predicate IsTrimmed(s: string) {
    s == [] || (!IsSpace(s[0]) && !IsSpace(s[|s| - 1]))
  }

  /** `re.search(r'\d+', s)` succeeds. */
  predicate HasDigit(s: string): (b: bool)
    ensures b <==> FindDigit(s, 0) < |s|
  {
    exists k | 0 <= k < |s| :: IsDigit(s[k])
  }

  // ---------------------------------------------------------------------
  // Case folding

  function LowerChar(c: char): (d: char)
    ensures 'A' <= c <= 'Z' ==> d as int == c as int + 32
    ensures !('A' <= c <= 'Z') ==> d == c
  {
    if 'A' <= c <= 'Z' then (c as int + 32) as char else c
  }

  /** `str.lower()` for ASCII letters; every other character is kept. */
  function Lower(s: string): (r: string)
    ensures |r| == |s|
    ensures forall k :: 0 <= k < |s| ==> r[k] == LowerChar(s[k])
  {
    seq(|s|, k requires 0 <= k < |s| => LowerChar(s[k]))
  }

  lemma LowerIdempotent(s: string)
    ensures Lower(Lower(s)) == Lower(s)
  {
  }

  // ---------------------------------------------------------------------
  // Substrings

  /** `t` occurs in `s` starting at index `i`. */
  predicate OccursAt(s: string, t: string, i: int) {
    0 <= i && i + |t| <= |s| && s[i..i + |t|] == t
  }

  ghost predicate Contains(s: string, t: string) {
    exists i :: OccursAt(s, t, i)
  }

  /** Python's `t in s` for strings, by scanning left to right. */
  function Occurs(t: string, s: string): (r: bool)
    ensures r <==> Contains(s, t)
    decreases |s|
  {
    if |s| < |t| then false
    else if s[..|t|] == t then
      assert OccursAt(s, t, 0);
      true
    else if |s| == 0 then false
    else
      ContainsStep(s, t);
      Occurs(t, s[1..])
  }

  /** `t` occurs in `s` but not at its start exactly when it occurs in `s[1..]`. */
  lemma ContainsStep(s: string, t: string)
    requires 0 < |s| && |t| <= |s| && s[..|t|] != t
    ensures Contains(s, t) <==> Contains(s[1..], t)
  {
    if i :| OccursAt(s[1..], t, i) {
      assert OccursAt(s, t, i + 1);
    }
    assert !OccursAt(s, t, 0);
    if i :| OccursAt(s, t, i) && i > 0 {
      assert OccursAt(s[1..], t, i - 1);
    }
  }

  /** A string that lacks one of `t`'s characters cannot contain `t`. */
  lemma MissingCharNotContained(s: string, t: string, c: char)
    requires c in t && c !in s
    ensures !Contains(s, t)
  {
    var k :| 0 <= k < |t| && t[k] == c;
    forall i | 0 <= i && i + |t| <= |s|
      ensures !OccursAt(s, t, i)
    {
      assert s[i..i + |t|][k] == s[i + k];
    }
  }

  /** Python's `s.startswith(p)`. */
  predicate StartsWith(s: string, p: string) {
    |p| <= |s| && s[..|p|] == p
  }

  /** A word occurs where it was put. */
  lemma OccursEnd(a: string, t: string)
    ensures OccursAt(a + t, t, |a|)
  {
    assert (a + t)[|a|..|a| + |t|] == t;
  }

  /** An occurrence stays where it is when text is appended. */
  lemma OccursExtend(s: string, t: string, i: int, u: string)
    requires OccursAt(s, t, i)
    ensures OccursAt(s + u, t, i)
  {
    assert (s + u)[i..i + |t|] == s[i..i + |t|];
  }

  /** An occurrence at the start of a prefix is one at the start of the text. */
  lemma OccursInPrefix(s: string, p: string, t: string)
    requires |p| <= |s| && s[..|p|] == p && OccursAt(p, t, 0)
    ensures OccursAt(s, t, 0)
  {
    assert s[..|t|] == p[..|t|];
  }

  lemma HasDigitAppend(a: string, b: string)
    requires HasDigit(a) || HasDigit(b)
    ensures HasDigit(a + b)
  {
    if HasDigit(a) {
      var k :| 0 <= k < |a| && IsDigit(a[k]);
      assert (a + b)[k] == a[k];
    } else {
      var k :| 0 <= k < |b| && IsDigit(b[k]);
      assert (a + b)[|a| + k] == b[k];
    }
  }

  /** `t` has no upper-case ASCII letter, so `str.lower()` leaves it alone. */
  predicate NoUpper(t: string) {
    forall c :: c in t ==> !('A' <= c <= 'Z')
  }

  lemma NoUpperLower(t: string)
    requires NoUpper(t)
    ensures Lower(t) == t
  {
    forall k | 0 <= k < |t|
      ensures Lower(t)[k] == t[k]
    {
      assert t[k] in t;
    }
  }

  /** A lower-case word found in a text is still found once the text is
      lower-cased, whatever case the rest of the text has. */
  lemma LowerKeepsLowerWord(s: string, t: string, i: int)
    requires OccursAt(s, t, i) && NoUpper(t)
    ensures OccursAt(Lower(s), t, i)
  {
    NoUpperLower(t);
    assert Lower(s)[i..i + |t|] == Lower(s[i..i + |t|]);
  }

  // ---------------------------------------------------------------------
  // Searching

  /** The first index at or after `from` holding `c`, or `|s|` when there is none. */
  function Find(s: string, c: char, from: nat): (p: nat)
    requires from <= |s|
    ensures from <= p <= |s|
    ensures forall k :: from <= k < p ==> s[k] != c
    ensures p < |s| ==> s[p] == c
    decreases |s| - from
  {
    if from == |s| || s[from] == c then from else Find(s, c, from + 1)
  }

  /** The first index at or after `from` holding a digit, or `|s|`. */
  function FindDigit(s: string, from: nat): (p: nat)
    requires from <= |s|
    ensures from <= p <= |s|
    ensures forall k :: from <= k < p ==> !IsDigit(s[k])
    ensures p < |s| ==> IsDigit(s[p])
    decreases |s| - from
  {
    if from == |s| || IsDigit(s[from]) then from else FindDigit(s, from + 1)
  }

  /** The end of the run of digits starting at `from` (a greedy `\d*`). */
  function DigitRunEnd(s: string, from: nat): (p: nat)
    requires from <= |s|
    ensures from <= p <= |s|
    ensures forall k :: from <= k < p ==> IsDigit(s[k])
    ensures p == |s| || !IsDigit(s[p])
    decreases |s| - from
  {
    if from == |s| || !IsDigit(s[from]) then from else DigitRunEnd(s, from + 1)
  }

  // ---------------------------------------------------------------------
  // strip()

  /** Drops leading whitespace. */
  function TrimStart(s: string): (r: string) {
    if |s| > 0 && IsSpace(s[0]) then TrimStart(s[1..]) else s
  }

  /** Drops trailing whitespace. */
  function TrimEnd(s: string): (r: string) {
    if |s| > 0 && IsSpace(s[|s| - 1]) then TrimEnd(s[..|s| - 1]) else s
  }

  lemma {:induction false} TrimStartSuffix(s: string)
    ensures var r := TrimStart(s);
      && |r| <= |s| && r == s[|s| - |r|..]
      && AllSpace(s[..|s| - |r|])
      && (r == [] || !IsSpace(r[0]))
  {
    if |s| > 0 && IsSpace(s[0]) {
      var r := TrimStart(s[1..]);
      TrimStartSuffix(s[1..]);
      assert s[1..][|s| - 1 - |r|..] == s[|s| - |r|..];
      assert forall k :: 1 <= k < |s| - |r| ==> s[k] == s[1..][..|s| - 1 - |r|][k - 1];
    }
  }

  lemma {:induction false} TrimEndPrefix(s: string)
    ensures var r := TrimEnd(s);
      && |r| <= |s| && r == s[..|r|]
      && AllSpace(s[|r|..])
      && (r == [] || !IsSpace(r[|r| - 1]))
  {
    if |s| > 0 && IsSpace(s[|s| - 1]) {
      var r := TrimEnd(s[..|s| - 1]);
      TrimEndPrefix(s[..|s| - 1]);
      assert forall k :: |r| <= k < |s| - 1 ==> s[k] == s[..|s| - 1][|r|..][k - |r|];
    }
  }

  /** `r` is the slice of `s` starting at `a`, with only whitespace around it. */
  ghost predicate TrimmedAt(s: string, a: int, r: string) {
    && 0 <= a && a + |r| <= |s| && s[a..a + |r|] == r
    && AllSpace(s[..a]) && AllSpace(s[a + |r|..])
  }

  /** Python's `s.strip()`: a slice of `s` that neither starts nor ends with
      whitespace, with only whitespace cut away on either side. */
  function Strip(s: string): (r: string)
    ensures IsTrimmed(r)
    ensures |r| <= |s|
  {
    TrimBothSlice(s);
    TrimEnd(TrimStart(s))
  }

  lemma TrimBothSlice(s: string)
    ensures IsTrimmed(TrimEnd(TrimStart(s)))
    ensures TrimmedAt(s, |s| - |TrimStart(s)|, TrimEnd(TrimStart(s)))
  {
    var t := TrimStart(s);
    var r := TrimEnd(t);
    TrimStartSuffix(s);
    TrimEndPrefix(t);
    var a := |s| - |t|;
    assert t == s[a..];
    assert s[a..a + |r|] == t[..|r|] == r;
    assert s[a + |r|..] == t[|r|..];
    assert TrimmedAt(s, a, r);
  }

  /** What `strip()` returns is the longest middle slice that neither starts
      nor ends with whitespace, with only whitespace cut away around it. */
  lemma StripSlice(s: string)
    ensures IsTrimmed(Strip(s))
    ensures exists a :: TrimmedAt(s, a, Strip(s))
  {
    TrimBothSlice(s);
  }

  /** `strip()` adds no character. */
  lemma StripKeepsOut(s: string, c: char)
    requires c !in s
    ensures c !in Strip(s)
  {
    StripSlice(s);
    var r := Strip(s);
    var a :| TrimmedAt(s, a, r);
    assert forall k :: 0 <= k < |r| ==> r[k] == s[a + k];
  }

  /** `strip()` leaves an already trimmed string alone. */
  lemma StripTrimmed(s: string)
    requires IsTrimmed(s)
    ensures Strip(s) == s
  {
    if |s| > 0 {
      assert TrimStart(s) == s;
    }
  }

  /** Leading whitespace does not change what `strip()` returns. */
  lemma {:induction false} StripSpacePrefix(w: string, x: string)
    requires AllSpace(w)
    ensures Strip(w + x) == Strip(x)
  {
    TrimStartSpacePrefix(w, x);
  }

  lemma {:induction false} TrimStartSpacePrefix(w: string, x: string)
    requires AllSpace(w)
    ensures TrimStart(w + x) == TrimStart(x)
    decreases |w|
  {
    if w == [] {
      assert w + x == x;
    } else {
      assert (w + x)[0] == w[0] && IsSpace(w[0]);
      assert (w + x)[1..] == w[1..] + x;
      TrimStartSpacePrefix(w[1..], x);
    }
  }

  // ---------------------------------------------------------------------
  // split('\n') and '\n'.join

  /** Python's `s.split('\n')`: the pieces between newlines, always at least one. */
  function SplitLines(s: string): (lines: seq<string>)
    ensures |lines| >= 1
    ensures forall k :: 0 <= k < |lines| ==> '\n' !in lines[k]
    decreases |s|
  {
    var p := Find(s, '\n', 0);
    if p == |s| then
      assert s[..p] == s;
      [s]
    else
      assert '\n' !in s[..p] by {
        assert forall k :: 0 <= k < p ==> s[..p][k] == s[k];
      }
      [s[..p]] + SplitLines(s[p + 1..])
  }

  /** Python's `'\n'.join(lines)`. */
  function JoinLines(lines: seq<string>): (s: string)
  {
    if |lines| == 0 then ""
    else if |lines| == 1 then lines[0]
    else lines[0] + "\n" + JoinLines(lines[1..])
  }

  /** A join opens with its first piece. */
  lemma JoinLinesStart(lines: seq<string>)
    requires |lines| >= 1
    ensures |lines[0]| <= |JoinLines(lines)| && JoinLines(lines)[..|lines[0]|] == lines[0]
  {
    if |lines| > 1 {
      var s := JoinLines(lines);
      assert s == lines[0] + ("\n" + JoinLines(lines[1..]));
    }
  }

  /** Joining the pieces back gives the original text. */
  lemma {:induction false} JoinSplit(s: string)
    ensures JoinLines(SplitLines(s)) == s
    decreases |s|
  {
    var p := Find(s, '\n', 0);
    if p < |s| {
      var rest := SplitLines(s[p + 1..]);
      JoinSplit(s[p + 1..]);
      assert SplitLines(s)[1..] == rest;
      assert s == s[..p] + "\n" + s[p + 1..];
    }
  }

  /** Splitting a join of newline-free pieces gives the pieces back. */
  lemma {:induction false} SplitJoin(lines: seq<string>)
    requires |lines| >= 1
    requires forall k :: 0 <= k < |lines| ==> '\n' !in lines[k]
    ensures SplitLines(JoinLines(lines)) == lines
    decreases |lines|
  {
    var s := JoinLines(lines);
    var p := Find(s, '\n', 0);
    var head := lines[0];
    if |lines| == 1 {
      assert forall k :: 0 <= k < |s| ==> s[k] != '\n';
    } else {
      var tail := JoinLines(lines[1..]);
      assert s == head + "\n" + tail;
      assert s[|head|] == '\n';
      assert forall k :: 0 <= k < |head| ==> s[k] == head[k] && s[k] != '\n';
      assert p == |head|;
      assert s[..p] == head;
      assert s[p + 1..] == tail;
      SplitJoin(lines[1..]);
    }
  }

  lemma {:induction false} JoinAppend(xs: seq<string>, ys: seq<string>)
    requires |xs| >= 1 && |ys| >= 1
    ensures JoinLines(xs + ys) == JoinLines(xs) + "\n" + JoinLines(ys)
    decreases |xs|
  {
    if |xs| == 1 {
      assert (xs + ys)[1..] == ys;
    } else {
      assert (xs + ys)[1..] == xs[1..] + ys;
      JoinAppend(xs[1..], ys);
    }
  }

  /** Splitting at one newline, then each side, equals splitting the whole. */
  lemma SplitAppend(a: string, b: string)
    ensures SplitLines(a + "\n" + b) == SplitLines(a) + SplitLines(b)
  {
    var xs := SplitLines(a);
    var ys := SplitLines(b);
    JoinSplit(a);
    JoinSplit(b);
    JoinAppend(xs, ys);
    SplitJoin(xs + ys);
  }

  /** A character absent from the text is absent from every piece. */
  lemma {:induction false} SplitLinesAvoids(s: string, c: char)
    requires c !in s
    ensures forall k :: 0 <= k < |SplitLines(s)| ==> c !in SplitLines(s)[k]
    decreases |s|
  {
    var p := Find(s, '\n', 0);
    if p < |s| {
      assert forall k :: 0 <= k < p ==> s[..p][k] == s[k];
      assert forall k :: p + 1 <= k < |s| ==> s[p + 1..][k - p - 1] == s[k];
      SplitLinesAvoids(s[p + 1..], c);
      assert SplitLines(s)[1..] == SplitLines(s[p + 1..]);
    }
  }
}
