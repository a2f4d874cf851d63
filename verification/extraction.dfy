/** `DataVisualizationManager.extract_data_from_response`: the reply is split
    into lines, each line is searched with the pattern
        (?:\d+\.\s*|-\s*)([^:]+):\s*(.+)
    and, when the value group holds a numeral, one record is emitted. */
module Extraction {
  import opened Wrappers
  import opened Strings

  /** The first numeral `\d+(?:\.\d+)?` of a value text, kept exactly as its
      digit strings; `frac` is empty when there is no fractional part. */
  datatype Numeral = Numeral(whole: string, frac: string) {
    /** The text the numeral group matched, such as "85" or "3.75". */
    function Lexeme(): (lexeme: string) {
      if frac == [] then whole else whole + "." + frac
    }
  }

  /** One `{"label", "value", "description"}` dictionary; the label is `name`. */
  datatype Record = Record(name: string, value: Numeral, description: string)

  /** The two groups of a line match, each already passed through `strip()`. */
  datatype LineMatch = LineMatch(name: string, text: string)

  // ---------------------------------------------------------------------
  // The line pattern as a specification

  /** `\d+\.` or `-` occupies `line[i..e]`. */
  ghost predicate MarkerSpan(line: string, i: int, e: int) {
    && 0 <= i < e <= |line|
    && ((e == i + 1 && line[i] == '-')
        || (i + 2 <= e && line[e - 1] == '.' && AllDigits(line[i..e - 1])))
  }

  /** One way the whole pattern matches from index `i`: marker `line[i..e]`,
      the marker's `\s*` as `line[e..s]`, group 1 `[^:]+` as `line[s..m]`, the
      colon at `m`, `\s*` as `line[m+1..n]` and group 2 `.+` as `line[n..]`.
      Group 2 runs to the end of the line, because `.+` is greedy and a line
      never holds a newline. */
  ghost predicate PatternMatch(line: string, i: int, e: int, s: int, m: int, n: int) {
    && MarkerSpan(line, i, e)
    && e <= s < m < n < |line|
    && AllSpace(line[e..s])
    && ':' !in line[s..m]
    && line[m] == ':'
    && AllSpace(line[m + 1..n])
  }

  ghost predicate MatchesAt(line: string, i: int) {
    exists e, s, m, n :: PatternMatch(line, i, e, s, m, n)
  }

  /** `i` is where `re.search` finds its match: the first index that starts one. */
  ghost predicate LeftmostMatch(line: string, i: int) {
    && 0 <= i < |line|
    && MatchesAt(line, i)
    && forall j :: 0 <= j < i ==> !MatchesAt(line, j)
  }

  // ---------------------------------------------------------------------
  // The line pattern as a computation

  /** The end of the marker `\d+\.` or `-` that starts at `i`, if one does. */
  function MarkerEnd(line: string, i: nat): (e: Option<nat>)
    requires i < |line|
    ensures e.Some? ==> i < e.value <= |line|
  {
    if line[i] == '-' then Some(i + 1)
    else if IsDigit(line[i]) then
      var j := DigitRunEnd(line, i);
      if j < |line| && line[j] == '.' then Some(j + 1) else None
    else None
  }

  /** The marker end and colon index of a match starting at `i`, if any: after
      the marker there must be at least one character before the first colon,
      and at least one character after it. */
  function MatchAt(line: string, i: nat): (r: Option<(nat, nat)>)
    requires i < |line|
    ensures r.Some? <==> && MarkerEnd(line, i).Some?
                         && MarkerEnd(line, i).value < Find(line, ':', MarkerEnd(line, i).value) < |line| - 1
    ensures r.Some? ==> && r.value.0 == MarkerEnd(line, i).value
                        && i < r.value.0 < r.value.1 < |line| - 1
                        && line[r.value.1] == ':'
                        && forall k :: r.value.0 <= k < r.value.1 ==> line[k] != ':'
  {
    match MarkerEnd(line, i)
    case None => None
    case Some(e) =>
      var m := Find(line, ':', e);
      if e < m && m + 1 < |line| then Some((e, m)) else None
  }

  /** A computed match is a match of the pattern. */
  lemma MatchAtSound(line: string, i: nat)
    requires i < |line| && MatchAt(line, i).Some?
    ensures var (e, m) := MatchAt(line, i).value; PatternMatch(line, i, e, e, m, m + 1)
  {
    var (e, m) := MatchAt(line, i).value;
    if line[i] != '-' {
      var j := DigitRunEnd(line, i);
      assert e == j + 1;
      assert forall k :: i <= k < j ==> line[i..e - 1][k - i] == line[k];
    }
    assert forall k :: 0 <= k < m - e ==> line[e..m][k] == line[e + k];
  }

  /** Every match of the pattern from `i` is the computed one: its marker end
      and its colon are the only possible ones. */
  lemma MatchAtComplete(line: string, i: nat, e: int, s: int, m: int, n: int)
    requires i < |line| && PatternMatch(line, i, e, s, m, n)
    ensures MatchAt(line, i) == Some((e, m))
  {
    if line[i] != '-' {
      assert line[i] == line[i..e - 1][0];
      var j := DigitRunEnd(line, i);
      assert forall k :: i <= k < e - 1 ==> line[k] == line[i..e - 1][k - i];
      assert j == e - 1;
    }
    assert MarkerEnd(line, i) == Some(e);
    assert forall k :: e <= k < s ==> line[k] == line[e..s][k - e];
    assert forall k :: s <= k < m ==> line[s..m][k - s] == line[k];
    assert Find(line, ':', e) == m;
  }

  /** The groups the pattern can bind from one start all agree once stripped:
      which whitespace the two `\s*` take does not change the record. */
  lemma GroupsAfterStrip(line: string, i: int, e: int, s: int, m: int, n: int)
    requires PatternMatch(line, i, e, s, m, n)
    ensures Strip(line[s..m]) == Strip(line[e..m])
    ensures Strip(line[n..]) == Strip(line[m + 1..])
  {
    assert line[e..m] == line[e..s] + line[s..m];
    StripSpacePrefix(line[e..s], line[s..m]);
    assert line[m + 1..] == line[m + 1..n] + line[n..];
    StripSpacePrefix(line[m + 1..n], line[n..]);
  }

  /** `re.search` from index `i` onward: the first start at or after `i` that
      matches, with its marker end and colon index. */
  function SearchFrom(line: string, i: nat): (r: Option<(nat, nat, nat)>)
    requires i <= |line|
    ensures r.None? <==> forall j :: i <= j < |line| ==> !MatchesAt(line, j)
    ensures r.Some? ==> var (j, e, m) := r.value;
              && i <= j && PatternMatch(line, j, e, e, m, m + 1)
              && forall k :: i <= k < j ==> !MatchesAt(line, k)
    ensures r.Some? ==> var (j, e, m) := r.value;
              forall e', s, m', n :: PatternMatch(line, j, e', s, m', n) ==> e' == e && m' == m
    decreases |line| - i
  {
    if i == |line| then None
    else match MatchAt(line, i)
      case Some((e, m)) =>
        MatchAtSound(line, i);
        MatchAtUnique(line, i, e, m);
        assert MatchesAt(line, i);
        Some((i, e, m))
      case None =>
        NoMatchAt(line, i);
        SearchFrom(line, i + 1)
  }

  lemma MatchAtUnique(line: string, i: nat, e: nat, m: nat)
    requires i < |line| && MatchAt(line, i) == Some((e, m))
    ensures forall e', s, m', n :: PatternMatch(line, i, e', s, m', n) ==> e' == e && m' == m
  {
    forall e', s, m', n | PatternMatch(line, i, e', s, m', n)
      ensures e' == e && m' == m
    {
      MatchAtComplete(line, i, e', s, m', n);
    }
  }

  lemma NoMatchAt(line: string, i: nat)
    requires i < |line| && MatchAt(line, i).None?
    ensures !MatchesAt(line, i)
  {
    forall e, s, m, n | PatternMatch(line, i, e, s, m, n)
      ensures false
    {
      MatchAtComplete(line, i, e, s, m, n);
    }
  }

  /** Searches one line for the pattern; `None` when `re.search` finds nothing.
      The groups come from the leftmost match, whichever way it binds them. */
  function MatchLine(line: string): (r: Option<LineMatch>)
    requires '\n' !in line
    ensures r.Some? <==> exists i :: 0 <= i < |line| && MatchesAt(line, i)
    ensures forall i, e, s, m, n :: LeftmostMatch(line, i) && PatternMatch(line, i, e, s, m, n)
              ==> r == Some(LineMatch(Strip(line[s..m]), Strip(line[n..])))
  {
    match SearchFrom(line, 0)
    case None => None
    case Some((j, e, m)) =>
      assert MatchesAt(line, j);
      LeftmostGroups(line, j, e, m);
      Some(LineMatch(Strip(line[e..m]), Strip(line[m + 1..])))
  }

  lemma LeftmostGroups(line: string, j: nat, e: nat, m: nat)
    requires LeftmostMatch(line, j)
    requires forall e', s, m', n :: PatternMatch(line, j, e', s, m', n) ==> e' == e && m' == m
    ensures forall i, e', s, m', n :: LeftmostMatch(line, i) && PatternMatch(line, i, e', s, m', n)
              ==> Strip(line[s..m']) == Strip(line[e..m]) && Strip(line[n..]) == Strip(line[m + 1..])
  {
    forall i, e', s, m', n | LeftmostMatch(line, i) && PatternMatch(line, i, e', s, m', n)
      ensures Strip(line[s..m']) == Strip(line[e..m]) && Strip(line[n..]) == Strip(line[m + 1..])
    {
      assert i == j;
      GroupsAfterStrip(line, i, e', s, m', n);
    }
  }

  // ---------------------------------------------------------------------
  // The first numeral of a value text

  /** `w` is the whole run of digits starting at `p`. */
  ghost predicate MaximalDigitsAt(t: string, p: int, w: string) {
    && 0 <= p && p + |w| <= |t| && |w| >= 1
    && t[p..p + |w|] == w && AllDigits(w)
    && (p + |w| == |t| || !IsDigit(t[p + |w|]))
  }

  /** `f` is what the optional `(?:\.\d+)` takes at `q`: a point followed by
      a whole run of digits, or nothing when no digit follows a point. */
  ghost predicate FractionAt(t: string, q: int, f: string) {
    if 0 <= q && q + 1 < |t| && t[q] == '.' && IsDigit(t[q + 1])
    then MaximalDigitsAt(t, q + 1, f)
    else f == []
  }

  ghost predicate FirstDigitAt(t: string, p: int) {
    && 0 <= p < |t| && IsDigit(t[p])
    && forall k :: 0 <= k < p ==> !IsDigit(t[k])
  }

  /** The whole run of digits starting at a digit is maximal there. */
  lemma RunIsMaximal(t: string, p: nat)
    requires p < |t| && IsDigit(t[p])
    ensures MaximalDigitsAt(t, p, t[p..DigitRunEnd(t, p)])
  {
    var q := DigitRunEnd(t, p);
    assert forall k :: 0 <= k < q - p ==> t[p..q][k] == t[p + k];
  }

  /** What the optional fraction takes at `q`. */
  function FractionFrom(t: string, q: nat): (f: string)
    requires q <= |t|
    ensures FractionAt(t, q, f)
  {
    if q + 1 < |t| && t[q] == '.' && IsDigit(t[q + 1]) then
      RunIsMaximal(t, q + 1);
      t[q + 1..DigitRunEnd(t, q + 1)]
    else []
  }

  /** `re.search(r'(\d+(?:\.\d+)?)', t)`: the greedy numeral at the first digit. */
  function FirstNumeral(t: string): (r: Option<Numeral>)
    ensures r.None? <==> !HasDigit(t)
    ensures r.Some? ==> exists p :: && FirstDigitAt(t, p)
                                    && MaximalDigitsAt(t, p, r.value.whole)
                                    && FractionAt(t, p + |r.value.whole|, r.value.frac)
  {
    var p := FindDigit(t, 0);
    if p == |t| then None
    else
      var q := DigitRunEnd(t, p);
      var whole := t[p..q];
      RunIsMaximal(t, p);
      assert p + |whole| == q;
      var f := FractionFrom(t, q);
      assert FirstDigitAt(t, p) && MaximalDigitsAt(t, p, whole) && FractionAt(t, p + |whole|, f);
      Some(Numeral(whole, f))
  }

  /** A value text made only of digits is its own numeral. */
  lemma DigitsAreNumeral(t: string)
    requires |t| >= 1 && AllDigits(t)
    ensures FirstNumeral(t) == Some(Numeral(t, ""))
  {
    assert FindDigit(t, 0) == 0;
    assert DigitRunEnd(t, 0) == |t|;
    assert t[0..|t|] == t;
  }

  /** A numeral read at `p` spells out `t` from `p` on. */
  lemma LexemeAt(t: string, p: int, v: Numeral)
    requires MaximalDigitsAt(t, p, v.whole) && FractionAt(t, p + |v.whole|, v.frac)
    ensures OccursAt(t, v.Lexeme(), p)
  {
    var q := p + |v.whole|;
    if v.frac != [] {
      var q' := q + 1 + |v.frac|;
      assert t[q] == '.' && t[q + 1..q'] == v.frac;
      assert t[p..q'] == t[p..q] + [t[q]] + t[q + 1..q'];
    }
  }

  /** The numeral's text occurs verbatim in the value text it came from. */
  lemma NumeralInText(t: string)
    requires FirstNumeral(t).Some?
    ensures Contains(t, FirstNumeral(t).value.Lexeme())
  {
    var v := FirstNumeral(t).value;
    var p :| && FirstDigitAt(t, p)
             && MaximalDigitsAt(t, p, v.whole)
             && FractionAt(t, p + |v.whole|, v.frac);
    LexemeAt(t, p, v);
  }

  // ---------------------------------------------------------------------
  // Records

  /** What a record promises about its fields. */
  ghost predicate WellFormed(r: Record) {
    && ':' !in r.name
    && IsTrimmed(r.name)
    && IsTrimmed(r.description)
    && |r.value.whole| >= 1 && AllDigits(r.value.whole) && AllDigits(r.value.frac)
    && Contains(r.description, r.value.Lexeme())
    && FirstNumeral(r.description) == Some(r.value)
  }

  /** The record one line contributes, if any. */
  function RecordOf(line: string): (r: Option<Record>)
    requires '\n' !in line
    ensures r.Some? <==> && MatchLine(line).Some?
                         && HasDigit(MatchLine(line).value.text)
    ensures r.Some? ==> && r.value.name == MatchLine(line).value.name
                        && r.value.description == MatchLine(line).value.text
                        && FirstNumeral(r.value.description) == Some(r.value.value)
                        && WellFormed(r.value)
  {
    match MatchLine(line)
    case None => None
    case Some(lm) =>
      match FirstNumeral(lm.text)
      case None => None
      case Some(v) =>
        LineMatchFields(line);
        NumeralInText(lm.text);
        Some(Record(lm.name, v, lm.text))
  }

  /** The label has no colon and both groups are stripped. */
  lemma LineMatchFields(line: string)
    requires '\n' !in line && MatchLine(line).Some?
    ensures ':' !in MatchLine(line).value.name
    ensures IsTrimmed(MatchLine(line).value.name)
    ensures IsTrimmed(MatchLine(line).value.text)
  {
    var i :| 0 <= i < |line| && MatchesAt(line, i);
    var i0 := LeftmostStart(line, i);
    var e, s, m, n :| PatternMatch(line, i0, e, s, m, n);
    assert MatchLine(line).value == LineMatch(Strip(line[s..m]), Strip(line[n..]));
    StripKeepsOut(line[s..m], ':');
    StripSlice(line[s..m]);
    StripSlice(line[n..]);
  }

  /** There is a leftmost start at or before any start. */
  lemma {:induction false} LeftmostStart(line: string, i: int) returns (i0: int)
    requires 0 <= i < |line| && MatchesAt(line, i)
    ensures LeftmostMatch(line, i0) && i0 <= i
    decreases i
  {
    if j :| 0 <= j < i && MatchesAt(line, j) {
      i0 := LeftmostStart(line, j);
    } else {
      i0 := i;
    }
  }

  function ExtractLines(lines: seq<string>): (rs: seq<Record>)
    requires forall k :: 0 <= k < |lines| ==> '\n' !in lines[k]
    ensures |rs| <= |lines|
    ensures forall k :: 0 <= k < |rs| ==> WellFormed(rs[k])
  {
    if lines == [] then []
    else
      var rest := ExtractLines(lines[1..]);
      match RecordOf(lines[0])
      case Some(r) => [r] + rest
      case None => rest
  }

  /** `extract_data_from_response`. */
  function ExtractData(response: string): (rs: seq<Record>)
    ensures |rs| <= |SplitLines(response)|
    ensures forall k :: 0 <= k < |rs| ==> WellFormed(rs[k])
  {
    ExtractLines(SplitLines(response))
  }

  // ---------------------------------------------------------------------
  // Properties

  lemma {:induction false} ExtractLinesAppend(xs: seq<string>, ys: seq<string>)
    requires forall k :: 0 <= k < |xs| ==> '\n' !in xs[k]
    requires forall k :: 0 <= k < |ys| ==> '\n' !in ys[k]
    ensures ExtractLines(xs + ys) == ExtractLines(xs) + ExtractLines(ys)
    decreases |xs|
  {
    if xs == [] {
      assert xs + ys == ys;
    } else {
      assert (xs + ys)[0] == xs[0];
      assert (xs + ys)[1..] == xs[1..] + ys;
      ExtractLinesAppend(xs[1..], ys);
    }
  }

  /** Extraction works line by line and keeps the lines' order: the records of
      two texts joined by a newline are the first text's, then the second's. */
  lemma ExtractDataAppend(a: string, b: string)
    ensures ExtractData(a + "\n" + b) == ExtractData(a) + ExtractData(b)
  {
    SplitAppend(a, b);
    ExtractLinesAppend(SplitLines(a), SplitLines(b));
  }

  /** A single line yields at most one record, and one exactly when the pattern
      matches it and its value text holds a digit. */
  lemma ExtractDataOneLine(line: string)
    requires '\n' !in line
    ensures |ExtractData(line)| <= 1
    ensures |ExtractData(line)| == 1 <==> && MatchLine(line).Some?
                                          && HasDigit(MatchLine(line).value.text)
    ensures |ExtractData(line)| == 1 ==> ExtractData(line)[0] == RecordOf(line).value
  {
    SplitJoin([line]);
  }

  /** Empty input gives no records. */
  lemma ExtractDataEmpty()
    ensures ExtractData("") == []
  {
    assert SplitLines("") == [""];
  }

  /** A line without a colon never matches. */
  lemma NoColonNoMatch(line: string)
    requires '\n' !in line && ':' !in line
    ensures MatchLine(line).None?
  {
    assert forall m :: 0 <= m < |line| ==> line[m] != ':';
  }

  lemma {:induction false} NoColonLinesNoRecords(lines: seq<string>)
    requires forall k :: 0 <= k < |lines| ==> '\n' !in lines[k] && ':' !in lines[k]
    ensures ExtractLines(lines) == []
    decreases |lines|
  {
    if lines != [] {
      NoColonNoMatch(lines[0]);
      NoColonLinesNoRecords(lines[1..]);
    }
  }

  /** A reply with no colon-delimited line yields no records at all. */
  lemma NoColonNoRecords(response: string)
    requires ':' !in response
    ensures ExtractData(response) == []
  {
    SplitLinesAvoids(response, ':');
    NoColonLinesNoRecords(SplitLines(response));
  }
}
