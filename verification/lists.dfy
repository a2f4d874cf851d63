/** Replies written as well-formed lists, `N. name: value` or `- name: value`
    one per line: how such a reply reads back through the extraction. */
module Lists {
  import opened Wrappers
  import opened Strings
  import opened Extraction

  /** The marker that starts a list line: `N.` or `-`. */
  datatype ListMarker = Numbered(digits: string) | Bullet

  /** A list line `N. name: value` or `- name: value`, in parts. */
  datatype ListItem = ListItem(marker: ListMarker, name: string, value: string)

  function MarkerText(mk: ListMarker): (text: string) {
    match mk
    case Numbered(d) => d + "."
    case Bullet => "-"
  }

  function ItemLine(it: ListItem): (line: string) {
    MarkerText(it.marker) + " " + it.name + ": " + it.value
  }

  /** A list item whose line the pattern reads back as its label and value: a
      non-empty label with no colon and no surrounding space, a trimmed value. */
  ghost predicate CleanItem(it: ListItem) {
    && (it.marker.Numbered? ==> |it.marker.digits| >= 1 && AllDigits(it.marker.digits))
    && |it.name| >= 1 && ':' !in it.name && '\n' !in it.name && IsTrimmed(it.name)
    && '\n' !in it.value && IsTrimmed(it.value)
  }

  /** A clean item whose value holds a digit: its line yields a record. */
  ghost predicate PlainItem(it: ListItem) {
    CleanItem(it) && HasDigit(it.value)
  }

  /** An item whose label is one word of letters and whose value is a whole
      number is plain. */
  lemma WordItemPlain(mk: ListMarker, name: string, value: string)
    requires mk.Numbered? ==> |mk.digits| >= 1 && forall c :: c in mk.digits ==> IsDigit(c)
    requires |name| >= 1 && forall c :: c in name ==> IsLetter(c)
    requires |value| >= 1 && forall c :: c in value ==> IsDigit(c)
    ensures PlainItem(ListItem(mk, name, value))
  {
    assert forall k :: 0 <= k < |name| ==> name[k] in name;
    assert forall k :: 0 <= k < |value| ==> value[k] in value;
    if mk.Numbered? {
      assert forall k :: 0 <= k < |mk.digits| ==> mk.digits[k] in mk.digits;
    }
  }

  function RecordOfItem(it: ListItem): (r: Record)
    requires HasDigit(it.value)
  {
    Record(it.name, FirstNumeral(it.value).value, it.value)
  }

  /** Where the parts of an item's line sit. */
  lemma ItemLineLayout(it: ListItem)
    ensures var line := ItemLine(it);
            var e := |MarkerText(it.marker)|;
            var m := e + 1 + |it.name|;
            && |line| == m + 2 + |it.value|
            && line[..e] == MarkerText(it.marker) && line[e] == ' '
            && line[e..m] == " " + it.name && line[e + 1..m] == it.name
            && line[m] == ':' && line[m + 1..] == " " + it.value
  {
  }

  lemma ItemMarkerEnd(it: ListItem)
    requires CleanItem(it)
    ensures MarkerEnd(ItemLine(it), 0) == Some(|MarkerText(it.marker)|)
  {
    var line := ItemLine(it);
    ItemLineLayout(it);
    match it.marker {
      case Numbered(d) =>
        var e := |d| + 1;
        assert forall k :: 0 <= k < |d| ==> line[k] == line[..e][k] == d[k];
        assert line[|d|] == line[..e][|d|] == '.';
        assert IsDigit(line[0]);
        assert DigitRunEnd(line, 0) == |d|;
      case Bullet =>
        assert line[0] == line[..1][0] == '-';
    }
  }

  lemma ItemColon(it: ListItem)
    requires CleanItem(it)
    ensures var e := |MarkerText(it.marker)|;
            Find(ItemLine(it), ':', e) == e + 1 + |it.name|
  {
    var line := ItemLine(it);
    var e := |MarkerText(it.marker)|;
    var m := e + 1 + |it.name|;
    ItemLineLayout(it);
    forall k | e + 1 <= k < m
      ensures line[k] != ':'
    {
      assert line[k] == line[e + 1..m][k - e - 1] == it.name[k - e - 1];
      assert it.name[k - e - 1] in it.name;
    }
  }

  lemma ItemNoNewline(it: ListItem)
    requires CleanItem(it)
    ensures '\n' !in ItemLine(it)
  {
    var mk := MarkerText(it.marker);
    assert '\n' !in mk by {
      match it.marker {
        case Numbered(d) =>
          assert forall k :: 0 <= k < |d| ==> d[k] != '\n';
        case Bullet =>
      }
    }
    assert ItemLine(it) == mk + " " + it.name + ": " + it.value;
  }

  /** The search finds the item's marker at the start of its line. */
  lemma ItemSearch(it: ListItem)
    requires CleanItem(it)
    ensures var e := |MarkerText(it.marker)|;
            SearchFrom(ItemLine(it), 0) == Some((0, e, e + 1 + |it.name|))
  {
    var line := ItemLine(it);
    var e := |MarkerText(it.marker)|;
    var m := e + 1 + |it.name|;
    ItemLineLayout(it);
    ItemMarkerEnd(it);
    ItemColon(it);
    assert MatchAt(line, 0) == Some((e, m));
  }

  /** Stripped, the text between marker and colon is the label, and the text
      after the colon is the value. */
  lemma ItemGroups(it: ListItem)
    requires CleanItem(it)
    ensures var line := ItemLine(it);
            var e := |MarkerText(it.marker)|;
            var m := e + 1 + |it.name|;
            && Strip(line[e..m]) == it.name && Strip(line[m + 1..]) == it.value
  {
    ItemLineLayout(it);
    StripSpacePrefix(" ", it.name);
    StripSpacePrefix(" ", it.value);
    StripTrimmed(it.name);
    StripTrimmed(it.value);
  }

  lemma MatchLineOfSearch(line: string, e: nat, m: nat)
    requires '\n' !in line && SearchFrom(line, 0) == Some((0, e, m)) && m + 1 < |line|
    ensures MatchLine(line) == Some(LineMatch(Strip(line[e..m]), Strip(line[m + 1..])))
  {
    assert PatternMatch(line, 0, e, e, m, m + 1);
    assert MatchesAt(line, 0);
    assert LeftmostMatch(line, 0);
  }

  /** The pattern gives back the item's label and value text. */
  lemma ItemMatch(it: ListItem)
    requires CleanItem(it)
    ensures '\n' !in ItemLine(it)
    ensures MatchLine(ItemLine(it)) == Some(LineMatch(it.name, it.value))
  {
    var line := ItemLine(it);
    var e := |MarkerText(it.marker)|;
    var m := e + 1 + |it.name|;
    ItemNoNewline(it);
    ItemSearch(it);
    ItemGroups(it);
    assert |line| == m + 2 + |it.value|;
    MatchLineOfSearch(line, e, m);
  }

  /** A plain item's line yields exactly the item's label and value text. */
  lemma ItemLineRecord(it: ListItem)
    requires PlainItem(it)
    ensures '\n' !in ItemLine(it)
    ensures RecordOf(ItemLine(it)) == Some(RecordOfItem(it))
  {
    ItemMatch(it);
  }

  /** The lines of a list, one per item. */
  function ItemLines(items: seq<ListItem>): (lines: seq<string>)
    ensures |lines| == |items|
  {
    if items == [] then [] else [ItemLine(items[0])] + ItemLines(items[1..])
  }

  /** The records a list of plain items stands for, one per item. */
  function ItemRecords(items: seq<ListItem>): (rs: seq<Record>)
    requires forall k :: 0 <= k < |items| ==> PlainItem(items[k])
  {
    if items == [] then []
    else
      assert PlainItem(items[0]);
      [RecordOfItem(items[0])] + ItemRecords(items[1..])
  }

  /** A list of plain items is a data-bearing text: it holds a digit, and it
      holds its first item's marker. */
  lemma PlainListLooksLikeData(items: seq<ListItem>)
    requires |items| >= 1
    requires forall k :: 0 <= k < |items| ==> PlainItem(items[k])
    ensures HasDigit(JoinLines(ItemLines(items)))
    ensures Contains(JoinLines(ItemLines(items)), MarkerText(items[0].marker))
  {
    var it := items[0];
    assert PlainItem(it);
    var lines := ItemLines(items);
    var line := ItemLine(it);
    assert lines[0] == line;
    var mt := MarkerText(it.marker);
    assert OccursAt(mt, mt, 0);
    OccursExtend(mt, mt, 0, " ");
    OccursExtend(mt + " ", mt, 0, it.name);
    OccursExtend(mt + " " + it.name, mt, 0, ": ");
    OccursExtend(mt + " " + it.name + ": ", mt, 0, it.value);
    JoinLinesStart(lines);
    OccursInPrefix(JoinLines(lines), line, mt);
    HasDigitAppend(mt + " " + it.name + ": ", it.value);
    if |lines| > 1 {
      HasDigitAppend(line, "\n");
      HasDigitAppend(line + "\n", JoinLines(lines[1..]));
    }
  }

  /** A plain list opening with `1.`, `2.` or `-` holds a digit and one of
      those three markers. */
  lemma ListMarkedWithDigits(items: seq<ListItem>)
    requires |items| >= 1
    requires forall k :: 0 <= k < |items| ==> PlainItem(items[k])
    requires items[0].marker == Numbered("1") || items[0].marker == Numbered("2") || items[0].marker == Bullet
    ensures var r := JoinLines(ItemLines(items));
            HasDigit(r) && (Contains(r, "1.") || Contains(r, "2.") || Contains(r, "-"))
  {
    PlainListLooksLikeData(items);
    DataMarkerText(items[0].marker);
    DataMarkerContained(JoinLines(ItemLines(items)), MarkerText(items[0].marker));
  }

  /** The three markers that the data-bearing test looks for. */
  lemma DataMarkerText(mk: ListMarker)
    requires mk == Numbered("1") || mk == Numbered("2") || mk == Bullet
    ensures MarkerText(mk) == "1." || MarkerText(mk) == "2." || MarkerText(mk) == "-"
  {
  }

  lemma DataMarkerContained(r: string, mt: string)
    requires Contains(r, mt) && (mt == "1." || mt == "2." || mt == "-")
    ensures Contains(r, "1.") || Contains(r, "2.") || Contains(r, "-")
  {
  }

  /** A list of plain items, one per line, is read back item by item, in order:
      one record per line, whose value is the first numeral of the line's value. */
  lemma {:induction false} PlainListExtracted(items: seq<ListItem>)
    requires |items| >= 1
    requires forall k :: 0 <= k < |items| ==> PlainItem(items[k])
    ensures ExtractData(JoinLines(ItemLines(items))) == ItemRecords(items)
    decreases |items|
  {
    var lines := ItemLines(items);
    var first := ItemLine(items[0]);
    assert lines[0] == first;
    ItemLineRecord(items[0]);
    ExtractDataOneLine(first);
    assert ExtractData(first) == [RecordOfItem(items[0])];
    if |items| > 1 {
      var rest := ItemLines(items[1..]);
      assert lines[1..] == rest;
      PlainListExtracted(items[1..]);
      assert JoinLines(lines) == first + "\n" + JoinLines(rest);
      ExtractDataAppend(first, JoinLines(rest));
    }
  }
}
