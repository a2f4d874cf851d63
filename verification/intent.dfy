/** `DataVisualizationManager.detect_data_request` and `_determine_viz_type`:
    purely lexical decisions about the user's turn and the assistant's reply. */
module Intent {
  import opened Strings

  /** The chart families `_determine_viz_type` can answer. */
  datatype ChartFamily = Bar | Pie | Comparison | Timeline | TableView

  /** The dictionary `detect_data_request` returns. */
  datatype DataRequest = DataRequest(needsVisualization: bool, hasData: bool, family: ChartFamily)

  /** Words in the user's turn that ask for a visualization at all. */
  const VizKeywords: seq<string> :=
    ["grafik", "chart", "plot", "visualisasi", "tabel", "table",
     "diagram", "statistik", "data", "perbandingan", "trend"]

  // The keyword groups of `_determine_viz_type`, tried in this order.
  const ComparisonWords: seq<string> := ["perbandingan", "compare", "vs"]
  const TimelineWords: seq<string> := ["trend", "waktu", "time", "tahun"]
  const PieWords: seq<string> := ["distribusi", "percentage", "persen"]
  const TableWords: seq<string> := ["tabel", "table", "list"]

  /** Some word of `words` occurs in `text`. */
  ghost predicate MentionsSome(text: string, words: seq<string>) {
    exists w :: w in words && Contains(text, w)
  }

  /** Python's `any(w in text for w in words)`. */
  function AnyOccurs(text: string, words: seq<string>): (r: bool)
    ensures r <==> MentionsSome(text, words)
  {
    if words == [] then false
    else
      var r := Occurs(words[0], text) || AnyOccurs(text, words[1..]);
      assert forall w :: w in words <==> w == words[0] || w in words[1..];
      r
  }

  /** `_determine_viz_type`: the first keyword group present in the
      lower-cased user turn decides; without any, a bar chart. */
  function DetermineVizType(userInput: string): (f: ChartFamily)
    ensures var u := Lower(userInput);
      && (f == Comparison <==> MentionsSome(u, ComparisonWords))
      && (f == Timeline <==> !MentionsSome(u, ComparisonWords) && MentionsSome(u, TimelineWords))
      && (f == Pie <==> !MentionsSome(u, ComparisonWords) && !MentionsSome(u, TimelineWords)
                        && MentionsSome(u, PieWords))
      && (f == TableView <==> !MentionsSome(u, ComparisonWords) && !MentionsSome(u, TimelineWords)
                              && !MentionsSome(u, PieWords) && MentionsSome(u, TableWords))
      && (f == Bar <==> !MentionsSome(u, ComparisonWords) && !MentionsSome(u, TimelineWords)
                        && !MentionsSome(u, PieWords) && !MentionsSome(u, TableWords))
  {
    var u := Lower(userInput);
    if AnyOccurs(u, ComparisonWords) then Comparison
    else if AnyOccurs(u, TimelineWords) then Timeline
    else if AnyOccurs(u, PieWords) then Pie
    else if AnyOccurs(u, TableWords) then TableView
    else Bar
  }

  /** `'1.' in r or '2.' in r or '-' in r`: a plain substring test anywhere in
      the reply, not a test at the start of a line. */
  predicate HasListMarker(response: string): (b: bool)
    ensures b <==> Contains(response, "1.") || Contains(response, "2.") || Contains(response, "-")
  {
    Occurs("1.", response) || Occurs("2.", response) || Occurs("-", response)
  }

  /** `detect_data_request`. */
  function DetectDataRequest(userInput: string, botResponse: string): (d: DataRequest)
    ensures d.needsVisualization <==> MentionsSome(Lower(userInput), VizKeywords)
    ensures d.hasData <==>
              (HasDigit(botResponse)
               && (Contains(botResponse, "1.") || Contains(botResponse, "2.") || Contains(botResponse, "-")))
    ensures d.family == DetermineVizType(userInput)
  {
    DataRequest(AnyOccurs(Lower(userInput), VizKeywords),
                HasDigit(botResponse) && HasListMarker(botResponse),
                DetermineVizType(userInput))
  }

  // ---------------------------------------------------------------------
  // Properties

  /** Only the letters' case-folded form matters: two turns that differ in
      upper/lower case get the same classification, whatever the reply. */
  lemma CaseInsensitive(u1: string, u2: string, r: string)
    requires Lower(u1) == Lower(u2)
    ensures DetectDataRequest(u1, r) == DetectDataRequest(u2, r)
  {
  }

  /** Lower-casing the turn first changes nothing. */
  lemma LowerInputSameRequest(u: string, r: string)
    ensures DetectDataRequest(Lower(u), r) == DetectDataRequest(u, r)
  {
    LowerIdempotent(u);
  }

  /** The reply plays no part in whether a chart is wanted or which family. */
  lemma ResponseIrrelevantToIntent(u: string, r1: string, r2: string)
    ensures DetectDataRequest(u, r1).needsVisualization == DetectDataRequest(u, r2).needsVisualization
    ensures DetectDataRequest(u, r1).family == DetectDataRequest(u, r2).family
  {
  }

  /** A reply without any digit never counts as data-bearing. */
  lemma NoDigitNoData(u: string, r: string)
    requires forall k :: 0 <= k < |r| ==> !IsDigit(r[k])
    ensures !DetectDataRequest(u, r).hasData
  {
  }

  /** Comparison outranks every other group: a turn mentioning both
      "perbandingan" and "tabel" asks for a comparison chart. */
  lemma ComparisonWins(u: string)
    requires Contains(Lower(u), "perbandingan")
    ensures DetermineVizType(u) == Comparison
  {
    assert "perbandingan" in ComparisonWords;
  }

  /** Each group wins over the groups after it. */
  lemma TimelineBeatsPieAndTable(u: string)
    requires !MentionsSome(Lower(u), ComparisonWords) && Contains(Lower(u), "trend")
    ensures DetermineVizType(u) == Timeline
  {
    assert "trend" in TimelineWords;
  }

  /** "tabel" both asks for a visualization and, absent the earlier groups,
      selects the table family. */
  lemma TableFamilyFromTabel(u: string)
    requires Contains(Lower(u), "tabel")
    requires !MentionsSome(Lower(u), ComparisonWords + TimelineWords + PieWords)
    ensures DetectDataRequest(u, "").needsVisualization
    ensures DetermineVizType(u) == TableView
  {
    assert "tabel" in TableWords;
    assert "tabel" in VizKeywords;
  }
}
