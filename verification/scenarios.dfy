/** Two example turns, stated as lemmas about the model: a request for a
    comparison chart of three scores, and a question that wants no chart. */
module Scenarios {
  import opened Wrappers
  import opened Strings
  import opened Intent
  import opened Extraction
  import opened Lists
  import opened Pipeline

  /** A reply listing three students' scores, one line per student. The
      texts below are written in their parts (lines, word groups) so that
      where each part sits can be read off the definition. */
  const Scores: string := "1. Andi: 85" + "\n" + "2. Budi: 90" + "\n" + "3. Citra: 78"
  /** "Show a comparison chart of the students' scores." */
  const AskComparison: string := "Tunjukkan " + "grafik" + " " + "perbandingan" + " nilai mahasiswa"

  const ScoreItems: seq<ListItem> := [
    ListItem(Numbered("1"), "Andi", "85"),
    ListItem(Numbered("2"), "Budi", "90"),
    ListItem(Numbered("3"), "Citra", "78")]

  const ScoreRecords: seq<Record> := [
    Record("Andi", Numeral("85", ""), "85"),
    Record("Budi", Numeral("90", ""), "90"),
    Record("Citra", Numeral("78", ""), "78")]

  lemma ScoreItemsPlain()
    ensures forall k :: 0 <= k < |ScoreItems| ==> PlainItem(ScoreItems[k])
  {
    WordItemPlain(Numbered("1"), "Andi", "85");
    WordItemPlain(Numbered("2"), "Budi", "90");
    WordItemPlain(Numbered("3"), "Citra", "78");
  }

  lemma AndiLine()
    ensures ItemLine(ListItem(Numbered("1"), "Andi", "85")) == "1. Andi: 85"
  {
  }

  lemma BudiLine()
    ensures ItemLine(ListItem(Numbered("2"), "Budi", "90")) == "2. Budi: 90"
  {
  }

  lemma CitraLine()
    ensures ItemLine(ListItem(Numbered("3"), "Citra", "78")) == "3. Citra: 78"
  {
  }

  lemma ScoreLines()
    ensures ItemLines(ScoreItems) == ["1. Andi: 85", "2. Budi: 90", "3. Citra: 78"]
  {
    var its := ScoreItems;
    AndiLine();
    BudiLine();
    CitraLine();
    assert ItemLines(its[3..]) == [];
    assert ItemLines(its[2..]) == ["3. Citra: 78"];
    assert ItemLines(its[1..]) == ["2. Budi: 90", "3. Citra: 78"];
  }

  lemma ScoresJoined(ls: seq<string>)
    requires ls == ["1. Andi: 85", "2. Budi: 90", "3. Citra: 78"]
    ensures JoinLines(ls) == Scores
  {
    assert JoinLines(ls[2..]) == "3. Citra: 78";
    assert JoinLines(ls[1..]) == "2. Budi: 90" + "\n" + "3. Citra: 78";
  }

  lemma ScoreRecordsRead()
    ensures forall k :: 0 <= k < |ScoreItems| ==> PlainItem(ScoreItems[k])
    ensures ItemRecords(ScoreItems) == ScoreRecords
  {
    var its := ScoreItems;
    ScoreItemsPlain();
    assert PlainItem(its[0]) && PlainItem(its[1]) && PlainItem(its[2]);
    DigitsAreNumeral("85");
    DigitsAreNumeral("90");
    DigitsAreNumeral("78");
    assert RecordOfItem(its[0]) == ScoreRecords[0];
    assert RecordOfItem(its[1]) == ScoreRecords[1];
    assert RecordOfItem(its[2]) == ScoreRecords[2];
    assert ItemRecords(its[3..]) == [];
    assert ItemRecords(its[2..]) == ScoreRecords[2..];
    assert ItemRecords(its[1..]) == ScoreRecords[1..];
  }

  /** The reply is the three items' lines, joined. */
  lemma ScoresAreList()
    ensures Scores == JoinLines(ItemLines(ScoreItems))
  {
    ScoreLines();
    ScoresJoined(ItemLines(ScoreItems));
  }

  /** Three numbered "Name: score" lines give three records, in order. */
  lemma ScoresExtracted()
    ensures ExtractData(Scores) == ScoreRecords
  {
    ScoreItemsPlain();
    ScoresAreList();
    PlainListExtracted(ScoreItems);
    ScoreRecordsRead();
  }

  lemma AskHasGrafik()
    ensures OccursAt(AskComparison, "grafik", 10)
  {
    var a := "Tunjukkan ";
    OccursEnd(a, "grafik");
    OccursExtend(a + "grafik", "grafik", 10, " ");
    OccursExtend(a + "grafik" + " ", "grafik", 10, "perbandingan");
    OccursExtend(a + "grafik" + " " + "perbandingan", "grafik", 10, " nilai mahasiswa");
  }

  lemma AskHasPerbandingan()
    ensures OccursAt(AskComparison, "perbandingan", 17)
  {
    var a := "Tunjukkan " + "grafik" + " ";
    OccursEnd(a, "perbandingan");
    OccursExtend(a + "perbandingan", "perbandingan", 17, " nilai mahasiswa");
  }

  lemma AskMentions()
    ensures Contains(Lower(AskComparison), "grafik") && Contains(Lower(AskComparison), "perbandingan")
  {
    AskHasGrafik();
    AskHasPerbandingan();
    assert NoUpper("grafik") && NoUpper("perbandingan");
    LowerKeepsLowerWord(AskComparison, "grafik", 10);
    LowerKeepsLowerWord(AskComparison, "perbandingan", 17);
  }

  /** The reply, being a numbered list, holds a digit and the marker "1.". */
  lemma ScoresLookLikeData()
    ensures HasDigit(Scores) && Contains(Scores, "1.")
  {
    ScoreItemsPlain();
    ScoresAreList();
    PlainListLooksLikeData(ScoreItems);
    assert MarkerText(ScoreItems[0].marker) == "1.";
  }

  /** A turn mentioning "grafik" and "perbandingan" asks for a comparison
      chart, and a reply with a digit and "1." is data-bearing. */
  lemma ComparisonRequest(u: string, r: string)
    requires Contains(Lower(u), "grafik") && Contains(Lower(u), "perbandingan")
    requires HasDigit(r) && Contains(r, "1.")
    ensures DetectDataRequest(u, r) == DataRequest(true, true, Comparison)
  {
    assert "grafik" in VizKeywords;
    ComparisonWins(u);
  }

  /** The turn asks for a chart ("grafik") of the comparison family
      ("perbandingan"), and the reply is data-bearing. */
  lemma AskComparisonDetected()
    ensures DetectDataRequest(AskComparison, Scores) == DataRequest(true, true, Comparison)
  {
    AskMentions();
    ScoresLookLikeData();
    ComparisonRequest(AskComparison, Scores);
  }

  lemma ScorePoints()
    ensures PointsOf(ScoreRecords) == [
        Point("Andi", Numeral("85", "")),
        Point("Budi", Numeral("90", "")),
        Point("Citra", Numeral("78", ""))]
  {
  }

  /** Asking for a comparison chart of the scores yields a comparison chart
      with one bar per student, in the reply's order, and no table. */
  lemma ComparisonChartScenario()
    ensures ProcessResponse(AskComparison, Scores) == Processed(
      Scores,
      Some(Chart(CategoricalBar, ChartTitle, [
        Point("Andi", Numeral("85", "")),
        Point("Budi", Numeral("90", "")),
        Point("Citra", Numeral("78", ""))])),
      None,
      Some(Comparison))
  {
    AskComparisonDetected();
    ScoresExtracted();
    ComparisonChartOf(AskComparison, Scores, ScoreRecords);
    ScorePoints();
  }

  lemma ComparisonChartOf(u: string, r: string, data: seq<Record>)
    requires DetectDataRequest(u, r) == DataRequest(true, true, Comparison)
    requires ExtractData(r) == data && data != []
    ensures ProcessResponse(u, r) ==
              Processed(r, Some(Chart(CategoricalBar, ChartTitle, PointsOf(data))), None, Some(Comparison))
  {
  }

  /** "Who is my thesis supervisor?" and its answer. */
  const AskSupervisor: string := "siapa dosen pembimbing saya"
  const SupervisorReply: string := "Dosen pembimbing Anda adalah Bapak Dedi."

  /** The only characters of the question. */
  lemma SupervisorAskAlphabet()
    ensures forall c :: c in AskSupervisor ==> c in "siapdonembgy "
  {
  }

  lemma SupervisorAskLower()
    ensures Lower(AskSupervisor) == AskSupervisor
  {
    SupervisorAskAlphabet();
    NoUpperLower(AskSupervisor);
  }

  lemma SupervisorAskLetters()
    ensures 'r' !in AskSupervisor && 't' !in AskSupervisor && 'c' !in AskSupervisor
    ensures 'l' !in AskSupervisor
  {
    SupervisorAskAlphabet();
    assert 'r' !in "siapdonembgy " && 't' !in "siapdonembgy ";
    assert 'c' !in "siapdonembgy " && 'l' !in "siapdonembgy ";
  }

  /** Every visualization keyword has one of the letters 'r', 't', 'c' or
      'l', so a turn without those letters asks for no visualization. */
  lemma KeywordsNeedLetters(u: string)
    requires 'r' !in u && 't' !in u && 'c' !in u && 'l' !in u
    ensures !MentionsSome(u, VizKeywords)
  {
    forall w | w in VizKeywords
      ensures !Contains(u, w)
    {
      if 'r' in w {
        MissingCharNotContained(u, w, 'r');
      } else if 't' in w {
        MissingCharNotContained(u, w, 't');
      } else if 'c' in w {
        MissingCharNotContained(u, w, 'c');
      } else {
        MissingCharNotContained(u, w, 'l');
      }
    }
  }

  /** A question that asks for no chart gets its answer back bare: no chart,
      no table, no chart family. */
  lemma PlainAnswerScenario()
    ensures ProcessResponse(AskSupervisor, SupervisorReply) == Processed(SupervisorReply, None, None, None)
  {
    SupervisorAskLower();
    SupervisorAskLetters();
    KeywordsNeedLetters(Lower(AskSupervisor));
    NoKeywordNoVisualization(AskSupervisor, SupervisorReply);
  }
}
