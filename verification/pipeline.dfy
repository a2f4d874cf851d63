/** `create_visualization` / `create_table` (only their dispatch and the
    empty-data guard; the plotly figure and the DataFrame are not modelled) and
    `ChatManager.process_response_with_visualization`. */
module Pipeline {
  import opened Wrappers
  import opened Strings
  import opened Intent
  import opened Extraction

  /** Which plotly figure `create_visualization` builds. */
  datatype ChartKind =
    | ShadedBar       // px.bar coloured by value on a blue scale, labels tilted
    | PieSlices       // px.pie of the values
    | CategoricalBar  // px.bar with one colour per label
    | SplineLine      // px.line with markers and spline smoothing
    | PlainBar        // the fallback px.bar

  /** One plotted datum: a record's label and value. */
  datatype Point = Point(name: string, value: Numeral)

  datatype Chart = Chart(kind: ChartKind, title: string, points: seq<Point>)

  /** The DataFrame `create_table` returns: the records themselves. */
  datatype Table = Table(rows: seq<Record>)

  /** The dictionary `process_response_with_visualization` returns. */
  datatype Processed = Processed(
    response: string,
    visualization: Option<Chart>,
    table: Option<Table>,
    vizType: Option<ChartFamily>)

  const ChartTitle: string := "Academic Data Visualization"

  /** The figure each chart family gets; any other type string falls through
      to the plain bar, and `TableView` is the only family that can reach it. */
  function KindOf(f: ChartFamily): (k: ChartKind)
    ensures k == PlainBar <==> f == TableView
  {
    match f
    case Bar => ShadedBar
    case Pie => PieSlices
    case Comparison => CategoricalBar
    case Timeline => SplineLine
    case TableView => PlainBar
  }

  /** No two families share a figure. */
  lemma KindOfInjective(f: ChartFamily, g: ChartFamily)
    requires KindOf(f) == KindOf(g)
    ensures f == g
  {
  }

  /** One point per record, in order; duplicates are not merged. */
  function PointsOf(data: seq<Record>): (ps: seq<Point>)
    ensures |ps| == |data|
    ensures forall k :: 0 <= k < |data| ==>
              ps[k].name == data[k].name && ps[k].value == data[k].value
  {
    seq(|data|, k requires 0 <= k < |data| => Point(data[k].name, data[k].value))
  }

  /** `create_visualization`: no figure for no data. */
  function CreateVisualization(data: seq<Record>, family: ChartFamily, title: string): (c: Option<Chart>)
    ensures c.None? <==> data == []
    ensures c.Some? ==> && c.value.kind == KindOf(family) && c.value.title == title
                        && |c.value.points| == |data|
                        && forall k :: 0 <= k < |data| ==>
                             c.value.points[k] == Point(data[k].name, data[k].value)
  {
    if data == [] then None else Some(Chart(KindOf(family), title, PointsOf(data)))
  }

  /** `create_table`: no table for no data; otherwise the rows unchanged. */
  function CreateTable(data: seq<Record>): (t: Option<Table>)
    ensures t.None? <==> data == []
    ensures t.Some? ==> t.value.rows == data
  {
    if data == [] then None else Some(Table(data))
  }

  /** Whether the reply gets any visualization at all: the user asked for one,
      the reply looks data-bearing, and extraction found at least one record. */
  ghost predicate Augmented(userInput: string, botResponse: string) {
    var d := DetectDataRequest(userInput, botResponse);
    d.needsVisualization && d.hasData && ExtractData(botResponse) != []
  }

  /** `process_response_with_visualization`. */
  function ProcessResponse(userInput: string, botResponse: string): (p: Processed)
    ensures p.response == botResponse
    ensures !(p.visualization.Some? && p.table.Some?)
    ensures (p.visualization.Some? || p.table.Some?) <==> Augmented(userInput, botResponse)
    ensures p.table.Some? <==> Augmented(userInput, botResponse) && DetermineVizType(userInput) == TableView
    ensures p.table.Some? ==> p.table.value.rows == ExtractData(botResponse)
    ensures p.vizType.Some? <==> p.visualization.Some?
    ensures p.visualization.Some? ==>
              && p.vizType == Some(DetermineVizType(userInput))
              && p.visualization.value.kind == KindOf(DetermineVizType(userInput))
              && p.visualization.value.title == ChartTitle
              && p.visualization.value.points == PointsOf(ExtractData(botResponse))
  {
    var info := DetectDataRequest(userInput, botResponse);
    var none := Processed(botResponse, None, None, None);
    if info.needsVisualization && info.hasData then
      var data := ExtractData(botResponse);
      if data != [] then
        if info.family == TableView then
          none.(table := CreateTable(data))
        else
          none.(visualization := CreateVisualization(data, info.family, ChartTitle),
                vizType := Some(info.family))
      else none
    else none
  }

  // ---------------------------------------------------------------------
  // Properties

  /** A reply without digits is returned bare, whatever the user asked. */
  lemma NoDigitsNoVisualization(userInput: string, botResponse: string)
    requires forall k :: 0 <= k < |botResponse| ==> !IsDigit(botResponse[k])
    ensures ProcessResponse(userInput, botResponse) == Processed(botResponse, None, None, None)
  {
    NoDigitNoData(userInput, botResponse);
  }

  /** Without a visualization keyword in the turn, the reply is returned bare
      even when it is full of data. */
  lemma NoKeywordNoVisualization(userInput: string, botResponse: string)
    requires !MentionsSome(Lower(userInput), VizKeywords)
    ensures ProcessResponse(userInput, botResponse) == Processed(botResponse, None, None, None)
  {
  }

  /** The table family never yields a chart, and a chart is never of the
      fallback kind. */
  lemma ChartNeverPlain(userInput: string, botResponse: string)
    ensures ProcessResponse(userInput, botResponse).visualization.Some? ==>
              ProcessResponse(userInput, botResponse).visualization.value.kind != PlainBar
  {
  }
}
