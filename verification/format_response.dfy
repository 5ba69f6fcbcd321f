/** The report formatter (scripts/format_response.py): a decoded reply body
    rendered as a fixed sequence of lines joined by newlines, or an error
    text carrying the undecodable input. JSON decoding and the clock are
    inputs. */
module FormatResponse {
  import opened Results
  import opened Text

  /** The outer reply; `body` is `None` when the key is absent. */
  datatype OuterResponse = OuterResponse(body: Option<string>)

  /** The decoded body; a field is `None` when its key is absent. */
  datatype ReportBody = ReportBody(originalStory: Option<string>, originalCriteria: Option<seq<string>>, analysis: Option<string>)

  const Width: nat := 80
  const Title: string := "AGILE STORY ANALYSIS REPORT"
  const StoryHeader: string := "ORIGINAL STORY:"
  const CriteriaHeader: string := "\nORIGINAL ACCEPTANCE CRITERIA:"
  const AnalysisHeader: string := "\nANALYSIS:"

  /** A rule of `Width` copies of `c`. */
  function Rule(c: char): (r: string)
    ensures |r| == Width && forall i :: 0 <= i < |r| ==> r[i] == c
  {
    Repeat(c, Width)
  }

  /** The criteria are shown only when present and non-empty (Python
      truthiness of the list). */
  function ShownCriteria(body: ReportBody): (cs: seq<string>)
    ensures |cs| > 0 <==> body.originalCriteria.Some? && |body.originalCriteria.value| > 0
    ensures |cs| > 0 ==> cs == body.originalCriteria.value
  {
    body.originalCriteria.GetOr([])
  }

  function GeneratedLine(now: string): string {
    "\nGenerated at: " + now + "\n"
  }

  /** The header block, down to the original story. */
  function HeadLines(body: ReportBody, now: string): (ls: seq<string>)
    ensures |ls| == 8
  {
    [Rule('='), Title, Rule('='), GeneratedLine(now), Rule('-'), StoryHeader, Rule('-'), body.originalStory.GetOr("")]
  }

  /** The criteria block: a header, a rule and one bullet per criterion. */
  function CriteriaLines(criteria: seq<string>): (ls: seq<string>)
    ensures |criteria| == 0 <==> ls == []
    ensures |criteria| > 0 ==> |ls| == 2 + |criteria|
  {
    if |criteria| == 0 then [] else [CriteriaHeader, Rule('-')] + Bullets(criteria)
  }

  /** The analysis block. */
  function TailLines(body: ReportBody): (ls: seq<string>)
    ensures |ls| == 3
  {
    [AnalysisHeader, Rule('-'), body.analysis.GetOr("")]
  }

  /** The `output` list of `format_analysis`. */
  function ReportLines(body: ReportBody, now: string): (ls: seq<string>)
    ensures var cs := ShownCriteria(body);
            |ls| == 11 + (if |cs| > 0 then 2 + |cs| else 0)
  {
    HeadLines(body, now) + CriteriaLines(ShownCriteria(body)) + TailLines(body)
  }

  /** The fixed frame of the report: title between `=` rules at the top,
      the story header and the story in slots 5 and 7, and the analysis
      header, a `-` rule and the analysis at the bottom. */
  lemma ReportFrame(body: ReportBody, now: string)
    ensures var ls := ReportLines(body, now);
            && ls[0] == Rule('=') && ls[1] == Title && ls[2] == Rule('=')
            && ls[5] == StoryHeader && ls[7] == body.originalStory.GetOr("")
            && ls[|ls| - 3] == AnalysisHeader && ls[|ls| - 2] == Rule('-') && ls[|ls| - 1] == body.analysis.GetOr("")
  {
    var head, crit, tail := HeadLines(body, now), CriteriaLines(ShownCriteria(body)), TailLines(body);
    ConcatIndex(head, crit, tail);
  }

  /** The line after the story is the criteria header exactly when there
      are criteria to show, and the criteria follow it and a rule, one
      bullet each, in order. */
  lemma ReportCriteriaSlots(body: ReportBody, now: string)
    ensures var ls := ReportLines(body, now);
            ls[8] == CriteriaHeader <==> |ShownCriteria(body)| > 0
    ensures var ls, cs := ReportLines(body, now), ShownCriteria(body);
            forall k :: 0 <= k < |cs| ==> ls[10 + k] == "- " + cs[k]
  {
    var head, crit, tail := HeadLines(body, now), CriteriaLines(ShownCriteria(body)), TailLines(body);
    ConcatIndex(head, crit, tail);
    assert ReportLines(body, now) == head + crit + tail;
    assert CriteriaHeader[1] != AnalysisHeader[1];
  }

  /** Where the elements of the three parts of a concatenation sit. */
  lemma ConcatIndex<T>(a: seq<T>, b: seq<T>, c: seq<T>)
    ensures |a + b + c| == |a| + |b| + |c|
    ensures forall i :: 0 <= i < |a| ==> (a + b + c)[i] == a[i]
    ensures forall i :: 0 <= i < |b| ==> (a + b + c)[|a| + i] == b[i]
    ensures forall i :: 0 <= i < |c| ==> (a + b + c)[|a| + |b| + i] == c[i]
  {
  }

  /** Joining at least four lines: the first three, each followed by the
      separator, then the join of the rest. */
  lemma JoinFirstThree(ls: seq<string>, sep: string)
    requires |ls| >= 4
    ensures Join(ls, sep) == ls[0] + sep + (ls[1] + sep + (ls[2] + sep + Join(ls[3..], sep)))
  {
    assert ls[1..][1..] == ls[2..] && ls[2..][1..] == ls[3..];
    JoinStep(ls, sep);
    JoinStep(ls[1..], sep);
    JoinStep(ls[2..], sep);
  }

  /** Joining at least two lines: the first, the separator, and the join
      of the rest. */
  lemma JoinStep(ls: seq<string>, sep: string)
    requires |ls| >= 2
    ensures Join(ls, sep) == ls[0] + sep + Join(ls[1..], sep)
  {
  }

  /** Joining at least four lines ends with the last three, each after the
      separator. */
  lemma JoinLastThree(ls: seq<string>, sep: string)
    requires |ls| >= 4
    ensures var n := |ls|;
            Join(ls, sep) == Join(ls[..n - 3], sep) + sep + (ls[n - 3] + sep + (ls[n - 2] + sep + ls[n - 1]))
  {
    var n := |ls|;
    var front, last := ls[..n - 3], ls[n - 3..];
    assert ls == front + last;
    JoinAppend(front, last, sep);
    JoinStep(last, sep);
    JoinStep(last[1..], sep);
    assert last[1..][1..] == [ls[n - 1]];
  }

  /** The report text opens with the title between two `=` rules, one per
      line, followed by the rest of the report. */
  lemma ReportOpens(body: ReportBody, now: string)
    ensures var ls := ReportLines(body, now);
            Join(ls, "\n") == Rule('=') + "\n" + (Title + "\n" + (Rule('=') + "\n" + Join(ls[3..], "\n")))
  {
    ReportFrame(body, now);
    JoinFirstThree(ReportLines(body, now), "\n");
  }

  /** The report text closes with the analysis header, a `-` rule and the
      analysis, one per line. */
  lemma ReportCloses(body: ReportBody, now: string)
    ensures var ls := ReportLines(body, now);
            Join(ls, "\n") == Join(ls[..|ls| - 3], "\n") + "\n" + (AnalysisHeader + "\n" + (Rule('-') + "\n" + body.analysis.GetOr("")))
  {
    ReportFrame(body, now);
    JoinLastThree(ReportLines(body, now), "\n");
  }

  /** When there are criteria, the report carries their block: its header,
      a `-` rule and the bullets, one per line, between the story and the
      analysis. */
  lemma ReportCriteriaBlock(body: ReportBody, now: string)
    requires |ShownCriteria(body)| > 0
    ensures Join(ReportLines(body, now), "\n")
         == Join(HeadLines(body, now), "\n") + "\n"
            + (CriteriaHeader + "\n" + Rule('-') + "\n" + Join(Bullets(ShownCriteria(body)), "\n"))
            + "\n" + Join(TailLines(body), "\n")
  {
    var head, bs, tail := HeadLines(body, now), Bullets(ShownCriteria(body)), TailLines(body);
    assert ReportLines(body, now) == head + ([CriteriaHeader, Rule('-')] + bs) + tail;
    JoinBlock(head, CriteriaHeader, Rule('-'), bs, tail, "\n");
  }

  /** Joining a head, a block of two opening lines and its items, and a
      tail. */
  lemma JoinBlock(head: seq<string>, h: string, r: string, items: seq<string>, tail: seq<string>, sep: string)
    requires |head| >= 1 && |items| >= 1 && |tail| >= 1
    ensures Join(head + ([h, r] + items) + tail, sep)
         == Join(head, sep) + sep + (h + sep + r + sep + Join(items, sep)) + sep + Join(tail, sep)
  {
    var block := [h, r] + items;
    JoinAppend(head + block, tail, sep);
    JoinAppend(head, block, sep);
    JoinAppend([h, r], items, sep);
    assert [h, r][1..] == [r];
  }

  /** Without criteria the story is followed directly by the analysis
      block. */
  lemma ReportWithoutCriteria(body: ReportBody, now: string)
    requires |ShownCriteria(body)| == 0
    ensures Join(ReportLines(body, now), "\n")
         == Join(HeadLines(body, now), "\n") + "\n" + Join(TailLines(body), "\n")
  {
    assert ReportLines(body, now) == HeadLines(body, now) + TailLines(body);
    JoinAppend(HeadLines(body, now), TailLines(body), "\n");
  }

  /** The first three lines of every report. */
  function Opening(): string {
    Rule('=') + "\n" + Title + "\n" + Rule('=') + "\n"
  }

  /** The last three lines of a report on `analysis`. */
  function Closing(analysis: string): string {
    "\n" + AnalysisHeader + "\n" + Rule('-') + "\n" + analysis
  }

  /** A report text opens with the title block and closes with the
      analysis block. */
  lemma ReportBrackets(body: ReportBody, now: string)
    ensures StartsWith(Join(ReportLines(body, now), "\n"), Opening())
    ensures EndsWith(Join(ReportLines(body, now), "\n"), Closing(body.analysis.GetOr("")))
  {
    var ls := ReportLines(body, now);
    ReportOpens(body, now);
    ReportCloses(body, now);
    PrefixOfJoin(Rule('='), Title, Join(ls[3..], "\n"));
    SuffixOfJoin(Join(ls[..|ls| - 3], "\n"), AnalysisHeader, Rule('-'), body.analysis.GetOr(""));
  }

  lemma PrefixOfJoin(e: string, t: string, rest: string)
    ensures StartsWith(e + "\n" + (t + "\n" + (e + "\n" + rest)), e + "\n" + t + "\n" + e + "\n")
  {
    var text := e + "\n" + (t + "\n" + (e + "\n" + rest));
    var o := e + "\n" + t + "\n" + e + "\n";
    assert text == o + rest;
    assert text[..|o|] == o;
  }

  lemma SuffixOfJoin(front: string, h: string, d: string, a: string)
    ensures EndsWith(front + "\n" + (h + "\n" + (d + "\n" + a)), "\n" + h + "\n" + d + "\n" + a)
  {
    var text := front + "\n" + (h + "\n" + (d + "\n" + a));
    var c := "\n" + h + "\n" + d + "\n" + a;
    assert text == front + c;
    assert text[|text| - |c|..] == c;
  }

  const ErrorPrefix: string := "Error formatting response: "
  const OriginalMarker: string := "\n\nOriginal response:\n"

  /** The text returned from the `except` branch. */
  function ErrorReport(message: string, responseJson: string): (r: string)
    ensures StartsWith(r, ErrorPrefix)
    ensures |r| == |ErrorPrefix| + |message| + |OriginalMarker| + |responseJson|
    ensures r[|ErrorPrefix|..|ErrorPrefix| + |message|] == message
    ensures r[|r| - |OriginalMarker + responseJson|..] == OriginalMarker + responseJson
  {
    ErrorPrefix + message + OriginalMarker + responseJson
  }

  /** `format_analysis(response_json)`. `outer` is the outcome of decoding
      `response_json`, `loads` decodes the body text (an absent body is
      decoded from `{}`), and `now` is the formatted clock reading. */
  function FormatAnalysis(responseJson: string, outer: Result<OuterResponse>, loads: string -> Result<ReportBody>, now: string): (r: string)
    ensures outer.Raised? ==> r == ErrorReport(outer.reason, responseJson)
    ensures outer.Ok? && loads(outer.value.body.GetOr("{}")).Raised? ==>
              r == ErrorReport(loads(outer.value.body.GetOr("{}")).reason, responseJson)
    ensures outer.Raised? || loads(outer.value.body.GetOr("{}")).Raised? ==>
              StartsWith(r, ErrorPrefix) && EndsWith(r, OriginalMarker + responseJson)
    ensures outer.Ok? && loads(outer.value.body.GetOr("{}")).Ok? ==>
              var body := loads(outer.value.body.GetOr("{}")).value;
              StartsWith(r, Opening()) && EndsWith(r, Closing(body.analysis.GetOr("")))
    ensures outer.Ok? && loads(outer.value.body.GetOr("{}")).Ok? ==>
              r == Join(ReportLines(loads(outer.value.body.GetOr("{}")).value, now), "\n")
  {
    match outer
    case Raised(e) => ErrorReport(e, responseJson)
    case Ok(response) =>
      match loads(response.body.GetOr("{}"))
      case Raised(e) => ErrorReport(e, responseJson)
      case Ok(body) =>
        ReportBrackets(body, now);
        Join(ReportLines(body, now), "\n")
  }

  /** A reply without a `body` key is formatted as the empty body `{}`:
      a report with an empty story, no criteria block and an empty
      analysis, provided decoding `{}` gives a body without any of the
      keys. */
  lemma AbsentBodyReport(responseJson: string, loads: string -> Result<ReportBody>, now: string)
    requires loads("{}") == Ok(ReportBody(None, None, None))
    ensures var r := FormatAnalysis(responseJson, Ok(OuterResponse(None)), loads, now);
            && r == Join(HeadLines(ReportBody(None, None, None), now), "\n") + "\n" + Join(TailLines(ReportBody(None, None, None)), "\n")
            && HeadLines(ReportBody(None, None, None), now)[7] == ""
            && TailLines(ReportBody(None, None, None))[2] == ""
            && EndsWith(r, Closing(""))
  {
    var empty := ReportBody(None, None, None);
    ReportWithoutCriteria(empty, now);
    ReportBrackets(empty, now);
  }
}
