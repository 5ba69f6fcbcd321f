/** Packaging of the two analysis stages (ai/shared/story_analyzer.py): the
    story and result records with their dictionary forms, the bulleted list
    rendering used in prompts, and the success/error envelopes built around
    a completion call that is an input here. */
module StoryAnalyzer {
  import opened Results
  import opened Text

  /** The JSON-like values `to_dict` produces. */
  datatype Json = JNull | JBool(b: bool) | JInt(i: int) | JStr(s: string) | JArr(items: seq<Json>) | JObj(fields: map<string, Json>)

  datatype Story = Story(text: string, acceptanceCriteria: seq<string>, context: string, version: int)

  /** `Story(text, acceptance_criteria, context)`: the version defaults to 1. */
  function NewStory(text: string, acceptanceCriteria: seq<string>, context: string): (s: Story)
    ensures s.version == 1
    ensures s.text == text && s.acceptanceCriteria == acceptanceCriteria && s.context == context
  {
    Story(text, acceptanceCriteria, context, 1)
  }

  const StoryKeys: set<string> := {"text", "acceptance_criteria", "context", "version"}

  function StringsToJson(ss: seq<string>): (js: seq<Json>)
    ensures |js| == |ss| && forall i :: 0 <= i < |ss| ==> js[i] == JStr(ss[i])
  {
    seq(|ss|, i requires 0 <= i < |ss| => JStr(ss[i]))
  }

  /** The strings of a JSON list, or `None` when an item is not a string. */
  function StringsFromJson(js: seq<Json>): (r: Option<seq<string>>)
    ensures r.Some? <==> forall i :: 0 <= i < |js| ==> js[i].JStr?
    ensures r.Some? ==> |r.value| == |js|
    decreases |js|
  {
    if |js| == 0 then Some([])
    else if !js[0].JStr? then None
    else
      match StringsFromJson(js[1..])
      case None => None
      case Some(rest) => Some([js[0].s] + rest)
  }

  lemma {:induction false} StringsRoundTrip(ss: seq<string>)
    ensures StringsFromJson(StringsToJson(ss)) == Some(ss)
    decreases |ss|
  {
    if |ss| > 0 {
      assert StringsToJson(ss)[1..] == StringsToJson(ss[1..]);
      StringsRoundTrip(ss[1..]);
      assert ss == [ss[0]] + ss[1..];
    }
  }

  lemma {:induction false} StringsFromJsonInverse(js: seq<Json>)
    requires StringsFromJson(js).Some?
    ensures StringsToJson(StringsFromJson(js).value) == js
    decreases |js|
  {
    if |js| > 0 {
      StringsFromJsonInverse(js[1..]);
      var ss := StringsFromJson(js).value;
      assert ss[1..] == StringsFromJson(js[1..]).value;
      assert StringsToJson(ss)[1..] == StringsToJson(ss[1..]);
    }
  }

  /** `Story.to_dict()`: `asdict` of the four fields. */
  function StoryToDict(s: Story): (j: Json)
    ensures j.JObj? && j.fields.Keys == StoryKeys
  {
    JObj(map["text" := JStr(s.text),
             "acceptance_criteria" := JArr(StringsToJson(s.acceptanceCriteria)),
             "context" := JStr(s.context),
             "version" := JInt(s.version)])
  }

  /** Reading a story back from its dictionary form: the four keys, no
      others, each with a value of the field's type. */
  function StoryFromDict(j: Json): (r: Option<Story>)
    ensures r.Some? ==> j.JObj? && j.fields.Keys == StoryKeys
  {
    if !j.JObj? || j.fields.Keys != StoryKeys then None
    else
      var f := j.fields;
      assert "text" in f && "acceptance_criteria" in f && "context" in f && "version" in f;
      if !(f["text"].JStr? && f["acceptance_criteria"].JArr? && f["context"].JStr? && f["version"].JInt?) then None
      else
        match StringsFromJson(f["acceptance_criteria"].items)
        case None => None
        case Some(criteria) => Some(Story(f["text"].s, criteria, f["context"].s, f["version"].i))
  }

  /** `to_dict` keeps every field: the story can be read back from it. */
  lemma StoryDictRoundTrip(s: Story)
    ensures StoryFromDict(StoryToDict(s)) == Some(s)
  {
    StringsRoundTrip(s.acceptanceCriteria);
  }

  /** ... and every well-formed story dictionary is the `to_dict` of the
      story read from it. */
  lemma StoryDictInverse(j: Json)
    requires StoryFromDict(j).Some?
    ensures StoryToDict(StoryFromDict(j).value) == j
  {
    var f := j.fields;
    StringsFromJsonInverse(f["acceptance_criteria"].items);
    var g := StoryToDict(StoryFromDict(j).value).fields;
    assert forall k :: k in StoryKeys ==> g[k] == f[k];
    assert g == f;
  }

  /** A stage's result. `suggestions` is a dictionary of arbitrary values. */
  datatype AnalysisResult = AnalysisResult(originalStory: Story, analysis: string, suggestions: map<string, Json>, status: string, timestamp: string)

  const ResultKeys: set<string> := {"original_story", "analysis", "suggestions", "status", "timestamp"}

  /** `AnalysisResult.to_dict()`: the story nested as its own dictionary. */
  function ResultToDict(r: AnalysisResult): (j: Json)
    ensures j.JObj? && j.fields.Keys == ResultKeys
  {
    JObj(map["original_story" := StoryToDict(r.originalStory),
             "analysis" := JStr(r.analysis),
             "suggestions" := JObj(r.suggestions),
             "status" := JStr(r.status),
             "timestamp" := JStr(r.timestamp)])
  }

  function ResultFromDict(j: Json): (r: Option<AnalysisResult>)
    ensures r.Some? ==> j.JObj? && j.fields.Keys == ResultKeys
  {
    if !j.JObj? || j.fields.Keys != ResultKeys then None
    else
      var f := j.fields;
      assert "original_story" in f && "analysis" in f && "suggestions" in f && "status" in f && "timestamp" in f;
      if !(f["analysis"].JStr? && f["suggestions"].JObj? && f["status"].JStr? && f["timestamp"].JStr?) then None
      else
        match StoryFromDict(f["original_story"])
        case None => None
        case Some(story) => Some(AnalysisResult(story, f["analysis"].s, f["suggestions"].fields, f["status"].s, f["timestamp"].s))
  }

  /** The result's dictionary form loses nothing. */
  lemma ResultDictRoundTrip(r: AnalysisResult)
    ensures ResultFromDict(ResultToDict(r)) == Some(r)
  {
    StoryDictRoundTrip(r.originalStory);
  }

  /** Every well-formed result dictionary is the `to_dict` of the result
      read from it. */
  lemma ResultDictInverse(j: Json)
    requires ResultFromDict(j).Some?
    ensures ResultToDict(ResultFromDict(j).value) == j
  {
    var f := j.fields;
    StoryDictInverse(f["original_story"]);
    var g := ResultToDict(ResultFromDict(j).value).fields;
    assert forall k :: k in ResultKeys ==> g[k] == f[k];
    assert g == f;
  }

  const NoneProvided: string := "None provided"

  /** `_format_list(items)`: each item on its own line behind a `- `
      bullet, in order, or `None provided` for an empty list. */
  function FormatList(items: seq<string>): (r: string)
    ensures |items| == 0 <==> r == NoneProvided
    ensures |items| > 0 ==> r == Join(Bullets(items), "\n")
  {
    if |items| == 0 then NoneProvided
    else
      assert Join(Bullets(items), "\n")[0] == '-' by {
        JoinStart(Bullets(items), "\n");
      }
      Join(Bullets(items), "\n")
  }

  lemma {:induction false} JoinStart(parts: seq<string>, sep: string)
    requires |parts| > 0 && |parts[0]| > 0
    ensures |Join(parts, sep)| > 0 && Join(parts, sep)[0] == parts[0][0]
  {
  }

  /** Reading a rendered list back: `None provided` is the empty list;
      otherwise every line must carry the `- ` bullet, which is dropped,
      and a text with an unbulleted line is not a rendered list. */
  function ParseList(text: string): (items: Option<seq<string>>)
  {
    if text == NoneProvided then Some([])
    else
      var lines := Split(text, '\n');
      if forall i :: 0 <= i < |lines| ==> StartsWith(lines[i], "- ") then
        Some(seq(|lines|, i requires 0 <= i < |lines| => lines[i][2..]))
      else None
  }

  /** A list of single-line items is recovered from its rendering: the
      items come out in order and none is lost or invented. */
  lemma FormatListRoundTrip(items: seq<string>)
    requires forall i :: 0 <= i < |items| ==> '\n' !in items[i]
    ensures ParseList(FormatList(items)) == Some(items)
  {
    if |items| > 0 {
      var bs := Bullets(items);
      var text := FormatList(items);
      assert Split(text, '\n') == bs by {
        forall k | 0 <= k < |bs|
          ensures '\n' !in bs[k]
        {
          assert bs[k] == ['-', ' '] + items[k];
        }
        SplitJoin(bs, '\n');
      }
      assert forall i :: 0 <= i < |bs| ==> StartsWith(bs[i], "- ") && bs[i][2..] == items[i] by {
        forall i | 0 <= i < |bs|
          ensures StartsWith(bs[i], "- ") && bs[i][2..] == items[i]
        {
          assert bs[i][..2] == "- ";
        }
      }
      ParseBulleted(text, bs);
      assert ParseList(text).value == items;
    }
  }

  /** A text whose lines all carry the bullet reads back as those lines
      without it. */
  lemma ParseBulleted(text: string, lines: seq<string>)
    requires text != NoneProvided && Split(text, '\n') == lines
    requires forall i :: 0 <= i < |lines| ==> StartsWith(lines[i], "- ")
    ensures ParseList(text).Some? && |ParseList(text).value| == |lines|
    ensures forall i :: 0 <= i < |lines| ==> ParseList(text).value[i] == lines[i][2..]
  {
  }

  /** ... and every text that reads back as a list is that list's
      rendering. */
  lemma FormatListInverse(text: string)
    requires ParseList(text).Some?
    ensures FormatList(ParseList(text).value) == text
  {
    if text != NoneProvided {
      var lines := Split(text, '\n');
      var items := ParseList(text).value;
      var bs := Bullets(items);
      forall i | 0 <= i < |lines|
        ensures bs[i] == lines[i]
      {
        assert lines[i] == lines[i][..2] + lines[i][2..];
      }
      assert bs == lines;
      JoinSplit(text, '\n');
    }
  }

  /** What the completion call ended in: the text of the first choice, or
      the message of the exception it raised. */
  datatype Completion = Completed(content: string) | Failed(message: string)

  const ExtractionNotImplemented: string := "Extraction not implemented"

  /** The extraction helpers: constant placeholders that ignore the
      analysis text. */
  function ExtractImprovedStory(analysis: string): string
  {
    ExtractionNotImplemented
  }

  function ExtractAcceptanceCriteria(analysis: string): seq<string>
  {
    []
  }

  function ExtractInvestAnalysis(analysis: string): map<string, string>
  {
    map[]
  }

  function ExtractFeasibility(analysis: string): string
  {
    ExtractionNotImplemented
  }

  function ExtractImplementationDetails(analysis: string): map<string, Json>
  {
    map[]
  }

  function ExtractComplexity(analysis: string): string
  {
    "Medium"
  }

  /** The extraction helpers do not depend on the analysis text. */
  lemma ExtractorsConstant(a: string, b: string)
    ensures ExtractImprovedStory(a) == ExtractImprovedStory(b)
    ensures ExtractAcceptanceCriteria(a) == ExtractAcceptanceCriteria(b)
    ensures ExtractInvestAnalysis(a) == ExtractInvestAnalysis(b)
    ensures ExtractFeasibility(a) == ExtractFeasibility(b)
    ensures ExtractImplementationDetails(a) == ExtractImplementationDetails(b)
    ensures ExtractComplexity(a) == ExtractComplexity(b)
  {
  }

  const AgileKeys: set<string> := {"improved_story", "acceptance_criteria", "invest_analysis"}
  const TechnicalKeys: set<string> := {"technical_feasibility", "implementation_details", "complexity"}

  /** A dictionary of strings as a JSON object. */
  function StringRecord(m: map<string, string>): (r: map<string, Json>)
    ensures r.Keys == m.Keys && forall k :: k in m ==> r[k] == JStr(m[k])
  {
    map k | k in m :: JStr(m[k])
  }

  function AgileSuggestions(analysis: string): (m: map<string, Json>)
    ensures m.Keys == AgileKeys
    ensures m["improved_story"] == JStr(ExtractionNotImplemented)
    ensures m["acceptance_criteria"] == JArr([])
    ensures m["invest_analysis"] == JObj(map[])
  {
    map["improved_story" := JStr(ExtractImprovedStory(analysis)),
        "acceptance_criteria" := JArr(StringsToJson(ExtractAcceptanceCriteria(analysis))),
        "invest_analysis" := JObj(StringRecord(ExtractInvestAnalysis(analysis)))]
  }

  function TechnicalSuggestions(analysis: string): (m: map<string, Json>)
    ensures m.Keys == TechnicalKeys
    ensures m["technical_feasibility"] == JStr(ExtractionNotImplemented)
    ensures m["implementation_details"] == JObj(map[])
    ensures m["complexity"] == JStr("Medium")
  {
    map["technical_feasibility" := JStr(ExtractFeasibility(analysis)),
        "implementation_details" := JObj(ExtractImplementationDetails(analysis)),
        "complexity" := JStr(ExtractComplexity(analysis))]
  }

  /** The envelope both stages share: on a completed call the text and the
      stage's suggestions with status `success`; on a failed call the
      message, no suggestions and status `error`. `timestamp` is the
      class-level default, fixed once when the class was defined. */
  function Envelope(story: Story, call: Completion, suggest: string -> map<string, Json>, timestamp: string): (r: AnalysisResult)
    ensures r.originalStory == story && r.timestamp == timestamp
    ensures r.status == "success" <==> call.Completed?
    ensures r.status == "error" <==> call.Failed?
    ensures call.Completed? ==> r.analysis == call.content && r.suggestions == suggest(call.content)
    ensures call.Failed? ==> r.analysis == call.message && r.suggestions == map[]
  {
    match call
    case Completed(text) => AnalysisResult(story, text, suggest(text), "success", timestamp)
    case Failed(message) => AnalysisResult(story, message, map[], "error", timestamp)
  }

  /** `_agile_analysis(story)` given the outcome of its completion call. */
  function AgileAnalysis(story: Story, call: Completion, timestamp: string): (r: AnalysisResult)
    ensures r.originalStory == story && r.timestamp == timestamp
    ensures r.status == "success" <==> call.Completed?
    ensures r.status == "error" <==> call.Failed?
    ensures call.Completed? ==> r.analysis == call.content && r.suggestions.Keys == AgileKeys
    ensures call.Failed? ==> r.analysis == call.message && r.suggestions == map[]
  {
    Envelope(story, call, AgileSuggestions, timestamp)
  }

  /** `_technical_analysis(story)` given the outcome of its completion call. */
  function TechnicalAnalysis(story: Story, call: Completion, timestamp: string): (r: AnalysisResult)
    ensures r.originalStory == story && r.timestamp == timestamp
    ensures r.status == "success" <==> call.Completed?
    ensures r.status == "error" <==> call.Failed?
    ensures call.Completed? ==> r.analysis == call.content && r.suggestions.Keys == TechnicalKeys
    ensures call.Completed? ==> r.suggestions["complexity"] == JStr("Medium")
    ensures call.Failed? ==> r.analysis == call.message && r.suggestions == map[]
  {
    Envelope(story, call, TechnicalSuggestions, timestamp)
  }

  /** `analyze_story(story)`'s dictionary: both stage results and the time
      it was assembled. */
  datatype Analyses = Analyses(agile: AnalysisResult, technical: AnalysisResult, timestamp: string)

  /** `analyze_story(story)` given the outcomes of the two completion calls,
      the class-level default timestamp and the clock reading. */
  function AnalyzeStory(story: Story, agileCall: Completion, technicalCall: Completion, classTimestamp: string, now: string): (a: Analyses)
    ensures a.timestamp == now
    ensures a.agile.originalStory == story && a.technical.originalStory == story
    ensures a.agile.timestamp == classTimestamp && a.technical.timestamp == classTimestamp
    ensures a.agile.status == "success" <==> agileCall.Completed?
    ensures a.technical.status == "success" <==> technicalCall.Completed?
    ensures agileCall.Completed? ==> a.agile.analysis == agileCall.content && a.agile.suggestions.Keys == AgileKeys
    ensures agileCall.Failed? ==> a.agile.analysis == agileCall.message && a.agile.suggestions == map[]
    ensures technicalCall.Completed? ==> a.technical.analysis == technicalCall.content && a.technical.suggestions.Keys == TechnicalKeys
    ensures technicalCall.Failed? ==> a.technical.analysis == technicalCall.message && a.technical.suggestions == map[]
  {
    Analyses(AgileAnalysis(story, agileCall, classTimestamp), TechnicalAnalysis(story, technicalCall, classTimestamp), now)
  }

  /** Both stages are built from the same story and carry the same
      timestamp, whatever their calls did; a failure of one stage does not
      affect the other. */
  lemma AnalyzeStoryShared(story: Story, agileCall: Completion, technicalCall: Completion, classTimestamp: string, now: string)
    ensures var a := AnalyzeStory(story, agileCall, technicalCall, classTimestamp, now);
            && a.agile.originalStory == a.technical.originalStory == story
            && a.agile.timestamp == a.technical.timestamp
            && (a.agile.status == "success" <==> agileCall.Completed?)
            && (a.technical.status == "success" <==> technicalCall.Completed?)
  {
  }
}
