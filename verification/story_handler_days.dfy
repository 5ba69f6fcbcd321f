/** The person-day workflow handler (ai/workflow/story_handler_days.py):
    building the estimation event, reading each team member's estimate out
    of their reply, aggregating the joined replies, and routing a workflow
    step to its handler. */
module StoryHandlerDays {
  import opened Results
  import opened Text
  import opened Decimal
  import opened Estimation

  /** The story dictionary the handler receives; a key that is absent is
      `None`. */
  datatype StoryData = StoryData(text: Option<string>, acceptanceCriteria: Option<seq<string>>, context: Option<string>)

  /** The `body` of the event handed to every estimator. */
  datatype EstimationEvent = EstimationEvent(story: string, acceptanceCriteria: seq<string>, context: string)

  /** `test_event`: `text` and `acceptance_criteria` are indexed directly
      (a missing one raises `KeyError` out of the handler), while `context`
      defaults to the empty string. */
  function BuildEvent(data: StoryData): (r: Result<EstimationEvent>)
    ensures r.Ok? <==> data.text.Some? && data.acceptanceCriteria.Some?
    ensures r.Ok? ==> r.value.story == data.text.value && r.value.acceptanceCriteria == data.acceptanceCriteria.value
    ensures r.Ok? && data.context.None? ==> r.value.context == ""
    ensures r.Ok? && data.context.Some? ==> r.value.context == data.context.value
  {
    match (data.text, data.acceptanceCriteria)
    case (Some(text), Some(criteria)) => Ok(EstimationEvent(text, criteria, data.context.GetOr("")))
    case (None, _) => Raised("KeyError: 'text'")
    case (_, None) => Raised("KeyError: 'acceptance_criteria'")
  }

  const PersonDaysLabel: string := "Person-days:"

  /** `extract_day_estimate(analysis)`: the number on the first line that
      contains `Person-days:` and whose text between the first and second
      colon parses; `None` when there is no such line. It never raises. */
  function ExtractDayEstimate(analysis: string): Option<real>
  {
    ExtractEstimate(analysis, PersonDaysLabel)
  }

  /** A reply written as lines yields the value of the first of them that
      carries a parsable `Person-days:` segment. */
  lemma ExtractDayEstimateOfLines(lines: seq<string>)
    requires |lines| >= 1
    requires forall k :: 0 <= k < |lines| ==> '\n' !in lines[k]
    ensures var r := ExtractDayEstimate(Join(lines, "\n"));
            && (r.None? <==> forall i :: 0 <= i < |lines| ==> LineValue(lines[i], PersonDaysLabel).None?)
            && (r.Some? ==> exists i :: 0 <= i < |lines| && LineValue(lines[i], PersonDaysLabel) == r
                                         && forall j :: 0 <= j < i ==> LineValue(lines[j], PersonDaysLabel).None?)
  {
    ExtractEstimateOfLines(lines, PersonDaysLabel);
  }

  /** Because the label itself ends in a colon, a line containing it always
      has a segment after its first colon: such a line contributes exactly
      what that segment parses to. */
  lemma LabelledLineParsesSegment(line: string)
    requires Contains(line, PersonDaysLabel)
    ensures ':' in line
    ensures LineValue(line, PersonDaysLabel) == ParseDecimal(SecondSegment(line).value)
  {
    var i := Find(line, PersonDaysLabel).value;
    assert line[i..i + |PersonDaysLabel|] == PersonDaysLabel;
    assert line[i + 11] == ':';
  }

  /** What the estimator call for one member ended in: an exception out of
      `future.result()`, or the reply it returned. */
  datatype CallOutcome = Threw(message: string) | Returned(reply: Reply)

  /** One member of the team with the outcome of their call, after the
      thread pool has joined. */
  datatype MemberOutcome = MemberOutcome(name: string, role: string, outcome: CallOutcome)

  /** One entry of `team_estimates`. */
  datatype TeamEstimate = TeamEstimate(name: string, role: string, estimate: Option<real>, justification: string)

  /** The handler's result. `average` is the unrounded mean. */
  datatype DayEstimates = DayEstimates(teamEstimates: seq<TeamEstimate>, average: real, totalEstimates: nat)

  /** The entry one member adds to `responses`: only a status-200 reply
      whose body decodes and has an `analysis` string is kept; a raised
      call, any other status and any decoding failure is dropped by the
      `try`. A kept entry may still carry no estimate. */
  function Entry(m: MemberOutcome): (e: Option<TeamEstimate>)
    ensures e.Some? <==>
              m.outcome.Returned? && m.outcome.reply.statusCode == 200
              && m.outcome.reply.body.Some? && m.outcome.reply.body.value.analysis.Some?
    ensures e.Some? ==> e.value.name == m.name && e.value.role == m.role
                        && e.value.justification == m.outcome.reply.body.value.analysis.value
                        && e.value.estimate == ExtractDayEstimate(e.value.justification)
  {
    match m.outcome
    case Threw(_) => None
    case Returned(reply) =>
      if reply.statusCode != 200 then None
      else
        match reply.body
        case None => None
        case Some(body) =>
          match body.analysis
          case None => None
          case Some(analysis) => Some(TeamEstimate(m.name, m.role, ExtractDayEstimate(analysis), analysis))
  }

  /** `responses`, in the order the outcomes were joined. */
  function TeamEntries(ms: seq<MemberOutcome>): (es: seq<TeamEstimate>)
    ensures |es| <= |ms|
    ensures forall k :: 0 <= k < |es| ==> es[k].estimate == ExtractDayEstimate(es[k].justification)
  {
    if |ms| == 0 then []
    else
      var init := TeamEntries(ms[..|ms| - 1]);
      match Entry(ms[|ms| - 1])
      case None => init
      case Some(e) => init + [e]
  }

  lemma {:induction false} TeamEntriesAppend(a: seq<MemberOutcome>, b: seq<MemberOutcome>)
    ensures TeamEntries(a + b) == TeamEntries(a) + TeamEntries(b)
    decreases |b|
  {
    if |b| == 0 {
      assert a + b == a;
    } else {
      var b' := b[..|b| - 1];
      assert (a + b)[..|a + b| - 1] == a + b';
      assert (a + b)[|a + b| - 1] == b[|b| - 1];
      TeamEntriesAppend(a, b');
    }
  }

  /** Every usable outcome is kept, every other one dropped, and nothing
      else is added: `TeamEntries` is the filter of `Entry` over the list. */
  lemma TeamEntriesSingle(m: MemberOutcome)
    ensures TeamEntries([m]) == if Entry(m).Some? then [Entry(m).value] else []
  {
    assert [m][..0] == [];
  }

  /** `[r['estimate'] for r in responses if r['estimate'] is not None]`. */
  function KnownEstimates(es: seq<TeamEstimate>): (xs: seq<real>)
    ensures |xs| <= |es|
    ensures |xs| == 0 <==> forall k :: 0 <= k < |es| ==> es[k].estimate.None?
  {
    if |es| == 0 then []
    else
      var init := es[..|es| - 1];
      assert forall k :: 0 <= k < |init| ==> init[k] == es[k];
      var xs := KnownEstimates(init);
      match es[|es| - 1].estimate
      case None => xs
      case Some(v) => xs + [v]
  }

  /** The known estimates of a concatenation are those of each part, in
      order. */
  lemma {:induction false} KnownEstimatesAppend(a: seq<TeamEstimate>, b: seq<TeamEstimate>)
    ensures KnownEstimates(a + b) == KnownEstimates(a) + KnownEstimates(b)
    decreases |b|
  {
    if |b| == 0 {
      assert a + b == a;
    } else {
      var b' := b[..|b| - 1];
      assert (a + b)[..|a + b| - 1] == a + b';
      assert (a + b)[|a + b| - 1] == b[|b| - 1];
      KnownEstimatesAppend(a, b');
    }
  }

  /** One entry gives its estimate when it has one, and nothing otherwise:
      with `KnownEstimatesAppend`, the known estimates are exactly the
      present estimates in entry order. */
  lemma KnownEstimatesSingle(e: TeamEstimate)
    ensures KnownEstimates([e]) == if e.estimate.Some? then [e.estimate.value] else []
  {
    assert [e][..0] == [];
  }

  /** The result built from `responses`: the count of known estimates and
      their mean, or `0` when there are none. */
  function Summarise(responses: seq<TeamEstimate>): (r: DayEstimates)
    ensures r.teamEstimates == responses
    ensures r.totalEstimates == |KnownEstimates(responses)| <= |responses|
    ensures r.totalEstimates == 0 <==> forall k :: 0 <= k < |responses| ==> responses[k].estimate.None?
    ensures r.totalEstimates == 0 ==> r.average == 0.0
    ensures r.totalEstimates > 0 ==>
              var xs := KnownEstimates(responses);
              Min(xs) <= r.average <= Max(xs)
    ensures r.totalEstimates > 0 ==> r.average == Mean(KnownEstimates(responses))
  {
    var estimates := KnownEstimates(responses);
    if |estimates| == 0 then DayEstimates(responses, 0.0, 0)
    else
      MeanBounds(estimates, Min(estimates), Max(estimates));
      DayEstimates(responses, Mean(estimates), |estimates|)
  }

  /** The post-join part of `get_team_day_estimates`. */
  function AggregateDayEstimates(ms: seq<MemberOutcome>): (r: DayEstimates)
    ensures r.teamEstimates == TeamEntries(ms)
    ensures r.totalEstimates == |KnownEstimates(r.teamEstimates)|
    ensures r.totalEstimates > 0 ==> r.average == Mean(KnownEstimates(r.teamEstimates))
    ensures r.totalEstimates <= |r.teamEstimates| <= |ms|
    ensures r.totalEstimates == 0 <==> forall k :: 0 <= k < |r.teamEstimates| ==> r.teamEstimates[k].estimate.None?
    ensures r.totalEstimates == 0 ==> r.average == 0.0
    ensures r.totalEstimates > 0 ==>
              var xs := KnownEstimates(r.teamEstimates);
              Min(xs) <= r.average <= Max(xs)
    ensures forall k :: 0 <= k < |r.teamEstimates| ==>
              r.teamEstimates[k].estimate == ExtractDayEstimate(r.teamEstimates[k].justification)
  {
    Summarise(TeamEntries(ms))
  }

  /** `get_team_day_estimates(story_data)` once the team's calls have been
      joined into `ms`: a story without `text` or `acceptance_criteria`
      raises before any call is made. */
  function GetTeamDayEstimates(data: StoryData, ms: seq<MemberOutcome>): (r: Result<DayEstimates>)
    ensures r.Ok? <==> BuildEvent(data).Ok?
    ensures r.Ok? ==> r.value == AggregateDayEstimates(ms)
    ensures r.Ok? ==> r.value.totalEstimates <= |r.value.teamEstimates| <= |ms|
  {
    match BuildEvent(data)
    case Raised(e) => Raised(e)
    case Ok(_) => Ok(AggregateDayEstimates(ms))
  }

  /** What `handle_story_workflow_days` does with a step: one of the three
      handlers (with the approval flag it passes on) or the error response. */
  datatype Route = StartAnalysis | ProcessUserFeedback(approved: bool) | TeamDayEstimates | Rejected(response: map<string, string>)

  const InvalidStepResponse: map<string, string> := map["error" := "Invalid step or action"]

  function HandleStoryWorkflowDays(step: string, action: string): (r: Route)
    ensures r.StartAnalysis? <==> step == "start"
    ensures r.ProcessUserFeedback? <==> step == "agile_feedback"
    ensures r.ProcessUserFeedback? ==> (r.approved <==> action == "approve")
    ensures r.TeamDayEstimates? <==> step == "technical_feedback" && action == "approve"
    ensures r.Rejected? ==> r.response == InvalidStepResponse
  {
    if step == "start" then StartAnalysis
    else if step == "agile_feedback" then ProcessUserFeedback(action == "approve")
    else if step == "technical_feedback" && action == "approve" then TeamDayEstimates
    else Rejected(InvalidStepResponse)
  }

  /** A technical review that is not approved is an invalid step, not a
      loop back: the handler answers with the error response. */
  lemma TechnicalRejectionIsInvalid(action: string)
    requires action != "approve"
    ensures HandleStoryWorkflowDays("technical_feedback", action) == Rejected(map["error" := "Invalid step or action"])
  {
  }
}
