/** `calculate_average_estimate` of the person-days script
    (scripts/test_team_estimation.py): the first parsable line mentioning
    `Person-days` in each successful reply, and their mean. */
module TeamEstimation {
  import opened Results
  import opened Text
  import opened Decimal
  import opened Estimation

  /** The script matches the bare word, without a colon. */
  const PersonDaysWord: string := "Person-days"

  /** One reply's contribution. Only status-200 replies are read; an
      undecodable body, a missing `team_member` or `analysis`, or a member
      without `'name'` (read by the debug print before the scan) raises
      outside any `try` and ends the whole calculation. */
  function ReplyDays(reply: Reply): (r: Result<Option<real>>)
    ensures reply.statusCode != 200 ==> r == Ok(None)
    ensures reply.statusCode == 200 && r.Ok? ==>
              && reply.body.Some?
              && reply.body.value.teamMember.Some?
              && reply.body.value.teamMember.value.name.Some?
              && reply.body.value.analysis.Some?
  {
    if reply.statusCode != 200 then Ok(None)
    else
      match reply.body
      case None => Raised("JSONDecodeError")
      case Some(body) =>
        match body.teamMember
        case None => Raised("KeyError: 'team_member'")
        case Some(member) =>
          match body.analysis
          case None => Raised("KeyError: 'analysis'")
          case Some(analysis) =>
            if member.name.None? then Raised("KeyError: 'name'")
            else Ok(ExtractEstimate(analysis, PersonDaysWord))
  }

  /** A line that mentions `Person-days` but has no `:` raises `IndexError`
      inside the `try` and contributes nothing. */
  lemma ColonlessLineContributesNothing(line: string)
    requires ':' !in line
    ensures LineValue(line, PersonDaysWord) == None
  {
  }

  /** With a colon after the word the line's number is read from the
      segment after the first colon, whatever precedes it. */
  lemma {:induction false} LabelledLineValue(prefix: string, lead: string, whole: nat, frac: string)
    requires ':' !in prefix && AllSpace(lead) && AllDigits(frac)
    requires Contains(prefix, PersonDaysWord)
    ensures LineValue(prefix + ":" + lead + Show(false, whole, frac), PersonDaysWord)
         == Some(ShownValue(false, whole, frac))
  {
    var number := Show(false, whole, frac);
    var rest := lead + number;
    ShowHasNoColon(whole, frac);
    assert ':' !in rest by {
      assert forall k :: 0 <= k < |lead| ==> IsSpace(lead[k]);
    }
    var line := prefix + ":" + lead + number;
    assert line == prefix + ":" + rest;
    assert line == prefix + (":" + rest);
    ContainsExtends(prefix, ":" + rest, PersonDaysWord);
    SplitAfterFirst(prefix, rest, ':');
    assert Split(line, ':') == [prefix] + [rest];
    assert SecondSegment(line) == Some(rest);
    ParseShow(lead, false, whole, frac, "");
    assert lead + number + "" == rest;
    assert ParseDecimal(rest) == Some(ShownValue(false, whole, frac));
  }

  lemma {:induction false} ShowHasNoColon(whole: nat, frac: string)
    requires AllDigits(frac)
    ensures ':' !in Show(false, whole, frac)
  {
    var w := ShowNat(whole);
    var number := Show(false, whole, frac);
    assert number == Magnitude(whole, frac);
    assert forall k :: 0 <= k < |number| ==> IsDigit(number[k]) || number[k] == '.';
  }

  /** The estimates collected from `replies`, in list order. */
  function DaysResults(replies: seq<Reply>): (rs: seq<Result<Option<real>>>)
    ensures |rs| == |replies|
    ensures forall i :: 0 <= i < |replies| ==> rs[i] == ReplyDays(replies[i])
  {
    seq(|replies|, i requires 0 <= i < |replies| => ReplyDays(replies[i]))
  }

  function CollectDays(replies: seq<Reply>): Result<seq<real>>
  {
    Gather(DaysResults(replies))
  }

  /** What the script reports when it found estimates. */
  datatype DaysSummary = DaysSummary(estimates: seq<real>, average: real)

  /** `calculate_average_estimate(responses)`: `Ok(None)` is the
      "No valid estimates found" outcome, `Raised` an exception escaping it. */
  function CalculateAverageEstimate(replies: seq<Reply>): (r: Result<Option<DaysSummary>>)
    ensures r.Ok? <==> forall i :: 0 <= i < |replies| ==> ReplyDays(replies[i]).Ok?
    ensures r.Ok? && r.value.None? <==>
            forall i :: 0 <= i < |replies| ==> ReplyDays(replies[i]) == Ok(None)
    ensures r.Ok? && r.value.Some? ==>
            var s := r.value.value;
            && 0 < |s.estimates| <= |replies|
            && Min(s.estimates) <= s.average <= Max(s.estimates)
    ensures r.Ok? && r.value.Some? ==>
            var s := r.value.value;
            CollectDays(replies) == Ok(s.estimates) && s.average == Mean(s.estimates)
  {
    GatherEmpty(DaysResults(replies));
    match CollectDays(replies)
    case Raised(e) => Raised(e)
    case Ok(estimates) =>
      if |estimates| == 0 then Ok(None)
      else
        MeanBounds(estimates, Min(estimates), Max(estimates));
        Ok(Some(DaysSummary(estimates, Mean(estimates))))
  }

  /** Estimates appear in team-list order: the estimates of a concatenation
      of reply lists are the concatenation of their estimates. */
  lemma CollectDaysAppend(a: seq<Reply>, b: seq<Reply>)
    requires CollectDays(a).Ok? && CollectDays(b).Ok?
    ensures CollectDays(a + b) == Ok(CollectDays(a).value + CollectDays(b).value)
  {
    DaysResultsAppend(a, b);
    GatherAppend(DaysResults(a), DaysResults(b));
  }

  lemma DaysResultsAppend(a: seq<Reply>, b: seq<Reply>)
    ensures DaysResults(a + b) == DaysResults(a) + DaysResults(b)
  {
  }

  /** A well-formed successful reply contributes at most one estimate: the
      first parsable `Person-days` line of its analysis. */
  lemma ReplyDaysWellFormed(reply: Reply, name: string, analysis: string)
    requires reply == Reply(200, Some(ReplyBody(Some(TeamMember(Some(name))), Some(analysis))))
    ensures CollectDays([reply]) ==
            Ok(if ExtractEstimate(analysis, PersonDaysWord).Some? then [ExtractEstimate(analysis, PersonDaysWord).value] else [])
  {
    assert DaysResults([reply]) == [Ok(ExtractEstimate(analysis, PersonDaysWord))];
    GatherSingle(Ok(ExtractEstimate(analysis, PersonDaysWord)));
  }
}
