/** `calculate_average_estimate` of the story-points script
    (scripts/test_team_points.py): the first parsable `Story Points:` line
    of each successful reply, their mean, and the nearest Fibonacci value. */
module TeamPoints {
  import opened Results
  import opened Text
  import opened Estimation

  const StoryPointsMarker: string := "Story Points:"

  /** The scan of one reply's lines. A `Story Points:` line whose number
      does not parse is skipped, but the handler that reports it reads the
      member's `'name'`; when `hasName` is false that read raises and the
      exception escapes the whole calculation. */
  function ScanPoints(lines: seq<string>, hasName: bool): Result<Option<real>>
  {
    if |lines| == 0 then Ok(None)
    else if !Contains(lines[0], StoryPointsMarker) then ScanPoints(lines[1..], hasName)
    else
      match LineValue(lines[0], StoryPointsMarker)
      case Some(v) => Ok(Some(v))
      case None => if hasName then ScanPoints(lines[1..], hasName) else Raised("KeyError: 'name'")
  }

  /** With a named member the scan is exactly first-match: the first
      `Story Points:` line that parses gives the estimate, failures are
      skipped, and no line yields nothing. */
  lemma {:induction false} ScanPointsIsFirstMatch(lines: seq<string>)
    ensures ScanPoints(lines, true) == Ok(FirstValue(lines, StoryPointsMarker))
  {
    if |lines| > 0 {
      ScanPointsIsFirstMatch(lines[1..]);
      FirstValueStep(lines, StoryPointsMarker);
    }
  }

  /** Line `i` is a `Story Points:` line that does not parse, and no
      earlier line yields a value. */
  predicate UnparsedFirst(lines: seq<string>, i: int)
    requires 0 <= i < |lines|
  {
    && Contains(lines[i], StoryPointsMarker)
    && LineValue(lines[i], StoryPointsMarker).None?
    && forall j :: 0 <= j < i ==> LineValue(lines[j], StoryPointsMarker).None?
  }

  /** Without a name the scan raises exactly when an unparsable
      `Story Points:` line comes before the first parsable one, and
      otherwise still finds the first match. */
  lemma {:induction false} ScanPointsWithoutName(lines: seq<string>)
    ensures ScanPoints(lines, false).Raised? <==> exists i :: 0 <= i < |lines| && UnparsedFirst(lines, i)
    ensures ScanPoints(lines, false).Ok? ==> ScanPoints(lines, false) == Ok(FirstValue(lines, StoryPointsMarker))
  {
    if |lines| > 0 {
      var tail := lines[1..];
      ScanPointsWithoutName(tail);
      FirstValueStep(lines, StoryPointsMarker);
      if !Contains(lines[0], StoryPointsMarker) {
        UnmarkedHead(lines);
      } else if LineValue(lines[0], StoryPointsMarker).Some? {
        ParsedHead(lines);
      } else {
        assert UnparsedFirst(lines, 0);
      }
    }
  }

  /** A first line without the marker yields nothing, so an unparsable
      first match is one of the rest. */
  lemma {:induction false} UnmarkedHead(lines: seq<string>)
    requires |lines| > 0 && !Contains(lines[0], StoryPointsMarker)
    ensures (exists i :: 0 <= i < |lines| && UnparsedFirst(lines, i))
        <==> (exists i :: 0 <= i < |lines| - 1 && UnparsedFirst(lines[1..], i))
  {
    var tail := lines[1..];
    assert LineValue(lines[0], StoryPointsMarker).None?;
    if exists i :: 0 <= i < |lines| && UnparsedFirst(lines, i) {
      var i :| 0 <= i < |lines| && UnparsedFirst(lines, i);
      assert i != 0;
      UnparsedShift(lines, i);
      assert 0 <= i - 1 < |lines| - 1 && UnparsedFirst(tail, i - 1);
    }
    if exists i :: 0 <= i < |lines| - 1 && UnparsedFirst(tail, i) {
      var i :| 0 <= i < |lines| - 1 && UnparsedFirst(tail, i);
      UnparsedShift(lines, i + 1);
      assert 0 <= i + 1 < |lines| && UnparsedFirst(lines, i + 1);
    }
  }

  /** Past a first line that yields nothing, the property at `i` is the
      property of the rest at `i - 1`. */
  lemma {:induction false} UnparsedShift(lines: seq<string>, i: int)
    requires 1 <= i < |lines| && LineValue(lines[0], StoryPointsMarker).None?
    ensures UnparsedFirst(lines, i) <==> UnparsedFirst(lines[1..], i - 1)
  {
    var tail := lines[1..];
    assert forall j :: 1 <= j < i ==> tail[j - 1] == lines[j];
  }

  /** A first line that parses ends the scan: nothing raises. */
  lemma {:induction false} ParsedHead(lines: seq<string>)
    requires |lines| > 0 && LineValue(lines[0], StoryPointsMarker).Some?
    ensures forall i :: 0 <= i < |lines| ==> !UnparsedFirst(lines, i)
  {
  }

  /** One reply's contribution. Only status-200 replies are read; an
      undecodable body or a missing `team_member` or `analysis` raises
      outside any `try`, so it ends the whole calculation. */
  function ReplyPoints(reply: Reply): (r: Result<Option<real>>)
    ensures reply.statusCode != 200 ==> r == Ok(None)
    ensures reply.statusCode == 200 && r.Ok? ==>
              && reply.body.Some?
              && reply.body.value.teamMember.Some?
              && reply.body.value.analysis.Some?
  {
    if reply.statusCode != 200 then Ok(None)
    else
      match reply.body
      case None => Raised("JSONDecodeError")
      case Some(body) =>
        match body.teamMember
        case None => Raised("KeyError: 'team_member'")
        case Some(member) =>
          match body.analysis
          case None => Raised("KeyError: 'analysis'")
          case Some(analysis) => ScanPoints(Split(analysis, '\n'), member.name.Some?)
  }

  /** A well-formed successful reply from a named member contributes the
      first `Story Points:` value of its analysis, and nothing else. */
  lemma ReplyPointsWellFormed(reply: Reply, name: string, analysis: string)
    requires reply == Reply(200, Some(ReplyBody(Some(TeamMember(Some(name))), Some(analysis))))
    ensures ReplyPoints(reply) == Ok(ExtractEstimate(analysis, StoryPointsMarker))
  {
    ScanPointsIsFirstMatch(Split(analysis, '\n'));
  }

  /** A successful reply from a member without a `name`: the handler's
      `member['name']` read raises exactly when an unparsable
      `Story Points:` line comes before the first parsable one; otherwise
      the reply contributes the first `Story Points:` value. */
  lemma ReplyPointsUnnamed(reply: Reply, analysis: string)
    requires reply == Reply(200, Some(ReplyBody(Some(TeamMember(None)), Some(analysis))))
    ensures ReplyPoints(reply).Raised? <==>
              exists i :: 0 <= i < |Split(analysis, '\n')| && UnparsedFirst(Split(analysis, '\n'), i)
    ensures ReplyPoints(reply).Ok? ==> ReplyPoints(reply) == Ok(ExtractEstimate(analysis, StoryPointsMarker))
  {
    ScanPointsWithoutName(Split(analysis, '\n'));
    assert ReplyPoints(reply) == ScanPoints(Split(analysis, '\n'), false);
  }

  /** Each reply's contribution, in list order. */
  function PointsResults(replies: seq<Reply>): (rs: seq<Result<Option<real>>>)
    ensures |rs| == |replies|
    ensures forall i :: 0 <= i < |replies| ==> rs[i] == ReplyPoints(replies[i])
  {
    seq(|replies|, i requires 0 <= i < |replies| => ReplyPoints(replies[i]))
  }

  /** The estimates collected from `replies`, in list order. */
  function CollectPoints(replies: seq<Reply>): Result<seq<real>>
  {
    Gather(PointsResults(replies))
  }

  /** What the script reports when it found estimates. */
  datatype PointsSummary = PointsSummary(estimates: seq<real>, rawAverage: real, fibonacciEstimate: int)

  /** `calculate_average_estimate(responses)`: `Ok(None)` is the
      "No valid estimates found" outcome, `Raised` an exception escaping it. */
  function CalculateAverageEstimate(replies: seq<Reply>): (r: Result<Option<PointsSummary>>)
    ensures r.Ok? <==> forall i :: 0 <= i < |replies| ==> ReplyPoints(replies[i]).Ok?
    ensures r.Ok? && r.value.None? <==>
            forall i :: 0 <= i < |replies| ==> ReplyPoints(replies[i]) == Ok(None)
    ensures r.Ok? && r.value.Some? ==>
            var s := r.value.value;
            && 0 < |s.estimates| <= |replies|
            && s.fibonacciEstimate in Fibonacci
            && (forall q :: q in Fibonacci ==>
                  Distance(s.fibonacciEstimate as real, s.rawAverage) <= Distance(q as real, s.rawAverage))
            && Min(s.estimates) <= s.rawAverage <= Max(s.estimates)
    ensures r.Ok? && r.value.Some? ==>
            var s := r.value.value;
            && CollectPoints(replies) == Ok(s.estimates)
            && s.rawAverage == Mean(s.estimates)
            && s.fibonacciEstimate == SnapToFibonacci(s.rawAverage)
  {
    GatherEmpty(PointsResults(replies));
    match CollectPoints(replies)
    case Raised(e) => Raised(e)
    case Ok(estimates) =>
      if |estimates| == 0 then Ok(None)
      else
        var raw := Mean(estimates);
        MeanBounds(estimates, Min(estimates), Max(estimates));
        Ok(Some(PointsSummary(estimates, raw, SnapToFibonacci(raw))))
  }

  /** Parsed values are not checked against the scale: a single reply's
      value is the raw average whatever it is (4, off the scale, stays 4 and
      only the snapped value moves). */
  lemma SingleReplyUnchecked(reply: Reply, v: real)
    requires ReplyPoints(reply) == Ok(Some(v))
    ensures CalculateAverageEstimate([reply]) == Ok(Some(PointsSummary([v], v, SnapToFibonacci(v))))
  {
    assert PointsResults([reply]) == [Ok(Some(v))];
    GatherSingle(Ok(Some(v)));
    assert Sum([v]) == v by { assert [v][..0] == []; }
  }

  /** Estimates appear in the order of the replies. */
  lemma CollectPointsAppend(a: seq<Reply>, b: seq<Reply>)
    requires CollectPoints(a).Ok? && CollectPoints(b).Ok?
    ensures CollectPoints(a + b) == Ok(CollectPoints(a).value + CollectPoints(b).value)
  {
    PointsResultsAppend(a, b);
    GatherAppend(PointsResults(a), PointsResults(b));
  }

  lemma PointsResultsAppend(a: seq<Reply>, b: seq<Reply>)
    ensures PointsResults(a + b) == PointsResults(a) + PointsResults(b)
  {
    var l, la, lb := PointsResults(a + b), PointsResults(a), PointsResults(b);
    forall i | 0 <= i < |a|
      ensures l[i] == la[i]
    {
      assert (a + b)[i] == a[i];
    }
    forall i | 0 <= i < |b|
      ensures l[|a| + i] == lb[i]
    {
      assert (a + b)[|a| + i] == b[i];
    }
    SeqAppendByParts(l, la, lb);
  }
}
