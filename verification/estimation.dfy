/** What the three estimate collectors share: scanning a completion's lines
    for a labelled number, averaging the numbers found, and snapping an
    average to the nearest member of a discrete scale. */
module Estimation {
  import opened Results
  import opened Text
  import opened Decimal

  /** The text between the first and the second `:` of `line` (Python's
      `line.split(':')[1]`), or `None` where that indexing raises
      `IndexError` because the line has no `:`. */
  function SecondSegment(line: string): (r: Option<string>)
    ensures r.None? <==> ':' !in line
    ensures r.Some? ==> ':' !in r.value
    ensures r.Some? ==> OccursAt(line, r.value, IndexOf(line, ':') + 1)
    ensures r.Some? ==> var e := IndexOf(line, ':') + 1 + |r.value|;
                        e == |line| || line[e] == ':'
  {
    var parts := Split(line, ':');
    if |parts| >= 2 then
      SecondSegmentIsSlice(line);
      Some(parts[1])
    else None
  }

  lemma {:induction false} SecondSegmentIsSlice(line: string)
    requires ':' in line
    ensures |Split(line, ':')| >= 2
    ensures OccursAt(line, Split(line, ':')[1], IndexOf(line, ':') + 1)
    ensures var e := IndexOf(line, ':') + 1 + |Split(line, ':')[1]|;
            e == |line| || line[e] == ':'
  {
    var i := IndexOf(line, ':');
    var rest := line[i + 1..];
    var tail := Split(rest, ':');
    assert Split(line, ':')[1] == tail[0] by {
      SplitAtFirst(line, ':');
    }
    if ':' in rest {
      SegmentBeforeColon(line, i, rest, tail[0]);
    } else {
      assert tail[0] == rest;
    }
  }

  lemma {:induction false} SegmentBeforeColon(line: string, i: nat, rest: string, segment: string)
    requires i < |line| && rest == line[i + 1..] && ':' in rest && segment == Split(rest, ':')[0]
    ensures OccursAt(line, segment, i + 1)
    ensures line[i + 1 + |segment|] == ':'
  {
    var k := IndexOf(rest, ':');
    assert segment == rest[..k] by {
      SplitAtFirst(rest, ':');
    }
    assert line[i + 1..i + 1 + k] == rest[..k];
    assert line[i + 1 + k] == rest[k];
  }

  /** The second segment of a line is what lies between its first two
      colons, or after its only colon. */
  lemma {:induction false} SecondSegmentOf(head: string, segment: string, tail: string)
    requires ':' !in head && ':' !in segment
    ensures SecondSegment(head + ":" + segment) == Some(segment)
    ensures SecondSegment(head + ":" + segment + ":" + tail) == Some(segment)
  {
    assert head + ":" + segment == head + [':'] + segment;
    SplitAfterFirst(head, segment, ':');
    var rest := segment + ":" + tail;
    assert rest == segment + [':'] + tail;
    assert head + ":" + segment + ":" + tail == head + [':'] + rest;
    SplitAfterFirst(head, rest, ':');
    SplitAfterFirst(segment, tail, ':');
  }

  /** The estimate one line contributes: the line must contain `marker`, and
      the text after its first `:` (up to the next `:`) must parse as a
      number; anything else contributes nothing (the source's `except`
      swallows the `IndexError` or `ValueError`). */
  function LineValue(line: string, marker: string): Option<real>
  {
    if !Contains(line, marker) then None
    else
      match SecondSegment(line)
      case None => None
      case Some(segment) => ParseDecimal(segment)
  }

  /** The first present value of `vs`: the loop `for line in lines: ...
      return value` (or `append(value); break`) once the per-line outcomes
      are known. */
  function FirstSome(vs: seq<Option<real>>): (r: Option<real>)
    ensures r.None? <==> forall i :: 0 <= i < |vs| ==> vs[i].None?
    ensures r.Some? ==> exists i :: 0 <= i < |vs| && vs[i] == r && forall j :: 0 <= j < i ==> vs[j].None?
  {
    if |vs| == 0 then None
    else if vs[0].Some? then vs[0]
    else
      var r := FirstSome(vs[1..]);
      assert forall i :: 1 <= i < |vs| ==> vs[1..][i - 1] == vs[i];
      if r.Some? then
        var i :| 0 <= i < |vs[1..]| && vs[1..][i] == r && forall j :: 0 <= j < i ==> vs[1..][j].None?;
        assert vs[i + 1] == r;
        r
      else r
  }

  /** Values after the first present one never matter. */
  lemma {:induction false} FirstSomeIgnoresLater(vs: seq<Option<real>>, more: seq<Option<real>>)
    requires FirstSome(vs).Some?
    ensures FirstSome(vs + more) == FirstSome(vs)
  {
    if vs[0].None? {
      assert (vs + more)[1..] == vs[1..] + more;
      FirstSomeIgnoresLater(vs[1..], more);
    }
  }

  /** Absent values in front are skipped. */
  lemma {:induction false} FirstSomeSkipsAbsent(vs: seq<Option<real>>, more: seq<Option<real>>)
    requires FirstSome(vs).None?
    ensures FirstSome(vs + more) == FirstSome(more)
  {
    if |vs| == 0 {
      assert vs + more == more;
    } else {
      assert (vs + more)[1..] == vs[1..] + more;
      FirstSomeSkipsAbsent(vs[1..], more);
    }
  }

  /** What each line contributes, line by line. */
  function LineValues(lines: seq<string>, marker: string): (vs: seq<Option<real>>)
    ensures |vs| == |lines|
    ensures forall i :: 0 <= i < |lines| ==> vs[i] == LineValue(lines[i], marker)
  {
    seq(|lines|, i requires 0 <= i < |lines| => LineValue(lines[i], marker))
  }

  lemma LineValuesAppend(a: seq<string>, b: seq<string>, marker: string)
    ensures LineValues(a + b, marker) == LineValues(a, marker) + LineValues(b, marker)
  {
  }

  /** The value of the first line carrying a number under `marker`: a line
      whose segment does not parse is skipped and the scan goes on. */
  function FirstValue(lines: seq<string>, marker: string): (r: Option<real>)
    ensures r.None? <==> forall i :: 0 <= i < |lines| ==> LineValue(lines[i], marker).None?
    ensures r.Some? ==> exists i :: 0 <= i < |lines| && LineValue(lines[i], marker) == r
                          && forall j :: 0 <= j < i ==> LineValue(lines[j], marker).None?
  {
    var vs := LineValues(lines, marker);
    var r := FirstSome(vs);
    if r.Some? then
      var i :| 0 <= i < |vs| && vs[i] == r && forall j :: 0 <= j < i ==> vs[j].None?;
      assert LineValue(lines[i], marker) == r;
      r
    else r
  }

  /** One step of the scan: the first line decides if it carries a value,
      otherwise the rest of the lines do. */
  lemma {:induction false} FirstValueStep(lines: seq<string>, marker: string)
    requires |lines| > 0
    ensures FirstValue(lines, marker) ==
            if LineValue(lines[0], marker).Some? then LineValue(lines[0], marker) else FirstValue(lines[1..], marker)
  {
    var vs := LineValues(lines, marker);
    assert vs[0] == LineValue(lines[0], marker);
    assert vs[1..] == LineValues(lines[1..], marker);
    FirstSomeStep(vs);
  }

  lemma {:induction false} FirstSomeStep(vs: seq<Option<real>>)
    requires |vs| > 0
    ensures FirstSome(vs) == if vs[0].Some? then vs[0] else FirstSome(vs[1..])
  {
  }

  /** The estimate a completion text yields under `marker`: the first of its
      lines (split on `\n`) that carries one. */
  function ExtractEstimate(text: string, marker: string): Option<real>
  {
    FirstValue(Split(text, '\n'), marker)
  }

  /** A text assembled from lines yields the first value among those lines. */
  lemma {:induction false} ExtractEstimateOfLines(lines: seq<string>, marker: string)
    requires |lines| >= 1
    requires forall k :: 0 <= k < |lines| ==> '\n' !in lines[k]
    ensures ExtractEstimate(Join(lines, "\n"), marker) == FirstValue(lines, marker)
  {
    SplitJoin(lines, '\n');
  }

  /** Lines after the first one carrying a value never matter. */
  lemma {:induction false} FirstValueIgnoresLaterLines(lines: seq<string>, more: seq<string>, marker: string)
    requires FirstValue(lines, marker).Some?
    ensures FirstValue(lines + more, marker) == FirstValue(lines, marker)
  {
    LineValuesAppend(lines, more, marker);
    FirstSomeIgnoresLater(LineValues(lines, marker), LineValues(more, marker));
  }

  /** Lines that carry no value are skipped: putting them in front changes
      nothing. */
  lemma {:induction false} FirstValueSkipsMisses(misses: seq<string>, lines: seq<string>, marker: string)
    requires forall i :: 0 <= i < |misses| ==> LineValue(misses[i], marker).None?
    ensures FirstValue(misses + lines, marker) == FirstValue(lines, marker)
  {
    LineValuesAppend(misses, lines, marker);
    FirstSomeSkipsAbsent(LineValues(misses, marker), LineValues(lines, marker));
  }

  /** The `team_member` object of a reply body; `name` is `None` when the
      object has no `'name'` entry. */
  datatype TeamMember = TeamMember(name: Option<string>)

  /** A decoded reply body; a field is `None` when its key is absent (for
      `analysis`, also when it is not a string). */
  datatype ReplyBody = ReplyBody(teamMember: Option<TeamMember>, analysis: Option<string>)

  /** What an estimator's `estimate_effort` returns: a status code and a
      JSON body, `None` when the body does not decode to a JSON object. */
  datatype Reply = Reply(statusCode: int, body: Option<ReplyBody>)

  /** Collecting per-reply outcomes in order: present estimates are
      appended, absent ones skipped, and the first exception aborts the
      whole collection. */
  function Gather(rs: seq<Result<Option<real>>>): (r: Result<seq<real>>)
    ensures r.Ok? <==> forall i :: 0 <= i < |rs| ==> rs[i].Ok?
    ensures r.Ok? ==> |r.value| <= |rs|
    ensures r.Ok? ==> (|r.value| == 0 <==> forall i :: 0 <= i < |rs| ==> rs[i].value.None?)
  {
    if |rs| == 0 then Ok([])
    else
      var init := rs[..|rs| - 1];
      assert forall i :: 0 <= i < |init| ==> init[i] == rs[i];
      match Gather(init)
      case Raised(e) => Raised(e)
      case Ok(es) =>
        match rs[|rs| - 1]
        case Raised(e) => Raised(e)
        case Ok(None) => Ok(es)
        case Ok(Some(v)) => Ok(es + [v])
  }

  /** Gathering finds nothing, without an exception, exactly when every
      outcome is a normal return without an estimate. */
  lemma GatherEmpty(rs: seq<Result<Option<real>>>)
    ensures Gather(rs).Ok? && |Gather(rs).value| == 0 <==> forall i :: 0 <= i < |rs| ==> rs[i] == Ok(None)
  {
  }

  /** Gathering keeps the order of the replies: the estimates of a longer
      list extend those of its prefix. */
  lemma {:induction false} GatherAppend(a: seq<Result<Option<real>>>, b: seq<Result<Option<real>>>)
    requires Gather(a).Ok? && Gather(b).Ok?
    ensures Gather(a + b) == Ok(Gather(a).value + Gather(b).value)
    decreases |b|
  {
    if |b| == 0 {
      assert a + b == a;
      assert Gather(a).value + Gather(b).value == Gather(a).value;
    } else {
      var b' := b[..|b| - 1];
      var last := b[|b| - 1];
      assert (a + b)[..|a + b| - 1] == a + b';
      assert (a + b)[|a + b| - 1] == last;
      assert forall i :: 0 <= i < |b'| ==> b'[i] == b[i];
      assert Gather(b').Ok?;
      GatherAppend(a, b');
      var ga, gb' := Gather(a).value, Gather(b').value;
      if last.value.Some? {
        assert Gather(b).value == gb' + [last.value.value];
        assert ga + gb' + [last.value.value] == ga + (gb' + [last.value.value]);
      }
    }
  }

  /** One reply contributes its estimate, or nothing. */
  lemma GatherSingle(r: Result<Option<real>>)
    requires r.Ok?
    ensures Gather([r]) == Ok(if r.value.Some? then [r.value.value] else [])
  {
    assert [r][..0] == [];
    if r.value.Some? {
      assert [] + [r.value.value] == [r.value.value];
    }
  }

  function Sum(xs: seq<real>): real
  {
    if |xs| == 0 then 0.0 else Sum(xs[..|xs| - 1]) + xs[|xs| - 1]
  }

  /** `sum(xs) / len(xs)`. */
  function Mean(xs: seq<real>): real
    requires |xs| > 0
  {
    Sum(xs) / |xs| as real
  }

  function Min(xs: seq<real>): (m: real)
    requires |xs| > 0
    ensures forall i :: 0 <= i < |xs| ==> m <= xs[i]
    ensures exists i :: 0 <= i < |xs| && m == xs[i]
  {
    if |xs| == 1 then xs[0]
    else
      var m := Min(xs[1..]);
      assert forall i :: 1 <= i < |xs| ==> xs[1..][i - 1] == xs[i];
      if xs[0] <= m then xs[0] else m
  }

  function Max(xs: seq<real>): (m: real)
    requires |xs| > 0
    ensures forall i :: 0 <= i < |xs| ==> xs[i] <= m
    ensures exists i :: 0 <= i < |xs| && m == xs[i]
  {
    if |xs| == 1 then xs[0]
    else
      var m := Max(xs[1..]);
      assert forall i :: 1 <= i < |xs| ==> xs[1..][i - 1] == xs[i];
      if xs[0] >= m then xs[0] else m
  }

  /** A sum of values bounded by `lo` and `hi` lies between `|xs| * lo` and
      `|xs| * hi`. */
  lemma {:induction false} SumBounds(xs: seq<real>, lo: real, hi: real)
    requires forall i :: 0 <= i < |xs| ==> lo <= xs[i] <= hi
    ensures |xs| as real * lo <= Sum(xs) <= |xs| as real * hi
  {
    if |xs| > 0 {
      SumBounds(xs[..|xs| - 1], lo, hi);
    }
  }

  /** The mean lies between any lower and upper bound of the values; in
      particular the mean of equal values is that value. */
  lemma {:induction false} MeanBounds(xs: seq<real>, lo: real, hi: real)
    requires |xs| > 0
    requires forall i :: 0 <= i < |xs| ==> lo <= xs[i] <= hi
    ensures lo <= Mean(xs) <= hi
  {
    SumBounds(xs, lo, hi);
    var n := |xs| as real;
    assert n * lo <= Sum(xs) <= n * hi;
    assert Sum(xs) / n >= lo by { assert Sum(xs) >= n * lo; }
    assert Sum(xs) / n <= hi by { assert Sum(xs) <= n * hi; }
  }

  lemma {:induction false} SumAppend(xs: seq<real>, ys: seq<real>)
    ensures Sum(xs + ys) == Sum(xs) + Sum(ys)
    decreases |ys|
  {
    if |ys| == 0 {
      assert xs + ys == xs;
    } else {
      assert (xs + ys)[..|xs + ys| - 1] == xs + ys[..|ys| - 1];
      SumAppend(xs, ys[..|ys| - 1]);
    }
  }

  /** The mean of two lists together weighs each list's mean by its
      length: averaging more replies refines, and never forgets, the
      earlier ones. */
  lemma MeanAppend(xs: seq<real>, ys: seq<real>)
    requires |xs| > 0 && |ys| > 0
    ensures (|xs| + |ys|) as real * Mean(xs + ys) == |xs| as real * Mean(xs) + |ys| as real * Mean(ys)
  {
    SumAppend(xs, ys);
    MeanTimesCount(xs);
    MeanTimesCount(ys);
    MeanTimesCount(xs + ys);
  }

  /** The mean times the count is the sum. */
  lemma MeanTimesCount(xs: seq<real>)
    requires |xs| > 0
    ensures |xs| as real * Mean(xs) == Sum(xs)
  {
  }

  function Distance(x: real, y: real): (d: real)
    ensures d >= 0.0 && (d == 0.0 <==> x == y)
  {
    if x >= y then x - y else y - x
  }

  /** Python's `min(range(len(scale)), key=lambda k: abs(scale[k] - x))`:
      the position of a scale member closest to `x`; on a tie the earliest
      such position wins, because `min` replaces its candidate only on a
      strictly smaller key. */
  function NearestIndex(scale: seq<int>, x: real): (k: nat)
    requires |scale| > 0
    ensures k < |scale|
    ensures forall j :: 0 <= j < |scale| ==> Distance(scale[k] as real, x) <= Distance(scale[j] as real, x)
    ensures forall j :: 0 <= j < k ==> Distance(scale[j] as real, x) > Distance(scale[k] as real, x)
  {
    if |scale| == 1 then 0
    else
      var init := scale[..|scale| - 1];
      var k := NearestIndex(init, x);
      assert forall j :: 0 <= j < |init| ==> init[j] == scale[j];
      var last := |scale| - 1;
      if Distance(scale[last] as real, x) < Distance(scale[k] as real, x) then last else k
  }

  /** The story-point scale of the points estimators. */
  const Fibonacci: seq<int> := [1, 2, 3, 5, 8, 13, 21]

  predicate StrictlyIncreasing(s: seq<int>) {
    forall i, j :: 0 <= i < j < |s| ==> s[i] < s[j]
  }

  /** `min(fibonacci, key=lambda x: abs(x - raw_avg))`. */
  function SnapToFibonacci(x: real): (p: int)
    ensures p in Fibonacci
    ensures forall q :: q in Fibonacci ==> Distance(p as real, x) <= Distance(q as real, x)
    ensures forall q :: q in Fibonacci && q < p ==> Distance(q as real, x) > Distance(p as real, x)
  {
    var k := NearestIndex(Fibonacci, x);
    assert StrictlyIncreasing(Fibonacci);
    Fibonacci[k]
  }

  /** A value already on the scale snaps to itself. */
  lemma SnapFixesScaleMembers(p: int)
    requires p in Fibonacci
    ensures SnapToFibonacci(p as real) == p
  {
    var r := SnapToFibonacci(p as real);
    assert Distance(r as real, p as real) <= Distance(p as real, p as real);
  }

  /** Snapping is idempotent. */
  lemma SnapIdempotent(x: real)
    ensures SnapToFibonacci(SnapToFibonacci(x) as real) == SnapToFibonacci(x)
  {
    SnapFixesScaleMembers(SnapToFibonacci(x));
  }

  /** 4.4 is nearest to 5; 4.0 is equally far from 3 and 5 and goes down to 3. */
  lemma SnapExamples()
    ensures SnapToFibonacci(4.4) == 5
    ensures SnapToFibonacci(4.0) == 3
  {
    assert Fibonacci[3] == 5 && Fibonacci[2] == 3;
  }
}
