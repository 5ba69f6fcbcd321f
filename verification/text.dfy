/** The handful of Python `str` and JavaScript `String` operations the
    estimators, the analysis transform and the report formatter are built
    from, on strings as sequences of characters. */
module Text {
  import opened Results

  /** Whitespace removed by both Python's `str.strip()` and JavaScript's
      `trim()` among the ASCII characters: space, tab, line feed, vertical
      tab, form feed, carriage return. */
  predicate IsSpace(c: char) {
    c == ' ' || '\t' <= c <= '\r'
  }

  predicate AllSpace(s: string) {
    forall i :: 0 <= i < |s| ==> IsSpace(s[i])
  }

  /** Neither end of `s` is whitespace. */
  predicate IsTrimmed(s: string) {
    |s| == 0 || (!IsSpace(s[0]) && !IsSpace(s[|s| - 1]))
  }

  /** `s` with its leading whitespace removed. */
  function TrimStart(s: string): (r: string)
    ensures |r| <= |s| && r == s[|s| - |r|..]
    ensures AllSpace(s[..|s| - |r|])
    ensures |r| == 0 || !IsSpace(r[0])
  {
    if |s| > 0 && IsSpace(s[0]) then
      var r := TrimStart(s[1..]);
      assert s[..|s| - |r|] == [s[0]] + s[1..][..|s| - 1 - |r|];
      r
    else
      s
  }

  /** `s` with its trailing whitespace removed. */
  function TrimEnd(s: string): (r: string)
    ensures |r| <= |s| && r == s[..|r|]
    ensures AllSpace(s[|r|..])
    ensures |r| == 0 || !IsSpace(r[|r| - 1])
  {
    if |s| > 0 && IsSpace(s[|s| - 1]) then
      var r := TrimEnd(s[..|s| - 1]);
      assert s[|r|..] == s[..|s| - 1][|r|..] + [s[|s| - 1]];
      r
    else
      s
  }

  /** Python's `s.strip()` / JavaScript's `s.trim()`. */
  function Strip(s: string): (r: string)
    ensures IsTrimmed(r) && |r| <= |s|
  {
    TrimEnd(TrimStart(s))
  }

  /** What `Strip` leaves is a slice of its input with only whitespace cut
      away at either end. */
  lemma {:induction false} StripIsInfix(s: string)
    ensures exists i, j :: 0 <= i <= j <= |s| && Strip(s) == s[i..j] && AllSpace(s[..i]) && AllSpace(s[j..])
  {
    var t := TrimStart(s);
    var r := TrimEnd(t);
    var i := |s| - |t|;
    var j := i + |r|;
    assert r == s[i..j];
    assert s[j..] == t[|r|..];
    assert AllSpace(s[..i]) && AllSpace(s[j..]);
  }

  /** Stripping is idempotent, and cutting whitespace padding off a trimmed
      string gives the string back. */
  lemma {:induction false} StripPadded(a: string, t: string, b: string)
    requires AllSpace(a) && AllSpace(b) && IsTrimmed(t)
    ensures Strip(a + t + b) == t
  {
    if |t| == 0 {
      AllSpaceTrimsToNothing(a + t + b);
    } else {
      StripPaddedText(a, t, b);
    }
  }

  lemma {:induction false} StripPaddedText(a: string, t: string, b: string)
    requires AllSpace(a) && AllSpace(b) && |t| > 0 && !IsSpace(t[0]) && !IsSpace(t[|t| - 1])
    ensures Strip(a + t + b) == t
  {
    var tb := t + b;
    assert TrimStart(a + t + b) == tb by {
      assert tb[0] == t[0];
      assert a + t + b == a + tb;
      TrimStartPadded(a, tb);
    }
    assert TrimEnd(tb) == t by {
      TrimEndPadded(t, b);
    }
  }

  lemma {:induction false} AllSpaceTrimsToNothing(s: string)
    requires AllSpace(s)
    ensures TrimStart(s) == [] && Strip(s) == []
  {
    if |s| > 0 {
      AllSpaceTrimsToNothing(s[1..]);
    }
  }

  lemma {:induction false} TrimStartPadded(a: string, u: string)
    requires AllSpace(a) && (|u| == 0 || !IsSpace(u[0]))
    ensures TrimStart(a + u) == u
  {
    if |a| > 0 {
      assert (a + u)[1..] == a[1..] + u;
      TrimStartPadded(a[1..], u);
    } else {
      assert a + u == u;
    }
  }

  lemma {:induction false} TrimEndPadded(u: string, b: string)
    requires AllSpace(b) && (|u| == 0 || !IsSpace(u[|u| - 1]))
    ensures TrimEnd(u + b) == u
  {
    if |b| > 0 {
      assert (u + b)[..|u + b| - 1] == u + b[..|b| - 1];
      TrimEndPadded(u, b[..|b| - 1]);
    } else {
      assert u + b == u;
    }
  }

  lemma {:induction false} StripIdempotent(s: string)
    ensures Strip(Strip(s)) == Strip(s)
  {
    StripPadded("", Strip(s), "");
    assert "" + Strip(s) + "" == Strip(s);
  }

  /** Position of the first `c` in `s`. */
  function IndexOf(s: string, c: char): (i: nat)
    requires c in s
    ensures i < |s| && s[i] == c
    ensures forall j :: 0 <= j < i ==> s[j] != c
  {
    if s[0] == c then 0
    else 1 + IndexOf(s[1..], c)
  }

  /** `IndexOf` is the only position holding `c` with no `c` before it. */
  lemma {:induction false} IndexOfUnique(s: string, c: char, i: nat)
    requires i < |s| && s[i] == c
    requires forall j :: 0 <= j < i ==> s[j] != c
    ensures IndexOf(s, c) == i
  {
  }

  /** Python's `s.split(sep)` (and JavaScript's `s.split(sep)`) for a
      one-character separator: the maximal runs between separators, in
      order; always at least one piece. */
  function Split(s: string, sep: char): (parts: seq<string>)
    ensures |parts| >= 1
    ensures forall k :: 0 <= k < |parts| ==> sep !in parts[k]
    ensures |parts| == 1 <==> sep !in s
    ensures sep !in s ==> parts == [s]
    decreases |s|
  {
    if sep !in s then [s]
    else
      var i := IndexOf(s, sep);
      [s[..i]] + Split(s[i + 1..], sep)
  }

  /** Python's `sep.join(parts)` / JavaScript's `parts.join(sep)`. */
  function Join(parts: seq<string>, sep: string): string
  {
    if |parts| == 0 then ""
    else if |parts| == 1 then parts[0]
    else parts[0] + sep + Join(parts[1..], sep)
  }

  /** Joining a first piece in front of a non-empty list puts the separator
      between them. */
  lemma {:induction false} JoinPrepend(p: string, ps: seq<string>, sep: string)
    requires |ps| >= 1
    ensures Join([p] + ps, sep) == p + sep + Join(ps, sep)
  {
    assert ([p] + ps)[1..] == ps;
  }

  /** A text with a separator splits into the part before its first
      separator and the pieces of the rest. */
  lemma {:induction false} SplitAtFirst(s: string, sep: char)
    requires sep in s
    ensures var i := IndexOf(s, sep);
            Split(s, sep) == [s[..i]] + Split(s[i + 1..], sep)
  {
  }

  /** A text is what comes before position `i`, the character there, and
      what follows. */
  lemma SliceAround(s: string, i: nat)
    requires i < |s|
    ensures s == s[..i] + [s[i]] + s[i + 1..]
  {
  }

  /** The elements after the head of `[x] + t` are those of `t`. */
  lemma ConsIndex<T>(x: T, t: seq<T>, s: seq<T>, i: nat)
    requires s == [x] + t && 1 <= i < |s|
    ensures s[i] == t[i - 1]
  {
  }

  /** A sequence that agrees with `a` on its first part and with `b` on
      the rest is `a + b`. */
  lemma SeqAppendByParts<T>(s: seq<T>, a: seq<T>, b: seq<T>)
    requires |s| == |a| + |b|
    requires forall i :: 0 <= i < |a| ==> s[i] == a[i]
    requires forall i :: 0 <= i < |b| ==> s[|a| + i] == b[i]
    ensures s == a + b
  {
    assert forall i :: |a| <= i < |s| ==> s[i] == b[i - |a|];
  }

  /** A slice `x` of a suffix is a slice of the whole. */
  lemma SliceOfSlice<T>(s: seq<T>, k: nat, l: nat, h: nat, x: seq<T>)
    requires k <= |s| && l <= h <= |s| - k && x == s[k..][l..h]
    ensures x == s[k + l..k + h]
  {
  }

  /** Joining the pieces of a split with the separator restores the text. */
  lemma {:induction false} JoinSplit(s: string, sep: char)
    ensures Join(Split(s, sep), [sep]) == s
    decreases |s|
  {
    if sep in s {
      var i := IndexOf(s, sep);
      var rest := s[i + 1..];
      SplitAtFirst(s, sep);
      JoinSplit(rest, sep);
      JoinPrepend(s[..i], Split(rest, sep), [sep]);
      SliceAround(s, i);
    }
  }

  /** Splitting a join whose pieces are free of the separator gives the
      pieces back. */
  lemma {:induction false} SplitJoin(parts: seq<string>, sep: char)
    requires |parts| >= 1
    requires forall k :: 0 <= k < |parts| ==> sep !in parts[k]
    ensures Split(Join(parts, [sep]), sep) == parts
  {
    if |parts| > 1 {
      var p, ps := parts[0], parts[1..];
      assert parts == [p] + ps;
      JoinPrepend(p, ps, [sep]);
      SplitAfterFirst(p, Join(ps, [sep]), sep);
      SplitJoin(ps, sep);
    }
  }

  /** Splitting text whose first separator follows `head` gives `head`
      and then the pieces of the rest. */
  lemma {:induction false} SplitAfterFirst(head: string, rest: string, sep: char)
    requires sep !in head
    ensures Split(head + [sep] + rest, sep) == [head] + Split(rest, sep)
  {
    var s := head + [sep] + rest;
    assert s[|head|] == sep;
    assert forall j :: 0 <= j < |head| ==> s[j] == head[j];
    IndexOfUnique(s, sep, |head|);
    assert s[..|head|] == head;
    assert s[|head| + 1..] == rest;
  }

  /** Joining two non-empty lists puts the separator between their joins. */
  lemma {:induction false} JoinAppend(a: seq<string>, b: seq<string>, sep: string)
    requires |a| >= 1 && |b| >= 1
    ensures Join(a + b, sep) == Join(a, sep) + sep + Join(b, sep)
    decreases |a|
  {
    var ab := a + b;
    assert ab[0] == a[0];
    if |a| == 1 {
      assert ab[1..] == b;
    } else {
      assert ab[1..] == a[1..] + b;
      JoinAppend(a[1..], b, sep);
    }
  }

  /** Joining `prefix + [last]` puts the separator and then `last` at the end. */
  lemma {:induction false} JoinSnoc(prefix: seq<string>, last: string, sep: string)
    requires |prefix| >= 1
    ensures Join(prefix + [last], sep) == Join(prefix, sep) + sep + last
    decreases |prefix|
  {
    var ps := prefix + [last];
    if |prefix| == 1 {
      assert ps[1..] == [last];
    } else {
      assert ps[1..] == prefix[1..] + [last];
      JoinSnoc(prefix[1..], last, sep);
    }
  }

  /** `pat` occurs in `s` starting at position `i`. */
  predicate OccursAt(s: string, pat: string, i: int) {
    0 <= i && i + |pat| <= |s| && s[i..i + |pat|] == pat
  }

  /** JavaScript's `s.indexOf(pat)` / Python's `s.find(pat)`, with absence as `None`. */
  function Find(s: string, pat: string): (r: Option<nat>)
    ensures r.Some? ==> OccursAt(s, pat, r.value)
    ensures r.Some? ==> forall j :: 0 <= j < r.value ==> !OccursAt(s, pat, j)
    ensures r.None? <==> forall j :: !OccursAt(s, pat, j)
    decreases |s|
  {
    if |pat| <= |s| && s[..|pat|] == pat then Some(0)
    else if |s| == 0 then None
    else
      assert !OccursAt(s, pat, 0);
      ShiftOccurrence(s, pat);
      match Find(s[1..], pat)
      case Some(k) => Some(k + 1)
      case None => None
  }

  lemma {:induction false} ShiftOccurrence(s: string, pat: string)
    requires |s| > 0
    ensures forall j :: 1 <= j ==> (OccursAt(s, pat, j) <==> OccursAt(s[1..], pat, j - 1))
  {
    forall j | 1 <= j
      ensures OccursAt(s, pat, j) <==> OccursAt(s[1..], pat, j - 1)
    {
      if j + |pat| <= |s| {
        var u, v := s[j..j + |pat|], s[1..][j - 1..j - 1 + |pat|];
        assert |u| == |v| && forall k :: 0 <= k < |u| ==> u[k] == s[j + k] == v[k];
      }
    }
  }

  /** Python's `pat in s` / JavaScript's `s.includes(pat)`. */
  predicate Contains(s: string, pat: string) {
    Find(s, pat).Some?
  }

  /** A string containing `pat` still contains it once extended. */
  lemma {:induction false} ContainsExtends(s: string, t: string, pat: string)
    requires Contains(s, pat)
    ensures Contains(s + t, pat)
  {
    var i := Find(s, pat).value;
    assert (s + t)[i..i + |pat|] == s[i..i + |pat|];
    assert OccursAt(s + t, pat, i);
  }

  /** An occurrence with none before it is the one `Find` reports. */
  lemma {:induction false} FindFirstOccurrence(s: string, pat: string, i: nat)
    requires OccursAt(s, pat, i)
    requires forall j :: 0 <= j < i ==> !OccursAt(s, pat, j)
    ensures Find(s, pat) == Some(i)
  {
    var r := Find(s, pat);
    assert r.Some?;
    assert !(r.value < i);
    assert !(i < r.value);
  }

  /** A text lacking one of the pattern's characters cannot contain it. */
  lemma {:induction false} MissingCharNotContained(s: string, pat: string, k: nat)
    requires k < |pat| && pat[k] !in s
    ensures !Contains(s, pat)
  {
    forall j | 0 <= j
      ensures !OccursAt(s, pat, j)
    {
      if j + |pat| <= |s| {
        assert s[j..j + |pat|][k] == s[j + k];
      }
    }
  }

  /** JavaScript's `s.replace(pat, '')` for a string pattern: the first
      occurrence of `pat` is cut out, and nothing else changes. */
  function RemoveFirst(s: string, pat: string): (r: string)
    ensures !Contains(s, pat) ==> r == s
    ensures Contains(s, pat) ==> |r| == |s| - |pat|
    ensures Contains(s, pat) ==>
              exists i :: OccursAt(s, pat, i) && (forall j :: 0 <= j < i ==> !OccursAt(s, pat, j))
                          && r == s[..i] + s[i + |pat|..]
  {
    match Find(s, pat)
    case None => s
    case Some(i) => s[..i] + s[i + |pat|..]
  }

  /** Cutting the first occurrence out of `a + pat + b`, when `pat` starts
      nowhere before the end of `a`, leaves `a + b`. */
  lemma {:induction false} RemoveFirstSplice(a: string, pat: string, b: string)
    requires forall j :: 0 <= j < |a| ==> !OccursAt(a + pat + b, pat, j)
    ensures RemoveFirst(a + pat + b, pat) == a + b
  {
    var s := a + pat + b;
    assert s[|a|..|a| + |pat|] == pat;
    FindFirstOccurrence(s, pat, |a|);
    assert s[..|a|] == a && s[|a| + |pat|..] == b;
  }

  /** Python's `s.startswith(p)` / JavaScript's `s.startsWith(p)`. */
  predicate StartsWith(s: string, p: string) {
    |p| <= |s| && s[..|p|] == p
  }

  /** Python's `s.endswith(p)` / JavaScript's `s.endsWith(p)`. */
  predicate EndsWith(s: string, p: string) {
    |p| <= |s| && s[|s| - |p|..] == p
  }

  /** Each item of a list prefixed with a dash and a space. */
  function Bullets(items: seq<string>): (ls: seq<string>)
    ensures |ls| == |items|
    ensures forall i :: 0 <= i < |items| ==> ls[i] == "- " + items[i]
  {
    seq(|items|, i requires 0 <= i < |items| => "- " + items[i])
  }

  /** Python's `c * n` for a one-character string `c`. */
  function Repeat(c: char, n: nat): (r: string)
    ensures |r| == n && forall i :: 0 <= i < n ==> r[i] == c
  {
    seq(n, _ => c)
  }
}
