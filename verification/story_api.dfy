/** The frontend's reshaping of an analysis reply for display
    (frontend/src/api/storyApi.ts): one entry per INVEST criterion holding
    the text of the analysis lines that mention it, and the bulleted
    suggestion lines parsed into key/value pairs. */
module StoryApi {
  import opened Results
  import opened Text

  /** The six INVEST criteria in display order. */
  const InvestOrder: seq<string> := ["Independent", "Negotiable", "Valuable", "Estimable", "Small", "Testable"]

  /** The `improved_story` object of a reply; a field is `None` when absent. */
  datatype ImprovedStoryIn = ImprovedStoryIn(text: Option<string>, acceptanceCriteria: Option<seq<string>>)

  /** The reply handed to `transformAnalysis`. */
  datatype RawAnalysis = RawAnalysis(improvedStory: Option<ImprovedStoryIn>, analysis: string, suggestions: Option<map<string, string>>)

  datatype InvestEntry = InvestEntry(letter: string, title: string, content: string)

  datatype StoryView = StoryView(text: string, acceptanceCriteria: seq<string>)

  /** What the view receives. */
  datatype MockAnalysis = MockAnalysis(improvedStory: StoryView, investAnalysis: seq<InvestEntry>, suggestions: map<string, string>)

  /** The tag a line must contain to count for `criterion`. */
  function Tag(criterion: string): (t: string)
    ensures |t| == |criterion| + 1 && t[|criterion|] == ':'
  {
    criterion + ":"
  }

  /** What one line contributes to `criterion`: the line with its first
      `criterion:` cut out, trimmed; `None` when the line lacks the tag. */
  function CriterionPiece(line: string, criterion: string): (p: Option<string>)
    ensures p.Some? <==> Contains(line, Tag(criterion))
    ensures p.Some? ==> IsTrimmed(p.value)
    ensures p.Some? ==> var t := Tag(criterion);
              exists i :: OccursAt(line, t, i) && (forall j :: 0 <= j < i ==> !OccursAt(line, t, j))
                          && p.value == Strip(line[..i] + line[i + |t|..])
  {
    var t := Tag(criterion);
    if Contains(line, t) then
      var i := Find(line, t).value;
      assert RemoveFirst(line, t) == line[..i] + line[i + |t|..];
      Some(Strip(RemoveFirst(line, t)))
    else None
  }

  /** The present values of `vs`, in order: JavaScript's `filter` then
      `map`, with the filter and the map folded into one `Option`. */
  function Somes<T>(vs: seq<Option<T>>): (r: seq<T>)
    ensures |r| <= |vs|
    ensures |r| == 0 <==> forall i :: 0 <= i < |vs| ==> vs[i].None?
    ensures forall x :: x in r ==> Some(x) in vs
  {
    if |vs| == 0 then []
    else
      var init := vs[..|vs| - 1];
      assert forall i :: 0 <= i < |init| ==> init[i] == vs[i];
      var r := Somes(init);
      match vs[|vs| - 1]
      case None => r
      case Some(x) => r + [x]
  }

  /** `Somes` of a concatenation is the concatenation of each part's. */
  lemma {:induction false} SomesAppend<T>(a: seq<Option<T>>, b: seq<Option<T>>)
    ensures Somes(a + b) == Somes(a) + Somes(b)
    decreases |b|
  {
    if |b| == 0 {
      assert a + b == a;
    } else {
      var b' := b[..|b| - 1];
      assert (a + b)[..|a + b| - 1] == a + b';
      assert (a + b)[|a + b| - 1] == b[|b| - 1];
      SomesAppend(a, b');
    }
  }

  /** Every present value is kept. */
  lemma {:induction false} SomesKeeps<T>(vs: seq<Option<T>>, i: nat)
    requires i < |vs| && vs[i].Some?
    ensures vs[i].value in Somes(vs)
    decreases |vs|
  {
    var init := vs[..|vs| - 1];
    if i < |vs| - 1 {
      assert init[i] == vs[i];
      SomesKeeps(init, i);
    }
  }

  /** What each line contributes to `criterion`. */
  function LinePieces(lines: seq<string>, criterion: string): (vs: seq<Option<string>>)
    ensures |vs| == |lines|
    ensures forall i :: 0 <= i < |lines| ==> vs[i] == CriterionPiece(lines[i], criterion)
  {
    seq(|lines|, i requires 0 <= i < |lines| => CriterionPiece(lines[i], criterion))
  }

  /** The pieces of the lines mentioning `criterion`, in line order. */
  function CriterionPieces(lines: seq<string>, criterion: string): (ps: seq<string>)
    ensures |ps| <= |lines|
    ensures |ps| == 0 <==> forall i :: 0 <= i < |lines| ==> !Contains(lines[i], Tag(criterion))
    ensures forall k :: 0 <= k < |ps| ==> IsTrimmed(ps[k])
  {
    var vs := LinePieces(lines, criterion);
    var ps := Somes(vs);
    forall k | 0 <= k < |ps|
      ensures IsTrimmed(ps[k])
    {
      assert ps[k] in ps;
      var i :| 0 <= i < |vs| && vs[i] == Some(ps[k]);
    }
    ps
  }

  /** The pieces of a concatenation are the pieces of each part. */
  lemma CriterionPiecesAppend(a: seq<string>, b: seq<string>, criterion: string)
    ensures CriterionPieces(a + b, criterion) == CriterionPieces(a, criterion) + CriterionPieces(b, criterion)
  {
    LinePiecesAppend(a, b, criterion);
    SomesAppend(LinePieces(a, criterion), LinePieces(b, criterion));
  }

  lemma LinePiecesAppend(a: seq<string>, b: seq<string>, criterion: string)
    ensures LinePieces(a + b, criterion) == LinePieces(a, criterion) + LinePieces(b, criterion)
  {
    var l, la, lb := LinePieces(a + b, criterion), LinePieces(a, criterion), LinePieces(b, criterion);
    assert |l| == |la| + |lb|;
    forall i | 0 <= i < |a|
      ensures l[i] == la[i]
    {
      assert (a + b)[i] == a[i];
      assert l[i] == CriterionPiece(a[i], criterion);
    }
    forall i | 0 <= i < |b|
      ensures l[|a| + i] == lb[i]
    {
      assert (a + b)[|a| + i] == b[i];
      assert l[|a| + i] == CriterionPiece(b[i], criterion);
    }
    SeqAppendByParts(l, la, lb);
  }


  /** A single line contributes its piece, or nothing. */
  lemma CriterionPiecesSingle(line: string, criterion: string)
    ensures CriterionPieces([line], criterion)
         == match CriterionPiece(line, criterion) case None => [] case Some(p) => [p]
  {
    var vs := LinePieces([line], criterion);
    assert vs[..0] == [];
  }

  /** The `content` of `criterion`'s entry: its pieces joined with single
      spaces. */
  function CriterionContent(analysis: string, criterion: string): string
  {
    Join(CriterionPieces(Split(analysis, '\n'), criterion), " ")
  }

  /** An analysis that never mentions the criterion leaves its entry empty. */
  lemma CriterionContentAbsent(analysis: string, criterion: string)
    requires !Contains(analysis, Tag(criterion))
    ensures CriterionContent(analysis, criterion) == ""
  {
    var lines := Split(analysis, '\n');
    forall i | 0 <= i < |lines|
      ensures CriterionPiece(lines[i], criterion).None?
    {
      SplitPartsAbsent(analysis, '\n', Tag(criterion), i);
    }
  }

  /** Every piece of a split lacks whatever the whole text lacks. */
  lemma {:induction false} SplitPartsAbsent(s: string, sep: char, pat: string, i: nat)
    requires !Contains(s, pat) && i < |Split(s, sep)|
    ensures !Contains(Split(s, sep)[i], pat)
  {
    var lo, hi := SplitPartBounds(s, sep, i);
    SliceAbsent(s, lo, hi, pat);
  }

  /** Every piece of a split is a slice of the text. */
  lemma {:induction false} SplitPartBounds(s: string, sep: char, i: nat) returns (lo: nat, hi: nat)
    requires i < |Split(s, sep)|
    ensures lo <= hi <= |s| && Split(s, sep)[i] == s[lo..hi]
  {
    JoinSplit(s, sep);
    lo, hi := JoinPartBounds(Split(s, sep), [sep], i);
  }

  /** Every piece of a join is a slice of it. */
  lemma {:induction false} JoinPartBounds(parts: seq<string>, sep: string, i: nat) returns (lo: nat, hi: nat)
    requires i < |parts|
    ensures lo <= hi <= |Join(parts, sep)| && parts[i] == Join(parts, sep)[lo..hi]
  {
    var joined := Join(parts, sep);
    if |parts| == 1 || i == 0 {
      lo, hi := 0, |parts[0]|;
      assert joined[..|parts[0]|] == parts[0];
      assert joined[0..|parts[0]|] == parts[0];
    } else {
      var rest := Join(parts[1..], sep);
      var k := |parts[0]| + |sep|;
      assert joined == parts[0] + sep + rest;
      assert joined[k..] == rest;
      var l, h := JoinPartBounds(parts[1..], sep, i - 1);
      lo, hi := k + l, k + h;
      SliceOfSlice(joined, k, l, h, parts[i]);
    }
  }

  lemma {:induction false} SliceAbsent(s: string, lo: nat, hi: nat, pat: string)
    requires !Contains(s, pat) && lo <= hi <= |s|
    ensures !Contains(s[lo..hi], pat)
  {
    assert s == s[..lo] + (s[lo..hi] + s[hi..]);
    NotContainedSuffix(s[..lo], s[lo..hi] + s[hi..], pat);
    NotContainedPrefix(s[lo..hi], s[hi..], pat);
  }

  lemma {:induction false} NotContainedPrefix(s: string, t: string, pat: string)
    requires !Contains(s + t, pat)
    ensures !Contains(s, pat)
  {
    if Contains(s, pat) {
      ContainsExtends(s, t, pat);
    }
  }

  lemma {:induction false} NotContainedSuffix(s: string, t: string, pat: string)
    requires !Contains(s + t, pat)
    ensures !Contains(t, pat)
  {
    forall j | 0 <= j
      ensures !OccursAt(t, pat, j)
    {
      if j + |pat| <= |t| {
        assert (s + t)[|s| + j..|s| + j + |pat|] == t[j..j + |pat|];
        assert !OccursAt(s + t, pat, |s| + j);
      }
    }
  }

  /** A line qualifies as a suggestion when it mentions `Suggestions:` and,
      trimmed, starts with a dash. */
  predicate IsSuggestionLine(line: string) {
    Contains(line, "Suggestions:") && StartsWith(Strip(line), "-")
  }

  /** The destructuring `[key, ...value] = t.split(':')` guarded by
      `key && value.length`: the pair of the trimmed key and the trimmed
      rest joined back with `:`. */
  function KeyValue(t: string): (r: Option<(string, string)>)
    ensures r.Some? <==> ':' in t && t[0] != ':'
    ensures r.Some? ==> var i := IndexOf(t, ':');
                        r.value == (Strip(t[..i]), Strip(t[i + 1..]))
  {
    var parts := Split(t, ':');
    var key, value := parts[0], parts[1..];
    if key != "" && |value| > 0 then
      KeyValueSplit(t);
      Some((Strip(key), Strip(Join(value, ":"))))
    else
      if ':' in t then KeyValueSplit(t); None else None
  }

  /** Splitting at the first colon: the first part is the text before it,
      and the later parts join back to the text after it. */
  lemma {:induction false} KeyValueSplit(t: string)
    requires ':' in t
    ensures var i := IndexOf(t, ':'); var parts := Split(t, ':');
            |parts| >= 2 && parts[0] == t[..i] && Join(parts[1..], ":") == t[i + 1..]
            && (parts[0] == "" <==> t[0] == ':')
  {
    var i := IndexOf(t, ':');
    var head, rest := t[..i], t[i + 1..];
    assert t == head + [':'] + rest;
    SplitAfterFirst(head, rest, ':');
    var parts := Split(t, ':');
    assert parts[1..] == Split(rest, ':');
    JoinSplit(rest, ':');
    assert i > 0 ==> t[0] == head[0];
  }

  /** One suggestion line's `key`/`value` pair: the first dash removed, the
      line trimmed and split at its first colon. */
  function ParseSuggestion(line: string): Option<(string, string)>
  {
    KeyValue(Strip(RemoveFirst(line, "-")))
  }

  /** The one key a plain JavaScript object does not store: assigning a
      string to `__proto__` goes to the prototype setter, which ignores
      anything that is not an object. */
  const ReservedKey: string := "__proto__"

  /** What a line adds to the suggestions: its pair, unless the line is no
      suggestion line, does not parse, or names the reserved key. */
  function Suggestion(line: string): (r: Option<(string, string)>)
    ensures r.Some? ==> r.value.0 != ReservedKey
    ensures r.Some? <==> IsSuggestionLine(line) && ParseSuggestion(line).Some? && ParseSuggestion(line).value.0 != ReservedKey
  {
    if !IsSuggestionLine(line) then None
    else match ParseSuggestion(line)
      case Some(kv) => if kv.0 == ReservedKey then None else Some(kv)
      case None => None
  }

  /** The record `forEach` builds from key/value pairs: a later pair with
      the same key overwrites an earlier one. */
  function Record(pairs: seq<(string, string)>): (m: map<string, string>)
    ensures |pairs| == 0 <==> m == map[]
    decreases |pairs|
  {
    if |pairs| == 0 then map[]
    else
      var kv := pairs[|pairs| - 1];
      var m := Record(pairs[..|pairs| - 1])[kv.0 := kv.1];
      assert kv.0 in m;
      m
  }

  /** The keys are exactly the keys of the pairs. */
  lemma {:induction false} RecordKeys(pairs: seq<(string, string)>, key: string)
    ensures key in Record(pairs) <==> exists i :: 0 <= i < |pairs| && pairs[i].0 == key
    decreases |pairs|
  {
    if |pairs| > 0 {
      var init := pairs[..|pairs| - 1];
      RecordKeys(init, key);
      if key in Record(pairs) && pairs[|pairs| - 1].0 != key {
        var i :| 0 <= i < |init| && init[i].0 == key;
        assert pairs[i] == init[i];
      }
      if key !in Record(pairs) {
        forall i | 0 <= i < |pairs|
          ensures pairs[i].0 != key
        {
          if i < |init| {
            assert pairs[i] == init[i];
          }
        }
      }
    }
  }

  /** Each key holds the value of the last pair that carries it. */
  lemma {:induction false} RecordLastWins(pairs: seq<(string, string)>, i: nat)
    requires i < |pairs|
    requires forall j :: i < j < |pairs| ==> pairs[j].0 != pairs[i].0
    ensures pairs[i].0 in Record(pairs) && Record(pairs)[pairs[i].0] == pairs[i].1
    decreases |pairs|
  {
    var init := pairs[..|pairs| - 1];
    if i < |pairs| - 1 {
      assert init[i] == pairs[i];
      assert forall j :: i < j < |init| ==> init[j] == pairs[j];
      RecordLastWins(init, i);
    }
  }

  /** What each line adds to the suggestions. */
  function LineSuggestions(lines: seq<string>): (vs: seq<Option<(string, string)>>)
    ensures |vs| == |lines|
    ensures forall i :: 0 <= i < |lines| ==> vs[i] == Suggestion(lines[i])
  {
    seq(|lines|, i requires 0 <= i < |lines| => Suggestion(lines[i]))
  }

  /** Some line adds a suggestion. */
  predicate HasSuggestionLine(lines: seq<string>) {
    exists i :: 0 <= i < |lines| && Suggestion(lines[i]).Some?
  }

  /** The `suggestions` record: the pairs of the suggestion lines that
      parse, in line order. */
  function Suggestions(lines: seq<string>): (m: map<string, string>)
    ensures m == map[] <==> !HasSuggestionLine(lines)
  {
    var vs := LineSuggestions(lines);
    Record(Somes(vs))
  }

  /** No analysis text ever records the reserved key. */
  lemma ReservedKeyNeverRecorded(lines: seq<string>)
    ensures ReservedKey !in Suggestions(lines)
  {
    PairsAvoidReservedKey(LineSuggestions(lines), lines);
  }

  lemma PairsAvoidReservedKey(vs: seq<Option<(string, string)>>, lines: seq<string>)
    requires |vs| == |lines| && forall i :: 0 <= i < |lines| ==> vs[i] == Suggestion(lines[i])
    ensures ReservedKey !in Record(Somes(vs))
  {
    var ps := Somes(vs);
    forall k | 0 <= k < |ps|
      ensures ps[k].0 != ReservedKey
    {
      assert ps[k] in ps;
      var j :| 0 <= j < |vs| && vs[j] == Some(ps[k]);
      assert Suggestion(lines[j]).value == ps[k];
    }
    RecordKeys(ps, ReservedKey);
  }

  /** The entry for one criterion: its initial, its name, and the text of
      the lines that mention it. */
  function InvestEntryFor(analysis: string, criterion: string): (e: InvestEntry)
    requires criterion != ""
    ensures e.letter == criterion[..1] && e.title == criterion
  {
    InvestEntry([criterion[0]], criterion, CriterionContent(analysis, criterion))
  }

  /** The INVEST entries, one per criterion in display order. */
  function InvestAnalysis(analysis: string): (es: seq<InvestEntry>)
    ensures |es| == |InvestOrder|
    ensures forall k :: 0 <= k < |InvestOrder| ==> es[k].title == InvestOrder[k] && es[k].letter == InvestOrder[k][..1]
    ensures forall k :: 0 <= k < |InvestOrder| ==> es[k].content == CriterionContent(analysis, InvestOrder[k])
  {
    seq(|InvestOrder|, k requires 0 <= k < |InvestOrder| => InvestEntryFor(analysis, InvestOrder[k]))
  }

  /** The suggestions shown: those found in the analysis lines, or when
      there are none the reply's own, or an empty record. */
  function ShownSuggestions(lines: seq<string>, fallback: Option<map<string, string>>): (m: map<string, string>)
    ensures !HasSuggestionLine(lines) ==> m == fallback.GetOr(map[])
    ensures HasSuggestionLine(lines) ==> m == Suggestions(lines) != map[]
  {
    var found := Suggestions(lines);
    if |found| > 0 then found else fallback.GetOr(map[])
  }

  /** `transformAnalysis(rawAnalysis)`. */
  function TransformAnalysis(raw: RawAnalysis): (v: MockAnalysis)
    ensures |v.investAnalysis| == 6
    ensures forall k :: 0 <= k < 6 ==>
              v.investAnalysis[k] == InvestEntry(["INVEST"[k]], InvestOrder[k], CriterionContent(raw.analysis, InvestOrder[k]))
    ensures !HasSuggestionLine(Split(raw.analysis, '\n')) ==> v.suggestions == raw.suggestions.GetOr(map[])
    ensures HasSuggestionLine(Split(raw.analysis, '\n')) ==>
              v.suggestions == Suggestions(Split(raw.analysis, '\n')) != map[]
    ensures raw.improvedStory.None? ==> v.improvedStory == StoryView("", [])
    ensures raw.improvedStory.Some? ==>
              v.improvedStory == StoryView(raw.improvedStory.value.text.GetOr(""),
                                           raw.improvedStory.value.acceptanceCriteria.GetOr([]))
  {
    InvestEntries(raw.analysis);
    var story := match raw.improvedStory
                 case None => StoryView("", [])
                 case Some(s) => StoryView(s.text.GetOr(""), s.acceptanceCriteria.GetOr([]));
    var lines := Split(raw.analysis, '\n');
    var shown := ShownSuggestions(lines, raw.suggestions);
    MockAnalysis(story, InvestAnalysis(raw.analysis), shown)
  }

  /** The entries in full: the acronym's letter, the criterion and the
      text of the lines that mention it. */
  lemma InvestEntries(analysis: string)
    ensures |InvestAnalysis(analysis)| == 6
    ensures forall k :: 0 <= k < 6 ==>
              InvestAnalysis(analysis)[k] == InvestEntry(["INVEST"[k]], InvestOrder[k], CriterionContent(analysis, InvestOrder[k]))
  {
    var es := InvestAnalysis(analysis);
    InvestInitials();
    forall k | 0 <= k < 6
      ensures es[k] == InvestEntry(["INVEST"[k]], InvestOrder[k], CriterionContent(analysis, InvestOrder[k]))
    {
      assert es[k].letter == InvestOrder[k][..1] == ["INVEST"[k]];
    }
  }

  /** The entry letters spell the acronym, in order. */
  lemma InvestLetters(raw: RawAnalysis)
    ensures var e := TransformAnalysis(raw).investAnalysis;
            forall k :: 0 <= k < |e| ==> e[k].letter == ["INVEST"[k]]
  {
    InvestInitials();
  }

  lemma InvestInitials()
    ensures forall k :: 0 <= k < |InvestOrder| ==> InvestOrder[k][..1] == ["INVEST"[k]]
  {
  }

  /** An analysis without any suggestion line falls back to the reply's own
      suggestions, or to an empty record. */
  lemma SuggestionsFallBack(raw: RawAnalysis)
    requires forall i :: 0 <= i < |Split(raw.analysis, '\n')| ==> !IsSuggestionLine(Split(raw.analysis, '\n')[i])
    ensures TransformAnalysis(raw).suggestions == raw.suggestions.GetOr(map[])
  {
  }

  /** Suggestions found in the analysis replace the reply's own. */
  lemma SuggestionsFound(raw: RawAnalysis, i: nat)
    requires i < |Split(raw.analysis, '\n')| && Suggestion(Split(raw.analysis, '\n')[i]).Some?
    ensures TransformAnalysis(raw).suggestions == Suggestions(Split(raw.analysis, '\n'))
    ensures Suggestion(Split(raw.analysis, '\n')[i]).value.0 in TransformAnalysis(raw).suggestions
  {
    var lines := Split(raw.analysis, '\n');
    var vs := LineSuggestions(lines);
    var kv := Suggestion(lines[i]).value;
    var ps := Somes(vs);
    SomesKeeps(vs, i);
    var j :| 0 <= j < |ps| && ps[j] == kv;
    RecordKeys(ps, kv.0);
  }

  /** A heading line followed by one line mentioning the criterion: the
      entry holds that line with the tag cut out, trimmed. */
  lemma SingleMentionContent(head: string, line: string, criterion: string)
    requires '\n' !in head && '\n' !in line
    requires !Contains(head, Tag(criterion)) && Contains(line, Tag(criterion))
    ensures CriterionContent(head + "\n" + line, criterion) == Strip(RemoveFirst(line, Tag(criterion)))
  {
    assert head + "\n" + line == head + ['\n'] + line;
    SplitAfterFirst(head, line, '\n');
    assert Split(head + "\n" + line, '\n') == [head] + [line];
    CriterionPiecesAppend([head], [line], criterion);
    CriterionPiecesSingle(head, criterion);
    CriterionPiecesSingle(line, criterion);
  }

  /** The first entry is always the `Independent` one, lettered `I`. */
  lemma FirstEntry(analysis: string)
    ensures InvestAnalysis(analysis)[0] == InvestEntry("I", "Independent", CriterionContent(analysis, "Independent"))
  {
    assert InvestOrder[0] == "Independent";
    assert "Independent"[..1] == "I";
  }

  /** The reply of the frontend's transformation test, its analysis text
      given as the heading line, a newline, and the bulleted line made of
      the dash, the tag and the rest: the `Independent` entry is the
      bulleted line with its tag cut out, which still contains `Score: 4`. */
  lemma IndependentExample(raw: RawAnalysis, head: string, dash: string, tag: string, rest: string)
    requires head == "INVEST Analysis:" && dash == "- " && tag == "Independent:"
    requires rest == " " + "Score: 4" + " Good independence..."
    requires raw.analysis == head + "\n" + (dash + tag + rest)
    ensures TransformAnalysis(raw).investAnalysis[0] == InvestEntry("I", "Independent", dash + rest)
    ensures OccursAt(TransformAnalysis(raw).investAnalysis[0].content, "Score: 4", 3)
  {
    var line := dash + tag + rest;
    assert tag == Tag("Independent");
    IndependentLine(head, dash, tag, rest);
    NoBreaks(head, dash, tag, rest);
    SingleMentionContent(head, line, "Independent");
    FirstEntry(raw.analysis);
    ScoreAt(dash + rest);
  }

  lemma NoBreaks(head: string, dash: string, tag: string, rest: string)
    requires head == "INVEST Analysis:" && dash == "- " && tag == Tag("Independent")
    requires rest == " " + "Score: 4" + " Good independence..."
    ensures '\n' !in head && '\n' !in dash + tag + rest
  {
    assert tag == "Independent:";
  }

  lemma ScoreAt(piece: string)
    requires piece == "- " + (" " + "Score: 4" + " Good independence...")
    ensures OccursAt(piece, "Score: 4", 3)
  {
    assert piece[3..3 + 8] == "Score: 4";
  }

  lemma IndependentLine(head: string, dash: string, tag: string, rest: string)
    requires head == "INVEST Analysis:" && dash == "- " && tag == Tag("Independent")
    requires rest == " " + "Score: 4" + " Good independence..."
    ensures !Contains(head, tag)
    ensures Contains(dash + tag + rest, tag)
    ensures Strip(RemoveFirst(dash + tag + rest, tag)) == dash + rest
  {
    assert !Contains(head, tag) by {
      assert tag[2] == 'd';
      MissingCharNotContained(head, tag, 2);
    }
    var line := dash + tag + rest;
    TagAfterDash(dash, tag, rest);
    assert RemoveFirst(line, tag) == dash + rest by {
      assert line[..2] == dash && line[2 + |tag|..] == rest;
    }
    PieceTrimmed(dash, rest);
  }

  /** The tag is found right after the two-character bullet. */
  lemma TagAfterDash(dash: string, tag: string, rest: string)
    requires dash == "- " && |tag| > 0 && tag[0] != '-' && tag[0] != ' '
    ensures Find(dash + tag + rest, tag) == Some(2)
  {
    var line := dash + tag + rest;
    assert line[2..2 + |tag|] == tag;
    assert !OccursAt(line, tag, 0) by { assert line[0..|tag|][0] == '-'; }
    assert !OccursAt(line, tag, 1) by { assert line[1..1 + |tag|][0] == ' '; }
    FindFirstOccurrence(line, tag, 2);
  }

  /** The bulleted remainder has no whitespace to strip. */
  lemma PieceTrimmed(dash: string, rest: string)
    requires dash == "- " && rest == " " + "Score: 4" + " Good independence..."
    ensures Strip(dash + rest) == dash + rest
  {
    var piece := dash + rest;
    assert piece[0] == '-' && piece[|piece| - 1] == '.';
    StripPadded("", piece, "");
    assert "" + piece + "" == piece;
  }
}
