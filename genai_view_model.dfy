/**
 * The generative-model view model: the UI state a prompt moves through,
 * and the post-processing that turns a pattern-analysis reply into a list
 * of named patterns (strict JSON first, then numbered headings, then
 * paragraphs, then a fixed entry). The model call, the JSON decoder and the
 * regular-expression engine are parameters: their results are inputs here.
 */
module GenAI {
  import opened Wrappers
  import opened KText

  /** One analysed pattern. */
  datatype AIResponseBody = AIResponseBody(patternName: string, description: string)

  /** The state of a text generation. */
  datatype UiState =
    | Initial
    | Loading
    | Success(outputText: string)
    | Error(errorMessage: string)
    | SuccessBody(outputPattern: seq<AIResponseBody>)

  /**
   * How the model call ended: a response, whose text may be null, or an
   * exception, whose localised message may be null.
   */
  datatype Reply = Response(text: Option<string>) | Failure(localizedMessage: Option<string>)

  /**
   * One match of the heading pattern `N. title` or `Pattern N: title`: the
   * index of its first and of its last character, and the title group of
   * each alternative (the one not taken is empty).
   */
  datatype Match = Match(first: int, last: int, numberedTitle: string, namedTitle: string)

  const NoInsight := "Analysis pattern identified"
  const FallbackPattern := AIResponseBody("Nutrition Data Analysis", "Generated insights from your nutrition data")
  const RawPattern := AIResponseBody("Raw Analysis Results", "Unable to parse structured data")

  /** No whitespace at either end. */
  predicate Trimmed(s: string) {
    s == [] || (!IsWhitespace(s[0]) && !IsWhitespace(s[|s| - 1]))
  }

  // ---------------------------------------------------------------- cleanup

  /** The reply with every "```json" removed, then every "```", then trimmed. */
  function Clean(s: string): string {
    Trim(ReplaceAll(ReplaceAll(s, "```json", ""), "```", ""))
  }

  /** The cleaned reply holds no code fence and has no surrounding whitespace. */
  lemma CleanSpec(s: string)
    ensures !Contains(Clean(s), "```") && Trimmed(Clean(s))
  {
    var t := ReplaceAll(ReplaceAll(s, "```json", ""), "```", "");
    RemoveFenceLeavesNone(ReplaceAll(s, "```json", ""));
    TrimSpec(t);
    var i := |t| - |TrimStart(t)|;
    InfixFree(t, i, i + |Clean(s)|, "```");
  }

  // ---------------------------------------------------------------- list filters

  /** `filter { it.isNotBlank() }`. */
  function NonBlank(xs: seq<string>): (r: seq<string>)
    ensures forall x :: x in r ==> x in xs && !IsBlank(x)
    ensures |r| == 0 <==> forall k :: 0 <= k < |xs| ==> IsBlank(xs[k])
    ensures |r| > 0 ==> exists k :: 0 <= k < |xs| && xs[k] == r[0] && forall j :: 0 <= j < k ==> IsBlank(xs[j])
  {
    if |xs| == 0 then []
    else if !IsBlank(xs[0]) then
      [xs[0]] + NonBlank(xs[1..])
    else
      var r := NonBlank(xs[1..]);
      assert |r| > 0 ==> exists k :: 0 <= k < |xs| && xs[k] == r[0] && forall j :: 0 <= j < k ==> IsBlank(xs[j]) by {
        if |r| > 0 {
          var k :| 0 <= k < |xs[1..]| && xs[1..][k] == r[0] && forall j :: 0 <= j < k ==> IsBlank(xs[1..][j]);
          assert xs[k + 1] == r[0];
          assert forall j :: 0 <= j < k + 1 ==> IsBlank(xs[j]) by {
            forall j | 0 <= j < k + 1 ensures IsBlank(xs[j]) {
              if j > 0 {
                assert xs[j] == xs[1..][j - 1];
              }
            }
          }
        }
      }
      assert forall x :: x in r ==> x in xs;
      r
  }

  /**
   * `filter { it.length > 10 }`: exactly the lines longer than ten
   * characters are kept, the first of them first.
   */
  function LongLines(xs: seq<string>): (r: seq<string>)
    ensures forall x :: x in r ==> x in xs && |x| > 10
    ensures forall k :: 0 <= k < |xs| && |xs[k]| > 10 ==> xs[k] in r
    ensures |r| > 0 ==> exists k :: 0 <= k < |xs| && xs[k] == r[0] && forall j :: 0 <= j < k ==> |xs[j]| <= 10
  {
    if |xs| == 0 then []
    else
      var r' := LongLines(xs[1..]);
      assert forall k :: 1 <= k < |xs| ==> xs[k] == xs[1..][k - 1];
      if |xs[0]| > 10 then [xs[0]] + r'
      else
        assert |r'| > 0 ==> exists k :: 0 <= k < |xs| && xs[k] == r'[0] && forall j :: 0 <= j < k ==> |xs[j]| <= 10 by {
          if |r'| > 0 {
            var k :| 0 <= k < |xs[1..]| && xs[1..][k] == r'[0] && forall j :: 0 <= j < k ==> |xs[1..][j]| <= 10;
            assert xs[k + 1] == r'[0];
          }
        }
        r'
  }

  /** `take(n)`. */
  function Take(xs: seq<string>, n: nat): (r: seq<string>)
    ensures |r| <= n && forall x :: x in r ==> x in xs
    ensures |xs| > 0 && n > 0 ==> |r| > 0 && r[0] == xs[0]
  {
    if |xs| <= n then xs else xs[..n]
  }

  // ---------------------------------------------------------------- numbered headings

  /**
   * The entry for match `index`: its title (the group that matched,
   * trimmed) and, as description, the first line longer than ten
   * characters, trimmed, of the text between this match and the next.
   * A match that ends at the end of the reply, or whose title is empty,
   * gives no entry; `substring` bounds that do not hold throw.
   */
  function PatternAt(response: string, matches: seq<Match>, index: int): Outcome<Option<AIResponseBody>>
    requires 0 <= index < |matches|
  {
    var m := matches[index];
    var title := Title(m);
    var startIndex := m.last + 1;
    var endIndex := EndOf(response, matches, index);
    if startIndex >= |response| then Returned(None)
    else if !(0 <= startIndex <= endIndex <= |response|) then Thrown
    else
      if title == "" then Returned(None)
      else Returned(Some(AIResponseBody(title, Description(Trim(response[startIndex..endIndex])))))
  }

  /** The title group that matched, trimmed. */
  function Title(m: Match): string {
    Trim(if m.numberedTitle == "" then m.namedTitle else m.numberedTitle)
  }

  /** Where the text of match `index` ends: at the next match, or at the end of the reply. */
  function EndOf(response: string, matches: seq<Match>, index: int): int
    requires 0 <= index < |matches|
  {
    if index < |matches| - 1 then matches[index + 1].first else |response|
  }

  /** The first of the (at most five) trimmed non-blank lines of `content` longer than ten characters, or the default. */
  function Description(content: string): string {
    FirstInsight(Split(content, "\n"))
  }

  /** The first of the (at most five) trimmed non-blank `lines` longer than ten characters, or the default. */
  function FirstInsight(lines: seq<string>): string {
    var insights := Take(LongLines(TrimAll(NonBlank(lines))), 5);
    if |insights| > 0 then insights[0] else NoInsight
  }

  /** The trim of the first line that trims to more than ten characters, if any. */
  function FirstLongTrim(lines: seq<string>): Option<string> {
    if |lines| == 0 then None
    else if |Trim(lines[0])| > 10 then Some(Trim(lines[0]))
    else FirstLongTrim(lines[1..])
  }

  /**
   * `FirstLongTrim` finds nothing exactly when every line trims to at most
   * ten characters, and otherwise the trim of the first line that does not.
   */
  lemma {:induction false} FirstLongTrimSpec(lines: seq<string>)
    ensures FirstLongTrim(lines).None? <==> forall k :: 0 <= k < |lines| ==> |Trim(lines[k])| <= 10
    ensures forall k :: 0 <= k < |lines| && |Trim(lines[k])| > 10 && (forall j :: 0 <= j < k ==> |Trim(lines[j])| <= 10) ==> FirstLongTrim(lines) == Some(Trim(lines[k]))
  {
    if |lines| > 0 {
      var rest := lines[1..];
      FirstLongTrimSpec(rest);
      assert forall k :: 1 <= k < |lines| ==> lines[k] == rest[k - 1];
      forall k | 0 <= k < |lines| && |Trim(lines[k])| > 10 && (forall j :: 0 <= j < k ==> |Trim(lines[j])| <= 10)
        ensures FirstLongTrim(lines) == Some(Trim(lines[k]))
      {
        if k > 0 {
          assert |Trim(lines[0])| <= 10;
          assert forall j :: 0 <= j < k - 1 ==> |Trim(rest[j])| <= 10 by {
            forall j | 0 <= j < k - 1 ensures |Trim(rest[j])| <= 10 {
              assert rest[j] == lines[j + 1];
            }
          }
        }
      }
    }
  }

  /** The long trimmed non-blank lines start with `FirstLongTrim`, and are empty when it finds nothing. */
  lemma {:induction false} LongTrimmedHead(lines: seq<string>)
    ensures var l := LongLines(TrimAll(NonBlank(lines)));
      && (|l| > 0 <==> FirstLongTrim(lines).Some?)
      && (|l| > 0 ==> l[0] == FirstLongTrim(lines).value)
  {
    if |lines| > 0 {
      LongTrimmedHead(lines[1..]);
      LongTrimmedStep(lines);
    }
  }

  /**
   * The description is the trim of the first line that trims to more than
   * ten characters, or the default when no line does; either way it is the
   * default or a trimmed text longer than ten characters.
   */
  lemma FirstInsightSpec(lines: seq<string>)
    ensures var d := FirstInsight(lines);
      && (d == NoInsight || (|d| > 10 && Trimmed(d)))
      && ((forall k :: 0 <= k < |lines| ==> |Trim(lines[k])| <= 10) ==> d == NoInsight)
      && (forall k :: 0 <= k < |lines| && |Trim(lines[k])| > 10 && (forall j :: 0 <= j < k ==> |Trim(lines[j])| <= 10) ==> d == Trim(lines[k]))
  {
    InsightIsFirstLongTrim(lines);
    FirstLongTrimSpec(lines);
    if FirstLongTrim(lines).Some? {
      FirstLongTrimIsALine(lines);
    }
  }

  /** `FirstInsight` is what `FirstLongTrim` finds, or the default. */
  lemma InsightIsFirstLongTrim(lines: seq<string>)
    ensures FirstInsight(lines) == if FirstLongTrim(lines).Some? then FirstLongTrim(lines).value else NoInsight
  {
    LongTrimmedHead(lines);
  }

  /** What `FirstLongTrim` finds is the trim of one of the lines: trimmed, and longer than ten characters. */
  lemma {:induction false} FirstLongTrimIsALine(lines: seq<string>)
    requires FirstLongTrim(lines).Some?
    ensures exists k :: 0 <= k < |lines| && FirstLongTrim(lines).value == Trim(lines[k])
    ensures |FirstLongTrim(lines).value| > 10 && Trimmed(FirstLongTrim(lines).value)
  {
    if |Trim(lines[0])| > 10 {
      TrimSpec(lines[0]);
    } else {
      FirstLongTrimIsALine(lines[1..]);
      var k :| 0 <= k < |lines[1..]| && FirstLongTrim(lines[1..]).value == Trim(lines[1..][k]);
      assert lines[1..][k] == lines[k + 1];
    }
  }

  /** One line of `LongTrimmedHead`: the first line's trim leads the long lines iff it is long. */
  lemma LongTrimmedStep(lines: seq<string>)
    requires |lines| > 0
    ensures var l := LongLines(TrimAll(NonBlank(lines)));
      var l' := LongLines(TrimAll(NonBlank(lines[1..])));
      l == if |Trim(lines[0])| > 10 then [Trim(lines[0])] + l' else l'
  {
    var rest := lines[1..];
    TrimSpec(lines[0]);
    if !IsBlank(lines[0]) {
      var n := NonBlank(lines);
      assert n == [lines[0]] + NonBlank(rest);
      assert n[1..] == NonBlank(rest);
      var t := TrimAll(n);
      assert t == [Trim(lines[0])] + TrimAll(NonBlank(rest));
      assert t[1..] == TrimAll(NonBlank(rest));
    }
  }

  /** An entry has a non-empty trimmed title, and a description that is a trimmed line longer than ten characters or the default. */
  predicate WellFormedEntry(e: AIResponseBody) {
    && e.patternName != "" && Trimmed(e.patternName)
    && (e.description == NoInsight || (|e.description| > 10 && Trimmed(e.description)))
  }

  /**
   * A match gives an entry exactly when text follows it, the `substring`
   * bounds hold and its title is not empty; it throws exactly when text
   * follows it and the bounds do not hold. The entry is the trimmed title
   * with the description of the text up to the next match (see
   * `FirstInsightSpec`), and it is well formed.
   */
  lemma PatternAtSpec(response: string, matches: seq<Match>, index: int)
    requires 0 <= index < |matches|
    ensures var r := PatternAt(response, matches, index);
      var s := matches[index].last + 1; var e := EndOf(response, matches, index);
      && (r == Thrown <==> s < |response| && !(0 <= s <= e <= |response|))
      && (r.Returned? && r.value.Some? <==> s < |response| && 0 <= s <= e <= |response| && Title(matches[index]) != "")
      && (r.Returned? && r.value.Some? ==>
            && r.value.value.patternName == Title(matches[index])
            && r.value.value.description == Description(Trim(response[s..e]))
            && WellFormedEntry(r.value.value))
  {
    var r := PatternAt(response, matches, index);
    if r.Returned? && r.value.Some? {
      var m := matches[index];
      TrimSpec(if m.numberedTitle == "" then m.namedTitle else m.numberedTitle);
      var startIndex := m.last + 1;
      var endIndex := EndOf(response, matches, index);
      FirstInsightSpec(Split(Trim(response[startIndex..endIndex]), "\n"));
    }
  }

  /** What each match gives, in match order. */
  function Entries(response: string, matches: seq<Match>): (r: seq<Outcome<Option<AIResponseBody>>>)
    ensures |r| == |matches| && forall k :: 0 <= k < |matches| ==> r[k] == PatternAt(response, matches, k)
  {
    seq(|matches|, k requires 0 <= k < |matches| => PatternAt(response, matches, k))
  }

  /** The entries collected in order, skipping the matches that give none; the first throw ends the parse. */
  function Collect(outs: seq<Outcome<Option<AIResponseBody>>>): Outcome<seq<AIResponseBody>> {
    if |outs| == 0 then Returned([])
    else match Collect(outs[..|outs| - 1])
      case Thrown => Thrown
      case Returned(ps) =>
        match outs[|outs| - 1]
        case Thrown => Thrown
        case Returned(None) => Returned(ps)
        case Returned(Some(p)) => Returned(ps + [p])
  }

  /**
   * `idx` lists, in increasing order, exactly the positions of `outs` that
   * give an entry, and `ps` holds those entries in that order.
   */
  predicate PicksEntries(outs: seq<Outcome<Option<AIResponseBody>>>, ps: seq<AIResponseBody>, idx: seq<int>) {
    && |idx| == |ps|
    && (forall i :: 0 <= i < |idx| ==> 0 <= idx[i] < |outs| && outs[idx[i]] == Returned(Some(ps[i])))
    && (forall i, j :: 0 <= i < j < |idx| ==> idx[i] < idx[j])
    && (forall k :: 0 <= k < |outs| && outs[k].Returned? && outs[k].value.Some? ==> k in idx)
  }

  /** Picking extends by one outcome: by its entry if it gives one, by nothing otherwise. */
  lemma PicksExtend(init: seq<Outcome<Option<AIResponseBody>>>, o: Outcome<Option<AIResponseBody>>, ps: seq<AIResponseBody>, idx: seq<int>)
    requires PicksEntries(init, ps, idx) && o.Returned?
    ensures o.value.Some? ==> PicksEntries(init + [o], ps + [o.value.value], idx + [|init|])
    ensures o.value.None? ==> PicksEntries(init + [o], ps, idx)
  {
    var outs := init + [o];
    assert forall k :: 0 <= k < |init| ==> outs[k] == init[k];
  }

  /**
   * Collecting throws exactly when some outcome throws; otherwise it keeps
   * every entry given, each once, in the order given.
   */
  lemma {:induction false} CollectSpec(outs: seq<Outcome<Option<AIResponseBody>>>)
    ensures var r := Collect(outs);
      && (r.Returned? ==> |r.value| <= |outs| && forall p :: p in r.value ==> Returned(Some(p)) in outs)
      && (r.Returned? ==> exists idx :: PicksEntries(outs, r.value, idx))
      && (r == Thrown <==> Thrown in outs)
  {
    CollectShape(outs);
    CollectPicks(outs);
  }

  /** Collecting keeps at most one entry per outcome, each one given by an outcome, and throws exactly when some outcome throws. */
  lemma {:induction false} CollectShape(outs: seq<Outcome<Option<AIResponseBody>>>)
    ensures var r := Collect(outs);
      && (r.Returned? ==> |r.value| <= |outs| && forall p :: p in r.value ==> Returned(Some(p)) in outs)
      && (r == Thrown <==> Thrown in outs)
  {
    if |outs| > 0 {
      var n := |outs| - 1;
      CollectShape(outs[..n]);
      assert forall o :: o in outs ==> o in outs[..n] || o == outs[n];
    }
  }

  /** A collection that returns picks every entry given, in the order given. */
  lemma {:induction false} CollectPicks(outs: seq<Outcome<Option<AIResponseBody>>>)
    ensures Collect(outs).Returned? ==> exists idx :: PicksEntries(outs, Collect(outs).value, idx)
  {
    if |outs| > 0 {
      var n := |outs| - 1;
      var init := outs[..n];
      CollectPicks(init);
      if Collect(outs).Returned? {
        var ps := Collect(init).value;
        var idx :| PicksEntries(init, ps, idx);
        assert outs == init + [outs[n]];
        PicksExtend(init, outs[n], ps, idx);
      }
    } else {
      assert PicksEntries(outs, [], []);
    }
  }

  /** `parseNumberedPatterns`, as a value. */
  function NumberedPatterns(response: string, matches: seq<Match>): Outcome<seq<AIResponseBody>> {
    Collect(Entries(response, matches))
  }

  /**
   * The numbered parse throws exactly when some match throws; otherwise it
   * keeps the entry of every match that gives one (see `PatternAtSpec`),
   * each once and in match order, and every entry is well formed.
   */
  lemma NumberedSpec(response: string, matches: seq<Match>)
    ensures var r := NumberedPatterns(response, matches);
      && (r == Thrown <==> exists k :: 0 <= k < |matches| && PatternAt(response, matches, k) == Thrown)
      && (r.Returned? ==> exists idx :: PicksEntries(Entries(response, matches), r.value, idx))
      && (r.Returned? ==> |r.value| <= |matches| && forall k :: 0 <= k < |r.value| ==> WellFormedEntry(r.value[k]))
  {
    var outs := Entries(response, matches);
    CollectSpec(outs);
    var r := Collect(outs);
    if r.Returned? {
      forall k | 0 <= k < |r.value|
        ensures WellFormedEntry(r.value[k])
      {
        assert r.value[k] in r.value;
        var i :| 0 <= i < |outs| && outs[i] == Returned(Some(r.value[k]));
        PatternAtSpec(response, matches, i);
      }
    }
  }

  /** `parseNumberedPatterns`: one entry per match that has a title and text after it, in match order. */
  method ParseNumberedPatterns(response: string, matches: seq<Match>) returns (r: Outcome<seq<AIResponseBody>>)
    ensures r == NumberedPatterns(response, matches)
  {
    ghost var outs := Entries(response, matches);
    var patterns: seq<AIResponseBody> := [];
    for index := 0 to |matches|
      invariant Collect(outs[..index]) == Returned(patterns)
    {
      var entry := PatternAt(response, matches, index);
      assert outs[..index + 1][..index] == outs[..index];
      if entry.Thrown? {
        CollectSpec(outs);
        return Thrown;
      }
      if entry.value.Some? {
        patterns := patterns + [entry.value.value];
      }
    }
    assert outs[..|matches|] == outs;
    r := Returned(patterns);
  }

  // ---------------------------------------------------------------- paragraphs

  /** `section.split("\n").filter { it.isNotBlank() }.firstOrNull()`. */
  function FirstNonBlankLine(section: string): Option<string> {
    var lines := NonBlank(Split(section, "\n"));
    if |lines| > 0 then Some(lines[0]) else None
  }

  /** The first non-blank line of each section, in section order. */
  function FirstLines(sections: seq<string>): (r: seq<Option<string>>)
    ensures |r| == |sections| && forall k :: 0 <= k < |sections| ==> r[k] == FirstNonBlankLine(sections[k])
  {
    seq(|sections|, k requires 0 <= k < |sections| => FirstNonBlankLine(sections[k]))
  }

  /** The entries for the first `n` sections: "Pattern i" and the first non-blank line of each section that has one. */
  function SectionPatternsUpTo(firsts: seq<Option<string>>, n: nat): seq<AIResponseBody>
    requires n <= |firsts|
  {
    if n == 0 then []
    else
      var ps := SectionPatternsUpTo(firsts, n - 1);
      match firsts[n - 1]
      case Some(line) => ps + [AIResponseBody("Pattern " + IntToString(n), line)]
      case None => ps
  }

  /** Joining blank pieces with a blank delimiter gives a blank string. */
  lemma {:induction false} JoinBlank(parts: seq<string>, d: string)
    requires IsBlank(d) && forall k :: 0 <= k < |parts| ==> IsBlank(parts[k])
    ensures IsBlank(Join(parts, d))
  {
    if |parts| > 1 {
      JoinBlank(parts[1..], d);
    }
  }

  /** A string that is not blank has a non-blank piece between any delimiter. */
  lemma SplitNotBlank(s: string, d: string)
    requires |d| > 0 && IsBlank(d) && !IsBlank(s)
    ensures exists k :: 0 <= k < |Split(s, d)| && !IsBlank(Split(s, d)[k])
  {
    JoinSplit(s, d);
    if forall k :: 0 <= k < |Split(s, d)| ==> IsBlank(Split(s, d)[k]) {
      JoinBlank(Split(s, d), d);
    }
  }

  /**
   * When every section has a first non-blank line, every section gives an
   * entry: the names run "Pattern 1", "Pattern 2", … without gaps, and each
   * description is the first non-blank line of its section.
   */
  lemma {:induction false} SectionNaming(firsts: seq<Option<string>>, n: nat)
    requires n <= |firsts| && forall k :: 0 <= k < |firsts| ==> firsts[k].Some?
    ensures var ps := SectionPatternsUpTo(firsts, n);
      && |ps| == n
      && forall k :: 0 <= k < n ==>
           && ps[k].patternName == "Pattern " + IntToString(k + 1)
           && firsts[k] == Some(ps[k].description)
  {
    if n > 0 {
      SectionNaming(firsts, n - 1);
      var ps := SectionPatternsUpTo(firsts, n - 1);
      var r := ps + [AIResponseBody("Pattern " + IntToString(n), firsts[n - 1].value)];
      assert SectionPatternsUpTo(firsts, n) == r;
      forall k | 0 <= k < n - 1
        ensures r[k] == ps[k]
      {
      }
    }
  }

  /** Over sections that are not blank, every section gives an entry, named by its position and described by its first non-blank line. */
  lemma AllSectionsNamed(sections: seq<string>)
    requires forall k :: 0 <= k < |sections| ==> !IsBlank(sections[k])
    ensures var ps := SectionPatternsUpTo(FirstLines(sections), |sections|);
      && |ps| == |sections|
      && forall k :: 0 <= k < |sections| ==>
           ps[k].patternName == "Pattern " + IntToString(k + 1)
           && FirstNonBlankLine(sections[k]) == Some(ps[k].description)
  {
    var firsts := FirstLines(sections);
    forall k | 0 <= k < |sections|
      ensures firsts[k].Some?
    {
      SectionHasLine(sections[k]);
    }
    SectionNaming(firsts, |sections|);
  }

  /** A section that is not blank has a first non-blank line. */
  lemma SectionHasLine(section: string)
    requires !IsBlank(section)
    ensures FirstNonBlankLine(section).Some?
  {
    SplitNotBlank(section, "\n");
    assert |NonBlank(Split(section, "\n"))| > 0;
  }

  /**
   * `parseManuallyIfNeeded`: the numbered entries when there are any;
   * otherwise one entry per non-blank paragraph; otherwise the fixed entry.
   * A throw in the numbered parse gives the raw-results entry.
   */
  function ManualPatterns(response: string, matches: seq<Match>): (r: seq<AIResponseBody>)
    ensures |r| >= 1
  {
    match NumberedPatterns(response, matches)
    case Thrown => [RawPattern]
    case Returned(numbered) =>
      if |numbered| > 0 then numbered else ParagraphPatterns(response)
  }

  /** The paragraph fallback: one entry per non-blank "\n\n" section with a non-blank line, or else the fixed entry. */
  function ParagraphPatterns(response: string): (r: seq<AIResponseBody>)
    ensures |r| >= 1
  {
    var sections := NonBlank(Split(response, "\n\n"));
    var ps := SectionPatternsUpTo(FirstLines(sections), |sections|);
    if |ps| == 0 then [FallbackPattern] else ps
  }

  /** The paragraph fallback: each non-blank paragraph of a non-blank reply gives "Pattern i"; the fixed entry only for a blank reply. */
  lemma ManualFallback(response: string)
    ensures var sections := NonBlank(Split(response, "\n\n")); var r := ParagraphPatterns(response);
      && (!IsBlank(response) ==>
            && |r| == |sections|
            && forall k :: 0 <= k < |r| ==>
                 r[k].patternName == "Pattern " + IntToString(k + 1)
                 && FirstNonBlankLine(sections[k]) == Some(r[k].description))
      && (r == [FallbackPattern] ==> IsBlank(response))
  {
    var sections := NonBlank(Split(response, "\n\n"));
    AllSectionsNamed(sections);
    if !IsBlank(response) {
      SplitNotBlank(response, "\n\n");
    }
  }

  /** `parseManuallyIfNeeded`, step by step. */
  method ParseManuallyIfNeeded(response: string, matches: seq<Match>) returns (patterns: seq<AIResponseBody>)
    ensures patterns == ManualPatterns(response, matches)
  {
    var numberedPatterns := ParseNumberedPatterns(response, matches);
    if numberedPatterns.Thrown? {
      return [RawPattern];
    }
    if |numberedPatterns.value| > 0 {
      return numberedPatterns.value;
    }
    patterns := [];
    var sections := NonBlank(Split(response, "\n\n"));
    ghost var firsts := FirstLines(sections);
    for index := 0 to |sections|
      invariant patterns == SectionPatternsUpTo(firsts, index)
    {
      var lines := NonBlank(Split(sections[index], "\n"));
      assert firsts[index] == if |lines| > 0 then Some(lines[0]) else None;
      if |lines| > 0 {
        patterns := patterns + [AIResponseBody("Pattern " + IntToString(index + 1), lines[0])];
      }
      assert SectionPatternsUpTo(firsts, index + 1) == patterns;
    }
    if |patterns| == 0 {
      patterns := patterns + [FallbackPattern];
    }
  }

  /**
   * `parseStructuredResponse`: the decoded list of the cleaned reply when
   * decoding succeeds with a non-empty list; otherwise the manual parse of
   * the original reply. `decode` is the JSON decoder (a null result or a
   * syntax error is `Thrown`), `findAll` the heading matcher.
   */
  function ParseStructured(jsonResponse: string, decode: string -> Outcome<seq<AIResponseBody>>, findAll: string -> seq<Match>): (r: seq<AIResponseBody>)
    ensures |r| >= 1
  {
    match decode(Clean(jsonResponse))
    case Returned(patterns) =>
      if |patterns| > 0 then patterns else ManualPatterns(jsonResponse, findAll(jsonResponse))
    case Thrown => ManualPatterns(jsonResponse, findAll(jsonResponse))
  }

  /** The decoder sees only the cleaned reply; the fallback always parses the original one. */
  lemma StructuredSources(jsonResponse: string, decode: string -> Outcome<seq<AIResponseBody>>, findAll: string -> seq<Match>)
    ensures var d := decode(Clean(jsonResponse));
      && (d.Returned? && |d.value| > 0 ==> ParseStructured(jsonResponse, decode, findAll) == d.value)
      && (d.Thrown? || |d.value| == 0 ==> ParseStructured(jsonResponse, decode, findAll) == ManualPatterns(jsonResponse, findAll(jsonResponse)))
      && !Contains(Clean(jsonResponse), "```")
  {
    CleanSpec(jsonResponse);
  }

  // ---------------------------------------------------------------- view model

  /** `GenAIViewModel`: the UI state observers read. */
  class GenAIViewModel {
    var uiState: UiState

    constructor ()
      ensures uiState == Initial
    {
      uiState := Initial;
    }

    /** What both send methods do before the model is called: the state becomes `Loading`. */
    method Send()
      modifies this
      ensures uiState == Loading
    {
      uiState := Loading;
    }

    /**
     * The end of `sendPrompt`'s call: a non-null text is the result, a null
     * text leaves the state as it was, and an exception gives its message
     * or "".
     */
    method CompletePrompt(reply: Reply)
      modifies this
      ensures reply.Response? && reply.text.Some? ==> uiState == Success(reply.text.value)
      ensures reply.Response? && reply.text.None? ==> uiState == old(uiState)
      ensures reply.Failure? ==> uiState == Error(reply.localizedMessage.GetOr(""))
    {
      match reply
      case Response(text) =>
        if text.Some? {
          uiState := Success(text.value);
        }
      case Failure(message) =>
        uiState := Error(message.GetOr(""));
    }

    /**
     * The end of `sendPromptForPatterns`'s call: a non-null text is parsed
     * into patterns, a null text leaves the state as it was, and an
     * exception gives its message or "Unknown error occurred".
     */
    method CompletePatterns(reply: Reply, decode: string -> Outcome<seq<AIResponseBody>>, findAll: string -> seq<Match>)
      modifies this
      ensures reply.Response? && reply.text.Some? ==>
        uiState == SuccessBody(ParseStructured(reply.text.value, decode, findAll)) && |uiState.outputPattern| >= 1
      ensures reply.Response? && reply.text.None? ==> uiState == old(uiState)
      ensures reply.Failure? ==> uiState == Error(reply.localizedMessage.GetOr("Unknown error occurred"))
    {
      match reply
      case Response(text) =>
        if text.Some? {
          var patterns := ParseStructured(text.value, decode, findAll);
          uiState := SuccessBody(patterns);
        }
      case Failure(message) =>
        uiState := Error(message.GetOr("Unknown error occurred"));
    }
  }
}
