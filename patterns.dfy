/**
  The word-boundary searches of the requirement agent.  Each regular
  expression there is a literal text with an optional \b before it and an
  optional \b after it, or an alternation of such texts between two \b;
  re.search finds one when the text occurs somewhere with a boundary
  wherever a \b stands.  \w is taken as the ASCII word characters.
 */
module WordPatterns {
  import opened Text

  /** [A-Za-z0-9_]: what \w matches among ASCII characters. */
  predicate IsWordChar(c: char) {
    ('a' <= c <= 'z') || ('A' <= c <= 'Z') || ('0' <= c <= '9') || c == '_'
  }

  /** \b at position i: a word character on exactly one side. */
  predicate Boundary(s: string, i: int)
    requires 0 <= i <= |s|
  {
    (i > 0 && IsWordChar(s[i - 1])) != (i < |s| && IsWordChar(s[i]))
  }

  /** A literal text, with or without \b before it and after it. */
  datatype Pattern = Pattern(lead: bool, text: string, trail: bool)

  /** `\b<text>\b` */
  function Word(text: string): Pattern {
    Pattern(true, text, true)
  }

  /** `\b<text>`, with no boundary required after the text. */
  function Lead(text: string): Pattern {
    Pattern(true, text, false)
  }

  /** `<text>\b`, for patterns such as `\.py\b` that begin with a dot. */
  function Suffix(text: string): Pattern {
    Pattern(false, text, true)
  }

  predicate MatchesAt(s: string, p: Pattern, i: int) {
    && OccursAt(s, p.text, i)
    && (p.lead ==> Boundary(s, i))
    && (p.trail ==> Boundary(s, i + |p.text|))
  }

  /** re.search(pattern, s) finds a match. */
  predicate Matches(s: string, p: Pattern) {
    exists i | 0 <= i <= |s| - |p.text| :: MatchesAt(s, p, i)
  }

  /** An alternation, or a list of patterns tried in turn: one of them matches. */
  predicate MatchesAny(s: string, ps: seq<Pattern>) {
    exists k | 0 <= k < |ps| :: Matches(s, ps[k])
  }

  /**
    A `\b<text>\b` whose text ends in a non-word character (such as '+' or
    '#') can only match where a word character follows: the second \b sits
    between that character and the next one.
   */
  lemma TrailAfterSymbol(s: string, text: string, i: int)
    requires text != [] && !IsWordChar(text[|text| - 1])
    requires MatchesAt(s, Word(text), i)
    ensures i + |text| < |s| && IsWordChar(s[i + |text|])
  {
    assert s[i + |text| - 1] == text[|text| - 1];
  }

  /** A pattern longer than the text, or whose first or second character the text lacks, cannot match. */
  lemma NoMatch(s: string, p: Pattern)
    requires |p.text| > |s| || (p.text != [] && p.text[0] !in s) || (|p.text| > 1 && p.text[1] !in s)
    ensures !Matches(s, p)
  {
    forall i | 0 <= i <= |s| - |p.text|
      ensures !OccursAt(s, p.text, i)
    {
      if p.text != [] {
        assert s[i..i + |p.text|][0] == s[i];
      }
      if |p.text| > 1 {
        assert s[i..i + |p.text|][1] == s[i + 1];
      }
    }
  }

  /** `sum(1 for group in groups if re.search(group, s))`: the number of groups that match. */
  function CountMatching(s: string, groups: seq<seq<Pattern>>): (n: nat)
    ensures n <= |groups|
    ensures n == |set k: nat | k < |groups| && MatchesAny(s, groups[k])|
    decreases |groups|
  {
    if groups == [] then 0
    else
      var n := CountMatching(s, groups[..|groups| - 1]) + (if MatchesAny(s, groups[|groups| - 1]) then 1 else 0);
      MatchingStep(s, groups);
      n
  }

  /** The matching groups are those of all but the last, and the last when it matches. */
  lemma MatchingStep(s: string, groups: seq<seq<Pattern>>)
    requires groups != []
    ensures var last := |groups| - 1;
            (set k: nat | k < |groups| && MatchesAny(s, groups[k]))
            == (set k: nat | k < last && MatchesAny(s, groups[..last][k])) + (if MatchesAny(s, groups[last]) then {last} else {})
  {
    var last := |groups| - 1;
    assert forall k | 0 <= k < last :: groups[..last][k] == groups[k];
  }

  /** `sum(1 for group in groups if not re.search(group, s))`: the number of groups that do not match. */
  function CountFailing(s: string, groups: seq<seq<Pattern>>): (n: nat)
    ensures n == |set k: nat | k < |groups| && !MatchesAny(s, groups[k])|
    ensures n + CountMatching(s, groups) == |groups|
    decreases |groups|
  {
    if groups == [] then 0
    else
      var n := CountFailing(s, groups[..|groups| - 1]) + (if MatchesAny(s, groups[|groups| - 1]) then 0 else 1);
      FailingStep(s, groups);
      n
  }

  /** The failing groups are those of all but the last, and the last when it does not match. */
  lemma FailingStep(s: string, groups: seq<seq<Pattern>>)
    requires groups != []
    ensures var last := |groups| - 1;
            (set k: nat | k < |groups| && !MatchesAny(s, groups[k]))
            == (set k: nat | k < last && !MatchesAny(s, groups[..last][k])) + (if MatchesAny(s, groups[last]) then {} else {last})
  {
    var last := |groups| - 1;
    assert forall k | 0 <= k < last :: groups[..last][k] == groups[k];
  }

  /** No group matches exactly when the count is zero; every group matches exactly when it is the number of groups. */
  lemma {:induction false} CountExtremes(s: string, groups: seq<seq<Pattern>>)
    ensures CountMatching(s, groups) == 0 <==> forall k | 0 <= k < |groups| :: !MatchesAny(s, groups[k])
    ensures CountMatching(s, groups) == |groups| <==> forall k | 0 <= k < |groups| :: MatchesAny(s, groups[k])
    decreases |groups|
  {
    if groups != [] {
      var n := |groups| - 1;
      var init := groups[..n];
      CountExtremes(s, init);
      assert forall k | 0 <= k < n :: init[k] == groups[k];
    }
  }
}
