/**
  The application's splitting of generated tests into a unit section and an
  integration section.  A line marks a section when, stripped, it reads "#",
  optional white space, "unit" (or "integration"), at least one white-space
  character and "test", ignoring case.  The three patterns of each kind in
  the source differ only in letter case and in an optional trailing "s",
  so under re.IGNORECASE and re.match (a prefix match) they accept the same
  lines as this one recogniser.
 */
module TestSections {
  import opened Outcomes
  import opened Text

  const Unit: string := "unit"
  const Integration: string := "integration"

  /** The first index at or after i that does not hold white space. */
  function SkipSpaces(s: string, i: nat): (j: nat)
    requires i <= |s|
    ensures i <= j <= |s|
    ensures j < |s| ==> !IsSpace(s[j])
    decreases |s| - i
  {
    if i < |s| && IsSpace(s[i]) then SkipSpaces(s, i + 1) else i
  }

  /** The lower-case word occurs at index i, ignoring the case of s. */
  predicate WordAt(s: string, i: nat, word: string) {
    i + |word| <= |s| && forall k | 0 <= k < |word| :: LowerChar(s[i + k]) == word[k]
  }

  /**
    `re.match(r'^#\s*<Word>\s+Tests?', line.strip(), re.IGNORECASE)` for a
    lower-case word: after the leading white space, '#', white space, the
    word, at least one white-space character and "test".  The match ends at
    the 't' of "test", before any trailing white space, so matching the line
    after its leading white space is matching the stripped line.
   */
  predicate IsMarker(line: string, word: string) {
    var a := SkipSpaces(line, 0);
    && a < |line| && line[a] == '#'
    && var b := SkipSpaces(line, a + 1);
    && WordAt(line, b, word)
    && var c := b + |word|;
    && c < |line| && IsSpace(line[c])
    && WordAt(line, SkipSpaces(line, c), "test")
  }

  predicate IsUnitMarker(line: string) {
    IsMarker(line, Unit)
  }

  predicate IsIntegrationMarker(line: string) {
    IsMarker(line, Integration)
  }

  /** Skipping from i over n blank characters that end before a non-blank one lands at i + n. */
  lemma {:induction false} SkipBlank(s: string, i: nat, n: nat)
    requires i + n <= |s| && IsBlank(s[i..i + n])
    requires i + n < |s| ==> !IsSpace(s[i + n])
    ensures SkipSpaces(s, i) == i + n
    decreases n
  {
    if n > 0 {
      assert s[i..i + n][0] == s[i];
      assert s[i + 1..i + n] == s[i..i + n][1..];
      SkipBlank(s, i + 1, n - 1);
    }
  }

  /** The text w spells the lower-case word in any ASCII letter case. */
  predicate Spells(w: string, word: string) {
    |w| == |word| && forall k | 0 <= k < |w| :: LowerChar(w[k]) == word[k]
  }

  /**
    Every line of the patterns' shape is a marker: white space up to a,
    '#' at a, white space up to b, the word in any ASCII letter case up to
    c, at least one white-space character up to d, and "test" in any ASCII
    letter case from d; anything may follow (an "s", the rest of a heading).
   */
  lemma MarkerShape(line: string, a: nat, b: nat, c: nat, d: nat, word: string)
    requires word == Unit || word == Integration
    requires a < b <= c < d && d + 4 <= |line|
    requires IsBlank(line[..a]) && line[a] == '#' && IsBlank(line[a + 1..b])
    requires Spells(line[b..c], word) && IsBlank(line[c..d]) && Spells(line[d..d + 4], "test")
    ensures IsMarker(line, word)
  {
    SpelledAt(line, b, c, word);
    SpelledAt(line, d, d + 4, "test");
    HashAt(line, a, b);
    GapAt(line, c, d);
  }

  /** At least one white-space character from c up to a non-blank character at d. */
  lemma GapAt(line: string, c: nat, d: nat)
    requires c < d < |line| && !IsSpace(line[d]) && IsBlank(line[c..d])
    ensures IsSpace(line[c]) && SkipSpaces(line, c) == d
  {
    assert line[c] == line[c..d][0];
    SkipBlank(line, c, d - c);
  }

  /** White space up to a, '#' at a, and white space up to a non-blank character at b. */
  lemma HashAt(line: string, a: nat, b: nat)
    requires a < b < |line| && !IsSpace(line[b])
    requires IsBlank(line[..a]) && line[a] == '#' && IsBlank(line[a + 1..b])
    ensures SkipSpaces(line, 0) == a && SkipSpaces(line, a + 1) == b
  {
    assert line[..a] == line[0..a];
    SkipBlank(line, 0, a);
    SkipBlank(line, a + 1, b - (a + 1));
  }

  /** A slice that spells a word holds it there, and does not start with white space. */
  lemma SpelledAt(line: string, i: nat, j: nat, word: string)
    requires i <= j <= |line| && Spells(line[i..j], word)
    requires word != "" && 'a' <= word[0] <= 'z'
    ensures WordAt(line, i, word) && !IsSpace(line[i])
  {
    assert forall k | 0 <= k < |word| :: line[i + k] == line[i..j][k];
    assert LowerChar(line[i]) == word[0];
  }

  /** A marker line is not blank. */
  lemma MarkerNotBlank(line: string, word: string)
    requires IsMarker(line, word)
    ensures !IsBlank(line)
  {
    assert !IsSpace(line[SkipSpaces(line, 0)]);
  }

  /** No line marks both kinds of section. */
  lemma MarkersDiffer(line: string)
    ensures !(IsUnitMarker(line) && IsIntegrationMarker(line))
  {
    var b := SkipSpaces(line, 0);
    if b < |line| {
      var w := SkipSpaces(line, b + 1);
      FirstLetter(line, w, Unit);
      FirstLetter(line, w, Integration);
    }
  }

  /** A word found at i starts with the lower-cased character at i. */
  lemma FirstLetter(s: string, i: nat, word: string)
    ensures WordAt(s, i, word) && |word| > 0 ==> LowerChar(s[i]) == word[0]
  {
    if WordAt(s, i, word) && |word| > 0 {
      assert s[i + 0] == s[i];
    }
  }

  /** The index of the first line at or after `from` that marks a section of the given kind. */
  function FirstMarker(lines: seq<string>, marks: string -> bool, from: nat): (r: Option<nat>)
    ensures r.Some? ==> from <= r.value < |lines| && marks(lines[r.value])
    ensures r.Some? ==> forall j | from <= j < r.value :: !marks(lines[j])
    ensures r.None? ==> forall j | from <= j < |lines| :: !marks(lines[j])
    decreases |lines| - from
  {
    if from >= |lines| then None
    else if marks(lines[from]) then Some(from)
    else FirstMarker(lines, marks, from + 1)
  }

  /** `'\n'.join(lines[a:b]).strip()` */
  function Segment(lines: seq<string>, a: nat, b: nat): (section: string)
    requires a <= b <= |lines|
    ensures IsStripped(section)
  {
    TrimShape(Join("\n", lines[a..b]), Spaces);
    Strip(Join("\n", lines[a..b]))
  }

  /**
    `_parse_test_types`: blank text gives two empty sections; otherwise the
    first unit marker and the first integration marker split the lines.
    With both, each section runs from its marker to the other marker, or to
    the end when it comes second; with one, that section runs to the end
    and the other is empty; with none, the whole stripped text is the unit
    section.  Both sections come out stripped.
   */
  function TestTypes(text: string): (r: (string, string))
    ensures IsBlank(text) ==> r == ("", "")
    ensures IsStripped(r.0) && IsStripped(r.1)
  {
    if IsBlank(text) then ("", "")
    else
      var lines := Split(text, '\n');
      TrimShape(text, Spaces);
      match (FirstMarker(lines, IsUnitMarker, 0), FirstMarker(lines, IsIntegrationMarker, 0))
      case (Some(u), Some(g)) =>
        if u < g then (Segment(lines, u, g), Segment(lines, g, |lines|))
        else (Segment(lines, u, |lines|), Segment(lines, g, u))
      case (Some(u), None) => (Segment(lines, u, |lines|), "")
      case (None, Some(g)) => ("", Segment(lines, g, |lines|))
      case (None, None) => (Strip(text), "")
  }

  /** The marker search of `_parse_test_types`: one pass over the lines, keeping the first marker of each kind. */
  method FindMarkers(lines: seq<string>) returns (unitStart: Option<nat>, integrationStart: Option<nat>)
    ensures unitStart == FirstMarker(lines, IsUnitMarker, 0)
    ensures integrationStart == FirstMarker(lines, IsIntegrationMarker, 0)
  {
    unitStart, integrationStart := None, None;
    for i := 0 to |lines|
      invariant unitStart.Some? ==> unitStart == FirstMarker(lines, IsUnitMarker, 0)
      invariant unitStart.None? ==> forall j | 0 <= j < i :: !IsUnitMarker(lines[j])
      invariant integrationStart.Some? ==> integrationStart == FirstMarker(lines, IsIntegrationMarker, 0)
      invariant integrationStart.None? ==> forall j | 0 <= j < i :: !IsIntegrationMarker(lines[j])
    {
      unitStart := NoteMarker(lines, IsUnitMarker, i, unitStart);
      integrationStart := NoteMarker(lines, IsIntegrationMarker, i, integrationStart);
    }
    if unitStart.None? {
      NoMarker(lines, IsUnitMarker);
    }
    if integrationStart.None? {
      NoMarker(lines, IsIntegrationMarker);
    }
  }

  /** One step of the pass: line i becomes the marker when it marks and no earlier line did. */
  method NoteMarker(lines: seq<string>, marks: string -> bool, i: nat, found: Option<nat>) returns (r: Option<nat>)
    requires i < |lines|
    requires found.Some? ==> found == FirstMarker(lines, marks, 0)
    requires found.None? ==> forall j | 0 <= j < i :: !marks(lines[j])
    ensures r.Some? ==> r == FirstMarker(lines, marks, 0)
    ensures r.None? ==> forall j | 0 <= j <= i :: !marks(lines[j])
  {
    r := found;
    if marks(lines[i]) && found.None? {
      FirstMarkerAt(lines, marks, i);
      r := Some(i);
    }
  }

  /** A marking line with none before it is the first marker. */
  lemma FirstMarkerAt(lines: seq<string>, marks: string -> bool, i: nat)
    requires i < |lines| && marks(lines[i])
    requires forall j | 0 <= j < i :: !marks(lines[j])
    ensures FirstMarker(lines, marks, 0) == Some(i)
  {
  }

  /** With no marking line there is no first marker. */
  lemma NoMarker(lines: seq<string>, marks: string -> bool)
    requires forall j | 0 <= j < |lines| :: !marks(lines[j])
    ensures FirstMarker(lines, marks, 0) == None
  {
  }

  method ParseTestTypes(text: string) returns (unitTests: string, integrationTests: string)
    ensures (unitTests, integrationTests) == TestTypes(text)
  {
    if IsBlank(text) {
      return "", "";
    }
    var lines := Split(text, '\n');
    var unitStart, integrationStart := FindMarkers(lines);
    if unitStart.Some? && integrationStart.Some? {
      var u, g := unitStart.value, integrationStart.value;
      if u < g {
        unitTests, integrationTests := Segment(lines, u, g), Segment(lines, g, |lines|);
      } else {
        unitTests, integrationTests := Segment(lines, u, |lines|), Segment(lines, g, u);
      }
    } else if unitStart.Some? {
      unitTests, integrationTests := Segment(lines, unitStart.value, |lines|), "";
    } else if integrationStart.Some? {
      unitTests, integrationTests := "", Segment(lines, integrationStart.value, |lines|);
    } else {
      unitTests, integrationTests := Strip(text), "";
    }
  }

  /** Without a marker line, everything is unit tests: the whole text, stripped. */
  lemma NoMarkers(text: string)
    requires forall j | 0 <= j < |Split(text, '\n')| :: !IsUnitMarker(Split(text, '\n')[j]) && !IsIntegrationMarker(Split(text, '\n')[j])
    ensures TestTypes(text) == (Strip(text), "")
  {
    StripEmptyIffBlank(text);
  }

  /** A section that starts at a marker line starts with that line, stripped. */
  lemma {:induction false} SegmentStartsWithMarker(lines: seq<string>, a: nat, b: nat, word: string)
    requires a < b <= |lines| && IsMarker(lines[a], word)
    ensures StartsWith(Segment(lines, a, b), Strip(lines[a]))
  {
    var xs := lines[a..b];
    MarkerNotBlank(lines[a], word);
    if |xs| == 1 {
      assert Join("\n", xs) == lines[a] + "";
      StripPrefix(lines[a], "");
    } else {
      assert Join("\n", xs) == lines[a] + ("\n" + Join("\n", xs[1..]));
      StripPrefix(lines[a], "\n" + Join("\n", xs[1..]));
    }
  }

  /**
    Each non-empty section begins with its own marker line: the unit section
    with the first unit marker and the integration section with the first
    integration marker.
   */
  lemma SectionsStartAtMarkers(text: string)
    requires !IsBlank(text)
    ensures var lines := Split(text, '\n');
            var u := FirstMarker(lines, IsUnitMarker, 0);
            u.Some? ==> StartsWith(TestTypes(text).0, Strip(lines[u.value]))
    ensures var lines := Split(text, '\n');
            var g := FirstMarker(lines, IsIntegrationMarker, 0);
            g.Some? ==> StartsWith(TestTypes(text).1, Strip(lines[g.value]))
  {
    var lines := Split(text, '\n');
    var u, g := FirstMarker(lines, IsUnitMarker, 0), FirstMarker(lines, IsIntegrationMarker, 0);
    if u.Some? {
      var e := if g.Some? && u.value < g.value then g.value else |lines|;
      SegmentStartsWithMarker(lines, u.value, e, Unit);
    }
    if g.Some? {
      var e := if u.Some? && g.value < u.value then u.value else |lines|;
      if u.Some? {
        MarkersDiffer(lines[g.value]);
      }
      SegmentStartsWithMarker(lines, g.value, e, Integration);
    }
  }

  /**
    The line ranges of the sections: with both markers, each section runs
    from its own marker to the other marker, or to the end when it comes
    second; with one marker, that section runs to the end and the other is
    empty.  The two markers are never on the same line.
   */
  lemma SectionRanges(text: string)
    requires !IsBlank(text)
    ensures var lines := Split(text, '\n');
            var u, g := FirstMarker(lines, IsUnitMarker, 0), FirstMarker(lines, IsIntegrationMarker, 0);
            && (u.Some? && g.Some? ==> u.value != g.value)
            && (u.Some? && g.Some? && u.value < g.value ==>
                  TestTypes(text) == (Segment(lines, u.value, g.value), Segment(lines, g.value, |lines|)))
            && (u.Some? && g.Some? && g.value < u.value ==>
                  TestTypes(text) == (Segment(lines, u.value, |lines|), Segment(lines, g.value, u.value)))
            && (u.Some? && g.None? ==> TestTypes(text) == (Segment(lines, u.value, |lines|), ""))
            && (u.None? && g.Some? ==> TestTypes(text) == ("", Segment(lines, g.value, |lines|)))
  {
    var lines := Split(text, '\n');
    var u, g := FirstMarker(lines, IsUnitMarker, 0), FirstMarker(lines, IsIntegrationMarker, 0);
    if u.Some? && g.Some? {
      MarkersDiffer(lines[g.value]);
    }
  }

  /**
    With both markers, the two sections before stripping are consecutive
    line ranges: joined with a line break they are exactly the text from
    the first of the two markers on.
   */
  lemma SectionsCoverText(text: string)
    requires !IsBlank(text)
    ensures var lines := Split(text, '\n');
            var u, g := FirstMarker(lines, IsUnitMarker, 0), FirstMarker(lines, IsIntegrationMarker, 0);
            u.Some? && g.Some? && u.value < g.value ==>
              && TestTypes(text) == (Strip(Join("\n", lines[u.value..g.value])), Strip(Join("\n", lines[g.value..])))
              && Join("\n", lines[u.value..g.value]) + "\n" + Join("\n", lines[g.value..]) == Join("\n", lines[u.value..])
    ensures var lines := Split(text, '\n');
            var u, g := FirstMarker(lines, IsUnitMarker, 0), FirstMarker(lines, IsIntegrationMarker, 0);
            u.Some? && g.Some? && g.value < u.value ==>
              && TestTypes(text) == (Strip(Join("\n", lines[u.value..])), Strip(Join("\n", lines[g.value..u.value])))
              && Join("\n", lines[g.value..u.value]) + "\n" + Join("\n", lines[u.value..]) == Join("\n", lines[g.value..])
  {
    var lines := Split(text, '\n');
    var u, g := FirstMarker(lines, IsUnitMarker, 0), FirstMarker(lines, IsIntegrationMarker, 0);
    SectionRanges(text);
    if u.Some? && g.Some? {
      if u.value < g.value {
        ConsecutiveRanges(lines, u.value, g.value);
      } else if g.value < u.value {
        ConsecutiveRanges(lines, g.value, u.value);
      }
    }
  }

  /** Two consecutive line ranges joined with a line break are the lines from the first on. */
  lemma ConsecutiveRanges(lines: seq<string>, a: nat, b: nat)
    requires a < b < |lines|
    ensures Join("\n", lines[a..b]) + "\n" + Join("\n", lines[b..]) == Join("\n", lines[a..])
    ensures Segment(lines, a, b) == Strip(Join("\n", lines[a..b]))
    ensures Segment(lines, b, |lines|) == Strip(Join("\n", lines[b..]))
    ensures Segment(lines, a, |lines|) == Strip(Join("\n", lines[a..]))
  {
    assert lines[b..|lines|] == lines[b..] && lines[a..|lines|] == lines[a..];
    assert lines[a..] == lines[a..b] + lines[b..];
    JoinAppend("\n", lines[a..b], lines[b..]);
  }
}
