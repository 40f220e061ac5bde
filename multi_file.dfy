/**
  The application's splitting of generated code into files.  Lines such as
  "# File: app.py" mark where each file begins.  The regular-expression
  searches that find those lines are inputs here: the matches of the
  "# File:" pattern and of the looser "#... name.ext" pattern are lists of
  markers in position order, as re.finditer yields them, and the pattern
  of the line-by-line fallback is a function from a stripped line to the
  file name it announces, if any.
 */
module MultiFile {
  import opened Outcomes
  import opened Text
  import opened Downloads

  /** One file of the result: `{"filename": ..., "content": ...}`. */
  datatype File = File(name: string, content: string)

  /** A match of a marker pattern: where the line starts, the stripped file name it captures, and where the match ends. */
  datatype Marker = Marker(pos: nat, name: string, lineEnd: nat)

  /**
    What re.finditer yields for a pattern that starts with '#': each match
    lies inside the code and starts with '#', and the matches come in order
    without overlapping.
   */
  predicate MarkersIn(code: string, ms: seq<Marker>) {
    && (forall k | 0 <= k < |ms| :: ms[k].pos < ms[k].lineEnd <= |code| && code[ms[k].pos] == '#')
    && (forall k, l | 0 <= k < l < |ms| :: ms[k].lineEnd <= ms[l].pos)
  }

  /** Where the text of marker i ends: at the next marker, or at the end of the code. */
  function SectionEnd(code: string, ms: seq<Marker>, i: nat): (end: nat)
    requires MarkersIn(code, ms) && i < |ms|
    ensures ms[i].lineEnd <= end <= |code|
    ensures i + 1 < |ms| ==> end == ms[i + 1].pos
  {
    if i + 1 < |ms| then ms[i + 1].pos else |code|
  }

  /** The content of marker i: the text from the end of its match to the end of its section, without leading or trailing line breaks. */
  function Section(code: string, ms: seq<Marker>, i: nat): string
    requires MarkersIn(code, ms) && i < |ms|
  {
    Trim(code[ms[i].lineEnd..SectionEnd(code, ms, i)], Breaks)
  }

  /** One candidate file per marker, in marker order. */
  function Candidates(code: string, ms: seq<Marker>): (cs: seq<File>)
    requires MarkersIn(code, ms)
    ensures |cs| == |ms|
  {
    seq(|ms|, i requires 0 <= i < |ms| && MarkersIn(code, ms) => File(ms[i].name, Section(code, ms, i)))
  }

  /** `if filename and file_content`: a file worth returning. */
  predicate Complete(f: File) {
    f.name != "" && f.content != ""
  }

  /** The complete files of xs, in their order. */
  function Keep(xs: seq<File>): (kept: seq<File>)
    ensures |kept| <= |xs|
    ensures forall f | f in kept :: f in xs && Complete(f)
    decreases |xs|
  {
    if xs == [] then []
    else Keep(xs[..|xs| - 1]) + (if Complete(xs[|xs| - 1]) then [xs[|xs| - 1]] else [])
  }

  /** The files found between the markers. */
  function MarkedFiles(code: string, ms: seq<Marker>): seq<File>
    requires MarkersIn(code, ms)
  {
    Keep(Candidates(code, ms))
  }

  /** Keep works piece by piece: the files of an earlier stretch come before those of a later one. */
  lemma {:induction false} KeepAppend(xs: seq<File>, ys: seq<File>)
    ensures Keep(xs + ys) == Keep(xs) + Keep(ys)
    decreases |ys|
  {
    if ys == [] {
      assert xs + ys == xs;
    } else {
      var init := ys[..|ys| - 1];
      assert (xs + ys)[..|xs + ys| - 1] == xs + init;
      assert (xs + ys)[|xs + ys| - 1] == ys[|ys| - 1];
      KeepAppend(xs, init);
    }
  }

  /** Keeping one more file of xs adds it when it is complete. */
  lemma KeepNext(xs: seq<File>, i: nat)
    requires i < |xs|
    ensures Keep(xs[..i + 1]) == Keep(xs[..i]) + (if Complete(xs[i]) then [xs[i]] else [])
  {
    var upto := xs[..i + 1];
    assert upto[..i] == xs[..i] && upto[i] == xs[i];
  }

  /** Keep drops exactly the incomplete files. */
  lemma {:induction false} KeepMembers(xs: seq<File>)
    ensures forall f :: f in Keep(xs) <==> f in xs && Complete(f)
    decreases |xs|
  {
    if xs != [] {
      var init := xs[..|xs| - 1];
      KeepMembers(init);
      assert xs == init + [xs[|xs| - 1]];
    }
  }

  /** Every file Keep returns is complete. */
  lemma KeepComplete(xs: seq<File>)
    ensures forall k | 0 <= k < |Keep(xs)| :: Complete(Keep(xs)[k])
  {
    KeepMembers(xs);
    forall k | 0 <= k < |Keep(xs)|
      ensures Complete(Keep(xs)[k])
    {
      assert Keep(xs)[k] in Keep(xs);
    }
  }

  /**
    The content of a marker is a piece of the text between the end of its
    match and the next marker, and neither starts nor ends with a line break.
   */
  lemma SectionShape(code: string, ms: seq<Marker>, i: nat)
    requires MarkersIn(code, ms) && i < |ms|
    ensures IsTrimmed(Section(code, ms, i), Breaks)
    ensures exists j :: OccursAt(code[ms[i].lineEnd..SectionEnd(code, ms, i)], Section(code, ms, i), j)
  {
    TrimShape(code[ms[i].lineEnd..SectionEnd(code, ms, i)], Breaks);
  }

  /** Line breaks on either side of a stretch make no difference to its content. */
  lemma SkippedBreaks(code: string, a: nat, start: nat, end: nat, b: nat)
    requires a <= start <= end <= b <= |code|
    requires AllIn(Breaks, code[a..start]) && AllIn(Breaks, code[end..b])
    ensures Trim(code[start..end], Breaks) == Trim(code[a..b], Breaks)
  {
    assert code[a..b] == code[a..start] + code[start..end] + code[end..b];
    TrimPadded(code[a..start], code[start..end], code[end..b], Breaks);
  }

  /**
    The marker loop of `_parse_multiple_files`: for each marker, skip the
    line breaks after its match and those before the next marker, strip
    line breaks from what is left, and keep the file when it has a name and
    content.  The two skipping loops change nothing that the final strip
    would not.
   */
  method SplitAtMarkers(code: string, ms: seq<Marker>) returns (files: seq<File>)
    requires MarkersIn(code, ms)
    ensures files == MarkedFiles(code, ms)
  {
    files := [];
    for i := 0 to |ms|
      invariant files == KeptUpTo(code, ms, i)
    {
      var content := SectionAt(code, ms, i);
      KeptNext(code, ms, i, content);
      if ms[i].name != "" && content != "" {
        files := files + [File(ms[i].name, content)];
      }
    }
    KeptAll(code, ms);
  }

  /** The files kept from the first i markers, as the marker loop collects them. */
  function KeptUpTo(code: string, ms: seq<Marker>, i: nat): seq<File>
    requires MarkersIn(code, ms) && i <= |ms|
  {
    if i == 0 then []
    else
      var f := File(ms[i - 1].name, Section(code, ms, i - 1));
      KeptUpTo(code, ms, i - 1) + (if Complete(f) then [f] else [])
  }

  /** One more marker adds its file when the file has a name and content. */
  lemma KeptNext(code: string, ms: seq<Marker>, i: nat, content: string)
    requires MarkersIn(code, ms) && i < |ms| && content == Section(code, ms, i)
    ensures KeptUpTo(code, ms, i + 1) == KeptUpTo(code, ms, i) + (if ms[i].name != "" && content != "" then [File(ms[i].name, content)] else [])
  {
  }

  /** What the loop collects from the first i markers is what Keep makes of the first i candidates. */
  lemma {:induction false} KeptPrefix(code: string, ms: seq<Marker>, i: nat)
    requires MarkersIn(code, ms) && i <= |ms|
    ensures KeptUpTo(code, ms, i) == Keep(Candidates(code, ms)[..i])
  {
    if i > 0 {
      KeptPrefix(code, ms, i - 1);
      KeepSection(code, ms, i - 1);
    }
  }

  /** Over all the markers, the loop collects the marked files. */
  lemma KeptAll(code: string, ms: seq<Marker>)
    requires MarkersIn(code, ms)
    ensures KeptUpTo(code, ms, |ms|) == MarkedFiles(code, ms)
  {
    KeptPrefix(code, ms, |ms|);
    assert Candidates(code, ms)[..|ms|] == Candidates(code, ms);
  }

  /** Keeping one more candidate adds marker i's file when it has a name and content. */
  lemma KeepSection(code: string, ms: seq<Marker>, i: nat)
    requires MarkersIn(code, ms) && i < |ms|
    ensures var f := File(ms[i].name, Section(code, ms, i));
            Keep(Candidates(code, ms)[..i + 1]) == Keep(Candidates(code, ms)[..i]) + (if Complete(f) then [f] else [])
  {
    var cs := Candidates(code, ms);
    assert cs[i] == File(ms[i].name, Section(code, ms, i));
    KeepNext(cs, i);
  }

  /** The body of the marker loop for marker i: the two skipping loops and the final strip. */
  method SectionAt(code: string, ms: seq<Marker>, i: nat) returns (content: string)
    requires MarkersIn(code, ms) && i < |ms|
    ensures content == Section(code, ms, i)
  {
    var first := ms[i].lineEnd;
    var bound := SectionEnd(code, ms, i);
    assert bound < |code| ==> code[bound] == '#';
    var start := first;
    while start < |code| && IsBreak(code[start])
      invariant first <= start <= bound
      invariant AllIn(Breaks, code[first..start])
      decreases |code| - start
    {
      assert code[first..start + 1] == code[first..start] + [code[start]];
      start := start + 1;
    }
    var end := bound;
    if i + 1 < |ms| {
      while end > start && IsBreak(code[end - 1])
        invariant start <= end <= bound
        invariant AllIn(Breaks, code[end..bound])
        decreases end
      {
        assert code[end - 1..bound] == [code[end - 1]] + code[end..bound];
        end := end - 1;
      }
    }
    content := Trim(code[start..end], Breaks);
    SkippedBreaks(code, first, start, end, bound);
  }

  /** The state of the line-by-line fallback: the current file name ("" before the first marker), its lines so far, and the files saved. */
  datatype Scan = Scan(current: string, content: seq<string>, files: seq<File>)

  /** Saving the current file: only when it has a name, lines, and something left after stripping their join. */
  function Flush(current: string, content: seq<string>): (saved: seq<File>)
    ensures |saved| <= 1
    ensures forall k | 0 <= k < |saved| :: Complete(saved[k]) && IsStripped(saved[k].content)
  {
    var text := Strip(Join("\n", content));
    TrimShape(Join("\n", content), Spaces);
    if current != "" && content != [] && text != "" then [File(current, text)] else []
  }

  /** One line: a marker line saves the current file and starts a new one; any other line is added to the current lines. */
  function Step(s: Scan, line: string, lineMarker: string -> Option<string>): Scan {
    match lineMarker(Strip(line))
    case Some(name) => Scan(name, [], s.files + Flush(s.current, s.content))
    case None => Scan(s.current, s.content + [line], s.files)
  }

  /** The fallback's state after the given lines; every file saved so far is complete with stripped content. */
  function ScanLines(lines: seq<string>, lineMarker: string -> Option<string>): (s: Scan)
    ensures forall k | 0 <= k < |s.files| :: Complete(s.files[k]) && IsStripped(s.files[k].content)
    decreases |lines|
  {
    if lines == [] then Scan("", [], [])
    else Step(ScanLines(lines[..|lines| - 1], lineMarker), lines[|lines| - 1], lineMarker)
  }

  /** The files of the line-by-line fallback: the saved files and the last one. */
  function LineFiles(code: string, lineMarker: string -> Option<string>): (files: seq<File>)
    ensures forall k | 0 <= k < |files| :: Complete(files[k]) && IsStripped(files[k].content)
  {
    var s := ScanLines(Split(code, '\n'), lineMarker);
    s.files + Flush(s.current, s.content)
  }

  /** The line-by-line loop of `_parse_multiple_files`. */
  method ScanFallback(code: string, lineMarker: string -> Option<string>) returns (files: seq<File>)
    ensures files == LineFiles(code, lineMarker)
  {
    var lines := Split(code, '\n');
    var current: string, content: seq<string> := "", [];
    files := [];
    for k := 0 to |lines|
      invariant Scan(current, content, files) == ScanLines(lines[..k], lineMarker)
    {
      ScanNext(lines, k, lineMarker);
      var line := lines[k];
      match lineMarker(Strip(line))
      case Some(name) =>
        files := SaveCurrent(current, content, files);
        current, content := name, [];
      case None =>
        content := content + [line];
    }
    assert lines[..|lines|] == lines;
    files := SaveCurrent(current, content, files);
  }

  /** The fallback's state after one more line is one more step. */
  lemma ScanNext(lines: seq<string>, k: nat, lineMarker: string -> Option<string>)
    requires k < |lines|
    ensures ScanLines(lines[..k + 1], lineMarker) == Step(ScanLines(lines[..k], lineMarker), lines[k], lineMarker)
  {
    assert lines[..k + 1][..k] == lines[..k];
  }

  /** `if current_file and current_content: ... files.append(...)`: saving the current file when it has content. */
  method SaveCurrent(current: string, content: seq<string>, files: seq<File>) returns (saved: seq<File>)
    ensures saved == files + Flush(current, content)
  {
    saved := files;
    if current != "" && content != [] {
      var text := Strip(Join("\n", content));
      if text != "" {
        saved := files + [File(current, text)];
      }
    }
  }

  /**
    The single file the code is saved as when no file is found: the
    default name for the language, holding the stripped code, and complete
    whenever the code is not blank.
   */
  function Whole(code: string, language: string): (f: File)
    ensures f.content == Strip(code) && Extension(f.name) == ExtensionFor(language)
    ensures !IsBlank(code) ==> Complete(f)
  {
    var name := DefaultFileName(language);
    if !IsBlank(code) then
      StripNonBlank(code);
      assert name[0] == Stem[0];
      File(name, Strip(code))
    else File(name, Strip(code))
  }

  /**
    `_parse_multiple_files`: blank code is one default-named file holding
    the code as it is; otherwise the "# File:" markers, or when there are
    none the looser markers, split the code; when that gives no file the
    line-by-line fallback runs, and when that gives none either the whole
    stripped code is one default-named file.  The result is never empty,
    and for code that is not blank every file has a name and content.
   */
  function Parse(code: string, language: string, ms1: seq<Marker>, ms2: seq<Marker>, lineMarker: string -> Option<string>): (files: seq<File>)
    requires MarkersIn(code, ms1) && MarkersIn(code, ms2)
    ensures |files| >= 1
    ensures IsBlank(code) ==> files == [File(DefaultFileName(language), code)]
    ensures !IsBlank(code) ==> forall k | 0 <= k < |files| :: Complete(files[k])
  {
    if IsBlank(code) then [File(DefaultFileName(language), code)]
    else
      var marked := MarkedFiles(code, if ms1 != [] then ms1 else ms2);
      KeepComplete(Candidates(code, if ms1 != [] then ms1 else ms2));
      if marked != [] then marked else Unmarked(code, language, lineMarker)
  }

  /** Code without files between markers: the line-by-line fallback, or when it finds none the whole stripped code. */
  function Unmarked(code: string, language: string, lineMarker: string -> Option<string>): (files: seq<File>)
    requires !IsBlank(code)
    ensures |files| >= 1
    ensures forall k | 0 <= k < |files| :: Complete(files[k])
  {
    var lined := LineFiles(code, lineMarker);
    if lined != [] then lined
    else
      var whole := Whole(code, language);
      assert Complete(whole);
      [whole]
  }

  method ParseMultipleFiles(code: string, language: string, ms1: seq<Marker>, ms2: seq<Marker>, lineMarker: string -> Option<string>)
    returns (files: seq<File>)
    requires MarkersIn(code, ms1) && MarkersIn(code, ms2)
    ensures files == Parse(code, language, ms1, ms2, lineMarker)
  {
    if IsBlank(code) {
      return [File(DefaultFileName(language), code)];
    }
    var markers := ms1;
    if markers == [] {
      markers := ms2;
    }
    files := SplitAtMarkers(code, markers);
    if files == [] {
      files := ScanFallback(code, lineMarker);
    }
    if files == [] {
      files := [Whole(code, language)];
    }
  }

  /** The looser markers count only when there is no "# File:" marker. */
  lemma SecondPatternIgnored(code: string, language: string, ms1: seq<Marker>, ms2: seq<Marker>, other: seq<Marker>, lineMarker: string -> Option<string>)
    requires MarkersIn(code, ms1) && MarkersIn(code, ms2) && MarkersIn(code, other)
    requires ms1 != []
    ensures Parse(code, language, ms1, ms2, lineMarker) == Parse(code, language, ms1, other, lineMarker)
  {
  }

  /** Files found between markers are returned as they are: the fallbacks run only when no marker yields a file. */
  lemma MarkersWin(code: string, language: string, ms1: seq<Marker>, ms2: seq<Marker>, lineMarker: string -> Option<string>)
    requires MarkersIn(code, ms1) && MarkersIn(code, ms2) && !IsBlank(code)
    requires MarkedFiles(code, if ms1 != [] then ms1 else ms2) != []
    ensures Parse(code, language, ms1, ms2, lineMarker) == MarkedFiles(code, if ms1 != [] then ms1 else ms2)
  {
  }
}
