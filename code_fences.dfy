/**
  Extraction of code from Markdown fences, as the coding and the test agents
  do it (the two agents carry identical copies of _extract_code_blocks).

  The two regular expressions are modelled exactly, with re.DOTALL:
    ```python\s*\n(.*?)(?:```|$)          (PythonFence)
    ```(?:[a-z]+)?\s*\n(.*?)(?:```|$)     (AnyFence)
  At an opener, \s* first takes the whole run of whitespace after the tag and
  gives characters back until a line break follows, so the body begins after
  the LAST line break of that run; a run without a line break is no match at
  that position.  The lazy body stops at the first ``` or where $ matches: at
  the end of the text or just before a final line break.  re.finditer resumes
  the search where a match ended, or one character further on after a failed
  attempt.
 */
module CodeFences {
  import opened Outcomes
  import opened Text

  datatype Fence = PythonFence | AnyFence

  const Ticks: string := "```"

  function Opener(f: Fence): (o: string)
    ensures 3 <= |o| && o[..3] == Ticks
  {
    if f == PythonFence then "```python" else Ticks
  }

  predicate IsTagLetter(c: char) {
    'a' <= c <= 'z'
  }

  /** The end of the run of tag letters starting at k: what [a-z]+ takes greedily. */
  function LettersEnd(s: string, k: nat): (e: nat)
    requires k <= |s|
    ensures k <= e <= |s|
    ensures forall j | k <= j < e :: IsTagLetter(s[j])
    ensures e == |s| || !IsTagLetter(s[e])
    decreases |s| - k
  {
    if k < |s| && IsTagLetter(s[k]) then LettersEnd(s, k + 1) else k
  }

  /** The end of the run of whitespace starting at k: what \s* takes greedily. */
  function SpacesEnd(s: string, k: nat): (e: nat)
    requires k <= |s|
    ensures k <= e <= |s|
    ensures forall j | k <= j < e :: IsSpace(s[j])
    ensures e == |s| || !IsSpace(s[e])
    decreases |s| - k
  {
    if k < |s| && IsSpace(s[k]) then SpacesEnd(s, k + 1) else k
  }

  /** The last line break in s[a..b]. */
  function LastBreak(s: string, a: nat, b: nat): (r: Option<nat>)
    requires a <= b <= |s|
    ensures r.Some? ==> a <= r.value < b && s[r.value] == '\n'
    ensures r.Some? ==> forall j | r.value < j < b :: s[j] != '\n'
    ensures r.None? ==> forall j | a <= j < b :: s[j] != '\n'
    decreases b - a
  {
    if a == b then None
    else if s[b - 1] == '\n' then Some(b - 1)
    else LastBreak(s, a, b - 1)
  }

  /**
    Where group 1 begins for an opener at i: after the tag (the maximal run of
    letters for AnyFence), past the last line break of the whitespace that
    follows.  None when that whitespace holds no line break.
   */
  function BodyStart(s: string, i: nat, f: Fence): (r: Option<nat>)
    requires OccursAt(s, Opener(f), i)
    ensures r.Some? ==> i + |Opener(f)| < r.value <= |s| && s[r.value - 1] == '\n'
    ensures r.Some? ==> forall j | i + |Opener(f)| <= j < r.value :: IsSpace(s[j]) || IsTagLetter(s[j])
  {
    var t := if f == PythonFence then i + |Opener(f)| else LettersEnd(s, i + 3);
    match LastBreak(s, t, SpacesEnd(s, t))
    case None => None
    case Some(n) => Some(n + 1)
  }

  /** Where (?:```|$) can match: at ``` , at the end of the text, or just before a final line break. */
  predicate Closes(s: string, j: nat) {
    OccursAt(s, Ticks, j) || j == |s| || (j + 1 == |s| && s[j] == '\n')
  }

  /** Where the lazy body (.*?) stops: the first position from k at which the closing alternative matches. */
  function BodyEnd(s: string, k: nat): (j: nat)
    requires k <= |s|
    ensures k <= j <= |s| && Closes(s, j)
    ensures forall m | k <= m < j :: !Closes(s, m)
    decreases |s| - k
  {
    if Closes(s, k) then k else BodyEnd(s, k + 1)
  }

  /** Where a match whose body stopped at j ends: after the closing ``` , or at j when $ matched. */
  function MatchEnd(s: string, j: nat): (e: nat)
    requires j <= |s|
    ensures j <= e <= |s|
  {
    if OccursAt(s, Ticks, j) then j + 3 else j
  }

  /** One match found by re.finditer: its group(1) and the position where the search resumes. */
  datatype Match = Match(body: string, end: nat)

  /** The first match of fence f at or after pos, trying each opener in turn. */
  function NextMatch(s: string, f: Fence, pos: nat): (r: Option<Match>)
    requires pos <= |s|
    ensures r.Some? ==> pos < r.value.end <= |s|
    decreases |s| - pos
  {
    match FindFrom(s, Opener(f), pos)
    case None => None
    case Some(i) =>
      match BodyStart(s, i, f)
      case None => NextMatch(s, f, i + 1)
      case Some(b) =>
        var j := BodyEnd(s, b);
        Some(Match(s[b..j], MatchEnd(s, j)))
  }

  /** The kept form of one group(1): `match.group(1).strip()`, appended only when not empty. */
  function Keep(body: string): seq<string> {
    if Strip(body) != "" then [Strip(body)] else []
  }

  /** The code_blocks that one re.finditer loop collects from position pos on: every match's body stripped, empty ones dropped, in order. */
  function Blocks(s: string, f: Fence, pos: nat): seq<string>
    requires pos <= |s|
    decreases |s| - pos
  {
    match NextMatch(s, f, pos)
    case None => []
    case Some(m) => Keep(m.body) + Blocks(s, f, m.end)
  }

  /** The "looks like code" test of pattern 3: a first line or one of the first five lines that opens like Python. */
  predicate LooksLikeCode(content: string) {
    var lines := Split(Strip(content), '\n');
    OpensLikeCode(lines[0]) || DefinesEarly(lines)
  }

  /** A first line that opens with an import, a definition or a comment. */
  predicate OpensLikeCode(line: string) {
    || StartsWith(line, "import ") || StartsWith(line, "from ")
    || StartsWith(line, "def ") || StartsWith(line, "class ") || StartsWith(line, "#")
  }

  /** One of the first five lines, stripped, opens with a definition or an import. */
  predicate DefinesEarly(lines: seq<string>) {
    exists k | 0 <= k < |lines| && k < 5 ::
      var l := Strip(lines[k]);
      StartsWith(l, "def ") || StartsWith(l, "class ") || StartsWith(l, "import ") || StartsWith(l, "from ")
  }

  /**
    What _extract_code_blocks returns: the non-empty ```python blocks joined
    with a blank line; failing those, the non-empty generic blocks; failing
    those, the whole content stripped (the "looks like code" test and the
    final fallback return the same thing).
   */
  function Extract(content: string): string {
    if content == "" then ""
    else
      var python := Blocks(content, PythonFence, 0);
      if python != [] then Join("\n\n", python)
      else
        var generic := Blocks(content, AnyFence, 0);
        if generic != [] then Join("\n\n", generic) else Strip(content)
  }

  /** One re.finditer loop: the stripped, non-empty bodies of every match of fence f, in order. */
  method CollectBlocks(content: string, f: Fence) returns (blocks: seq<string>)
    ensures blocks == Blocks(content, f, 0)
  {
    blocks := [];
    var pos: nat := 0;
    while true
      invariant pos <= |content|
      invariant Blocks(content, f, 0) == blocks + Blocks(content, f, pos)
      decreases |content| - pos
    {
      var m := NextMatch(content, f, pos);
      if m.None? {
        return;
      }
      BlocksStep(content, f, pos, blocks, m.value);
      var code := Strip(m.value.body);
      if code != "" {
        blocks := blocks + [code];
      }
      pos := m.value.end;
    }
  }

  /** What one match contributes to the blocks collected so far. */
  lemma BlocksStep(content: string, f: Fence, pos: nat, blocks: seq<string>, m: Match)
    requires pos <= |content| && NextMatch(content, f, pos) == Some(m)
    ensures Strip(m.body) != "" ==> blocks + Blocks(content, f, pos) == (blocks + [Strip(m.body)]) + Blocks(content, f, m.end)
    ensures Strip(m.body) == "" ==> Blocks(content, f, pos) == Blocks(content, f, m.end)
  {
    var rest := Blocks(content, f, m.end);
    BlocksUnfold(content, f, pos, m);
    if Strip(m.body) != "" {
      AppendAssoc(blocks, [Strip(m.body)], rest);
    } else {
      assert Keep(m.body) == [];
    }
  }

  lemma BlocksUnfold(content: string, f: Fence, pos: nat, m: Match)
    requires pos <= |content| && NextMatch(content, f, pos) == Some(m)
    ensures Blocks(content, f, pos) == Keep(m.body) + Blocks(content, f, m.end)
  { }

  lemma AppendAssoc<T>(a: seq<T>, b: seq<T>, c: seq<T>)
    ensures a + (b + c) == (a + b) + c
  { }

  /**
    Blank content never looks like code, and content whose stripped text
    opens with an import, a definition or a comment always does.
   */
  lemma LooksLikeCodeCases(content: string)
    ensures IsBlank(content) ==> !LooksLikeCode(content)
    ensures OpensLikeCode(Strip(content)) ==> LooksLikeCode(content)
  {
    if IsBlank(content) {
      BlankNotCode(content);
    }
    var s := Strip(content);
    if StartsWith(s, "import ") {
      FirstPartStarts(s, "import ", '\n');
    } else if StartsWith(s, "from ") {
      FirstPartStarts(s, "from ", '\n');
    } else if StartsWith(s, "def ") {
      FirstPartStarts(s, "def ", '\n');
    } else if StartsWith(s, "class ") {
      FirstPartStarts(s, "class ", '\n');
    } else if StartsWith(s, "#") {
      FirstPartStarts(s, "#", '\n');
    }
  }

  lemma BlankNotCode(content: string)
    requires IsBlank(content)
    ensures !LooksLikeCode(content)
  {
    StripEmptyIffBlank(content);
    var lines := Split(Strip(content), '\n');
    assert lines == [""];
    assert Strip(lines[0]) == "" by { StripEmptyIffBlank(lines[0]); }
  }

  /** The first part of a split keeps a prefix that holds no separator. */
  lemma FirstPartStarts(s: string, p: string, sep: char)
    requires StartsWith(s, p) && sep !in p
    ensures StartsWith(Split(s, sep)[0], p)
  {
    match IndexOf(s, sep)
    case None =>
    case Some(i) =>
      assert s[..i][..|p|] == s[..|p|];
  }

  /** _extract_code_blocks, step by step as the source does it. */
  method ExtractCodeBlocks(content: string) returns (code: string)
    ensures code == Extract(content)
  {
    if content == "" {
      return "";
    }
    var blocks := CollectBlocks(content, PythonFence);
    if blocks == [] {
      blocks := CollectBlocks(content, AnyFence);
    }
    if blocks == [] && LooksLikeCode(content) {
      return Strip(content);
    }
    if blocks != [] {
      return Join("\n\n", blocks);
    }
    return Strip(content);
  }

  /** Every piece is non-empty and stripped. */
  predicate AllStripped(xs: seq<string>) {
    forall k | 0 <= k < |xs| :: xs[k] != "" && IsStripped(xs[k])
  }

  lemma KeepStripped(body: string, rest: seq<string>)
    requires AllStripped(rest)
    ensures AllStripped(Keep(body) + rest)
  {
    if Strip(body) != "" {
      TrimShape(body, Spaces);
      assert IsStripped(Strip(body));
    } else {
      assert Keep(body) + rest == rest;
    }
  }

  /** Every collected block is non-empty and stripped. */
  lemma {:induction false} BlocksStripped(s: string, f: Fence, pos: nat)
    requires pos <= |s|
    ensures AllStripped(Blocks(s, f, pos))
    decreases |s| - pos
  {
    var r := NextMatch(s, f, pos);
    if r.Some? {
      var m := r.value;
      BlocksStripped(s, f, m.end);
      KeepStripped(m.body, Blocks(s, f, m.end));
    }
  }

  /** Joining stripped, non-empty pieces with a blank line gives a stripped, non-empty text. */
  lemma {:induction false} JoinStripped(xs: seq<string>)
    requires |xs| > 0 && AllStripped(xs)
    ensures var r := Join("\n\n", xs); r != "" && IsStripped(r) && r[0] == xs[0][0]
    decreases |xs|
  {
    if |xs| > 1 {
      assert AllStripped(xs[1..]);
      JoinStripped(xs[1..]);
      var r := Join("\n\n", xs);
      var t := Join("\n\n", xs[1..]);
      assert r == xs[0] + "\n\n" + t;
      assert r[|r| - 1] == t[|t| - 1];
    }
  }

  /** A blank text holds no fence at all. */
  lemma BlankHasNoFence(content: string, f: Fence)
    requires IsBlank(content)
    ensures Blocks(content, f, 0) == []
  {
    assert forall j | 0 <= j < |content| :: content[j] != '`';
    assert Opener(f)[0] == '`';
    assert FindFrom(content, Opener(f), 0) == None;
  }

  /** The extraction is always stripped, and it is empty exactly when the content is blank. */
  lemma ExtractStripped(content: string)
    ensures IsStripped(Extract(content))
    ensures Extract(content) == "" <==> IsBlank(content)
  {
    if content == "" {
      return;
    }
    if IsBlank(content) {
      BlankHasNoFence(content, PythonFence);
      BlankHasNoFence(content, AnyFence);
      StripEmptyIffBlank(content);
      assert Extract(content) == Strip(content);
      return;
    }
    var python := Blocks(content, PythonFence, 0);
    var generic := Blocks(content, AnyFence, 0);
    BlocksStripped(content, PythonFence, 0);
    BlocksStripped(content, AnyFence, 0);
    if python != [] {
      JoinStripped(python);
      assert Extract(content) == Join("\n\n", python);
    } else if generic != [] {
      JoinStripped(generic);
      assert Extract(content) == Join("\n\n", generic);
    } else {
      TrimShape(content, Spaces);
      StripEmptyIffBlank(content);
      assert Extract(content) == Strip(content);
    }
  }

  /** A non-blank reply always yields non-blank code. */
  lemma ExtractNonBlank(content: string)
    requires !IsBlank(content)
    ensures !IsBlank(Extract(content))
  {
    ExtractStripped(content);
    var r := Extract(content);
    assert !IsSpace(r[0]);
  }

  /** A fenced block with the given tag around s. */
  function Fenced(tag: string, s: string): string {
    Ticks + tag + "\n" + s + "\n" + Ticks
  }

  /** Where each part of a fenced block sits. */
  lemma FencedLayout(tag: string, s: string)
    ensures var c := Fenced(tag, s);
            var p := 3 + |tag|;
            var q := p + 1 + |s|;
            && |c| == q + 4
            && c[..p] == Ticks + tag && c[..3] == Ticks && c[3..p] == tag
            && (forall k | 0 <= k < |tag| :: c[3 + k] == tag[k])
            && c[p] == '\n' && c[q] == '\n'
            && c[p + 1..q] == s && c[p + 1..q + 1] == s + "\n"
            && (forall k | 0 <= k < |s| :: c[p + 1 + k] == s[k])
            && c[q + 1..] == Ticks
  {
    var c := Fenced(tag, s);
    var p := 3 + |tag|;
    var q := p + 1 + |s|;
    assert c == (Ticks + tag) + ("\n" + s + "\n" + Ticks);
    assert c == (Ticks + tag + "\n" + s) + ("\n" + Ticks);
    assert c == (Ticks + tag + "\n") + (s + "\n") + Ticks;
  }

  /** An opener is in particular a ``` . */
  lemma OpenerTicks(s: string, f: Fence, j: int)
    ensures OccursAt(s, Opener(f), j) ==> OccursAt(s, Ticks, j)
  {
    if OccursAt(s, Opener(f), j) {
      assert s[j..j + 3] == s[j..j + |Opener(f)|][..3];
    }
  }

  /** A character other than '`' among the three at j means there is no ``` at j. */
  lemma NotTicksAt(c: string, j: int, k: int)
    requires 0 <= j <= k < j + 3 && k < |c| && c[k] != '`'
    ensures !OccursAt(c, Ticks, j)
  {
    if j + 3 <= |c| {
      assert c[j..j + 3][k - j] == c[k];
    }
  }

  /** Inside a fenced block with a lower-case tag around a text without ``` , only the opener and the closer are ``` . */
  lemma FencedTicks(tag: string, s: string)
    requires forall k | 0 <= k < |tag| :: IsTagLetter(tag[k])
    requires !Contains(s, Ticks)
    ensures var c := Fenced(tag, s);
            forall j | 0 < j < |c| - 3 :: !OccursAt(c, Ticks, j)
  {
    var c := Fenced(tag, s);
    var p := 3 + |tag|;
    var q := p + 1 + |s|;
    FencedLayout(tag, s);
    forall j | 0 < j < |c| - 3
      ensures !OccursAt(c, Ticks, j)
    {
      if j <= p {
        var k := if j < 3 then 3 else j;
        if k < p {
          assert c[k] == tag[k - 3];
        }
        NotTicksAt(c, j, k);
      } else if j + 3 <= q {
        assert c[j..j + 3] == s[j - p - 1..j - p + 2];
        assert !OccursAt(s, Ticks, j - p - 1);
      } else {
        NotTicksAt(c, j, q);
      }
    }
  }

  /**
    An opener at 0 followed by the tag letters c[3..p] and a line break at p,
    then a character that is not whitespace: the body starts at p + 1.
   */
  lemma OpensAt(c: string, p: nat, f: Fence)
    requires 3 <= p && p + 1 < |c| && c[..3] == Ticks
    requires forall k | 3 <= k < p :: IsTagLetter(c[k])
    requires c[p] == '\n' && !IsSpace(c[p + 1])
    requires f == PythonFence ==> p == 9 && c[3..9] == "python"
    ensures OccursAt(c, Opener(f), 0)
    ensures BodyStart(c, 0, f) == Some(p + 1)
  {
    if f == PythonFence {
      assert c[..9] == c[..3] + c[3..9];
    } else {
      assert !IsTagLetter(c[p]);
      assert LettersEnd(c, 3) == p;
    }
    assert SpacesEnd(c, p) == p + 1;
    assert LastBreak(c, p, p + 1) == Some(p);
  }

  /** A body starting at b with no ``` before the final ``` at q + 1 ends there, and the match ends with the text. */
  lemma ClosesAt(c: string, b: nat, q: nat)
    requires b <= q && q + 4 == |c| && c[q + 1..] == Ticks
    requires forall j | b <= j <= q :: !OccursAt(c, Ticks, j)
    ensures BodyEnd(c, b) == q + 1 && MatchEnd(c, q + 1) == |c|
  {
    forall m | b <= m <= q
      ensures !Closes(c, m)
    {
    }
    assert c[q + 1..q + 4] == c[q + 1..];
    assert Closes(c, q + 1);
    var j := BodyEnd(c, b);
    assert j == q + 1;
  }

  /** The one match of fence f in a fenced block around s, when the fence accepts the block's tag. */
  lemma FencedBlocks(tag: string, s: string, f: Fence)
    requires forall k | 0 <= k < |tag| :: IsTagLetter(tag[k])
    requires s != [] && IsStripped(s) && !Contains(s, Ticks)
    requires f == PythonFence ==> tag == "python"
    ensures Blocks(Fenced(tag, s), f, 0) == [s]
  {
    FencedMatch(tag, s, f);
    OnlyMatch(Fenced(tag, s), f, Match(s + "\n", |Fenced(tag, s)|));
    TrimAround([], s, "\n", Spaces);
    assert [] + s + "\n" == s + "\n";
  }

  /** The first match in a fenced block: its body is the text and its line break, and it runs to the end. */
  lemma FencedMatch(tag: string, s: string, f: Fence)
    requires forall k | 0 <= k < |tag| :: IsTagLetter(tag[k])
    requires s != [] && IsStripped(s) && !Contains(s, Ticks)
    requires f == PythonFence ==> tag == "python"
    ensures NextMatch(Fenced(tag, s), f, 0) == Some(Match(s + "\n", |Fenced(tag, s)|))
  {
    var c := Fenced(tag, s);
    var p := 3 + |tag|;
    var q := p + 1 + |s|;
    assert && 3 <= p && p + 1 < |c| && c[..3] == Ticks
           && (forall k | 3 <= k < p :: IsTagLetter(c[k]))
           && c[p] == '\n' && !IsSpace(c[p + 1])
           && (f == PythonFence ==> p == 9 && c[3..9] == "python")
           && q + 4 == |c| && c[q + 1..] == Ticks && c[p + 1..q + 1] == s + "\n"
    by {
      FencedLayout(tag, s);
      assert c[p + 1] == s[0];
      forall k | 3 <= k < p
        ensures IsTagLetter(c[k])
      {
        assert c[k] == tag[k - 3];
      }
    }
    assert BodyEnd(c, p + 1) == q + 1 && MatchEnd(c, q + 1) == |c| by {
      FencedTicks(tag, s);
      ClosesAt(c, p + 1, q);
    }
    OpensAt(c, p, f);
    FirstMatch(c, f, p + 1, q + 1, s + "\n");
  }

  /** An opener at 0 whose body c[b..j] runs to a closer at the end of the text gives the first match. */
  lemma FirstMatch(c: string, f: Fence, b: nat, j: nat, body: string)
    requires OccursAt(c, Opener(f), 0) && BodyStart(c, 0, f) == Some(b)
    requires b <= j <= |c| && BodyEnd(c, b) == j && MatchEnd(c, j) == |c| && c[b..j] == body
    ensures NextMatch(c, f, 0) == Some(Match(body, |c|))
  {
    assert FindFrom(c, Opener(f), 0) == Some(0);
  }

  /** A first match that runs to the end of the text is the only one. */
  lemma OnlyMatch(c: string, f: Fence, m: Match)
    requires NextMatch(c, f, 0) == Some(m) && m.end == |c|
    ensures Blocks(c, f, 0) == Keep(m.body)
  {
    assert FindFrom(c, Opener(f), |c|) == None;
    assert Blocks(c, f, |c|) == [];
  }

  /**
    A text whose only possible ```python is at 0, and which there (if at all)
    goes on with a tag letter, holds no ```python match: the tag
    `python<letters>` leaves \s*\n nothing to match.
   */
  lemma NoPythonMatch(c: string)
    requires forall j | 0 < j :: !OccursAt(c, Opener(PythonFence), j)
    requires OccursAt(c, Opener(PythonFence), 0) ==> 9 < |c| && IsTagLetter(c[9])
    ensures Blocks(c, PythonFence, 0) == []
  {
    var o := Opener(PythonFence);
    if OccursAt(c, o, 0) {
      assert FindFrom(c, o, 1) == None;
      assert NextMatch(c, PythonFence, 1) == None;
      assert FindFrom(c, o, 0) == Some(0);
      PythonTagRunsOn(c);
    } else {
      assert FindFrom(c, o, 0) == None;
    }
    assert NextMatch(c, PythonFence, 0) == None;
  }

  /** After ```python and a further tag letter, \s* finds no line break. */
  lemma PythonTagRunsOn(c: string)
    requires OccursAt(c, Opener(PythonFence), 0) && 9 < |c| && IsTagLetter(c[9])
    ensures BodyStart(c, 0, PythonFence) == None
  {
    assert SpacesEnd(c, 9) == 9;
    assert LastBreak(c, 9, 9) == None;
  }

  /** Only at 0 can a fenced block hold ```python . */
  lemma FencedPythonOnlyAtStart(tag: string, s: string)
    requires forall k | 0 <= k < |tag| :: IsTagLetter(tag[k])
    requires !Contains(s, Ticks)
    ensures forall j | 0 < j :: !OccursAt(Fenced(tag, s), Opener(PythonFence), j)
  {
    var c := Fenced(tag, s);
    FencedLayout(tag, s);
    FencedTicks(tag, s);
    forall j | 0 < j
      ensures !OccursAt(c, Opener(PythonFence), j)
    {
      OpenerTicks(c, PythonFence, j);
    }
  }

  /** A fenced block with a tag other than python either does not begin with ```python, or its tag runs on past it. */
  lemma FencedNotPython(tag: string, s: string)
    requires forall k | 0 <= k < |tag| :: IsTagLetter(tag[k])
    requires tag != "python"
    ensures var c := Fenced(tag, s);
            OccursAt(c, Opener(PythonFence), 0) ==> 9 < |c| && IsTagLetter(c[9])
  {
    var c := Fenced(tag, s);
    var p := 3 + |tag|;
    var o := Opener(PythonFence);
    FencedLayout(tag, s);
    if |tag| < 6 {
      assert c[p] == '\n' != o[p];
      if |c| >= 9 {
        assert c[..9][p] != o[p];
      }
    } else if tag[..6] == "python" {
      assert tag == tag[..6] + tag[6..];
      assert c[9] == tag[6];
    } else {
      assert |c| >= 9 && p >= 9;
      assert c[3..9] == c[3..p][..6];
      assert c[3..9] != o[3..9];
      assert c[..9][3..9] != o[3..9];
    }
  }

  /** A fenced block whose tag is not python holds no ```python match. */
  lemma NoPythonBlocks(tag: string, s: string)
    requires forall k | 0 <= k < |tag| :: IsTagLetter(tag[k])
    requires !Contains(s, Ticks)
    requires tag != "python"
    ensures Blocks(Fenced(tag, s), PythonFence, 0) == []
  {
    FencedPythonOnlyAtStart(tag, s);
    FencedNotPython(tag, s);
    NoPythonMatch(Fenced(tag, s));
  }

  /**
    The round trip: a fenced block with a lower-case tag around a non-empty,
    stripped text without ``` extracts to exactly that text, whether the tag
    is python or another one.
   */
  lemma ExtractFenced(tag: string, s: string)
    requires forall k | 0 <= k < |tag| :: IsTagLetter(tag[k])
    requires s != [] && IsStripped(s) && !Contains(s, Ticks)
    ensures Extract(Fenced(tag, s)) == s
  {
    if tag == "python" {
      FencedBlocks(tag, s, PythonFence);
    } else {
      NoPythonBlocks(tag, s);
      FencedBlocks(tag, s, AnyFence);
    }
  }
}
