/**
  The records that flow between the agents, and the bullet lists the agents
  write them out as.

  The requirement record is the dictionary `analyze` returns: it always holds
  its eight keys, so each key is a field here.  Every agent turns the lists
  of that record into sections of the form
      "<TITLE>:\n- item\n- item\n"
  by appending one "- item\n" per entry with `text +=`.
 */
module Records {
  import opened Outcomes
  import opened Text

  /** One clarifying question with the assumption made to proceed and a code example. */
  datatype Triple = Triple(question: string, assumption: string, code: string)

  /** The structured requirements that `analyze` returns. */
  datatype Requirements = Requirements(
    functional: seq<string>,
    nonFunctional: seq<string>,
    assumptions: seq<string>,
    constraints: seq<string>,
    language: string,
    questions: seq<Triple>,
    ambiguityDetected: bool,
    notes: string)

  /**
    The two parts of a finished run's results that a later run reads back:
    the functional requirements of its requirement record (None when the
    record is missing or an empty dictionary) and its generated code.
   */
  datatype RunResults = RunResults(functional: Option<seq<string>>, code: string)

  /**
    The conversation context of the application: whether a conversation is
    going on, the prompts of its finished runs, and the results of the last
    one (None when absent or empty).
   */
  datatype Context = Context(active: bool, prompts: seq<string>, results: Option<RunResults>)

  /** One bullet line, `f"- {item}\n"`. */
  function Bullet(item: string): string {
    "- " + item + "\n"
  }

  /** What the `for item in items: text += f"- {item}\n"` loop appends. */
  function Bullets(items: seq<string>): string
    decreases |items|
  {
    if items == [] then "" else Bullets(items[..|items| - 1]) + Bullet(items[|items| - 1])
  }

  /** The bullet loop of every `_format_requirements`. */
  method AppendBullets(text: string, items: seq<string>) returns (r: string)
    ensures r == text + Bullets(items)
  {
    r := text;
    for k := 0 to |items|
      invariant r == text + Bullets(items[..k])
    {
      assert items[..k + 1][..k] == items[..k];
      r := r + Bullet(items[k]);
    }
    assert items[..|items|] == items;
  }

  /** Bullets of a concatenation are the concatenation of the bullets: the loop keeps the input order. */
  lemma {:induction false} BulletsAppend(xs: seq<string>, ys: seq<string>)
    ensures Bullets(xs + ys) == Bullets(xs) + Bullets(ys)
    decreases |ys|
  {
    if ys != [] {
      var zs := ys[..|ys| - 1];
      assert (xs + ys)[..|xs + ys| - 1] == xs + zs;
      BulletsAppend(xs, zs);
    } else {
      assert xs + ys == xs;
    }
  }

  /** The lines of a bullet list: one "- item" per entry. */
  function BulletLines(items: seq<string>): (lines: seq<string>)
    ensures |lines| == |items|
    ensures forall k | 0 <= k < |items| :: lines[k] == "- " + items[k]
    decreases |items|
  {
    if items == [] then [] else BulletLines(items[..|items| - 1]) + ["- " + items[|items| - 1]]
  }

  /** One line of a bullet list read back: the line less its "- ". */
  function Unmark(line: string): string {
    if StartsWith(line, "- ") then line[2..] else line
  }

  /** Reading a bullet list back: every line but the empty last one, less its "- ". */
  function Unbullet(text: string): seq<string> {
    UnmarkAll(Split(text, '\n'))
  }

  function UnmarkAll(lines: seq<string>): (items: seq<string>)
    requires |lines| >= 1
    ensures |items| == |lines| - 1
    ensures forall k | 0 <= k < |items| :: items[k] == Unmark(lines[k])
  {
    seq(|lines| - 1, k requires 0 <= k < |lines| - 1 => Unmark(lines[k]))
  }

  /** A bullet list is its lines, each followed by a line break. */
  lemma {:induction false} BulletsAreLines(items: seq<string>)
    ensures Bullets(items) == Join("\n", BulletLines(items) + [""])
    decreases |items|
  {
    if items != [] {
      var init := items[..|items| - 1];
      var last := items[|items| - 1];
      BulletsAreLines(init);
      if init == [] {
        assert BulletLines(items) + [""] == ["- " + last, ""];
      } else {
        assert BulletLines(items) + [""] == BulletLines(init) + ["- " + last, ""];
        JoinAppend("\n", BulletLines(init), ["- " + last, ""]);
        JoinAppend("\n", BulletLines(init), [""]);
        assert BulletLines(init) + [""] == BulletLines(init) + [""];
      }
    }
  }

  /** A bullet list splits into its lines and one empty piece after the last line break. */
  lemma BulletsSplit(items: seq<string>)
    requires forall k | 0 <= k < |items| :: '\n' !in items[k]
    ensures Split(Bullets(items), '\n') == BulletLines(items) + [""]
  {
    var lines := BulletLines(items) + [""];
    BulletsAreLines(items);
    LinesUnbroken(items);
    SplitJoin(lines, '\n');
    assert "\n" == ['\n'];
  }

  /** No line of a bullet list holds a line break when no item does. */
  lemma LinesUnbroken(items: seq<string>)
    requires forall k | 0 <= k < |items| :: '\n' !in items[k]
    ensures forall k | 0 <= k < |BulletLines(items) + [""]| :: '\n' !in (BulletLines(items) + [""])[k]
  {
    var lines := BulletLines(items) + [""];
    forall k | 0 <= k < |lines|
      ensures '\n' !in lines[k]
    {
      if k < |items| {
        assert lines[k] == "- " + items[k];
      }
    }
  }

  /** Unmarking the lines "- item" gives the items. */
  lemma UnmarkLines(items: seq<string>)
    ensures UnmarkAll(BulletLines(items) + [""]) == items
  {
    var lines := BulletLines(items) + [""];
    var back := UnmarkAll(lines);
    forall k | 0 <= k < |items|
      ensures back[k] == items[k]
    {
      assert lines[k] == "- " + items[k];
      assert lines[k][2..] == items[k];
    }
  }

  /** Reading back a bullet list gives the items, as long as none of them holds a line break. */
  lemma BulletsRoundTrip(items: seq<string>)
    requires forall k | 0 <= k < |items| :: '\n' !in items[k]
    ensures Unbullet(Bullets(items)) == items
  {
    BulletsSplit(items);
    UnmarkLines(items);
  }

  /** The requirements as the test, review and documentation agents write them: functional, then non-functional. */
  function BriefRequirements(req: Requirements): string {
    "FUNCTIONAL REQUIREMENTS:\n" + Bullets(req.functional) + "\nNON-FUNCTIONAL REQUIREMENTS:\n" + Bullets(req.nonFunctional)
  }

  /** The requirements as the coding agent writes them: the two lists above, then assumptions and constraints. */
  function FullRequirements(req: Requirements): string {
    BriefRequirements(req) + "\nASSUMPTIONS:\n" + Bullets(req.assumptions) + "\nCONSTRAINTS:\n" + Bullets(req.constraints)
  }

  /** The `_format_requirements` that the test, review and documentation agents share. */
  method FormatBrief(req: Requirements) returns (text: string)
    ensures text == BriefRequirements(req)
  {
    text := "FUNCTIONAL REQUIREMENTS:\n";
    text := AppendBullets(text, req.functional);
    text := text + "\nNON-FUNCTIONAL REQUIREMENTS:\n";
    text := AppendBullets(text, req.nonFunctional);
  }

  /**
    Reading the brief form back: it opens with the functional title line, and
    right after it come the functional bullets, which read back as the list.
   */
  lemma BriefReadsBack(req: Requirements)
    requires forall k | 0 <= k < |req.functional| :: '\n' !in req.functional[k]
    ensures var text := BriefRequirements(req);
            var head := "FUNCTIONAL REQUIREMENTS:\n";
            StartsWith(text, head + Bullets(req.functional))
            && Unbullet(Bullets(req.functional)) == req.functional
  {
    BulletsRoundTrip(req.functional);
    var text := BriefRequirements(req);
    var p := "FUNCTIONAL REQUIREMENTS:\n" + Bullets(req.functional);
    assert text == p + ("\nNON-FUNCTIONAL REQUIREMENTS:\n" + Bullets(req.nonFunctional));
  }

  /** The coding agent's form extends the others': it starts with the brief form. */
  lemma FullExtendsBrief(req: Requirements)
    ensures StartsWith(FullRequirements(req), BriefRequirements(req))
  {
    var b := BriefRequirements(req);
    assert FullRequirements(req) == b + ("\nASSUMPTIONS:\n" + Bullets(req.assumptions) + "\nCONSTRAINTS:\n" + Bullets(req.constraints));
  }
}
