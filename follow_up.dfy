/**
  Follow-up detection in the application: whether a new prompt continues
  the conversation.  A language model is asked first; its answer is the
  abstract reply.  When it gives nothing usable or raises, a keyword
  heuristic decides.
 */
module FollowUp {
  import opened Text
  import opened Invoker
  import opened Records

  /** The words and phrases the heuristic counts, each as a plain substring of the lower-cased prompt. */
  const Keywords: seq<string> := [
    "change", "update", "modify", "add", "remove", "also", "instead",
    "make it", "can you", "please", "the code", "the previous",
    "above", "that", "it", "this", "same", "keep", "maintain"
  ]

  /** The phrases that on their own make a prompt a follow-up. */
  const References: seq<string> := ["previous", "above", "that code", "the code", "same"]

  /** `sum(1 for keyword in keywords if keyword in s)`: the number of keywords that occur in s. */
  function KeywordCount(s: string, keywords: seq<string>): (n: nat)
    ensures n <= |keywords|
    ensures n == 0 <==> !ContainsAny(s, keywords)
    ensures n == |set k: nat | k < |keywords| && Contains(s, keywords[k])|
    decreases |keywords|
  {
    if keywords == [] then 0
    else
      var init := keywords[..|keywords| - 1];
      var n := KeywordCount(s, init) + (if Contains(s, keywords[|keywords| - 1]) then 1 else 0);
      assert forall j | 0 <= j < |init| :: init[j] == keywords[j];
      PresentStep(s, keywords);
      n
  }

  /** The keywords present are those of all but the last, and the last when it occurs. */
  lemma PresentStep(s: string, keywords: seq<string>)
    requires keywords != []
    ensures var last := |keywords| - 1;
            (set k: nat | k < |keywords| && Contains(s, keywords[k]))
            == (set k: nat | k < last && Contains(s, keywords[..last][k])) + (if Contains(s, keywords[last]) then {last} else {})
  {
    var last := |keywords| - 1;
    assert forall k | 0 <= k < last :: keywords[..last][k] == keywords[k];
  }

  /** At least two keywords count exactly when two different keywords occur. */
  lemma TwoKeywords(s: string, keywords: seq<string>)
    ensures KeywordCount(s, keywords) >= 2 <==>
              exists i, j | 0 <= i < j < |keywords| :: Contains(s, keywords[i]) && Contains(s, keywords[j])
  {
    var present := set k: nat | k < |keywords| && Contains(s, keywords[k]);
    if KeywordCount(s, keywords) >= 2 {
      var i, j := TwoMembers(present);
      assert Contains(s, keywords[i]) && Contains(s, keywords[j]);
    }
    if exists i, j | 0 <= i < j < |keywords| :: Contains(s, keywords[i]) && Contains(s, keywords[j]) {
      var i, j :| 0 <= i < j < |keywords| && Contains(s, keywords[i]) && Contains(s, keywords[j]);
      PairSize(i, j, present);
    }
  }

  /** A set of at least two numbers has two members in increasing order. */
  lemma TwoMembers(xs: set<nat>) returns (i: nat, j: nat)
    requires |xs| >= 2
    ensures i in xs && j in xs && i < j
  {
    var a :| a in xs;
    assert xs == (xs - {a}) + {a};
    var b :| b in xs - {a};
    if a < b { i, j := a, b; } else { i, j := b, a; }
  }

  /** Two different members make a set of at least two. */
  lemma PairSize(i: nat, j: nat, xs: set<nat>)
    requires i in xs && j in xs && i != j
    ensures |xs| >= 2
  {
    assert |{i, j}| == 2;
    SubsetSize({i, j}, xs);
  }

  lemma SubsetSize(a: set<nat>, b: set<nat>)
    requires a <= b
    ensures |a| <= |b|
  {
    assert b == a + (b - a);
  }

  /**
    `_heuristic_followup_detection`: a short prompt with one keyword, any
    prompt with two, or any prompt with an explicit reference.  The
    previous prompt is a parameter the heuristic never reads.
   */
  function Heuristic(newPrompt: string, previousPrompt: string): (followUp: bool)
    ensures followUp <==>
              (|Strip(newPrompt)| < 50 && ContainsAny(Lower(newPrompt), Keywords))
              || KeywordCount(Lower(newPrompt), Keywords) >= 2
              || ContainsAny(Lower(newPrompt), References)
  {
    var lower := Lower(newPrompt);
    var count := KeywordCount(lower, Keywords);
    if |Strip(newPrompt)| < 50 && count > 0 then true
    else if count >= 2 then true
    else ContainsAny(lower, References)
  }

  /** The heuristic does not depend on the previous prompt. */
  lemma HeuristicIgnoresPrevious(newPrompt: string, previous: string, other: string)
    ensures Heuristic(newPrompt, previous) == Heuristic(newPrompt, other)
  {
  }

  /**
    Keywords are substrings, not words: "it" occurs inside "write", so a
    short prompt "write a sort function" counts as a follow-up.
   */
  lemma SubstringKeyword(previous: string)
    ensures Heuristic(SortPrompt, previous)
  {
    SortPromptPlain();
    SortPromptHasIt();
  }

  const SortPrompt: string := "write a sort function"

  /** The prompt is lower-case and has no white space at either end. */
  lemma SortPromptPlain()
    ensures Lower(SortPrompt) == SortPrompt && |Strip(SortPrompt)| < 50
  {
    var p := SortPrompt;
    assert IsLowerCase(p);
    LowerOfLowerCase(p);
    assert IsStripped(p);
    StripOfStripped(p);
  }

  /** "it" is one of the keywords, inside "write". */
  lemma SortPromptHasIt()
    ensures ContainsAny(SortPrompt, Keywords)
  {
    var it := Keywords[14];
    assert it == "it" && SortPrompt[2..4] == it;
    assert OccursAt(SortPrompt, it, 2);
    assert Contains(SortPrompt, Keywords[14]);
  }

  /** Stripping a text that neither starts nor ends with white space leaves it as it is. */
  lemma StripOfStripped(s: string)
    requires IsStripped(s)
    ensures Strip(s) == s
  {
    TrimOfTrimmed(s, Spaces);
  }

  /** `if response:`: a reply the classifier's answer is read from. */
  predicate Usable(reply: Reply) {
    match reply
    case NoReply => false
    case Raised(_) => false
    case Str(text) => text != ""
    case Dict(entries, _) => |entries| > 0
  }

  /** The classifier's answer says follow-up: "FOLLOWUP" or "FOLLOW-UP" in its stripped, upper-cased text. */
  predicate SaysFollowUp(content: string) {
    var answer := Upper(Strip(content));
    Contains(answer, "FOLLOWUP") || Contains(answer, "FOLLOW-UP")
  }

  /**
    `detect_follow_up`: never a follow-up without an active conversation
    with a previous prompt; otherwise the classifier's answer when it gives
    one, and the heuristic against the last previous prompt when it gives
    None, an empty answer, or raises.
   */
  function DetectFollowUp(newPrompt: string, context: Context, reply: Reply): (followUp: bool)
    ensures !context.active || context.prompts == [] ==> !followUp
    ensures context.active && context.prompts != [] && Usable(reply) ==> followUp == SaysFollowUp(ContentOf(reply))
    ensures context.active && context.prompts != [] && !Usable(reply) ==>
              followUp == Heuristic(newPrompt, context.prompts[|context.prompts| - 1])
  {
    if !context.active || context.prompts == [] then false
    else
      var previous := context.prompts[|context.prompts| - 1];
      if Usable(reply) then SaysFollowUp(ContentOf(reply))
      else Heuristic(newPrompt, previous)
  }

  /** The classifier's answer is read ignoring case and surrounding white space. */
  lemma PaddedAnswer()
    ensures SaysFollowUp(" followup\n")
  {
    PaddingStripped();
    UpperFollowup();
    assert OccursAt("FOLLOWUP", "FOLLOWUP", 0);
  }

  lemma UpperFollowup()
    ensures Upper("followup") == "FOLLOWUP"
  {
    var u := Upper("followup");
    assert |u| == 8;
    assert u[0] == 'F' && u[1] == 'O' && u[2] == 'L' && u[3] == 'L';
    assert u[4] == 'O' && u[5] == 'W' && u[6] == 'U' && u[7] == 'P';
  }

  lemma PaddingStripped()
    ensures Strip(" followup\n") == "followup"
  {
    var w := "followup";
    assert " followup\n" == [' '] + w + ['\n'];
    assert IsTrimmed(w, Spaces);
    TrimAround([' '], w, ['\n'], Spaces);
  }

  /** The answer "NEW" is not a follow-up. */
  lemma NewAnswer()
    ensures !SaysFollowUp("NEW")
  {
    StripOfStripped("NEW");
    assert Upper("NEW") == "NEW";
  }

  /** With an active conversation, the classifier's answer decides, whatever the prompt. */
  lemma AnswerDecides(newPrompt: string, context: Context)
    requires context.active && context.prompts != []
    ensures DetectFollowUp(newPrompt, context, Str(" followup\n"))
    ensures !DetectFollowUp(newPrompt, context, Str("NEW"))
  {
    var yes, no := " followup\n", "NEW";
    assert Usable(Str(yes)) && ContentOf(Str(yes)) == yes;
    assert Usable(Str(no)) && ContentOf(Str(no)) == no;
    PaddedAnswer();
    NewAnswer();
  }

  /** A dict answer without "content" reads as the empty answer, which is not a follow-up. */
  lemma ContentlessAnswer(newPrompt: string, context: Context, entries: map<string, string>, shown: DictText)
    requires context.active && context.prompts != []
    requires |entries| > 0 && "content" !in entries
    ensures !DetectFollowUp(newPrompt, context, Dict(entries, shown))
  {
    assert Upper(Strip("")) == "";
  }
}
