/**
  The code-review agent: one call with the shared retry loop, in which only
  None and exceptions count as failures, then the verdict: approved exactly
  when the stripped reply, upper-cased, begins with "APPROVED".
 */
module ReviewAgent {
  import opened Outcomes
  import opened Text
  import opened Invoker
  import opened Records

  const NoneMessage: string := "Agent returned None response after retries."

  /** One attempt of review: any text, even an empty one, is kept. */
  function Judge(r: Reply): (a: Attempt)
    ensures a.Reject? <==> r.NoReply? || r.Raised?
    ensures r.NoReply? ==> a == Reject(NoneMessage)
    ensures r.Raised? ==> a == Reject(r.message)
    ensures a.Accept? ==> a.text == ContentOf(r)
  {
    match r
    case NoReply => Reject(NoneMessage)
    case Raised(message) => Reject(message)
    case _ => Accept(ContentOf(r))
  }

  const ReviewPolicy: Policy := Policy(Judge, "Review API call", "")

  /** The pair review returns. */
  datatype Verdict = Verdict(approved: bool, feedback: string)

  const Approved: string := "APPROVED"

  /** `feedback = feedback.strip(); is_approved = feedback.upper().startswith("APPROVED")` */
  function Judgement(reply: string): (v: Verdict)
    ensures v.feedback == Strip(reply)
    ensures v.approved <==> |v.feedback| >= 8 && forall i | 0 <= i < 8 :: UpperChar(v.feedback[i]) == Approved[i]
  {
    var feedback := Strip(reply);
    var upper := Upper(feedback);
    assert |upper| >= 8 ==> (upper[..8] == Approved <==> forall i | 0 <= i < 8 :: upper[i] == Approved[i]);
    Verdict(StartsWith(upper, Approved), feedback)
  }

  /** Judging the returned feedback again gives the same verdict: stripping twice changes nothing. */
  lemma JudgementIdempotent(reply: string)
    ensures Judgement(Judgement(reply).feedback) == Judgement(reply)
  {
    TrimIdempotent(reply, Spaces);
  }

  /** A stripped reply beginning with "APPROVED" is approved and returned verbatim, whatever follows. */
  lemma ApprovedVerbatim(reply: string)
    requires IsStripped(reply) && StartsWith(reply, Approved)
    ensures Judgement(reply) == Verdict(true, reply)
  {
    TrimOfTrimmed(reply, Spaces);
    forall i | 0 <= i < 8
      ensures UpperChar(reply[i]) == Approved[i]
    {
      assert reply[i] == reply[..8][i];
    }
  }

  /** Approval ignores case: a stripped reply whose first eight letters spell "approved" in any case is approved. */
  lemma ApprovedAnyCase(reply: string)
    requires IsStripped(reply) && |reply| >= 8 && Lower(reply[..8]) == "approved"
    ensures Judgement(reply) == Verdict(true, reply)
  {
    TrimOfTrimmed(reply, Spaces);
    forall i | 0 <= i < 8
      ensures UpperChar(reply[i]) == Approved[i]
    {
      assert Lower(reply[..8])[i] == LowerChar(reply[i]);
    }
  }

  /** Approval ignores leading whitespace: "  approved." is approved, and its feedback is "approved.". */
  lemma ApprovedAfterSpaces(p: string, reply: string)
    requires IsBlank(p) && IsStripped(reply)
    requires |reply| >= 8 && Lower(reply[..8]) == "approved"
    ensures Judgement(p + reply) == Verdict(true, reply)
  {
    TrimAround(p, reply, [], Spaces);
    assert p + reply + [] == p + reply;
    ApprovedAnyCase(reply);
  }

  /** A stripped reply that does not begin with an a or A is not approved and is returned verbatim. */
  lemma RejectedVerbatim(reply: string)
    requires IsStripped(reply)
    requires reply == [] || UpperChar(reply[0]) != 'A'
    ensures Judgement(reply) == Verdict(false, reply)
  {
    TrimOfTrimmed(reply, Spaces);
  }

  /** What review returns for the given replies, or the message it raises. */
  function Reviewed(replies: seq<Reply>): Result<Verdict, string>
    requires |replies| == MaxRetries
  {
    match Run(ReviewPolicy, replies, 0).outcome
    case Failure(e) => Failure(e)
    case Success(reply) => Success(Judgement(reply))
  }

  /** review: the retry loop, then the verdict. */
  method Review(req: Requirements, code: string, replies: seq<Reply>) returns (requirements: string, result: Result<Verdict, string>, calls: nat)
    requires |replies| == MaxRetries
    ensures requirements == BriefRequirements(req)
    ensures result == Reviewed(replies)
    ensures calls == Run(ReviewPolicy, replies, 0).calls
  {
    requirements := FormatBrief(req);
    var outcome;
    ghost var waits;
    outcome, calls, waits := Invoke(ReviewPolicy, replies);
    if outcome.Failure? {
      return requirements, Failure(outcome.error), calls;
    }
    result := Success(Judgement(outcome.value));
  }

  /** An empty first reply is not retried: it is taken at once and gives (false, ""). */
  lemma EmptyReplyNotRetried(replies: seq<Reply>)
    requires |replies| == MaxRetries && replies[0] == Str("")
    ensures Reviewed(replies) == Success(Verdict(false, ""))
    ensures Run(ReviewPolicy, replies, 0).calls == 1
  {
    assert Strip("") == "";
  }

  /** Review fails only after three None replies or exceptions, with the last reason in the message. */
  lemma ReviewedFailure(replies: seq<Reply>)
    requires |replies| == MaxRetries
    ensures Reviewed(replies).Failure? <==> forall k | 0 <= k < MaxRetries :: replies[k].NoReply? || replies[k].Raised?
    ensures Reviewed(replies).Failure? ==>
              Reviewed(replies).error == "Review API call" + " failed after 3 attempts: " + Judge(replies[2]).reason + ""
  {
    var run := Run(ReviewPolicy, replies, 0);
    if run.outcome.Success? {
      var k :| 0 <= k < MaxRetries && ReviewPolicy.judge(replies[k]).Accept?;
      assert Judge(replies[k]).Accept?;
    }
  }
}
