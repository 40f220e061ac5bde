/**
  The bounded retry loop around one language-model call.  Every agent runs
  the same loop: up to three calls; after a failed call that is not the last
  one it sleeps 2^attempt seconds and tries again; after a failed last call
  it raises ValueError("<name> failed after 3 attempts: <reason><advice>").
  What differs between the agents is which replies count as failed and how
  the text of a reply is read; that is the agent's Policy.

  The service is abstract: `replies` holds what it would answer to the first,
  second and third call, and only the calls actually made are consulted.
  The sleeps are recorded in a ghost log of durations.
 */
module Invoker {
  import opened Outcomes
  import opened Text

  /** What str() of a Python dict looks like: it begins with '{' and ends with '}'. */
  type DictText = s: string | |s| >= 2 && s[0] == '{' && s[|s| - 1] == '}' witness "{}"

  /** One answer of generate_reply. */
  datatype Reply =
    | NoReply                                            // the call returned None
    | Raised(message: string)                            // the call raised; message is str(e)
    | Str(text: string)                                  // a non-dict reply, as str(response)
    | Dict(entries: map<string, string>, shown: DictText) // a dict reply and its str()

  /** dict.get(key, "") */
  function Get(entries: map<string, string>, key: string): string {
    if key in entries then entries[key] else ""
  }

  /** `response.get("content", "") if isinstance(response, dict) else str(response)` */
  function ContentOf(r: Reply): string
    requires r.Str? || r.Dict?
  {
    if r.Dict? then Get(r.entries, "content") else r.text
  }

  /** `response.get("content", "") or response.get("text", "") or str(response)` for a dict, else str(response). */
  function ContentOrTextOf(r: Reply): (t: string)
    requires r.Str? || r.Dict?
    ensures r.Str? ==> t == r.text
    ensures r.Dict? && Get(r.entries, "content") != "" ==> t == Get(r.entries, "content")
    ensures r.Dict? && Get(r.entries, "content") == "" && Get(r.entries, "text") != "" ==> t == Get(r.entries, "text")
    ensures r.Dict? && Get(r.entries, "content") == "" && Get(r.entries, "text") == "" ==> t == r.shown && !IsBlank(t)
  {
    match r
    case Str(text) => text
    case Dict(entries, shown) =>
      if Get(entries, "content") != "" then Get(entries, "content")
      else if Get(entries, "text") != "" then Get(entries, "text")
      else assert !IsSpace(shown[0]); shown
  }

  /** How one call ended: with text the agent keeps, or with the reason it would raise if this was the last call. */
  datatype Attempt = Accept(text: string) | Reject(reason: string)

  /**
    An agent's retry policy: how it judges a reply, and the words around the
    reason in the error it raises once the attempts are used up.
   */
  datatype Policy = Policy(judge: (Reply -> Attempt), name: string, advice: string)

  const MaxRetries: nat := 3

  /** `2 ** attempt` */
  function Backoff(attempt: nat): nat {
    if attempt == 0 then 1 else 2 * Backoff(attempt - 1)
  }

  /** The message of the ValueError raised after the last failed call. */
  function FailureMessage(p: Policy, reason: string): string {
    p.name + " failed after 3 attempts: " + reason + p.advice
  }

  /** Everything one run of the loop produces: the text or the error, how many calls it made, and its sleeps. */
  datatype Invocation = Invocation(outcome: Result<string, string>, calls: nat, waits: seq<nat>)

  /**
    The loop from `attempt` on.  It stops at the first accepted reply; it
    raises only when every call from `attempt` to the last was rejected, with
    the reason of the last one; it sleeps 2^i after each rejected call i that
    is not the last.
   */
  function Run(p: Policy, replies: seq<Reply>, attempt: nat): (r: Invocation)
    requires |replies| == MaxRetries && attempt < MaxRetries
    decreases MaxRetries - attempt
    ensures attempt < r.calls <= MaxRetries
    ensures |r.waits| == r.calls - 1 - attempt
    ensures forall i | 0 <= i < |r.waits| :: r.waits[i] == Backoff(attempt + i)
    ensures forall k | attempt <= k < r.calls - 1 :: p.judge(replies[k]).Reject?
    ensures r.outcome.Success? <==> exists k | attempt <= k < MaxRetries :: p.judge(replies[k]).Accept?
    ensures r.outcome.Success? ==> p.judge(replies[r.calls - 1]) == Accept(r.outcome.value)
    ensures r.outcome.Failure? ==>
              && r.calls == MaxRetries
              && p.judge(replies[MaxRetries - 1]).Reject?
              && r.outcome.error == FailureMessage(p, p.judge(replies[MaxRetries - 1]).reason)
  {
    match p.judge(replies[attempt])
    case Accept(text) => Invocation(Success(text), attempt + 1, [])
    case Reject(reason) =>
      if attempt < MaxRetries - 1 then
        var rest := Run(p, replies, attempt + 1);
        Invocation(rest.outcome, rest.calls, [Backoff(attempt)] + rest.waits)
      else
        Invocation(Failure(FailureMessage(p, reason)), attempt + 1, [])
  }

  /** The loop of the agents, `for attempt in range(max_retries)`, with the sleeps in a ghost log. */
  method Invoke(p: Policy, replies: seq<Reply>) returns (outcome: Result<string, string>, calls: nat, ghost waits: seq<nat>)
    requires |replies| == MaxRetries
    ensures Invocation(outcome, calls, waits) == Run(p, replies, 0)
  {
    waits := [];
    var attempt: nat := 0;
    while true
      invariant attempt < MaxRetries
      invariant Run(p, replies, 0) == Invocation(Run(p, replies, attempt).outcome, Run(p, replies, attempt).calls,
                                                 waits + Run(p, replies, attempt).waits)
      decreases MaxRetries - attempt
    {
      match p.judge(replies[attempt]) {
        case Accept(text) =>
          outcome, calls := Success(text), attempt + 1;
          return;
        case Reject(reason) =>
          if attempt < MaxRetries - 1 {
            waits := waits + [Backoff(attempt)];
            attempt := attempt + 1;
          } else {
            outcome, calls := Failure(FailureMessage(p, reason)), attempt + 1;
            return;
          }
      }
    }
  }

  /**
    The whole loop makes one, two or three calls; the sleeps between them are
    1 and then 2 seconds, and none follows the last call.
   */
  lemma {:induction false} WaitSchedule(p: Policy, replies: seq<Reply>)
    requires |replies| == MaxRetries
    ensures var r := Run(p, replies, 0);
            1 <= r.calls <= 3 && r.waits == [1, 2][..r.calls - 1]
  {
    var r := Run(p, replies, 0);
    assert Backoff(0) == 1 && Backoff(1) == 2;
    if r.calls == 3 {
      assert r.waits == [r.waits[0], r.waits[1]];
    }
  }

  /** When every accepted reply is non-blank, the text the loop returns is non-blank, so a later `if not text` cannot fire. */
  lemma AcceptedIsNonBlank(p: Policy, replies: seq<Reply>)
    requires |replies| == MaxRetries
    requires forall k | 0 <= k < MaxRetries :: p.judge(replies[k]).Accept? ==> !IsBlank(p.judge(replies[k]).text)
    ensures Run(p, replies, 0).outcome.Success? ==> !IsBlank(Run(p, replies, 0).outcome.value)
  {
  }
}
