/**
  The documentation agent: the shared retry loop, reading only the
  "content" of a dict reply; the documentation is returned as received,
  without stripping.
 */
module DocumentationAgent {
  import opened Outcomes
  import opened Text
  import opened Invoker
  import opened Records

  const NoneMessage: string := "Agent returned None response after retries. This may be due to API rate limiting or model unavailability."
  const EmptyMessage: string := "Agent returned empty documentation after retries."

  /** One attempt of generate_documentation: None, exceptions and blank content are failures. */
  function Judge(r: Reply): (a: Attempt)
    ensures a.Accept? <==> (r.Str? || r.Dict?) && !IsBlank(ContentOf(r))
    ensures a.Accept? ==> a.text == ContentOf(r)
    ensures r.NoReply? ==> a == Reject(NoneMessage)
    ensures r.Raised? ==> a == Reject(r.message)
    ensures (r.Str? || r.Dict?) && IsBlank(ContentOf(r)) ==> a == Reject(EmptyMessage)
  {
    match r
    case NoReply => Reject(NoneMessage)
    case Raised(message) => Reject(message)
    case _ => if IsBlank(ContentOf(r)) then Reject(EmptyMessage) else Accept(ContentOf(r))
  }

  const DocumentationPolicy: Policy :=
    Policy(Judge, "Documentation API call", ". Check API key, model configuration, and network connection.")

  /** A dict without "content" is a failed attempt, even when it has "text": this agent has no "text" fallback. */
  lemma ContentlessDictRetried(entries: map<string, string>, shown: DictText)
    requires "content" !in entries
    ensures Judge(Dict(entries, shown)) == Reject(EmptyMessage)
  {
  }

  /** What generate_documentation returns for the given replies, or the message it raises. */
  function Documented(replies: seq<Reply>): Result<string, string>
    requires |replies| == MaxRetries
  {
    Run(DocumentationPolicy, replies, 0).outcome
  }

  /** generate_documentation: the retry loop. */
  method GenerateDocumentation(req: Requirements, code: string, replies: seq<Reply>)
    returns (requirements: string, result: Result<string, string>, calls: nat)
    requires |replies| == MaxRetries
    ensures requirements == BriefRequirements(req)
    ensures result == Documented(replies)
    ensures calls == Run(DocumentationPolicy, replies, 0).calls
    ensures result.Success? ==> !IsBlank(result.value)
  {
    requirements := FormatBrief(req);
    ghost var waits;
    result, calls, waits := Invoke(DocumentationPolicy, replies);
    AcceptedIsNonBlank(DocumentationPolicy, replies);
    if result.Success? && result.value == "" {
      // `if not documentation:` after the loop cannot fire.
      assert false;
    }
  }

  /** The documentation is the content of the last reply, exactly as received (not stripped), and it is non-blank. */
  lemma DocumentedVerbatim(replies: seq<Reply>)
    requires |replies| == MaxRetries
    ensures var run := Run(DocumentationPolicy, replies, 0);
            run.outcome.Success? ==>
              var last := replies[run.calls - 1];
              (last.Str? || last.Dict?) && run.outcome.value == ContentOf(last) && !IsBlank(run.outcome.value)
  {
  }
}
