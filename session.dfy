/**
  The conversation state of the application's page.  The session holds the
  conversation context (the prompts of the finished runs, the results of
  the last one, whether a conversation is going on) and the results on
  display.  A submitted prompt is checked, classified as a follow-up or a
  new prompt, and run; a finished run is recorded in the context; "Clear
  Results" forgets everything.
 */
module Session {
  import opened Outcomes
  import opened Text
  import opened Invoker
  import opened Records
  import opened FollowUp

  /** `{"previous_prompts": [], "previous_results": None, "is_active": False}` */
  const Fresh: Context := Context(false, [], None)

  /** The contexts the page can be in: fresh, or active with at least one prompt and the last run's results. */
  predicate Coherent(c: Context) {
    c == Fresh || (c.active && c.prompts != [] && c.results.Some?)
  }

  /**
    Classifying a prompt: with an active conversation the follow-up
    detector decides, and a new prompt resets the context; without one the
    prompt is new and the context stays as it is.
   */
  function Classified(c: Context, input: string, reply: Reply): (r: (bool, Context))
    ensures r.0 ==> c.active && c.prompts != [] && r.1 == c
    ensures !r.0 && c.active ==> r.1 == Fresh
    ensures !c.active ==> r == (false, c)
    ensures c.active ==> r.0 == DetectFollowUp(input, c, reply)
  {
    if c.active then
      var followUp := DetectFollowUp(input, c, reply);
      if followUp then (true, c) else (false, Fresh)
    else (false, c)
  }

  /** Recording a finished run: its prompt is appended, its results kept, and the conversation is active. */
  function Recorded(c: Context, input: string, results: RunResults): (r: Context)
    ensures r.active && r.results == Some(results)
    ensures r.prompts == c.prompts + [input]
  {
    Context(true, c.prompts + [input], Some(results))
  }

  /** Classifying and recording keep the context coherent. */
  lemma CoherentKept(c: Context, input: string, reply: Reply, results: RunResults)
    requires Coherent(c)
    ensures Coherent(Classified(c, input, reply).1)
    ensures Coherent(Recorded(c, input, results))
  {
  }

  /** Without a conversation going on nothing is a follow-up, whatever the detector would answer. */
  lemma FreshNeverFollowsUp(input: string, reply: Reply)
    ensures Classified(Fresh, input, reply) == (false, Fresh)
  {
  }

  /**
    After a run, the context's prompts are the earlier ones followed by the
    new prompt when it was a follow-up, and the new prompt alone when it was
    not.
   */
  lemma PromptHistory(c: Context, input: string, reply: Reply, results: RunResults)
    requires Coherent(c)
    ensures var (followUp, d) := Classified(c, input, reply);
            Recorded(d, input, results).prompts == (if followUp then c.prompts + [input] else [input])
  {
  }

  /** What a submitted prompt leads to. */
  datatype Submission =
    | Blank                                          // "Please enter your requirements"
    | TooShort                                       // "Requirements are too short"
    | Started(followUp: bool, context: Option<Context>) // the pipeline runs, with the context when a follow-up

  class Page {
    var prompts: seq<string>
    var previousResults: Option<RunResults>
    var active: bool
    /** `st.session_state.results`: the results on display. */
    var results: Option<RunResults>

    function Snapshot(): Context
      reads this
    {
      Context(active, prompts, previousResults)
    }

    predicate Valid()
      reads this
    {
      Coherent(Snapshot())
    }

    /** The session's first visit: no results and a fresh context. */
    constructor ()
      ensures Valid() && Snapshot() == Fresh && results == None
    {
      prompts, previousResults, active := [], None, false;
      results := None;
    }

    /** "Clear Results": no results on display and a fresh context. */
    method ClearResults()
      modifies this
      ensures Valid() && Snapshot() == Fresh && results == None
    {
      results := None;
      prompts, previousResults, active := [], None, false;
    }

    /**
      A submitted prompt: a blank one or one shorter than 10 characters
      once stripped is refused and changes nothing.  Otherwise it is
      classified; a new prompt clears the results on display, and a
      follow-up is run with the context as it stands.
     */
    method Submit(input: string, reply: Reply) returns (s: Submission)
      requires Valid()
      modifies this
      ensures Valid()
      ensures IsBlank(input) ==> s == Blank && unchanged(this)
      ensures !IsBlank(input) && |Strip(input)| < 10 ==> s == TooShort && unchanged(this)
      ensures !IsBlank(input) && |Strip(input)| >= 10 ==>
                var (followUp, c) := Classified(old(Snapshot()), input, reply);
                && s == Started(followUp, if followUp then Some(old(Snapshot())) else None)
                && Snapshot() == c
                && results == (if followUp then old(results) else None)
    {
      if IsBlank(input) {
        return Blank;
      }
      if |Strip(input)| < 10 {
        return TooShort;
      }
      var followUp := false;
      var context: Option<Context> := None;
      if active {
        followUp := DetectFollowUp(input, Snapshot(), reply);
        if followUp {
          context := Some(Snapshot());
        } else {
          prompts, previousResults, active := [], None, false;
        }
      }
      if !followUp {
        results := None;
      }
      s := Started(followUp, context);
    }

    /**
      The end of a run: when the pipeline returns, its results are shown
      and recorded in the context; when it raises, nothing changes.
     */
    method Finish(input: string, outcome: Option<RunResults>)
      requires Valid()
      modifies this
      ensures Valid()
      ensures outcome.Some? ==> Snapshot() == Recorded(old(Snapshot()), input, outcome.value) && results == outcome
      ensures outcome.None? ==> unchanged(this)
    {
      if outcome.Some? {
        results := outcome;
        prompts := prompts + [input];
        previousResults := outcome;
        active := true;
      }
    }
  }
}
