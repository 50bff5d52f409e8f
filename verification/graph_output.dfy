/** `custom_graph_invoke_output` in src/agent_graph/multiagent_supervisor.py:
    runs the graph on one question and renders the final transcript as the
    answering agent and its answer, or as a warning, or as the error text
    when the run raised.

    The checkpointer keeps one thread across calls, so the run starts from
    the thread's saved state with the question appended; `thread` is that
    saved state (empty on the first call). The only exception the run can
    raise in this model is LangGraph's step-limit error, whose text belongs
    to the library and is the parameter `limitError`.
 */
module GraphOutput {
  import opened Outcomes
  import opened Text
  import opened Llm
  import opened Supervisor

  /** `recursion_limit` in the run's configuration. */
  const RecursionLimit: nat := 20

  const UnknownAgent: string := "Unknown"

  /** The names an answer can be attributed to: a responder's own name,
      or "Unknown" for a reply that carries none. */
  predicate KnownAgent(name: string) {
    name == UnknownAgent || exists m :: MemberName(m) == name
  }

  /** The four kinds of text the function returns. */
  datatype Reply =
    | EchoWarning
    | EmptyWarning
    | Answered(agent: string, answer: string)
    | InvocationError(detail: string)

  /** The warning sign emoji, U+26A0 U+FE0F. */
  const WarningSign: string := "\U{26A0}\U{FE0F}"

  /** The cross mark emoji, U+274C. */
  const CrossMark: string := "\U{274C}"

  /** The returned text of each kind. */
  function Render(r: Reply): string {
    match r
    case EchoWarning =>
      WarningSign + " No meaningful response generated. The agent may have echoed the input."
    case EmptyWarning =>
      WarningSign + " No meaningful response returned by any agent.\n"
    case Answered(agent, answer) =>
      "Agent: " + agent + "\nAnswer: " + answer + "\n"
    case InvocationError(detail) =>
      CrossMark + " Error during graph invocation: " + detail
  }

  /** The state the run starts from. */
  function InitialState(question: string, thread: State): State {
    State(thread.messages + [Message(Human, question, None)], thread.next)
  }

  /** `graph.invoke(inputs, config)`: entry at the supervisor. */
  function Invoke(question: string, thread: State, modelName: string, oracles: Oracles): RunResult {
    Run(RecursionLimit, SupervisorNode, InitialState(question, thread), modelName, oracles)
  }

  /** The message's `name`, or "Unknown" when it is missing or empty. */
  function AgentLabel(name: Option<string>): string {
    if name.Some? && name.value != "" then name.value else UnknownAgent
  }

  /** The formatting of the final transcript. The echo test compares the
      stripped content with the question as given, not stripped. */
  function FormatMessages(question: string, messages: seq<Message>): Reply {
    if |messages| == 0 then EmptyWarning
    else
      var last := messages[|messages| - 1];
      var content := Strip(last.content);
      if content == [] || Lower(content) == Lower(question) then EchoWarning
      else Answered(AgentLabel(last.name), content)
  }

  /** The reply for the outcome of a run: the step-limit error is caught
      and reported. */
  function ReplyOf(question: string, r: RunResult, limitError: string): Reply {
    match r
    case Completed(s, _) => FormatMessages(question, s.messages)
    case LimitExceeded(_) => InvocationError(limitError)
  }

  function GraphReply(question: string, thread: State, modelName: string, oracles: Oracles, limitError: string): Reply {
    ReplyOf(question, Invoke(question, thread, modelName, oracles), limitError)
  }

  /** `custom_graph_invoke_output(question, model_name)`. */
  function CustomGraphInvokeOutput(question: string, thread: State, modelName: string,
                                   oracles: Oracles, limitError: string): string {
    Render(GraphReply(question, thread, modelName, oracles, limitError))
  }

  /** The formatter's cases, each an if-and-only-if. */
  lemma FormatMessagesCases(question: string, messages: seq<Message>)
    ensures FormatMessages(question, messages) == EmptyWarning <==> |messages| == 0
    ensures |messages| > 0 ==>
      var content := Strip(messages[|messages| - 1].content);
      && (FormatMessages(question, messages) == EchoWarning <==>
            content == [] || Lower(content) == Lower(question))
      && (FormatMessages(question, messages).Answered? <==>
            content != [] && Lower(content) != Lower(question))
    ensures FormatMessages(question, messages).Answered? ==>
      var last := messages[|messages| - 1];
      FormatMessages(question, messages) == Answered(AgentLabel(last.name), Strip(last.content))
  {
  }

  /** The formatting of a transcript that extends `init`, which ends with
      the question, by one attributed reply per responder in `rs`. */
  lemma FormatAppended(question: string, init: seq<Message>, ms: seq<Message>, rs: seq<Member>)
    requires |init| > 0 && init[|init| - 1] == Message(Human, question, None)
    requires AppendsReplies(init, ms, rs)
    ensures var g := FormatMessages(question, ms);
      && g != EmptyWarning
      && (|rs| == 0 && g.Answered? ==> g == Answered(UnknownAgent, Strip(question)))
      && (|rs| > 0 && g.Answered? ==> g.agent == MemberName(rs[|rs| - 1]))
  {
    var n := |init|;
    if |rs| == 0 {
      assert ms == ms[..n];
    } else {
      assert ms[|ms| - 1] == ms[n + (|rs| - 1)];
      assert AgentLabel(ms[|ms| - 1].name) == MemberName(rs[|rs| - 1]);
    }
  }

  /** Which agent an answer names: "Unknown" only when no responder ran,
      and then the text shown is the stripped question; otherwise the last
      responder that ran. Stated for any run from a state whose transcript
      ends with the question. */
  lemma AnsweringAgent(question: string, init: State, fuel: nat, modelName: string,
                       oracles: Oracles, limitError: string)
    requires |init.messages| > 0 && init.messages[|init.messages| - 1] == Message(Human, question, None)
    requires Run(fuel, SupervisorNode, init, modelName, oracles).Completed?
    ensures var r := Run(fuel, SupervisorNode, init, modelName, oracles);
      var g := ReplyOf(question, r, limitError);
      var rs := Responders(r.trace);
      && g != EmptyWarning
      && (|rs| == 0 && g.Answered? ==> g == Answered(UnknownAgent, Strip(question)))
      && (|rs| > 0 && g.Answered? ==> g.agent == MemberName(rs[|rs| - 1]))
      && (g.Answered? ==> KnownAgent(g.agent))
  {
    var r := Run(fuel, SupervisorNode, init, modelName, oracles);
    RunAppendsReplies(fuel, SupervisorNode, init, modelName, oracles);
    FormatAppended(question, init.messages, r.state.messages, Responders(r.trace));
  }

  /** Every call returns one of the warnings, the invocation error, or an
      answer that is stripped, non-empty, not the question again, and
      attributed to a responder or to "Unknown"; the empty-transcript
      warning never occurs, because the question itself is in the
      transcript. */
  lemma ReplyShape(question: string, thread: State, modelName: string,
                   oracles: Oracles, limitError: string)
    ensures var g := GraphReply(question, thread, modelName, oracles, limitError);
      && g != EmptyWarning
      && (g.Answered? ==>
            g.answer != [] && IsStripped(g.answer) && Lower(g.answer) != Lower(question)
            && KnownAgent(g.agent))
  {
    var init := InitialState(question, thread);
    var r := Invoke(question, thread, modelName, oracles);
    if r.Completed? {
      assert GraphReply(question, thread, modelName, oracles, limitError)
        == FormatMessages(question, r.state.messages);
      AnswerIsNew(question, r.state.messages);
      assert init.messages[|init.messages| - 1] == Message(Human, question, None);
      AnsweringAgent(question, init, RecursionLimit, modelName, oracles, limitError);
    }
  }

  /** An answer is never empty, never padded, and never the question again
      up to letter case. */
  lemma AnswerIsNew(question: string, messages: seq<Message>)
    ensures var g := FormatMessages(question, messages);
      g.Answered? ==> g.answer != [] && IsStripped(g.answer) && Lower(g.answer) != Lower(question)
  {
  }

  /** A transcript that ends with the question itself. */
  lemma EchoOfOwnQuestion(question: string, ms: seq<Message>)
    requires |ms| > 0 && ms[|ms| - 1] == Message(Human, question, None)
    ensures IsStripped(question) ==> FormatMessages(question, ms) == EchoWarning
    ensures !IsStripped(question) && !AllSpace(question) ==>
      FormatMessages(question, ms) == Answered(UnknownAgent, Strip(question))
  {
    assert ms[|ms| - 1].content == question;
    if IsStripped(question) {
      assert Strip(question) == question by {
        StripFixesExactlyStripped(question);
      }
    } else {
      assert |Strip(question)| < |question| by {
        StripFixesExactlyStripped(question);
      }
      assert Lower(Strip(question)) != Lower(question) by {
        assert |Lower(Strip(question))| < |Lower(question)|;
      }
    }
  }

  /** When the first decision call fails (an unsupported model name, say),
      the transcript ends with the question, so a question without
      surrounding whitespace is reported as echoed. */
  lemma FailedFirstDecisionEchoes(question: string, thread: State, modelName: string,
                                  oracles: Oracles, limitError: string)
    requires Decide(InitialState(question, thread), modelName, oracles).Raised?
    requires IsStripped(question)
    ensures GraphReply(question, thread, modelName, oracles, limitError) == EchoWarning
  {
    var s0 := InitialState(question, thread);
    SupervisorEndsRun(RecursionLimit, s0, modelName, oracles);
    assert GraphReply(question, thread, modelName, oracles, limitError) == FormatMessages(question, s0.messages);
    EchoOfOwnQuestion(question, s0.messages);
  }

  /** The same failure with surrounding whitespace in the question: the
      stripped question no longer equals the question, so it is shown as
      the answer of an unknown agent. */
  lemma FailedFirstDecisionPaddedQuestion(question: string, thread: State, modelName: string,
                                          oracles: Oracles, limitError: string)
    requires Decide(InitialState(question, thread), modelName, oracles).Raised?
    requires !IsStripped(question) && !AllSpace(question)
    ensures GraphReply(question, thread, modelName, oracles, limitError)
      == Answered(UnknownAgent, Strip(question))
  {
    var s0 := InitialState(question, thread);
    SupervisorEndsRun(RecursionLimit, s0, modelName, oracles);
    assert GraphReply(question, thread, modelName, oracles, limitError) == FormatMessages(question, s0.messages);
    EchoOfOwnQuestion(question, s0.messages);
  }

  /** An unsupported model name makes the supervisor fail at once. */
  lemma UnsupportedModelEchoes(question: string, thread: State, modelName: string,
                               oracles: Oracles, limitError: string)
    requires GetLlm(modelName).Raised? && IsStripped(question)
    ensures CustomGraphInvokeOutput(question, thread, modelName, oracles, limitError)
      == WarningSign + " No meaningful response generated. The agent may have echoed the input."
  {
    FailedFirstDecisionEchoes(question, thread, modelName, oracles, limitError);
  }

  /** Exhausting the step budget is reported as an invocation error, and
      nothing else is. */
  lemma LimitIsInvocationError(question: string, thread: State, modelName: string,
                               oracles: Oracles, limitError: string)
    ensures Invoke(question, thread, modelName, oracles).LimitExceeded? <==>
      GraphReply(question, thread, modelName, oracles, limitError).InvocationError?
    ensures Invoke(question, thread, modelName, oracles).LimitExceeded? ==>
      CustomGraphInvokeOutput(question, thread, modelName, oracles, limitError)
        == CrossMark + " Error during graph invocation: " + limitError
  {
  }

  /** A supervisor that keeps naming the same responder never finishes: the
      call returns the invocation error. */
  lemma EndlessRoutingIsError(question: string, thread: State, modelName: string,
                              oracles: Oracles, limitError: string, m: Member)
    requires GetLlm(modelName).Ok?
    requires forall msgs :: oracles.decide(msgs) == Ok(Route(m))
    ensures GraphReply(question, thread, modelName, oracles, limitError) == InvocationError(limitError)
  {
    RepeatedRouting(RecursionLimit, SupervisorNode, InitialState(question, thread), modelName, oracles, m);
  }

  /** The usual successful run: the supervisor routes to `m`, `m` answers,
      the supervisor finishes; the call names `m` and shows the stripped
      answer. */
  lemma OneResponderThenFinish(question: string, thread: State, modelName: string,
                               oracles: Oracles, limitError: string, m: Member, content: string)
    requires GetLlm(modelName).Ok?
    requires var ms := InitialState(question, thread).messages;
      && oracles.decide(ms) == Ok(Route(m))
      && oracles.respond(m, ms) == Ok(content)
      && oracles.decide(ms + [Message(Ai, content, Some(MemberName(m)))]) == Ok(Finish)
    requires Strip(content) != [] && Lower(Strip(content)) != Lower(question)
    ensures GraphReply(question, thread, modelName, oracles, limitError)
      == Answered(MemberName(m), Strip(content))
  {
    var s0 := InitialState(question, thread);
    var reply := Message(Ai, content, Some(MemberName(m)));
    RouteReplyFinish(RecursionLimit, s0, modelName, oracles, m, content);
    assert ReplyOf(question, Invoke(question, thread, modelName, oracles), limitError)
      == FormatMessages(question, s0.messages + [reply]);
  }
}
