/** The supervisor routing graph of src/agent_graph/multiagent_supervisor.py.

    Six nodes: the supervisor, four responders (RAG, SQL, websearch, chat)
    and END. Every node returns a command naming the next node and the
    update to apply to the shared state: responders append exactly one
    message attributed to themselves and hand back to the supervisor; the
    supervisor appends nothing, records its choice in `next` and moves to
    that responder or to END.

    The language models are oracles. The supervisor's structured-output call
    and each responder's inner agent are functions of the transcript they
    are given (the system prompts are fixed, so they are not parameters).
    LangGraph's step limit is modelled as fuel: a run that needs more node
    executions than the fuel allows ends in `LimitExceeded`.
 */
module Supervisor {
  import opened Outcomes
  import opened Llm

  /** The four responders, in the order of the `members` list. */
  datatype Member = Rag | Sql | WebSearch | Chat

  /** The node name of a responder, which is also the `name` of the
      messages it appends. */
  function MemberName(m: Member): string {
    match m
    case Rag => "RAG"
    case Sql => "SQL"
    case WebSearch => "websearch"
    case Chat => "chat"
  }

  /** The prefix a responder puts before the text of an exception. */
  function ErrorPrefix(m: Member): string {
    match m
    case Rag => "RAG agent error: "
    case Sql => "SQL agent error: "
    case WebSearch => "Websearch agent error: "
    case Chat => "Chat agent error: "
  }

  /** The supervisor's structured output: one of the members or FINISH. */
  datatype Decision = Route(member: Member) | Finish

  datatype Node = SupervisorNode | ResponderNode(member: Member) | EndNode

  datatype Role = Human | Ai

  /** A chat message; `name` is absent on the user's messages. */
  datatype Message = Message(role: Role, content: string, name: Option<string>)

  /** The graph state: the transcript and the last routing target recorded
      by the supervisor (absent until the supervisor first records one). */
  datatype State = State(messages: seq<Message>, next: Option<Node>)

  /** What a node returns: where to go, the messages to append, and the new
      value of `next` when the node sets it. */
  datatype Command = Command(goto: Node, appended: seq<Message>, setNext: Option<Node>)

  /** The language-model calls the graph depends on. */
  datatype Oracles = Oracles(
    /** `llm.with_structured_output(Router).invoke(...)` on the transcript. */
    decide: seq<Message> -> Outcome<Decision>,
    /** The inner agent of a responder: the content of the last message of
        its result, given the transcript. */
    respond: (Member, seq<Message>) -> Outcome<string>)

  /** The state reducer: messages are appended, `next` is overwritten only
      when the command sets it. */
  function Apply(s: State, c: Command): State {
    State(s.messages + c.appended, if c.setNext.Some? then c.setNext else s.next)
  }

  /** The part of a responder's `try` block that may raise: building the
      client for the model name, then running the inner agent. */
  function AgentResult(m: Member, s: State, modelName: string, oracles: Oracles): Outcome<string> {
    var _ :- GetLlm(modelName);
    oracles.respond(m, s.messages)
  }

  /** A message attributed to responder `m`. */
  predicate Attributed(msg: Message, m: Member) {
    msg.role == Ai && msg.name == Some(MemberName(m))
  }

  /** `rag_node`, `sql_node`, `search_node` and `chat_node`: one message
      named after the responder, whether its agent answers or raises, and
      back to the supervisor. */
  function ResponderStep(m: Member, s: State, modelName: string, oracles: Oracles): (c: Command)
    ensures c.goto == SupervisorNode && c.setNext == None
    ensures |c.appended| == 1 && Attributed(c.appended[0], m)
    ensures AgentResult(m, s, modelName, oracles).Ok? ==>
      c.appended[0].content == AgentResult(m, s, modelName, oracles).value
    ensures AgentResult(m, s, modelName, oracles).Raised? ==>
      c.appended[0].content == ErrorPrefix(m) + AgentResult(m, s, modelName, oracles).error
  {
    var content := match AgentResult(m, s, modelName, oracles)
      case Ok(text) => text
      case Raised(e) => ErrorPrefix(m) + e;
    Command(SupervisorNode, [Message(Ai, content, Some(MemberName(m)))], None)
  }

  /** The part of the supervisor's `try` block that may raise. */
  function Decide(s: State, modelName: string, oracles: Oracles): Outcome<Decision> {
    var _ :- GetLlm(modelName);
    oracles.decide(s.messages)
  }

  /** The node a decision names: FINISH is END, a member is its node. */
  function Target(d: Decision): (n: Node)
    ensures n != SupervisorNode
    ensures n == EndNode <==> d == Finish
  {
    match d
    case Finish => EndNode
    case Route(m) => ResponderNode(m)
  }

  /** `supervisor_node`: obeys the decision without consulting the history
      and records it in `next`; a failed decision call ends the run without
      any update. */
  function SupervisorStep(s: State, modelName: string, oracles: Oracles): (c: Command)
    ensures c.appended == [] && c.goto != SupervisorNode
    ensures Decide(s, modelName, oracles).Ok? ==>
      c.goto == Target(Decide(s, modelName, oracles).value) && c.setNext == Some(c.goto)
    ensures Decide(s, modelName, oracles).Raised? ==> c.goto == EndNode && c.setNext == None
  {
    match Decide(s, modelName, oracles)
    case Ok(d) => Command(Target(d), [], Some(Target(d)))
    case Raised(_) => Command(EndNode, [], None)
  }

  function Step(node: Node, s: State, modelName: string, oracles: Oracles): Command
    requires node != EndNode
  {
    match node
    case SupervisorNode => SupervisorStep(s, modelName, oracles)
    case ResponderNode(m) => ResponderStep(m, s, modelName, oracles)
  }

  /** A run either reaches END with a final state, or exhausts the step
      budget; either way `trace` lists the nodes executed, in order. */
  datatype RunResult = Completed(state: State, trace: seq<Node>) | LimitExceeded(trace: seq<Node>)

  /** Executes nodes from `node` until END, at most `fuel` of them. */
  function Run(fuel: nat, node: Node, s: State, modelName: string, oracles: Oracles): (r: RunResult)
    ensures |r.trace| <= fuel
    ensures r.LimitExceeded? ==> |r.trace| == fuel
    decreases fuel
  {
    if node == EndNode then Completed(s, [])
    else if fuel == 0 then LimitExceeded([])
    else
      var c := Step(node, s, modelName, oracles);
      match Run(fuel - 1, c.goto, Apply(s, c), modelName, oracles)
      case Completed(s', t) => Completed(s', [node] + t)
      case LimitExceeded(t) => LimitExceeded([node] + t)
  }

  /** The responders in a trace, in order. */
  function Responders(t: seq<Node>): seq<Member>
    decreases |t|
  {
    if |t| == 0 then []
    else (if t[0].ResponderNode? then [t[0].member] else []) + Responders(t[1..])
  }

  /** `t` never holds END, and holds the supervisor exactly at the positions
      `i` with `i + p` even. */
  predicate Alternating(t: seq<Node>, p: int) {
    forall i :: 0 <= i < |t| ==>
      t[i] != EndNode && (t[i] == SupervisorNode <==> (i + p) % 2 == 0)
  }

  lemma ParityShift(i: int, p: int)
    requires p == 0 || p == 1
    ensures (i - 1 + (1 - p)) % 2 == (i + p) % 2
  {
  }

  /** A node in front of a trace of the opposite parity keeps the
      alternation. */
  lemma AlternatingCons(n: Node, t: seq<Node>, p: int)
    requires p == 0 || p == 1
    requires n != EndNode && (n == SupervisorNode <==> p == 0)
    requires Alternating(t, 1 - p)
    ensures Alternating([n] + t, p)
    ensures |t| > 0 ==> ([n] + t)[|[n] + t| - 1] == t[|t| - 1]
  {
    forall i | 0 <= i < |[n] + t|
      ensures ([n] + t)[i] != EndNode && (([n] + t)[i] == SupervisorNode <==> (i + p) % 2 == 0)
    {
      if i > 0 {
        assert ([n] + t)[i] == t[i - 1];
        ParityShift(i, p);
      }
    }
  }

  /** The shape of every run started at `node`: the supervisor and the
      responders alternate, starting with `node`, END is never executed, and
      a completed run ends with the supervisor. */
  predicate AlternatesFrom(node: Node, r: RunResult) {
    && Alternating(r.trace, if node == SupervisorNode then 0 else 1)
    && (r.Completed? ==> |r.trace| > 0 && r.trace[|r.trace| - 1] == SupervisorNode)
  }

  /** The supervisor and the responders strictly alternate and END is never
      executed; a completed run ends with the supervisor, the only node
      that can go to END, so it ran an odd number of nodes when it started
      at the supervisor. */
  lemma {:induction false} RunAlternates(fuel: nat, node: Node, s: State, modelName: string, oracles: Oracles)
    requires node != EndNode
    ensures AlternatesFrom(node, Run(fuel, node, s, modelName, oracles))
    decreases fuel
  {
    if fuel > 0 {
      var c := Step(node, s, modelName, oracles);
      if c.goto != EndNode {
        RunAlternates(fuel - 1, c.goto, Apply(s, c), modelName, oracles);
      }
      StepAlternates(fuel, node, s, modelName, oracles);
    }
  }

  /** The inductive step of `RunAlternates`. */
  lemma StepAlternates(fuel: nat, node: Node, s: State, modelName: string, oracles: Oracles)
    requires node != EndNode && fuel > 0
    requires var c := Step(node, s, modelName, oracles);
      c.goto != EndNode ==> AlternatesFrom(c.goto, Run(fuel - 1, c.goto, Apply(s, c), modelName, oracles))
    ensures AlternatesFrom(node, Run(fuel, node, s, modelName, oracles))
  {
    var c := Step(node, s, modelName, oracles);
    RunStep(fuel, node, s, modelName, oracles);
    AlternatingStep(node, c.goto, Run(fuel, node, s, modelName, oracles), Run(fuel - 1, c.goto, Apply(s, c), modelName, oracles));
  }

  /** The bookkeeping of `RunAlternates` for one executed node. */
  lemma AlternatingStep(node: Node, next: Node, r: RunResult, rest: RunResult)
    requires node != EndNode
    requires r.trace == [node] + rest.trace && r.Completed? == rest.Completed?
    requires next == SupervisorNode <==> node != SupervisorNode
    requires next == EndNode ==> node == SupervisorNode && rest.Completed? && rest.trace == []
    requires next != EndNode ==> AlternatesFrom(next, rest)
    ensures AlternatesFrom(node, r)
  {
    var p := if node == SupervisorNode then 0 else 1;
    AlternatingCons(node, rest.trace, p);
  }

  /** One step of a run: the executed node goes in front of the rest of
      the trace, a responder hands back to the supervisor, the supervisor
      hands over to a responder or to END, and going to END completes the
      run. */
  lemma RunStep(fuel: nat, node: Node, s: State, modelName: string, oracles: Oracles)
    requires node != EndNode && fuel > 0
    ensures var c := Step(node, s, modelName, oracles);
      var rest := Run(fuel - 1, c.goto, Apply(s, c), modelName, oracles);
      var r := Run(fuel, node, s, modelName, oracles);
      && r.trace == [node] + rest.trace
      && r.Completed? == rest.Completed?
      && (c.goto == SupervisorNode <==> node != SupervisorNode)
      && (c.goto == EndNode ==> node == SupervisorNode && rest.Completed? && rest.trace == [])
  {
  }

  lemma ResponderOfCons(n: Node, t: seq<Node>)
    ensures Responders([n] + t) == (if n.ResponderNode? then [n.member] else []) + Responders(t)
  {
    assert ([n] + t)[1..] == t;
  }

  /** One unfolding of `Run` at a node other than END. */
  lemma RunUnfold(fuel: nat, node: Node, s: State, modelName: string, oracles: Oracles)
    requires node != EndNode && Run(fuel, node, s, modelName, oracles).Completed?
    ensures var c := Step(node, s, modelName, oracles);
      var rest := Run(fuel - 1, c.goto, Apply(s, c), modelName, oracles);
      var r := Run(fuel, node, s, modelName, oracles);
      && fuel > 0 && rest.Completed?
      && r.state == rest.state && r.trace == [node] + rest.trace
  {
  }

  /** `after` is `before` followed by one message per responder in `rs`,
      each attributed to that responder, in order. */
  predicate AppendsReplies(before: seq<Message>, after: seq<Message>, rs: seq<Member>) {
    && |after| == |before| + |rs|
    && after[..|before|] == before
    && forall j :: 0 <= j < |rs| ==> Attributed(after[|before| + j], rs[j])
  }

  /** The bookkeeping of `RunAppendsReplies` for a responder step: one
      attributed message in front of the rest of the run's replies. */
  lemma ReplyInFront(prior: seq<Message>, msg: Message, m: Member, ms: seq<Message>, rs: seq<Member>)
    requires Attributed(msg, m) && AppendsReplies(prior + [msg], ms, rs)
    ensures AppendsReplies(prior, ms, [m] + rs)
  {
    var n := |prior|;
    assert ms[..n] == ms[..n + 1][..n];
    assert ms[n] == ms[..n + 1][n];
    forall j | 1 <= j < 1 + |rs|
      ensures Attributed(ms[n + j], ([m] + rs)[j])
    {
      assert ms[n + j] == ms[n + 1 + (j - 1)];
    }
  }

  /** A completed run only appends to the transcript, one message per
      responder executed, each attributed to that responder and in the order
      the responders ran. */
  lemma {:induction false} RunAppendsReplies(fuel: nat, node: Node, s: State, modelName: string, oracles: Oracles)
    requires Run(fuel, node, s, modelName, oracles).Completed?
    ensures var r := Run(fuel, node, s, modelName, oracles);
      AppendsReplies(s.messages, r.state.messages, Responders(r.trace))
    decreases fuel
  {
    if node != EndNode {
      var c := Step(node, s, modelName, oracles);
      var s1 := Apply(s, c);
      var rest := Run(fuel - 1, c.goto, s1, modelName, oracles);
      RunUnfold(fuel, node, s, modelName, oracles);
      RunAppendsReplies(fuel - 1, c.goto, s1, modelName, oracles);
      ResponderOfCons(node, rest.trace);
      if node.ResponderNode? {
        assert s1.messages == s.messages + [c.appended[0]];
        ReplyInFront(s.messages, c.appended[0], node.member, rest.state.messages, Responders(rest.trace));
      } else {
        assert s1.messages == s.messages by {
          assert c.appended == [];
        }
      }
    }
  }

  /** A failed decision call ends the run at once and leaves the state,
      `next` included, as it was; FINISH ends it too but records END. */
  lemma SupervisorEndsRun(fuel: nat, s: State, modelName: string, oracles: Oracles)
    requires fuel > 0
    ensures Decide(s, modelName, oracles).Raised? ==>
      Run(fuel, SupervisorNode, s, modelName, oracles) == Completed(s, [SupervisorNode])
    ensures Decide(s, modelName, oracles) == Ok(Finish) ==>
      Run(fuel, SupervisorNode, s, modelName, oracles)
        == Completed(State(s.messages, Some(EndNode)), [SupervisorNode])
  {
    var c := SupervisorStep(s, modelName, oracles);
    assert s.messages + [] == s.messages;
    assert Run(fuel - 1, c.goto, Apply(s, c), modelName, oracles).trace == [] ==>
      Run(fuel, SupervisorNode, s, modelName, oracles).trace == [SupervisorNode];
  }

  /** One round: the supervisor routes to `m`, `m` appends its reply and
      control is back at the supervisor, two steps later. */
  lemma OneRound(fuel: nat, s: State, modelName: string, oracles: Oracles, m: Member)
    requires fuel >= 2 && Decide(s, modelName, oracles) == Ok(Route(m))
    ensures var s1 := State(s.messages, Some(ResponderNode(m)));
      var s2 := State(s.messages + ResponderStep(m, s1, modelName, oracles).appended, Some(ResponderNode(m)));
      var rest := Run(fuel - 2, SupervisorNode, s2, modelName, oracles);
      && (rest.Completed? ==>
            Run(fuel, SupervisorNode, s, modelName, oracles)
              == Completed(rest.state, [SupervisorNode, ResponderNode(m)] + rest.trace))
      && (rest.LimitExceeded? ==>
            Run(fuel, SupervisorNode, s, modelName, oracles)
              == LimitExceeded([SupervisorNode, ResponderNode(m)] + rest.trace))
  {
    var c := SupervisorStep(s, modelName, oracles);
    var s1 := State(s.messages, Some(ResponderNode(m)));
    assert Apply(s, c) == s1 by {
      assert s.messages + [] == s.messages;
    }
    var rest := Run(fuel - 2, SupervisorNode, State(s.messages + ResponderStep(m, s1, modelName, oracles).appended, Some(ResponderNode(m))), modelName, oracles);
    assert [SupervisorNode] + ([ResponderNode(m)] + rest.trace) == [SupervisorNode, ResponderNode(m)] + rest.trace;
  }

  /** The shortest run with an answer: route to `m`, `m` replies, FINISH. */
  lemma RouteReplyFinish(fuel: nat, s: State, modelName: string, oracles: Oracles, m: Member, content: string)
    requires fuel >= 3 && GetLlm(modelName).Ok?
    requires oracles.decide(s.messages) == Ok(Route(m))
    requires oracles.respond(m, s.messages) == Ok(content)
    requires oracles.decide(s.messages + [Message(Ai, content, Some(MemberName(m)))]) == Ok(Finish)
    ensures Run(fuel, SupervisorNode, s, modelName, oracles) == Completed(
      State(s.messages + [Message(Ai, content, Some(MemberName(m)))], Some(EndNode)),
      [SupervisorNode, ResponderNode(m), SupervisorNode])
  {
    var reply := Message(Ai, content, Some(MemberName(m)));
    var s1 := State(s.messages, Some(ResponderNode(m)));
    var s2 := State(s.messages + [reply], Some(ResponderNode(m)));
    OneRound(fuel, s, modelName, oracles, m);
    assert ResponderStep(m, s1, modelName, oracles).appended == [reply];
    assert Decide(s2, modelName, oracles) == Ok(Finish);
    SupervisorEndsRun(fuel - 2, s2, modelName, oracles);
  }

  /** `t` alternates between the supervisor, at the positions `i` with
      `i + p` even, and responder `m`. */
  predicate Bounces(t: seq<Node>, m: Member, p: int) {
    forall i :: 0 <= i < |t| ==>
      t[i] == (if (i + p) % 2 == 0 then SupervisorNode else ResponderNode(m))
  }

  /** The node in front of a bouncing trace of the opposite parity. */
  lemma BouncesCons(n: Node, t: seq<Node>, m: Member, p: int)
    requires p == 0 || p == 1
    requires n == (if p == 0 then SupervisorNode else ResponderNode(m))
    requires Bounces(t, m, 1 - p)
    ensures Bounces([n] + t, m, p)
  {
    forall i | 0 <= i < |[n] + t|
      ensures ([n] + t)[i] == (if (i + p) % 2 == 0 then SupervisorNode else ResponderNode(m))
    {
      if i > 0 {
        assert ([n] + t)[i] == t[i - 1];
        ParityShift(i, p);
      }
    }
  }

  /** Nothing in the graph stops the supervisor from choosing the same
      responder again: a decision oracle that always names `m` makes the
      run alternate between the supervisor and `m` until the step budget is
      exhausted. */
  lemma {:induction false} RepeatedRouting(fuel: nat, node: Node, s: State, modelName: string, oracles: Oracles, m: Member)
    requires GetLlm(modelName).Ok?
    requires forall msgs :: oracles.decide(msgs) == Ok(Route(m))
    requires node == SupervisorNode || node == ResponderNode(m)
    ensures var r := Run(fuel, node, s, modelName, oracles);
      var p := if node == SupervisorNode then 0 else 1;
      && r.LimitExceeded? && |r.trace| == fuel
      && Bounces(r.trace, m, p)
    decreases fuel
  {
    if fuel > 0 {
      var p := if node == SupervisorNode then 0 else 1;
      var c := Step(node, s, modelName, oracles);
      var s1 := Apply(s, c);
      if node == SupervisorNode {
        assert Decide(s, modelName, oracles) == Ok(Route(m));
      }
      assert c.goto == (if p == 0 then ResponderNode(m) else SupervisorNode);
      RepeatedRouting(fuel - 1, c.goto, s1, modelName, oracles, m);
      var t := Run(fuel - 1, c.goto, s1, modelName, oracles).trace;
      RunStep(fuel, node, s, modelName, oracles);
      BouncesCons(node, t, m, p);
    }
  }
}
