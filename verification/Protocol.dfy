/** The vocabulary of the command protocol, and what one controller does with
    one command, as functions of its state and of what its surroundings answer.
    The classes of `StatefulNodes` and `Controllers` are proved to compute these
    functions; the tree of `Trees` is built from them. */
module Protocol {
  import opened Exceptions
  import opened Fsm
  import opened SubStates
  import opened Wrappers

  datatype Token = Token(token: string, userName: string)

  const NoToken := Token("", "")

  datatype ResponseFlag =
    | ExecutedSuccessfully
    | Failed
    | NotExecutedNotInControl
    | NotExecutedNotImplemented
    | DruncExceptionThrown
    | UnhandledExceptionThrown

  datatype FsmFlag = FsmExecuted | FsmFailed | FsmInvalidTransition | FsmNotExecutedInError | FsmNotExecutedExcluded

  /** A response; `fsm` is the FSM flag packed in its data, if that is what the data is. */
  datatype Response = Response(flag: ResponseFlag, fsm: Option<FsmFlag>, children: seq<Response>)

  /** A command as it travels down the tree. */
  datatype Request = FsmRequest(name: string, data: string) | Include | Exclude | TakeControl | SurrenderControl

  function ExceptionFlag(e: Exn): ResponseFlag {
    match e
    case Drunc => DruncExceptionThrown
    case Unhandled => UnhandledExceptionThrown
  }

  function Thrown(e: Exn): Response {
    Response(ExceptionFlag(e), None, [])
  }

  /** `broadcasted`: an exception becomes a response flag. Broadcasting itself
      is taken to return. */
  function Broadcasted(outcome: Result<Response, Exn>): Response {
    match outcome
    case Ok(r) => r
    case Err(e) => Thrown(e)
  }

  const NotInControl := Response(NotExecutedNotInControl, None, [])

  function FsmAnswer(flag: FsmFlag, children: seq<Response>): Response {
    Response(ExecutedSuccessfully, Some(flag), children)
  }

  /** The command was executed and the transition made. */
  predicate Succeeded(r: Response) {
    r.flag == ExecutedSuccessfully && r.fsm == Some(FsmExecuted)
  }

  /** A response whose data cannot be read as an FSM response although its flag says all went well. */
  predicate Unreadable(r: Response) {
    r.flag == ExecutedSuccessfully && r.fsm == None
  }

  datatype Verdict = Clean | Faulty | Undecodable

  function Judge(rs: seq<Response>): Verdict {
    if exists r :: r in rs && Unreadable(r) then Undecodable
    else if forall r :: r in rs ==> Succeeded(r) then Clean
    else Faulty
  }

  /** The verdict does not depend on the order in which responses arrive. */
  lemma JudgeIsOrderFree(rs: seq<Response>, rs': seq<Response>)
    requires multiset(rs) == multiset(rs')
    ensures Judge(rs) == Judge(rs')
  {
    forall r ensures r in rs <==> r in rs' {
      assert r in rs <==> r in multiset(rs);
      assert r in rs' <==> r in multiset(rs');
    }
  }

  // ---- the state of one node --------------------------------------------

  datatype NodeState = NodeState(op: string, sub: string, included: bool, inError: bool)

  predicate IsIdle(st: NodeState) {
    st.op == st.sub
  }

  /** In error, or stuck in the middle of a transition. */
  predicate IsDown(st: NodeState) {
    st.inError || st.op != st.sub
  }

  function Destination(op: string, t: Transition): string {
    if t.destination == "" then op else t.destination
  }

  predicate CanTransition(fsm: Fsm, st: NodeState, t: Transition) {
    IsIdle(st) && fsm.CanExecute(st.op, t)
  }

  function IncludeNode(st: NodeState): Result<NodeState, Exn> {
    if st.included then Err(Drunc) else Ok(st.(included := true))
  }

  function ExcludeNode(st: NodeState): Result<NodeState, Exn> {
    if st.included then Ok(st.(included := false)) else Err(Drunc)
  }

  // ---- one FSM command on one controller ----------------------------------

  /** How far a command gets before the children are involved. */
  datatype Start =
    | Declined(why: FsmFlag)
    | Broke(after: NodeState, exn: Exn)
    | Launched(after: NodeState, transition: Transition, data: string)

  /** `argsOk`: whether the arguments decode; `pre`: what the callbacks before the transition give. */
  function Begin(fsm: Fsm, st: NodeState, name: string, argsOk: bool, pre: Result<string, Exn>): Start {
    if st.inError then Declined(FsmNotExecutedInError)
    else if !st.included then Declined(FsmNotExecutedExcluded)
    else match fsm.GetTransition(name)
      case None => Broke(st, Unhandled)
      case Some(t) =>
        if !CanTransition(fsm, st, t) then Declined(FsmInvalidTransition)
        else if !argsOk then Broke(st, Drunc)
        else match pre
          case Err(e) => Broke(st.(sub := Text(Preparing, t.name)), e)
          case Ok(data) => Launched(st.(sub := Text(Propagating, t.name)), t, data)
  }

  /** From the children's verdict to the end; `st` is as `Begin` launched it. */
  function Finish(st: NodeState, t: Transition, verdict: Verdict, post: Result<string, Exn>): (NodeState, Option<Exn>) {
    var dest := Destination(st.op, t);
    if verdict == Undecodable then (st, Some(Drunc))
    else match post
      case Err(e) => (st.(op := dest, sub := Text(Finalising, t.name)), Some(e))
      case Ok(_) => (st.(op := dest, sub := dest, inError := verdict == Faulty || st.inError), None)
  }

  datatype Executed<Cmd> = Executed(after: NodeState, response: Response, sent: Option<Cmd>)

  /** The whole command: `replies` are the children's answers to what they are sent. */
  function Execute<Cmd>(fsm: Fsm, st: NodeState, inControl: bool, name: string, argsOk: bool,
                        pre: Result<string, Exn>, post: Result<string, Exn>,
                        relay: string -> Cmd, replies: Cmd -> seq<Response>): Executed<Cmd>
  {
    if !inControl then Executed(st, NotInControl, None)
    else match Begin(fsm, st, name, argsOk, pre)
      case Declined(why) => Executed(st, FsmAnswer(why, []), None)
      case Broke(after, e) => Executed(after, Thrown(e), None)
      case Launched(after, t, data) =>
        var rs := replies(relay(data));
        var (end, e) := Finish(after, t, Judge(rs), post);
        Executed(end, match e case None => FsmAnswer(FsmExecuted, rs) case Some(x) => Thrown(x), Some(relay(data)))
  }

  // ---- taking control ------------------------------------------------------

  predicate TookControl(r: Response) {
    r.flag == ExecutedSuccessfully || r.flag == NotExecutedNotImplemented
  }

  function ControlAnswer(responses: seq<Response>): Response {
    Response(if exists r :: r in responses && !TookControl(r) then Failed else ExecutedSuccessfully, None, responses)
  }

  // ---- the other commands --------------------------------------------------

  /** Including a node: its new state and its answer; `rs` are the children's. */
  function Included(st: NodeState, inControl: bool, rs: seq<Response>): (NodeState, Response) {
    if !inControl then (st, NotInControl)
    else match IncludeNode(st)
      case Ok(after) => (after, Response(ExecutedSuccessfully, None, rs))
      case Err(e) => (st, Thrown(e))
  }

  function Excluded(st: NodeState, inControl: bool, rs: seq<Response>): (NodeState, Response) {
    if !inControl then (st, NotInControl)
    else match ExcludeNode(st)
      case Ok(after) => (after, Response(ExecutedSuccessfully, None, rs))
      case Err(e) => (st, Thrown(e))
  }

  /** Surrendering control: the token held afterwards, and the answer. */
  function Surrendered(actor: Token, tok: Token): (Token, Response) {
    if tok != actor then (actor, NotInControl) else (NoToken, Response(Failed, None, []))
  }

  // ---- what these functions promise ---------------------------------------

  /** When the command is passed on: exactly when whoever sends it is in control,
      the node is included, idle and not in error, the name is that of a
      transition accepting its state, the arguments decode and the callbacks
      before it return; and it is passed on with the data they returned. */
  lemma SentIff<Cmd>(fsm: Fsm, st: NodeState, inControl: bool, name: string, argsOk: bool,
                     pre: Result<string, Exn>, post: Result<string, Exn>, relay: string -> Cmd, replies: Cmd -> seq<Response>)
    ensures var x, found := Execute(fsm, st, inControl, name, argsOk, pre, post, relay, replies), fsm.GetTransition(name);
            && (x.sent.Some? <==>
                  && inControl && !st.inError && st.included && st.op == st.sub
                  && found.Some? && fsm.accepts(found.value.source, st.op) && argsOk && pre.Ok?)
            && (x.sent.Some? ==> x.sent.value == relay(pre.value))
  {
  }

  /** What becomes of a command that is not passed on: the first guard that
      fails settles the answer, and nothing changes but for the mark left when
      the callbacks before the transition raise. */
  lemma NotSentMeans<Cmd>(fsm: Fsm, st: NodeState, inControl: bool, name: string, argsOk: bool,
                          pre: Result<string, Exn>, post: Result<string, Exn>, relay: string -> Cmd, replies: Cmd -> seq<Response>)
    requires Execute(fsm, st, inControl, name, argsOk, pre, post, relay, replies).sent == None
    ensures var x, found := Execute(fsm, st, inControl, name, argsOk, pre, post, relay, replies), fsm.GetTransition(name);
            if !inControl then x.after == st && x.response == Response(NotExecutedNotInControl, None, [])
            else if st.inError then x.after == st && x.response == Response(ExecutedSuccessfully, Some(FsmNotExecutedInError), [])
            else if !st.included then x.after == st && x.response == Response(ExecutedSuccessfully, Some(FsmNotExecutedExcluded), [])
            else if found == None then x.after == st && x.response == Response(UnhandledExceptionThrown, None, [])
            else if st.op != st.sub || !fsm.accepts(found.value.source, st.op) then
              x.after == st && x.response == Response(ExecutedSuccessfully, Some(FsmInvalidTransition), [])
            else if !argsOk then x.after == st && x.response == Response(DruncExceptionThrown, None, [])
            else
              && pre.Err? && x.after == st.(sub := "preparing-" + name)
              && x.response == Response(if pre.error == Drunc then DruncExceptionThrown else UnhandledExceptionThrown, None, [])
  {
    fsm.GetTransitionFinds(name);
  }

  /** What becomes of a command that is passed on. An answer that claims success
      but is no FSM response leaves the node at the propagating mark; callbacks
      that raise leave it at the finalising mark, already moved; otherwise it is
      idle where the transition leads, in error if any answer is not a success. */
  lemma SentMeans<Cmd>(fsm: Fsm, st: NodeState, inControl: bool, name: string, argsOk: bool,
                       pre: Result<string, Exn>, post: Result<string, Exn>, relay: string -> Cmd, replies: Cmd -> seq<Response>)
    requires Execute(fsm, st, inControl, name, argsOk, pre, post, relay, replies).sent.Some?
    ensures fsm.GetTransition(name).Some? && pre.Ok?
    ensures var x, rs := Execute(fsm, st, inControl, name, argsOk, pre, post, relay, replies), replies(relay(pre.value));
            var dest := if fsm.GetTransition(name).value.destination == "" then st.op else fsm.GetTransition(name).value.destination;
            if exists r :: r in rs && r.flag == ExecutedSuccessfully && r.fsm == None then
              x.after == st.(sub := "propagating-" + name) && x.response == Response(DruncExceptionThrown, None, [])
            else if post.Err? then
              && x.after == st.(op := dest, sub := "finalising-" + name)
              && x.response == Response(if post.error == Drunc then DruncExceptionThrown else UnhandledExceptionThrown, None, [])
            else
              && x.after.op == dest && x.after.sub == dest && x.after.included
              && (x.after.inError <==> exists r :: r in rs && !(r.flag == ExecutedSuccessfully && r.fsm == Some(FsmExecuted)))
              && x.response == Response(ExecutedSuccessfully, Some(FsmExecuted), rs)
  {
    fsm.GetTransitionFinds(name);
    var rs := replies(relay(pre.value));
    assert Judge(rs) == Faulty ==> exists r :: r in rs && !Succeeded(r);
  }

  /** A down node answers without touching itself or its children. */
  lemma DownDeclines<Cmd>(fsm: Fsm, st: NodeState, inControl: bool, name: string, argsOk: bool,
                          pre: Result<string, Exn>, post: Result<string, Exn>, relay: string -> Cmd, replies: Cmd -> seq<Response>)
    requires IsDown(st)
    ensures var x := Execute(fsm, st, inControl, name, argsOk, pre, post, relay, replies);
            x.after == st && x.sent == None && !Succeeded(x.response)
  {
  }

  /** A node that reports success was idle, included and not in error, made an
      enabled transition of that name, and is idle again where it leads. It is
      in error exactly when a child did not succeed. */
  lemma SuccessMeansMoved<Cmd>(fsm: Fsm, st: NodeState, inControl: bool, name: string, argsOk: bool,
                               pre: Result<string, Exn>, post: Result<string, Exn>, relay: string -> Cmd, replies: Cmd -> seq<Response>)
    requires Succeeded(Execute(fsm, st, inControl, name, argsOk, pre, post, relay, replies).response)
    ensures !IsDown(st) && st.included && inControl && argsOk && pre.Ok? && post.Ok?
    ensures fsm.GetTransition(name).Some? && fsm.CanExecute(st.op, fsm.GetTransition(name).value)
    ensures var x := Execute(fsm, st, inControl, name, argsOk, pre, post, relay, replies);
            && IsIdle(x.after) && x.after.op == Destination(st.op, fsm.GetTransition(name).value)
            && x.sent.Some? && (x.after.inError <==> Judge(replies(x.sent.value)) == Faulty)
  {
  }

  /** The operational state changes only along a transition of that name that
      is in the table and enabled in the old state, and only when commanded by
      whoever is in control. */
  lemma MovesOnlyAlongTransitions<Cmd>(fsm: Fsm, st: NodeState, inControl: bool, name: string, argsOk: bool,
                                       pre: Result<string, Exn>, post: Result<string, Exn>, relay: string -> Cmd, replies: Cmd -> seq<Response>)
    ensures var x := Execute(fsm, st, inControl, name, argsOk, pre, post, relay, replies);
            x.after.op != st.op ==>
              && inControl && x.sent.Some?
              && exists t :: t in fsm.transitions && t.name == name && fsm.CanExecute(st.op, t) && x.after.op == t.destination
  {
    fsm.GetTransitionFinds(name);
  }

  /** Once the callbacks before a transition have been started, an exception
      leaves the node stuck, provided states are named without hyphens. */
  lemma ExceptionAfterPreparingSticks<Cmd>(fsm: Fsm, st: NodeState, inControl: bool, name: string, argsOk: bool,
                                           pre: Result<string, Exn>, post: Result<string, Exn>, relay: string -> Cmd, replies: Cmd -> seq<Response>)
    requires HyphenFree(st.op) && forall t :: t in fsm.transitions ==> HyphenFree(t.destination)
    ensures var x := Execute(fsm, st, inControl, name, argsOk, pre, post, relay, replies);
            x.after.sub != st.sub ==> IsDown(x.after) || Succeeded(x.response)
  {
    fsm.GetTransitionFinds(name);
    forall s: Stage, op: string | HyphenFree(op) ensures Text(s, name) != op {
      IdleIffEqual(op, Busy(s, name));
    }
  }
}
