/** One controller process: `ControllerActor` and the commands of `Controller`.
    What the children answer, and what the callbacks around a transition return
    or raise, is supplied by the surroundings. */
module Controllers {
  import opened Arguments
  import opened Exceptions
  import opened Fsm
  import opened Protocol
  import opened StatefulNodes
  import opened SubStates
  import opened Wrappers

  class ControllerActor {
    var token: Token

    constructor (token: Option<Token>)
      ensures this.token == if token.Some? then token.value else NoToken
    {
      this.token := if token.Some? then token.value else NoToken;
    }

    predicate TokenIsCurrentActor(t: Token)
      reads this
    {
      t.userName == token.userName && t.token == token.token
    }

    method UpdateActor(t: Token)
      modifies this
      ensures token == t
    {
      token := t;
    }

    /** Gives the token back; the caller's comparison of the missing return
        value with 0 is part of `Controller.SurrenderControl`. */
    method SurrenderControl(t: Token) returns (raised: Option<Exn>)
      modifies this
      ensures if t == old(token) then raised == None && token == NoToken else raised == Some(Drunc) && token == old(token)
    {
      if TokenIsCurrentActor(t) {
        UpdateActor(NoToken);
        return None;
      }
      return Some(Drunc);
    }

    method TakeControl(t: Token) returns (code: int)
      modifies this
      ensures token == t && code == 0
    {
      UpdateActor(t);
      return 0;
    }
  }

  datatype FsmCommand = FsmCommand(commandName: string, arguments: map<string, Packet>, data: string, childrenNodes: seq<string>)

  /** A command as relayed to the children: their own data, no addressees. */
  function Relayed(cmd: FsmCommand, data: string): FsmCommand {
    cmd.(data := data, childrenNodes := [])
  }

  /** The loop over the children's responses in `execute_fsm_command`: the worst
      flags seen, or the exception of unpacking a response that is not an FSM one. */
  method FindWorstFlags(responses: seq<Response>) returns (worst: Option<(ResponseFlag, FsmFlag)>)
    ensures worst == None <==> Judge(responses) == Undecodable
    ensures worst == None <==> exists r :: r in responses && r.flag == ExecutedSuccessfully && r.fsm == None
    ensures worst.Some? ==> (worst.value == (ExecutedSuccessfully, FsmExecuted) <==>
                               forall r :: r in responses ==> r.flag == ExecutedSuccessfully && r.fsm == Some(FsmExecuted))
    ensures worst.Some? ==> (worst.value == (ExecutedSuccessfully, FsmExecuted) <==> Judge(responses) == Clean)
  {
    var worstResponse, worstFsm := ExecutedSuccessfully, FsmExecuted;
    for k := 0 to |responses|
      invariant forall i :: 0 <= i < k ==> !Unreadable(responses[i])
      invariant worstResponse == ExecutedSuccessfully && worstFsm == FsmExecuted
                <==> forall i :: 0 <= i < k ==> Succeeded(responses[i])
    {
      var child := responses[k];
      if child.flag != ExecutedSuccessfully {
        worstResponse := child.flag;
        continue;
      }
      if child.fsm == None {
        assert child in responses && Unreadable(child);
        return None;
      }
      if child.fsm.value != FsmExecuted {
        worstFsm := child.fsm.value;
      }
    }
    return Some((worstResponse, worstFsm));
  }

  class Controller {
    const node: StatefulNode
    const actor: ControllerActor
    /** The argument descriptions of each transition. */
    const formats: string -> seq<Argument>
    /** The FSM commands propagated to the children so far. */
    var sent: seq<FsmCommand>

    constructor (fsm: Fsm, token: Option<Token>, formats: string -> seq<Argument>)
      ensures fresh(node) && fresh(actor)
      ensures node.fsm == fsm && this.formats == formats && sent == []
      ensures node.State() == NodeState(fsm.initialState, fsm.initialState, true, false)
    {
      node := new StatefulNode(fsm);
      actor := new ControllerActor(token);
      this.formats := formats;
      sent := [];
    }

    /** Runs an FSM command as decorated: only for whoever is in control, and
        with exceptions turned into response flags. No guard met on the way can
        fail: the outcome is always that of `Execute`, which has none. */
    method ExecuteFsmCommand(cmd: FsmCommand, token: Token, pre: Result<string, Exn>, post: Result<string, Exn>,
                             replies: FsmCommand -> seq<Response>)
      returns (response: Response)
      modifies this, node
      ensures var x := Execute(node.fsm, old(node.State()), token == actor.token, cmd.commandName,
                               Decode(cmd.arguments, formats(cmd.commandName)).Ok?, pre, post,
                               data => Relayed(cmd, data), replies);
              && response == x.response
              && node.State() == x.after
              && sent == old(sent) + (if x.sent.Some? then [x.sent.value] else [])
      // the children are sent the command exactly if every guard lets it through
      ensures var found := node.fsm.GetTransition(cmd.commandName);
              sent != old(sent) <==>
                && token == actor.token && !old(node.inError) && old(node.included)
                && old(node.operationalState) == old(node.operationalSubState)
                && found.Some? && node.fsm.accepts(found.value.source, old(node.operationalState))
                && Decode(cmd.arguments, formats(cmd.commandName)).Ok? && pre.Ok?
      ensures sent == old(sent) || (pre.Ok? && sent == old(sent) + [cmd.(data := pre.value, childrenNodes := [])])
      // arguments that do not decode change and send nothing
      ensures var found := node.fsm.GetTransition(cmd.commandName);
              && token == actor.token && !old(node.inError) && old(node.included)
              && old(node.operationalState) == old(node.operationalSubState)
              && found.Some? && node.fsm.accepts(found.value.source, old(node.operationalState))
              && Decode(cmd.arguments, formats(cmd.commandName)).Err?
              ==> node.State() == old(node.State()) && sent == old(sent) && response == Response(DruncExceptionThrown, None, [])
    {
      ghost var argsOk := Decode(cmd.arguments, formats(cmd.commandName)).Ok?;
      ghost var relay := (data: string) => Relayed(cmd, data);
      ghost var x := Execute(node.fsm, node.State(), token == actor.token, cmd.commandName, argsOk, pre, post, relay, replies);
      SentIff(node.fsm, node.State(), token == actor.token, cmd.commandName, argsOk, pre, post, relay, replies);
      if x.sent == None {
        NotSentMeans(node.fsm, node.State(), token == actor.token, cmd.commandName, argsOk, pre, post, relay, replies);
      }
      if !actor.TokenIsCurrentActor(token) {
        return NotInControl;
      }
      var outcome := ExecuteBody(cmd, pre, post, replies);
      response := Broadcasted(outcome);
    }

    method ExecuteBody(cmd: FsmCommand, pre: Result<string, Exn>, post: Result<string, Exn>,
                       replies: FsmCommand -> seq<Response>)
      returns (outcome: Result<Response, Exn>)
      modifies this, node
      ensures var x := Execute(node.fsm, old(node.State()), true, cmd.commandName,
                               Decode(cmd.arguments, formats(cmd.commandName)).Ok?, pre, post,
                               data => Relayed(cmd, data), replies);
              && Broadcasted(outcome) == x.response
              && node.State() == x.after
              && sent == old(sent) + (if x.sent.Some? then [x.sent.value] else [])
    {
      var start := Open(cmd, pre);
      match start {
        case Declined(why) => return Ok(FsmAnswer(why, []));
        case Broke(_, e) => return Err(e);
        case Launched(_, _, _) =>
      }
      var childrenCommand := Relayed(cmd, start.data);
      sent := sent + [childrenCommand];
      var responses := replies(childrenCommand);
      var worst := FindWorstFlags(responses);
      if worst == None {
        return Err(Drunc);
      }
      outcome := Conclude(start.transition, worst.value, responses, post);
    }

    /** From the first guard to the propagating mark. */
    method Open(cmd: FsmCommand, pre: Result<string, Exn>) returns (start: Start)
      modifies node
      ensures start == Begin(node.fsm, old(node.State()), cmd.commandName,
                             Decode(cmd.arguments, formats(cmd.commandName)).Ok?, pre)
      ensures node.State() == if start.Declined? then old(node.State()) else start.after
      ensures start.Launched? ==>
                && start.transition in node.fsm.transitions
                && node.fsm.CanExecute(node.operationalState, start.transition)
                && node.operationalSubState == Text(Propagating, start.transition.name)
    {
      if node.inError {
        return Declined(FsmNotExecutedInError);
      }
      if !node.included {
        return Declined(FsmNotExecutedExcluded);
      }
      var found := node.fsm.GetTransition(cmd.commandName);
      node.fsm.GetTransitionFinds(cmd.commandName);
      if found == None {
        return Broke(node.State(), Unhandled);
      }
      var t := found.value;
      if !node.CanTransition(t) {
        return Declined(FsmInvalidTransition);
      }
      var args := DecodeFsmArguments(cmd.arguments, formats(cmd.commandName));
      if args.Err? {
        return Broke(node.State(), Drunc);
      }
      var data := node.PrepareTransition(t, pre);
      if data.Err? {
        return Broke(node.State(), data.error);
      }
      var raised := node.PropagateTransitionMark(t);
      var now := node.State();
      match raised {
        case Some(e) => return Broke(now, e);
        case None => return Launched(now, t, data.value);
      }
    }

    /** The marks after the children have answered. Run from the propagating
        mark of an enabled transition, none of their guards can fail. */
    method Conclude(t: Transition, worst: (ResponseFlag, FsmFlag), responses: seq<Response>, post: Result<string, Exn>)
      returns (outcome: Result<Response, Exn>)
      requires t in node.fsm.transitions && node.fsm.CanExecute(node.operationalState, t)
      requires node.operationalSubState == Text(Propagating, t.name)
      requires Judge(responses) != Undecodable
      requires worst == (ExecutedSuccessfully, FsmExecuted) <==> Judge(responses) == Clean
      modifies node
      ensures var f := Finish(old(node.State()), t, Judge(responses), post);
              && node.State() == f.0
              && outcome == match f.1 case None => Ok(FsmAnswer(FsmExecuted, responses)) case Some(e) => Err(e)
    {
      node.fsm.GetDestinationIff(node.operationalState, t);
      assert t.Same(t);
      var raised := node.FinishPropagatingTransitionMark(t);
      match raised {
        case Some(e) => return Err(e);
        case None =>
      }
      raised := node.StartTransitionMark(t);
      match raised {
        case Some(e) => return Err(e);
        case None =>
      }
      raised := node.TerminateTransitionMark(t);
      match raised {
        case Some(e) => return Err(e);
        case None =>
      }
      var data := node.FinaliseTransition(t, post);
      if data.Err? {
        return Err(data.error);
      }
      if worst.0 != ExecutedSuccessfully || worst.1 != FsmExecuted {
        node.ToError();
      }
      return Ok(FsmAnswer(FsmExecuted, responses));
    }

    method Include(token: Token, responses: seq<Response>) returns (response: Response)
      modifies node
      ensures (node.State(), response) == Included(old(node.State()), token == actor.token, responses)
      ensures token == actor.token ==>
                && node.State() == old(node.State()).(included := true)
                && response == if old(node.included) then Response(DruncExceptionThrown, None, [])
                               else Response(ExecutedSuccessfully, None, responses)
      ensures token != actor.token ==>
                node.State() == old(node.State()) && response == Response(NotExecutedNotInControl, None, [])
    {
      if !actor.TokenIsCurrentActor(token) {
        return NotInControl;
      }
      var raised := node.IncludeNode();
      response := Broadcasted(if raised.Some? then Err(raised.value) else Ok(Response(ExecutedSuccessfully, None, responses)));
    }

    method Exclude(token: Token, responses: seq<Response>) returns (response: Response)
      modifies node
      ensures (node.State(), response) == Excluded(old(node.State()), token == actor.token, responses)
      ensures token == actor.token ==>
                && node.State() == old(node.State()).(included := false)
                && response == if old(node.included) then Response(ExecutedSuccessfully, None, responses)
                               else Response(DruncExceptionThrown, None, [])
      ensures token != actor.token ==>
                node.State() == old(node.State()) && response == Response(NotExecutedNotInControl, None, [])
    {
      if !actor.TokenIsCurrentActor(token) {
        return NotInControl;
      }
      var raised := node.ExcludeNode();
      response := Broadcasted(if raised.Some? then Err(raised.value) else Ok(Response(ExecutedSuccessfully, None, responses)));
    }

    /** Takes the token unconditionally; the answer says whether all children did. */
    method TakeControl(token: Token, responses: seq<Response>) returns (response: Response)
      modifies actor
      ensures actor.token == token
      ensures response == ControlAnswer(responses)
      ensures response.flag == ExecutedSuccessfully <==>
                forall r :: r in responses ==> r.flag == ExecutedSuccessfully || r.flag == NotExecutedNotImplemented
      ensures response.flag != ExecutedSuccessfully ==> response.flag == Failed
      ensures response.fsm == None && response.children == responses
    {
      var code := actor.TakeControl(token);
      if code != 0 {
        return Response(Failed, None, []);
      }
      if exists r :: r in responses && !TookControl(r) {
        return Response(Failed, None, responses);
      }
      return Response(ExecutedSuccessfully, None, responses);
    }

    /** Only the token of this controller is given up: the actor's method
        returns nothing, which is not 0, so the answer is always a failure and
        the children are not told. */
    method SurrenderControl(token: Token) returns (response: Response)
      modifies actor
      ensures (actor.token, response) == Surrendered(old(actor.token), token)
      ensures if token == old(actor.token) then actor.token == Token("", "") && response == Response(Failed, None, [])
              else actor.token == old(actor.token) && response == Response(NotExecutedNotInControl, None, [])
    {
      if !actor.TokenIsCurrentActor(token) {
        return NotInControl;
      }
      var raised := actor.SurrenderControl(token);
      response := match raised case Some(e) => Thrown(e) case None => Response(Failed, None, []);
    }
  }
}
