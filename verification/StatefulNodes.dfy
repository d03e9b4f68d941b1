/** `StatefulNode`: the operational state of a controller and the marks that
    take it through a transition. Every mark checks the sub-state string first. */
module StatefulNodes {
  import opened Exceptions
  import opened Fsm
  import opened Phases
  import opened Protocol
  import opened SubStates
  import opened Wrappers

  class StatefulNode {
    const fsm: Fsm
    var operationalState: string
    var operationalSubState: string
    var included: bool
    var inError: bool

    function State(): NodeState
      reads this
    {
      NodeState(operationalState, operationalSubState, included, inError)
    }

    constructor (fsm: Fsm)
      ensures this.fsm == fsm
      ensures State() == NodeState(fsm.initialState, fsm.initialState, true, false)
    {
      this.fsm := fsm;
      operationalState := fsm.initialState;
      operationalSubState := fsm.initialState;
      included := true;
      inError := false;
    }

    method IncludeNode() returns (raised: Option<Exn>)
      modifies this
      ensures match Protocol.IncludeNode(old(State()))
              case Ok(st) => raised == None && State() == st
              case Err(e) => raised == Some(e) && State() == old(State())
      ensures State() == old(State()).(included := true)
      ensures raised == if old(included) then Some(Drunc) else None
    {
      if included {
        return Some(Drunc);
      }
      included := true;
      raised := None;
    }

    method ExcludeNode() returns (raised: Option<Exn>)
      modifies this
      ensures match Protocol.ExcludeNode(old(State()))
              case Ok(st) => raised == None && State() == st
              case Err(e) => raised == Some(e) && State() == old(State())
      ensures State() == old(State()).(included := false)
      ensures raised == if old(included) then None else Some(Drunc)
    {
      if !included {
        return Some(Drunc);
      }
      included := false;
      raised := None;
    }

    method ToError()
      modifies this
      ensures State() == old(State()).(inError := true)
    {
      inError := true;
    }

    predicate CanTransition(t: Transition)
      reads this
      ensures CanTransition(t) == Protocol.CanTransition(fsm, State(), t)
    {
      if operationalState != operationalSubState then false else fsm.CanExecute(operationalState, t)
    }

    /** `pre` is what the callbacks before the transition return or raise. The
        first guard reports its failure through a method that does not exist. */
    method PrepareTransition(t: Transition, pre: Result<string, Exn>) returns (r: Result<string, Exn>)
      modifies this
      ensures var was := old(State());
              if !IsIdle(was) then r == Err(Unhandled) && State() == was
              else if !fsm.CanExecute(was.op, t) then r == Err(Drunc) && State() == was
              else r == pre && State() == was.(sub := Text(if pre.Ok? then Ready else Preparing, t.name))
      ensures Follows(fsm, old(State()), Move.Prepare(t, pre), State(), Raised(r))
    {
      TextFollowsPhases(fsm, State(), Move.Prepare(t, pre));
      if operationalState != operationalSubState {
        return Err(Unhandled);
      }
      if !fsm.CanExecute(operationalState, t) {
        return Err(Drunc);
      }
      operationalSubState := "preparing-" + t.name;
      if pre.Err? {
        return pre;
      }
      operationalSubState := t.name + "-ready";
      return pre;
    }

    method PropagateTransitionMark(t: Transition) returns (raised: Option<Exn>)
      modifies this
      ensures match Mark(old(operationalSubState), Ready, Propagating, t.name)
              case None => raised == Some(Drunc) && State() == old(State())
              case Some(next) => raised == None && State() == old(State()).(sub := next)
      ensures Follows(fsm, old(State()), Move.Propagate(t), State(), raised)
    {
      TextFollowsPhases(fsm, State(), Move.Propagate(t));
      if operationalSubState != t.name + "-ready" {
        return Some(Drunc);
      }
      operationalSubState := "propagating-" + t.name;
      raised := None;
    }

    method FinishPropagatingTransitionMark(t: Transition) returns (raised: Option<Exn>)
      modifies this
      ensures match Mark(old(operationalSubState), Propagating, Propagated, t.name)
              case None => raised == Some(Drunc) && State() == old(State())
              case Some(next) => raised == None && State() == old(State()).(sub := next)
      ensures Follows(fsm, old(State()), Move.FinishPropagating(t), State(), raised)
    {
      TextFollowsPhases(fsm, State(), Move.FinishPropagating(t));
      if operationalSubState != "propagating-" + t.name {
        return Some(Drunc);
      }
      operationalSubState := t.name + "-propagated";
      raised := None;
    }

    method StartTransitionMark(t: Transition) returns (raised: Option<Exn>)
      modifies this
      ensures match Mark(old(operationalSubState), Propagated, Executing, t.name)
              case None => raised == Some(Drunc) && State() == old(State())
              case Some(next) => raised == None && State() == old(State()).(sub := next)
      ensures Follows(fsm, old(State()), Move.Start(t), State(), raised)
    {
      TextFollowsPhases(fsm, State(), Move.Start(t));
      if operationalSubState != t.name + "-propagated" {
        return Some(Drunc);
      }
      operationalSubState := "executing-" + t.name;
      raised := None;
    }

    /** A destination lookup without an answer would leave no operational state
        at all; it stands here as an unhandled failure. */
    method TerminateTransitionMark(t: Transition) returns (raised: Option<Exn>)
      modifies this
      ensures match Mark(old(operationalSubState), Executing, Terminated, t.name)
              case None => raised == Some(Drunc) && State() == old(State())
              case Some(next) =>
                match fsm.GetDestination(old(operationalState), t)
                case None => raised == Some(Unhandled) && State() == old(State()).(sub := next)
                case Some(dest) => raised == None && State() == old(State()).(op := dest, sub := next)
      ensures Follows(fsm, old(State()), Move.Terminate(t), State(), raised)
    {
      TextFollowsPhases(fsm, State(), Move.Terminate(t));
      if operationalSubState != "executing-" + t.name {
        return Some(Drunc);
      }
      operationalSubState := t.name + "-terminated";
      var dest := fsm.GetDestination(operationalState, t);
      if dest == None {
        return Some(Unhandled);
      }
      operationalState := dest.value;
      raised := None;
    }

    /** `post` is what the callbacks after the transition return or raise. */
    method FinaliseTransition(t: Transition, post: Result<string, Exn>) returns (r: Result<string, Exn>)
      modifies this
      ensures var was := old(State());
              if was.sub != Text(Terminated, t.name) then r == Err(Drunc) && State() == was
              else r == post && State() == was.(sub := if post.Ok? then was.op else Text(Finalising, t.name))
      ensures Follows(fsm, old(State()), Move.Finalise(t, post), State(), Raised(r))
    {
      TextFollowsPhases(fsm, State(), Move.Finalise(t, post));
      if operationalSubState != t.name + "-terminated" {
        return Err(Drunc);
      }
      operationalSubState := "finalising-" + t.name;
      if post.Err? {
        return post;
      }
      operationalSubState := operationalState;
      return post;
    }
  }
}
