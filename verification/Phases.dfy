/** The machine the sub-state strings stand for: an operational state and one of
    seven phases, moved on by six guarded steps. The strings of `StatefulNode`
    are proved to follow it step by step. */
module Phases {
  import opened Exceptions
  import opened Fsm
  import opened Protocol
  import opened SubStates
  import opened Wrappers

  datatype Machine = Machine(op: string, phase: Phase)

  /** One call of a method of `StatefulNode`; `pre` and `post` are what the
      callbacks around the transition give. */
  datatype Move =
    | Prepare(t: Transition, pre: Result<string, Exn>)
    | Propagate(t: Transition)
    | FinishPropagating(t: Transition)
    | Start(t: Transition)
    | Terminate(t: Transition)
    | Finalise(t: Transition, post: Result<string, Exn>)

  function Raised(r: Result<string, Exn>): Option<Exn> {
    if r.Ok? then None else Some(r.error)
  }

  /** A guarded step from one phase of a transition to the next. */
  function Guarded(m: Machine, from: Stage, to: Stage, name: string): (Machine, Option<Exn>) {
    match MarkPhase(m.phase, from, to, name)
    case None => (m, Some(Drunc))
    case Some(next) => (m.(phase := next), None)
  }

  /** What each move does, and the exception it raises, if any. */
  function Advance(fsm: Fsm, m: Machine, move: Move): (Machine, Option<Exn>) {
    match move
    case Prepare(t, pre) =>
      if m.phase != Idle then (m, Some(Unhandled))
      else if !fsm.CanExecute(m.op, t) then (m, Some(Drunc))
      else (m.(phase := Busy(if pre.Ok? then Ready else Preparing, t.name)), Raised(pre))
    case Propagate(t) => Guarded(m, Ready, Propagating, t.name)
    case FinishPropagating(t) => Guarded(m, Propagating, Propagated, t.name)
    case Start(t) => Guarded(m, Propagated, Executing, t.name)
    case Terminate(t) =>
      (match MarkPhase(m.phase, Executing, Terminated, t.name)
       case None => (m, Some(Drunc))
       case Some(next) =>
         match fsm.GetDestination(m.op, t)
         case None => (m.(phase := next), Some(Unhandled))
         case Some(dest) => (Machine(dest, next), None))
    case Finalise(t, post) =>
      if m.phase != Busy(Terminated, t.name) then (m, Some(Drunc))
      else (m.(phase := if post.Ok? then Idle else Busy(Finalising, t.name)), Raised(post))
  }

  function AdvanceAll(fsm: Fsm, m: Machine, moves: seq<Move>): Machine {
    if moves == [] then m else Advance(fsm, AdvanceAll(fsm, m, moves[..|moves| - 1]), moves[|moves| - 1]).0
  }

  // ---- strings that stand for phases --------------------------------------------

  predicate PlainName(name: string) {
    HyphenFree(name) && !IsMarker(name)
  }

  /** States without hyphens, transitions without hyphens or marker words. */
  predicate PlainTable(fsm: Fsm) {
    HyphenFree(fsm.initialState) && forall t :: t in fsm.transitions ==> HyphenFree(t.destination) && PlainName(t.name)
  }

  predicate PlainPhase(phase: Phase) {
    phase.Busy? ==> PlainName(phase.transition)
  }

  /** The sub-state reads as the given phase. */
  predicate Shows(st: NodeState, phase: Phase) {
    HyphenFree(st.op) && PlainPhase(phase) && st.sub == Encode(st.op, phase)
  }

  /** The machine a node stands for. */
  function MachineOf(st: NodeState): Machine {
    Machine(st.op, DecodePhase(st.sub))
  }

  /** The sub-state is one of those the machine's phases are written as. */
  predicate Coded(st: NodeState) {
    Shows(st, DecodePhase(st.sub))
  }

  /** The phase shown is unique, and idle exactly when state equals sub-state. */
  lemma ShownPhaseIsUnique(st: NodeState, phase: Phase)
    requires Shows(st, phase)
    ensures phase == DecodePhase(st.sub) && Coded(st)
    ensures phase == Idle <==> IsIdle(st)
  {
    DecodePhaseEncode(st.op, phase);
    IdleIffEqual(st.op, phase);
  }

  /** The same moves on the strings, as the methods of `StatefulNode` make them. */
  function GuardedText(st: NodeState, from: Stage, to: Stage, name: string): (NodeState, Option<Exn>) {
    match Mark(st.sub, from, to, name)
    case None => (st, Some(Drunc))
    case Some(next) => (st.(sub := next), None)
  }

  function AdvanceText(fsm: Fsm, st: NodeState, move: Move): (NodeState, Option<Exn>) {
    match move
    case Prepare(t, pre) =>
      if !IsIdle(st) then (st, Some(Unhandled))
      else if !fsm.CanExecute(st.op, t) then (st, Some(Drunc))
      else (st.(sub := Text(if pre.Ok? then Ready else Preparing, t.name)), Raised(pre))
    case Propagate(t) => GuardedText(st, Ready, Propagating, t.name)
    case FinishPropagating(t) => GuardedText(st, Propagating, Propagated, t.name)
    case Start(t) => GuardedText(st, Propagated, Executing, t.name)
    case Terminate(t) =>
      (match Mark(st.sub, Executing, Terminated, t.name)
       case None => (st, Some(Drunc))
       case Some(next) =>
         match fsm.GetDestination(st.op, t)
         case None => (st.(sub := next), Some(Unhandled))
         case Some(dest) => (st.(op := dest, sub := next), None))
    case Finalise(t, post) =>
      if st.sub != Text(Terminated, t.name) then (st, Some(Drunc))
      else (st.(sub := if post.Ok? then st.op else Text(Finalising, t.name)), Raised(post))
  }

  lemma GuardedFollows(st: NodeState, phase: Phase, from: Stage, to: Stage, name: string)
    requires Shows(st, phase) && PlainName(name)
    ensures var (st', raised) := GuardedText(st, from, to, name);
            Coded(st') && (MachineOf(st'), raised) == Guarded(Machine(st.op, phase), from, to, name)
  {
    var mark := Mark(st.sub, from, to, name);
    MarkRefines(st.op, phase, from, to, name);
    match MarkPhase(phase, from, to, name)
    case None =>
      assert mark == None;
      ShownPhaseIsUnique(st, phase);
    case Some(next) =>
      assert mark == Some(Encode(st.op, next));
      ShownPhaseIsUnique(st.(sub := Encode(st.op, next)), next);
  }

  /** A destination looked up is a state of the table, or the state one is in. */
  lemma DestinationIsPlain(fsm: Fsm, op: string, t: Transition)
    requires PlainTable(fsm) && HyphenFree(op) && fsm.GetDestination(op, t).Some?
    ensures HyphenFree(fsm.GetDestination(op, t).value)
  {
    fsm.GetDestinationIff(op, t);
  }

  /** Where names are plain, what a method did to the strings is what the
      machine does to the phases, exceptions included. */
  predicate Follows(fsm: Fsm, st: NodeState, move: Move, st': NodeState, raised: Option<Exn>) {
    PlainTable(fsm) && PlainName(move.t.name) && Coded(st) ==>
      Coded(st') && (MachineOf(st'), raised) == Advance(fsm, MachineOf(st), move)
  }

  /** The strings follow the machine, in each of the six moves, from any state. */
  lemma TextFollowsPhases(fsm: Fsm, st: NodeState, move: Move)
    ensures Follows(fsm, st, move, AdvanceText(fsm, st, move).0, AdvanceText(fsm, st, move).1)
  {
    if PlainTable(fsm) && PlainName(move.t.name) && Coded(st) {
      PlainTextFollowsPhases(fsm, st, move);
    }
  }

  lemma PlainTextFollowsPhases(fsm: Fsm, st: NodeState, move: Move)
    requires PlainTable(fsm) && PlainName(move.t.name) && Coded(st)
    ensures var (st', raised) := AdvanceText(fsm, st, move);
            Coded(st') && (MachineOf(st'), raised) == Advance(fsm, MachineOf(st), move)
  {
    var phase := DecodePhase(st.sub);
    ShownPhaseIsUnique(st, phase);
    var st' := AdvanceText(fsm, st, move).0;
    match move
    case Prepare(t, pre) =>
      if st' != st {
        ShownPhaseIsUnique(st', Busy(if pre.Ok? then Ready else Preparing, t.name));
      }
    case Propagate(t) => GuardedFollows(st, phase, Ready, Propagating, t.name);
    case FinishPropagating(t) => GuardedFollows(st, phase, Propagating, Propagated, t.name);
    case Start(t) => GuardedFollows(st, phase, Propagated, Executing, t.name);
    case Terminate(t) =>
      MarkRefines(st.op, phase, Executing, Terminated, t.name);
      if st.sub == Text(Executing, t.name) {
        if fsm.GetDestination(st.op, t).Some? {
          DestinationIsPlain(fsm, st.op, t);
        }
        ShownPhaseIsUnique(st', Busy(Terminated, t.name));
      }
    case Finalise(t, post) =>
      DecodePhaseEncode(st.op, Busy(Terminated, t.name));
      if st.sub == Text(Terminated, t.name) {
        ShownPhaseIsUnique(st', if post.Ok? then Idle else Busy(Finalising, t.name));
      }
  }

  // ---- whole commands -------------------------------------------------------------

  function AdvanceTextAll(fsm: Fsm, st: NodeState, moves: seq<Move>): NodeState {
    if moves == [] then st else AdvanceText(fsm, AdvanceTextAll(fsm, st, moves[..|moves| - 1]), moves[|moves| - 1]).0
  }

  lemma AdvanceTextAppend(fsm: Fsm, st: NodeState, moves: seq<Move>, move: Move)
    ensures AdvanceTextAll(fsm, st, moves + [move]) == AdvanceText(fsm, AdvanceTextAll(fsm, st, moves), move).0
  {
    assert (moves + [move])[..|moves|] == moves;
  }

  lemma {:induction false} AdvanceAllConcat(fsm: Fsm, m: Machine, a: seq<Move>, b: seq<Move>)
    ensures AdvanceAll(fsm, m, a + b) == AdvanceAll(fsm, AdvanceAll(fsm, m, a), b)
  {
    if b == [] {
      assert a + b == a;
    } else {
      AdvanceAllConcat(fsm, m, a, b[..|b| - 1]);
      assert (a + b)[..|a + b| - 1] == a + b[..|b| - 1];
    }
  }

  lemma {:induction false} TextsFollowPhases(fsm: Fsm, st: NodeState, moves: seq<Move>)
    requires PlainTable(fsm) && Coded(st) && forall k :: 0 <= k < |moves| ==> moves[k].t in fsm.transitions
    ensures var st' := AdvanceTextAll(fsm, st, moves);
            Coded(st') && MachineOf(st') == AdvanceAll(fsm, MachineOf(st), moves)
  {
    if moves != [] {
      TextsFollowPhases(fsm, st, moves[..|moves| - 1]);
      PlainTextFollowsPhases(fsm, AdvanceTextAll(fsm, st, moves[..|moves| - 1]), moves[|moves| - 1]);
    }
  }

  /** The six moves of one transition, in the order a command makes them. */
  function Command(t: Transition, pre: Result<string, Exn>, post: Result<string, Exn>): seq<Move> {
    [Prepare(t, pre), Propagate(t), FinishPropagating(t), Start(t), Terminate(t), Finalise(t, post)]
  }
}
