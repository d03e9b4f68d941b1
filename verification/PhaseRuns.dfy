/** Every controller of the tree, over every run, is a run of the seven-phase
    machine, written in strings that read back to one phase each. */
module PhaseRuns {
  import opened Exceptions
  import opened Fsm
  import opened Lockstep
  import opened Phases
  import opened Protocol
  import opened SubStates
  import opened Trees
  import opened Wrappers

  /** Alike but for inclusion and the error bit. */
  predicate SameText(a: NodeState, b: NodeState) {
    a.op == b.op && a.sub == b.sub
  }

  /** A launched command after `k` of its moves. */
  function TextAfter(st: NodeState, t: Transition, post: Result<string, Exn>, k: nat): NodeState
    requires k <= 6
  {
    match k
    case 0 => st
    case 1 => st.(sub := Text(Ready, t.name))
    case 2 => st.(sub := Text(Propagating, t.name))
    case 3 => st.(sub := Text(Propagated, t.name))
    case 4 => st.(sub := Text(Executing, t.name))
    case 5 => st.(op := Destination(st.op, t), sub := Text(Terminated, t.name))
    case _ => st.(op := Destination(st.op, t), sub := if post.Ok? then Destination(st.op, t) else Text(Finalising, t.name))
  }

  /** Each guard met on the way holds, because the move before set it. */
  lemma TextAfterStep(fsm: Fsm, st: NodeState, t: Transition, pre: Result<string, Exn>, post: Result<string, Exn>, k: nat)
    requires IsIdle(st) && t in fsm.transitions && fsm.CanExecute(st.op, t) && pre.Ok? && k < 6
    ensures AdvanceText(fsm, TextAfter(st, t, post, k), Command(t, pre, post)[k]).0 == TextAfter(st, t, post, k + 1)
    ensures AdvanceText(fsm, TextAfter(st, t, post, k), Command(t, pre, post)[k]).1 == if k == 5 then Raised(post) else None
  {
    if k == 4 {
      fsm.GetDestinationIff(st.op, t);
      assert t.Same(t);
    }
  }

  lemma {:induction false} CommandTexts(fsm: Fsm, st: NodeState, t: Transition, pre: Result<string, Exn>, post: Result<string, Exn>, k: nat)
    requires IsIdle(st) && t in fsm.transitions && fsm.CanExecute(st.op, t) && pre.Ok? && k <= 6
    ensures AdvanceTextAll(fsm, st, Command(t, pre, post)[..k]) == TextAfter(st, t, post, k)
  {
    var all := Command(t, pre, post);
    if k > 0 {
      CommandTexts(fsm, st, t, pre, post, k - 1);
      TextAfterStep(fsm, st, t, pre, post, k - 1);
      assert all[..k] == all[..k - 1] + [all[k - 1]];
      AdvanceTextAppend(fsm, st, all[..k - 1], all[k - 1]);
    }
  }

  lemma BrokenTexts(fsm: Fsm, st: NodeState, t: Transition, pre: Result<string, Exn>, post: Result<string, Exn>)
    requires IsIdle(st) && fsm.CanExecute(st.op, t) && pre.Err?
    ensures AdvanceTextAll(fsm, st, Command(t, pre, post)[..1]) == st.(sub := Text(Preparing, t.name))
  {
    AdvanceTextAppend(fsm, st, [], Prepare(t, pre));
    assert Command(t, pre, post)[..1] == [] + [Prepare(t, pre)];
  }

  /** Serving a request moves a controller along an initial part of the six
      moves of one transition of the table, or not at all. */
  lemma ServeIsMoves(fsm: Fsm, t: Tree, req: Request, tok: Token, o: Oracle) returns (moves: seq<Move>)
    requires t.Ctrl?
    ensures SameText(Serve(fsm, t, req, tok, o).0.st, AdvanceTextAll(fsm, t.st, moves))
    ensures moves == [] || exists tr :: tr in fsm.transitions && moves <= Command(tr, o.pre, o.post)
    ensures forall k :: 0 <= k < |moves| ==> moves[k].t in fsm.transitions
  {
    moves := [];
    if req.FsmRequest? && tok == t.actor && fsm.GetTransition(req.name).Some? {
      fsm.GetTransitionFinds(req.name);
      var tr := fsm.GetTransition(req.name).value;
      var all := Command(tr, o.pre, o.post);
      match Begin(fsm, t.st, req.name, o.argsOk, o.pre) {
        case Declined(_) =>
        case Broke(after, _) =>
          if CanTransition(fsm, t.st, tr) && o.argsOk {
            BrokenTexts(fsm, t.st, tr, o.pre, o.post);
            moves := all[..1];
          }
        case Launched(_, _, data) =>
          var rs := CallAll(fsm, t.kids, FsmRequest(req.name, data), tok, o);
          var n := if Judge(Answers(rs)) == Undecodable then 2 else 6;
          CommandTexts(fsm, t.st, tr, o.pre, o.post, n);
          moves := all[..n];
      }
    }
  }

  lemma {:induction false} RunFollowsPhases(fsm: Fsm, t: Tree, es: seq<Event>) returns (moves: seq<Move>)
    requires PlainTable(fsm) && t.Ctrl? && Coded(t.st)
    ensures var st := Run(fsm, t, es).st;
            Coded(st) && MachineOf(st) == AdvanceAll(fsm, MachineOf(t.st), moves)
  {
    if es == [] {
      return [];
    }
    var n := |es| - 1;
    var before := RunFollowsPhases(fsm, t, es[..n]);
    var mid := Run(fsm, t, es[..n]);
    var more := ServeIsMoves(fsm, mid, es[n].req, es[n].tok, es[n].o);
    TextsFollowPhases(fsm, mid.st, more);
    AdvanceAllConcat(fsm, MachineOf(t.st), before, more);
    moves := before + more;
  }

  lemma {:induction false} BootedIsCoded(fsm: Fsm, t: Tree, p: seq<nat>)
    requires PlainTable(fsm) && Booted(fsm, t) && HasPath(t, p)
    ensures Coded(At(t, p).st) && MachineOf(At(t, p).st) == Machine(fsm.initialState, Idle)
  {
    if p == [] {
      ShownPhaseIsUnique(t.st, Idle);
    } else {
      BootedIsCoded(fsm, t.kids[p[0]], p[1..]);
    }
  }

  /** In every tree reachable from a booted one, each controller's strings are
      where a run of the seven-phase machine from idle has led; its sub-state
      reads as exactly one phase, and that is idle if and only if it equals the
      operational state. */
  lemma NodeFollowsPhases(fsm: Fsm, t: Tree, es: seq<Event>, p: seq<nat>) returns (moves: seq<Move>)
    requires PlainTable(fsm) && Booted(fsm, t) && HasPath(t, p)
    ensures HasPath(Run(fsm, t, es), p)
    ensures var st := At(Run(fsm, t, es), p).st;
            && AdvanceAll(fsm, Machine(fsm.initialState, Idle), moves) == MachineOf(st)
            && (forall phase :: Shows(st, phase) <==> phase == DecodePhase(st.sub))
            && (DecodePhase(st.sub) == Idle <==> st.op == st.sub)
  {
    var own := NodeRuns(fsm, t, es, p);
    BootedIsCoded(fsm, t, p);
    moves := RunFollowsPhases(fsm, At(t, p), own);
    var st := At(Run(fsm, t, es), p).st;
    ShownPhaseIsUnique(st, DecodePhase(st.sub));
    forall phase | Shows(st, phase) ensures phase == DecodePhase(st.sub) {
      ShownPhaseIsUnique(st, phase);
    }
  }
}
