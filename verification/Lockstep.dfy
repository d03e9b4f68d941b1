/** Safety over whole runs: controllers that could act agree with their
    children, replies are paired with the right commands, and a controller that
    is down stays as it is. */
module Lockstep {
  import opened Exceptions
  import opened Fsm
  import opened Protocol
  import opened RestChildren
  import opened SubStates
  import opened Trees
  import opened Wrappers

  /** States are named without hyphens, so no state reads like a sub-state. */
  predicate PlainNames(fsm: Fsm) {
    HyphenFree(fsm.initialState) && forall t :: t in fsm.transitions ==> HyphenFree(t.destination)
  }

  /** A child idle in the given state; an application besides owes nothing. */
  predicate InStep(k: Tree, op: string) {
    match k
    case Ctrl(st, _, _) => IsIdle(st) && st.op == op
    case Leaf(app) => !app.cs.executing && app.cs.state == op && Quiet(app.wire)
  }

  /** Every controller that is neither in error nor stuck has all its direct
      children idle in its own state, and every reply any application's queue
      ever gave was to the command awaiting it. */
  predicate Sound(t: Tree) {
    match t
    case Leaf(app) => Paired(app.wire)
    case Ctrl(st, _, kids) =>
      && HyphenFree(st.op)
      && (!IsDown(st) ==> forall i :: 0 <= i < |kids| ==> InStep(kids[i], st.op))
      && forall i :: 0 <= i < |kids| ==> Sound(kids[i])
  }

  /** A tree as it comes up: only the error bits are free. The state of an
      application is assumed to be "initial", whatever the table says. */
  predicate Booted(fsm: Fsm, t: Tree) {
    match t
    case Leaf(app) => app == App(ClientState(false, "initial", true, false), FreshWire)
    case Ctrl(st, _, kids) =>
      && st == NodeState(fsm.initialState, fsm.initialState, true, st.inError)
      && forall i :: 0 <= i < |kids| ==> Booted(fsm, kids[i])
  }

  lemma {:induction false} BootedIsSound(fsm: Fsm, t: Tree)
    requires fsm.initialState == "initial" && Booted(fsm, t)
    ensures Sound(t)
  {
    if t.Ctrl? {
      assert HyphenFree("initial");
      forall i | 0 <= i < |t.kids| ensures Sound(t.kids[i]) {
        BootedIsSound(fsm, t.kids[i]);
      }
    }
  }

  /** Exactly when every tree comes up in agreement: the table's initial state
      must be the one assumed for applications. */
  lemma BootedSoundIff(fsm: Fsm)
    ensures (forall t :: Booted(fsm, t) ==> Sound(t)) <==> fsm.initialState == "initial"
  {
    if fsm.initialState == "initial" {
      forall t | Booted(fsm, t) ensures Sound(t) {
        BootedIsSound(fsm, t);
      }
    } else {
      var leaf := Leaf(App(ClientState(false, "initial", true, false), FreshWire));
      var t := Ctrl(NodeState(fsm.initialState, fsm.initialState, true, false), NoToken, [leaf]);
      assert Booted(fsm, t);
      assert !InStep(t.kids[0], t.st.op);
    }
  }

  // ---- one request -----------------------------------------------------------

  lemma MarksAreNotStates(s: Stage, name: string, op: string)
    requires HyphenFree(op)
    ensures Text(s, name) != op
  {
    IdleIffEqual(op, Busy(s, name));
  }

  /** A child in step that reports success to an FSM command has moved to where
      the transition leads, and is in step there. */
  lemma SuccessKeepsStep(fsm: Fsm, k: Tree, name: string, data: string, tok: Token, o: Oracle, op: string)
    requires InStep(k, op)
    requires Succeeded(Call(fsm, k, FsmRequest(name, data), tok, o).1)
    ensures fsm.GetTransition(name).Some?
    ensures InStep(Call(fsm, k, FsmRequest(name, data), tok, o).0, Destination(op, fsm.GetTransition(name).value))
  {
    match k
    case Leaf(app) =>
      QuietExchange(fsm, app, name, o.events);
      fsm.GetDestinationIff(op, fsm.GetTransition(name).value);
    case Ctrl(st, _, kids) =>
      ServeIsExecute(fsm, k, name, data, tok, o);
      SuccessMeansMoved(fsm, st, tok == k.actor, name, o.argsOk, o.pre, o.post,
                        d => FsmRequest(name, d), q => Answers(CallAll(fsm, kids, q, tok, o)));
  }

  /** A request other than an FSM command moves nothing. */
  lemma OthersKeepStep(fsm: Fsm, k: Tree, req: Request, tok: Token, o: Oracle, op: string)
    requires !req.FsmRequest? && InStep(k, op)
    ensures InStep(Call(fsm, k, req, tok, o).0, op)
  {
  }

  lemma {:induction false} CallKeepsSound(fsm: Fsm, t: Tree, req: Request, tok: Token, o: Oracle)
    requires PlainNames(fsm) && Sound(t)
    requires t.Leaf? && req.FsmRequest? ==> Quiet(t.app.wire)
    ensures Sound(Call(fsm, t, req, tok, o).0)
    decreases t, 1
  {
    match t
    case Leaf(app) =>
      if req.FsmRequest? {
        QuietExchange(fsm, app, req.name, o.events);
      }
    case Ctrl(_, _, _) =>
      ServeKeepsSound(fsm, t, req, tok, o);
  }

  lemma {:induction false} ServeKeepsSound(fsm: Fsm, t: Tree, req: Request, tok: Token, o: Oracle)
    requires PlainNames(fsm) && Sound(t) && t.Ctrl?
    ensures Sound(Serve(fsm, t, req, tok, o).0)
    decreases t, 0
  {
    if req.FsmRequest? {
      if tok == t.actor {
        var start := Begin(fsm, t.st, req.name, o.argsOk, o.pre);
        match start {
          case Declined(_) =>
          case Broke(after, _) =>
            MarksAreNotStates(Preparing, req.name, t.st.op);
            fsm.GetTransitionFinds(req.name);
          case Launched(after, tr, data) =>
            LaunchKeepsSound(fsm, t, req, tok, o);
        }
      }
    } else if req.TakeControl? || (!req.SurrenderControl? && tok == t.actor) {
      forall i | 0 <= i < |t.kids|
        ensures Sound(Call(fsm, t.kids[i], req, tok, KidOracle(o, i)).0)
        ensures InStep(t.kids[i], t.st.op) ==> InStep(Call(fsm, t.kids[i], req, tok, KidOracle(o, i)).0, t.st.op)
      {
        CallKeepsSound(fsm, t.kids[i], req, tok, KidOracle(o, i));
        if InStep(t.kids[i], t.st.op) {
          OthersKeepStep(fsm, t.kids[i], req, tok, KidOracle(o, i), t.st.op);
        }
      }
    }
  }

  lemma {:induction false} LaunchKeepsSound(fsm: Fsm, t: Tree, req: Request, tok: Token, o: Oracle)
    requires PlainNames(fsm) && Sound(t) && t.Ctrl? && req.FsmRequest? && tok == t.actor
    requires Begin(fsm, t.st, req.name, o.argsOk, o.pre).Launched?
    ensures Sound(Serve(fsm, t, req, tok, o).0)
    decreases t, 0, 0
  {
    var start := Begin(fsm, t.st, req.name, o.argsOk, o.pre);
    var q := FsmRequest(req.name, start.data);
    var t' := Serve(fsm, t, req, tok, o).0;
    var rs := CallAll(fsm, t.kids, q, tok, o);
    fsm.GetTransitionFinds(req.name);
    var dest := Destination(t.st.op, start.transition);
    forall i | 0 <= i < |t.kids| ensures Sound(t'.kids[i]) {
      assert t'.kids[i] == Call(fsm, t.kids[i], q, tok, KidOracle(o, i)).0;
      CallKeepsSound(fsm, t.kids[i], q, tok, KidOracle(o, i));
    }
    if !IsDown(t'.st) {
      MarksAreNotStates(Propagating, req.name, t.st.op);
      MarksAreNotStates(Finalising, req.name, dest);
      forall i | 0 <= i < |t.kids| ensures InStep(t'.kids[i], dest) {
        assert t'.kids[i] == Call(fsm, t.kids[i], q, tok, KidOracle(o, i)).0;
        assert Answers(rs)[i] in Answers(rs);
        SuccessKeepsStep(fsm, t.kids[i], req.name, start.data, tok, KidOracle(o, i), t.st.op);
      }
    }
  }

  // ---- whole runs --------------------------------------------------------------

  lemma {:induction false} RunKeepsSound(fsm: Fsm, t: Tree, es: seq<Event>)
    requires PlainNames(fsm) && Sound(t) && t.Ctrl?
    ensures Sound(Run(fsm, t, es))
  {
    if es != [] {
      var n := |es| - 1;
      RunKeepsSound(fsm, t, es[..n]);
      ServeKeepsSound(fsm, Run(fsm, t, es[..n]), es[n].req, es[n].tok, es[n].o);
    }
  }

  lemma {:induction false} SoundAt(t: Tree, p: seq<nat>)
    requires Sound(t) && HasPath(t, p)
    ensures Sound(At(t, p))
  {
    if p != [] {
      SoundAt(t.kids[p[0]], p[1..]);
    }
  }

  /** Lockstep or stopped: in every tree reachable by requests at the root, any
      controller that is idle and not in error has all its direct children idle
      in the same operational state. */
  lemma LockstepOrStopped(fsm: Fsm, t: Tree, es: seq<Event>, p: seq<nat>, i: nat)
    requires PlainNames(fsm) && fsm.initialState == "initial"
    requires t.Ctrl? && Booted(fsm, t)
    requires HasPath(Run(fsm, t, es), p) && i < |At(Run(fsm, t, es), p).kids|
    ensures var n := At(Run(fsm, t, es), p);
            IsIdle(n.st) && !n.st.inError ==>
              match n.kids[i]
              case Ctrl(st, _, _) => IsIdle(st) && st.op == n.st.op
              case Leaf(app) => !app.cs.executing && app.cs.state == n.st.op
  {
    BootedIsSound(fsm, t);
    RunKeepsSound(fsm, t, es);
    SoundAt(Run(fsm, t, es), p);
    var n := At(Run(fsm, t, es), p);
    assert !IsDown(n.st) ==> InStep(n.kids[i], n.st.op);
  }

  /** Reply matching: in every run, every reply taken from an application's
      queue answers the very command awaiting it; and under a controller that
      can still act no application owes or has queued anything. */
  lemma RepliesMatch(fsm: Fsm, t: Tree, es: seq<Event>, p: seq<nat>, i: nat)
    requires PlainNames(fsm) && fsm.initialState == "initial"
    requires t.Ctrl? && Booted(fsm, t)
    requires HasPath(Run(fsm, t, es), p) && i < |At(Run(fsm, t, es), p).kids|
    ensures var n := At(Run(fsm, t, es), p);
            n.kids[i].Leaf? ==>
              && Paired(n.kids[i].app.wire)
              && (!IsDown(n.st) ==> Quiet(n.kids[i].app.wire))
  {
    BootedIsSound(fsm, t);
    RunKeepsSound(fsm, t, es);
    SoundAt(Run(fsm, t, es), p);
    var n := At(Run(fsm, t, es), p);
    assert Sound(n.kids[i]);
    assert !IsDown(n.st) ==> InStep(n.kids[i], n.st.op);
  }

  /** All controllers fit to act. */
  predicate NoneDown(t: Tree) {
    t.Ctrl? ==> !IsDown(t.st) && forall i :: 0 <= i < |t.kids| ==> NoneDown(t.kids[i])
  }

  predicate AllIn(t: Tree, op: string) {
    InStep(t, op) && (t.Ctrl? ==> forall i :: 0 <= i < |t.kids| ==> AllIn(t.kids[i], op))
  }

  /** With no controller down, the whole tree is in one operational state. */
  lemma {:induction false} OneState(t: Tree)
    requires t.Ctrl? && Sound(t) && NoneDown(t)
    ensures AllIn(t, t.st.op)
  {
    forall i | 0 <= i < |t.kids| ensures AllIn(t.kids[i], t.st.op) {
      assert InStep(t.kids[i], t.st.op);
      if t.kids[i].Ctrl? {
        OneState(t.kids[i]);
      }
    }
  }

  // ---- stopping is absorbing -----------------------------------------------------

  /** A tree as far as FSM commands are concerned: inclusion and tokens left out. */
  function View(t: Tree): Tree {
    match t
    case Leaf(app) => Leaf(app.(cs := app.cs.(included := true)))
    case Ctrl(st, _, kids) =>
      Ctrl(st.(included := true), NoToken, seq(|kids|, i requires 0 <= i < |kids| => View(kids[i])))
  }

  lemma {:induction false} OthersKeepView(fsm: Fsm, t: Tree, req: Request, tok: Token, o: Oracle)
    requires !req.FsmRequest?
    ensures View(Call(fsm, t, req, tok, o).0) == View(t)
    decreases t, 1
  {
    if t.Ctrl? {
      OthersKeepServeView(fsm, t, req, tok, o);
    }
  }

  lemma {:induction false} OthersKeepServeView(fsm: Fsm, t: Tree, req: Request, tok: Token, o: Oracle)
    requires !req.FsmRequest? && t.Ctrl?
    ensures View(Serve(fsm, t, req, tok, o).0) == View(t)
    decreases t, 0
  {
    forall i | 0 <= i < |t.kids| ensures View(Call(fsm, t.kids[i], req, tok, KidOracle(o, i)).0) == View(t.kids[i]) {
      OthersKeepView(fsm, t.kids[i], req, tok, KidOracle(o, i));
    }
  }

  /** A controller that is down leaves itself and everything below it as it is,
      whatever it is asked, except for inclusion and tokens. */
  lemma DownServesNothing(fsm: Fsm, t: Tree, req: Request, tok: Token, o: Oracle)
    requires t.Ctrl? && IsDown(t.st)
    ensures View(Serve(fsm, t, req, tok, o).0) == View(t)
    ensures req.FsmRequest? ==> Serve(fsm, t, req, tok, o).0 == t && !Succeeded(Serve(fsm, t, req, tok, o).1)
  {
    if !req.FsmRequest? {
      OthersKeepServeView(fsm, t, req, tok, o);
    }
  }

  lemma ViewKeepsDown(t: Tree, t': Tree)
    requires t.Ctrl? && t'.Ctrl? && View(t) == View(t')
    ensures IsDown(t.st) == IsDown(t'.st) && t.st.op == t'.st.op && |t.kids| == |t'.kids|
  {
    assert View(t).st.op == t.st.op && View(t').st.op == t'.st.op;
    assert View(t).st.sub == t.st.sub && View(t').st.sub == t'.st.sub;
    assert View(t).st.inError == t.st.inError && View(t').st.inError == t'.st.inError;
  }

  lemma {:induction false} DownRunsNothing(fsm: Fsm, t: Tree, es: seq<Event>)
    requires t.Ctrl? && IsDown(t.st)
    ensures View(Run(fsm, t, es)) == View(t) && IsDown(Run(fsm, t, es).st)
  {
    if es != [] {
      var n := |es| - 1;
      DownRunsNothing(fsm, t, es[..n]);
      DownServesNothing(fsm, Run(fsm, t, es[..n]), es[n].req, es[n].tok, es[n].o);
      ViewKeepsDown(t, Run(fsm, t, es));
    }
  }

  /** Stopping is absorbing, anywhere in the tree: once a controller is in error
      or stuck, no sequence of requests at the root changes an operational
      state at or below it or posts a command to an application there. */
  lemma StoppedForever(fsm: Fsm, t: Tree, es: seq<Event>, p: seq<nat>)
    requires HasPath(t, p) && IsDown(At(t, p).st)
    ensures HasPath(Run(fsm, t, es), p)
    ensures View(At(Run(fsm, t, es), p)) == View(At(t, p))
    ensures IsDown(At(Run(fsm, t, es), p).st)
  {
    var own := NodeRuns(fsm, t, es, p);
    DownRunsNothing(fsm, At(t, p), own);
  }

  /** A failure is never lost: a controller that passed a command on and had an
      answer other than success is down afterwards, and so is one whose own
      callbacks raised. */
  lemma FailureMarksParent(fsm: Fsm, t: Tree, e: Event, i: nat)
    requires PlainNames(fsm) && t.Ctrl? && HyphenFree(t.st.op) && i < |t.kids|
    requires Launches(fsm, t, e)
    requires var data := Begin(fsm, t.st, e.req.name, e.o.argsOk, e.o.pre).data;
             !Succeeded(Call(fsm, t.kids[i], FsmRequest(e.req.name, data), e.tok, KidOracle(e.o, i)).1)
    ensures IsDown(Serve(fsm, t, e.req, e.tok, e.o).0.st)
  {
    var start := Begin(fsm, t.st, e.req.name, e.o.argsOk, e.o.pre);
    var q := FsmRequest(e.req.name, start.data);
    var rs := Answers(CallAll(fsm, t.kids, q, e.tok, e.o));
    assert rs[i] in rs;
    assert Judge(rs) != Clean;
    fsm.GetTransitionFinds(e.req.name);
    MarksAreNotStates(Propagating, e.req.name, t.st.op);
    MarksAreNotStates(Finalising, e.req.name, Destination(t.st.op, start.transition));
  }
}
