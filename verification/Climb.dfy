/** How a failure travels: one level up for each command, because a controller
    reports its own success even when its children failed. */
module Climb {
  import opened Exceptions
  import opened Fsm
  import opened Lockstep
  import opened Protocol
  import opened RestChildren
  import opened SubStates
  import opened Trees
  import opened Wrappers

  /** How many of the requests the root passes on as FSM commands. */
  function Launched(fsm: Fsm, t: Tree, es: seq<Event>): nat
    requires t.Ctrl?
  {
    if es == [] then 0
    else
      var n := |es| - 1;
      Launched(fsm, t, es[..n]) + if Launches(fsm, Run(fsm, t, es[..n]), es[n]) then 1 else 0
  }

  predicate Named(t: Tree) {
    t.Ctrl? ==> HyphenFree(t.st.op) && forall i :: 0 <= i < |t.kids| ==> Named(t.kids[i])
  }

  /** A controller itself, whatever it serves. */
  lemma ServeKeepsOwnName(fsm: Fsm, t: Tree, req: Request, tok: Token, o: Oracle)
    requires PlainNames(fsm) && t.Ctrl? && HyphenFree(t.st.op)
    ensures HyphenFree(Serve(fsm, t, req, tok, o).0.st.op)
  {
    if req.FsmRequest? {
      ServeIsExecute(fsm, t, req.name, req.data, tok, o);
      MovesOnlyAlongTransitions(fsm, t.st, tok == t.actor, req.name, o.argsOk, o.pre, o.post,
                                d => FsmRequest(req.name, d), q => Answers(CallAll(fsm, t.kids, q, tok, o)));
    }
  }

  lemma {:induction false} ServeKeepsNamed(fsm: Fsm, t: Tree, req: Request, tok: Token, o: Oracle)
    requires PlainNames(fsm) && t.Ctrl? && Named(t)
    ensures Named(Serve(fsm, t, req, tok, o).0)
  {
    var t' := Serve(fsm, t, req, tok, o).0;
    ServeKeepsOwnName(fsm, t, req, tok, o);
    KidsAfter(fsm, t, req, tok, o);
    if t'.kids != t.kids {
      var req' := PassedOn(fsm, t, req, o);
      forall i | 0 <= i < |t.kids| ensures Named(t'.kids[i]) {
        assert t'.kids[i] == Call(fsm, t.kids[i], req', tok, KidOracle(o, i)).0;
        if t.kids[i].Ctrl? {
          ServeKeepsNamed(fsm, t.kids[i], req', tok, KidOracle(o, i));
        }
      }
    }
  }

  lemma {:induction false} RunKeepsNamed(fsm: Fsm, t: Tree, es: seq<Event>)
    requires PlainNames(fsm) && t.Ctrl? && Named(t)
    ensures Named(Run(fsm, t, es))
  {
    if es != [] {
      var n := |es| - 1;
      RunKeepsNamed(fsm, t, es[..n]);
      ServeKeepsNamed(fsm, Run(fsm, t, es[..n]), es[n].req, es[n].tok, es[n].o);
    }
  }

  // ---- no later than the k-th command ----------------------------------------

  /** While the root stays up, a child controller passes on every command the
      root does. */
  lemma {:induction false} ChildLaunchesToo(fsm: Fsm, t: Tree, es: seq<Event>, i: nat) returns (own: seq<Event>)
    requires PlainNames(fsm) && t.Ctrl? && Named(t)
    requires i < |t.kids| && t.kids[i].Ctrl?
    requires !IsDown(Run(fsm, t, es).st)
    ensures i < |Run(fsm, t, es).kids| && Run(fsm, t, es).kids[i] == Run(fsm, t.kids[i], own)
    ensures Launched(fsm, t.kids[i], own) == Launched(fsm, t, es)
    decreases |es|
  {
    if es == [] {
      return [];
    }
    var n := |es| - 1;
    var before := Run(fsm, t, es[..n]);
    var e := es[n];
    if IsDown(before.st) {
      DownServesNothing(fsm, before, e.req, e.tok, e.o);
      ViewKeepsDown(before, Run(fsm, t, es));
    }
    var sofar := ChildLaunchesToo(fsm, t, es[..n], i);
    RunKeepsNamed(fsm, t, es[..n]);
    var kid := before.kids[i];
    var after := Run(fsm, t, es);
    if after.kids == before.kids {
      if Launches(fsm, before, e) {
        LaunchReachesChild(fsm, before, e, i);
        var data := Begin(fsm, before.st, e.req.name, e.o.argsOk, e.o.pre).data;
        own := sofar + [Event(FsmRequest(e.req.name, data), e.tok, KidOracle(e.o, i))];
        assert own[..|own| - 1] == sofar;
      } else {
        own := sofar;
      }
      return;
    }
    KidsAfter(fsm, before, e.req, e.tok, e.o);
    var req' := PassedOn(fsm, before, e.req, e.o);
    var ko := KidOracle(e.o, i);
    if Launches(fsm, before, e) {
      LaunchReachesChild(fsm, before, e, i);
    }
    if ko.link.RequestLost? {
      own := sofar;
    } else {
      own := sofar + [Event(req', e.tok, ko)];
      assert own[..|own| - 1] == sofar;
    }
  }

  /** A root still up after passing a command on had success from each child. */
  lemma LaunchReachesChild(fsm: Fsm, t: Tree, e: Event, i: nat)
    requires PlainNames(fsm) && t.Ctrl? && HyphenFree(t.st.op) && Launches(fsm, t, e)
    requires i < |t.kids| && t.kids[i].Ctrl?
    requires !IsDown(Serve(fsm, t, e.req, e.tok, e.o).0.st)
    ensures var data := Begin(fsm, t.st, e.req.name, e.o.argsOk, e.o.pre).data;
            var ke := Event(FsmRequest(e.req.name, data), e.tok, KidOracle(e.o, i));
            && ke.o.link == Up && Launches(fsm, t.kids[i], ke)
            && Serve(fsm, t, e.req, e.tok, e.o).0.kids[i] == Serve(fsm, t.kids[i], ke.req, ke.tok, ke.o).0
  {
    var data := Begin(fsm, t.st, e.req.name, e.o.argsOk, e.o.pre).data;
    var ko := KidOracle(e.o, i);
    if !Succeeded(Call(fsm, t.kids[i], FsmRequest(e.req.name, data), e.tok, ko).1) {
      FailureMarksParent(fsm, t, e, i);
      assert false;
    }
    assert ko.link == Up;
    SuccessMeansLaunched(fsm, t.kids[i], e.req.name, data, e.tok, ko);
  }

  lemma SuccessMeansLaunched(fsm: Fsm, t: Tree, name: string, data: string, tok: Token, o: Oracle)
    requires t.Ctrl? && Succeeded(Serve(fsm, t, FsmRequest(name, data), tok, o).1)
    ensures Launches(fsm, t, Event(FsmRequest(name, data), tok, o))
  {
  }

  /** If a controller k levels below the root is down, the root passes on at
      most k further FSM commands, and after the k-th it is down itself. */
  lemma {:induction false} ClimbsInTime(fsm: Fsm, t: Tree, es: seq<Event>, q: seq<nat>)
    requires PlainNames(fsm) && Named(t)
    requires HasPath(t, q) && IsDown(At(t, q).st)
    ensures Launched(fsm, t, es) <= |q|
    ensures Launched(fsm, t, es) == |q| ==> IsDown(Run(fsm, t, es).st)
    decreases |q|, |es|
  {
    if !IsDown(Run(fsm, t, es).st) {
      if q == [] {
        DownRunsNothing(fsm, t, es);
      } else {
        var own := ChildLaunchesToo(fsm, t, es, q[0]);
        ClimbsInTime(fsm, t.kids[q[0]], own, q[1..]);
      }
    } else if es != [] {
      ClimbsInTime(fsm, t, es[..|es| - 1], q);
    }
  }

  /** The command reaches the child at the end of the path, a controller or an
      application, which does not answer it with success. */
  predicate FailsAt(fsm: Fsm, t: Tree, e: Event, q: seq<nat>) {
    && q != [] && t.Ctrl? && q[0] < |t.kids| && Launches(fsm, t, e)
    && var ke := Event(FsmRequest(e.req.name, Begin(fsm, t.st, e.req.name, e.o.argsOk, e.o.pre).data), e.tok, KidOracle(e.o, q[0]));
       if |q| == 1 then !Succeeded(Call(fsm, t.kids[q[0]], ke.req, ke.tok, ke.o).1)
       else !ke.o.link.RequestLost? && FailsAt(fsm, t.kids[q[0]], ke, q[1..])
  }

  lemma {:induction false} FailureMarksParentAt(fsm: Fsm, t: Tree, e: Event, q: seq<nat>)
    requires PlainNames(fsm) && Named(t) && FailsAt(fsm, t, e, q)
    ensures var after := Serve(fsm, t, e.req, e.tok, e.o).0;
            HasPath(after, q[..|q| - 1]) && IsDown(At(after, q[..|q| - 1]).st)
  {
    if |q| == 1 {
      FailureMarksParent(fsm, t, e, q[0]);
    } else {
      var kid, ko := t.kids[q[0]], KidOracle(e.o, q[0]);
      var ke := Event(FsmRequest(e.req.name, Begin(fsm, t.st, e.req.name, e.o.argsOk, e.o.pre).data), e.tok, ko);
      FailureMarksParentAt(fsm, kid, ke, q[1..]);
      assert Serve(fsm, t, e.req, e.tok, e.o).0.kids[q[0]] == Call(fsm, kid, ke.req, ke.tok, ko).0 == Serve(fsm, kid, ke.req, ke.tok, ko).0;
      assert q[..|q| - 1][1..] == q[1..][..|q[1..]| - 1];
    }
  }

  /** After a failure anywhere below, the ancestor k levels above it is down no
      later than the k-th command it passes on, counting the failing one, and
      passes on no more. */
  lemma FailureClimbs(fsm: Fsm, t: Tree, e: Event, q: seq<nat>, es: seq<Event>)
    requires PlainNames(fsm) && Named(t) && FailsAt(fsm, t, e, q)
    ensures var after := Serve(fsm, t, e.req, e.tok, e.o).0;
            && 1 + Launched(fsm, after, es) <= |q|
            && (1 + Launched(fsm, after, es) == |q| ==> IsDown(Run(fsm, after, es).st))
  {
    FailureMarksParentAt(fsm, t, e, q);
    ServeKeepsNamed(fsm, t, e.req, e.tok, e.o);
    ClimbsInTime(fsm, Serve(fsm, t, e.req, e.tok, e.o).0, es, q[..|q| - 1]);
  }

  // ---- and not before, if all else goes well ----------------------------------

  /** Fit, in the given state, under the given token. */
  predicate Healthy(t: Tree, tok: Token, op: string) {
    match t
    case Leaf(app) => app.cs.included && InStep(t, op)
    case Ctrl(st, actor, kids) =>
      && st == NodeState(op, op, true, false) && actor == tok
      && forall i :: 0 <= i < |kids| ==> Healthy(kids[i], tok, op)
  }

  /** Healthy but for one controller that is down, at the end of the path. */
  predicate Frontier(t: Tree, tok: Token, op: string, q: seq<nat>) {
    && t.Ctrl?
    && if q == [] then IsDown(t.st)
       else
         && t.st == NodeState(op, op, true, false) && t.actor == tok
         && q[0] < |t.kids| && Frontier(t.kids[q[0]], tok, op, q[1..])
         && forall i :: 0 <= i < |t.kids| && i != q[0] ==> Healthy(t.kids[i], tok, op)
  }

  /** Nothing outside the code goes wrong: links work, arguments decode,
      callbacks return, applications answer with success at once. */
  predicate Smooth(t: Tree, o: Oracle) {
    match t
    case Leaf(app) => o.events == AppEvents([], Posted(true), [Reply(app.wire.next, Success)])
    case Ctrl(_, _, kids) =>
      && o.link == Up && o.argsOk && o.pre.Ok? && o.post.Ok?
      && forall i :: 0 <= i < |kids| ==> Smooth(kids[i], KidOracle(o, i))
  }

  predicate Enabled(fsm: Fsm, op: string, name: string) {
    fsm.GetTransition(name).Some? && fsm.CanExecute(op, fsm.GetTransition(name).value)
  }

  function Next(fsm: Fsm, op: string, name: string): string
    requires Enabled(fsm, op, name)
  {
    Destination(op, fsm.GetTransition(name).value)
  }

  lemma HealthyLeafMoves(fsm: Fsm, t: Tree, tok: Token, op: string, name: string, data: string, o: Oracle)
    requires t.Leaf? && Healthy(t, tok, op) && Smooth(t, o) && Enabled(fsm, op, name)
    ensures var (t', r) := Call(fsm, t, FsmRequest(name, data), tok, o);
            Succeeded(r) && Healthy(t', tok, Next(fsm, op, name))
  {
    var w := t.app.wire;
    var posted := Post(w, name, Posted(true));
    var reply := Reply(w.next, Success);
    assert [reply][1..] == [];
    assert posted.owed == {w.next};
    assert Arrive(posted, reply) == posted.(owed := {}, queue := [reply]);
    assert ArriveAll(posted, [reply]) == ArriveAll(Arrive(posted, reply), []) == Arrive(posted, reply);
    fsm.GetTransitionFinds(name);
    fsm.GetDestinationIff(op, fsm.GetTransition(name).value);
    assert fsm.GetTransition(name).value.Same(fsm.GetTransition(name).value);
  }

  lemma {:induction false} HealthyMoves(fsm: Fsm, t: Tree, tok: Token, op: string, name: string, data: string, o: Oracle)
    requires Healthy(t, tok, op) && Smooth(t, o) && Enabled(fsm, op, name)
    ensures var (t', r) := Call(fsm, t, FsmRequest(name, data), tok, o);
            Succeeded(r) && Healthy(t', tok, Next(fsm, op, name))
  {
    match t
    case Leaf(_) => HealthyLeafMoves(fsm, t, tok, op, name, data, o);
    case Ctrl(_, _, kids) =>
      var start := Begin(fsm, t.st, name, o.argsOk, o.pre);
      forall i | 0 <= i < |kids|
        ensures var (k', r) := Call(fsm, kids[i], FsmRequest(name, start.data), tok, KidOracle(o, i));
                Succeeded(r) && Healthy(k', tok, Next(fsm, op, name))
      {
        HealthyMoves(fsm, kids[i], tok, op, name, start.data, KidOracle(o, i));
      }
      assert Judge(Answers(CallAll(fsm, kids, FsmRequest(name, start.data), tok, o))) == Clean;
  }

  /** One smooth command brings the frontier one level up, and the root
      nevertheless reports success. */
  lemma {:induction false} FrontierClimbs(fsm: Fsm, t: Tree, tok: Token, op: string, q: seq<nat>, name: string, data: string, o: Oracle)
    requires Frontier(t, tok, op, q) && q != [] && Smooth(t, o) && Enabled(fsm, op, name)
    ensures var (t', r) := Serve(fsm, t, FsmRequest(name, data), tok, o);
            Succeeded(r) && Frontier(t', tok, Next(fsm, op, name), q[..|q| - 1])
  {
    var start := Begin(fsm, t.st, name, o.argsOk, o.pre);
    var req := FsmRequest(name, start.data);
    var rs := CallAll(fsm, t.kids, req, tok, o);
    forall i | 0 <= i < |t.kids| && i != q[0]
      ensures Succeeded(rs[i].1) && Healthy(rs[i].0, tok, Next(fsm, op, name))
    {
      HealthyMoves(fsm, t.kids[i], tok, op, name, start.data, KidOracle(o, i));
    }
    var kid := t.kids[q[0]];
    var ko := KidOracle(o, q[0]);
    assert Smooth(kid, ko);
    assert kid.Ctrl? && ko.link == Up;
    assert rs[q[0]] == Call(fsm, kid, req, tok, ko) == Serve(fsm, kid, req, tok, ko);
    if |q| == 1 {
      DownServesNothing(fsm, kid, req, tok, KidOracle(o, q[0]));
      FsmAnswersAreReadable(fsm, kid, name, start.data, tok, KidOracle(o, q[0]));
      assert Answers(rs)[q[0]] in Answers(rs);
      assert Judge(Answers(rs)) == Faulty;
    } else {
      FrontierClimbs(fsm, kid, tok, op, q[1..], name, start.data, KidOracle(o, q[0]));
      assert q[1..][..|q[1..]| - 1] == q[..|q| - 1][1..];
      assert Judge(Answers(rs)) == Clean;
    }
  }

  /** Nobody answers an FSM command with success and no FSM flag. */
  lemma FsmAnswersAreReadable(fsm: Fsm, t: Tree, name: string, data: string, tok: Token, o: Oracle)
    ensures !Unreadable(Call(fsm, t, FsmRequest(name, data), tok, o).1)
  {
  }

  /** Every request is an enabled FSM command by whoever is in control, and smooth. */
  predicate SmoothRun(fsm: Fsm, t: Tree, tok: Token, es: seq<Event>)
    requires t.Ctrl?
  {
    es == [] ||
    var n := |es| - 1;
    var before := Run(fsm, t, es[..n]);
    && SmoothRun(fsm, t, tok, es[..n])
    && es[n].req.FsmRequest? && es[n].tok == tok
    && Smooth(before, es[n].o) && Enabled(fsm, before.st.op, es[n].req.name)
  }

  /** The root itself is down exactly when there is no way left to climb. */
  lemma FrontierIsDownAtEnd(t: Tree, tok: Token, op: string, q: seq<nat>)
    requires Frontier(t, tok, op, q)
    ensures IsDown(t.st) <==> q == []
    ensures q != [] ==> op == t.st.op
  {
  }

  lemma SmoothStep(fsm: Fsm, t: Tree, tok: Token, q: seq<nat>, e: Event)
    requires t.Ctrl? && Frontier(t, tok, t.st.op, q) && q != []
    requires e.req.FsmRequest? && e.tok == tok && Smooth(t, e.o) && Enabled(fsm, t.st.op, e.req.name)
    ensures var after := Serve(fsm, t, e.req, e.tok, e.o).0;
            && Frontier(after, tok, after.st.op, q[..|q| - 1]) && Launches(fsm, t, e)
            && (IsDown(after.st) <==> |q| == 1)
  {
    FrontierClimbs(fsm, t, tok, t.st.op, q, e.req.name, e.req.data, e.o);
    var after := Serve(fsm, t, e.req, e.tok, e.o).0;
    FrontierIsDownAtEnd(after, tok, Next(fsm, t.st.op, e.req.name), q[..|q| - 1]);
  }

  lemma {:induction false} FrontierAfter(fsm: Fsm, t: Tree, tok: Token, op: string, q: seq<nat>, es: seq<Event>)
    requires Frontier(t, tok, op, q) && |es| <= |q| && SmoothRun(fsm, t, tok, es)
    ensures var end := Run(fsm, t, es);
            Frontier(end, tok, end.st.op, q[..|q| - |es|]) && Launched(fsm, t, es) == |es|
  {
    if es == [] {
      assert q[..|q|] == q;
      FrontierIsDownAtEnd(t, tok, op, q);
    } else {
      var n := |es| - 1;
      var path := q[..|q| - n];
      FrontierAfter(fsm, t, tok, op, q, es[..n]);
      SmoothStep(fsm, Run(fsm, t, es[..n]), tok, path, es[n]);
      assert path[..|path| - 1] == q[..|q| - |es|];
    }
  }

  /** With all else going well, after j commands the failure has climbed exactly
      j levels: an ancestor k levels above it goes down with the k-th command
      and not before. */
  lemma ClimbsExactly(fsm: Fsm, t: Tree, tok: Token, op: string, q: seq<nat>, es: seq<Event>)
    requires Frontier(t, tok, op, q) && |es| <= |q| && SmoothRun(fsm, t, tok, es)
    ensures var end := Run(fsm, t, es);
            && Frontier(end, tok, end.st.op, q[..|q| - |es|])
            && Launched(fsm, t, es) == |es|
            && (IsDown(end.st) <==> |es| == |q|)
  {
    FrontierAfter(fsm, t, tok, op, q, es);
    var end := Run(fsm, t, es);
    FrontierIsDownAtEnd(end, tok, end.st.op, q[..|q| - |es|]);
  }

  // ---- counting the failing command --------------------------------------------------

  /** Fit, except perhaps for the child at the end of the path. */
  predicate HealthyOutside(t: Tree, tok: Token, op: string, q: seq<nat>) {
    && q != [] && t.Ctrl? && t.st == NodeState(op, op, true, false) && t.actor == tok
    && q[0] < |t.kids|
    && (forall i :: 0 <= i < |t.kids| && i != q[0] ==> Healthy(t.kids[i], tok, op))
    && (|q| > 1 ==> HealthyOutside(t.kids[q[0]], tok, op, q[1..]))
  }

  /** Nothing outside the code goes wrong, except perhaps with that child. */
  predicate SmoothOutside(t: Tree, o: Oracle, q: seq<nat>) {
    && q != [] && t.Ctrl? && o.link == Up && o.argsOk && o.pre.Ok? && o.post.Ok?
    && q[0] < |t.kids|
    && (forall i :: 0 <= i < |t.kids| && i != q[0] ==> Smooth(t.kids[i], KidOracle(o, i)))
    && (|q| > 1 ==> SmoothOutside(t.kids[q[0]], KidOracle(o, q[0]), q[1..]))
  }

  lemma {:induction false} HealthyIsHealthyOutside(t: Tree, tok: Token, op: string, q: seq<nat>)
    requires q != [] && HasPath(t, q[..|q| - 1]) && q[|q| - 1] < |At(t, q[..|q| - 1]).kids|
    requires Healthy(t, tok, op)
    ensures HealthyOutside(t, tok, op, q)
  {
    if |q| > 1 {
      assert q[..|q| - 1][1..] == q[1..][..|q[1..]| - 1];
      HealthyIsHealthyOutside(t.kids[q[0]], tok, op, q[1..]);
    }
  }

  /** Whether one of the children fails or not, the other children move. */
  lemma OthersMove(fsm: Fsm, t: Tree, tok: Token, op: string, q: seq<nat>, name: string, data: string, o: Oracle)
    requires HealthyOutside(t, tok, op, q) && SmoothOutside(t, o, q) && Enabled(fsm, op, name)
    ensures var rs := CallAll(fsm, t.kids, FsmRequest(name, data), tok, o);
            && (forall i :: 0 <= i < |t.kids| && i != q[0] ==> Healthy(After(rs)[i], tok, Next(fsm, op, name)))
            && Judge(Answers(rs)) == if Succeeded(Call(fsm, t.kids[q[0]], FsmRequest(name, data), tok, KidOracle(o, q[0])).1)
                                     then Clean else Faulty
  {
    var rs := CallAll(fsm, t.kids, FsmRequest(name, data), tok, o);
    forall i | 0 <= i < |t.kids| && i != q[0]
      ensures Succeeded(Answers(rs)[i]) && Healthy(After(rs)[i], tok, Next(fsm, op, name))
    {
      HealthyMoves(fsm, t.kids[i], tok, op, name, data, KidOracle(o, i));
    }
    FsmAnswersAreReadable(fsm, t.kids[q[0]], name, data, tok, KidOracle(o, q[0]));
    OneAnswerDecides(Answers(rs), q[0]);
  }

  /** A healthy controller for which nothing goes wrong but its children's
      answers moves, reports success, and is in error if one of them failed. */
  lemma MovesAnyway(fsm: Fsm, t: Tree, tok: Token, op: string, e: Event, data: string)
    requires t.Ctrl? && t.st == NodeState(op, op, true, false) && t.actor == tok == e.tok
    requires e.req.FsmRequest? && Enabled(fsm, op, e.req.name) && e.o.argsOk && e.o.pre == Ok(data) && e.o.post.Ok?
    requires Judge(Answers(CallAll(fsm, t.kids, FsmRequest(e.req.name, data), tok, e.o))) != Undecodable
    ensures var rs := CallAll(fsm, t.kids, FsmRequest(e.req.name, data), tok, e.o);
            var next := Next(fsm, op, e.req.name);
            var (t', r) := Serve(fsm, t, e.req, tok, e.o);
            Succeeded(r) && t' == Ctrl(NodeState(next, next, true, Judge(Answers(rs)) == Faulty), tok, After(rs))
  {
  }

  /** The verdict over one child's answer when all the others succeed. */
  lemma OneAnswerDecides(rs: seq<Response>, i: nat)
    requires i < |rs| && !Unreadable(rs[i]) && forall k :: 0 <= k < |rs| && k != i ==> Succeeded(rs[k])
    ensures Judge(rs) == if Succeeded(rs[i]) then Clean else Faulty
  {
    assert rs[i] in rs;
  }

  /** The failing command leaves the parent of the failing child down and every
      controller above it up, and the root reports success. */
  lemma {:induction false} FailureMakesFrontier(fsm: Fsm, t: Tree, tok: Token, op: string, q: seq<nat>, e: Event)
    requires HealthyOutside(t, tok, op, q) && SmoothOutside(t, e.o, q)
    requires e.req.FsmRequest? && e.tok == tok && Enabled(fsm, op, e.req.name) && FailsAt(fsm, t, e, q)
    ensures var (t', r) := Serve(fsm, t, e.req, tok, e.o);
            Succeeded(r) && Frontier(t', tok, Next(fsm, op, e.req.name), q[..|q| - 1])
  {
    var data, next := e.o.pre.value, Next(fsm, op, e.req.name);
    var kid, ke := t.kids[q[0]], Event(FsmRequest(e.req.name, data), tok, KidOracle(e.o, q[0]));
    OthersMove(fsm, t, tok, op, q, e.req.name, data, e.o);
    MovesAnyway(fsm, t, tok, op, e, data);
    FailsBelow(fsm, t, e, q, data);
    if |q| > 1 {
      FailureMakesFrontier(fsm, kid, tok, op, q[1..], ke);
      assert q[1..][..|q[1..]| - 1] == q[..|q| - 1][1..];
      assert Call(fsm, kid, ke.req, tok, ke.o) == Serve(fsm, kid, ke.req, tok, ke.o);
    }
  }

  lemma FailsBelow(fsm: Fsm, t: Tree, e: Event, q: seq<nat>, data: string)
    requires FailsAt(fsm, t, e, q) && e.o.pre == Ok(data)
    ensures var ke := Event(FsmRequest(e.req.name, data), e.tok, KidOracle(e.o, q[0]));
            if |q| == 1 then !Succeeded(Call(fsm, t.kids[q[0]], ke.req, ke.tok, ke.o).1)
            else FailsAt(fsm, t.kids[q[0]], ke, q[1..])
  {
  }

  /** With all else going well, the ancestor k levels above a failing child goes
      down with the k-th command it passes on, counting the failing one, and not
      before; and it reports success to the failing command itself. */
  lemma FailureClimbsExactly(fsm: Fsm, t: Tree, tok: Token, op: string, q: seq<nat>, e: Event, es: seq<Event>)
    requires HealthyOutside(t, tok, op, q) && SmoothOutside(t, e.o, q)
    requires e.req.FsmRequest? && e.tok == tok && Enabled(fsm, op, e.req.name) && FailsAt(fsm, t, e, q)
    requires 1 + |es| <= |q| && SmoothRun(fsm, Serve(fsm, t, e.req, tok, e.o).0, tok, es)
    ensures Succeeded(Serve(fsm, t, e.req, tok, e.o).1)
    ensures Launched(fsm, t, [e] + es) == 1 + |es|
    ensures IsDown(Run(fsm, t, [e] + es).st) <==> 1 + |es| == |q|
  {
    FailureMakesFrontier(fsm, t, tok, op, q, e);
    ClimbsExactly(fsm, Serve(fsm, t, e.req, tok, e.o).0, tok, Next(fsm, op, e.req.name), q[..|q| - 1], es);
    RunFrom(fsm, t, e, es);
  }

  lemma {:induction false} RunFrom(fsm: Fsm, t: Tree, e: Event, es: seq<Event>)
    requires t.Ctrl?
    ensures var after := Serve(fsm, t, e.req, e.tok, e.o).0;
            && Run(fsm, t, [e] + es) == Run(fsm, after, es)
            && Launched(fsm, t, [e] + es) == Launched(fsm, after, es) + if Launches(fsm, t, e) then 1 else 0
    decreases |es|
  {
    var all := [e] + es;
    if es == [] {
      assert all[..0] == [] && all[0] == e;
    } else {
      RunFrom(fsm, t, e, es[..|es| - 1]);
      assert all[..|all| - 1] == [e] + es[..|es| - 1];
    }
  }
}
