/** Who may command what: taking control covers a whole subtree, and only the
    holder of a controller's token moves it. */
module Control {
  import opened Exceptions
  import opened Fsm
  import opened Protocol
  import opened RestChildren
  import opened Trees
  import opened Wrappers

  /** Every controller of the subtree holds the token. */
  predicate Held(t: Tree, tok: Token) {
    t.Ctrl? ==> t.actor == tok && forall i :: 0 <= i < |t.kids| ==> Held(t.kids[i], tok)
  }

  /** All links to child controllers work and no application is excluded. */
  predicate Reachable(t: Tree, o: Oracle) {
    match t
    case Leaf(app) => app.cs.included
    case Ctrl(_, _, kids) => o.link == Up && forall i :: 0 <= i < |kids| ==> Reachable(kids[i], KidOracle(o, i))
  }

  lemma {:induction false} TookControlMeansHeld(fsm: Fsm, t: Tree, tok: Token, o: Oracle)
    requires TookControl(Call(fsm, t, TakeControl, tok, o).1)
    ensures Held(Call(fsm, t, TakeControl, tok, o).0, tok)
    decreases t, 1
  {
    if t.Ctrl? {
      TakeControlCovers(fsm, t, tok, o);
    }
  }

  /** Control covers the tree: when taking control is answered with success,
      every controller in the subtree holds the token. */
  lemma {:induction false} TakeControlCovers(fsm: Fsm, t: Tree, tok: Token, o: Oracle)
    requires t.Ctrl? && Serve(fsm, t, TakeControl, tok, o).1.flag == ExecutedSuccessfully
    ensures Held(Serve(fsm, t, TakeControl, tok, o).0, tok)
    decreases t, 0
  {
    var rs := CallAll(fsm, t.kids, TakeControl, tok, o);
    forall i | 0 <= i < |t.kids| ensures Held(rs[i].0, tok) {
      assert Answers(rs)[i] in Answers(rs);
      TookControlMeansHeld(fsm, t.kids[i], tok, KidOracle(o, i));
    }
  }

  lemma {:induction false} TookControlIff(fsm: Fsm, t: Tree, tok: Token, o: Oracle)
    ensures TookControl(Call(fsm, t, TakeControl, tok, o).1) <==> Reachable(t, o)
    decreases t, 1
  {
    if t.Ctrl? {
      TakeControlSucceedsIff(fsm, t, tok, o);
    }
  }

  /** Exactly when it is so answered. An excluded application spoils the answer:
      it looks for the name of an FSM command in a request that has none. */
  lemma {:induction false} TakeControlSucceedsIff(fsm: Fsm, t: Tree, tok: Token, o: Oracle)
    requires t.Ctrl?
    ensures Serve(fsm, t, TakeControl, tok, o).1.flag == ExecutedSuccessfully <==>
              forall i :: 0 <= i < |t.kids| ==> Reachable(t.kids[i], KidOracle(o, i))
    decreases t, 0
  {
    var answers := Answers(CallAll(fsm, t.kids, TakeControl, tok, o));
    forall i | 0 <= i < |t.kids| ensures TookControl(answers[i]) <==> Reachable(t.kids[i], KidOracle(o, i)) {
      TookControlIff(fsm, t.kids[i], tok, KidOracle(o, i));
    }
    if i :| 0 <= i < |t.kids| && !Reachable(t.kids[i], KidOracle(o, i)) {
      assert answers[i] in answers;
    }
  }

  /** An excluded application makes the answer a failure although the only
      controller there is has taken the token. */
  lemma ExcludedApplicationSpoilsAnswer(fsm: Fsm, st: NodeState, before: Token, tok: Token, o: Oracle)
    ensures var t := Ctrl(st, before, [Leaf(App(ClientState(false, "initial", false, false), FreshWire))]);
            var (t', r) := Serve(fsm, t, TakeControl, tok, o);
            r.flag == Failed && Held(t', tok)
  {
    var t := Ctrl(st, before, [Leaf(App(ClientState(false, "initial", false, false), FreshWire))]);
    assert !Reachable(t.kids[0], KidOracle(o, 0));
    assert Serve(fsm, t, TakeControl, tok, o).0.kids[0] == Call(fsm, t.kids[0], TakeControl, tok, KidOracle(o, 0)).0;
    TakeControlSucceedsIff(fsm, t, tok, o);
  }

  // ---- keeping control ---------------------------------------------------------

  lemma {:induction false} ServeKeepsHeld(fsm: Fsm, t: Tree, req: Request, tok': Token, tok: Token, o: Oracle)
    requires t.Ctrl? && Held(t, tok) && !req.TakeControl? && !req.SurrenderControl?
    ensures Held(Serve(fsm, t, req, tok', o).0, tok)
  {
    var t' := Serve(fsm, t, req, tok', o).0;
    if t'.kids != t.kids {
      KidsAfter(fsm, t, req, tok', o);
      var req' := PassedOn(fsm, t, req, o);
      forall i | 0 <= i < |t.kids| ensures Held(t'.kids[i], tok) {
        if t.kids[i].Ctrl? {
          ServeKeepsHeld(fsm, t.kids[i], req', tok', tok, KidOracle(o, i));
        }
      }
    }
  }

  /** The token stays with every controller until the next take or surrender. */
  lemma {:induction false} RunKeepsHeld(fsm: Fsm, t: Tree, es: seq<Event>, tok: Token)
    requires t.Ctrl? && Held(t, tok)
    requires forall k :: 0 <= k < |es| ==> !es[k].req.TakeControl? && !es[k].req.SurrenderControl?
    ensures Held(Run(fsm, t, es), tok)
  {
    if es != [] {
      var n := |es| - 1;
      RunKeepsHeld(fsm, t, es[..n], tok);
      ServeKeepsHeld(fsm, Run(fsm, t, es[..n]), es[n].req, es[n].tok, tok, es[n].o);
    }
  }

  /** No response in the report, at any depth, refuses for want of control. */
  predicate NoneRefused(r: Response) {
    r.flag != NotExecutedNotInControl && forall i :: 0 <= i < |r.children| ==> NoneRefused(r.children[i])
  }

  lemma {:induction false} HeldMeansNoneRefused(fsm: Fsm, t: Tree, name: string, data: string, tok: Token, o: Oracle)
    requires Held(t, tok)
    ensures NoneRefused(Call(fsm, t, FsmRequest(name, data), tok, o).1)
  {
    if t.Ctrl? && o.link == Up {
      var start := Begin(fsm, t.st, name, o.argsOk, o.pre);
      if start.Launched? {
        var rs := CallAll(fsm, t.kids, FsmRequest(name, start.data), tok, o);
        forall i | 0 <= i < |t.kids| ensures NoneRefused(Answers(rs)[i]) {
          HeldMeansNoneRefused(fsm, t.kids[i], name, start.data, tok, KidOracle(o, i));
        }
      }
    }
  }

  /** From a successful take of control until the next take or surrender, no
      FSM command bearing that token is refused as not in control anywhere. */
  lemma ControlLasts(fsm: Fsm, t: Tree, tok: Token, o: Oracle, es: seq<Event>, name: string, data: string, o': Oracle)
    requires t.Ctrl? && Serve(fsm, t, TakeControl, tok, o).1.flag == ExecutedSuccessfully
    requires forall k :: 0 <= k < |es| ==> !es[k].req.TakeControl? && !es[k].req.SurrenderControl?
    ensures var now := Run(fsm, Serve(fsm, t, TakeControl, tok, o).0, es);
            NoneRefused(Serve(fsm, now, FsmRequest(name, data), tok, o').1)
  {
    TakeControlCovers(fsm, t, tok, o);
    var taken := Serve(fsm, t, TakeControl, tok, o).0;
    RunKeepsHeld(fsm, taken, es, tok);
    HeldMeansNoneRefused(fsm, Run(fsm, taken, es), name, data, tok, o'.(link := Up));
    assert Serve(fsm, Run(fsm, taken, es), FsmRequest(name, data), tok, o')
        == Call(fsm, Run(fsm, taken, es), FsmRequest(name, data), tok, o'.(link := Up)) by {
      LinkPlaysNoPart(fsm, Run(fsm, taken, es), FsmRequest(name, data), tok, o');
    }
  }

  lemma LinkPlaysNoPart(fsm: Fsm, t: Tree, req: Request, tok: Token, o: Oracle)
    requires t.Ctrl?
    ensures Serve(fsm, t, req, tok, o) == Serve(fsm, t, req, tok, o.(link := Up))
  {
    var o' := o.(link := Up);
    forall q: Request ensures CallAll(fsm, t.kids, q, tok, o) == CallAll(fsm, t.kids, q, tok, o') {
      assert forall i: nat :: KidOracle(o, i) == KidOracle(o', i);
    }
  }

  lemma MovesOnlyForHolder(fsm: Fsm, t: Tree, req: Request, tok: Token, o: Oracle)
    requires t.Ctrl? && Serve(fsm, t, req, tok, o).0.st.op != t.st.op
    ensures req.FsmRequest? && tok == t.actor
    ensures exists tr :: tr in fsm.transitions && tr.name == req.name && fsm.CanExecute(t.st.op, tr)
                         && Serve(fsm, t, req, tok, o).0.st.op == tr.destination
  {
    if req.FsmRequest? {
      ServeIsExecute(fsm, t, req.name, req.data, tok, o);
      MovesOnlyAlongTransitions(fsm, t.st, tok == t.actor, req.name, o.argsOk, o.pre, o.post,
                                d => FsmRequest(req.name, d), q => Answers(CallAll(fsm, t.kids, q, tok, o)));
    }
  }

  /** Anywhere in the tree, at any request in any run: a controller's
      operational state changes only on an FSM command bearing the token that
      controller holds, along a transition of that name enabled in its state. */
  lemma OnlyTheHolderMoves(fsm: Fsm, t: Tree, es: seq<Event>, e: Event, p: seq<nat>)
    requires t.Ctrl? && HasPath(Run(fsm, t, es), p)
    ensures HasPath(Run(fsm, t, es + [e]), p)
    ensures var before, after := At(Run(fsm, t, es), p), At(Run(fsm, t, es + [e]), p);
            after.st.op != before.st.op ==>
              && e.req.FsmRequest? && e.tok == before.actor
              && exists tr :: tr in fsm.transitions && tr.name == e.req.name
                              && fsm.CanExecute(before.st.op, tr) && after.st.op == tr.destination
  {
    assert (es + [e])[..|es|] == es;
    var served := NodeServes(fsm, Run(fsm, t, es), e.req, e.tok, e.o, p);
    if served.Some? {
      var before := At(Run(fsm, t, es), p);
      if At(Run(fsm, t, es + [e]), p).st.op != before.st.op {
        MovesOnlyForHolder(fsm, before, served.value.req, e.tok, served.value.o);
      }
    }
  }

  // ---- excluding -----------------------------------------------------------------

  /** Every link to a child controller works. */
  predicate Linked(t: Tree, o: Oracle) {
    t.Ctrl? ==> o.link == Up && forall i :: 0 <= i < |t.kids| ==> Linked(t.kids[i], KidOracle(o, i))
  }

  predicate AllExcluded(t: Tree) {
    match t
    case Leaf(app) => !app.cs.included
    case Ctrl(st, _, kids) => !st.included && forall i :: 0 <= i < |kids| ==> AllExcluded(kids[i])
  }

  /** Excluding a controller excludes all its children too, down the tree, also
      where some were excluded already and answer with an exception. */
  lemma {:induction false} ExcludeCovers(fsm: Fsm, t: Tree, tok: Token, o: Oracle)
    requires Held(t, tok) && Linked(t, o)
    ensures AllExcluded(Call(fsm, t, Exclude, tok, o).0)
  {
    if t.Ctrl? {
      var rs := CallAll(fsm, t.kids, Exclude, tok, o);
      assert o.link == Up && t.actor == tok;
      assert Call(fsm, t, Exclude, tok, o) == Serve(fsm, t, Exclude, tok, o);
      assert Serve(fsm, t, Exclude, tok, o).0.kids == After(rs);
      forall i | 0 <= i < |t.kids| ensures AllExcluded(After(rs)[i]) {
        ExcludeCovers(fsm, t.kids[i], tok, KidOracle(o, i));
      }
    }
  }

  predicate AllIncluded(t: Tree) {
    match t
    case Leaf(app) => app.cs.included
    case Ctrl(st, _, kids) => st.included && forall i :: 0 <= i < |kids| ==> AllIncluded(kids[i])
  }

  /** Including a controller includes everything below it too, also where some
      were included already and answer with an exception. */
  lemma {:induction false} IncludeCovers(fsm: Fsm, t: Tree, tok: Token, o: Oracle)
    requires Held(t, tok) && Linked(t, o)
    ensures AllIncluded(Call(fsm, t, Include, tok, o).0)
  {
    if t.Ctrl? {
      var rs := CallAll(fsm, t.kids, Include, tok, o);
      assert o.link == Up && t.actor == tok;
      assert Call(fsm, t, Include, tok, o) == Serve(fsm, t, Include, tok, o);
      assert Serve(fsm, t, Include, tok, o).0.kids == After(rs);
      forall i | 0 <= i < |t.kids| ensures AllIncluded(After(rs)[i]) {
        IncludeCovers(fsm, t.kids[i], tok, KidOracle(o, i));
      }
    }
  }

  /** A controller included or excluded already answers with an exception. */
  lemma SecondTimeRaises(fsm: Fsm, t: Tree, tok: Token, o: Oracle)
    requires t.Ctrl? && t.actor == tok
    ensures Serve(fsm, t, Include, tok, o).1.flag == (if t.st.included then DruncExceptionThrown else ExecutedSuccessfully)
    ensures Serve(fsm, t, Exclude, tok, o).1.flag == (if t.st.included then ExecutedSuccessfully else DruncExceptionThrown)
  {
  }

  /** Surrendering gives up the token of the controller asked and no other's, and
      is answered as a failure; without the token it is refused. */
  lemma SurrenderIsLocal(fsm: Fsm, t: Tree, tok: Token, o: Oracle)
    requires t.Ctrl?
    ensures var (t', r) := Serve(fsm, t, SurrenderControl, tok, o);
            && t'.st == t.st && t'.kids == t.kids
            && t'.actor == (if tok == t.actor then Token("", "") else t.actor)
            && r == Response(if tok == t.actor then Failed else NotExecutedNotInControl, None, [])
  {
  }

  /** An excluded controller executes no FSM command and passes none on. */
  lemma ExcludedServesNoFsm(fsm: Fsm, t: Tree, name: string, data: string, tok: Token, o: Oracle)
    requires t.Ctrl? && !t.st.included
    ensures Serve(fsm, t, FsmRequest(name, data), tok, o).0 == t
  {
  }
}
