/** A tree of controllers with applications at its leaves, one process each, and
    what one request entering at the root does to all of it. Each controller
    does what `Protocol` says; everything outside the code (callbacks, links,
    applications) is settled by an oracle, and statements hold for all oracles. */
module Trees {
  import opened Exceptions
  import opened Fsm
  import opened Protocol
  import opened RestChildren
  import opened Wrappers

  datatype Tree =
    | Ctrl(st: NodeState, actor: Token, kids: seq<Tree>)
    | Leaf(app: App)

  /** The gRPC call to a child controller. */
  datatype Link = Up | RequestLost(exn: Exn) | ReplyLost(exn: Exn)

  datatype Oracle = Oracle(link: Link, argsOk: bool, pre: Result<string, Exn>, post: Result<string, Exn>,
                           events: AppEvents, kids: seq<Oracle>)

  const Silent := Oracle(Up, true, Ok(""), Ok(""), AppEvents([], ConnectionError(false), []), [])

  function KidOracle(o: Oracle, i: nat): Oracle {
    if i < |o.kids| then o.kids[i] else Silent
  }

  /** What a parent's thread sees of a child, exceptions already caught. */
  function Call(fsm: Fsm, t: Tree, req: Request, tok: Token, o: Oracle): (Tree, Response)
    decreases t, 1
  {
    match t
    case Leaf(app) =>
      var (app', r) := CommandOnApp(fsm, app, req, o.events);
      (Leaf(app'), Broadcasted(r))
    case Ctrl(_, _, _) =>
      match o.link
      case Up => Serve(fsm, t, req, tok, o)
      case RequestLost(e) => (t, Thrown(e))
      case ReplyLost(e) => (Serve(fsm, t, req, tok, o).0, Thrown(e))
  }

  /** All children, each through its own thread. The threads touch disjoint
      subtrees; `Propagation` shows their order to be immaterial. */
  function CallAll(fsm: Fsm, kids: seq<Tree>, req: Request, tok: Token, o: Oracle): (rs: seq<(Tree, Response)>)
    ensures |rs| == |kids|
    decreases kids, 0
  {
    seq(|kids|, i requires 0 <= i < |kids| => Call(fsm, kids[i], req, tok, KidOracle(o, i)))
  }

  function After(rs: seq<(Tree, Response)>): seq<Tree> {
    seq(|rs|, i requires 0 <= i < |rs| => rs[i].0)
  }

  function Answers(rs: seq<(Tree, Response)>): seq<Response> {
    seq(|rs|, i requires 0 <= i < |rs| => rs[i].1)
  }

  /** One request served by one controller, decorators included. */
  function Serve(fsm: Fsm, t: Tree, req: Request, tok: Token, o: Oracle): (Tree, Response)
    requires t.Ctrl?
    decreases t, 0
  {
    match req
    case FsmRequest(name, _) =>
      if tok != t.actor then (t, NotInControl)
      else (match Begin(fsm, t.st, name, o.argsOk, o.pre)
            case Declined(why) => (t, FsmAnswer(why, []))
            case Broke(after, e) => (t.(st := after), Thrown(e))
            case Launched(after, tr, data) =>
              var rs := CallAll(fsm, t.kids, FsmRequest(name, data), tok, o);
              var (end, e) := Finish(after, tr, Judge(Answers(rs)), o.post);
              (Ctrl(end, t.actor, After(rs)),
               match e case None => FsmAnswer(FsmExecuted, Answers(rs)) case Some(x) => Thrown(x)))
    case Include =>
      if tok != t.actor then (t, NotInControl)
      else
        var rs := CallAll(fsm, t.kids, req, tok, o);
        (match IncludeNode(t.st)
         case Ok(st) => (Ctrl(st, t.actor, After(rs)), Response(ExecutedSuccessfully, None, Answers(rs)))
         case Err(e) => (Ctrl(t.st, t.actor, After(rs)), Thrown(e)))
    case Exclude =>
      if tok != t.actor then (t, NotInControl)
      else
        var rs := CallAll(fsm, t.kids, req, tok, o);
        (match ExcludeNode(t.st)
         case Ok(st) => (Ctrl(st, t.actor, After(rs)), Response(ExecutedSuccessfully, None, Answers(rs)))
         case Err(e) => (Ctrl(t.st, t.actor, After(rs)), Thrown(e)))
    case TakeControl =>
      var rs := CallAll(fsm, t.kids, req, tok, o);
      (Ctrl(t.st, tok, After(rs)), ControlAnswer(Answers(rs)))
    case SurrenderControl =>
      if tok != t.actor then (t, NotInControl)
      else (t.(actor := NoToken), Response(Failed, None, []))
  }

  /** What a controller that passes a request on sends its children. */
  function PassedOn(fsm: Fsm, t: Tree, req: Request, o: Oracle): Request
    requires t.Ctrl?
  {
    if req.FsmRequest? && Begin(fsm, t.st, req.name, o.argsOk, o.pre).Launched? then
      FsmRequest(req.name, Begin(fsm, t.st, req.name, o.argsOk, o.pre).data)
    else req
  }

  /** Serving a request leaves all children alone or calls each of them. */
  lemma KidsAfter(fsm: Fsm, t: Tree, req: Request, tok: Token, o: Oracle)
    requires t.Ctrl?
    ensures var t' := Serve(fsm, t, req, tok, o).0;
            t'.kids == t.kids || t'.kids == After(CallAll(fsm, t.kids, PassedOn(fsm, t, req, o), tok, o))
  {
  }

  /** What the link to a child controller does: a request lost leaves the child
      as it was; a reply lost does not, though the parent sees an exception. */
  lemma LinkMeans(fsm: Fsm, t: Tree, req: Request, tok: Token, o: Oracle)
    requires t.Ctrl?
    ensures var (t', r) := Call(fsm, t, req, tok, o);
            match o.link
            case Up => (t', r) == Serve(fsm, t, req, tok, o)
            case RequestLost(e) =>
              t' == t && r == Response(if e == Drunc then DruncExceptionThrown else UnhandledExceptionThrown, None, [])
            case ReplyLost(e) =>
              && t' == Serve(fsm, t, req, tok, o).0
              && r == Response(if e == Drunc then DruncExceptionThrown else UnhandledExceptionThrown, None, [])
  {
  }

  datatype Event = Event(req: Request, tok: Token, o: Oracle)

  /** Requests reach the root one at a time. */
  function Run(fsm: Fsm, t: Tree, es: seq<Event>): (t': Tree)
    requires t.Ctrl?
    ensures t'.Ctrl?
  {
    if es == [] then t
    else
      var e := es[|es| - 1];
      Serve(fsm, Run(fsm, t, es[..|es| - 1]), e.req, e.tok, e.o).0
  }

  /** In the tree a controller does with an FSM command what the class
      `Controller` is proved to do, its children's answers being those of the
      subtrees, which change only if they are sent the command. */
  lemma ServeIsExecute(fsm: Fsm, t: Tree, name: string, data: string, tok: Token, o: Oracle)
    requires t.Ctrl?
    ensures var x := Execute(fsm, t.st, tok == t.actor, name, o.argsOk, o.pre, o.post,
                             d => FsmRequest(name, d), q => Answers(CallAll(fsm, t.kids, q, tok, o)));
            var (t', r) := Serve(fsm, t, FsmRequest(name, data), tok, o);
            && t'.st == x.after && t'.actor == t.actor && r == x.response
            && t'.kids == (if x.sent.Some? then After(CallAll(fsm, t.kids, x.sent.value, tok, o)) else t.kids)
            && (x.sent.Some? ==> x.sent.value.FsmRequest? && x.sent.value.name == name)
  {
  }

  /** And so it does with the other commands. */
  lemma ServeIsTheOthers(fsm: Fsm, t: Tree, req: Request, tok: Token, o: Oracle)
    requires t.Ctrl? && !req.FsmRequest?
    ensures var rs := CallAll(fsm, t.kids, req, tok, o);
            var (t', r) := Serve(fsm, t, req, tok, o);
            match req
            case Include =>
              && (t'.st, r) == Included(t.st, tok == t.actor, Answers(rs)) && t'.actor == t.actor
              && t'.kids == if tok == t.actor then After(rs) else t.kids
            case Exclude =>
              && (t'.st, r) == Excluded(t.st, tok == t.actor, Answers(rs)) && t'.actor == t.actor
              && t'.kids == if tok == t.actor then After(rs) else t.kids
            case TakeControl => t' == Ctrl(t.st, tok, After(rs)) && r == ControlAnswer(Answers(rs))
            case SurrenderControl => (t'.actor, r) == Surrendered(t.actor, tok) && t'.st == t.st && t'.kids == t.kids
            case FsmRequest(_, _) => true
  {
  }

  /** Whether the root passes an FSM command on to its children. */
  predicate Launches(fsm: Fsm, t: Tree, e: Event)
    requires t.Ctrl?
  {
    e.req.FsmRequest? && e.tok == t.actor && Begin(fsm, t.st, e.req.name, e.o.argsOk, e.o.pre).Launched?
  }

  // ---- nodes by path -------------------------------------------------------

  /** The path leads to a controller. */
  predicate HasPath(t: Tree, p: seq<nat>) {
    t.Ctrl? && (p == [] || (p[0] < |t.kids| && HasPath(t.kids[p[0]], p[1..])))
  }

  function At(t: Tree, p: seq<nat>): (n: Tree)
    requires HasPath(t, p)
    ensures n.Ctrl?
  {
    if p == [] then t else At(t.kids[p[0]], p[1..])
  }

  /** Any controller in the tree is either left alone by a request at the root
      or serves a request with the same token itself. */
  lemma {:induction false} NodeServes(fsm: Fsm, t: Tree, req: Request, tok: Token, o: Oracle, p: seq<nat>)
      returns (served: Option<Event>)
    requires HasPath(t, p)
    ensures var t' := Serve(fsm, t, req, tok, o).0;
            && HasPath(t', p)
            && match served
               case None => At(t', p) == At(t, p)
               case Some(e) =>
                 e.tok == tok && (e.req == req || (req.FsmRequest? && e.req.FsmRequest? && e.req.name == req.name))
                 && At(t', p) == Serve(fsm, At(t, p), e.req, tok, e.o).0
    decreases p
  {
    if p == [] {
      return Some(Event(req, tok, o));
    }
    var t' := Serve(fsm, t, req, tok, o).0;
    var i := p[0];
    if t'.kids == t.kids {
      return None;
    }
    KidsAfter(fsm, t, req, tok, o);
    var req' := PassedOn(fsm, t, req, o);
    var ko := KidOracle(o, i);
    assert t'.kids[i] == Call(fsm, t.kids[i], req', tok, ko).0;
    if ko.link.RequestLost? {
      return None;
    }
    served := NodeServes(fsm, t.kids[i], req', tok, ko, p[1..]);
  }

  /** Over a whole run, each controller lives through a run of its own. */
  lemma {:induction false} NodeRuns(fsm: Fsm, t: Tree, es: seq<Event>, p: seq<nat>) returns (own: seq<Event>)
    requires HasPath(t, p)
    ensures HasPath(Run(fsm, t, es), p)
    ensures At(Run(fsm, t, es), p) == Run(fsm, At(t, p), own)
    ensures |own| <= |es|
    decreases |es|
  {
    if es == [] {
      return [];
    }
    var n := |es| - 1;
    var before := NodeRuns(fsm, t, es[..n], p);
    var served := NodeServes(fsm, Run(fsm, t, es[..n]), es[n].req, es[n].tok, es[n].o, p);
    match served {
      case None => own := before;
      case Some(e) =>
        own := before + [e];
        assert own[..|own| - 1] == before;
    }
  }
}
