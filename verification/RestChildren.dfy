/** A child that is an application reached over REST: `ClientSideState`,
    `AppCommander` and `RESTAPIChildNode`. The application answers through a
    reply queue, possibly long after the command timed out. */
module RestChildren {
  import opened Exceptions
  import opened Fsm
  import opened Protocol
  import opened Wrappers

  datatype ClientState = ClientState(executing: bool, state: string, included: bool, errored: bool)

  datatype Body = Success | Failure | Malformed

  /** `id` tells which posted command the application is answering; the code
      never sees it and pairs replies with commands by position only. */
  datatype Reply = Reply(id: nat, body: Body)

  /** The traffic with one application. `next` numbers the commands posted,
      `owed` holds those the application received and has yet to answer, and
      `taken` pairs, for every reply taken from the queue, the command awaiting
      an answer with the command that was answered. */
  datatype Wire = Wire(next: nat, owed: set<nat>, queue: seq<Reply>, sentCmd: Option<string>, taken: seq<(int, nat)>)

  datatype App = App(cs: ClientState, wire: Wire)

  /** What becomes of posting a command. A refusal by HTTP status is not looked
      at, so a posted command may go undelivered without an error; and one whose
      posting fails may have been delivered all the same. */
  datatype Sending = Posted(delivered: bool) | ConnectionError(delivered: bool) | OtherError(delivered: bool) | BadData

  /** Replies that come in before the command is posted and while it is awaited. */
  datatype AppEvents = AppEvents(before: seq<Reply>, sending: Sending, after: seq<Reply>)

  const FreshWire := Wire(0, {}, [], None, [])

  /** A reply reaches the queue if one is owed: at most one per command. */
  function Arrive(w: Wire, r: Reply): Wire {
    if r.id in w.owed then w.(owed := w.owed - {r.id}, queue := w.queue + [r]) else w
  }

  function ArriveAll(w: Wire, rs: seq<Reply>): (after: Wire)
    ensures after.next == w.next && after.taken == w.taken && after.sentCmd == w.sentCmd
    decreases rs
  {
    if rs == [] then w else ArriveAll(Arrive(w, rs[0]), rs[1..])
  }

  function Post(w: Wire, name: string, s: Sending): Wire {
    var delivered := match s case Posted(d) => d case ConnectionError(d) => d case OtherError(d) => d case BadData => false;
    w.(next := w.next + 1,
       owed := if delivered then w.owed + {w.next} else w.owed,
       sentCmd := if s.Posted? then Some(name) else w.sentCmd)
  }

  function SendingError(s: Sending): Option<Exn> {
    match s
    case Posted(_) => None
    case ConnectionError(_) => Some(Drunc)
    case _ => Some(Unhandled)
  }

  /** From the moment the command is sent: the oldest reply queued is taken for
      the answer to the last command posted. */
  function TakeReply(a: App, exit: string): (App, Result<Response, Exn>) {
    var w, broken := a.wire, a.cs.(errored := true);
    if w.queue == [] then (App(broken, w), Err(Drunc))
    else
      var r := w.queue[0];
      var after := w.(queue := w.queue[1..], sentCmd := None, taken := w.taken + [(w.next - 1, r.id)]);
      match r.body
      case Malformed => (App(broken, after), Err(Unhandled))
      case Failure => (App(broken, after), Ok(FsmAnswer(FsmFailed, [])))
      case Success => (App(a.cs.(executing := false, state := exit), after), Ok(FsmAnswer(FsmExecuted, [])))
  }

  /** `propagate_fsm_command`. */
  function FsmOnApp(fsm: Fsm, a: App, name: string, ev: AppEvents): (App, Result<Response, Exn>) {
    match fsm.GetTransition(name)
    case None => (a, Err(Unhandled))
    case Some(t) =>
      var exit := fsm.GetDestination(a.cs.state, t);
      var busy := a.cs.(executing := true);
      var broken := busy.(errored := true);
      if exit == None || ev.sending.BadData? then (App(broken, a.wire), Err(Unhandled))
      else
        var posted := Post(ArriveAll(a.wire, ev.before), name, ev.sending);
        match SendingError(ev.sending)
        case Some(e) => (App(broken, posted), Err(e))
        case None => TakeReply(App(busy, ArriveAll(posted, ev.after)), exit.value)
  }

  /** `propagate_command`: an excluded child looks for the name of an FSM
      command in whatever it is sent, and there is none in other requests. */
  function CommandOnApp(fsm: Fsm, a: App, req: Request, ev: AppEvents): (App, Result<Response, Exn>) {
    match req
    case Exclude => (a.(cs := a.cs.(included := false)), Ok(Response(ExecutedSuccessfully, None, [])))
    case Include => (a.(cs := a.cs.(included := true)), Ok(Response(ExecutedSuccessfully, None, [])))
    case FsmRequest(name, _) =>
      if a.cs.included then FsmOnApp(fsm, a, name, ev) else (a, Ok(FsmAnswer(FsmNotExecutedExcluded, [])))
    case _ => (a, if a.cs.included then Ok(Response(NotExecutedNotImplemented, None, [])) else Err(Unhandled))
  }

  /** What becomes of the child and what it answers, case by case. A command of
      an unknown name leaves the child alone. One that cannot be sent, or to
      which no readable reply comes, leaves it executing and in error with an
      exception; a reply of failure does so with an answer; only a reply of
      success ends the execution, at the destination. */
  lemma ExchangeMeans(fsm: Fsm, a: App, name: string, ev: AppEvents)
    ensures var (a', r) := FsmOnApp(fsm, a, name, ev);
            var found := fsm.GetTransition(name);
            var exit := if found.Some? then fsm.GetDestination(a.cs.state, found.value) else None;
            var queue := ArriveAll(Post(ArriveAll(a.wire, ev.before), name, ev.sending), ev.after).queue;
            var stuck := ClientState(true, a.cs.state, a.cs.included, true);
            if found == None then a' == a && r == Err(Unhandled)
            else if exit == None || ev.sending.BadData? then a' == App(stuck, a.wire) && r == Err(Unhandled)
            else if ev.sending.ConnectionError? then a'.cs == stuck && r == Err(Drunc)
            else if ev.sending.OtherError? then a'.cs == stuck && r == Err(Unhandled)
            else if queue == [] then a'.cs == stuck && r == Err(Drunc)
            else if queue[0].body.Malformed? then a'.cs == stuck && r == Err(Unhandled)
            else if queue[0].body.Failure? then
              a'.cs == stuck && r == Ok(Response(ExecutedSuccessfully, Some(FsmFailed), []))
            else
              && a'.cs == ClientState(false, exit.value, a.cs.included, a.cs.errored)
              && r == Ok(Response(ExecutedSuccessfully, Some(FsmExecuted), []))
  {
  }

  /** The traffic: a reply awaited is taken from the front of the queue, and
      whatever was queued behind it stays; otherwise nothing is taken. */
  lemma ExchangeTakesFirst(fsm: Fsm, a: App, name: string, ev: AppEvents)
    requires fsm.GetTransition(name).Some? && fsm.GetDestination(a.cs.state, fsm.GetTransition(name).value).Some?
    ensures var w := ArriveAll(Post(ArriveAll(a.wire, ev.before), name, ev.sending), ev.after);
            var after := FsmOnApp(fsm, a, name, ev).0.wire;
            if ev.sending.BadData? then after == a.wire
            else if !ev.sending.Posted? then after == Post(ArriveAll(a.wire, ev.before), name, ev.sending)
            else if w.queue == [] then after == w
            else
              && w.queue == [w.queue[0]] + after.queue && after.sentCmd == None
              && after.taken == a.wire.taken + [(a.wire.next, w.queue[0].id)]
              && after.owed == w.owed && after.next == a.wire.next + 1
  {
  }

  /** Posting numbers the command; the application owes a reply to it exactly if
      it was delivered. */
  lemma PostMeans(w: Wire, name: string, s: Sending)
    ensures var after := Post(w, name, s);
            && after.next == w.next + 1 && after.queue == w.queue && after.taken == w.taken
            && after.owed == (if !s.BadData? && s.delivered then w.owed + {w.next} else w.owed)
            && after.sentCmd == (if s.Posted? then Some(name) else w.sentCmd)
  {
  }

  /** The other requests: only the inclusion of the child can change. */
  lemma OtherRequestsMean(fsm: Fsm, a: App, req: Request, ev: AppEvents)
    requires !req.FsmRequest?
    ensures var (a', r) := CommandOnApp(fsm, a, req, ev);
            && a' == App(a.cs.(included := if req.Include? then true else if req.Exclude? then false else a.cs.included), a.wire)
            && r == if req.Include? || req.Exclude? then Ok(Response(ExecutedSuccessfully, None, []))
                    else if a.cs.included then Ok(Response(NotExecutedNotImplemented, None, []))
                    else Err(Unhandled)
  {
  }

  lemma ExcludedTakesNoCommand(fsm: Fsm, a: App, name: string, data: string, ev: AppEvents)
    ensures CommandOnApp(fsm, a, FsmRequest(name, data), ev) ==
            if a.cs.included then FsmOnApp(fsm, a, name, ev)
            else (a, Ok(Response(ExecutedSuccessfully, Some(FsmNotExecutedExcluded), [])))
  {
  }

  // ---- pairing replies with commands ---------------------------------------

  /** Nothing owed, nothing queued, nothing awaited. */
  predicate Quiet(w: Wire) {
    w.owed == {} && w.queue == [] && w.sentCmd == None
  }

  /** No reply from before can still be taken. */
  predicate Clear(w: Wire) {
    w.owed == {} && w.queue == []
  }

  /** Every reply ever taken answered the command it was taken for. */
  predicate Paired(w: Wire) {
    forall k :: 0 <= k < |w.taken| ==> w.taken[k].0 == w.taken[k].1
  }

  lemma {:induction false} ArriveAllWhenNoneOwed(w: Wire, rs: seq<Reply>)
    requires w.owed == {}
    ensures ArriveAll(w, rs) == w
  {
    if rs != [] {
      ArriveAllWhenNoneOwed(w, rs[1..]);
    }
  }

  /** With one command owed, at most its own reply comes in. */
  lemma {:induction false} ArriveAllWhenOneOwed(w: Wire, rs: seq<Reply>, id: nat)
    requires w.owed == {id} && w.queue == []
    ensures var after := ArriveAll(w, rs);
            || after == w
            || exists r :: r in rs && r.id == id && after == w.(owed := {}, queue := [r])
  {
    if rs != [] {
      if rs[0].id == id {
        assert Arrive(w, rs[0]) == w.(owed := {}, queue := [rs[0]]);
        ArriveAllWhenNoneOwed(Arrive(w, rs[0]), rs[1..]);
      } else {
        ArriveAllWhenOneOwed(w, rs[1..], id);
      }
    }
  }

  /** Reply matching, one command: with nothing left from before the reply taken, if any, is
      the answer to the command just posted; and whenever the child reports
      success the wire is quiet again, the application has left the command's
      entry state for its destination, and exactly one more reply was taken. */
  lemma QuietExchange(fsm: Fsm, a: App, name: string, ev: AppEvents)
    requires Clear(a.wire)
    ensures var (a', r) := FsmOnApp(fsm, a, name, ev);
            && (Paired(a.wire) ==> Paired(a'.wire))
            && (r.Ok? && Succeeded(r.value) ==>
                  && Quiet(a'.wire) && a'.wire.taken == a.wire.taken + [(a.wire.next, a.wire.next)]
                  && fsm.GetTransition(name).Some?
                  && fsm.GetDestination(a.cs.state, fsm.GetTransition(name).value) == Some(a'.cs.state)
                  && !a'.cs.executing && a'.cs.errored == a.cs.errored)
  {
    ArriveAllWhenNoneOwed(a.wire, ev.before);
    var posted := Post(a.wire, name, ev.sending);
    if posted.owed == {} {
      ArriveAllWhenNoneOwed(posted, ev.after);
    } else {
      assert posted.owed == {a.wire.next};
      ArriveAllWhenOneOwed(posted, ev.after, a.wire.next);
    }
  }

  /** The pairing is not guarded by the code itself: a late reply to a command
      that timed out is taken for the answer to the next one, which the
      application has not even seen. */
  lemma LateReplyIsMistaken(fsm: Fsm, a: App, name: string)
    requires a.cs.included && a.wire == FreshWire
    requires fsm.GetTransition(name).Some? && fsm.GetDestination(a.cs.state, fsm.GetTransition(name).value).Some?
    ensures var (late, timeout) := FsmOnApp(fsm, a, name, AppEvents([], Posted(true), []));
            var (end, answer) := FsmOnApp(fsm, late, name, AppEvents([Reply(0, Success)], Posted(false), []));
            timeout == Err(Drunc) && end.wire.taken == [(1, 0)] && answer.Ok? && Succeeded(answer.value)
  {
    var posted := Post(FreshWire, name, Posted(true));
    assert [Reply(0, Success)][1..] == [];
    assert ArriveAll(Arrive(posted, Reply(0, Success)), []) == Arrive(posted, Reply(0, Success));
    assert ArriveAll(posted, [Reply(0, Success)]) == Arrive(posted, Reply(0, Success));
  }

  /** Every command owed or answered has been posted. */
  predicate Numbered(w: Wire) {
    && (forall id :: id in w.owed ==> id < w.next)
    && (forall k :: 0 <= k < |w.queue| ==> w.queue[k].id < w.next)
  }

  /** With a reply owed or queued from before, some exchange takes it for the
      answer to the new command. */
  lemma StrayExchange(fsm: Fsm, a: App, name: string) returns (ev: AppEvents)
    requires Numbered(a.wire) && !Clear(a.wire)
    requires fsm.GetTransition(name).Some? && fsm.GetDestination(a.cs.state, fsm.GetTransition(name).value).Some?
    ensures !Paired(FsmOnApp(fsm, a, name, ev).0.wire)
  {
    ev := AppEvents([], Posted(false), []);
    if a.wire.queue == [] {
      var id :| id in a.wire.owed;
      ev := ev.(before := [Reply(id, Success)]);
      assert ev.before[1..] == [];
      assert ArriveAll(a.wire, ev.before) == ArriveAll(Arrive(a.wire, ev.before[0]), []) == Arrive(a.wire, ev.before[0]);
    }
    var w := FsmOnApp(fsm, a, name, ev).0.wire;
    assert w.taken[|w.taken| - 1].0 == a.wire.next > w.taken[|w.taken| - 1].1;
  }

  /** Exactly when a command is safe from earlier ones: whatever happens, the
      reply taken for it is its own if and only if nothing is owed or queued. */
  lemma PairedIffClear(fsm: Fsm, a: App, name: string)
    requires Paired(a.wire) && Numbered(a.wire)
    requires fsm.GetTransition(name).Some? && fsm.GetDestination(a.cs.state, fsm.GetTransition(name).value).Some?
    ensures (forall ev :: Paired(FsmOnApp(fsm, a, name, ev).0.wire)) <==> Clear(a.wire)
  {
    if Clear(a.wire) {
      forall ev ensures Paired(FsmOnApp(fsm, a, name, ev).0.wire) {
        QuietExchange(fsm, a, name, ev);
      }
    } else {
      var ev := StrayExchange(fsm, a, name);
    }
  }

  lemma ArriveKeepsNumbered(w: Wire, r: Reply)
    requires Numbered(w)
    ensures Numbered(Arrive(w, r)) && Arrive(w, r).next == w.next
  {
    var after := Arrive(w, r);
    forall k | 0 <= k < |after.queue| ensures after.queue[k].id < w.next {
      assert k < |w.queue| ==> after.queue[k] == w.queue[k];
    }
  }

  lemma {:induction false} ArriveAllKeepsNumbered(w: Wire, rs: seq<Reply>)
    requires Numbered(w)
    ensures Numbered(ArriveAll(w, rs))
    decreases rs
  {
    if rs != [] {
      ArriveKeepsNumbered(w, rs[0]);
      ArriveAllKeepsNumbered(Arrive(w, rs[0]), rs[1..]);
    }
  }

  /** A fresh wire is so numbered, and every exchange keeps it so. */
  lemma ExchangeKeepsNumbered(fsm: Fsm, a: App, name: string, ev: AppEvents)
    requires Numbered(a.wire)
    ensures Numbered(FreshWire)
    ensures Numbered(FsmOnApp(fsm, a, name, ev).0.wire)
  {
    ArriveAllKeepsNumbered(a.wire, ev.before);
    var posted := Post(ArriveAll(a.wire, ev.before), name, ev.sending);
    ArriveAllKeepsNumbered(posted, ev.after);
  }

  // ---- the classes ---------------------------------------------------------

  class ClientSideState {
    var executingCommand: bool
    var assumedOperationalState: string
    var included: bool
    var errored: bool

    function State(): ClientState
      reads this
    {
      ClientState(executingCommand, assumedOperationalState, included, errored)
    }

    constructor (initialState: string)
      ensures State() == ClientState(false, initialState, true, false)
    {
      executingCommand, assumedOperationalState, included, errored := false, initialState, true, false;
    }

    method ExecutingCommandMark()
      modifies this
      ensures State() == old(State()).(executing := true)
    { executingCommand := true; }

    method EndCommandExecutionMark()
      modifies this
      ensures State() == old(State()).(executing := false)
    { executingCommand := false; }

    method NewOperationalState(s: string)
      modifies this
      ensures State() == old(State()).(state := s)
    { assumedOperationalState := s; }

    method SetIncluded(value: bool)
      modifies this
      ensures State() == old(State()).(included := value)
    { included := value; }

    method ToError()
      modifies this
      ensures State() == old(State()).(errored := true)
    { errored := true; }
  }

  class AppCommander {
    var responseQueue: seq<Reply>
    var sentCmd: Option<string>
    /** The application's side of the traffic. */
    var next: nat
    var owed: set<nat>
    ghost var taken: seq<(int, nat)>

    ghost function Traffic(): Wire
      reads this
    {
      Wire(next, owed, responseQueue, sentCmd, taken)
    }

    constructor ()
      ensures Traffic() == FreshWire
    {
      responseQueue, sentCmd := [], None;
      next, owed, taken := 0, {}, [];
    }

    method Notify(r: Reply)
      modifies `responseQueue
      ensures responseQueue == old(responseQueue) + [r]
    {
      responseQueue := responseQueue + [r];
    }

    /** The application answers, the dispatcher notifies. */
    method Receive(rs: seq<Reply>)
      modifies `responseQueue, `owed
      ensures Traffic() == ArriveAll(old(Traffic()), rs)
    {
      var k := 0;
      while k < |rs|
        invariant 0 <= k <= |rs|
        invariant ArriveAll(Traffic(), rs[k..]) == ArriveAll(old(Traffic()), rs)
      {
        assert rs[k..][0] == rs[k] && rs[k..][1..] == rs[k + 1..];
        ghost var was := Traffic();
        if rs[k].id in owed {
          Notify(rs[k]);
          owed := owed - {rs[k].id};
        }
        assert Traffic() == Arrive(was, rs[k]);
        k := k + 1;
      }
      assert rs[k..] == [];
    }

    method SendCommand(name: string, s: Sending) returns (raised: Option<Exn>)
      requires !s.BadData?
      modifies this
      ensures Traffic() == Post(old(Traffic()), name, s)
      ensures raised == SendingError(s)
      ensures raised == if s.Posted? then None else if s.ConnectionError? then Some(Drunc) else Some(Unhandled)
      ensures sentCmd == if s.Posted? then Some(name) else old(sentCmd)
      ensures owed == (if s.delivered then old(owed) + {old(next)} else old(owed)) && next == old(next) + 1
      ensures responseQueue == old(responseQueue)
    {
      match s {
        case Posted(delivered) =>
          owed := if delivered then owed + {next} else owed;
          sentCmd := Some(name);
          raised := None;
        case ConnectionError(delivered) =>
          owed := if delivered then owed + {next} else owed;
          raised := Some(Drunc);
        case OtherError(delivered) =>
          owed := if delivered then owed + {next} else owed;
          raised := Some(Unhandled);
      }
      next := next + 1;
    }

    /** Both an empty queue (no timeout given) and a timeout raise a DruncException. */
    method CheckResponse() returns (r: Result<Reply, Exn>)
      modifies this
      ensures old(responseQueue) == [] ==> r == Err(Drunc) && Traffic() == old(Traffic())
      ensures old(responseQueue) != [] ==>
                && r == Ok(old(responseQueue)[0])
                && Traffic() == old(Traffic()).(queue := old(responseQueue)[1..], sentCmd := None,
                                                taken := old(taken) + [(old(next) - 1, old(responseQueue)[0].id)])
    {
      if responseQueue == [] {
        return Err(Drunc);
      }
      r := Ok(responseQueue[0]);
      taken := taken + [(next - 1, responseQueue[0].id)];
      responseQueue := responseQueue[1..];
      sentCmd := None;
    }
  }

  class RestApiChildNode {
    const state: ClientSideState
    const commander: AppCommander
    const fsm: Fsm

    ghost function Abs(): App
      reads this, state, commander
    {
      App(state.State(), commander.Traffic())
    }

    constructor (fsm: Fsm)
      ensures this.fsm == fsm && fresh(state) && fresh(commander)
      ensures Abs() == App(ClientState(false, "initial", true, false), FreshWire)
    {
      this.fsm := fsm;
      state := new ClientSideState("initial");
      commander := new AppCommander();
    }

    method PropagateCommand(req: Request, ev: AppEvents)
      returns (r: Result<Response, Exn>)
      modifies state, commander
      ensures (Abs(), r) == CommandOnApp(fsm, old(Abs()), req, ev)
      ensures req.Include? || req.Exclude? ==>
                && state.State() == old(state.State()).(included := req.Include?)
                && commander.Traffic() == old(commander.Traffic())
                && r == Ok(Response(ExecutedSuccessfully, None, []))
    {
      match req {
        case Exclude =>
          state.SetIncluded(false);
          return Ok(Response(ExecutedSuccessfully, None, []));
        case Include =>
          state.SetIncluded(true);
          return Ok(Response(ExecutedSuccessfully, None, []));
        case FsmRequest(name, _) =>
          if !state.included {
            return Ok(FsmAnswer(FsmNotExecutedExcluded, []));
          }
          r := PropagateFsmCommand(name, ev);
        case _ =>
          if !state.included {
            return Err(Unhandled);
          }
          return Ok(Response(NotExecutedNotImplemented, None, []));
      }
    }

    method PropagateFsmCommand(name: string, ev: AppEvents)
      returns (r: Result<Response, Exn>)
      modifies state, commander
      ensures (Abs(), r) == FsmOnApp(fsm, old(Abs()), name, ev)
    {
      var entryState := state.assumedOperationalState;
      var found := fsm.GetTransition(name);
      if found == None {
        return Err(Unhandled);
      }
      var exitState := fsm.GetDestination(entryState, found.value);
      state.ExecutingCommandMark();
      if exitState == None || ev.sending.BadData? {
        state.ToError();
        return Err(Unhandled);
      }
      commander.Receive(ev.before);
      var raised := commander.SendCommand(name, ev.sending);
      if raised.Some? {
        state.ToError();
        return Err(raised.value);
      }
      commander.Receive(ev.after);
      r := AwaitReply(exitState.value);
    }

    /** The rest of it, once the command is sent. */
    method AwaitReply(exitState: string) returns (r: Result<Response, Exn>)
      modifies state, commander
      ensures (Abs(), r) == TakeReply(old(Abs()), exitState)
      ensures var queue := old(commander.responseQueue);
              if queue != [] && queue[0].body.Success? then
                state.State() == old(state.State()).(executing := false, state := exitState)
              else state.State() == old(state.State()).(errored := true)
    {
      var got := commander.CheckResponse();
      if got.Err? {
        state.ToError();
        return Err(got.error);
      }
      match got.value.body {
        case Malformed =>
          state.ToError();
          return Err(Unhandled);
        case Failure =>
          state.ToError();
          return Ok(FsmAnswer(FsmFailed, []));
        case Success =>
          state.EndCommandExecutionMark();
          state.NewOperationalState(exitState);
          return Ok(FsmAnswer(FsmExecuted, []));
      }
    }
  }
}
