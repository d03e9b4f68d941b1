/** `ResponseListener` and `ResponseDispatcher`: replies posted by applications
    wait in one queue; a dispatcher thread hands each to the commander of the
    application it names. */
module Dispatcher {
  import opened Wrappers

  /** `app` is the reply's 'appname' field, None when it has none. */
  datatype Posting = Reply(app: Option<string>, body: string) | Stop

  /** The thread runs until it meets STOP, or dies: of a reply without a name,
      or of one naming an unregistered application, the warning about which goes
      to a logger that does not exist. */
  datatype Thread = Running | Stopped | Dead

  /** `handlers`: the registered applications and what each one's commander has
      been handed. `taken`: what the thread has taken off the queue. */
  datatype State = State(queue: seq<Posting>, handlers: map<string, seq<Posting>>, thread: Thread, taken: seq<Posting>)

  datatype Move = Posts(r: Posting) | Dispatches

  function Start(apps: set<string>): State {
    State([], map app | app in apps :: [], Running, [])
  }

  /** `notify`. */
  function HandOver(s: State, r: Posting): State
    requires r.Reply?
  {
    match r.app
    case None => s.(thread := Dead)
    case Some(app) =>
      if app in s.handlers then s.(handlers := s.handlers[app := s.handlers[app] + [r]]) else s.(thread := Dead)
  }

  /** The web handler (or `stop`) queues a posting; the dispatcher's loop takes
      one, waiting while there is none. */
  function Step(s: State, m: Move): State {
    match m
    case Posts(r) => s.(queue := s.queue + [r])
    case Dispatches =>
      if s.thread != Running || s.queue == [] then s
      else
        var r := s.queue[0];
        var s' := s.(queue := s.queue[1..], taken := s.taken + [r]);
        if r == Stop then s'.(thread := Stopped) else HandOver(s', r)
  }

  function Run(apps: set<string>, ms: seq<Move>): State {
    if ms == [] then Start(apps) else Step(Run(apps, ms[..|ms| - 1]), ms[|ms| - 1])
  }

  class ResponseListener {
    var queue: seq<Posting>
    var handlers: map<string, seq<Posting>>
    var thread: Thread
    ghost var taken: seq<Posting>

    ghost function Abs(): State
      reads this
    {
      State(queue, handlers, thread, taken)
    }

    constructor ()
      ensures Abs() == Start({})
    {
      queue, handlers, thread, taken := [], map[], Running, [];
    }

    method Register(app: string) returns (ok: bool)
      modifies `handlers
      ensures ok <==> app !in old(handlers)
      ensures handlers == if ok then old(handlers)[app := []] else old(handlers)
    {
      if app in handlers {
        return false;
      }
      handlers := handlers[app := []];
      return true;
    }

    method Post(r: Posting)
      modifies `queue
      ensures Abs() == Step(old(Abs()), Posts(r)) && queue == old(queue) + [r]
    {
      queue := queue + [r];
    }

    method Notify(r: Posting)
      requires r.Reply?
      modifies `handlers, `thread
      ensures Abs() == HandOver(old(Abs()), r)
      ensures if r.app.Some? && r.app.value in old(handlers) then
                thread == old(thread) && handlers == old(handlers)[r.app.value := old(handlers)[r.app.value] + [r]]
              else thread == Dead && handlers == old(handlers)
    {
      if r.app == None || r.app.value !in handlers {
        thread := Dead;
        return;
      }
      handlers := handlers[r.app.value := handlers[r.app.value] + [r]];
    }

    /** The dispatcher thread, for as long as it finds postings and is not ended. */
    method DispatchAll()
      modifies this
      ensures exists n: nat :: Abs() == Iterate(old(Abs()), n)
      ensures thread != Running || queue == []
    {
      ghost var n: nat := 0;
      while thread == Running && queue != []
        invariant Abs() == Iterate(old(Abs()), n)
        decreases |queue|
      {
        var r := queue[0];
        queue := queue[1..];
        taken := taken + [r];
        if r == Stop {
          thread := Stopped;
        } else {
          Notify(r);
        }
        n := n + 1;
      }
    }
  }

  function Iterate(s: State, n: nat): State {
    if n == 0 then s else Step(Iterate(s, n - 1), Dispatches)
  }

  /** The thread's loop is a run of its own moves. */
  lemma {:induction false} IterateIsRun(apps: set<string>, ms: seq<Move>, n: nat) returns (ms': seq<Move>)
    ensures Run(apps, ms') == Iterate(Run(apps, ms), n) && Postings(ms') == Postings(ms)
  {
    if n == 0 {
      return ms;
    }
    var before := IterateIsRun(apps, ms, n - 1);
    ms' := before + [Dispatches];
    assert ms'[..|ms'| - 1] == before;
  }

  // ---- what all interleavings have in common ---------------------------------------

  /** The replies in a list of postings that name the application. */
  function Naming(rs: seq<Posting>, app: string): seq<Posting> {
    if rs == [] then []
    else Naming(rs[..|rs| - 1], app) +
         if rs[|rs| - 1].Reply? && rs[|rs| - 1].app == Some(app) then [rs[|rs| - 1]] else []
  }

  lemma NamingAppend(rs: seq<Posting>, r: Posting, app: string)
    ensures Naming(rs + [r], app) == Naming(rs, app) + if r.Reply? && r.app == Some(app) then [r] else []
  {
    assert (rs + [r])[..|rs|] == rs;
  }

  function Postings(ms: seq<Move>): seq<Posting> {
    if ms == [] then []
    else Postings(ms[..|ms| - 1]) + if ms[|ms| - 1].Posts? then [ms[|ms| - 1].r] else []
  }

  /** How a posting leaves the thread. */
  function Effect(apps: set<string>, r: Posting): Thread {
    match r
    case Stop => Stopped
    case Reply(None, _) => Dead
    case Reply(Some(app), _) => if app in apps then Running else Dead
  }

  /** How many postings the thread will ever take: up to and including the
      first that ends it. */
  function Served(apps: set<string>, rs: seq<Posting>): (n: nat)
    ensures n <= |rs|
  {
    if rs == [] then 0
    else if Effect(apps, rs[0]) == Running then 1 + Served(apps, rs[1..])
    else 1
  }

  lemma {:induction false} ServedPrefix(apps: set<string>, rs: seq<Posting>, k: nat)
    requires k <= |rs| && forall i :: 0 <= i < k ==> Registered(apps, rs[i])
    ensures k <= Served(apps, rs)
    ensures k < |rs| && !Registered(apps, rs[k]) ==> Served(apps, rs) == k + 1
    ensures k == |rs| ==> Served(apps, rs) == k
  {
    if k > 0 {
      ServedPrefix(apps, rs[1..], k - 1);
    }
  }

  /** Only replies naming registered applications. */
  predicate AllKeepRunning(apps: set<string>, rs: seq<Posting>) {
    forall k :: 0 <= k < |rs| ==> Registered(apps, rs[k])
  }

  predicate Registered(apps: set<string>, r: Posting) {
    r.Reply? && r.app.Some? && r.app.value in apps
  }

  /** The thread's state is what the last posting taken made of it, and none
      taken before that one ended it. */
  predicate ThreadFits(apps: set<string>, thread: Thread, taken: seq<Posting>) {
    if thread == Running then AllKeepRunning(apps, taken)
    else taken != [] && Effect(apps, taken[|taken| - 1]) == thread && AllKeepRunning(apps, taken[..|taken| - 1])
  }

  predicate HandedOver(apps: set<string>, handlers: map<string, seq<Posting>>, taken: seq<Posting>) {
    handlers.Keys == apps && forall app :: app in apps ==> handlers[app] == Naming(taken, app)
  }

  /** Nothing is lost, duplicated or reordered on the way. */
  predicate Orderly(apps: set<string>, s: State, rs: seq<Posting>) {
    rs == s.taken + s.queue && HandedOver(apps, s.handlers, s.taken) && ThreadFits(apps, s.thread, s.taken)
  }

  lemma HandOverOne(apps: set<string>, s: State, r: Posting)
    requires HandedOver(apps, s.handlers, s.taken)
    ensures HandedOver(apps, if r.Reply? then HandOver(s, r).handlers else s.handlers, s.taken + [r])
    ensures s.thread == Running && r.Reply? ==> HandOver(s, r).thread == Effect(apps, r)
  {
    var after := if r.Reply? then HandOver(s, r).handlers else s.handlers;
    forall app | app in apps ensures after[app] == Naming(s.taken + [r], app) {
      NamingAppend(s.taken, r, app);
    }
  }

  lemma ThreadFitsOne(apps: set<string>, taken: seq<Posting>, r: Posting)
    requires ThreadFits(apps, Running, taken)
    ensures ThreadFits(apps, Effect(apps, r), taken + [r])
  {
    assert (taken + [r])[..|taken|] == taken;
  }

  lemma StepKeepsOrderly(apps: set<string>, s: State, rs: seq<Posting>, m: Move)
    requires Orderly(apps, s, rs)
    ensures Orderly(apps, Step(s, m), if m.Posts? then rs + [m.r] else rs)
  {
    if m.Posts? {
      assert s.taken + (s.queue + [m.r]) == rs + [m.r];
    } else if s.thread == Running && s.queue != [] {
      HandOverOne(apps, s, s.queue[0]);
      ThreadFitsOne(apps, s.taken, s.queue[0]);
      assert (s.taken + [s.queue[0]]) + s.queue[1..] == rs;
    }
  }

  lemma {:induction false} RunIsOrderly(apps: set<string>, ms: seq<Move>)
    ensures Orderly(apps, Run(apps, ms), Postings(ms))
  {
    if ms != [] {
      RunIsOrderly(apps, ms[..|ms| - 1]);
      StepKeepsOrderly(apps, Run(apps, ms[..|ms| - 1]), Postings(ms[..|ms| - 1]), ms[|ms| - 1]);
    }
  }

  /** For every interleaving of posting and dispatching: each commander has been
      handed exactly the replies naming its application among the first so many
      posted, in the order posted. Their number never exceeds that of the first
      posting that ends the thread, and reaches it once the thread has nothing
      left to do. */
  lemma PerApplicationFifo(apps: set<string>, ms: seq<Move>, app: string)
    requires app in apps
    ensures var s, rs := Run(apps, ms), Postings(ms);
            && app in s.handlers
            && |s.taken| <= Served(apps, rs)
            && s.handlers[app] == Naming(rs[..|s.taken|], app)
            && (s.thread != Running || s.queue == [] ==> s.handlers[app] == Naming(rs[..Served(apps, rs)], app))
  {
    RunIsOrderly(apps, ms);
    var s, rs := Run(apps, ms), Postings(ms);
    assert rs[..|s.taken|] == s.taken;
    ServedPrefix(apps, rs, if s.thread == Running then |s.taken| else |s.taken| - 1);
  }

  /** While STOP has not been posted and every reply names a registered
      application, the thread keeps running and everything is delivered. */
  lemma AllDelivered(apps: set<string>, ms: seq<Move>, app: string)
    requires app in apps && Run(apps, ms).queue == []
    requires AllKeepRunning(apps, Postings(ms))
    ensures app in Run(apps, ms).handlers && Run(apps, ms).handlers[app] == Naming(Postings(ms), app)
    ensures Run(apps, ms).thread == Running
  {
    PerApplicationFifo(apps, ms, app);
    RunIsOrderly(apps, ms);
    var rs := Postings(ms);
    ServedPrefix(apps, rs, |rs|);
    assert rs[..|rs|] == rs;
    var s := Run(apps, ms);
    assert s.taken == rs;
  }

  /** The first posting that is no reply to a registered application ends the
      thread, wherever it comes: each commander gets the replies naming its
      application posted before it, in order, and nothing that was posted after. */
  lemma FirstStrayEndsAll(apps: set<string>, ms: seq<Move>, k: nat, app: string)
    requires app in apps && k < |Postings(ms)| && AllKeepRunning(apps, Postings(ms)[..k])
    requires !Registered(apps, Postings(ms)[k])
    ensures var s, rs := Run(apps, ms), Postings(ms);
            && app in s.handlers && |s.taken| <= k + 1
            && s.handlers[app] == Naming(rs[..if |s.taken| < k then |s.taken| else k], app)
            && (s.thread != Running || s.queue == [] ==>
                  s.thread == (if rs[k] == Stop then Stopped else Dead) && s.handlers[app] == Naming(rs[..k], app))
  {
    var s, rs := Run(apps, ms), Postings(ms);
    PerApplicationFifo(apps, ms, app);
    ServedUpTo(apps, rs, k, app);
    if s.thread != Running || s.queue == [] {
      RunIsOrderly(apps, ms);
      EndedByLast(apps, s, rs, k);
    }
  }

  /** A reply that names no registered application kills the thread. */
  lemma UnregisteredReplyEndsAll(apps: set<string>, ms: seq<Move>, k: nat, app: string)
    requires app in apps && k < |Postings(ms)| && AllKeepRunning(apps, Postings(ms)[..k])
    requires Postings(ms)[k].Reply? && (Postings(ms)[k].app == None || Postings(ms)[k].app.value !in apps)
    ensures var s, rs := Run(apps, ms), Postings(ms);
            && app in s.handlers && |s.taken| <= k + 1
            && s.handlers[app] == Naming(rs[..if |s.taken| < k then |s.taken| else k], app)
            && (s.thread != Running || s.queue == [] ==> s.thread == Dead && s.handlers[app] == Naming(rs[..k], app))
  {
    FirstStrayEndsAll(apps, ms, k, app);
  }

  /** STOP ends it properly: what was posted before is delivered, nothing after. */
  lemma StopEndsAll(apps: set<string>, ms: seq<Move>, k: nat, app: string)
    requires app in apps && k < |Postings(ms)| && AllKeepRunning(apps, Postings(ms)[..k])
    requires Postings(ms)[k] == Stop
    ensures var s, rs := Run(apps, ms), Postings(ms);
            && app in s.handlers && |s.taken| <= k + 1
            && s.handlers[app] == Naming(rs[..if |s.taken| < k then |s.taken| else k], app)
            && (s.thread != Running || s.queue == [] ==> s.thread == Stopped && s.handlers[app] == Naming(rs[..k], app))
  {
    FirstStrayEndsAll(apps, ms, k, app);
  }

  lemma ServedUpTo(apps: set<string>, rs: seq<Posting>, k: nat, app: string)
    requires app in apps && k < |rs| && AllKeepRunning(apps, rs[..k]) && !Registered(apps, rs[k])
    ensures Served(apps, rs) == k + 1 && Naming(rs[..k + 1], app) == Naming(rs[..k], app)
  {
    forall i | 0 <= i < k ensures Registered(apps, rs[i]) {
      assert rs[..k][i] == rs[i];
    }
    ServedPrefix(apps, rs, k);
    assert rs[..k + 1] == rs[..k] + [rs[k]];
    NamingAppend(rs[..k], rs[k], app);
  }

  lemma EndedByLast(apps: set<string>, s: State, rs: seq<Posting>, k: nat)
    requires Orderly(apps, s, rs) && (s.thread != Running || s.queue == [])
    requires k < |rs| && AllKeepRunning(apps, rs[..k]) && !Registered(apps, rs[k])
    ensures s.thread == if rs[k] == Stop then Stopped else Dead
  {
    var taken := s.taken;
    assert forall i :: 0 <= i < |taken| ==> taken[i] == rs[i];
    forall i | 0 <= i < k ensures Registered(apps, rs[i]) {
      assert rs[..k][i] == rs[i];
    }
    if s.thread != Running {
      forall i | 0 <= i < |taken| - 1 ensures Registered(apps, taken[i]) {
        assert taken[..|taken| - 1][i] == taken[i];
      }
    }
  }
}
