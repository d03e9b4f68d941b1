/** `SSHProcessManager` with the parts of `ProcessManager` it rests on. The
    process store keeps its insertion order in a list of keys beside the map. */
module ProcessManager {
  import opened Exceptions
  import opened ProcessStates
  import opened Wrappers

  /** A process started over ssh; it lives its life. */
  class RunningProcess {
    var looks: nat
    var signals: nat
    const raises: nat -> bool
    const exitCode: Option<int>

    function Now(): Life
      reads this
    {
      Life(looks, signals, raises, exitCode)
    }

    constructor (life: Life)
      ensures Now() == life
    {
      looks, signals, raises, exitCode := life.looks, life.signals, life.raises, life.exitCode;
    }

    method IsAlive() returns (b: bool)
      modifies this
      ensures b == (old(looks) > 0) && Now() == old(Now()).Looked(1)
    {
      b := looks > 0;
      if looks > 0 {
        looks := looks - 1;
      }
    }

    /** Signals the process group, or ends the process. */
    method SignalGroup() returns (raised: bool)
      modifies this
      ensures raised == raises(old(signals)) && Now() == old(Now()).(signals := old(signals) + 1)
    {
      raised := raises(signals);
      signals := signals + 1;
    }
  }

  // ---- queries over lists of keys -------------------------------------------------

  method Accepts(search: (string, string) -> bool, q: Query, uuid: Uuid, meta: Meta) returns (accepted: bool)
    ensures accepted == Matches(search, q, uuid, meta)
    ensures accepted <==> || uuid in q.uuids || (exists i :: 0 <= i < |q.names| && search(q.names[i], meta.name))
                          || q.session == meta.session || q.user == meta.user
  {
    accepted := false;
    if uuid in q.uuids {
      accepted := true;
    }
    for n := 0 to |q.names|
      invariant accepted <==> uuid in q.uuids || exists i :: 0 <= i < n && search(q.names[i], meta.name)
    {
      if search(q.names[n], meta.name) {
        accepted := true;
      }
    }
    if q.session == meta.session {
      accepted := true;
    }
    if q.user == meta.user {
      accepted := true;
    }
  }

  /** `_get_process_uid` over the process store. Every key searched has a
      request, so the lookup of its metadata never misses. */
  method SearchStore(search: (string, string) -> bool, q: Query, us: seq<Uuid>, requests: map<Uuid, BootRequest>)
    returns (processes: seq<Uuid>)
    requires Elems(us) <= requests.Keys
    ensures processes == Matching(search, q, us, requests)
  {
    processes := [];
    for k := 0 to |us|
      invariant Elems(us[..k]) <= Elems(us)
      invariant processes == Matching(search, q, us[..k], requests)
    {
      ElemsMeans(us, us[k]);
      ElemsAppend(us[..k], us[k]);
      assert us[..k + 1] == us[..k] + [us[k]];
      MatchingAppend(search, q, us[..k], us[k], requests);
      var accepted := Accepts(search, q, us[k], requests[us[k]].meta);
      if accepted {
        processes := processes + [us[k]];
      }
    }
    assert us[..|us|] == us;
  }

  /** `_get_process_uid` over the boot requests, in whatever order. */
  method SearchRequests(search: (string, string) -> bool, q: Query, requests: map<Uuid, BootRequest>)
    returns (processes: seq<Uuid>)
    ensures Elems(processes) == MatchingRequests(search, q, requests)
    ensures |processes| == |MatchingRequests(search, q, requests)|
    ensures forall u :: u in Elems(processes) <==> u in requests && Matches(search, q, u, requests[u].meta)
  {
    processes := [];
    var left := requests.Keys;
    ghost var wanted := MatchingRequests(search, q, requests);
    while left != {}
      invariant left <= requests.Keys
      invariant Elems(processes) == wanted - left && |processes| == |wanted - left|
      decreases |left|
    {
      var uuid :| uuid in left;
      OneLess(wanted, left, uuid);
      left := left - {uuid};
      var accepted := Accepts(search, q, uuid, requests[uuid].meta);
      if accepted {
        ElemsAppend(processes, uuid);
        processes := processes + [uuid];
      }
    }
    assert wanted - {} == wanted;
  }

  lemma OneLess(wanted: set<Uuid>, left: set<Uuid>, uuid: Uuid)
    requires uuid in left
    ensures |left - {uuid}| < |left|
    ensures uuid in wanted ==>
              wanted - (left - {uuid}) == wanted - left + {uuid} && |wanted - (left - {uuid})| == |wanted - left| + 1
    ensures uuid !in wanted ==> wanted - (left - {uuid}) == wanted - left
  {
    if uuid in wanted {
      assert wanted - (left - {uuid}) == wanted - left + {uuid};
    } else {
      assert wanted - (left - {uuid}) == wanted - left;
    }
  }

  /** What `store` held lives on as `lives` says: the processes under the keys in
      `treated` as after such a treatment, all others as they were. */
  ghost predicate LiveOn(store: map<Uuid, RunningProcess>, lives: map<Uuid, Life>, treated: set<Uuid>, how: Treatment)
    reads store.Values
  {
    && store.Keys == lives.Keys
    && forall u :: u in store ==> store[u].Now() == if u in treated then After(lives[u], how) else lives[u]
  }

  class SSHProcessManager {
    /** `re.search` of a name selector in a process name. */
    const search: (string, string) -> bool
    var storeKeys: seq<Uuid>
    var processStore: map<Uuid, RunningProcess>
    var bootRequest: map<Uuid, BootRequest>
    /** Every process ever started. */
    ghost var started: set<RunningProcess>

    function Now(): View
      reads this
    {
      View(storeKeys, bootRequest)
    }

    /** No process is stored under two keys. */
    ghost predicate Inv()
      reads this
    {
      && Valid(Now())
      && processStore.Keys == Elems(storeKeys)
      && (forall u :: u in processStore ==> processStore[u] in started)
      && (forall u, w :: u in processStore && w in processStore && u != w ==> processStore[u] != processStore[w])
    }

    ghost function Lives(): map<Uuid, Life>
      requires Inv()
      reads this, started
    {
      map u | u in processStore :: processStore[u].Now()
    }

    constructor (search: (string, string) -> bool)
      ensures Inv() && Now() == Empty && this.search == search && started == {}
    {
      this.search := search;
      storeKeys, processStore, bootRequest := [], map[], map[];
      started := {};
    }

    method Forget(u: Uuid)
      requires Inv() && u in processStore
      modifies `storeKeys, `processStore
      ensures Inv() && Now() == old(Now()).(stored := Without(old(storeKeys), {u}))
      ensures processStore == old(processStore) - {u}
    {
      WithoutKeepsValid(Now(), {u});
      storeKeys := Without(storeKeys, {u});
      processStore := processStore - {u};
    }

    /** All processes stored before, but perhaps those in `touched`, are still
        stored, and neither looked at nor signalled. */
    ghost predicate OthersStay(store: map<Uuid, RunningProcess>, lives: map<Uuid, Life>, touched: set<Uuid>)
      reads this, store.Values
    {
      forall w :: w in store && w !in touched ==>
        w in processStore && processStore[w] == store[w] && w in lives && store[w].Now() == lives[w]
    }

    // ---- kill and terminate ----------------------------------------------------------

    /** SIGQUIT, then SIGKILL, while the process is found alive. */
    method SignalUntilDead(process: RunningProcess) returns (raised: bool)
      modifies process
      ensures var l := old(process.Now());
              var sent := if l.looks > 2 && !l.raises(l.signals) then 2 else if l.looks > 0 then 1 else 0;
              && raised == (sent > 0 && l.raises(l.signals + sent - 1))
              && process.Now() == (if raised then l.(looks := l.looks - (2 * sent - 1)) else l.Looked(4)).(signals := l.signals + sent)
    {
      raised := false;
      for sig := 0 to 2
        invariant !raised && process.signals == old(process.signals) + sig
        invariant process.looks + 2 * sig == old(process.looks)
        invariant sig > 0 ==> !process.raises(old(process.signals))
        invariant sig > 1 ==> !process.raises(old(process.signals) + 1)
      {
        var alive := process.IsAlive();
        if !alive {
          break;
        }
        raised := process.SignalGroup();
        if raised {
          return;
        }
        alive := process.IsAlive();
        if !alive {
          break;
        }
      }
    }

    /** One process: signalled, and taken off and reported dead unless it resists. */
    method KillOne(uuid: Uuid) returns (r: Result<Instance, Exn>)
      requires Inv() && uuid in processStore
      modifies `storeKeys, `processStore, processStore[uuid]
      ensures Inv()
      ensures var l := old(processStore[uuid].Now());
              && old(processStore)[uuid].Now() == l.AfterKill()
              && if l.Resists() then r == Err(Unhandled) && Now() == old(Now()) && processStore == old(processStore)
                 else
                   && r == Ok(KillReport(uuid, bootRequest[uuid], l))
                   && r == Ok(Instance(uuid, bootRequest[uuid], Dead, if l.looks < 6 then l.exitCode else None))
                   && Now() == old(Now()).(stored := Without(old(storeKeys), {uuid}))
                   && processStore == old(processStore) - {uuid}
    {
      var process := processStore[uuid];
      var alive := process.IsAlive();
      if alive {
        var raised := SignalUntilDead(process);
        if raised {
          return Err(Unhandled);
        }
      }
      var returnCode: Option<int> := None;
      alive := process.IsAlive();
      if !alive {
        returnCode := process.exitCode;
      }
      Forget(uuid);
      return Ok(Instance(uuid, bootRequest[uuid], Dead, returnCode));
    }

    /** The same among all the processes of a store. */
    method KillAmong(uuid: Uuid, ghost treated: set<Uuid>, ghost store: map<Uuid, RunningProcess>, ghost lives: map<Uuid, Life>)
      returns (r: Result<Instance, Exn>)
      requires Inv() && uuid in processStore && uuid !in treated
      requires processStore == store - treated && OneKeyEach(store)
      requires LiveOn(store, lives, treated, Signalling)
      modifies this, started
      ensures Inv() && started == old(started)
      ensures LiveOn(store, lives, treated + {uuid}, Signalling)
      ensures uuid in lives && uuid in bootRequest
      ensures if lives[uuid].Resists() then r == Err(Unhandled) && Now() == old(Now()) && processStore == old(processStore)
              else
                && r == Ok(KillReport(uuid, bootRequest[uuid], lives[uuid]))
                && Now() == old(Now()).(stored := Without(old(storeKeys), {uuid}))
                && processStore == old(processStore) - {uuid}
    {
      assert store[uuid] == processStore[uuid] && store[uuid].Now() == lives[uuid];
      r := KillOne(uuid);
      forall u | u in store && u != uuid ensures store[u].Now() == old(store[u].Now()) {
        assert store[u] != store[uuid];
      }
    }

    /** One round of the loop of `kill_processes`, `us` having been taken off. */
    method KillNext(uuid: Uuid, list: seq<Instance>, ghost was: View, ghost us: seq<Uuid>,
                    ghost store: map<Uuid, RunningProcess>, ghost lives: map<Uuid, Life>)
      returns (r: Result<seq<Instance>, Exn>)
      requires Inv() && uuid in processStore && uuid !in Elems(us)
      requires processStore == store - Elems(us) && OneKeyEach(store)
      requires LiveOn(store, lives, Elems(us), Signalling)
      requires Killed(was, us, lives, Now(), Ok(list))
      modifies this, started
      ensures Inv() && started == old(started)
      ensures LiveOn(store, lives, Elems(us + [uuid]), Signalling)
      ensures r.Ok? <==> !Resisting(lives, uuid)
      ensures r.Ok? ==> processStore == store - Elems(us + [uuid]) && Killed(was, us + [uuid], lives, Now(), r)
      ensures r.Err? ==> r.error == Unhandled && processStore == old(processStore) && Now() == old(Now())
    {
      ghost var v := Now();
      ElemsAppend(us, uuid);
      assert store - (Elems(us) + {uuid}) == store - Elems(us) - {uuid};
      var one := KillAmong(uuid, Elems(us), store, lives);
      if one.Err? {
        return Err(one.error);
      }
      KilledMore(was, us, lives, v, list, uuid);
      r := Ok(list + [one.value]);
    }

    /** The loop of `kill_processes`; `n` is where it ends. */
    method KillInTurn(uuids: seq<Uuid>, ghost store: map<Uuid, RunningProcess>, ghost lives: map<Uuid, Life>)
      returns (r: Result<seq<Instance>, Exn>, ghost n: nat)
      requires Inv() && Distinct(uuids) && Elems(uuids) <= Elems(storeKeys)
      requires store == processStore && lives == Lives()
      modifies this, started
      ensures Inv() && started == old(started)
      ensures n == FirstResisting(lives, uuids) && Killed(old(Now()), uuids, lives, Now(), r)
      ensures processStore == store - Elems(uuids[..n])
      ensures LiveOn(store, lives, Elems(uuids[..if n < |uuids| then n + 1 else n]), Signalling)
    {
      r := Ok([]);
      ghost var was := Now();
      NothingKilled(was, lives);
      assert Elems(uuids) <= store.Keys;
      for k := 0 to |uuids|
        invariant Inv() && started == old(started) && r.Ok?
        invariant processStore == store - Elems(uuids[..k])
        invariant LiveOn(store, lives, Elems(uuids[..k]), Signalling)
        invariant Killed(was, uuids[..k], lives, Now(), r)
      {
        ElemsPrefixStep(uuids, k);
        ghost var list := r.value;
        r := KillNext(uuids[k], r.value, was, uuids[..k], store, lives);
        if r.Err? {
          KilledNoMore(was, uuids, lives, k, Now(), list);
          return r, k;
        }
      }
      assert uuids[..|uuids|] == uuids;
      return r, |uuids|;
    }

    /** `kill_processes`. */
    method KillProcesses(uuids: seq<Uuid>) returns (r: Result<seq<Instance>, Exn>)
      requires Inv() && Distinct(uuids) && Elems(uuids) <= Elems(storeKeys)
      modifies this, started
      ensures Inv() && started == old(started)
      ensures Killed(old(Now()), uuids, old(Lives()), Now(), r)
      ensures processStore == old(processStore) - Elems(Taken(old(Lives()), uuids))
      ensures LiveOn(old(processStore), old(Lives()), Elems(Visited(old(Lives()), uuids)), Signalling)
    {
      ghost var n;
      r, n := KillInTurn(uuids, processStore, Lives());
    }

    method KillMatching(q: Query) returns (r: Result<seq<Instance>, Exn>)
      requires Inv()
      modifies this, started
      ensures Inv() && started == old(started)
      ensures var us := Matching(search, q, old(storeKeys), old(bootRequest));
              && Killed(old(Now()), us, old(Lives()), Now(), r)
              && processStore == old(processStore) - Elems(Taken(old(Lives()), us))
              && LiveOn(old(processStore), old(Lives()), Elems(Visited(old(Lives()), us)), Signalling)
    {
      ghost var lives := Lives();
      var uuids := SearchStore(search, q, storeKeys, bootRequest);
      assert Lives() == lives;
      MatchingDistinct(search, q, storeKeys, bootRequest);
      r := KillProcesses(uuids);
    }

    /** Takes off exactly what is taken of the matching processes, and leaves all
        other processes, stored or not, as they are. */
    method Kill(q: Query) returns (r: Result<seq<Instance>, Exn>)
      requires Inv()
      modifies this, started
      ensures Inv() && started == old(started)
      ensures Serves(search, old(Now()), Request.Kill(q, old(Lives())), Now())
      ensures var us := Matching(search, q, old(storeKeys), old(bootRequest));
              && Killed(old(Now()), us, old(Lives()), Now(), r)
              && processStore == old(processStore) - Elems(Taken(old(Lives()), us))
              && LiveOn(old(processStore), old(Lives()), Elems(Visited(old(Lives()), us)), Signalling)
              && OthersStay(old(processStore), old(Lives()), Elems(us))
    {
      if storeKeys == [] {
        NothingKilled(Now(), Lives());
        r := Ok([]);
        assert Killed(Now(), Matching(search, q, storeKeys, bootRequest), Lives(), Now(), r);
        return;
      }
      r := KillMatching(q);
    }

    method Terminate() returns (r: Result<seq<Instance>, Exn>)
      requires Inv()
      modifies this, started
      ensures Inv() && started == old(started)
      ensures Killed(old(Now()), old(storeKeys), old(Lives()), Now(), r)
      ensures Serves(search, old(Now()), Request.Terminate(old(Lives())), Now())
      ensures processStore == old(processStore) - Elems(Taken(old(Lives()), old(storeKeys)))
      ensures LiveOn(old(processStore), old(Lives()), Elems(Visited(old(Lives()), old(storeKeys))), Signalling)
    {
      if storeKeys == [] {
        NothingKilled(Now(), Lives());
        r := Ok([]);
        return;
      }
      r := KillProcesses(storeKeys);
    }

    // ---- flush -----------------------------------------------------------------------

    method FlushOne(uuid: Uuid) returns (pi: Option<Instance>)
      requires Inv() && uuid in processStore
      modifies `storeKeys, `processStore, processStore[uuid]
      ensures Inv()
      ensures var l := old(processStore[uuid].Now());
              && old(processStore)[uuid].Now() == l.Looked(2)
              && if l.looks > 1 then pi == None && Now() == old(Now()) && processStore == old(processStore)
                 else
                   && pi == Some(Seen(uuid, bootRequest[uuid], l))
                   && pi == Some(Instance(uuid, bootRequest[uuid], Dead, if l.looks == 0 then l.exitCode else None))
                   && Now() == old(Now()).(stored := Without(old(storeKeys), {uuid}))
                   && processStore == old(processStore) - {uuid}
    {
      var process := processStore[uuid];
      var returnCode: Option<int> := None;
      var alive := process.IsAlive();
      if !alive {
        returnCode := process.exitCode;
      }
      alive := process.IsAlive();
      if alive {
        return None;
      }
      alive := process.IsAlive();
      var status := if alive then Running else Dead;
      Forget(uuid);
      return Some(Instance(uuid, bootRequest[uuid], status, returnCode));
    }

    /** The same among all the processes of a store. */
    method FlushAmong(uuid: Uuid, ghost treated: set<Uuid>, ghost store: map<Uuid, RunningProcess>, ghost lives: map<Uuid, Life>)
      returns (pi: Option<Instance>)
      requires Inv() && uuid in processStore && uuid !in treated
      requires processStore == store - (treated * Fallen(lives)) && OneKeyEach(store)
      requires LiveOn(store, lives, treated, Looking)
      modifies this, started
      ensures Inv() && started == old(started)
      ensures LiveOn(store, lives, treated + {uuid}, Looking)
      ensures uuid in lives && uuid in bootRequest
      ensures if uuid !in Fallen(lives) then pi == None && Now() == old(Now()) && processStore == old(processStore)
              else
                && pi == Some(Seen(uuid, bootRequest[uuid], lives[uuid]))
                && Now() == old(Now()).(stored := Without(old(storeKeys), {uuid}))
                && processStore == old(processStore) - {uuid}
    {
      assert store[uuid] == processStore[uuid] && store[uuid].Now() == lives[uuid];
      pi := FlushOne(uuid);
      forall u | u in store && u != uuid ensures store[u].Now() == old(store[u].Now()) {
        assert store[u] != store[uuid];
      }
    }

    /** One round of the loop of `flush`, `us` having been looked at. */
    method FlushNext(uuid: Uuid, list: seq<Instance>, ghost was: View, ghost us: seq<Uuid>,
                     ghost store: map<Uuid, RunningProcess>, ghost lives: map<Uuid, Life>)
      returns (list': seq<Instance>)
      requires Inv() && uuid in processStore && uuid !in Elems(us)
      requires processStore == store - (Elems(us) * Fallen(lives)) && OneKeyEach(store)
      requires LiveOn(store, lives, Elems(us), Looking)
      requires Flushed(was, us, lives, Now(), list)
      modifies this, started
      ensures Inv() && started == old(started)
      ensures processStore == store - (Elems(us + [uuid]) * Fallen(lives))
      ensures LiveOn(store, lives, Elems(us + [uuid]), Looking)
      ensures Flushed(was, us + [uuid], lives, Now(), list')
    {
      ghost var v := Now();
      ElemsAppend(us, uuid);
      OneLeftOut(store, Elems(us), Fallen(lives), uuid);
      var pi := FlushAmong(uuid, Elems(us), store, lives);
      if pi.Some? {
        FlushedMore(was, us, lives, v, list, uuid);
        list' := list + [pi.value];
      } else {
        FlushedKeeps(was, us, lives, v, list, uuid);
        list' := list;
      }
    }

    method FlushListed(uuids: seq<Uuid>) returns (list: seq<Instance>)
      requires Inv() && Distinct(uuids) && Elems(uuids) <= Elems(storeKeys)
      modifies this, started
      ensures Inv() && started == old(started)
      ensures Flushed(old(Now()), uuids, old(Lives()), Now(), list)
      ensures processStore == old(processStore) - (Elems(uuids) * Fallen(old(Lives())))
      ensures LiveOn(old(processStore), old(Lives()), Elems(uuids), Looking)
    {
      list := [];
      ghost var was, store, lives := Now(), processStore, Lives();
      NothingFlushed(was, lives);
      assert Elems(uuids) <= store.Keys;
      for k := 0 to |uuids|
        invariant Inv() && started == old(started)
        invariant processStore == store - (Elems(uuids[..k]) * Fallen(lives))
        invariant LiveOn(store, lives, Elems(uuids[..k]), Looking)
        invariant Flushed(was, uuids[..k], lives, Now(), list)
      {
        ElemsPrefixStep(uuids, k);
        list := FlushNext(uuids[k], list, was, uuids[..k], store, lives);
      }
      assert uuids[..|uuids|] == uuids;
    }

    /** Takes off exactly the matching processes found dead at the second look,
        and reports none of them as running although each is looked at three
        times over; all other processes are left as they are. */
    method Flush(q: Query) returns (list: seq<Instance>)
      requires Inv()
      modifies this, started
      ensures Inv() && started == old(started)
      ensures Flushed(old(Now()), Matching(search, q, old(storeKeys), old(bootRequest)), old(Lives()), Now(), list)
      ensures Serves(search, old(Now()), Request.Flush(q, old(Lives())), Now())
      ensures var us := Elems(Matching(search, q, old(storeKeys), old(bootRequest)));
              && processStore == old(processStore) - (us * Fallen(old(Lives())))
              && LiveOn(old(processStore), old(Lives()), us, Looking)
              && OthersStay(old(processStore), old(Lives()), us)
    {
      ghost var lives := Lives();
      var uuids := SearchStore(search, q, storeKeys, bootRequest);
      assert Lives() == lives;
      MatchingDistinct(search, q, storeKeys, bootRequest);
      list := FlushListed(uuids);
    }

    // ---- ps ---------------------------------------------------------------------------

    method PsOne(uuid: Uuid) returns (pi: Instance)
      requires uuid in processStore && uuid in bootRequest
      modifies processStore[uuid]
      ensures pi == Seen(uuid, bootRequest[uuid], old(processStore[uuid].Now()))
      ensures pi.uuid == uuid && pi.request == bootRequest[uuid]
      ensures pi.status == Running <==> old(processStore[uuid].looks) >= 2
      ensures pi.returnCode == if old(processStore[uuid].looks) == 0 then processStore[uuid].exitCode else None
      ensures processStore[uuid].Now() == old(processStore[uuid].Now()).Looked(2)
    {
      var process := processStore[uuid];
      var returnCode: Option<int> := None;
      var alive := process.IsAlive();
      if !alive {
        returnCode := process.exitCode;
      }
      alive := process.IsAlive();
      pi := Instance(uuid, bootRequest[uuid], if alive then Running else Dead, returnCode);
    }

    method PsNext(uuid: Uuid, list: seq<Instance>, ghost us: seq<Uuid>, ghost lives: map<Uuid, Life>)
      returns (list': seq<Instance>)
      requires Inv() && uuid in processStore && uuid !in Elems(us)
      requires LiveOn(processStore, lives, Elems(us), Looking)
      requires Reports(bootRequest, lives, Looking, us, list)
      modifies started
      ensures Inv()
      ensures LiveOn(processStore, lives, Elems(us + [uuid]), Looking)
      ensures Reports(bootRequest, lives, Looking, us + [uuid], list')
    {
      ElemsAppend(us, uuid);
      ReportsAppend(bootRequest, lives, Looking, us, list, uuid);
      var pi := PsOne(uuid);
      list' := list + [pi];
    }

    method Ps(q: Query) returns (list: seq<Instance>)
      requires Inv()
      modifies started
      ensures Now() == old(Now()) && Inv()
      ensures Reports(bootRequest, old(Lives()), Looking, Matching(search, q, storeKeys, bootRequest), list)
      ensures Serves(search, old(Now()), Request.Ps(q), Now())
      ensures LiveOn(processStore, old(Lives()), Elems(Matching(search, q, storeKeys, bootRequest)), Looking)
    {
      list := [];
      ghost var lives := Lives();
      var uuids := SearchStore(search, q, storeKeys, bootRequest);
      assert Lives() == lives;
      MatchingDistinct(search, q, storeKeys, bootRequest);
      assert Elems(uuids) <= processStore.Keys;
      for k := 0 to |uuids|
        invariant Inv()
        invariant LiveOn(processStore, lives, Elems(uuids[..k]), Looking)
        invariant Reports(bootRequest, lives, Looking, uuids[..k], list)
      {
        ElemsPrefixStep(uuids, k);
        list := PsNext(uuids[k], list, uuids[..k], lives);
      }
      assert uuids[..|uuids|] == uuids;
    }

    // ---- boot and restart ---------------------------------------------------------------

    method Store(uuid: Uuid, p: RunningProcess)
      requires Inv() && uuid in bootRequest && p !in started
      modifies `storeKeys, `processStore, `started
      ensures Inv() && started == old(started) + {p}
      ensures processStore == old(processStore)[uuid := p]
      ensures storeKeys == if uuid in old(processStore) then old(storeKeys) else old(storeKeys) + [uuid]
    {
      if uuid !in processStore {
        ElemsAppend(storeKeys, uuid);
        storeKeys := storeKeys + [uuid];
      }
      processStore := processStore[uuid := p];
      started := started + {p};
    }

    /** Starts ssh on one host, and a thread to watch it. */
    method TryHost(uuid: Uuid, attempt: Attempt)
      requires Inv() && uuid in bootRequest
      modifies `storeKeys, `processStore, `started
      ensures Inv() && fresh(started - old(started)) && old(started) <= started
      ensures attempt == NoStart ==> processStore == old(processStore) && storeKeys == old(storeKeys)
      ensures attempt.Starts? ==>
                && uuid in processStore && fresh(processStore[uuid]) && processStore[uuid].Now() == attempt.life
                && processStore == old(processStore)[uuid := processStore[uuid]]
                && storeKeys == if uuid in old(processStore) then old(storeKeys) else old(storeKeys) + [uuid]
    {
      if attempt.Starts? {
        var p := new RunningProcess(attempt.life);
        Store(uuid, p);
      }
    }

    /** What the store holds once the first `k` hosts were tried. */
    ghost predicate Tried(uuid: Uuid, attempts: nat -> Attempt, k: nat, keys: seq<Uuid>, store: map<Uuid, RunningProcess>)
      reads this, started
      requires Inv()
    {
      match StoredAfter(attempts, k)
      case None => storeKeys == keys && processStore == store
      case Some(l) =>
        && storeKeys == keys + [uuid]
        && uuid in processStore && processStore == store[uuid := processStore[uuid]] && processStore[uuid].Now() == l
    }

    method TryNext(uuid: Uuid, attempts: nat -> Attempt, k: nat, ghost keys: seq<Uuid>, ghost store: map<Uuid, RunningProcess>)
      requires Inv() && uuid in bootRequest && uuid !in store && Tried(uuid, attempts, k, keys, store)
      modifies `storeKeys, `processStore, `started
      ensures Inv() && fresh(started - old(started)) && old(started) <= started
      ensures Tried(uuid, attempts, k + 1, keys, store)
      ensures uuid in processStore ==> fresh(processStore[uuid]) || processStore == old(processStore)
    {
      TryHost(uuid, attempts(k));
    }

    /** Tries the hosts in turn, up to the first that has started the process and
        its watcher, or the last; the last process started is stored. */
    method StartOnSomeHost(br: BootRequest, uuid: Uuid, attempts: nat -> Attempt) returns (hostname: string)
      requires Inv() && uuid in bootRequest && uuid !in processStore && |br.allowedHosts| >= 1
      modifies `storeKeys, `processStore, `started
      ensures Inv() && fresh(started - old(started))
      ensures hostname == br.allowedHosts[LastTried(attempts, 0, |br.allowedHosts|)]
      ensures Tried(uuid, attempts, LastTried(attempts, 0, |br.allowedHosts|) + 1, old(storeKeys), old(processStore))
      ensures uuid in processStore ==> fresh(processStore[uuid])
    {
      hostname := "";
      ghost var keys, store := storeKeys, processStore;
      for k := 0 to |br.allowedHosts|
        invariant Inv() && fresh(started - old(started))
        invariant Tried(uuid, attempts, k, keys, store)
        invariant uuid in processStore ==> fresh(processStore[uuid])
        invariant forall i :: 0 <= i < k ==> !attempts(i).Done()
        invariant k > 0 ==> hostname == br.allowedHosts[k - 1]
      {
        hostname := br.allowedHosts[k];
        TryNext(uuid, attempts, k, keys, store);
        if attempts(k).Done() {
          break;
        }
      }
    }

    method SetRequest(uuid: Uuid, br: BootRequest)
      requires Inv() && |br.allowedHosts| >= 1
      modifies `bootRequest
      ensures Inv() && bootRequest == old(bootRequest)[uuid := br]
    {
      bootRequest := bootRequest[uuid := br];
    }

    /** How a boot that is not refused ends. The request is kept with the host at
        which the trying ended. A process is stored if and only if one of the
        hosts tried has started one; it is the one started last, looked at once
        since, and is reported running if that look found it alive. */
    ghost predicate BootEnds(uuid: Uuid, br: BootRequest, attempts: nat -> Attempt, r: Result<Instance, Exn>)
      requires Inv() && br.allowedHosts != []
      reads this, started
    {
      var last := LastTried(attempts, 0, |br.allowedHosts|);
      && uuid in bootRequest && bootRequest[uuid] == br.(meta := br.meta.(hostname := br.allowedHosts[last]))
      && r.Ok? && r.value.uuid == uuid && r.value.request == bootRequest[uuid]
      && (uuid in processStore <==> exists k :: 0 <= k <= last && attempts(k).Starts?)
      && (uuid !in processStore ==> r.value.status == Dead && r.value.returnCode == None)
      && (forall k :: 0 <= k <= last && attempts(k).Starts? && (forall j :: k < j <= last ==> !attempts(j).Starts?) ==>
            && uuid in processStore && processStore[uuid].Now() == attempts(k).life.Looked(1)
            && (r.value.status == Running <==> attempts(k).life.looks > 0)
            && r.value.returnCode == if attempts(k).life.looks == 0 then attempts(k).life.exitCode else None)
    }

    /** The process booted, looked at once. */
    method BootInstance(uuid: Uuid, ghost p: Option<Life>) returns (pi: Instance)
      requires uuid in bootRequest && (uuid in processStore <==> p.Some?)
      requires p.Some? ==> processStore[uuid].Now() == p.value
      modifies if uuid in processStore then {processStore[uuid]} else {}
      ensures pi == BootReport(uuid, bootRequest[uuid], p)
      ensures pi.uuid == uuid && pi.request == bootRequest[uuid]
      ensures pi.status == Running <==> p.Some? && p.value.looks > 0
      ensures pi.returnCode == if p.Some? && p.value.looks == 0 then p.value.exitCode else None
      ensures p.Some? ==> processStore[uuid].Now() == p.value.Looked(1)
    {
      var status, returnCode := Dead, None;
      if uuid in processStore {
        var process := processStore[uuid];
        var alive := process.IsAlive();
        if alive {
          status := Running;
        } else {
          returnCode := process.exitCode;
        }
      }
      return Instance(uuid, bootRequest[uuid], status, returnCode);
    }

    /** Keeps the request, starts the process, and notes the host. */
    method Place(br: BootRequest, uuid: Uuid, attempts: nat -> Attempt, ghost p: Option<Life>)
      requires Inv() && br.allowedHosts != [] && uuid !in bootRequest
      requires p == StoredAfter(attempts, LastTried(attempts, 0, |br.allowedHosts|) + 1)
      modifies this
      ensures Inv() && fresh(started - old(started))
      ensures storeKeys == if p.Some? then old(storeKeys) + [uuid] else old(storeKeys)
      ensures var host := br.allowedHosts[LastTried(attempts, 0, |br.allowedHosts|)];
              bootRequest == old(bootRequest)[uuid := br.(meta := br.meta.(hostname := host))]
      ensures uuid in processStore <==> p.Some?
      ensures p.Some? ==> fresh(processStore[uuid]) && processStore[uuid].Now() == p.value
      ensures StillStored(old(processStore))
    {
      SetRequest(uuid, br);
      var hostname := StartOnSomeHost(br, uuid, attempts);
      var kept := br.(meta := br.meta.(hostname := hostname));
      assert bootRequest[uuid := kept] == old(bootRequest)[uuid := kept];
      SetRequest(uuid, kept);
    }

    /** `__boot` for a request with hosts, under a new uuid. */
    method BootNew(br: BootRequest, uuid: Uuid, attempts: nat -> Attempt) returns (r: Result<Instance, Exn>)
      requires Inv() && br.allowedHosts != [] && uuid !in bootRequest
      modifies this
      ensures Inv() && fresh(started - old(started))
      ensures Booted(old(Now()), br, uuid, attempts, Now(), r)
      ensures StillStored(old(processStore)) && BootEnds(uuid, br, attempts, r)
    {
      StoredAfterMeans(attempts, LastTried(attempts, 0, |br.allowedHosts|) + 1);
      ghost var p := StoredAfter(attempts, LastTried(attempts, 0, |br.allowedHosts|) + 1);
      Place(br, uuid, attempts, p);
      var pi := BootInstance(uuid, p);
      return Ok(pi);
    }

    /** Everything stored before is stored as the same process. */
    predicate StillStored(store: map<Uuid, RunningProcess>)
      reads this
    {
      forall w :: w in store ==> w in processStore && processStore[w] == store[w]
    }

    /** `__boot`. No process stored before is touched. */
    method BootAs(br: BootRequest, uuid: Uuid, attempts: nat -> Attempt) returns (r: Result<Instance, Exn>)
      requires Inv()
      modifies this
      ensures Inv() && fresh(started - old(started))
      ensures Booted(old(Now()), br, uuid, attempts, Now(), r)
      ensures StillStored(old(processStore))
      ensures if br.allowedHosts == [] || uuid in old(bootRequest) then
                r == Err(Drunc) && Now() == old(Now()) && processStore == old(processStore)
              else BootEnds(uuid, br, attempts, r)
    {
      if |br.allowedHosts| < 1 {
        return Err(Drunc);
      }
      if uuid in bootRequest {
        return Err(Drunc);
      }
      r := BootNew(br, uuid, attempts);
    }

    /** `boot` under a generated uuid, which is not assumed to be new. */
    method Boot(br: BootRequest, thisUuid: Uuid, attempts: nat -> Attempt) returns (r: Result<Instance, Exn>)
      requires Inv()
      modifies this
      ensures Inv() && fresh(started - old(started))
      ensures Booted(old(Now()), br, thisUuid, attempts, Now(), r)
      ensures Serves(search, old(Now()), Request.Boot(br, thisUuid, attempts), Now())
      ensures StillStored(old(processStore))
      ensures if br.allowedHosts == [] || thisUuid in old(bootRequest) then
                r == Err(Drunc) && Now() == old(Now()) && processStore == old(processStore)
              else BootEnds(thisUuid, br, attempts, r)
    {
      r := BootAs(br, thisUuid, attempts);
    }

    /** `_ensure_one_process` among the boot requests. */
    method EnsureOneProcess(uuids: seq<Uuid>) returns (r: Result<Uuid, Exn>)
      ensures r == if |uuids| == 1 && uuids[0] in bootRequest then Ok(uuids[0]) else Err(Drunc)
    {
      if uuids == [] || |uuids| > 1 {
        return Err(Drunc);
      }
      if uuids[0] !in bootRequest {
        return Err(Drunc);
      }
      return Ok(uuids[0]);
    }

    method Drop(uuid: Uuid)
      requires Inv()
      modifies `storeKeys, `processStore, `bootRequest
      ensures Inv() && Now() == Emptied(old(Now()), uuid) && processStore == old(processStore) - {uuid}
    {
      EmptiedIsValid(Now(), uuid);
      storeKeys := Without(storeKeys, {uuid});
      processStore := processStore - {uuid};
      bootRequest := bootRequest - {uuid};
    }

    method OneRequest(q: Query) returns (r: Result<Uuid, Exn>)
      ensures r.Ok? ==> MatchingRequests(search, q, bootRequest) == {r.value}
      ensures r.Err? ==> r.error == Drunc && |MatchingRequests(search, q, bootRequest)| != 1
    {
      var uuids := SearchRequests(search, q, bootRequest);
      r := EnsureOneProcess(uuids);
      SingleMatch(uuids);
    }

    /** Ends the process if it is stored and alive; that may raise. */
    method Interrupt(uuid: Uuid) returns (raised: bool)
      requires Inv()
      modifies if uuid in processStore then {processStore[uuid]} else {}
      ensures raised == Lingers(old(Lives()), uuid)
      ensures raised <==>
                && uuid in processStore && old(processStore[uuid].looks) > 0
                && processStore[uuid].raises(old(processStore[uuid].signals))
      ensures OthersStay(processStore, old(Lives()), {uuid})
    {
      raised := false;
      if uuid in processStore {
        var process := processStore[uuid];
        var alive := process.IsAlive();
        if alive {
          raised := process.SignalGroup();
        }
      }
    }

    /** Takes process and request away and boots again under the same uuid. */
    method Reboot(uuid: Uuid, attempts: nat -> Attempt) returns (r: Result<Instance, Exn>)
      requires Inv() && uuid in processStore
      modifies this
      ensures Inv() && fresh(started - old(started))
      ensures Booted(Emptied(old(Now()), uuid), old(bootRequest[uuid]), uuid, attempts, Now(), r)
      ensures forall w :: w in old(processStore) && w != uuid ==> w in processStore && processStore[w] == old(processStore)[w]
      ensures old(bootRequest[uuid]).allowedHosts != [] && BootEnds(uuid, old(bootRequest[uuid]), attempts, r)
    {
      var sameUuidBr := bootRequest[uuid];
      Drop(uuid);
      r := BootAs(sameUuidBr, uuid, attempts);
    }

    /** How a restart ends. It fails, and leaves both dictionaries as they were,
        unless exactly one request matches, its process is stored, and that
        process is dead or can be ended; then it ends as the boot of that request. */
    ghost predicate RestartEnds(was: View, lives: map<Uuid, Life>, q: Query, attempts: nat -> Attempt, r: Result<Instance, Exn>, u: Uuid)
      requires Inv() && Valid(was)
      reads this, started
    {
      var matching := MatchingRequests(search, q, was.requests);
      if matching != {u} then r == Err(Drunc) && Now() == was && |matching| != 1
      else if u !in Elems(was.stored) || (u in lives && lives[u].looks > 0 && lives[u].raises(lives[u].signals)) then
        r == Err(Unhandled) && Now() == was
      else u in was.requests && was.requests[u].allowedHosts != [] && BootEnds(u, was.requests[u], attempts, r)
    }

    /** The rest of a restart, once the one process is known. */
    method RestartOne(uuid: Uuid, ghost q: Query, attempts: nat -> Attempt) returns (r: Result<Instance, Exn>)
      requires Inv() && MatchingRequests(search, q, bootRequest) == {uuid}
      modifies this, started
      ensures Inv() && fresh(started - old(started))
      ensures Restarted(search, old(Now()), q, old(Lives()), attempts, Now(), r, uuid)
      ensures OthersStay(old(processStore), old(Lives()), {uuid})
      ensures RestartEnds(old(Now()), old(Lives()), q, attempts, r, uuid)
    {
      var raised := Interrupt(uuid);
      if raised || uuid !in processStore {
        return Err(Unhandled);
      }
      r := Reboot(uuid, attempts);
    }

    method RestartQuery(q: Query, attempts: nat -> Attempt) returns (r: Result<Instance, Exn>, ghost u: Uuid)
      requires Inv()
      modifies this, started
      ensures Inv() && fresh(started - old(started))
      ensures Restarted(search, old(Now()), q, old(Lives()), attempts, Now(), r, u)
      ensures OthersStay(old(processStore), old(Lives()), {u})
      ensures RestartEnds(old(Now()), old(Lives()), q, attempts, r, u)
    {
      ghost var lives := Lives();
      var one := OneRequest(q);
      assert Lives() == lives;
      match one {
        case Err(e) =>
          u := Uuid("");
          SingletonSize(u);
          r := Err(e);
        case Ok(uuid) =>
          u := uuid;
          r := RestartOne(uuid, q, attempts);
      }
    }

    /** `_restart_impl`; `u` is the uuid restarted, if there is one. No process
        but that one is touched. */
    method Restart(q: Query, attempts: nat -> Attempt) returns (r: Result<Instance, Exn>, ghost u: Uuid)
      requires Inv()
      modifies this, started
      ensures Inv() && fresh(started - old(started))
      ensures Restarted(search, old(Now()), q, old(Lives()), attempts, Now(), r, u)
      ensures Serves(search, old(Now()), Request.Restart(q, old(Lives()), attempts), Now())
      ensures OthersStay(old(processStore), old(Lives()), {u})
      ensures RestartEnds(old(Now()), old(Lives()), q, attempts, r, u)
    {
      r, u := RestartQuery(q, attempts);
      RestartServes(search, old(Now()), q, old(Lives()), attempts, Now(), r, u);
    }
  }

  lemma OneLeftOut(store: map<Uuid, RunningProcess>, treated: set<Uuid>, fallen: set<Uuid>, uuid: Uuid)
    ensures store - ((treated + {uuid}) * fallen) ==
            if uuid in fallen then store - (treated * fallen) - {uuid} else store - (treated * fallen)
  {
  }

  ghost predicate OneKeyEach(store: map<Uuid, RunningProcess>) {
    forall u, w :: u in store && w in store && u != w ==> store[u] != store[w]
  }

  lemma SingletonSize(u: Uuid)
    ensures |{u}| == 1
  {
  }

  lemma SingleMatch(us: seq<Uuid>)
    ensures |us| == 1 ==> Elems(us) == {us[0]}
    ensures |us| != 1 && |Elems(us)| == |us| ==> forall u: Uuid :: Elems(us) != {u}
  {
    if |us| == 1 {
      assert us[1..] == [];
    }
    forall u: Uuid ensures |{u}| == 1 {
    }
  }
}
