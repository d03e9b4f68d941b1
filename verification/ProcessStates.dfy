/** The two dictionaries of the process manager as values, what each request
    does to them, and what holds over all sequences of requests. When a process
    dies, and whether a signal to it raises, is settled by the process's life,
    which is none of the program's business; statements hold for all lives. */
module ProcessStates {
  import opened Exceptions
  import opened Wrappers

  datatype Uuid = Uuid(text: string)

  datatype Meta = Meta(name: string, user: string, session: string, hostname: string)

  datatype BootRequest = BootRequest(meta: Meta, allowedHosts: seq<string>)

  datatype StatusCode = Running | Dead

  datatype Instance = Instance(uuid: Uuid, request: BootRequest, status: StatusCode, returnCode: Option<int>)

  datatype Query = Query(uuids: seq<Uuid>, names: seq<string>, user: string, session: string)

  /** `stored`: the keys of `process_store` in the order of the dictionary;
      `requests`: the dictionary `boot_request`. */
  datatype View = View(stored: seq<Uuid>, requests: map<Uuid, BootRequest>)

  // ---- the life of a process -------------------------------------------------

  /** `looks`: how many more times the process is found alive when looked at.
      `signals`: how many signals it was sent. `raises`: whether sending it the
      n-th one raises (no such process group, or no permission). `exitCode`: None
      when asking for the exit code raises. */
  datatype Life = Life(looks: nat, signals: nat, raises: nat -> bool, exitCode: Option<int>)
  {
    function Looked(n: nat): Life {
      this.(looks := if looks > n then looks - n else 0)
    }

    /** Found alive when looked at, just before a signal to it raises. */
    predicate Resists() {
      (looks > 1 && raises(signals)) || (looks > 3 && raises(signals + 1))
    }

    /** Lives through both signals and still lives after the last look at it. */
    predicate Survives() {
      looks > 6 && !raises(signals) && !raises(signals + 1)
    }

    /** How many signals a kill sends it. */
    function SignalsSent(): nat {
      if looks > 3 && !raises(signals) then 2 else if looks > 1 then 1 else 0
    }

    function AfterKill(): Life {
      if Resists() then this.(looks := looks - 2 * SignalsSent(), signals := signals + SignalsSent())
      else Looked(6).(signals := signals + SignalsSent())
    }
  }

  /** How a process was treated: signalled until dead, or looked at twice. */
  datatype Treatment = Signalling | Looking

  function After(l: Life, how: Treatment): Life {
    match how
    case Signalling => l.AfterKill()
    case Looking => l.Looked(2)
  }

  // ---- lists of keys ---------------------------------------------------------

  function Elems(us: seq<Uuid>): set<Uuid> {
    if us == [] then {} else {us[0]} + Elems(us[1..])
  }

  /** No uuid occurs twice. */
  predicate Distinct(us: seq<Uuid>) {
    us == [] || (us[0] !in Elems(us[1..]) && Distinct(us[1..]))
  }

  function Without(us: seq<Uuid>, gone: set<Uuid>): (r: seq<Uuid>)
    ensures Elems(r) == Elems(us) - gone
  {
    if us == [] then []
    else
      var rest := Without(us[1..], gone);
      assert ([us[0]] + rest)[1..] == rest;
      if us[0] in gone then rest else [us[0]] + rest
  }

  function Select(us: seq<Uuid>, kept: set<Uuid>): (r: seq<Uuid>)
    ensures Elems(r) == Elems(us) * kept
  {
    if us == [] then []
    else
      var rest := Select(us[1..], kept);
      assert ([us[0]] + rest)[1..] == rest;
      if us[0] in kept then [us[0]] + rest else rest
  }

  lemma NoElems(us: seq<Uuid>)
    requires Elems(us) == {}
    ensures us == []
  {
  }

  lemma {:induction false} ElemsMeans(us: seq<Uuid>, u: Uuid)
    ensures u in Elems(us) <==> u in us
  {
    if us != [] {
      ElemsMeans(us[1..], u);
      assert us == [us[0]] + us[1..];
    }
  }

  lemma {:induction false} DistinctMeans(us: seq<Uuid>, i: nat, j: nat)
    requires Distinct(us) && i < j < |us|
    ensures us[i] != us[j]
  {
    if i > 0 {
      DistinctMeans(us[1..], i - 1, j - 1);
    } else {
      ElemsMeans(us[1..], us[j]);
      assert us[1..][j - 1] == us[j];
    }
  }

  lemma {:induction false} ElemsAppend(us: seq<Uuid>, u: Uuid)
    ensures Elems(us + [u]) == Elems(us) + {u}
    ensures Distinct(us) && u !in Elems(us) ==> Distinct(us + [u])
  {
    if us == [] {
      assert [u][1..] == [];
    } else {
      assert (us + [u])[1..] == us[1..] + [u];
      ElemsAppend(us[1..], u);
    }
  }

  lemma {:induction false} ElemsPrefixStep(us: seq<Uuid>, k: nat)
    requires k < |us| && Distinct(us)
    ensures us[k] in Elems(us) && us[k] !in Elems(us[..k])
    ensures us[..k + 1] == us[..k] + [us[k]] && Elems(us[..k + 1]) == Elems(us[..k]) + {us[k]}
  {
    ElemsMeans(us, us[k]);
    ElemsMeans(us[..k], us[k]);
    forall i | 0 <= i < k ensures us[i] != us[k] {
      DistinctMeans(us, i, k);
    }
    assert us[..k + 1] == us[..k] + [us[k]];
    ElemsAppend(us[..k], us[k]);
  }

  lemma {:induction false} PrefixElems(us: seq<Uuid>, k: nat)
    requires k <= |us|
    ensures Elems(us[..k]) <= Elems(us)
  {
    if k > 0 {
      PrefixElems(us[1..], k - 1);
      assert us[..k][1..] == us[1..][..k - 1];
    }
  }

  lemma {:induction false} WithoutKeepsDistinct(us: seq<Uuid>, gone: set<Uuid>)
    requires Distinct(us)
    ensures Distinct(Without(us, gone))
  {
    if us != [] {
      WithoutKeepsDistinct(us[1..], gone);
      assert us[0] !in gone ==> Without(us, gone)[1..] == Without(us[1..], gone);
    }
  }

  /** What is kept keeps its order. */
  lemma {:induction false} WithoutAppend(us: seq<Uuid>, u: Uuid, gone: set<Uuid>)
    ensures Without(us + [u], gone) == Without(us, gone) + if u in gone then [] else [u]
  {
    if us == [] {
      assert [u][1..] == [];
    } else {
      assert (us + [u])[1..] == us[1..] + [u];
      WithoutAppend(us[1..], u, gone);
    }
  }

  lemma {:induction false} WithoutTwice(us: seq<Uuid>, a: set<Uuid>, b: set<Uuid>)
    ensures Without(Without(us, a), b) == Without(us, a + b)
  {
    if us != [] {
      WithoutTwice(us[1..], a, b);
      assert us[0] !in a ==> Without(us, a)[1..] == Without(us[1..], a);
    }
  }

  lemma {:induction false} WithoutNone(us: seq<Uuid>)
    ensures Without(us, {}) == us
  {
    if us != [] {
      WithoutNone(us[1..]);
    }
  }

  lemma {:induction false} SelectAppend(us: seq<Uuid>, u: Uuid, kept: set<Uuid>)
    ensures Select(us + [u], kept) == Select(us, kept) + if u in kept then [u] else []
  {
    if us == [] {
      assert [u][1..] == [];
    } else {
      assert (us + [u])[1..] == us[1..] + [u];
      SelectAppend(us[1..], u, kept);
    }
  }

  // ---- validity and queries ----------------------------------------------------

  /** Every stored process has a request, and every request has a host. */
  ghost predicate Valid(v: View) {
    && Distinct(v.stored)
    && Elems(v.stored) <= v.requests.Keys
    && forall u :: u in v.requests ==> |v.requests[u].allowedHosts| >= 1
  }

  predicate Matches(search: (string, string) -> bool, q: Query, u: Uuid, m: Meta) {
    || u in q.uuids
    || (exists n :: n in q.names && search(n, m.name))
    || q.session == m.session
    || q.user == m.user
  }

  /** The matching keys, in the order they are searched. */
  function Matching(search: (string, string) -> bool, q: Query, us: seq<Uuid>, requests: map<Uuid, BootRequest>): (r: seq<Uuid>)
    requires Elems(us) <= requests.Keys
    ensures Elems(r) <= Elems(us)
  {
    if us == [] then []
    else
      var rest := Matching(search, q, us[1..], requests);
      assert ([us[0]] + rest)[1..] == rest;
      if Matches(search, q, us[0], requests[us[0]].meta) then [us[0]] + rest else rest
  }

  lemma {:induction false} MatchingMeans(search: (string, string) -> bool, q: Query, us: seq<Uuid>, requests: map<Uuid, BootRequest>)
    requires Elems(us) <= requests.Keys
    ensures forall u :: u in Elems(Matching(search, q, us, requests)) <==> u in Elems(us) && Matches(search, q, u, requests[u].meta)
    ensures Distinct(us) ==> Distinct(Matching(search, q, us, requests))
  {
    if us != [] {
      MatchingMeans(search, q, us[1..], requests);
      assert Matches(search, q, us[0], requests[us[0]].meta) ==>
               Matching(search, q, us, requests)[1..] == Matching(search, q, us[1..], requests);
    }
  }

  lemma MatchingDistinct(search: (string, string) -> bool, q: Query, us: seq<Uuid>, requests: map<Uuid, BootRequest>)
    requires Elems(us) <= requests.Keys && Distinct(us)
    ensures Distinct(Matching(search, q, us, requests))
  {
    MatchingMeans(search, q, us, requests);
  }

  lemma {:induction false} MatchingAppend(search: (string, string) -> bool, q: Query, us: seq<Uuid>, u: Uuid, requests: map<Uuid, BootRequest>)
    requires u in requests && Elems(us) <= requests.Keys && Elems(us + [u]) <= requests.Keys
    ensures Matching(search, q, us + [u], requests) ==
            Matching(search, q, us, requests) + if Matches(search, q, u, requests[u].meta) then [u] else []
  {
    if us == [] {
      assert [u][1..] == [];
    } else {
      assert (us + [u])[1..] == us[1..] + [u];
      MatchingAppend(search, q, us[1..], u, requests);
    }
  }

  // ---- what each request does ------------------------------------------------------

  predicate Resisting(lives: map<Uuid, Life>, u: Uuid) {
    u in lives && lives[u].Resists()
  }

  /** The place of the first process that a kill fails on, or the end. */
  function FirstResisting(lives: map<Uuid, Life>, us: seq<Uuid>): (n: nat)
    ensures n <= |us|
    ensures forall i :: 0 <= i < n ==> !Resisting(lives, us[i])
    ensures n < |us| ==> Resisting(lives, us[n])
  {
    if us == [] || Resisting(lives, us[0]) then 0 else 1 + FirstResisting(lives, us[1..])
  }

  /** What a kill takes off. */
  function Taken(lives: map<Uuid, Life>, us: seq<Uuid>): (taken: seq<Uuid>)
    ensures taken <= us && Elems(taken) <= Elems(us)
  {
    PrefixElems(us, FirstResisting(lives, us));
    us[..FirstResisting(lives, us)]
  }

  /** What a kill looks at: what it takes off and the process it fails on. */
  function Visited(lives: map<Uuid, Life>, us: seq<Uuid>): (visited: seq<Uuid>)
    ensures visited <= us && Elems(visited) <= Elems(us)
  {
    var n := FirstResisting(lives, us);
    var end := if n < |us| then n + 1 else n;
    PrefixElems(us, end);
    us[..end]
  }

  /** What a kill reports of a process; the code is asked for at the sixth look. */
  function KillReport(u: Uuid, br: BootRequest, l: Life): Instance {
    Instance(u, br, Dead, if l.looks <= 5 then l.exitCode else None)
  }

  /** What looking at a process twice reports of it. */
  function Seen(u: Uuid, br: BootRequest, l: Life): Instance {
    Instance(u, br, if l.looks > 1 then Running else Dead, if l.looks == 0 then l.exitCode else None)
  }

  function Report(u: Uuid, br: BootRequest, l: Life, how: Treatment): Instance {
    match how
    case Signalling => KillReport(u, br, l)
    case Looking => Seen(u, br, l)
  }

  /** One report per uuid, in order. */
  predicate Reports(requests: map<Uuid, BootRequest>, lives: map<Uuid, Life>, how: Treatment, us: seq<Uuid>, list: seq<Instance>) {
    && |list| == |us|
    && forall i :: 0 <= i < |us| ==>
         us[i] in requests && us[i] in lives && list[i] == Report(us[i], requests[us[i]], lives[us[i]], how)
  }

  lemma ReportsAppend(requests: map<Uuid, BootRequest>, lives: map<Uuid, Life>, how: Treatment, us: seq<Uuid>, list: seq<Instance>, u: Uuid)
    requires Reports(requests, lives, how, us, list) && u in requests && u in lives
    ensures Reports(requests, lives, how, us + [u], list + [Report(u, requests[u], lives[u], how)])
  {
  }

  /** What the reports say. After a kill each process is reported dead, with its
      exit code if it was dead by the sixth look; a process looked at twice is
      reported running if it was alive at the second look, with its exit code if
      it was dead at the first. */
  lemma ReportsMean(requests: map<Uuid, BootRequest>, lives: map<Uuid, Life>, how: Treatment, us: seq<Uuid>, list: seq<Instance>, i: nat)
    requires Reports(requests, lives, how, us, list) && i < |us|
    ensures list[i].uuid == us[i] && list[i].request == requests[us[i]]
    ensures how == Signalling ==>
              && list[i].status == Dead
              && list[i].returnCode == if lives[us[i]].looks < 6 then lives[us[i]].exitCode else None
    ensures how == Looking ==>
              && (list[i].status == Running <==> lives[us[i]].looks >= 2)
              && list[i].returnCode == if lives[us[i]].looks == 0 then lives[us[i]].exitCode else None
  {
  }

  /** Killing takes the processes off the store one by one, up to the first that
      resists; that one ends it, with an exception and nothing reported. */
  predicate Killed(v: View, us: seq<Uuid>, lives: map<Uuid, Life>, v': View, r: Result<seq<Instance>, Exn>) {
    && v' == v.(stored := Without(v.stored, Elems(Taken(lives, us))))
    && match r
       case Ok(list) => FirstResisting(lives, us) == |us| && Reports(v.requests, lives, Signalling, us, list)
       case Err(e) => FirstResisting(lives, us) < |us| && e == Unhandled
  }

  lemma NothingKilled(v: View, lives: map<Uuid, Life>)
    ensures Killed(v, [], lives, v, Ok([])) && Elems(Taken(lives, [])) == {} && Elems(Visited(lives, [])) == {}
  {
    WithoutNone(v.stored);
  }

  /** One more process taken off and reported. */
  lemma KilledMore(v: View, us: seq<Uuid>, lives: map<Uuid, Life>, v': View, list: seq<Instance>, u: Uuid)
    requires Killed(v, us, lives, v', Ok(list)) && u in v.requests && u in lives && !lives[u].Resists()
    ensures Killed(v, us + [u], lives, v'.(stored := Without(v'.stored, {u})),
                   Ok(list + [KillReport(u, v.requests[u], lives[u])]))
  {
    var all := us + [u];
    forall i | 0 <= i < |all| ensures !Resisting(lives, all[i]) {
      assert i < |us| ==> all[i] == us[i];
    }
    assert FirstResisting(lives, all) == |all|;
    assert Taken(lives, us) == us && Taken(lives, all) == all;
    ElemsAppend(us, u);
    WithoutTwice(v.stored, Elems(us), {u});
    ReportsAppend(v.requests, lives, Signalling, us, list, u);
  }

  /** The next process resists. */
  lemma KilledNoMore(v: View, us: seq<Uuid>, lives: map<Uuid, Life>, k: nat, v': View, list: seq<Instance>)
    requires k < |us| && Killed(v, us[..k], lives, v', Ok(list)) && Resisting(lives, us[k])
    ensures Killed(v, us, lives, v', Err(Unhandled)) && FirstResisting(lives, us) == k
  {
    FirstResistingIs(lives, us, k);
    assert Taken(lives, us[..k]) == us[..k];
  }

  lemma FirstResistingIs(lives: map<Uuid, Life>, us: seq<Uuid>, k: nat)
    requires k < |us| && FirstResisting(lives, us[..k]) == k && Resisting(lives, us[k])
    ensures FirstResisting(lives, us) == k
  {
    forall i | 0 <= i < k ensures !Resisting(lives, us[i]) {
      assert us[..k][i] == us[i];
    }
  }

  /** The processes found dead at the second look. */
  function Fallen(lives: map<Uuid, Life>): set<Uuid> {
    set u | u in lives && lives[u].looks <= 1
  }

  /** Flushing takes off exactly those and reports each as it was seen. */
  predicate Flushed(v: View, us: seq<Uuid>, lives: map<Uuid, Life>, v': View, list: seq<Instance>) {
    && v' == v.(stored := Without(v.stored, Elems(us) * Fallen(lives)))
    && Reports(v.requests, lives, Looking, Select(us, Fallen(lives)), list)
  }

  lemma NothingFlushed(v: View, lives: map<Uuid, Life>)
    ensures Flushed(v, [], lives, v, [])
  {
    assert Elems([]) * Fallen(lives) == {};
    WithoutNone(v.stored);
  }

  /** One more process looked at and left. */
  lemma FlushedKeeps(v: View, us: seq<Uuid>, lives: map<Uuid, Life>, v': View, list: seq<Instance>, u: Uuid)
    requires Flushed(v, us, lives, v', list) && u !in Fallen(lives)
    ensures Flushed(v, us + [u], lives, v', list)
  {
    ElemsAppend(us, u);
    assert (Elems(us) + {u}) * Fallen(lives) == Elems(us) * Fallen(lives);
    SelectAppend(us, u, Fallen(lives));
  }

  /** One more process looked at and taken off. */
  lemma FlushedMore(v: View, us: seq<Uuid>, lives: map<Uuid, Life>, v': View, list: seq<Instance>, u: Uuid)
    requires Flushed(v, us, lives, v', list) && u in v.requests && u in Fallen(lives)
    ensures Flushed(v, us + [u], lives, v'.(stored := Without(v'.stored, {u})), list + [Seen(u, v.requests[u], lives[u])])
  {
    ElemsAppend(us, u);
    assert (Elems(us) + {u}) * Fallen(lives) == Elems(us) * Fallen(lives) + {u};
    SelectAppend(us, u, Fallen(lives));
    WithoutTwice(v.stored, Elems(us) * Fallen(lives), {u});
    ReportsAppend(v.requests, lives, Looking, Select(us, Fallen(lives)), list, u);
  }

  /** What trying one host gives: no process, or one, whose watcher may then
      fail to start, in which case the next host is tried all the same. */
  datatype Attempt = NoStart | Starts(life: Life, watched: bool)
  {
    predicate Done() {
      Starts? && watched
    }
  }

  /** The host at which the trying ends: the first that is done with, or the last. */
  function LastTried(attempts: nat -> Attempt, k: nat, n: nat): (last: nat)
    requires k < n
    ensures k <= last < n
    ensures forall i :: k <= i < last ==> !attempts(i).Done()
    ensures last + 1 < n ==> attempts(last).Done()
    decreases n - k
  {
    if attempts(k).Done() || k + 1 == n then k else LastTried(attempts, k + 1, n)
  }

  /** The process stored once the first `k` hosts were tried: the last started. */
  function StoredAfter(attempts: nat -> Attempt, k: nat): Option<Life> {
    if k == 0 then None
    else if attempts(k - 1).Starts? then Some(attempts(k - 1).life)
    else StoredAfter(attempts, k - 1)
  }

  /** A process is stored exactly if some host tried has started one, and then it
      is the one started last. */
  lemma {:induction false} StoredAfterMeans(attempts: nat -> Attempt, k: nat)
    ensures StoredAfter(attempts, k).Some? <==> exists i :: 0 <= i < k && attempts(i).Starts?
    ensures forall i :: 0 <= i < k && attempts(i).Starts? && (forall j :: i < j < k ==> !attempts(j).Starts?) ==>
              StoredAfter(attempts, k) == Some(attempts(i).life)
  {
    if k > 0 && !attempts(k - 1).Starts? {
      StoredAfterMeans(attempts, k - 1);
    }
  }

  /** What booting reports, having looked once. */
  function BootReport(u: Uuid, br: BootRequest, p: Option<Life>): Instance {
    match p
    case None => Instance(u, br, Dead, None)
    case Some(l) => Instance(u, br, if l.looks > 0 then Running else Dead, if l.looks == 0 then l.exitCode else None)
  }

  /** Booting refuses a request without hosts and a known uuid; otherwise the
      request is kept with the last host tried, and the last process started
      is stored. */
  predicate Booted(v: View, br: BootRequest, u: Uuid, attempts: nat -> Attempt, v': View, r: Result<Instance, Exn>) {
    if br.allowedHosts == [] || u in v.requests then r == Err(Drunc) && v' == v
    else
      var last := LastTried(attempts, 0, |br.allowedHosts|);
      var kept := br.(meta := br.meta.(hostname := br.allowedHosts[last]));
      var p := StoredAfter(attempts, last + 1);
      && v' == View(if p.Some? then v.stored + [u] else v.stored, v.requests[u := kept])
      && r == Ok(BootReport(u, kept, p))
  }

  /** The requests a query matches. */
  ghost function MatchingRequests(search: (string, string) -> bool, q: Query, requests: map<Uuid, BootRequest>): set<Uuid> {
    set u | u in requests && Matches(search, q, u, requests[u].meta)
  }

  /** They are selected by uuid, by name, by session or by user. */
  lemma MatchingRequestsMean(search: (string, string) -> bool, q: Query, requests: map<Uuid, BootRequest>, u: Uuid)
    ensures u in MatchingRequests(search, q, requests) <==>
              && u in requests
              && (|| u in q.uuids || (exists n :: n in q.names && search(n, requests[u].meta.name))
                  || q.session == requests[u].meta.session || q.user == requests[u].meta.user)
  {
  }

  function Emptied(v: View, u: Uuid): View {
    View(Without(v.stored, {u}), v.requests - {u})
  }

  /** Found alive when looked at once, just before ending it raises. */
  predicate Lingers(lives: map<Uuid, Life>, u: Uuid) {
    u in lives && lives[u].looks > 0 && lives[u].raises(lives[u].signals)
  }

  /** Restarting needs exactly one matching request, `u`, its process stored, and
      a process that is dead or can be ended. */
  ghost predicate Restarted(search: (string, string) -> bool, v: View, q: Query, lives: map<Uuid, Life>, attempts: nat -> Attempt,
                            v': View, r: Result<Instance, Exn>, u: Uuid) {
    if MatchingRequests(search, q, v.requests) != {u} then r == Err(Drunc) && v' == v && |MatchingRequests(search, q, v.requests)| != 1
    else if u !in Elems(v.stored) || Lingers(lives, u) then r == Err(Unhandled) && v' == v
    else Booted(Emptied(v, u), v.requests[u], u, attempts, v', r)
  }

  /** A request, with the lives it finds and what the hosts it tries give. */
  datatype Request =
    | Boot(br: BootRequest, uuid: Uuid, attempts: nat -> Attempt)
    | Kill(q: Query, lives: map<Uuid, Life>)
    | Flush(q: Query, lives: map<Uuid, Life>)
    | Restart(q: Query, lives: map<Uuid, Life>, attempts: nat -> Attempt)
    | Terminate(lives: map<Uuid, Life>)
    | Ps(q: Query)

  /** One request served. */
  ghost predicate Serves(search: (string, string) -> bool, v: View, req: Request, v': View)
    requires Valid(v)
  {
    match req
    case Boot(br, u, attempts) => exists r :: Booted(v, br, u, attempts, v', r)
    case Kill(q, lives) => exists r :: Killed(v, Matching(search, q, v.stored, v.requests), lives, v', r)
    case Flush(q, lives) => exists list :: Flushed(v, Matching(search, q, v.stored, v.requests), lives, v', list)
    case Restart(q, lives, attempts) => exists r, u :: Restarted(search, v, q, lives, attempts, v', r, u)
    case Terminate(lives) => exists r :: Killed(v, v.stored, lives, v', r)
    case Ps(_) => v' == v
  }

  lemma RestartServes(search: (string, string) -> bool, v: View, q: Query, lives: map<Uuid, Life>, attempts: nat -> Attempt,
                      v': View, r: Result<Instance, Exn>, u: Uuid)
    requires Valid(v) && Restarted(search, v, q, lives, attempts, v', r, u)
    ensures Serves(search, v, Restart(q, lives, attempts), v')
  {
  }

  const Empty := View([], map[])

  // ---- over all sequences of requests -------------------------------------------------

  lemma BootKeepsValid(v: View, br: BootRequest, u: Uuid, attempts: nat -> Attempt, v': View, r: Result<Instance, Exn>)
    requires Valid(v) && Booted(v, br, u, attempts, v', r)
    ensures Valid(v')
  {
    ElemsAppend(v.stored, u);
  }

  lemma EmptiedIsValid(v: View, u: Uuid)
    requires Valid(v)
    ensures Valid(Emptied(v, u))
  {
    WithoutKeepsDistinct(v.stored, {u});
  }

  lemma WithoutKeepsValid(v: View, gone: set<Uuid>)
    requires Valid(v)
    ensures Valid(v.(stored := Without(v.stored, gone)))
  {
    WithoutKeepsDistinct(v.stored, gone);
  }

  /** Every request keeps the dictionaries valid. */
  lemma ServesKeepsValid(search: (string, string) -> bool, v: View, req: Request, v': View)
    requires Valid(v) && Serves(search, v, req, v')
    ensures Valid(v')
  {
    match req
    case Boot(br, u, attempts) =>
      var r :| Booted(v, br, u, attempts, v', r);
      BootKeepsValid(v, br, u, attempts, v', r);
    case Kill(q, lives) =>
      WithoutKeepsValid(v, Elems(Taken(lives, Matching(search, q, v.stored, v.requests))));
    case Flush(q, lives) =>
      WithoutKeepsValid(v, Elems(Matching(search, q, v.stored, v.requests)) * Fallen(lives));
    case Restart(q, lives, attempts) =>
      var r, u :| Restarted(search, v, q, lives, attempts, v', r, u);
      if v' != v {
        EmptiedIsValid(v, u);
        BootKeepsValid(Emptied(v, u), v.requests[u], u, attempts, v', r);
      }
    case Terminate(lives) =>
      WithoutKeepsValid(v, Elems(Taken(lives, v.stored)));
    case Ps(_) =>
  }

  /** The boot inside a restart is never refused: a restart that gets as far as
      removing the process and its request puts the request back under the same
      uuid, changed at most in its host name, and touches nothing else. */
  lemma RestartRebootIsNotRefused(search: (string, string) -> bool, v: View, q: Query, lives: map<Uuid, Life>, attempts: nat -> Attempt,
                                  v': View, r: Result<Instance, Exn>, u: Uuid)
    requires Valid(v) && Restarted(search, v, q, lives, attempts, v', r, u) && v' != v
    ensures r.Ok? && r.value.uuid == u && u in Elems(v.stored)
    ensures v'.requests.Keys == v.requests.Keys
    ensures exists h :: h in v.requests[u].allowedHosts
                        && v'.requests == v.requests[u := v.requests[u].(meta := v.requests[u].meta.(hostname := h))]
    ensures Elems(v'.stored) == Elems(v.stored) || Elems(v'.stored) == Elems(v.stored) - {u}
  {
    assert u in MatchingRequests(search, q, v.requests);
    var e := Emptied(v, u);
    ElemsAppend(e.stored, u);
    var hosts := v.requests[u].allowedHosts;
    var h := hosts[LastTried(attempts, 0, |hosts|)];
    assert h in hosts && v'.requests == v.requests[u := v.requests[u].(meta := v.requests[u].meta.(hostname := h))];
  }

  /** Known, but not stored (any more). */
  predicate Removed(v: View, u: Uuid) {
    u in v.requests && u !in v.stored
  }

  lemma ServesKeepsRemoved(search: (string, string) -> bool, v: View, req: Request, v': View, u: Uuid)
    requires Valid(v) && Serves(search, v, req, v') && Removed(v, u)
    ensures Removed(v', u) && v'.requests[u] == v.requests[u]
  {
    ElemsMeans(v.stored, u);
    ElemsMeans(v'.stored, u);
    match req
    case Boot(br, u', _) =>
      ElemsAppend(v.stored, u');
    case Restart(q, lives, attempts) =>
      var r, u' :| Restarted(search, v, q, lives, attempts, v', r, u');
      if v' != v {
        RestartRebootIsNotRefused(search, v, q, lives, attempts, v', r, u');
      }
    case _ =>
  }

  /** A request is known for ever. */
  lemma ServesKeepsKnown(search: (string, string) -> bool, v: View, req: Request, v': View)
    requires Valid(v) && Serves(search, v, req, v')
    ensures v.requests.Keys <= v'.requests.Keys
  {
    if req.Restart? {
      var r, u :| Restarted(search, v, req.q, req.lives, req.attempts, v', r, u);
      if v' != v {
        RestartRebootIsNotRefused(search, v, req.q, req.lives, req.attempts, v', r, u);
      }
    }
  }

  /** A run from the start: the views before and after each request. */
  ghost predicate IsRun(search: (string, string) -> bool, vs: seq<View>, reqs: seq<Request>) {
    && |vs| == |reqs| + 1
    && vs[0] == Empty
    && forall k :: 0 <= k < |reqs| ==> (Valid(vs[k]) ==> Serves(search, vs[k], reqs[k], vs[k + 1]))
  }

  /** In every state reachable from the start, the stored processes are among
      the known requests and every request has a host: queries never miss a key. */
  lemma {:induction false} ReachableIsValid(search: (string, string) -> bool, vs: seq<View>, reqs: seq<Request>, k: nat)
    requires IsRun(search, vs, reqs) && k <= |reqs|
    ensures Valid(vs[k])
  {
    if k > 0 {
      ReachableIsValid(search, vs, reqs, k - 1);
      ServesKeepsValid(search, vs[k - 1], reqs[k - 1], vs[k]);
    }
  }

  /** Removal is permanent: a known uuid that is not stored is not stored after
      any later sequence of requests, and its request stays as it is. */
  lemma {:induction false} RemovalIsPermanent(search: (string, string) -> bool, vs: seq<View>, reqs: seq<Request>, u: Uuid, j: nat, k: nat)
    requires IsRun(search, vs, reqs) && j <= k <= |reqs|
    requires Removed(vs[j], u)
    ensures Removed(vs[k], u) && vs[k].requests[u] == vs[j].requests[u]
    decreases k
  {
    if j < k {
      RemovalIsPermanent(search, vs, reqs, u, j, k - 1);
      ReachableIsValid(search, vs, reqs, k - 1);
      ServesKeepsRemoved(search, vs[k - 1], reqs[k - 1], vs[k], u);
    }
  }

  /** A restart that singles out a removed process fails and changes nothing,
      and so does booting again under its uuid. */
  lemma RemovedCannotComeBack(search: (string, string) -> bool, v: View, u: Uuid, q: Query, br: BootRequest,
                              lives: map<Uuid, Life>, attempts: nat -> Attempt,
                              v': View, r: Result<Instance, Exn>, u': Uuid, v'': View, r': Result<Instance, Exn>)
    requires Valid(v) && Removed(v, u)
    requires MatchingRequests(search, q, v.requests) == {u} && Restarted(search, v, q, lives, attempts, v', r, u')
    requires Booted(v, br, u, attempts, v'', r')
    ensures r == Err(Unhandled) && v' == v
    ensures r' == Err(Drunc) && v'' == v
  {
    ElemsMeans(v.stored, u);
    assert |{u}| == 1;
  }

  // ---- killing ------------------------------------------------------------------------

  lemma NoneResistsIff(lives: map<Uuid, Life>, us: seq<Uuid>)
    ensures FirstResisting(lives, us) == |us| <==> forall u :: u in Elems(us) ==> !Resisting(lives, u)
  {
    var n := FirstResisting(lives, us);
    if n < |us| {
      ElemsMeans(us, us[n]);
    } else {
      forall u | u in Elems(us) ensures !Resisting(lives, u) {
        ElemsMeans(us, u);
        var i :| 0 <= i < |us| && us[i] == u;
      }
    }
  }

  /** No process the query matches is found alive just before a signal to it raises. */
  ghost predicate NoMatchResists(search: (string, string) -> bool, q: Query, v: View, lives: map<Uuid, Life>)
    requires Valid(v)
  {
    forall u :: u in Elems(v.stored) && Matches(search, q, u, v.requests[u].meta) ==> !Resisting(lives, u)
  }

  lemma NoMatchResistsIff(search: (string, string) -> bool, q: Query, v: View, lives: map<Uuid, Life>)
    requires Valid(v)
    ensures var us := Matching(search, q, v.stored, v.requests);
            NoMatchResists(search, q, v, lives) <==> FirstResisting(lives, us) == |us|
  {
    var us := Matching(search, q, v.stored, v.requests);
    MatchingMeans(search, q, v.stored, v.requests);
    NoneResistsIff(lives, us);
    if NoMatchResists(search, q, v, lives) {
      forall u | u in Elems(us) ensures !Resisting(lives, u) {
      }
    } else {
      var u :| u in Elems(v.stored) && Matches(search, q, u, v.requests[u].meta) && Resisting(lives, u);
      assert u in Elems(us);
    }
  }

  /** Exactly when a kill removes what it should: it ends normally, and leaves
      just the stored processes the query does not match, if and only if no
      process the query matches resists. */
  lemma KillIsExactIff(search: (string, string) -> bool, v: View, q: Query, lives: map<Uuid, Life>, v': View, r: Result<seq<Instance>, Exn>)
    requires Valid(v) && Killed(v, Matching(search, q, v.stored, v.requests), lives, v', r)
    ensures r.Ok? <==> NoMatchResists(search, q, v, lives)
    ensures (forall u :: u in Elems(v'.stored) <==> u in Elems(v.stored) && !Matches(search, q, u, v.requests[u].meta))
            <==> NoMatchResists(search, q, v, lives)
  {
    var us := Matching(search, q, v.stored, v.requests);
    var n := FirstResisting(lives, us);
    MatchingMeans(search, q, v.stored, v.requests);
    NoMatchResistsIff(search, q, v, lives);
    if n == |us| {
      assert Taken(lives, us) == us;
    } else {
      ElemsPrefixStep(us, n);
      assert us[n] in Elems(v'.stored) && Matches(search, q, us[n], v.requests[us[n]].meta);
    }
  }

  /** The processes reported on. */
  function Reported(list: seq<Instance>): set<Uuid> {
    set i | 0 <= i < |list| :: list[i].uuid
  }

  /** They are those asked for, each reported once. */
  lemma ReportsName(requests: map<Uuid, BootRequest>, lives: map<Uuid, Life>, how: Treatment, us: seq<Uuid>, list: seq<Instance>)
    requires Reports(requests, lives, how, us, list) && Distinct(us)
    ensures Reported(list) == Elems(us)
    ensures forall i, j :: 0 <= i < j < |list| ==> list[i].uuid != list[j].uuid
  {
    forall u ensures u in Elems(us) <==> u in Reported(list) {
      ElemsMeans(us, u);
      if u in us {
        var i :| 0 <= i < |us| && us[i] == u;
        assert list[i].uuid == u;
      }
    }
    forall i, j | 0 <= i < j < |us| ensures us[i] != us[j] {
      DistinctMeans(us, i, j);
    }
  }

  /** A kill on which no matching process resists leaves exactly the stored
      processes the query does not match, and reports each of the others once,
      in order, as dead. */
  lemma KillIsExact(search: (string, string) -> bool, v: View, q: Query, lives: map<Uuid, Life>, v': View, r: Result<seq<Instance>, Exn>)
    requires Valid(v) && Killed(v, Matching(search, q, v.stored, v.requests), lives, v', r)
    requires NoMatchResists(search, q, v, lives)
    ensures r.Ok? && v'.requests == v.requests
    ensures forall u :: u in Elems(v'.stored) <==> u in Elems(v.stored) && !Matches(search, q, u, v.requests[u].meta)
    ensures forall u :: u in Reported(r.value) <==> u in Elems(v.stored) && Matches(search, q, u, v.requests[u].meta)
    ensures forall i, j :: 0 <= i < j < |r.value| ==> r.value[i].uuid != r.value[j].uuid
  {
    var us := Matching(search, q, v.stored, v.requests);
    KillIsExactIff(search, v, q, lives, v', r);
    MatchingMeans(search, q, v.stored, v.requests);
    ReportsName(v.requests, lives, Signalling, us, r.value);
  }

  /** Otherwise exactly the matching processes before the first that resists are
      taken off; that one and those after it stay, and nothing is reported. */
  lemma KillStopsAtFirst(search: (string, string) -> bool, v: View, q: Query, lives: map<Uuid, Life>, v': View, r: Result<seq<Instance>, Exn>)
    requires Valid(v) && Killed(v, Matching(search, q, v.stored, v.requests), lives, v', r)
    requires !NoMatchResists(search, q, v, lives)
    ensures var us, n := Matching(search, q, v.stored, v.requests), FirstResisting(lives, Matching(search, q, v.stored, v.requests));
            && r == Err(Unhandled) && n < |us| && Resisting(lives, us[n])
            && (forall i :: 0 <= i < n ==> !Resisting(lives, us[i]) && us[i] !in Elems(v'.stored))
            && (forall i :: n <= i < |us| ==> us[i] in Elems(v'.stored))
            && Elems(v'.stored) == Elems(v.stored) - Elems(us[..n])
  {
    var us := Matching(search, q, v.stored, v.requests);
    var n := FirstResisting(lives, us);
    NoMatchResistsIff(search, q, v, lives);
    MatchingMeans(search, q, v.stored, v.requests);
    forall i | 0 <= i < |us| ensures us[i] in Elems(us[..n]) <==> i < n {
      ElemsMeans(us[..n], us[i]);
      if i < n {
        assert us[..n][i] == us[i];
      } else {
        forall k | 0 <= k < n ensures us[..n][k] != us[i] {
          DistinctMeans(us, k, i);
        }
      }
    }
    forall i | 0 <= i < |us| ensures us[i] in Elems(v.stored) {
      ElemsMeans(us, us[i]);
    }
  }

  /** A process that does not resist is alive after a kill, though reported dead,
      if and only if it lives through both signals. */
  lemma ReportedDeadIff(requests: map<Uuid, BootRequest>, lives: map<Uuid, Life>, us: seq<Uuid>, list: seq<Instance>, i: nat)
    requires Reports(requests, lives, Signalling, us, list) && i < |us| && FirstResisting(lives, us) == |us|
    ensures list[i].status == Dead
    ensures lives[us[i]].AfterKill().looks > 0 <==> lives[us[i]].Survives()
    ensures lives[us[i]].Survives() ==> lives[us[i]].SignalsSent() == 2
  {
  }

  /** A termination ends normally, and leaves nothing stored, if and only if no
      stored process resists; the requests are kept. */
  lemma TerminateLeavesNothing(v: View, lives: map<Uuid, Life>, v': View, r: Result<seq<Instance>, Exn>)
    requires Distinct(v.stored) && Killed(v, v.stored, lives, v', r)
    ensures r.Ok? <==> forall u :: u in Elems(v.stored) ==> !Resisting(lives, u)
    ensures v'.stored == [] <==> forall u :: u in Elems(v.stored) ==> !Resisting(lives, u)
    ensures v'.requests == v.requests
  {
    var n := FirstResisting(lives, v.stored);
    NoneResistsIff(lives, v.stored);
    if n == |v.stored| {
      assert Taken(lives, v.stored) == v.stored;
      NoElems(v'.stored);
    } else {
      ElemsPrefixStep(v.stored, n);
      assert v.stored[n] in Elems(v'.stored);
    }
  }

  /** Two processes, the first of them dead. */
  function Two(br: BootRequest): View {
    View([Uuid("a"), Uuid("b")], map[Uuid("a") := br, Uuid("b") := br])
  }

  const Ended := Life(0, 0, _ => false, None)
  /** Alive, and not to be signalled. */
  const Untouchable := Life(2, 0, _ => true, None)
  /** Alive, and not to be killed. */
  const Sturdy := Life(7, 0, _ => false, None)

  function TwoLives(second: Life): map<Uuid, Life> {
    map[Uuid("a") := Ended, Uuid("b") := second]
  }

  lemma TwoAreDistinct(br: BootRequest)
    requires |br.allowedHosts| >= 1
    ensures Valid(Two(br)) && Elems([Uuid("a")]) == {Uuid("a")} && Elems([Uuid("b")]) == {Uuid("b")}
    ensures Without(Two(br).stored, {Uuid("a")}) == [Uuid("b")]
    ensures Without(Two(br).stored, {Uuid("b")}) == [Uuid("a")]
  {
    assert Two(br).stored[1..] == [Uuid("b")];
    assert [Uuid("a")][1..] == [] && [Uuid("b")][1..] == [];
  }

  /** A termination that stops half-way: the second of two processes is alive
      and cannot be signalled. The first is gone and nobody is told. */
  lemma TerminateStopsHalfWay(br: BootRequest, v': View, r: Result<seq<Instance>, Exn>)
    requires |br.allowedHosts| >= 1
    requires Killed(Two(br), Two(br).stored, TwoLives(Untouchable), v', r)
    ensures r == Err(Unhandled) && v'.stored == [Uuid("b")]
  {
    var us, lives := Two(br).stored, TwoLives(Untouchable);
    TwoAreDistinct(br);
    assert us[..1] == [Uuid("a")];
    FirstResistingIs(lives, us, 1);
  }

  /** So does a kill that asks for both. */
  lemma KillStopsHalfWay(search: (string, string) -> bool, q: Query, br: BootRequest, v': View, r: Result<seq<Instance>, Exn>)
    requires |br.allowedHosts| >= 1 && q.uuids == [Uuid("a"), Uuid("b")]
    requires Valid(Two(br))
    requires Killed(Two(br), Matching(search, q, Two(br).stored, Two(br).requests), TwoLives(Untouchable), v', r)
    ensures r == Err(Unhandled) && v'.stored == [Uuid("b")]
  {
    var v := Two(br);
    assert v.stored[1..] == [Uuid("b")] && v.stored[1..][1..] == [];
    assert Matching(search, q, v.stored, v.requests) == v.stored;
    TerminateStopsHalfWay(br, v', r);
  }

  /** A termination that reports a living process as dead, and forgets it. */
  lemma TerminateReportsTheLiving(br: BootRequest, v': View, r: Result<seq<Instance>, Exn>)
    requires |br.allowedHosts| >= 1
    requires Killed(Two(br), Two(br).stored, TwoLives(Sturdy), v', r)
    ensures r == Ok([Instance(Uuid("a"), br, Dead, None), Instance(Uuid("b"), br, Dead, None)]) && v'.stored == []
    ensures TwoLives(Sturdy)[Uuid("b")].AfterKill().looks > 0
  {
    var us, lives := Two(br).stored, TwoLives(Sturdy);
    TwoAreDistinct(br);
    forall u | u in Elems(us) ensures !Resisting(lives, u) {
    }
    TerminateLeavesNothing(Two(br), lives, v', r);
    assert r.Ok? && |r.value| == 2;
    var a, b := Instance(Uuid("a"), br, Dead, None), Instance(Uuid("b"), br, Dead, None);
    assert r.value[0] == KillReport(us[0], br, lives[us[0]]) == a;
    assert r.value[1] == KillReport(us[1], br, lives[us[1]]) == b;
    assert r.value == [a, b];
  }

  /** So does a kill that asks for both. */
  lemma KillReportsTheLiving(search: (string, string) -> bool, q: Query, br: BootRequest, v': View, r: Result<seq<Instance>, Exn>)
    requires |br.allowedHosts| >= 1 && q.uuids == [Uuid("a"), Uuid("b")]
    requires Valid(Two(br))
    requires Killed(Two(br), Matching(search, q, Two(br).stored, Two(br).requests), TwoLives(Sturdy), v', r)
    ensures r.Ok? && v'.stored == []
    ensures exists i :: 0 <= i < |r.value| && r.value[i].uuid == Uuid("b") && r.value[i].status == Dead
    ensures TwoLives(Sturdy)[Uuid("b")].AfterKill().looks > 0
  {
    var v := Two(br);
    assert v.stored[1..] == [Uuid("b")] && v.stored[1..][1..] == [];
    assert Matching(search, q, v.stored, v.requests) == v.stored;
    TerminateReportsTheLiving(br, v', r);
    assert r.value[1].uuid == Uuid("b");
  }

  // ---- flushing -----------------------------------------------------------------------

  lemma {:induction false} SelectKeepsDistinct(us: seq<Uuid>, kept: set<Uuid>)
    requires Distinct(us)
    ensures Distinct(Select(us, kept))
  {
    if us != [] {
      SelectKeepsDistinct(us[1..], kept);
      assert us[0] in kept ==> Select(us, kept)[1..] == Select(us[1..], kept);
    }
  }

  /** A flush takes off exactly the matching processes found dead at the second
      look, and reports each of them, and no other, exactly once and as dead. */
  lemma FlushIsExact(search: (string, string) -> bool, v: View, q: Query, lives: map<Uuid, Life>, v': View, list: seq<Instance>)
    requires Valid(v) && Flushed(v, Matching(search, q, v.stored, v.requests), lives, v', list)
    ensures v'.requests == v.requests
    ensures forall u :: u in Elems(v'.stored) <==>
              u in Elems(v.stored) && !(Matches(search, q, u, v.requests[u].meta) && u in Fallen(lives))
    ensures forall u :: u in Reported(list) <==>
              u in Elems(v.stored) && Matches(search, q, u, v.requests[u].meta) && u in Fallen(lives)
    ensures forall i, j :: 0 <= i < j < |list| ==> list[i].uuid != list[j].uuid
    ensures forall i :: 0 <= i < |list| ==> list[i].status == Dead
  {
    var us := Matching(search, q, v.stored, v.requests);
    var fallen := Select(us, Fallen(lives));
    MatchingMeans(search, q, v.stored, v.requests);
    SelectKeepsDistinct(us, Fallen(lives));
    ReportsName(v.requests, lives, Looking, fallen, list);
    forall i | 0 <= i < |fallen| ensures fallen[i] in Fallen(lives) {
      ElemsMeans(fallen, fallen[i]);
    }
  }
}
