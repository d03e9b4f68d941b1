/** `propagate_to_list`: one thread per child, each calling its child and adding
    to a shared list of responses. A run is any interleaving of the threads. */
module Propagation {
  import opened Exceptions
  import opened Protocol
  import opened Wrappers

  /** What one thread meets: whether the broadcast that opens it returns, what
      calling its child gives, and what the broadcast about a response raises.
      The call takes place in one step: it touches nothing the other threads do. */
  datatype Plan = Plan(opens: bool, call: Result<Response, Exn>, report: Option<Exn>)

  datatype Pc = Waiting | Calling | Reporting | Handling(exn: Exn) | Closing | Done

  datatype State = State(pcs: seq<Pc>, arrived: seq<(nat, Response)>)

  function Start(plans: seq<Plan>): State {
    State(seq(|plans|, _ => Waiting), [])
  }

  function NextPc(p: Plan, pc: Pc): Pc {
    match pc
    case Waiting => if p.opens then Calling else Done
    case Calling => (match p.call case Ok(_) => Reporting case Err(e) => Handling(e))
    case Reporting => (match p.report case None => Done case Some(e) => Handling(e))
    case Handling(_) => Closing
    case Closing => Done
    case Done => Done
  }

  /** The response a step appends to the shared list, under the lock. */
  function Adds(p: Plan, pc: Pc): Option<Response> {
    match pc
    case Calling => if p.call.Ok? then Some(p.call.value) else None
    case Handling(e) => Some(Thrown(e))
    case _ => None
  }

  /** One step of thread `i`. */
  function Step(plans: seq<Plan>, s: State, i: nat): State
    requires |s.pcs| == |plans|
  {
    if i >= |plans| then s
    else
      var added := Adds(plans[i], s.pcs[i]);
      State(s.pcs[i := NextPc(plans[i], s.pcs[i])], if added.Some? then s.arrived + [(i, added.value)] else s.arrived)
  }

  function Run(plans: seq<Plan>, schedule: seq<nat>): (s: State)
    ensures |s.pcs| == |plans|
  {
    if schedule == [] then Start(plans)
    else Step(plans, Run(plans, schedule[..|schedule| - 1]), schedule[|schedule| - 1])
  }

  /** All threads have been joined. */
  predicate Joined(s: State) {
    forall i :: 0 <= i < |s.pcs| ==> s.pcs[i] == Done
  }

  /** The responses in the order they arrived. */
  function Responses(s: State): seq<Response> {
    seq(|s.arrived|, k requires 0 <= k < |s.arrived| => s.arrived[k].1)
  }

  /** The responses thread `i` added. */
  function Of(arrived: seq<(nat, Response)>, i: nat): seq<Response> {
    if arrived == [] then []
    else Of(arrived[..|arrived| - 1], i) +
         (if arrived[|arrived| - 1].0 == i then [arrived[|arrived| - 1].1] else [])
  }

  /** What a thread contributes in all. A response whose broadcast raises is
      followed by a second one for the same child. */
  function Contribution(p: Plan): seq<Response> {
    if !p.opens then []
    else match p.call
      case Err(e) => [Thrown(e)]
      case Ok(r) => if p.report.Some? then [r, Thrown(p.report.value)] else [r]
  }

  function SoFar(p: Plan, pc: Pc): seq<Response> {
    match pc
    case Waiting => []
    case Calling => []
    case Reporting => if p.call.Ok? then [p.call.value] else []
    case Handling(_) => if p.call.Ok? then [p.call.value] else []
    case Closing => Contribution(p)
    case Done => Contribution(p)
  }

  predicate Possible(p: Plan, pc: Pc) {
    match pc
    case Waiting => true
    case Done => true
    case Calling => p.opens
    case Reporting => p.opens && p.call.Ok?
    case Handling(e) => p.opens && if p.call.Ok? then p.report == Some(e) else p.call == Err(e)
    case Closing => p.opens && (p.call.Ok? ==> p.report.Some?)
  }

  /** Thread `i` is where it can be, and has added what it should have by then. */
  predicate OnTrack(plans: seq<Plan>, s: State, i: nat)
    requires |s.pcs| == |plans| && i < |plans|
  {
    Possible(plans[i], s.pcs[i]) && Of(s.arrived, i) == SoFar(plans[i], s.pcs[i])
  }

  predicate Owned(arrived: seq<(nat, Response)>, n: nat) {
    forall k :: 0 <= k < |arrived| ==> arrived[k].0 < n
  }

  predicate Consistent(plans: seq<Plan>, s: State) {
    && |s.pcs| == |plans|
    && (forall i :: 0 <= i < |plans| ==> OnTrack(plans, s, i))
    && Owned(s.arrived, |plans|)
  }

  lemma OfAppend(arrived: seq<(nat, Response)>, x: (nat, Response), i: nat)
    ensures Of(arrived + [x], i) == Of(arrived, i) + if x.0 == i then [x.1] else []
  {
    assert (arrived + [x])[..|arrived|] == arrived;
  }

  /** A thread by itself. */
  lemma StepOfOne(p: Plan, pc: Pc)
    requires Possible(p, pc)
    ensures Possible(p, NextPc(p, pc))
    ensures SoFar(p, NextPc(p, pc)) == SoFar(p, pc) + if Adds(p, pc).Some? then [Adds(p, pc).value] else []
  {
  }

  lemma StepKeepsOnTrack(plans: seq<Plan>, s: State, i: nat, j: nat)
    requires |s.pcs| == |plans| && i < |plans| && j < |plans| && OnTrack(plans, s, j)
    ensures OnTrack(plans, Step(plans, s, i), j)
  {
    var added := Adds(plans[i], s.pcs[i]);
    if added.Some? {
      OfAppend(s.arrived, (i, added.value), j);
    }
    StepOfOne(plans[j], s.pcs[j]);
  }

  lemma StepKeepsConsistent(plans: seq<Plan>, s: State, i: nat)
    requires Consistent(plans, s)
    ensures Consistent(plans, Step(plans, s, i))
  {
    if i < |plans| {
      forall j | 0 <= j < |plans| ensures OnTrack(plans, Step(plans, s, i), j) {
        StepKeepsOnTrack(plans, s, i, j);
      }
    }
  }

  lemma {:induction false} RunIsConsistent(plans: seq<Plan>, schedule: seq<nat>)
    ensures Consistent(plans, Run(plans, schedule))
  {
    if schedule != [] {
      RunIsConsistent(plans, schedule[..|schedule| - 1]);
      StepKeepsConsistent(plans, Run(plans, schedule[..|schedule| - 1]), schedule[|schedule| - 1]);
    }
  }

  /** Whatever the interleaving, once all threads are joined each child has
      contributed exactly what its own thread was to contribute. */
  lemma JoinedContributions(plans: seq<Plan>, schedule: seq<nat>, i: nat)
    requires Joined(Run(plans, schedule)) && i < |plans|
    ensures Of(Run(plans, schedule).arrived, i) == Contribution(plans[i])
  {
    RunIsConsistent(plans, schedule);
    assert OnTrack(plans, Run(plans, schedule), i);
  }

  predicate Unraised(p: Plan) {
    p.opens && (p.call.Ok? ==> p.report == None)
  }

  predicate NoBroadcastRaises(plans: seq<Plan>) {
    forall i :: 0 <= i < |plans| ==> Unraised(plans[i])
  }

  predicate OneEach(arrived: seq<(nat, Response)>, n: nat) {
    forall i :: 0 <= i < n ==> |Of(arrived, i)| == 1
  }

  /** There is exactly one response per child, in every interleaving, if and
      only if no broadcast about opening or answering raises. */
  lemma OneResponsePerChildIff(plans: seq<Plan>, schedule: seq<nat>)
    requires Joined(Run(plans, schedule))
    ensures OneEach(Run(plans, schedule).arrived, |plans|) <==> NoBroadcastRaises(plans)
  {
    var arrived := Run(plans, schedule).arrived;
    forall i | 0 <= i < |plans| ensures |Of(arrived, i)| == 1 <==> Unraised(plans[i]) {
      JoinedContributions(plans, schedule, i);
    }
    if i :| 0 <= i < |plans| && !Unraised(plans[i]) {
      assert |Of(arrived, i)| != 1;
    }
  }

  lemma {:induction false} InOfIff(arrived: seq<(nat, Response)>, i: nat, r: Response)
    ensures r in Of(arrived, i) <==> (i, r) in arrived
  {
    if arrived != [] {
      InOfIff(arrived[..|arrived| - 1], i, r);
      assert arrived == arrived[..|arrived| - 1] + [arrived[|arrived| - 1]];
    }
  }

  lemma ArrivedIff(plans: seq<Plan>, schedule: seq<nat>, r: Response)
    requires Joined(Run(plans, schedule))
    ensures r in Responses(Run(plans, schedule)) <==> exists i :: 0 <= i < |plans| && r in Contribution(plans[i])
  {
    var s := Run(plans, schedule);
    RunIsConsistent(plans, schedule);
    if r in Responses(s) {
      var k :| 0 <= k < |Responses(s)| && Responses(s)[k] == r;
      var i := s.arrived[k].0;
      assert s.arrived[k] == (i, r);
      JoinedContributions(plans, schedule, i);
      InOfIff(s.arrived, i, r);
    }
    if i :| 0 <= i < |plans| && r in Contribution(plans[i]) {
      JoinedContributions(plans, schedule, i);
      InOfIff(s.arrived, i, r);
      var k :| 0 <= k < |s.arrived| && s.arrived[k] == (i, r);
      assert Responses(s)[k] == r;
    }
  }

  /** The parent's verdict, and its answer to a request for control, are those
      of the children's answers taken in their own order, for every
      interleaving of the threads. */
  lemma VerdictIsOrderFree(plans: seq<Plan>, schedule: seq<nat>, inOrder: seq<Response>)
    requires Joined(Run(plans, schedule)) && NoBroadcastRaises(plans)
    requires |inOrder| == |plans| && forall i :: 0 <= i < |plans| ==> inOrder[i] == Broadcasted(plans[i].call)
    ensures Judge(Responses(Run(plans, schedule))) == Judge(inOrder)
    ensures ControlAnswer(Responses(Run(plans, schedule))).flag == ControlAnswer(inOrder).flag
  {
    var rs := Responses(Run(plans, schedule));
    forall r ensures r in rs <==> r in inOrder {
      ArrivedIff(plans, schedule, r);
      forall i | 0 <= i < |plans| ensures Contribution(plans[i]) == [inOrder[i]] {
        assert Unraised(plans[i]);
      }
      if r in rs {
        var i :| 0 <= i < |plans| && r in Contribution(plans[i]);
        assert inOrder[i] == r;
      }
      if r in inOrder {
        var i :| 0 <= i < |inOrder| && inOrder[i] == r;
        assert r in Contribution(plans[i]);
      }
    }
  }

  // ---- joining always comes to an end ---------------------------------------

  function Rank(pc: Pc): nat {
    match pc
    case Waiting => 5
    case Calling => 4
    case Reporting => 3
    case Handling(_) => 2
    case Closing => 1
    case Done => 0
  }

  function Turns(schedule: seq<nat>, i: nat): nat {
    if schedule == [] then 0
    else Turns(schedule[..|schedule| - 1], i) + if schedule[|schedule| - 1] == i then 1 else 0
  }

  lemma {:induction false} RankFalls(plans: seq<Plan>, schedule: seq<nat>, i: nat)
    requires i < |plans|
    ensures Rank(Run(plans, schedule).pcs[i]) <= if Turns(schedule, i) <= 5 then 5 - Turns(schedule, i) else 0
  {
    if schedule != [] {
      RankFalls(plans, schedule[..|schedule| - 1], i);
    }
  }

  /** No thread waits for another: five turns each, in any order, join them all. */
  lemma FairSchedulesJoin(plans: seq<Plan>, schedule: seq<nat>)
    requires forall i :: 0 <= i < |plans| ==> Turns(schedule, i) >= 5
    ensures Joined(Run(plans, schedule))
  {
    forall i | 0 <= i < |plans| ensures Run(plans, schedule).pcs[i] == Done {
      RankFalls(plans, schedule, i);
    }
  }
}
