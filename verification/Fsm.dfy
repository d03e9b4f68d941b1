/** The transition table a controller is configured with: `FSM` and `Transition`.
    Matching a transition's source regular expression against a state is an
    uninterpreted predicate, `accepts`. */
module Fsm {
  import opened Wrappers

  datatype Transition = Transition(name: string, source: string, destination: string, help: string)
  {
    /** `Transition.__eq__`: help (and arguments) do not take part. */
    predicate Same(other: Transition) {
      name == other.name && destination == other.destination && source == other.source
    }
  }

  predicate UniqueNames(ts: seq<Transition>) {
    forall i, j :: 0 <= i < j < |ts| ==> ts[i].name != ts[j].name
  }

  function Filter<T(!new)>(p: T -> bool, s: seq<T>): (r: seq<T>)
    ensures forall x :: x in r <==> x in s && p(x)
    ensures |r| <= |s|
  {
    if s == [] then [] else (if p(s[0]) then [s[0]] else []) + Filter(p, s[1..])
  }

  /** The first of its name. */
  predicate IsFirst(ts: seq<Transition>, t: Transition) {
    exists k :: 0 <= k < |ts| && ts[k] == t && forall i :: 0 <= i < k ==> ts[i].name != t.name
  }

  lemma {:induction false} FilterFirst(ts: seq<Transition>, name: string)
    requires Filter((t: Transition) => t.name == name, ts) != []
    ensures IsFirst(ts, Filter((t: Transition) => t.name == name, ts)[0])
  {
    if ts[0].name == name {
      assert ts[0] == Filter((t: Transition) => t.name == name, ts)[0];
    } else {
      FilterFirst(ts[1..], name);
      var first := Filter((t: Transition) => t.name == name, ts[1..])[0];
      var k :| 0 <= k < |ts[1..]| && ts[1..][k] == first && forall i :: 0 <= i < k ==> ts[1..][i].name != first.name;
      assert ts[k + 1] == first;
      forall i | 0 <= i < k + 1 ensures ts[i].name != first.name {
        assert first in Filter((t: Transition) => t.name == name, ts[1..]);
        if i > 0 {
          assert ts[i] == ts[1..][i - 1];
        }
      }
    }
  }

  datatype Fsm = Fsm(initialState: string, transitions: seq<Transition>, accepts: (string, string) -> bool)
  {
    predicate CanExecute(state: string, t: Transition) {
      accepts(t.source, state)
    }

    /** None stands for the IndexError of taking the first element of an empty list. */
    function GetTransition(name: string): Option<Transition> {
      var named := Filter((t: Transition) => t.name == name, transitions);
      if named == [] then None else Some(named[0])
    }

    /** None stands for falling off the end of the Python function. */
    function GetDestination(source: string, t: Transition): Option<string> {
      var same := Filter((u: Transition) => u.Same(t), transitions);
      FirstDestination(source, t, same)
    }

    function FirstDestination(source: string, t: Transition, candidates: seq<Transition>): Option<string> {
      if candidates == [] then None
      else if CanExecute(source, t) then
        Some(if candidates[0].destination == "" then source else candidates[0].destination)
      else FirstDestination(source, t, candidates[1..])
    }

    /** A looked-up transition is in the table under that name, and lookup
        fails exactly on names the table does not have. */
    lemma GetTransitionFinds(name: string)
      ensures GetTransition(name) == None <==> forall t :: t in transitions ==> t.name != name
      ensures GetTransition(name).Some? ==>
                GetTransition(name).value in transitions && GetTransition(name).value.name == name
    {
      var named := Filter((t: Transition) => t.name == name, transitions);
      if named != [] {
        assert named[0] in named;
      } else {
        forall t | t in transitions ensures t.name != name {
          assert t in named <==> t in transitions && t.name == name;
        }
      }
    }

    /** Were there several of that name, it would be the first. */
    lemma GetTransitionIsFirst(name: string)
      requires GetTransition(name).Some?
      ensures IsFirst(transitions, GetTransition(name).value)
    {
      FilterFirst(transitions, name);
    }

    /** With unique names the answer is the only transition so named. */
    lemma GetTransitionUnique(t: Transition)
      requires UniqueNames(transitions) && t in transitions
      ensures GetTransition(t.name) == Some(t)
    {
      GetTransitionFinds(t.name);
    }

    /** The destination lookup gives an answer exactly for known transitions
        enabled in the source state, and then it is where the transition leads
        (an empty destination means "stay"). */
    lemma GetDestinationIff(source: string, t: Transition)
      ensures GetDestination(source, t).Some? <==>
                && accepts(t.source, source)
                && exists u :: u in transitions && u.name == t.name && u.source == t.source && u.destination == t.destination
      ensures GetDestination(source, t).Some? ==>
                GetDestination(source, t).value == if t.destination == "" then source else t.destination
    {
      var same := Filter((u: Transition) => u.Same(t), transitions);
      if same != [] {
        assert same[0] in same;
      }
      FirstDestinationIff(source, t, same);
      if u :| u in transitions && u.name == t.name && u.source == t.source && u.destination == t.destination {
        assert u in same;
      }
    }

    lemma FirstDestinationIff(source: string, t: Transition, candidates: seq<Transition>)
      ensures FirstDestination(source, t, candidates).Some? <==> CanExecute(source, t) && candidates != []
    {
    }
  }

  /** `_enusure_unique_transition`: Some(name) is the DuplicateTransition error. */
  method EnsureUniqueTransition(ts: seq<Transition>) returns (duplicate: Option<string>)
    ensures duplicate == None <==> UniqueNames(ts)
    ensures duplicate.Some? ==>
              exists i, j :: 0 <= i < j < |ts| && ts[i].name == ts[j].name == duplicate.value && UniqueNames(ts[..j])
  {
    var seen: set<string> := {};
    for k := 0 to |ts|
      invariant seen == set i | 0 <= i < k :: ts[i].name
      invariant UniqueNames(ts[..k])
    {
      if ts[k].name in seen {
        var i :| 0 <= i < k && ts[i].name == ts[k].name;
        return Some(ts[k].name);
      }
      seen := seen + {ts[k].name};
    }
    assert ts[..|ts|] == ts;
    return None;
  }
}
