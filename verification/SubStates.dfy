/** The sub-state of a controller is a string such as "preparing-conf" or
    "conf-ready"; when it equals the operational state the node is idle. This
    module relates those strings to the abstract phases they stand for. */
module SubStates {
  import opened Wrappers

  datatype Stage = Preparing | Ready | Propagating | Propagated | Executing | Terminated | Finalising

  datatype Phase = Idle | Busy(stage: Stage, transition: string)

  /** True of the marks written before the transition name. */
  predicate Leading(s: Stage) {
    s.Preparing? || s.Propagating? || s.Executing? || s.Finalising?
  }

  function Marker(s: Stage): string {
    match s
    case Preparing => "preparing"
    case Ready => "ready"
    case Propagating => "propagating"
    case Propagated => "propagated"
    case Executing => "executing"
    case Terminated => "terminated"
    case Finalising => "finalising"
  }

  /** The marks as they are spelt. */
  function Text(s: Stage, name: string): string {
    match s
    case Preparing => "preparing-" + name
    case Ready => name + "-ready"
    case Propagating => "propagating-" + name
    case Propagated => name + "-propagated"
    case Executing => "executing-" + name
    case Terminated => name + "-terminated"
    case Finalising => "finalising-" + name
  }

  lemma Regroup(a: string, b: string, c: string, bc: string)
    requires bc == b + c
    ensures a + bc == a + b + c && bc + a == b + c + a
  {
  }

  /** A marker word and a transition name, with a hyphen between. */
  lemma TextSplits(s: Stage, name: string)
    ensures Text(s, name) == if Leading(s) then Marker(s) + "-" + name else name + "-" + Marker(s)
  {
    match s
    case Preparing => Regroup(name, "preparing", "-", "preparing-");
    case Ready => Regroup(name, "-", "ready", "-ready");
    case Propagating => Regroup(name, "propagating", "-", "propagating-");
    case Propagated => Regroup(name, "-", "propagated", "-propagated");
    case Executing => Regroup(name, "executing", "-", "executing-");
    case Terminated => Regroup(name, "-", "terminated", "-terminated");
    case Finalising => Regroup(name, "finalising", "-", "finalising-");
  }

  function Encode(state: string, phase: Phase): string {
    match phase
    case Idle => state
    case Busy(stage, name) => Text(stage, name)
  }

  predicate HyphenFree(s: string) {
    '-' !in s
  }

  predicate IsMarker(s: string) {
    exists stage: Stage :: Marker(stage) == s
  }

  /** What a mark method does to the sub-state: None is InvalidSubTransition. */
  function Mark(sub: string, from: Stage, to: Stage, name: string): Option<string> {
    if sub == Text(from, name) then Some(Text(to, name)) else None
  }

  /** The same step on phases. */
  function MarkPhase(phase: Phase, from: Stage, to: Stage, name: string): Option<Phase> {
    if phase == Busy(from, name) then Some(Busy(to, name)) else None
  }

  function BeforeHyphen(s: string): string {
    if s == [] || s[0] == '-' then [] else [s[0]] + BeforeHyphen(s[1..])
  }

  function StageOf(word: string, leading: bool): Option<Stage> {
    if leading then
      if word == "preparing" then Some(Preparing)
      else if word == "propagating" then Some(Propagating)
      else if word == "executing" then Some(Executing)
      else if word == "finalising" then Some(Finalising)
      else None
    else
      if word == "ready" then Some(Ready)
      else if word == "propagated" then Some(Propagated)
      else if word == "terminated" then Some(Terminated)
      else None
  }

  /** Reads a sub-state back. */
  function DecodePhase(sub: string): Phase {
    var left := BeforeHyphen(sub);
    if |left| < |sub| then
      var right := sub[|left| + 1..];
      match StageOf(left, true)
      case Some(stage) => Busy(stage, right)
      case None =>
        match StageOf(right, false)
        case Some(stage) => Busy(stage, left)
        case None => Idle
    else Idle
  }

  lemma {:induction false} BeforeHyphenSplits(left: string, right: string)
    requires HyphenFree(left)
    ensures BeforeHyphen(left + "-" + right) == left
  {
    if left != [] {
      var s := left + "-" + right;
      assert s[0] == left[0] && s[1..] == left[1..] + "-" + right;
      BeforeHyphenSplits(left[1..], right);
    }
  }

  lemma {:induction false} BeforeHyphenWhole(s: string)
    requires HyphenFree(s)
    ensures BeforeHyphen(s) == s
  {
    if s != [] {
      BeforeHyphenWhole(s[1..]);
    }
  }

  lemma SplitUnique(a: string, b: string, c: string, d: string)
    requires HyphenFree(a) && HyphenFree(c)
    requires a + "-" + b == c + "-" + d
    ensures a == c && b == d
  {
    BeforeHyphenSplits(a, b);
    BeforeHyphenSplits(c, d);
    var s, t := a + "-" + b, c + "-" + d;
    assert b == s[|a| + 1..] && d == t[|c| + 1..];
  }

  lemma MarkersAreHyphenFree(s: Stage)
    ensures HyphenFree(Marker(s))
  {
  }

  lemma StageOfMarker(s: Stage)
    ensures StageOf(Marker(s), Leading(s)) == Some(s)
    ensures StageOf(Marker(s), !Leading(s)) == None
  {
  }

  lemma StageOfIsMarker(word: string, leading: bool)
    ensures StageOf(word, leading).Some? ==> Marker(StageOf(word, leading).value) == word
  {
  }

  /** Round trip: every sub-state a node with such names can show reads back
      to one phase, so the strings are a faithful code for the phases. */
  lemma DecodePhaseEncode(state: string, phase: Phase)
    requires HyphenFree(state)
    requires phase.Busy? ==> HyphenFree(phase.transition) && !IsMarker(phase.transition)
    ensures DecodePhase(Encode(state, phase)) == phase
  {
    match phase
    case Idle =>
      BeforeHyphenWhole(state);
    case Busy(stage, name) =>
      TextSplits(stage, name);
      MarkersAreHyphenFree(stage);
      StageOfMarker(stage);
      var left := if Leading(stage) then Marker(stage) else name;
      var right := if Leading(stage) then name else Marker(stage);
      BeforeHyphenSplits(left, right);
      var s := left + "-" + right;
      assert s == Text(stage, name);
      assert s[|left| + 1..] == right;
      StageOfIsMarker(name, true);
  }

  /** A node is idle exactly when its sub-state equals its operational state. */
  lemma IdleIffEqual(state: string, phase: Phase)
    requires HyphenFree(state)
    ensures Encode(state, phase) == state <==> phase == Idle
  {
    if phase.Busy? {
      var s := Text(phase.stage, phase.transition);
      TextSplits(phase.stage, phase.transition);
      assert s[if Leading(phase.stage) then |Marker(phase.stage)| else |phase.transition|] == '-';
    }
  }

  /** The guarded string steps are exactly the guarded phase steps. */
  lemma MarkRefines(state: string, phase: Phase, from: Stage, to: Stage, name: string)
    requires HyphenFree(state) && HyphenFree(name) && !IsMarker(name)
    requires phase.Busy? ==> HyphenFree(phase.transition) && !IsMarker(phase.transition)
    ensures Mark(Encode(state, phase), from, to, name) ==
            match MarkPhase(phase, from, to, name)
            case None => None
            case Some(next) => Some(Encode(state, next))
  {
    DecodePhaseEncode(state, phase);
    DecodePhaseEncode(state, Busy(from, name));
  }

  /** Exactly when two marks read the same although they should not: one leads,
      the other trails, and each transition is named after the other's marker. */
  lemma TextCollides(s: Stage, a: string, u: Stage, b: string)
    requires HyphenFree(a) && HyphenFree(b)
    ensures Text(s, a) == Text(u, b) <==>
              || (s == u && a == b)
              || (Leading(s) && !Leading(u) && a == Marker(u) && b == Marker(s))
              || (!Leading(s) && Leading(u) && a == Marker(u) && b == Marker(s))
  {
    TextSplits(s, a);
    TextSplits(u, b);
    MarkersAreHyphenFree(s);
    MarkersAreHyphenFree(u);
    StageOfMarker(s);
    StageOfMarker(u);
    if Text(s, a) == Text(u, b) {
      SplitUnique(if Leading(s) then Marker(s) else a, if Leading(s) then a else Marker(s),
                  if Leading(u) then Marker(u) else b, if Leading(u) then b else Marker(u));
    }
  }

  /** Without the restriction on names the code is ambiguous. */
  lemma AmbiguousNames()
    ensures Text(Preparing, "ready") == Text(Ready, "preparing")
    ensures Encode("conf-ready", Idle) == Encode("conf-ready", Busy(Ready, "conf"))
  {
  }
}
