/** What the numbering lists, said without following it: which segments and
    applications, under which names and numbers, and in which order. */
module Listings {
  import opened Segments
  import opened TreeIds

  /** The path leads down through enabled subsegments. */
  predicate HasSegment(s: Segment, q: Path)
    decreases |q|
  {
    q == [] || (q[0] < |s.segments| && s.segments[q[0]].enabled && HasSegment(s.segments[q[0]], q[1..]))
  }

  function SegmentAt(s: Segment, q: Path): Segment
    requires HasSegment(s, q)
    decreases |q|
  {
    if q == [] then s else SegmentAt(s.segments[q[0]], q[1..])
  }

  /** An application, under its place among the enabled ones. */
  predicate IsApplication(apps: seq<Application>, n: nat, path: Path, x: Item, k: nat) {
    k < |apps| && apps[k].enabled && x == Item(apps[k].id, path + [n + EnabledCount(apps[..k])], false)
  }

  /** The controller of the segment, or one of its enabled applications. */
  ghost predicate BelongsTo(s: Segment, path: Path, x: Item) {
    x == Item(s.controller, path, true) || exists k: nat :: IsApplication(s.applications, 0, path, x, k)
  }

  lemma {:induction false} ApplicationsListedIff(apps: seq<Application>, n: nat, path: Path, x: Item)
    ensures x in CollectApplications(apps, n, path) <==> exists k: nat :: IsApplication(apps, n, path, x, k)
    decreases |apps|
  {
    if apps != [] {
      var n' := if apps[0].enabled then n + 1 else n;
      ApplicationsListedIff(apps[1..], n', path, x);
      forall k: nat ensures IsApplication(apps, n, path, x, k + 1) <==> IsApplication(apps[1..], n', path, x, k) {
        if k < |apps[1..]| {
          assert apps[..k + 1][1..] == apps[1..][..k];
        }
      }
      assert IsApplication(apps, n, path, x, 0) <==> apps[0].enabled && x == Item(apps[0].id, path + [n], false);
      if k: nat :| IsApplication(apps[1..], n', path, x, k) {
        assert IsApplication(apps, n, path, x, k + 1);
      }
      if k: nat :| IsApplication(apps, n, path, x, k) {
        assert k > 0 ==> IsApplication(apps[1..], n', path, x, k - 1);
      }
    }
  }

  predicate InSubsegment(ss: seq<Segment>, path: Path, x: Item, j: nat) {
    j < |ss| && ss[j].enabled && x in Collect(ss[j], path + [j])
  }

  lemma {:induction false} SegmentsListedIff(ss: seq<Segment>, i: nat, path: Path, x: Item)
    ensures x in CollectSegments(ss, i, path) <==> exists j: nat :: i <= j && InSubsegment(ss, path, x, j)
    decreases |ss| - i
  {
    if i < |ss| {
      SegmentsListedIff(ss, i + 1, path, x);
      assert InSubsegment(ss, path, x, i) <==> ss[i].enabled && x in Collect(ss[i], path + [i]);
    }
  }

  /** Listed on account of the segment at the end of the path `q`. */
  ghost predicate ListedAt(s: Segment, path: Path, x: Item, q: Path) {
    HasSegment(s, q) && BelongsTo(SegmentAt(s, q), path + q, x)
  }

  lemma ListedBelow(s: Segment, path: Path, x: Item, j: nat, q: Path)
    requires j < |s.segments|
    ensures ListedAt(s, path, x, [j] + q) <==> s.segments[j].enabled && ListedAt(s.segments[j], path + [j], x, q)
  {
    var down := [j] + q;
    assert down[0] == j && down[1..] == q;
    assert path + down == path + [j] + q;
  }

  lemma ListedHere(s: Segment, path: Path, x: Item)
    ensures ListedAt(s, path, x, []) <==>
              x == Item(s.controller, path, true) || x in CollectApplications(s.applications, 0, path)
  {
    ApplicationsListedIff(s.applications, 0, path, x);
    assert path + [] == path;
  }

  lemma CollectParts(s: Segment, path: Path, x: Item)
    ensures x in Collect(s, path) <==>
              || x == Item(s.controller, path, true) || x in CollectApplications(s.applications, 0, path)
              || exists j: nat :: InSubsegment(s.segments, path, x, j)
  {
    SegmentsListedIff(s.segments, 0, path, x);
  }

  /** Listed, exactly: the controller of every segment reached through enabled
      ones, under its path, and each of its enabled applications, under that path
      and its place among them; each by its own name, and nothing else. */
  lemma {:induction false} ListedIff(s: Segment, path: Path, x: Item)
    ensures x in Collect(s, path) <==> exists q :: ListedAt(s, path, x, q)
    decreases s
  {
    CollectParts(s, path, x);
    ListedHere(s, path, x);
    if j: nat :| InSubsegment(s.segments, path, x, j) {
      ListedIff(s.segments[j], path + [j], x);
      var q :| ListedAt(s.segments[j], path + [j], x, q);
      ListedBelow(s, path, x, j, q);
    }
    if q :| ListedAt(s, path, x, q) {
      if q != [] {
        assert q == [q[0]] + q[1..];
        ListedBelow(s, path, x, q[0], q[1..]);
        ListedIff(s.segments[q[0]], path + [q[0]], x);
        assert InSubsegment(s.segments, path, x, q[0]);
      }
    }
  }

  // ---- the order ------------------------------------------------------------------

  /** One step down: into a subsegment, or to an application. */
  datatype Rung = Sub(n: nat) | App(n: nat)

  /** Subsegments come before applications, and each kind by number. */
  predicate RungLess(a: Rung, b: Rung) {
    match (a, b)
    case (Sub(m), Sub(n)) => m < n
    case (App(m), App(n)) => m < n
    case (Sub(_), App(_)) => true
    case (App(_), Sub(_)) => false
  }

  /** By the first step that differs, what is higher up first. */
  predicate Precedes(a: seq<Rung>, b: seq<Rung>) {
    b != [] && (a == [] || RungLess(a[0], b[0]) || (a[0] == b[0] && Precedes(a[1..], b[1..])))
  }

  /** The way to an item from depth `d` on. */
  function Way(x: Item, d: nat): seq<Rung>
    requires d <= |x.path|
  {
    seq(|x.path| - d, i requires 0 <= i < |x.path| - d =>
      if d + i == |x.path| - 1 && !x.controller then App(x.path[d + i]) else Sub(x.path[d + i]))
  }

  predicate Before(x: Item, y: Item, d: nat) {
    d <= |x.path| && d <= |y.path| && Precedes(Way(x, d), Way(y, d))
  }

  predicate InOrder(items: seq<Item>, d: nat) {
    forall i, j :: 0 <= i < j < |items| ==> Before(items[i], items[j], d)
  }

  lemma InOrderConcat(xs: seq<Item>, ys: seq<Item>, d: nat)
    requires InOrder(xs, d) && InOrder(ys, d)
    requires forall x, y :: x in xs && y in ys ==> Before(x, y, d)
    ensures InOrder(xs + ys, d)
  {
    var zs := xs + ys;
    forall i, j | 0 <= i < j < |zs| ensures Before(zs[i], zs[j], d) {
      if i < |xs| && |xs| <= j {
        assert zs[i] in xs && zs[j] in ys;
      }
    }
  }

  /** Within a subsegment, one rung further down. */
  lemma BeforeBelow(x: Item, y: Item, path: Path, n: nat)
    requires Before(x, y, |path| + 1) && path + [n] <= x.path && path + [n] <= y.path
    requires |x.path| == |path| + 1 ==> x.controller
    requires |y.path| == |path| + 1 ==> y.controller
    ensures Before(x, y, |path|)
  {
    var d := |path|;
    assert x.path[d] == n && y.path[d] == n;
    assert Way(x, d) == [Sub(n)] + Way(x, d + 1);
    assert Way(y, d) == [Sub(n)] + Way(y, d + 1);
  }

  lemma ApplicationsInOrder(apps: seq<Application>, path: Path)
    ensures InOrder(CollectApplications(apps, 0, path), |path|)
    ensures forall x :: x in CollectApplications(apps, 0, path) ==>
              |x.path| == |path| + 1 && Way(x, |path|) == [App(x.path[|path|])]
  {
    ApplicationsNumbered(apps, 0, path);
    var items := CollectApplications(apps, 0, path);
    forall i | 0 <= i < |items| ensures |items[i].path| == |path| + 1 && Way(items[i], |path|) == [App(i)] {
    }
  }

  lemma {:induction false} SegmentsInOrder(ss: seq<Segment>, i: nat, path: Path)
    ensures InOrder(CollectSegments(ss, i, path), |path|)
    decreases ss, |ss| - i, 0
  {
    if i < |ss| {
      SegmentsInOrder(ss, i + 1, path);
      if ss[i].enabled {
        var first, rest := Collect(ss[i], path + [i]), CollectSegments(ss, i + 1, path);
        OneSegmentInOrder(ss[i], path, i);
        CollectIsUnder(ss[i], path + [i]);
        SegmentsAreUnder(ss, i + 1, path);
        forall x, y | x in first && y in rest ensures Before(x, y, |path|) {
          assert x.path[|path|] == i < y.path[|path|];
          assert Way(x, |path|)[0] == Sub(i) && Way(y, |path|)[0].n == y.path[|path|];
        }
        InOrderConcat(first, rest, |path|);
      } else {
        assert CollectSegments(ss, i, path) == CollectSegments(ss, i + 1, path);
      }
    }
  }

  lemma {:induction false} OneSegmentInOrder(s: Segment, path: Path, i: nat)
    ensures InOrder(Collect(s, path + [i]), |path|)
    decreases s, 2
  {
    ListedInOrder(s, path + [i]);
    CollectIsUnder(s, path + [i]);
    var items := Collect(s, path + [i]);
    forall k, m | 0 <= k < m < |items| ensures Before(items[k], items[m], |path|) {
      assert items[k] in items && items[m] in items;
      BeforeBelow(items[k], items[m], path, i);
    }
  }

  /** A segment is listed from the top down: its controller first, then each
      enabled subsegment in turn, with all it holds, then the applications. */
  lemma {:induction false} ListedInOrder(s: Segment, path: Path)
    ensures InOrder(Collect(s, path), |path|)
    decreases s, 1
  {
    var head, subs, apps := [Item(s.controller, path, true)], CollectSegments(s.segments, 0, path), CollectApplications(s.applications, 0, path);
    SegmentsInOrder(s.segments, 0, path);
    ApplicationsInOrder(s.applications, path);
    SegmentsAreUnder(s.segments, 0, path);
    assert Way(head[0], |path|) == [];
    forall y | y in subs ensures Before(head[0], y, |path|) {
    }
    InOrderConcat(head, subs, |path|);
    forall x, y | x in head + subs && y in apps ensures Before(x, y, |path|) {
      if x in subs {
        assert Way(x, |path|)[0] == Sub(x.path[|path|]);
      }
    }
    InOrderConcat(head + subs, apps, |path|);
  }
}
