/** Numbering the applications of a session: `collect_apps` over the tree of
    segments, and `collect_infra_apps` beside it. Only names and tree ids are
    kept of each entry. */
module Segments {
  import opened TreeIds

  datatype Application = Application(id: string, enabled: bool)

  datatype Segment = Segment(controller: string, enabled: bool, segments: seq<Segment>, applications: seq<Application>)

  /** An entry as it is emitted. */
  datatype Entry = Entry(name: string, treeId: string)

  /** An entry before its number is printed. */
  datatype Item = Item(name: string, path: Path, controller: bool)

  function Print(items: seq<Item>): (es: seq<Entry>)
    ensures |es| == |items| && forall i :: 0 <= i < |items| ==> es[i] == Entry(items[i].name, Join(items[i].path))
  {
    seq(|items|, i requires 0 <= i < |items| => Entry(items[i].name, Join(items[i].path)))
  }

  /** The controller, then the enabled subsegments each under its own index,
      then the enabled applications under a count of their own. */
  function Collect(s: Segment, prefix: Path): seq<Item>
    decreases s, 1
  {
    [Item(s.controller, prefix, true)] + CollectSegments(s.segments, 0, prefix) + CollectApplications(s.applications, 0, prefix)
  }

  function CollectSegments(ss: seq<Segment>, i: nat, prefix: Path): seq<Item>
    decreases ss, |ss| - i, 0
  {
    if i >= |ss| then []
    else (if ss[i].enabled then Collect(ss[i], prefix + [i]) else []) + CollectSegments(ss, i + 1, prefix)
  }

  function CollectApplications(apps: seq<Application>, n: nat, prefix: Path): seq<Item>
    decreases |apps|
  {
    if apps == [] then []
    else if apps[0].enabled then [Item(apps[0].id, prefix + [n], false)] + CollectApplications(apps[1..], n + 1, prefix)
    else CollectApplications(apps[1..], n, prefix)
  }

  lemma PrintConcat(xs: seq<Item>, ys: seq<Item>)
    ensures Print(xs + ys) == Print(xs) + Print(ys)
  {
  }

  /** Controller and subsegments; the applications follow below. */
  method CollectUpper(s: Segment, prefix: Path) returns (apps: seq<Entry>)
    ensures apps == Print([Item(s.controller, prefix, true)] + CollectSegments(s.segments, 0, prefix))
    decreases s, 0
  {
    apps := [Entry(s.controller, Join(prefix))];
    ghost var done := [Item(s.controller, prefix, true)];
    ghost var all := done + CollectSegments(s.segments, 0, prefix);
    for idx := 0 to |s.segments|
      invariant apps == Print(done)
      invariant done + CollectSegments(s.segments, idx, prefix) == all
    {
      var sub := s.segments[idx];
      if !sub.enabled {
        continue;
      }
      var subApps := CollectApps(sub, prefix + [idx]);
      ghost var items := Collect(sub, prefix + [idx]);
      apps := AppendEach(apps, subApps);
      PrintConcat(done, items);
      Regroup(done, items, CollectSegments(s.segments, idx + 1, prefix));
      done := done + items;
    }
  }

  method AppendEach(apps: seq<Entry>, subApps: seq<Entry>) returns (all: seq<Entry>)
    ensures all == apps + subApps
  {
    all := apps;
    for k := 0 to |subApps|
      invariant all == apps + subApps[..k]
    {
      all := all + [subApps[k]];
    }
  }

  lemma Regroup(xs: seq<Item>, ys: seq<Item>, zs: seq<Item>)
    ensures xs + (ys + zs) == (xs + ys) + zs
  {
  }

  method CollectApps(s: Segment, prefix: Path) returns (apps: seq<Entry>)
    ensures apps == Print(Collect(s, prefix))
    decreases s, 1
  {
    apps := CollectUpper(s, prefix);
    ghost var upper := [Item(s.controller, prefix, true)] + CollectSegments(s.segments, 0, prefix);
    ghost var done := upper;
    var appIndex := 0;
    for k := 0 to |s.applications|
      invariant apps == Print(done)
      invariant done + CollectApplications(s.applications[k..], appIndex, prefix) == upper + CollectApplications(s.applications, 0, prefix)
    {
      var app := s.applications[k];
      assert s.applications[k..][0] == app && s.applications[k..][1..] == s.applications[k + 1..];
      if !app.enabled {
        continue;
      }
      ghost var item := Item(app.id, prefix + [appIndex], false);
      PrintConcat(done, [item]);
      apps := apps + [Entry(app.id, Join(prefix + [appIndex]))];
      Regroup(done, [item], CollectApplications(s.applications[k + 1..], appIndex + 1, prefix));
      done := done + [item];
      appIndex := appIndex + 1;
    }
  }

  // ---- which ids are distinct ------------------------------------------------------

  /** Two entries in each other's way: one path, and of one kind unless `anyKind`. */
  predicate Clash(a: Item, b: Item, anyKind: bool) {
    a.path == b.path && (anyKind || a.controller == b.controller)
  }

  predicate Apart(items: seq<Item>, anyKind: bool) {
    forall i, j :: 0 <= i < j < |items| ==> !Clash(items[i], items[j], anyKind)
  }

  predicate Separate(xs: seq<Item>, ys: seq<Item>, anyKind: bool) {
    forall x, y :: x in xs && y in ys ==> !Clash(x, y, anyKind)
  }

  lemma ApartConcat(xs: seq<Item>, ys: seq<Item>, anyKind: bool)
    ensures Apart(xs + ys, anyKind) <==> Apart(xs, anyKind) && Apart(ys, anyKind) && Separate(xs, ys, anyKind)
  {
    var zs := xs + ys;
    if Apart(zs, anyKind) {
      forall i, j | 0 <= i < j < |xs| ensures !Clash(xs[i], xs[j], anyKind) {
        assert zs[i] == xs[i] && zs[j] == xs[j];
      }
      forall i, j | 0 <= i < j < |ys| ensures !Clash(ys[i], ys[j], anyKind) {
        assert zs[|xs| + i] == ys[i] && zs[|xs| + j] == ys[j];
      }
      forall x, y | x in xs && y in ys ensures !Clash(x, y, anyKind) {
        var i :| 0 <= i < |xs| && xs[i] == x;
        var j :| 0 <= j < |ys| && ys[j] == y;
        assert zs[i] == x && zs[|xs| + j] == y;
      }
    }
  }

  function EnabledCount(apps: seq<Application>): nat
    decreases |apps|
  {
    if apps == [] then 0 else (if apps[0].enabled then 1 else 0) + EnabledCount(apps[1..])
  }

  lemma {:induction false} ApplicationCount(apps: seq<Application>, n: nat, prefix: Path)
    ensures |CollectApplications(apps, n, prefix)| == EnabledCount(apps)
    decreases |apps|
  {
    if apps != [] {
      ApplicationCount(apps[1..], if apps[0].enabled then n + 1 else n, prefix);
    }
  }

  lemma {:induction false} ApplicationAt(apps: seq<Application>, n: nat, prefix: Path, k: nat)
    requires k < |CollectApplications(apps, n, prefix)|
    ensures var item := CollectApplications(apps, n, prefix)[k];
            item.path == prefix + [n + k] && !item.controller
    decreases |apps|
  {
    if !apps[0].enabled {
      ApplicationAt(apps[1..], n, prefix, k);
    } else if k > 0 {
      ApplicationAt(apps[1..], n + 1, prefix, k - 1);
    }
  }

  /** The applications of a segment take the numbers from `n` on, one each. */
  lemma ApplicationsNumbered(apps: seq<Application>, n: nat, prefix: Path)
    ensures var items := CollectApplications(apps, n, prefix);
            && |items| == EnabledCount(apps)
            && forall k :: 0 <= k < |items| ==> items[k].path == prefix + [n + k] && !items[k].controller
  {
    ApplicationCount(apps, n, prefix);
    var items := CollectApplications(apps, n, prefix);
    forall k | 0 <= k < |items| ensures items[k].path == prefix + [n + k] && !items[k].controller {
      ApplicationAt(apps, n, prefix, k);
    }
  }

  /** Everything under a segment starts with its number; its applications, and
      whatever its subsegments hold, go on from there. */
  lemma {:induction false} CollectIsUnder(s: Segment, prefix: Path)
    ensures forall x :: x in Collect(s, prefix) ==> prefix <= x.path && (x.path == prefix ==> x == Item(s.controller, prefix, true))
    decreases s, 1
  {
    SegmentsAreUnder(s.segments, 0, prefix);
    ApplicationsNumbered(s.applications, 0, prefix);
  }

  lemma {:induction false} SegmentsAreUnder(ss: seq<Segment>, i: nat, prefix: Path)
    ensures forall x :: x in CollectSegments(ss, i, prefix) ==>
              && prefix < x.path && i <= x.path[|prefix|] < |ss| && ss[x.path[|prefix|]].enabled
              && (|x.path| == |prefix| + 1 ==> x.controller)
    decreases ss, |ss| - i, 0
  {
    if i < |ss| {
      SegmentsAreUnder(ss, i + 1, prefix);
      if ss[i].enabled {
        CollectIsUnder(ss[i], prefix + [i]);
      }
    }
  }

  /** No segment has an enabled subsegment and an enabled application of the
      same number. */
  predicate NoSharedNumber(s: Segment) {
    forall i :: 0 <= i < |s.segments| && s.segments[i].enabled ==>
      i >= EnabledCount(s.applications) && NoSharedNumber(s.segments[i])
  }

  predicate NoneSharesFrom(ss: seq<Segment>, i: nat) {
    forall k :: i <= k < |ss| && ss[k].enabled ==> NoSharedNumber(ss[k])
  }

  lemma NoneSharesStep(ss: seq<Segment>, i: nat)
    requires i < |ss|
    ensures NoneSharesFrom(ss, i) <==> (ss[i].enabled ==> NoSharedNumber(ss[i])) && NoneSharesFrom(ss, i + 1)
  {
  }

  lemma ApplicationsApart(apps: seq<Application>, n: nat, prefix: Path, anyKind: bool)
    ensures Apart(CollectApplications(apps, n, prefix), anyKind)
  {
    ApplicationsNumbered(apps, n, prefix);
    var items := CollectApplications(apps, n, prefix);
    forall i, j | 0 <= i < j < |items| ensures !Clash(items[i], items[j], anyKind) {
      assert items[i].path[|prefix|] == n + i && items[j].path[|prefix|] == n + j;
    }
  }

  /** The three parts of a segment's list meet in one way only: an enabled
      subsegment's controller and an application sharing a number. */
  lemma PartsSeparate(s: Segment, prefix: Path, anyKind: bool)
    ensures Separate([Item(s.controller, prefix, true)], CollectSegments(s.segments, 0, prefix), anyKind)
    ensures Separate([Item(s.controller, prefix, true)] + CollectSegments(s.segments, 0, prefix),
                     CollectApplications(s.applications, 0, prefix), anyKind)
       <==> !anyKind || forall i :: 0 <= i < |s.segments| && s.segments[i].enabled ==> i >= EnabledCount(s.applications)
  {
    var head := [Item(s.controller, prefix, true)];
    var subs := CollectSegments(s.segments, 0, prefix);
    var apps := CollectApplications(s.applications, 0, prefix);
    SegmentsAreUnder(s.segments, 0, prefix);
    ApplicationsNumbered(s.applications, 0, prefix);
    forall x, y | x in head + subs && y in apps && Clash(x, y, anyKind)
      ensures anyKind && var i := x.path[|prefix|]; i < |s.segments| && s.segments[i].enabled && i < EnabledCount(s.applications)
    {
      var k :| 0 <= k < |apps| && apps[k] == y;
      assert x in subs && |x.path| == |prefix| + 1;
      assert y.path[|prefix|] == k;
    }
    if i :| 0 <= i < |s.segments| && s.segments[i].enabled && i < EnabledCount(s.applications) {
      SegmentHeadIsListed(s.segments, 0, i, prefix);
      var x, y := Item(s.segments[i].controller, prefix + [i], true), apps[i];
      assert x in head + subs && y in apps;
      assert anyKind ==> Clash(x, y, anyKind);
    }
  }

  lemma {:induction false} SegmentHeadIsListed(ss: seq<Segment>, j: nat, i: nat, prefix: Path)
    requires j <= i < |ss| && ss[i].enabled
    ensures Item(ss[i].controller, prefix + [i], true) in CollectSegments(ss, j, prefix)
    decreases |ss| - j
  {
    if j < i {
      SegmentHeadIsListed(ss, j + 1, i, prefix);
    } else {
      assert Item(ss[i].controller, prefix + [i], true) in Collect(ss[i], prefix + [i]);
    }
  }

  /** Exactly when ids are distinct: always among controllers and among
      applications; over both kinds if and only if no number is shared. */
  lemma {:induction false} DistinctIff(s: Segment, prefix: Path, anyKind: bool)
    ensures Apart(Collect(s, prefix), anyKind) <==> !anyKind || NoSharedNumber(s)
    decreases s, 1
  {
    var head := [Item(s.controller, prefix, true)];
    var subs := CollectSegments(s.segments, 0, prefix);
    var apps := CollectApplications(s.applications, 0, prefix);
    ApartConcat(head, subs, anyKind);
    ApartConcat(head + subs, apps, anyKind);
    ApplicationsApart(s.applications, 0, prefix, anyKind);
    PartsSeparate(s, prefix, anyKind);
    SegmentsDistinctIff(s.segments, 0, prefix, anyKind);
  }

  lemma {:induction false} SegmentsDistinctIff(ss: seq<Segment>, i: nat, prefix: Path, anyKind: bool)
    ensures Apart(CollectSegments(ss, i, prefix), anyKind) <==> !anyKind || NoneSharesFrom(ss, i)
    decreases ss, |ss| - i, 0
  {
    if i < |ss| {
      NoneSharesStep(ss, i);
      SegmentsDistinctIff(ss, i + 1, prefix, anyKind);
      if ss[i].enabled {
        ApartConcat(Collect(ss[i], prefix + [i]), CollectSegments(ss, i + 1, prefix), anyKind);
        DistinctIff(ss[i], prefix + [i], anyKind);
        SiblingsSeparate(ss, i, prefix, anyKind);
      } else {
        assert CollectSegments(ss, i, prefix) == CollectSegments(ss, i + 1, prefix);
      }
    }
  }

  lemma SiblingsSeparate(ss: seq<Segment>, i: nat, prefix: Path, anyKind: bool)
    requires i < |ss|
    ensures Separate(Collect(ss[i], prefix + [i]), CollectSegments(ss, i + 1, prefix), anyKind)
  {
    CollectIsUnder(ss[i], prefix + [i]);
    SegmentsAreUnder(ss, i + 1, prefix);
    forall x, y | x in Collect(ss[i], prefix + [i]) && y in CollectSegments(ss, i + 1, prefix)
      ensures !Clash(x, y, anyKind)
    {
      assert x.path[|prefix|] == i;
    }
  }

  // ---- infrastructure ------------------------------------------------------------------

  predicate LeadsWithNumber(e: Entry) {
    AllDigits(Split(e.treeId)[0])
  }

  function LeadingNumber(e: Entry): nat
    requires LeadsWithNumber(e)
  {
    ParseNat(Split(e.treeId)[0])
  }

  /** `max(int(tree_id.split('.')[0])) + 1` over the collected entries. */
  method NextTreeId(apps: seq<Entry>) returns (next: nat)
    requires apps != [] && forall e :: e in apps ==> LeadsWithNumber(e)
    ensures forall e :: e in apps ==> LeadingNumber(e) < next
    ensures exists e :: e in apps && LeadingNumber(e) + 1 == next
  {
    var max := LeadingNumber(apps[0]);
    for k := 1 to |apps|
      invariant forall i :: 0 <= i < k ==> LeadingNumber(apps[i]) <= max
      invariant exists i :: 0 <= i < k && LeadingNumber(apps[i]) == max
    {
      if LeadingNumber(apps[k]) > max {
        max := LeadingNumber(apps[k]);
      }
    }
    next := max + 1;
  }

  /** An infrastructure application without an application name is virtual. */
  datatype Infrastructure = Infrastructure(id: string, applicationName: string)

  function InfraPath(prefix: Path, k: nat): Path
    requires prefix != []
  {
    prefix[..|prefix| - 1] + [prefix[|prefix| - 1] + k]
  }

  /** Numbered by position, virtual ones included in the count. */
  function CollectInfra(infra: seq<Infrastructure>, k: nat, prefix: Path): seq<Item>
    requires prefix != []
    decreases |infra| - k
  {
    if k >= |infra| then []
    else (if infra[k].applicationName == "" then [] else [Item(infra[k].id, InfraPath(prefix, k), false)])
         + CollectInfra(infra, k + 1, prefix)
  }

  /** How many of the first `k` are not virtual. */
  function RealBefore(infra: seq<Infrastructure>, k: nat): (n: nat)
    requires k <= |infra|
    ensures n <= k
  {
    if k == 0 then 0 else RealBefore(infra, k - 1) + if infra[k - 1].applicationName != "" then 1 else 0
  }

  /** An application with a name is listed at its place among such, under the
      last number of the prefix raised by its own position. */
  predicate ListsAt(infra: seq<Infrastructure>, prefix: Path, apps: seq<Entry>, j: nat)
    requires prefix != [] && j < |infra|
  {
    infra[j].applicationName != "" ==>
      && RealBefore(infra, j) < |apps|
      && apps[RealBefore(infra, j)] == Entry(infra[j].id, Join(prefix[..|prefix| - 1] + [prefix[|prefix| - 1] + j]))
  }

  /** So are all of them, and there are no more entries than that. */
  predicate ListsReal(infra: seq<Infrastructure>, prefix: Path, apps: seq<Entry>)
    requires prefix != []
  {
    |apps| == RealBefore(infra, |infra|) && forall j :: 0 <= j < |infra| ==> ListsAt(infra, prefix, apps, j)
  }

  /** Nothing else is listed: every place is that of one of them. */
  lemma {:induction false} PlaceOf(infra: seq<Infrastructure>, k: nat, i: nat) returns (j: nat)
    requires k <= |infra| && i < RealBefore(infra, k)
    ensures j < k && infra[j].applicationName != "" && RealBefore(infra, j) == i
  {
    if i == RealBefore(infra, k - 1) {
      return k - 1;
    }
    j := PlaceOf(infra, k - 1, i);
  }

  lemma {:induction false} InfraCount(infra: seq<Infrastructure>, k: nat, prefix: Path)
    requires prefix != [] && k <= |infra|
    ensures RealBefore(infra, |infra|) == RealBefore(infra, k) + |CollectInfra(infra, k, prefix)|
    decreases |infra| - k
  {
    if k < |infra| {
      InfraCount(infra, k + 1, prefix);
    }
  }

  lemma {:induction false} InfraAt(infra: seq<Infrastructure>, k: nat, prefix: Path, j: nat)
    requires prefix != [] && k <= j < |infra| && infra[j].applicationName != ""
    ensures var i := RealBefore(infra, j) - RealBefore(infra, k);
            && 0 <= i < |CollectInfra(infra, k, prefix)|
            && CollectInfra(infra, k, prefix)[i] == Item(infra[j].id, prefix[..|prefix| - 1] + [prefix[|prefix| - 1] + j], false)
    decreases j - k
  {
    if k < j {
      InfraAt(infra, k + 1, prefix, j);
    }
  }

  lemma InfraListsReal(infra: seq<Infrastructure>, prefix: Path)
    requires prefix != []
    ensures ListsReal(infra, prefix, Print(CollectInfra(infra, 0, prefix)))
  {
    InfraCount(infra, 0, prefix);
    forall j | 0 <= j < |infra| ensures ListsAt(infra, prefix, Print(CollectInfra(infra, 0, prefix)), j) {
      if infra[j].applicationName != "" {
        InfraAt(infra, 0, prefix, j);
      }
    }
  }

  method CollectInfraApps(infra: seq<Infrastructure>, prefix: Path) returns (apps: seq<Entry>)
    requires prefix != []
    ensures apps == Print(CollectInfra(infra, 0, prefix))
    ensures ListsReal(infra, prefix, apps)
  {
    apps := [];
    ghost var done := [];
    for appIndex := 0 to |infra|
      invariant apps == Print(done)
      invariant done + CollectInfra(infra, appIndex, prefix) == CollectInfra(infra, 0, prefix)
    {
      if infra[appIndex].applicationName == "" {
        continue;
      }
      var thisAppTreePrefix := prefix[..|prefix| - 1] + [prefix[|prefix| - 1] + appIndex];
      apps := apps + [Entry(infra[appIndex].id, Join(thisAppTreePrefix))];
      ghost var item := Item(infra[appIndex].id, thisAppTreePrefix, false);
      PrintConcat(done, [item]);
      Regroup(done, [item], CollectInfra(infra, appIndex + 1, prefix));
      done := done + [item];
    }
    InfraListsReal(infra, prefix);
  }

  lemma {:induction false} InfraIsApart(infra: seq<Infrastructure>, k: nat, prefix: Path)
    requires prefix != []
    ensures Apart(CollectInfra(infra, k, prefix), true)
    ensures forall x :: x in CollectInfra(infra, k, prefix) ==>
              |x.path| == |prefix| && x.path[|prefix| - 1] >= prefix[|prefix| - 1] + k
    decreases |infra| - k
  {
    if k < |infra| {
      InfraIsApart(infra, k + 1, prefix);
      var rest := CollectInfra(infra, k + 1, prefix);
      ApartConcat([Item(infra[k].id, InfraPath(prefix, k), false)], rest, true);
    }
  }

  /** Ids are equal as text exactly when the paths are. */
  lemma DistinctTexts(items: seq<Item>)
    requires forall x :: x in items ==> x.path != []
    ensures (forall i, j :: 0 <= i < j < |items| ==> Print(items)[i].treeId != Print(items)[j].treeId) <==> Apart(items, true)
  {
    forall i, j | 0 <= i < j < |items|
      ensures Print(items)[i].treeId == Print(items)[j].treeId <==> Clash(items[i], items[j], true)
    {
      assert items[i] in items && items[j] in items;
      if Join(items[i].path) == Join(items[j].path) {
        JoinInjective(items[i].path, items[j].path);
      }
    }
  }
}
