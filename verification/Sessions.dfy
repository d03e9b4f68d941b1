/** The ids a whole session is booted with, and the tree drawn from them. */
module Sessions {
  import opened Drawing
  import opened Segments
  import opened TreeIds

  function AsProcesses(es: seq<Entry>): (ps: seq<Process>)
    ensures |ps| == |es| && forall i :: 0 <= i < |es| ==> ps[i] == Process(es[i].treeId, es[i].name)
  {
    seq(|es|, i requires 0 <= i < |es| => Process(es[i].treeId, es[i].name))
  }

  /** Infrastructure first, numbered after everything else. */
  function AllItems(root: Segment, infra: seq<Infrastructure>): seq<Item> {
    CollectInfra(infra, 0, [1]) + Collect(root, [0])
  }

  /** Infrastructure never clashes with itself or with anything else; the rest
      is distinct exactly when no number is shared. */
  lemma SessionDistinctIff(root: Segment, infra: seq<Infrastructure>)
    ensures Apart(CollectInfra(infra, 0, [1]), true)
    ensures Separate(CollectInfra(infra, 0, [1]), Collect(root, [0]), true)
    ensures Apart(AllItems(root, infra), true) <==> NoSharedNumber(root)
    ensures forall x :: x in AllItems(root, infra) ==> x.path != []
  {
    InfraIsApart(infra, 0, [1]);
    CollectIsUnder(root, [0]);
    DistinctIff(root, [0], true);
    ApartConcat(CollectInfra(infra, 0, [1]), Collect(root, [0]), true);
    forall x, y | x in CollectInfra(infra, 0, [1]) && y in Collect(root, [0]) ensures !Clash(x, y, true) {
      assert x.path[0] >= 1 && y.path[0] == 0;
    }
  }

  /** All collected ids start with the number of the root. */
  lemma CollectedLeadWithZero(root: Segment)
    ensures forall e :: e in Print(Collect(root, [0])) ==> LeadsWithNumber(e) && LeadingNumber(e) == 0
  {
    var items := Collect(root, [0]);
    CollectIsUnder(root, [0]);
    forall e | e in Print(items) ensures LeadsWithNumber(e) && LeadingNumber(e) == 0 {
      var i :| 0 <= i < |items| && Print(items)[i] == e;
      assert items[i] in items;
      ParseSplitJoin(items[i].path, 0);
    }
  }

  /** The numbering in `_convert_oks_to_boot_request`. The processes so numbered
      can be drawn as a tree exactly when no segment has an enabled subsegment
      and an enabled application of the same number. */
  method NumberSession(root: Segment, infra: seq<Infrastructure>) returns (apps: seq<Entry>)
    ensures apps == Print(AllItems(root, infra))
    ensures Numbered(AsProcesses(apps)) <==> NoSharedNumber(root)
    ensures var n := RealBefore(infra, |infra|);
            n <= |apps| && ListsReal(infra, [1], apps[..n]) && apps[n..] == Print(Collect(root, [0]))
  {
    apps := CollectApps(root, [0]);
    CollectedLeadWithZero(root);
    var nextTreeId := NextTreeId(apps);
    var infraApps := CollectInfraApps(infra, [nextTreeId]);
    assert Print(CollectInfra(infra, 0, [1])) + Print(Collect(root, [0])) == Print(AllItems(root, infra));
    apps := infraApps + apps;
    SessionDistinctIff(root, infra);
    ItemsNumberedIff(AllItems(root, infra));
  }

  lemma ItemsNumberedIff(items: seq<Item>)
    requires forall x :: x in items ==> x.path != []
    ensures Numbered(AsProcesses(Print(items))) <==> Apart(items, true)
  {
    var ps := AsProcesses(Print(items));
    DistinctTexts(items);
    forall p | p in ps ensures Printed(p.treeId) {
      var i :| 0 <= i < |ps| && ps[i] == p;
      assert items[i] in items;
      PathOfJoin(items[i].path);
    }
    if Apart(items, true) {
      forall i, j | 0 <= i < j < |ps| ensures ps[i].treeId != ps[j].treeId {
        assert Print(items)[i].treeId != Print(items)[j].treeId;
      }
    } else {
      var i, j :| 0 <= i < j < |items| && Print(items)[i].treeId == Print(items)[j].treeId;
      assert ps[i].treeId == ps[j].treeId;
    }
  }
}
