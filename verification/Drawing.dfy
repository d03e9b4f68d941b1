/** The table of processes: sorted by tree id as plain text, then each name
    indented by the depth of its id. */
module Drawing {
  import opened TreeIds

  datatype Process = Process(treeId: string, name: string)

  predicate Ordered(ps: seq<Process>) {
    forall i, j :: 0 <= i < j < |ps| ==> !Less(ps[j].treeId, ps[i].treeId)
  }

  /** `sorted(..., key=tree_id)`: some ordered rearrangement. */
  predicate IsSorting(ps: seq<Process>, sorted: seq<Process>) {
    multiset(ps) == multiset(sorted) && Ordered(sorted)
  }

  function Spaces(n: nat): (s: string)
    ensures |s| == n && forall i :: 0 <= i < n ==> s[i] == ' '
  {
    seq(n, _ => ' ')
  }

  method MakeTree(values: seq<Process>) returns (lines: seq<string>)
    ensures |lines| == |values|
    ensures forall i :: 0 <= i < |lines| ==> lines[i] == Spaces(2 * (|Split(values[i].treeId)| - 1)) + values[i].name
  {
    lines := [];
    for k := 0 to |values|
      invariant |lines| == k
      invariant forall i :: 0 <= i < k ==> lines[i] == Spaces(2 * (|Split(values[i].treeId)| - 1)) + values[i].name
    {
      var treeLevels := Split(values[k].treeId);
      var indentLevel := |treeLevels| - 1;
      lines := lines + [Spaces(2 * indentLevel) + values[k].name];
    }
  }

  function PathAt(ps: seq<Process>, i: nat): Path
    requires i < |ps|
  {
    PathOf(ps[i].treeId)
  }

  /** Process `k` lies below process `i` in the tree of ids. */
  predicate Below(ps: seq<Process>, i: nat, k: nat)
    requires i < |ps| && k < |ps|
  {
    PathAt(ps, i) < PathAt(ps, k)
  }

  predicate Printed(id: string) {
    id == Join(PathOf(id))
  }

  /** Every id is the print of a path, and no two are equal. */
  predicate Numbered(ps: seq<Process>) {
    && (forall p :: p in ps ==> Printed(p.treeId))
    && (forall i, j :: 0 <= i < j < |ps| ==> ps[i].treeId != ps[j].treeId)
  }

  /** Where the run of processes below number `i` that starts at `j` ends. */
  function BlockEnd(ps: seq<Process>, i: nat, j: nat): (e: nat)
    requires i < j <= |ps|
    ensures j <= e <= |ps|
    ensures forall k :: j <= k < e ==> Below(ps, i, k)
    ensures e < |ps| ==> !(Below(ps, i, e))
    decreases |ps| - j
  {
    if j < |ps| && Below(ps, i, j) then BlockEnd(ps, i, j + 1) else j
  }

  /** Process `i` is followed at once by a block that is exactly what lies below it. */
  predicate HeadsItsBlock(ps: seq<Process>, i: nat)
    requires i < |ps|
  {
    forall k :: 0 <= k < |ps| ==> (Below(ps, i, k) <==> i < k < BlockEnd(ps, i, i + 1))
  }

  lemma StrictlyOrdered(ps: seq<Process>, i: nat, j: nat)
    requires Numbered(ps) && Ordered(ps) && i < j < |ps|
    ensures Less(ps[i].treeId, ps[j].treeId)
  {
    LessTotal(ps[i].treeId, ps[j].treeId);
  }

  /** Nothing that lies below process `i` is listed before it, and nothing
      listed between it and such a process lies elsewhere. */
  lemma BelowIsContiguous(ps: seq<Process>, i: nat, k: nat)
    requires Numbered(ps) && Ordered(ps)
    requires i < |ps| && k < |ps| && Below(ps, i, k)
    ensures i < k && forall m :: i < m < k ==> Below(ps, i, m)
  {
    var p, d := ps[i].treeId, ps[k].treeId;
    BelowIffText(PathAt(ps, i), PathAt(ps, k));
    PrefixIsLess(p, d);
    if k < i {
      StrictlyOrdered(ps, k, i);
      LessTransitive(p, d, p);
      LessIrreflexive(p);
    }
    forall m | i < m < k ensures Below(ps, i, m) {
      StrictlyOrdered(ps, i, m);
      StrictlyOrdered(ps, m, k);
      JoinIsIdText(PathAt(ps, m));
      BetweenIsBelow(p, ps[m].treeId, d);
      BelowIffText(PathAt(ps, i), PathAt(ps, m));
    }
  }

  /** The drawing is a tree: sorting distinct ids as plain text puts each
      process immediately before one contiguous block, which is exactly what
      lies below it, at any depth and for numbers of any size. */
  lemma SortedTextIsTree(ps: seq<Process>, sorted: seq<Process>, i: nat)
    requires Numbered(ps) && IsSorting(ps, sorted) && i < |sorted|
    ensures Numbered(sorted)
    ensures HeadsItsBlock(sorted, i)
  {
    RearrangedIsNumbered(ps, sorted);
    OrderedTextIsTree(sorted, i);
  }

  lemma {:induction false} BlockReaches(ps: seq<Process>, i: nat, j: nat, k: nat)
    requires i < j <= k < |ps| && forall m :: j <= m <= k ==> Below(ps, i, m)
    ensures k < BlockEnd(ps, i, j)
    decreases k - j
  {
    assert Below(ps, i, j);
    if j < k {
      BlockReaches(ps, i, j + 1, k);
    }
  }

  lemma BelowIsInBlock(ps: seq<Process>, i: nat, k: nat)
    requires Numbered(ps) && Ordered(ps) && i < |ps| && k < |ps| && Below(ps, i, k)
    ensures i < k < BlockEnd(ps, i, i + 1)
  {
    BelowIsContiguous(ps, i, k);
    BlockReaches(ps, i, i + 1, k);
  }

  lemma OrderedTextIsTree(ps: seq<Process>, i: nat)
    requires Numbered(ps) && Ordered(ps) && i < |ps|
    ensures HeadsItsBlock(ps, i)
  {
    forall k | 0 <= k < |ps| ensures Below(ps, i, k) <==> i < k < BlockEnd(ps, i, i + 1) {
      if Below(ps, i, k) {
        BelowIsInBlock(ps, i, k);
      }
    }
  }

  lemma TwiceIn<T>(s: seq<T>, i: nat, j: nat)
    requires i < j < |s| && s[i] == s[j]
    ensures multiset(s)[s[i]] >= 2
  {
    assert s == s[..i] + [s[i]] + s[i + 1..];
    assert s[i + 1..][j - i - 1] == s[j];
  }

  lemma TwiceOut<T>(s: seq<T>, x: T) returns (i: nat, j: nat)
    requires multiset(s)[x] >= 2
    ensures i < j < |s| && s[i] == s[j] == x
  {
    assert x in multiset(s);
    i :| 0 <= i < |s| && s[i] == x;
    var rest := s[..i] + s[i + 1..];
    assert s == s[..i] + [s[i]] + s[i + 1..];
    assert multiset(s) == multiset(rest) + multiset{x};
    assert x in multiset(rest);
    var k :| 0 <= k < |rest| && rest[k] == x;
    j := if k < i then k else k + 1;
    if j < i {
      i, j := j, i;
    }
  }

  lemma RearrangedIsNumbered(ps: seq<Process>, sorted: seq<Process>)
    requires Numbered(ps) && multiset(ps) == multiset(sorted)
    ensures Numbered(sorted)
  {
    forall p | p in sorted ensures p in ps {
      assert p in multiset(sorted);
    }
    forall i, j | 0 <= i < j < |sorted| ensures sorted[i].treeId != sorted[j].treeId {
      assert sorted[i] in ps && sorted[j] in ps;
      if sorted[i] == sorted[j] {
        TwiceIn(sorted, i, j);
        var a, b := TwiceOut(ps, sorted[i]);
        assert false;
      }
    }
  }

  // ---- sorting --------------------------------------------------------------------

  function Insert(p: Process, sorted: seq<Process>): seq<Process> {
    if sorted == [] || Less(p.treeId, sorted[0].treeId) then [p] + sorted
    else [sorted[0]] + Insert(p, sorted[1..])
  }

  /** A stable sort, standing for Python's. */
  function Sort(ps: seq<Process>): seq<Process> {
    if ps == [] then [] else Insert(ps[|ps| - 1], Sort(ps[..|ps| - 1]))
  }

  lemma OrderedCons(p: Process, rest: seq<Process>)
    ensures Ordered([p] + rest) <==> Ordered(rest) && forall x :: x in rest ==> !Less(x.treeId, p.treeId)
  {
    var r := [p] + rest;
    forall i | 0 <= i < |rest| ensures r[i + 1] == rest[i] {
    }
    if Ordered(r) {
      forall i, j | 0 <= i < j < |rest| ensures !Less(rest[j].treeId, rest[i].treeId) {
        assert !Less(r[j + 1].treeId, r[i + 1].treeId);
      }
      forall x | x in rest ensures !Less(x.treeId, p.treeId) {
        var i :| 0 <= i < |rest| && rest[i] == x;
        assert !Less(r[i + 1].treeId, r[0].treeId);
      }
    }
  }

  lemma {:induction false} InsertMembers(p: Process, sorted: seq<Process>)
    ensures multiset(Insert(p, sorted)) == multiset(sorted) + multiset{p}
    ensures forall x :: x in Insert(p, sorted) ==> x == p || x in sorted
  {
    if sorted != [] {
      assert sorted == [sorted[0]] + sorted[1..];
      if !Less(p.treeId, sorted[0].treeId) {
        InsertMembers(p, sorted[1..]);
      }
    }
  }

  lemma {:induction false} InsertKeepsOrder(p: Process, sorted: seq<Process>)
    requires Ordered(sorted)
    ensures Ordered(Insert(p, sorted))
  {
    if sorted != [] {
      var first, rest := sorted[0], sorted[1..];
      assert sorted == [first] + rest;
      OrderedCons(first, rest);
      if Less(p.treeId, first.treeId) {
        forall x | x in sorted ensures !Less(x.treeId, p.treeId) {
          if Less(x.treeId, p.treeId) {
            LessTransitive(x.treeId, p.treeId, first.treeId);
            LessIrreflexive(first.treeId);
          }
        }
        OrderedCons(p, sorted);
      } else {
        InsertKeepsOrder(p, rest);
        InsertMembers(p, rest);
        OrderedCons(first, Insert(p, rest));
      }
    }
  }

  lemma {:induction false} SortIsSorting(ps: seq<Process>)
    ensures IsSorting(ps, Sort(ps))
  {
    if ps != [] {
      var n := |ps| - 1;
      SortIsSorting(ps[..n]);
      InsertKeepsOrder(ps[n], Sort(ps[..n]));
      InsertMembers(ps[n], Sort(ps[..n]));
      assert ps == ps[..n] + [ps[n]];
    }
  }

  /** The processes of one id, in the order given. */
  function WithId(ps: seq<Process>, id: string): seq<Process> {
    if ps == [] then [] else (if ps[0].treeId == id then [ps[0]] else []) + WithId(ps[1..], id)
  }

  function IfId(p: Process, id: string): seq<Process> {
    if p.treeId == id then [p] else []
  }

  lemma WithIdCons(p: Process, ps: seq<Process>, id: string)
    ensures WithId([p] + ps, id) == IfId(p, id) + WithId(ps, id)
  {
    assert ([p] + ps)[1..] == ps;
  }

  lemma Regroup(xs: seq<Process>, ys: seq<Process>, zs: seq<Process>)
    ensures xs + (ys + zs) == xs + ys + zs
  {
  }

  lemma {:induction false} WithIdAppend(ps: seq<Process>, p: Process, id: string)
    ensures WithId(ps + [p], id) == WithId(ps, id) + IfId(p, id)
  {
    if ps == [] {
      assert ps + [p] == [p] + [];
      WithIdCons(p, [], id);
    } else {
      var rest := ps[1..];
      WithIdAppend(rest, p, id);
      WithIdCons(ps[0], rest + [p], id);
      assert [ps[0]] + (rest + [p]) == ps + [p];
      Regroup(IfId(ps[0], id), WithId(rest, id), IfId(p, id));
    }
  }

  lemma {:induction false} NoneWithId(ps: seq<Process>, id: string)
    requires forall x :: x in ps ==> x.treeId != id
    ensures WithId(ps, id) == []
  {
    if ps != [] {
      NoneWithId(ps[1..], id);
    }
  }

  lemma NothingBefore(p: Process, sorted: seq<Process>)
    requires Ordered(sorted) && sorted != [] && Less(p.treeId, sorted[0].treeId)
    ensures forall x :: x in sorted ==> x.treeId != p.treeId
  {
    LessIrreflexive(p.treeId);
    forall i | 0 <= i < |sorted| ensures sorted[i].treeId != p.treeId {
      assert i > 0 ==> !Less(sorted[i].treeId, sorted[0].treeId);
    }
  }

  lemma {:induction false} InsertIsStable(p: Process, sorted: seq<Process>, id: string)
    requires Ordered(sorted)
    ensures WithId(Insert(p, sorted), id) == WithId(sorted, id) + IfId(p, id)
  {
    if sorted == [] {
      WithIdCons(p, [], id);
    } else if Less(p.treeId, sorted[0].treeId) {
      WithIdCons(p, sorted, id);
      if p.treeId == id {
        NothingBefore(p, sorted);
        NoneWithId(sorted, id);
      }
    } else {
      var first, rest := sorted[0], sorted[1..];
      assert sorted == [first] + rest;
      OrderedCons(first, rest);
      InsertIsStable(p, rest, id);
      WithIdCons(first, Insert(p, rest), id);
      Regroup(IfId(first, id), WithId(rest, id), IfId(p, id));
    }
  }

  lemma SortedLast(before: seq<Process>, last: Process, id: string)
    ensures WithId(Sort(before + [last]), id) == WithId(Sort(before), id) + IfId(last, id)
  {
    assert (before + [last])[..|before|] == before;
    SortIsSorting(before);
    InsertIsStable(last, Sort(before), id);
  }

  /** Processes of one id stay in the order given. */
  lemma {:induction false} SortIsStable(ps: seq<Process>, id: string)
    ensures WithId(Sort(ps), id) == WithId(ps, id)
  {
    if ps != [] {
      var before, last := ps[..|ps| - 1], ps[|ps| - 1];
      SortIsStable(before, id);
      SortedLast(before, last, id);
      assert ps == before + [last];
      WithIdAppend(before, last, id);
    }
  }

  /** `tabulate_process_instance_list`, the lines of its name column. For
      processes with distinct ids, each line is followed immediately by the
      lines of exactly the processes below it, and indented by its depth. */
  method Tabulate(ps: seq<Process>) returns (sorted: seq<Process>, lines: seq<string>)
    ensures IsSorting(ps, sorted) && |lines| == |sorted|
    ensures forall id :: WithId(sorted, id) == WithId(ps, id)
    ensures forall i :: 0 <= i < |lines| ==> lines[i] == Spaces(2 * (|PathAt(sorted, i)| - 1)) + sorted[i].name
    ensures Numbered(ps) ==> Numbered(sorted)
    ensures Numbered(ps) ==> forall i :: 0 <= i < |sorted| ==> HeadsItsBlock(sorted, i)
  {
    sorted := Sort(ps);
    SortIsSorting(ps);
    forall id ensures WithId(sorted, id) == WithId(ps, id) {
      SortIsStable(ps, id);
    }
    lines := MakeTree(sorted);
    if Numbered(ps) {
      RearrangedIsNumbered(ps, sorted);
      forall i | 0 <= i < |sorted| ensures HeadsItsBlock(sorted, i) {
        SortedTextIsTree(ps, sorted, i);
      }
    }
  }
}
