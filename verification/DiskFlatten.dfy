/** Flattening a forest of block devices (pkg/disk/lsblk_flatten.go). */
module DiskFlatten {
  import opened Text
  import opened DiskHierarchy

  datatype Flat = Flat(name: string, info: Info, parents: seq<string>, children: seq<string>)

  type Index = map<string, Flat>

  /** The parent entry of one visit: the caller's name, or for a top-level device its own ParentDeviceName. */
  function ParentEntry(d: Device, parent: string): seq<string> {
    if parent != "" then [parent] else if d.parentDevice != "" then [d.parentDevice] else []
  }

  /** What the recursion does, in order: visit a device, or note a child under its parent. */
  datatype Step = Visit(name: string, info: Info, entry: seq<string>) | Edge(parent: string, child: string)

  function Trace(d: Device, parent: string, depth: nat): seq<Step>
    decreases d, 1
  {
    [Visit(d.name, d.info, ParentEntry(d, parent))] + if depth < 2 then TraceChildren(d.name, d.children, depth) else []
  }

  function TraceChildren(name: string, cs: seq<Device>, depth: nat): seq<Step>
    decreases cs, 0
  {
    if cs == [] then []
    else
      var n := |cs| - 1;
      TraceChildren(name, cs[..n], depth) + ([Edge(name, cs[n].name)] + Trace(cs[n], name, depth + 1))
  }

  function TraceForest(forest: seq<Device>): seq<Step> {
    if forest == [] then [] else TraceForest(forest[..|forest| - 1]) + Trace(forest[|forest| - 1], "", 0)
  }

  // ---- what a trace leaves for each name ----

  function ParentsOf(steps: seq<Step>, name: string): seq<string> {
    if steps == [] then []
    else
      var n := |steps| - 1;
      ParentsOf(steps[..n], name) + if steps[n].Visit? && steps[n].name == name then steps[n].entry else []
  }

  function ChildrenOf(steps: seq<Step>, name: string): seq<string> {
    if steps == [] then []
    else
      var n := |steps| - 1;
      ChildrenOf(steps[..n], name) + if steps[n].Edge? && steps[n].parent == name then [steps[n].child] else []
  }

  function FirstInfo(steps: seq<Step>, name: string): Option<Info> {
    if steps == [] then None
    else
      var n := |steps| - 1;
      var before := FirstInfo(steps[..n], name);
      if before.Some? then before
      else if steps[n].Visit? && steps[n].name == name then Some(steps[n].info) else None
  }

  lemma DropLast<T>(a: seq<T>, b: seq<T>)
    requires b != []
    ensures (a + b)[..|a + b| - 1] == a + b[..|b| - 1] && (a + b)[|a + b| - 1] == b[|b| - 1]
  {
  }

  lemma {:induction false} FirstInfoSplits(a: seq<Step>, b: seq<Step>, name: string)
    ensures FirstInfo(a + b, name) == if FirstInfo(a, name).Some? then FirstInfo(a, name) else FirstInfo(b, name)
  {
    if b == [] {
      assert a + b == a;
    } else {
      FirstInfoSplits(a, b[..|b| - 1], name);
      DropLast(a, b);
    }
  }

  lemma {:induction false} ParentsSplit(a: seq<Step>, b: seq<Step>, name: string)
    ensures ParentsOf(a + b, name) == ParentsOf(a, name) + ParentsOf(b, name)
  {
    if b == [] {
      assert a + b == a;
    } else {
      ParentsSplit(a, b[..|b| - 1], name);
      DropLast(a, b);
    }
  }

  lemma {:induction false} ChildrenSplit(a: seq<Step>, b: seq<Step>, name: string)
    ensures ChildrenOf(a + b, name) == ChildrenOf(a, name) + ChildrenOf(b, name)
  {
    if b == [] {
      assert a + b == a;
    } else {
      ChildrenSplit(a, b[..|b| - 1], name);
      DropLast(a, b);
    }
  }

  lemma TraceSplits(a: seq<Step>, b: seq<Step>, name: string)
    ensures ParentsOf(a + b, name) == ParentsOf(a, name) + ParentsOf(b, name)
    ensures ChildrenOf(a + b, name) == ChildrenOf(a, name) + ChildrenOf(b, name)
    ensures FirstInfo(a + b, name) == if FirstInfo(a, name).Some? then FirstInfo(a, name) else FirstInfo(b, name)
  {
    ParentsSplit(a, b, name);
    ChildrenSplit(a, b, name);
    FirstInfoSplits(a, b, name);
  }

  lemma {:induction false} ParentsNeedVisit(steps: seq<Step>, name: string)
    requires FirstInfo(steps, name).None?
    ensures ParentsOf(steps, name) == []
  {
    if steps != [] {
      ParentsNeedVisit(steps[..|steps| - 1], name);
    }
  }

  /** What the entry of a name becomes: old entries grow, new ones start with the first visit's columns. */
  ghost function EntryAfter(before: Index, steps: seq<Step>, name: string): Option<Flat> {
    if name in before then
      Some(before[name].(parents := before[name].parents + ParentsOf(steps, name),
                         children := before[name].children + ChildrenOf(steps, name)))
    else
      match FirstInfo(steps, name)
      case None => None
      case Some(info) => Some(Flat(name, info, ParentsOf(steps, name), ChildrenOf(steps, name)))
  }

  ghost predicate EntryOk(before: Index, after: Index, steps: seq<Step>, name: string) {
    && EntryAfter(before, steps, name) == (if name in after then Some(after[name]) else None)
    && (name !in after ==> ChildrenOf(steps, name) == [])
  }

  /** The map `after` is `before` with the steps carried out. */
  ghost predicate Extends(before: Index, after: Index, steps: seq<Step>) {
    forall name :: EntryOk(before, after, steps, name)
  }

  lemma EntryComposes(a: Index, b: Index, c: Index, s: seq<Step>, t: seq<Step>, name: string)
    requires EntryOk(a, b, s, name) && EntryOk(b, c, t, name)
    ensures EntryOk(a, c, s + t, name)
  {
    TraceSplits(s, t, name);
    if name in a {
      var p, c := a[name].parents, a[name].children;
      assert p + (ParentsOf(s, name) + ParentsOf(t, name)) == (p + ParentsOf(s, name)) + ParentsOf(t, name);
      assert c + (ChildrenOf(s, name) + ChildrenOf(t, name)) == (c + ChildrenOf(s, name)) + ChildrenOf(t, name);
    } else if FirstInfo(s, name).None? {
      ParentsNeedVisit(s, name);
      assert [] + ParentsOf(t, name) == ParentsOf(t, name) && [] + ChildrenOf(t, name) == ChildrenOf(t, name);
    }
  }

  lemma ExtendsComposes(a: Index, b: Index, c: Index, s: seq<Step>, t: seq<Step>)
    requires Extends(a, b, s) && Extends(b, c, t)
    ensures Extends(a, c, s + t)
  {
    forall name ensures EntryOk(a, c, s + t, name) {
      assert EntryOk(a, b, s, name) && EntryOk(b, c, t, name);
      EntryComposes(a, b, c, s, t, name);
    }
  }

  lemma OneStep(step: Step, name: string)
    ensures ParentsOf([step], name) == if step.Visit? && step.name == name then step.entry else []
    ensures ChildrenOf([step], name) == if step.Edge? && step.parent == name then [step.child] else []
    ensures FirstInfo([step], name) == if step.Visit? && step.name == name then Some(step.info) else None
  {
    assert [step][..0] == [];
  }

  lemma VisitExtends(before: Index, d: Device, parent: string)
    ensures var entry := ParentEntry(d, parent);
            var flat := if d.name in before then before[d.name].(parents := before[d.name].parents + entry)
                        else Flat(d.name, d.info, entry, []);
            Extends(before, before[d.name := flat], [Visit(d.name, d.info, entry)])
  {
    var entry := ParentEntry(d, parent);
    var flat := if d.name in before then before[d.name].(parents := before[d.name].parents + entry)
                else Flat(d.name, d.info, entry, []);
    var after := before[d.name := flat];
    forall name ensures EntryOk(before, after, [Visit(d.name, d.info, entry)], name) {
      OneStep(Visit(d.name, d.info, entry), name);
      if name in before {
        assert before[name].parents + [] == before[name].parents && before[name].children + [] == before[name].children;
      }
    }
  }

  lemma EdgeExtends(before: Index, parent: string, child: string)
    requires parent in before
    ensures Extends(before, before[parent := before[parent].(children := before[parent].children + [child])],
        [Edge(parent, child)])
  {
    var after := before[parent := before[parent].(children := before[parent].children + [child])];
    forall name ensures EntryOk(before, after, [Edge(parent, child)], name) {
      OneStep(Edge(parent, child), name);
      if name in before {
        assert before[name].parents + [] == before[name].parents && before[name].children + [] == before[name].children;
      }
    }
  }

  lemma NoStepExtends(all: Index)
    ensures Extends(all, all, [])
  {
    forall name ensures EntryOk(all, all, [], name) {
      if name in all {
        assert all[name].parents + [] == all[name].parents && all[name].children + [] == all[name].children;
      }
    }
  }

  // ---- the recursion ----

  class Flattener {
    /** Dedup by volume name. */
    var all: Index

    constructor ()
      ensures all == map[]
    {
      all := map[];
    }

    /** flattenBlockDevice: carries out exactly the trace of the device. */
    method FlattenBlockDevice(blk: Device, parentName: string, depth: nat)
      modifies this
      ensures Extends(old(all), all, Trace(blk, parentName, depth))
      ensures old(all).Keys + {blk.name} <= all.Keys
      decreases blk
    {
      var entry := ParentEntry(blk, parentName);
      VisitExtends(all, blk, parentName);
      if blk.name in all {
        all := all[blk.name := all[blk.name].(parents := all[blk.name].parents + entry)];
      } else {
        all := all[blk.name := Flat(blk.name, blk.info, entry, [])];
      }
      ghost var steps := [Visit(blk.name, blk.info, entry)];
      if depth < 2 {
        assert blk.children[..0] == [];
        assert steps + TraceChildren(blk.name, [], depth) == steps;
        for i := 0 to |blk.children|
          invariant Extends(old(all), all, steps + TraceChildren(blk.name, blk.children[..i], depth))
          invariant old(all).Keys + {blk.name} <= all.Keys
        {
          var child := blk.children[i];
          ghost var before := all;
          EdgeExtends(all, blk.name, child.name);
          all := all[blk.name := all[blk.name].(children := all[blk.name].children + [child.name])];
          ghost var middle := all;
          FlattenBlockDevice(child, blk.name, depth + 1);
          ChildStep(old(all), before, middle, all, steps, blk, i, depth);
        }
        assert blk.children[..|blk.children|] == blk.children;
      } else {
        assert steps == Trace(blk, parentName, depth);
      }
    }
  }

  lemma ChildStep(start: Index, before: Index, middle: Index, after: Index, steps: seq<Step>, blk: Device, i: nat,
                  depth: nat)
    requires i < |blk.children|
    requires Extends(start, before, steps + TraceChildren(blk.name, blk.children[..i], depth))
    requires Extends(before, middle, [Edge(blk.name, blk.children[i].name)])
    requires Extends(middle, after, Trace(blk.children[i], blk.name, depth + 1))
    ensures Extends(start, after, steps + TraceChildren(blk.name, blk.children[..i + 1], depth))
  {
    var child := blk.children[i];
    var done := TraceChildren(blk.name, blk.children[..i], depth);
    var more := [Edge(blk.name, child.name)] + Trace(child, blk.name, depth + 1);
    ExtendsComposes(before, middle, after, [Edge(blk.name, child.name)], Trace(child, blk.name, depth + 1));
    ExtendsComposes(start, before, after, steps + done, more);
    assert blk.children[..i + 1][..i] == blk.children[..i];
    assert (steps + done) + more == steps + (done + more);
  }

  // ---- collecting and sorting ----

  predicate Ascending(flats: seq<Flat>) {
    forall i, j :: 0 <= i < j < |flats| ==> Less(flats[i].name, flats[j].name)
  }

  function InsertByName(f: Flat, flats: seq<Flat>): seq<Flat> {
    if flats == [] || Less(f.name, flats[0].name) then [f] + flats
    else [flats[0]] + InsertByName(f, flats[1..])
  }

  lemma {:induction false} InsertByNameHolds(f: Flat, flats: seq<Flat>, x: Flat)
    ensures x in InsertByName(f, flats) <==> x == f || x in flats
  {
    if flats != [] && !Less(f.name, flats[0].name) {
      InsertByNameHolds(f, flats[1..], x);
    }
  }

  lemma {:induction false} InsertByNameSorts(f: Flat, flats: seq<Flat>)
    requires Ascending(flats) && forall i :: 0 <= i < |flats| ==> flats[i].name != f.name
    ensures Ascending(InsertByName(f, flats))
  {
    if flats != [] {
      var x, rest := flats[0], flats[1..];
      LessTotal(f.name, x.name);
      if Less(f.name, x.name) {
        forall i | 1 <= i < |flats| ensures Less(f.name, flats[i].name) {
          LessTransitive(f.name, x.name, flats[i].name);
        }
      } else {
        InsertByNameSorts(f, rest);
        var r := InsertByName(f, rest);
        forall i | 0 <= i < |r| ensures Less(x.name, r[i].name) {
          InsertByNameHolds(f, rest, r[i]);
          assert r[i] in r;
        }
      }
    }
  }

  /** Flatten: the values of the map, in ascending order of name. */
  method Flatten(forest: seq<Device>) returns (flats: seq<Flat>, ghost all: Index)
    ensures Extends(map[], all, TraceForest(forest))
    ensures Ascending(flats)
    ensures forall f :: f in flats <==> f.name in all && all[f.name] == f
    ensures forall n :: n in all ==> all[n].name == n
  {
    var fl := new Flattener();
    NoStepExtends(map[]);
    for i := 0 to |forest|
      invariant Extends(map[], fl.all, TraceForest(forest[..i]))
    {
      ghost var before := fl.all;
      fl.FlattenBlockDevice(forest[i], "", 0);
      assert forest[..i + 1][..i] == forest[..i];
      ExtendsComposes(map[], before, fl.all, TraceForest(forest[..i]), Trace(forest[i], "", 0));
    }
    assert forest[..|forest|] == forest;
    all := fl.all;
    forall n | n in all ensures all[n].name == n {
      assert EntryOk(map[], all, TraceForest(forest), n);
    }
    flats := Sorted(fl.all);
  }

  /** Collect the values in any order, keeping what is collected sorted. */
  method Sorted(all: Index) returns (flats: seq<Flat>)
    requires forall n :: n in all ==> all[n].name == n
    ensures Ascending(flats)
    ensures forall f :: f in flats <==> f.name in all && all[f.name] == f
  {
    flats := [];
    var left := all.Keys;
    while left != {}
      invariant left <= all.Keys
      invariant Ascending(flats)
      invariant forall f :: f in flats <==> f.name in all && f.name !in left && all[f.name] == f
      decreases |left|
    {
      var n :| n in left;
      var f := all[n];
      forall i | 0 <= i < |flats| ensures flats[i].name != f.name {
        assert flats[i] in flats;
      }
      InsertByNameSorts(f, flats);
      forall x ensures x in InsertByName(f, flats) <==> x == f || x in flats {
        InsertByNameHolds(f, flats, x);
      }
      flats := InsertByName(f, flats);
      left := left - {n};
    }
  }

  // ---- which devices are flattened ----

  /** The devices down to depth 2, parents before children. */
  function Preorder(ds: seq<Device>, depth: nat): seq<Device>
    decreases ds
  {
    if ds == [] then []
    else
      var n := |ds| - 1;
      Preorder(ds[..n], depth) + ([ds[n]] + if depth < 2 then Preorder(ds[n].children, depth + 1) else [])
  }

  function FirstNamed(ds: seq<Device>, name: string): Option<Info> {
    if ds == [] then None
    else
      var n := |ds| - 1;
      var before := FirstNamed(ds[..n], name);
      if before.Some? then before else if ds[n].name == name then Some(ds[n].info) else None
  }

  lemma {:induction false} FirstNamedSplits(a: seq<Device>, b: seq<Device>, name: string)
    ensures FirstNamed(a + b, name) == if FirstNamed(a, name).Some? then FirstNamed(a, name) else FirstNamed(b, name)
  {
    if b == [] {
      assert a + b == a;
    } else {
      var n := |b| - 1;
      FirstNamedSplits(a, b[..n], name);
      assert (a + b)[..|a + b| - 1] == a + b[..n];
    }
  }

  /** The name occurs exactly k levels below the given devices. */
  ghost predicate AtDepth(ds: seq<Device>, name: string, k: nat)
    decreases k
  {
    if k == 0 then exists i :: 0 <= i < |ds| && ds[i].name == name
    else exists i :: 0 <= i < |ds| && AtDepth(ds[i].children, name, k - 1)
  }

  ghost predicate Within(ds: seq<Device>, name: string, levels: nat) {
    exists k :: 0 <= k <= levels && AtDepth(ds, name, k)
  }

  lemma AtDepthLast(ds: seq<Device>, name: string, k: nat)
    requires ds != []
    ensures var n := |ds| - 1;
            AtDepth(ds, name, k) <==>
              AtDepth(ds[..n], name, k) || (if k == 0 then ds[n].name == name else AtDepth(ds[n].children, name, k - 1))
  {
    var n := |ds| - 1;
    if k == 0 {
      if AtDepth(ds[..n], name, k) {
        var i :| 0 <= i < n && ds[..n][i].name == name;
        assert ds[i].name == name;
      }
      if AtDepth(ds, name, k) {
        var i :| 0 <= i < |ds| && ds[i].name == name;
        assert i < n ==> ds[..n][i].name == name;
      }
    } else {
      if AtDepth(ds[..n], name, k) {
        var i :| 0 <= i < n && AtDepth(ds[..n][i].children, name, k - 1);
        assert AtDepth(ds[i].children, name, k - 1);
      }
      if AtDepth(ds, name, k) {
        var i :| 0 <= i < |ds| && AtDepth(ds[i].children, name, k - 1);
        assert i < n ==> AtDepth(ds[..n][i].children, name, k - 1);
      }
    }
  }

  lemma WithinLast(ds: seq<Device>, name: string, levels: nat)
    requires ds != []
    ensures var n := |ds| - 1;
            Within(ds, name, levels) <==>
              || Within(ds[..n], name, levels) || ds[n].name == name
              || (levels > 0 && Within(ds[n].children, name, levels - 1))
  {
    var n := |ds| - 1;
    if Within(ds[..n], name, levels) {
      var k :| 0 <= k <= levels && AtDepth(ds[..n], name, k);
      AtDepthLast(ds, name, k);
    }
    if ds[n].name == name {
      AtDepthLast(ds, name, 0);
    }
    if levels > 0 && Within(ds[n].children, name, levels - 1) {
      var k :| 0 <= k <= levels - 1 && AtDepth(ds[n].children, name, k);
      AtDepthLast(ds, name, k + 1);
    }
    if Within(ds, name, levels) {
      var k :| 0 <= k <= levels && AtDepth(ds, name, k);
      AtDepthLast(ds, name, k);
    }
  }

  lemma {:induction false} PreorderReachesDepth(ds: seq<Device>, depth: nat, name: string)
    requires depth <= 2
    ensures FirstNamed(Preorder(ds, depth), name).Some? <==> Within(ds, name, 2 - depth)
    decreases ds
  {
    if ds != [] {
      var n := |ds| - 1;
      var below := if depth < 2 then Preorder(ds[n].children, depth + 1) else [];
      PreorderReachesDepth(ds[..n], depth, name);
      if depth < 2 {
        PreorderReachesDepth(ds[n].children, depth + 1, name);
      }
      FirstNamedSplits(Preorder(ds[..n], depth), [ds[n]] + below, name);
      FirstNamedSplits([ds[n]], below, name);
      assert [ds[n]][..0] == [];
      WithinLast(ds, name, 2 - depth);
    }
  }

  lemma {:induction false} TraceVisitsPreorder(d: Device, parent: string, depth: nat, name: string)
    ensures FirstInfo(Trace(d, parent, depth), name) ==
            FirstNamed([d] + if depth < 2 then Preorder(d.children, depth + 1) else [], name)
    decreases d, 1
  {
    var visit := [Visit(d.name, d.info, ParentEntry(d, parent))];
    OneStep(visit[0], name);
    var below := if depth < 2 then Preorder(d.children, depth + 1) else [];
    var steps := if depth < 2 then TraceChildren(d.name, d.children, depth) else [];
    if depth < 2 {
      TraceChildrenVisitPreorder(d.name, d.children, depth, name);
    }
    TraceSplits(visit, steps, name);
    FirstNamedSplits([d], below, name);
    assert [d][..0] == [];
  }

  lemma {:induction false} TraceChildrenVisitPreorder(parent: string, cs: seq<Device>, depth: nat, name: string)
    requires depth < 2
    ensures FirstInfo(TraceChildren(parent, cs, depth), name) == FirstNamed(Preorder(cs, depth + 1), name)
    decreases cs, 0
  {
    if cs != [] {
      var n := |cs| - 1;
      var edge := [Edge(parent, cs[n].name)];
      TraceChildrenVisitPreorder(parent, cs[..n], depth, name);
      TraceVisitsPreorder(cs[n], parent, depth + 1, name);
      OneStep(edge[0], name);
      TraceSplits(edge, Trace(cs[n], parent, depth + 1), name);
      TraceSplits(TraceChildren(parent, cs[..n], depth), edge + Trace(cs[n], parent, depth + 1), name);
      FirstNamedSplits(Preorder(cs[..n], depth + 1),
                       [cs[n]] + if depth + 1 < 2 then Preorder(cs[n].children, depth + 2) else [], name);
    }
  }

  lemma {:induction false} ForestVisitsPreorder(forest: seq<Device>, name: string)
    ensures FirstInfo(TraceForest(forest), name) == FirstNamed(Preorder(forest, 0), name)
  {
    if forest != [] {
      var n := |forest| - 1;
      var last := [forest[n]] + Preorder(forest[n].children, 1);
      ForestVisitsPreorder(forest[..n], name);
      TraceVisitsPreorder(forest[n], "", 0, name);
      FirstInfoSplits(TraceForest(forest[..n]), Trace(forest[n], "", 0), name);
      FirstNamedSplits(Preorder(forest[..n], 0), last, name);
      assert Preorder(forest, 0) == Preorder(forest[..n], 0) + last;
    }
  }

  // ---- parents against children ----

  /** No device that is flattened has an empty name. */
  ghost predicate Named(ds: seq<Device>, depth: nat)
    decreases ds
  {
    ds == [] ||
    var n := |ds| - 1;
    Named(ds[..n], depth) && ds[n].name != "" && (depth < 2 ==> Named(ds[n].children, depth + 1))
  }

  /** How often p is a parent of c in the trace, less how often c is a child of p. */
  ghost function Imbalance(steps: seq<Step>, p: string, c: string): int {
    var parents: int, children: int := multiset(ParentsOf(steps, c))[p], multiset(ChildrenOf(steps, p))[c];
    parents - children
  }

  lemma ImbalanceSplits(a: seq<Step>, b: seq<Step>, p: string, c: string)
    ensures Imbalance(a + b, p, c) == Imbalance(a, p, c) + Imbalance(b, p, c)
  {
    TraceSplits(a, b, c);
    TraceSplits(a, b, p);
  }

  lemma VisitImbalance(d: Device, parent: string, p: string, c: string)
    ensures Imbalance([Visit(d.name, d.info, ParentEntry(d, parent))], p, c) ==
            if d.name == c && ParentEntry(d, parent) == [p] then 1 else 0
  {
    var visit := Visit(d.name, d.info, ParentEntry(d, parent));
    OneStep(visit, c);
    OneStep(visit, p);
  }

  lemma EdgeImbalance(parent: string, child: string, p: string, c: string)
    ensures Imbalance([Edge(parent, child)], p, c) == if parent == p && child == c then -1 else 0
  {
    OneStep(Edge(parent, child), c);
    OneStep(Edge(parent, child), p);
  }

  lemma {:induction false} TraceBalance(d: Device, parent: string, depth: nat, p: string, c: string)
    requires d.name != "" && (depth < 2 ==> Named(d.children, depth + 1))
    ensures Imbalance(Trace(d, parent, depth), p, c) == if d.name == c && ParentEntry(d, parent) == [p] then 1 else 0
    decreases d, 1
  {
    var visit := [Visit(d.name, d.info, ParentEntry(d, parent))];
    VisitImbalance(d, parent, p, c);
    if depth < 2 {
      ChildrenBalance(d.name, d.children, depth, p, c);
      ImbalanceSplits(visit, TraceChildren(d.name, d.children, depth), p, c);
    } else {
      assert visit + [] == visit;
    }
  }

  /** Each noted child is visited next with that parent, so children leave nothing over. */
  lemma {:induction false} ChildrenBalance(name: string, cs: seq<Device>, depth: nat, p: string, c: string)
    requires name != "" && depth < 2 && Named(cs, depth + 1)
    ensures Imbalance(TraceChildren(name, cs, depth), p, c) == 0
    decreases cs, 0
  {
    if cs != [] {
      var n := |cs| - 1;
      var edge, visits := [Edge(name, cs[n].name)], Trace(cs[n], name, depth + 1);
      ChildrenBalance(name, cs[..n], depth, p, c);
      TraceBalance(cs[n], name, depth + 1, p, c);
      EdgeImbalance(name, cs[n].name, p, c);
      ImbalanceSplits(edge, visits, p, c);
      ImbalanceSplits(TraceChildren(name, cs[..n], depth), edge + visits, p, c);
      assert ParentEntry(cs[n], name) == [name];
    }
  }

  /** How many top-level devices named c declare the parent p. */
  function Declared(forest: seq<Device>, p: string, c: string): nat {
    if forest == [] then 0
    else
      var d := forest[|forest| - 1];
      Declared(forest[..|forest| - 1], p, c) + if d.name == c && d.parentDevice == p && p != "" then 1 else 0
  }

  lemma {:induction false} ForestBalance(forest: seq<Device>, p: string, c: string)
    requires Named(forest, 0)
    ensures Imbalance(TraceForest(forest), p, c) == Declared(forest, p, c)
  {
    if forest != [] {
      var n := |forest| - 1;
      ForestBalance(forest[..n], p, c);
      TraceBalance(forest[n], "", 0, p, c);
      ImbalanceSplits(TraceForest(forest[..n]), Trace(forest[n], "", 0), p, c);
    }
  }

  lemma {:induction false} DeclaredSome(forest: seq<Device>, i: nat)
    requires i < |forest| && forest[i].parentDevice != ""
    ensures Declared(forest, forest[i].parentDevice, forest[i].name) > 0
  {
    if i < |forest| - 1 {
      DeclaredSome(forest[..|forest| - 1], i);
    }
  }

  lemma {:induction false} DeclaredNone(forest: seq<Device>, p: string, c: string)
    requires forall i :: 0 <= i < |forest| ==> forest[i].parentDevice == ""
    ensures Declared(forest, p, c) == 0
  {
    if forest != [] {
      DeclaredNone(forest[..|forest| - 1], p, c);
    }
  }

  ghost function ParentCount(all: Index, p: string, c: string): nat {
    if c in all then multiset(all[c].parents)[p] else 0
  }

  ghost function ChildCount(all: Index, p: string, c: string): nat {
    if p in all then multiset(all[p].children)[c] else 0
  }

  // ---- main results ----

  /** Exactly the names at depth 0, 1 or 2 are kept, each with the columns of its first occurrence in preorder. */
  lemma FlattenKeepsFirstOccurrences(forest: seq<Device>, all: Index, name: string)
    requires Extends(map[], all, TraceForest(forest))
    ensures name in all <==> Within(forest, name, 2)
    ensures name in all ==> all[name].name == name && FirstNamed(Preorder(forest, 0), name) == Some(all[name].info)
  {
    assert EntryOk(map[], all, TraceForest(forest), name);
    ForestVisitsPreorder(forest, name);
    PreorderReachesDepth(forest, 0, name);
  }

  /**
    For all p and c, p is listed as a parent of c as often as c as a child of p, plus what top-level devices declare.
   */
  lemma ParentsMatchChildren(forest: seq<Device>, all: Index, p: string, c: string)
    requires Extends(map[], all, TraceForest(forest)) && Named(forest, 0)
    ensures ParentCount(all, p, c) == ChildCount(all, p, c) + Declared(forest, p, c)
  {
    var steps := TraceForest(forest);
    assert EntryOk(map[], all, steps, p) && EntryOk(map[], all, steps, c);
    ForestBalance(forest, p, c);
    if c !in all {
      ParentsNeedVisit(steps, c);
    }
  }

  ghost predicate Symmetric(all: Index) {
    forall p, c :: ParentCount(all, p, c) == ChildCount(all, p, c)
  }

  ghost predicate DeclaresParent(forest: seq<Device>) {
    exists i :: 0 <= i < |forest| && forest[i].parentDevice != ""
  }

  /** So the two sides agree everywhere exactly when no top-level device declares a parent. */
  lemma SymmetricIffNoDeclaredParents(forest: seq<Device>, all: Index)
    requires Extends(map[], all, TraceForest(forest)) && Named(forest, 0)
    ensures Symmetric(all) <==> !DeclaresParent(forest)
  {
    if DeclaresParent(forest) {
      var i :| 0 <= i < |forest| && forest[i].parentDevice != "";
      DeclaredSome(forest, i);
      ParentsMatchChildren(forest, all, forest[i].parentDevice, forest[i].name);
    } else {
      forall p, c ensures ParentCount(all, p, c) == ChildCount(all, p, c) {
        ParentsMatchChildren(forest, all, p, c);
        DeclaredNone(forest, p, c);
      }
    }
  }

  /** A top-level device that declares a parent: the parent is listed with it, it is not listed with the parent. */
  lemma DeclaredParentIsOneSided(info: Info) returns (forest: seq<Device>, all: Index)
    ensures Extends(map[], all, TraceForest(forest)) && Named(forest, 0)
    ensures ParentCount(all, "p", "a") == 1 && ChildCount(all, "p", "a") == 0 && !Symmetric(all)
  {
    var d := Device("a", "p", "", info, []);
    forest := [d];
    all := map["a" := Flat("a", info, ["p"], [])];
    LeafTrace(d);
    VisitExtends(map[], d, "");
    assert map[]["a" := Flat("a", info, ["p"], [])] == all;
    assert all["a"].parents == ["p"] && multiset(["p"])["p"] == 1;
    assert Named([], 0) && forest[..0] == [];
    assert ParentCount(all, "p", "a") != ChildCount(all, "p", "a");
  }

  lemma LeafTrace(d: Device)
    requires d.children == []
    ensures TraceForest([d]) == [Visit(d.name, d.info, ParentEntry(d, ""))]
  {
    var visit := [Visit(d.name, d.info, ParentEntry(d, ""))];
    assert TraceChildren(d.name, [], 0) == [] && visit + [] == visit;
    assert [d][..0] == [] && TraceForest([]) == [] && [] + visit == visit;
  }
}
