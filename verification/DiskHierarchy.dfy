/** Block devices and the forest built from parent names (pkg/disk/lsblk.go). */
module DiskHierarchy {
  import opened Text

  /** The columns of lsblk that are only carried along. */
  datatype Info = Info(
    kind: string, size: nat, rota: bool, serial: string, wwn: string, vendor: string, model: string, rev: string,
    mountPoint: string, fsType: string, fsUsed: nat, partUUID: string)

  /** `parentDevice` is ParentDeviceName, `pkName` the PKNAME column of the pairs output. */
  datatype Device = Device(name: string, parentDevice: string, pkName: string, info: Info, children: seq<Device>)

  /** The inner recursiveAdd: at each level, nest under the first match and stop, else descend and go on. */
  function Add(disk: Device, disks: seq<Device>): (r: seq<Device>)
    ensures |r| == |disks|
  {
    if disks == [] then []
    else if disks[0].name == disk.pkName then [disks[0].(children := disks[0].children + [disk])] + disks[1..]
    else [disks[0].(children := Add(disk, disks[0].children))] + Add(disk, disks[1..])
  }

  lemma AddFrom(disk: Device, disks: seq<Device>, i: nat)
    requires i < |disks|
    ensures disks[i..] == [disks[i]] + disks[i + 1..]
    ensures Add(disk, disks[i..]) ==
            if disks[i].name == disk.pkName then [disks[i].(children := disks[i].children + [disk])] + disks[i + 1..]
            else [disks[i].(children := Add(disk, disks[i].children))] + Add(disk, disks[i + 1..])
  {
    assert disks[i..][1..] == disks[i + 1..];
  }

  lemma UpdateMiddle(a: seq<Device>, x: Device, b: seq<Device>, y: Device)
    ensures |a + ([x] + b)| > |a| && (a + ([x] + b))[|a|] == x
    ensures (a + ([x] + b))[|a| := y] == a + [y] + b == a + ([y] + b)
  {
  }

  /** A turn of the loop that finds the parent: `done` is what became of the devices before i. */
  lemma NestHere(disk: Device, disks: seq<Device>, done: seq<Device>, i: nat)
    requires i < |disks| && |done| == i && disks[i].name == disk.pkName
    requires Add(disk, disks) == done + Add(disk, disks[i..])
    ensures var r := done + disks[i..];
      r[i] == disks[i] && r[i := disks[i].(children := disks[i].children + [disk])] == Add(disk, disks)
  {
    AddFrom(disk, disks, i);
    UpdateMiddle(done, disks[i], disks[i + 1..], disks[i].(children := disks[i].children + [disk]));
  }

  /** A turn that descends into device i and goes on. */
  lemma Descend(disk: Device, disks: seq<Device>, done: seq<Device>, i: nat)
    requires i < |disks| && |done| == i && disks[i].name != disk.pkName
    requires Add(disk, disks) == done + Add(disk, disks[i..])
    ensures var r := done + disks[i..]; var y := disks[i].(children := Add(disk, disks[i].children));
      && r[i] == disks[i] && r[i := y] == done + [y] + disks[i + 1..]
      && Add(disk, disks) == done + [y] + Add(disk, disks[i + 1..])
  {
    var y := disks[i].(children := Add(disk, disks[i].children));
    AddFrom(disk, disks, i);
    UpdateMiddle(done, disks[i], disks[i + 1..], y);
    UpdateMiddle(done, disks[i], Add(disk, disks[i + 1..]), y);
  }

  /** recursiveAdd nests as Add says. */
  method RecursiveAdd(disk: Device, disks: seq<Device>) returns (r: seq<Device>)
    ensures r == Add(disk, disks)
    decreases disks
  {
    r := disks;
    ghost var done: seq<Device> := [];
    for i := 0 to |disks|
      invariant |done| == i && r == done + disks[i..]
      invariant Add(disk, disks) == done + Add(disk, disks[i..])
    {
      if disks[i].name == disk.pkName {
        NestHere(disk, disks, done, i);
        r := r[i := disks[i].(children := disks[i].children + [disk])];
        return;
      }
      Descend(disk, disks, done, i);
      var nested := RecursiveAdd(disk, disks[i].children);
      r := r[i := disks[i].(children := nested)];
      done := done + [disks[i].(children := nested)];
    }
  }

  function Roots(disks: seq<Device>): seq<Device> {
    if disks == [] then []
    else
      var before, d := Roots(disks[..|disks| - 1]), disks[|disks| - 1];
      if d.pkName == "" then before + [d] else before
  }

  /** Where the roots stand in the list. */
  function RootIndices(disks: seq<Device>): (idx: seq<nat>)
    ensures forall k :: 0 <= k < |idx| ==> idx[k] < |disks| && disks[idx[k]].pkName == ""
    ensures forall k, l :: 0 <= k < l < |idx| ==> idx[k] < idx[l]
    ensures forall i :: 0 <= i < |disks| && disks[i].pkName == "" ==> i in idx
  {
    if disks == [] then []
    else
      var n := |disks| - 1;
      var before := RootIndices(disks[..n]);
      if disks[n].pkName == "" then before + [n] else before
  }

  /** The roots are the parentless devices, in list order. */
  lemma {:induction false} RootsInListOrder(disks: seq<Device>)
    ensures |Roots(disks)| == |RootIndices(disks)|
    ensures forall k :: 0 <= k < |Roots(disks)| ==> Roots(disks)[k] == disks[RootIndices(disks)[k]]
  {
    if disks != [] {
      RootsInListOrder(disks[..|disks| - 1]);
    }
  }

  /** The forest after the first k devices were nested under the roots. */
  function Nested(disks: seq<Device>, k: nat): seq<Device>
    requires k <= |disks|
  {
    if k == 0 then Roots(disks) else NestOne(disks[k - 1], Nested(disks, k - 1))
  }

  function NestOne(disk: Device, forest: seq<Device>): seq<Device> {
    if disk.pkName == "" then forest else Add(disk, forest)
  }

  method BuildDiskHierarchy(disks: seq<Device>) returns (final: seq<Device>)
    ensures final == Nested(disks, |disks|)
  {
    final := [];
    for i := 0 to |disks|
      invariant final == Roots(disks[..i])
    {
      assert disks[..i + 1][..i] == disks[..i];
      if disks[i].pkName == "" {
        final := final + [disks[i]];
      }
    }
    assert disks[..|disks|] == disks;
    for i := 0 to |disks|
      invariant final == Nested(disks, i)
    {
      if disks[i].pkName != "" {
        final := RecursiveAdd(disks[i], final);
      }
    }
  }

  // ---- what is in a forest ----

  /** How often a name occurs in the forest, at any depth. */
  function Count(forest: seq<Device>, name: string): nat {
    if forest == [] then 0
    else (if forest[0].name == name then 1 else 0) + Count(forest[0].children, name) + Count(forest[1..], name)
  }

  function Names(forest: seq<Device>): (names: seq<string>) {
    seq(|forest|, i requires 0 <= i < |forest| => forest[i].name)
  }

  /** A node without its subtree. */
  datatype Node = Node(name: string, parentDevice: string, pkName: string, info: Info, children: seq<string>)

  function NodeOf(d: Device): Node {
    Node(d.name, d.parentDevice, d.pkName, d.info, Names(d.children))
  }

  /** The first node of that name in preorder. */
  function Lookup(forest: seq<Device>, name: string): (r: Option<Node>)
    ensures r.Some? <==> Count(forest, name) > 0
    ensures r.Some? ==> r.value.name == name
  {
    if forest == [] then None
    else if forest[0].name == name then Some(NodeOf(forest[0]))
    else
      var below := Lookup(forest[0].children, name);
      if below.Some? then below else Lookup(forest[1..], name)
  }

  /** Every child names its parent in PKNAME. */
  ghost predicate EdgesMatch(forest: seq<Device>) {
    forest == [] ||
    (&& (forall c :: c in forest[0].children ==> c.pkName == forest[0].name)
     && EdgesMatch(forest[0].children) && EdgesMatch(forest[1..]))
  }

  lemma {:induction false} CountAppend(forest: seq<Device>, d: Device, name: string)
    ensures Count(forest + [d], name) == Count(forest, name) + Count([d], name)
    ensures Lookup(forest + [d], name) == if Lookup(forest, name).Some? then Lookup(forest, name) else Lookup([d], name)
  {
    if forest == [] {
      assert forest + [d] == [d];
    } else {
      CountAppend(forest[1..], d, name);
      assert (forest + [d])[1..] == forest[1..] + [d];
    }
  }

  lemma LeafCounts(d: Device, name: string)
    requires d.children == []
    ensures Count([d], name) == if d.name == name then 1 else 0
    ensures Lookup([d], name) == if d.name == name then Some(NodeOf(d)) else None
  {
    assert [d][1..] == [];
  }

  lemma {:induction false} EdgesAppend(forest: seq<Device>, d: Device)
    requires EdgesMatch(forest) && d.children == []
    ensures EdgesMatch(forest + [d])
  {
    if forest == [] {
      assert forest + [d] == [d] && [d][1..] == [];
    } else {
      EdgesAppend(forest[1..], d);
      assert (forest + [d])[1..] == forest[1..] + [d];
    }
  }

  /** Add changes nothing of a level but the children of its devices. */
  lemma {:induction false} AddKeepsLevel(disk: Device, forest: seq<Device>, i: nat)
    requires i < |forest|
    ensures Add(disk, forest)[i] == forest[i].(children := Add(disk, forest)[i].children)
  {
    if forest[0].name != disk.pkName && i > 0 {
      AddKeepsLevel(disk, forest[1..], i - 1);
    }
  }

  lemma AddKeepsNames(disk: Device, forest: seq<Device>)
    ensures Names(Add(disk, forest)) == Names(forest)
  {
    forall i | 0 <= i < |forest| ensures Names(Add(disk, forest))[i] == Names(forest)[i] {
      AddKeepsLevel(disk, forest, i);
    }
  }

  lemma {:induction false} AddKeepsEdges(disk: Device, forest: seq<Device>)
    requires EdgesMatch(forest) && disk.children == []
    ensures EdgesMatch(Add(disk, forest))
  {
    if forest != [] {
      var x, rest := forest[0], forest[1..];
      var r := Add(disk, forest);
      if x.name == disk.pkName {
        EdgesAppend(x.children, disk);
        assert r[1..] == rest;
      } else {
        AddKeepsEdges(disk, x.children);
        AddKeepsEdges(disk, rest);
        assert r[1..] == Add(disk, rest);
        forall i | 0 <= i < |x.children| ensures Add(disk, x.children)[i].pkName == x.name {
          AddKeepsLevel(disk, x.children, i);
          assert x.children[i] in x.children;
        }
      }
    }
  }

  /** Without the parent in it, the forest is left alone. */
  lemma {:induction false} AddWithoutParent(disk: Device, forest: seq<Device>)
    requires Count(forest, disk.pkName) == 0
    ensures Add(disk, forest) == forest
  {
    if forest != [] {
      AddWithoutParent(disk, forest[0].children);
      AddWithoutParent(disk, forest[1..]);
    }
  }

  /** What Add does to one name, when the parent occurs once and the new name not yet. */
  ghost function AddedNode(disk: Device, forest: seq<Device>, name: string): Option<Node> {
    if name == disk.name then Some(NodeOf(disk))
    else
      match Lookup(forest, name)
      case None => None
      case Some(x) => if name == disk.pkName then Some(x.(children := x.children + [disk.name])) else Some(x)
  }

  lemma AddHere(disk: Device, forest: seq<Device>, name: string)
    requires forest != [] && forest[0].name == disk.pkName && disk.children == []
    requires Count(forest, disk.pkName) == 1 && Count(forest, disk.name) == 0
    ensures Count(Add(disk, forest), name) == Count(forest, name) + if name == disk.name then 1 else 0
    ensures Lookup(Add(disk, forest), name) == AddedNode(disk, forest, name)
  {
    var x, r := forest[0], Add(disk, forest);
    assert r[1..] == forest[1..];
    CountAppend(x.children, disk, name);
    LeafCounts(disk, name);
    assert Names(x.children + [disk]) == Names(x.children) + [disk.name];
  }

  lemma {:induction false} AddUnderParent(disk: Device, forest: seq<Device>, name: string)
    requires disk.children == [] && Count(forest, disk.pkName) == 1 && Count(forest, disk.name) == 0
    ensures Count(Add(disk, forest), name) == Count(forest, name) + if name == disk.name then 1 else 0
    ensures Lookup(Add(disk, forest), name) == AddedNode(disk, forest, name)
  {
    var x, rest := forest[0], forest[1..];
    if x.name == disk.pkName {
      AddHere(disk, forest, name);
    } else {
      AddKeepsNames(disk, x.children);
      if Count(x.children, disk.pkName) == 1 {
        AddUnderParent(disk, x.children, name);
        AddWithoutParent(disk, rest);
      } else {
        AddWithoutParent(disk, x.children);
        AddUnderParent(disk, rest, name);
      }
      AddElsewhere(disk, forest, name);
    }
  }

  /** Counts and lookups of the result of descending, from those of its two parts. */
  lemma AddElsewhere(disk: Device, forest: seq<Device>, name: string)
    requires forest != [] && forest[0].name != disk.pkName
    requires Names(Add(disk, forest[0].children)) == Names(forest[0].children)
    ensures Count(Add(disk, forest), name) ==
            (if forest[0].name == name then 1 else 0)
            + Count(Add(disk, forest[0].children), name) + Count(Add(disk, forest[1..]), name)
    ensures Lookup(Add(disk, forest), name) ==
            if forest[0].name == name then Some(NodeOf(forest[0]))
            else if Lookup(Add(disk, forest[0].children), name).Some? then Lookup(Add(disk, forest[0].children), name)
            else Lookup(Add(disk, forest[1..]), name)
  {
    assert Add(disk, forest)[1..] == Add(disk, forest[1..]);
  }

  // ---- what is built ----

  /** Distinct names and no children yet. */
  ghost predicate Listing(disks: seq<Device>) {
    && (forall i, j :: 0 <= i < j < |disks| ==> disks[i].name != disks[j].name)
    && (forall i :: 0 <= i < |disks| ==> disks[i].children == [])
  }

  /** Device i finds its parent: a root of the list, or an earlier device that itself found its place. */
  ghost predicate Placed(disks: seq<Device>, i: nat)
    requires i < |disks|
    decreases i
  {
    disks[i].pkName == "" ||
    exists j :: && 0 <= j < |disks| && disks[j].name == disks[i].pkName
                && (disks[j].pkName == "" || (j < i && Placed(disks, j)))
  }

  /** Device i is in the forest once k devices were handled. */
  ghost predicate InForest(disks: seq<Device>, k: nat, i: nat)
    requires i < |disks|
  {
    disks[i].pkName == "" || (i < k && Placed(disks, i))
  }

  /** The devices among the first k that end up directly under `name`, in list order. */
  ghost function ChildNames(disks: seq<Device>, k: nat, name: string): seq<string>
    requires k <= |disks|
  {
    if k == 0 then []
    else
      var d := disks[k - 1];
      ChildNames(disks, k - 1, name) +
      if d.pkName == name && d.pkName != "" && Placed(disks, k - 1) then [d.name] else []
  }

  ghost function ExpectedNode(disks: seq<Device>, k: nat, i: nat): Option<Node>
    requires k <= |disks| && i < |disks|
  {
    if InForest(disks, k, i) then Some(NodeOf(disks[i]).(children := ChildNames(disks, k, disks[i].name))) else None
  }

  ghost predicate LookupsOk(disks: seq<Device>, k: nat, forest: seq<Device>)
    requires k <= |disks|
  {
    forall i :: 0 <= i < |disks| ==> Lookup(forest, disks[i].name) == ExpectedNode(disks, k, i)
  }

  ghost predicate OnlyListed(disks: seq<Device>, forest: seq<Device>) {
    && (forall n :: Count(forest, n) <= 1)
    && (forall n :: (forall i :: 0 <= i < |disks| ==> disks[i].name != n) ==> Count(forest, n) == 0)
  }

  ghost predicate BuiltOk(disks: seq<Device>, k: nat, forest: seq<Device>)
    requires k <= |disks|
  {
    EdgesMatch(forest) && LookupsOk(disks, k, forest) && OnlyListed(disks, forest)
  }

  /** Appending a leaf to a forest. */
  lemma LeafAppend(forest: seq<Device>, d: Device, name: string)
    requires d.children == []
    ensures Count(forest + [d], name) == Count(forest, name) + (if name == d.name then 1 else 0)
    ensures Lookup(forest + [d], name) ==
            if Lookup(forest, name).Some? then Lookup(forest, name)
            else if name == d.name then Some(NodeOf(d)) else None
  {
    CountAppend(forest, d, name);
    LeafCounts(d, name);
  }

  lemma {:induction false} RootsLookup(disks: seq<Device>, all: seq<Device>, i: nat)
    requires Listing(all) && disks <= all && i < |all|
    ensures Lookup(Roots(disks), all[i].name) ==
            if i < |disks| && all[i].pkName == "" then Some(NodeOf(all[i])) else None
    ensures Count(Roots(disks), all[i].name) <= 1
  {
    if disks != [] {
      var n := |disks| - 1;
      RootsLookup(disks[..n], all, i);
      assert disks[n] == all[n];
      if disks[n].pkName == "" {
        LeafAppend(Roots(disks[..n]), disks[n], all[i].name);
      }
    }
  }

  lemma {:induction false} RootsEdges(disks: seq<Device>)
    requires forall i :: 0 <= i < |disks| ==> disks[i].children == []
    ensures EdgesMatch(Roots(disks))
  {
    if disks != [] {
      var n := |disks| - 1;
      RootsEdges(disks[..n]);
      if disks[n].pkName == "" {
        EdgesAppend(Roots(disks[..n]), disks[n]);
      }
    }
  }

  lemma {:induction false} RootsUnlisted(disks: seq<Device>, name: string)
    requires forall i :: 0 <= i < |disks| ==> disks[i].children == [] && disks[i].name != name
    ensures Count(Roots(disks), name) == 0
  {
    if disks != [] {
      var n := |disks| - 1;
      RootsUnlisted(disks[..n], name);
      if disks[n].pkName == "" {
        LeafAppend(Roots(disks[..n]), disks[n], name);
      }
    }
  }

  /** Nothing is placed under a device that is not a root and not handled yet. */
  lemma NotPlacedUnder(disks: seq<Device>, c: nat, i: nat)
    requires Listing(disks) && c <= i < |disks| && disks[i].pkName != ""
    requires disks[c].pkName == disks[i].name && disks[c].pkName != ""
    ensures !Placed(disks, c)
  {
    forall j | 0 <= j < |disks| && disks[j].name == disks[c].pkName ensures j == i {
    }
  }

  /** A device that is not a root gets no child before it is handled itself. */
  lemma {:induction false} NoChildrenYet(disks: seq<Device>, k: nat, i: nat)
    requires Listing(disks) && k <= i + 1 && i < |disks| && k <= |disks| && disks[i].pkName != ""
    ensures ChildNames(disks, k, disks[i].name) == []
  {
    if k > 0 {
      NoChildrenYet(disks, k - 1, i);
      if disks[k - 1].pkName == disks[i].name && disks[k - 1].pkName != "" {
        NotPlacedUnder(disks, k - 1, i);
      }
    }
  }

  lemma PlacedIffParentIn(disks: seq<Device>, k: nat, forest: seq<Device>)
    requires Listing(disks) && k < |disks| && disks[k].pkName != "" && BuiltOk(disks, k, forest)
    ensures Count(forest, disks[k].pkName) == if Placed(disks, k) then 1 else 0
    ensures Count(forest, disks[k].name) == 0
  {
    var p := disks[k].pkName;
    if Placed(disks, k) {
      var j :| 0 <= j < |disks| && disks[j].name == p && (disks[j].pkName == "" || (j < k && Placed(disks, j)));
      assert InForest(disks, k, j);
      assert Lookup(forest, disks[j].name).Some?;
    }
    assert !InForest(disks, k, k);
    assert Lookup(forest, disks[k].name) == None;
  }

  /** How handling device k changes what is expected of device i. */
  lemma ExpectedStep(disks: seq<Device>, k: nat, i: nat)
    requires Listing(disks) && k < |disks| && i < |disks|
    ensures disks[k].pkName == "" || !Placed(disks, k) ==> ExpectedNode(disks, k + 1, i) == ExpectedNode(disks, k, i)
    ensures disks[k].pkName != "" && Placed(disks, k) ==>
              ExpectedNode(disks, k + 1, i) ==
                if i == k then Some(NodeOf(disks[k]))
                else match ExpectedNode(disks, k, i)
                     case None => None
                     case Some(x) => if disks[i].name == disks[k].pkName
                         then Some(x.(children := x.children + [disks[k].name])) else Some(x)
  {
    var before, after := ChildNames(disks, k, disks[i].name), ChildNames(disks, k + 1, disks[i].name);
    assert after == if disks[k].pkName == disks[i].name && disks[k].pkName != "" && Placed(disks, k)
        then before + [disks[k].name] else before;
    assert Names(disks[k].children) == [];
    if i == k && disks[k].pkName != "" {
      NoChildrenYet(disks, k + 1, k);
    }
  }

  lemma PlacedStep(disks: seq<Device>, k: nat, forest: seq<Device>)
    requires Listing(disks) && k < |disks| && disks[k].pkName != "" && BuiltOk(disks, k, forest) && Placed(disks, k)
    ensures BuiltOk(disks, k + 1, Add(disks[k], forest))
  {
    var d := disks[k];
    PlacedIffParentIn(disks, k, forest);
    AddKeepsEdges(d, forest);
    forall n ensures Count(Add(d, forest), n) == Count(forest, n) + if n == d.name then 1 else 0 {
      AddUnderParent(d, forest, n);
    }
    forall i | 0 <= i < |disks| ensures Lookup(Add(d, forest), disks[i].name) == ExpectedNode(disks, k + 1, i) {
      AddUnderParent(d, forest, disks[i].name);
      ExpectedStep(disks, k, i);
    }
  }

  lemma SkippedStep(disks: seq<Device>, k: nat, forest: seq<Device>)
    requires Listing(disks) && k < |disks| && (disks[k].pkName == "" || !Placed(disks, k)) && BuiltOk(disks, k, forest)
    ensures BuiltOk(disks, k + 1, forest)
    ensures disks[k].pkName != "" ==> Add(disks[k], forest) == forest
  {
    if disks[k].pkName != "" {
      PlacedIffParentIn(disks, k, forest);
      AddWithoutParent(disks[k], forest);
    }
    forall i | 0 <= i < |disks| ensures Lookup(forest, disks[i].name) == ExpectedNode(disks, k + 1, i) {
      ExpectedStep(disks, k, i);
    }
  }

  lemma RootsOk(disks: seq<Device>)
    requires Listing(disks)
    ensures BuiltOk(disks, 0, Roots(disks))
  {
    RootsEdges(disks);
    forall i | 0 <= i < |disks| ensures Lookup(Roots(disks), disks[i].name) == ExpectedNode(disks, 0, i) {
      RootsLookup(disks, disks, i);
      assert Names(disks[i].children) == [];
    }
    forall n ensures Count(Roots(disks), n) <= 1
             ensures (forall i :: 0 <= i < |disks| ==> disks[i].name != n) ==> Count(Roots(disks), n) == 0
    {
      if i :| 0 <= i < |disks| && disks[i].name == n {
        RootsLookup(disks, disks, i);
      } else {
        RootsUnlisted(disks, n);
      }
    }
  }

  lemma NestOneOk(disks: seq<Device>, k: nat, forest: seq<Device>)
    requires Listing(disks) && k < |disks| && BuiltOk(disks, k, forest)
    ensures BuiltOk(disks, k + 1, NestOne(disks[k], forest))
  {
    if disks[k].pkName != "" && Placed(disks, k) {
      PlacedStep(disks, k, forest);
    } else {
      SkippedStep(disks, k, forest);
    }
  }

  lemma {:induction false} NestedOk(disks: seq<Device>, k: nat)
    requires Listing(disks) && k <= |disks|
    ensures BuiltOk(disks, k, Nested(disks, k))
  {
    if k == 0 {
      RootsOk(disks);
    } else {
      NestedOk(disks, k - 1);
      NestOneOk(disks, k - 1, Nested(disks, k - 1));
    }
  }

  lemma {:induction false} NestingKeepsRoots(disks: seq<Device>, k: nat)
    requires k <= |disks|
    ensures Names(Nested(disks, k)) == Names(Roots(disks))
  {
    if k > 0 {
      NestingKeepsRoots(disks, k - 1);
      AddKeepsNames(disks[k - 1], Nested(disks, k - 1));
    }
  }

  // ---- main results ----

  /**
    No name occurs twice; a device is in the forest, once, exactly if it is Placed; it then carries its own
    columns and has as children exactly the placed devices that name it as parent, in list order.
   */
  lemma EachPlacedDeviceOnce(disks: seq<Device>, i: nat)
    requires Listing(disks) && i < |disks|
    ensures var forest := Nested(disks, |disks|);
            && Count(forest, disks[i].name) == (if Placed(disks, i) then 1 else 0)
            && (Placed(disks, i) ==>
                  Lookup(forest, disks[i].name) ==
                    Some(Node(disks[i].name, disks[i].parentDevice, disks[i].pkName, disks[i].info,
                              ChildNames(disks, |disks|, disks[i].name))))
  {
    NestedOk(disks, |disks|);
    var forest := Nested(disks, |disks|);
    assert InForest(disks, |disks|, i) <==> Placed(disks, i);
    assert Lookup(forest, disks[i].name).Some? <==> Count(forest, disks[i].name) > 0;
  }

  /** Nothing else is in the forest, its roots are the parentless devices in list order, and every edge is a PKNAME. */
  lemma ForestIsWellFormed(disks: seq<Device>, name: string)
    requires Listing(disks)
    ensures var forest := Nested(disks, |disks|);
            && EdgesMatch(forest)
            && |forest| == |RootIndices(disks)|
            && (forall k :: 0 <= k < |forest| ==> forest[k].name == disks[RootIndices(disks)[k]].name)
            && Count(forest, name) <= 1
            && ((forall i :: 0 <= i < |disks| ==> disks[i].name != name) ==> Count(forest, name) == 0)
  {
    NestedOk(disks, |disks|);
    NestingKeepsRoots(disks, |disks|);
    RootsInListOrder(disks);
    var forest := Nested(disks, |disks|);
    assert |Names(forest)| == |Names(Roots(disks))|;
    forall k | 0 <= k < |forest| ensures forest[k].name == disks[RootIndices(disks)[k]].name {
      assert Names(forest)[k] == Names(Roots(disks))[k];
    }
  }

  /** Each non-root's parent is a root of the list or an earlier entry. */
  ghost predicate ParentsFirst(disks: seq<Device>) {
    forall i :: 0 <= i < |disks| && disks[i].pkName != "" ==>
      exists j :: 0 <= j < |disks| && disks[j].name == disks[i].pkName && (disks[j].pkName == "" || j < i)
  }

  lemma {:induction false} ParentsFirstPlaces(disks: seq<Device>, i: nat)
    requires ParentsFirst(disks) && i < |disks|
    ensures Placed(disks, i)
  {
    if disks[i].pkName != "" {
      var j :| 0 <= j < |disks| && disks[j].name == disks[i].pkName && (disks[j].pkName == "" || j < i);
      if disks[j].pkName != "" {
        ParentsFirstPlaces(disks, j);
      }
    }
  }

  /** Every input device appears exactly once if and only if each parent is a root or comes earlier. */
  lemma CompleteIffParentsFirst(disks: seq<Device>)
    requires Listing(disks)
    ensures (forall i :: 0 <= i < |disks| ==> Count(Nested(disks, |disks|), disks[i].name) == 1) <==>
        ParentsFirst(disks)
  {
    var forest := Nested(disks, |disks|);
    forall i | 0 <= i < |disks| ensures Count(forest, disks[i].name) == 1 <==> Placed(disks, i) {
      EachPlacedDeviceOnce(disks, i);
    }
    if ParentsFirst(disks) {
      forall i | 0 <= i < |disks| ensures Count(forest, disks[i].name) == 1 {
        ParentsFirstPlaces(disks, i);
      }
    }
    if forall i :: 0 <= i < |disks| ==> Count(forest, disks[i].name) == 1 {
      forall i | 0 <= i < |disks| && disks[i].pkName != ""
        ensures exists j :: 0 <= j < |disks| && disks[j].name == disks[i].pkName && (disks[j].pkName == "" || j < i)
      {
        assert Placed(disks, i);
      }
    }
  }
}
