/** Pool maps: created from a buffer, searched by id, and extracted to a buffer again. */
module PoolMap {
  import opened Sequences
  import opened PoolLayers
  import opened PoolParse
  import opened PoolBuffer
  import opened PoolTree
  import opened PoolActivate
  import Sort

  const ID_ALL: nat := 0xFFFF_FFFF

  // ---------------------------------------------------------------------------
  // Parsing
  // ---------------------------------------------------------------------------

  /** A buffer's contents, layer by layer. */
  ghost predicate Represents(cs: seq<Comp>, ls: Layers, targets: seq<Comp>) {
    Layered(ls, targets) && cs == Upto(ls, |ls|) + targets
  }

  lemma {:induction false} FlatRoot(ls: Layers, l: nat)
    requires 1 <= l <= |ls|
    ensures Flat(ls[..l]) == ls[0] + Upto(ls, l)
  {
    if l == 1 {
      assert ls[1..1] == [];
      assert ls[..1][..0] == [];
    } else {
      FlatRoot(ls, l - 1);
      UptoMore(ls, l - 1);
      assert ls[..l][..l - 1] == ls[..l - 1];
    }
  }

  lemma {:induction false} AllDomains(cs: seq<Comp>)
    requires forall k :: 0 <= k < |cs| ==> cs[k].ty != TARGET
    ensures Domains(cs) == |cs|
  {
    if cs != [] { AllDomains(cs[..|cs| - 1]); }
  }

  lemma {:induction false} NoDomains(a: seq<Comp>, b: seq<Comp>)
    requires forall k :: 0 <= k < |b| ==> b[k].ty == TARGET
    ensures Domains(a + b) == Domains(a)
  {
    if b == [] {
      assert a + b == a;
    } else {
      var n := |b| - 1;
      assert (a + b)[..|a + b| - 1] == a + b[..n];
      NoDomains(a, b[..n]);
    }
  }

  lemma {:induction false} UptoTypes(ls: Layers, targets: seq<Comp>, l: nat)
    requires Layered(ls, targets) && 1 <= l <= |ls|
    ensures forall k :: 0 <= k < |Upto(ls, l)| ==> Upto(ls, l)[k].ty != TARGET
    decreases l
  {
    if l == 1 {
      assert ls[1..1] == [];
    } else {
      UptoMore(ls, l - 1);
      UptoTypes(ls, targets, l - 1);
      TypesBelow(ls, targets, l - 1);
      var layer := ls[l - 1];
      forall j | 0 <= j < |layer| ensures layer[j].ty != TARGET { assert SameType(layer); }
    }
  }

  /** A buffer of layers has as many domains as it says. */
  lemma RepresentsHolds(cs: seq<Comp>, ls: Layers, targets: seq<Comp>)
    requires Represents(cs, ls, targets)
    ensures Holds(ls, targets, cs, Domains(cs)) && (Domains(cs) >= 1 <==> |ls| >= 2)
  {
    RootOne(ls, targets);
    UptoTypes(ls, targets, |ls|);
    AllDomains(Upto(ls, |ls|));
    NoDomains(Upto(ls, |ls|), targets);
    UptoLen(ls, |ls|);
    FlatRoot(ls, |ls|);
    assert ls[..|ls|] == ls;
    assert [ls[0][0]] == ls[0];
    if |ls| >= 2 { LayerSizes(ls, targets, 1); }
  }

  /** Without domains the targets hang under the root. */
  lemma RootOnly(ls: Layers, targets: seq<Comp>)
    requires Layered(ls, targets) && |ls| == 1
    ensures IsTree(ls, targets, [Dom(Comp(ROOT, ST_UP, 0, 0, 0, 0, 0), |targets|, NULL, 0)])
  {
  }

  /** Build the tree of a buffer. */
  method Parse(buf: PoolBuf, ghost ls: Layers, ghost ts: seq<Comp>) returns (rc: Rc, tree: seq<Dom>, targets: seq<Comp>)
    requires buf.Valid() && (buf.targetNr > 0 && |buf.Filled()| == buf.nr ==> Represents(buf.Filled(), ls, ts))
    ensures rc == if buf.targetNr == 0 || |buf.Filled()| != buf.nr then Inval else Ok
    ensures rc == Ok ==> targets == buf.Filled()[buf.domainNr..] == ts && IsTree(ls, ts, tree)
  {
    tree, targets := [], [];
    if buf.targetNr == 0 || buf.domainNr + buf.targetNr != buf.nr {
      return Inval, tree, targets;
    }
    assert buf.Filled() == buf.comps;
    targets := buf.comps[buf.domainNr..];
    hide Layered, IsTree, Holds, AllLinked;
    RepresentsHolds(buf.comps, ls, ts);
    HoldsTarget(ls, ts, buf.comps, buf.domainNr);
    if buf.domainNr == 0 {
      tree := [Dom(Comp(ROOT, ST_UP, 0, 0, 0, 0, 0), buf.targetNr, NULL, 0)];
      RootOnly(ls, ts);
      return Ok, tree, targets;
    }
    var ok;
    ok, tree := LinkLayers(buf.comps, buf.domainNr, ls, ts);
    tree := CountTargets(tree, ls, ts);
    rc := Ok;
  }

  // ---------------------------------------------------------------------------
  // Checking
  // ---------------------------------------------------------------------------

  ghost predicate Versions(cs: seq<Comp>, version: nat) {
    forall k :: 0 <= k < |cs| ==> cs[k].ver <= version
  }

  /** Check one layer of a tree. */
  method SaneLayer(tree: seq<Dom>, at: nat, domNr: nat, version: nat, ghost ls: Layers, ghost targets: seq<Comp>,
      ghost l: nat)
    returns (sane: bool, childNr: nat)
    requires Layered(ls, targets) && IsTree(ls, targets, tree) && l < |ls| && at == Off(ls, l) && domNr == |ls[l]|
    ensures sane <==> Versions(ls[l], version)
    ensures sane ==> childNr == if l == |ls| - 1 then 0 else |ls[l + 1]|
  {
    hide Layered, IsTree, Off, Before, Expected;
    LayerSizes(ls, targets, l);
    childNr := 0;
    var prev := at;
    for i := 0 to domNr
      invariant Versions(ls[l][..i], version)
      invariant childNr == if l == |ls| - 1 then 0 else Before(ls[l], i)
      invariant prev == if i == 0 then at else at + i - 1
    {
      TreeAt(ls, targets, tree, l, i);
      BeforeMore(ls[l], i);
      var d := tree[at + i];
      if d.comp.ver > version {
        return false, childNr;
      }
      if i > 0 {
        TreeAt(ls, targets, tree, l, i - 1);
        BeforeMore(ls[l], i - 1);
        Neighbours(ls, targets, l, i);
      }
      SameTypes(ls, targets, l, i);
      var p := tree[prev];
      if p.comp.ty != d.comp.ty {
        return false, childNr;
      }
      if d.targets == NULL || d.targetNr == 0 {
        return false, childNr;
      }
      if (p.children == NULL) != (d.children == NULL) {
        return false, childNr;
      }
      if (p.targets == NULL) != (d.targets == NULL) {
        return false, childNr;
      }
      if prev != at + i && p.children != NULL && p.children + p.comp.nr != d.children {
        return false, childNr;
      }
      if prev != at + i && p.targets != NULL && p.targets + p.targetNr != d.targets {
        return false, childNr;
      }
      if d.comp.nr != 0 {
        childNr := childNr + d.comp.nr;
      }
      prev := at + i;
      assert ls[l][..i + 1] == ls[l][..i] + [ls[l][i]];
    }
    assert ls[l][..|ls[l]|] == ls[l];
    sane := true;
  }

  /** The targets of neighbours are next to each other. */
  lemma Neighbours(ls: Layers, targets: seq<Comp>, l: nat, j: nat)
    requires Layered(ls, targets) && l < |ls| && 0 < j < |ls[l]|
    ensures var p, d := Expected(ls, targets, l, j - 1), Expected(ls, targets, l, j);
            p.targets + p.targetNr == d.targets
  {
    hide Layered, Off, Before;
    SumMore(Counts(ls, targets, l), j - 1);
  }

  lemma SameTypes(ls: Layers, targets: seq<Comp>, l: nat, j: nat)
    requires Layered(ls, targets) && l < |ls| && j < |ls[l]|
    ensures ls[l][j].ty == ls[l][0].ty && (j > 0 ==> ls[l][j - 1].ty == ls[l][0].ty)
  {
  }

  ghost predicate AllVersions(ls: Layers, n: nat, version: nat)
    requires n <= |ls|
  {
    forall l :: 0 <= l < n ==> Versions(ls[l], version)
  }

  /** Check that a tree fits together and is not newer than `version`. */
  method TreeSane(tree: seq<Dom>, targets: seq<Comp>, version: nat, ghost ls: Layers) returns (sane: bool)
    requires Layered(ls, targets) && IsTree(ls, targets, tree)
    ensures sane <==> AllVersions(ls, |ls|, version) && Versions(targets, version)
  {
    hide Layered, IsTree, Off, Before, Expected;
    RootOne(ls, targets);
    var topDoms, _, targetNr, _ := TreeCount(tree, 0, ls, targets, 0);
    HasTargets(ls, targets);
    if targetNr == 0 {
      return false;
    }
    var parent, domNr, at := NULL, topDoms, 0;
    ghost var l := 0;
    while at != NULL
      invariant 0 <= l <= |ls| && AllVersions(ls, l, version)
      invariant at != NULL <==> l < |ls|
      invariant l < |ls| ==> at == Off(ls, l) && domNr == |ls[l]|
      invariant parent == if l == 0 then NULL else Off(ls, l - 1)
      decreases |ls| - l
    {
      LayerSizes(ls, targets, l);
      TreeAt(ls, targets, tree, l, 0);
      if l > 0 {
        LayerSizes(ls, targets, l - 1);
        TreeAt(ls, targets, tree, l - 1, 0);
        TypesAscend(ls, targets, l - 1);
      }
      if parent != NULL && tree[parent].comp.ty >= tree[at].comp.ty {
        return false;
      }
      var ok, childNr := SaneLayer(tree, at, domNr, version, ls, targets, l);
      if !ok {
        return false;
      }
      parent, domNr, at := at, childNr, tree[at].children;
      l := l + 1;
      if l < |ls| { LayerSizes(ls, targets, l); }
    }
    for i := 0 to targetNr
      invariant Versions(targets[..i], version)
    {
      TargetType(ls, targets, i);
      if targets[i].ty != TARGET {
        return false;
      }
      if targets[i].ver > version {
        return false;
      }
      assert targets[..i + 1] == targets[..i] + [targets[i]];
    }
    assert targets[..|targets|] == targets;
    sane := true;
  }

  lemma TypesAscend(ls: Layers, targets: seq<Comp>, l: nat)
    requires Layered(ls, targets) && l + 1 < |ls|
    ensures ls[l] != [] && ls[l + 1] != [] && ls[l][0].ty < ls[l + 1][0].ty
  {
    assert ls[l + 1] != [];
  }

  lemma TargetType(ls: Layers, targets: seq<Comp>, k: nat)
    requires Layered(ls, targets) && k < |targets|
    ensures targets[k].ty == TARGET
  {
  }

  lemma HasTargets(ls: Layers, targets: seq<Comp>)
    requires Layered(ls, targets)
    ensures |targets| >= 1
  {
    CountsAll(ls, targets, 0);
    CountsPositive(ls, targets, 0);
    assert ls[0] != [];
    SumPositive(Counts(ls, targets, 0));
  }

  // ---------------------------------------------------------------------------
  // Sorters
  // ---------------------------------------------------------------------------

  function DomId(tree: seq<Dom>): nat -> int {
    (k: nat) => if k < |tree| then tree[k].comp.id else 0
  }

  function TargetId(targets: seq<Comp>): nat -> int {
    (k: nat) => if k < |targets| then targets[k].id else 0
  }

  ghost function Positions(base: nat, n: nat): (s: seq<nat>)
    ensures |s| == n && forall j :: 0 <= j < n ==> s[j] == base + j
  {
    seq(n, j => base + j)
  }

  ghost predicate UniqueIds(cs: seq<Comp>) {
    forall i, j :: 0 <= i < j < |cs| ==> cs[i].id != cs[j].id
  }

  /** `s` is the `n` positions from `base` on, sorted by id. */
  ghost predicate SorterFor(s: seq<nat>, base: nat, n: nat, id: nat -> int) {
    && multiset(s) == multiset(Positions(base, n))
    && Sort.Sorted(s, id)
  }

  lemma SorterKeys(s: seq<nat>, base: nat, n: nat, id: nat -> int, id': nat -> int)
    requires SorterFor(s, base, n, id) && forall k :: base <= k < base + n ==> id(k) == id'(k)
    ensures SorterFor(s, base, n, id')
  {
    SorterRange(s, base, n);
  }

  lemma SorterRange(s: seq<nat>, base: nat, n: nat)
    requires multiset(s) == multiset(Positions(base, n))
    ensures |s| == n && (forall i :: 0 <= i < |s| ==> base <= s[i] < base + n) &&
            (forall k :: base <= k < base + n ==> k in s)
  {
    var p := Positions(base, n);
    assert |multiset(s)| == |multiset(p)|;
    forall i | 0 <= i < |s| ensures base <= s[i] < base + n {
      assert s[i] in multiset(s);
      assert s[i] in p;
    }
    forall k | base <= k < base + n ensures k in s {
      assert p[k - base] in multiset(p);
      assert k in multiset(s);
    }
  }

  /** Unique ids in a run of components are unique keys of their positions. */
  lemma UniqueKeys(cs: seq<Comp>, base: nat, id: nat -> int)
    requires forall j :: 0 <= j < |cs| ==> id(base + j) == cs[j].id
    ensures Sort.Unique(Positions(base, |cs|), id) <==> UniqueIds(cs)
  {
    var p := Positions(base, |cs|);
    forall i, j | 0 <= i < j < |cs| ensures id(p[i]) == id(p[j]) <==> cs[i].id == cs[j].id {
      assert p[i] == base + i && p[j] == base + j;
    }
    if UniqueIds(cs) {
      forall i, j | 0 <= i < j < |p| ensures id(p[i]) != id(p[j]) { assert cs[i].id != cs[j].id; }
    } else {
      var i, j :| 0 <= i < j < |cs| && cs[i].id == cs[j].id;
      assert id(p[i]) == id(p[j]);
    }
  }

  ghost function DomComps(tree: seq<Dom>, base: nat, n: nat): (cs: seq<Comp>)
    requires base + n <= |tree|
    ensures |cs| == n && forall j :: 0 <= j < n ==> cs[j] == tree[base + j].comp
  {
    seq(n, j requires 0 <= j < n => tree[base + j].comp)
  }

  /** Bring up the domains of a layer and sort them by id. */
  method SortLayer(tree: seq<Dom>, base: nat, n: nat) returns (ok: bool, t: seq<Dom>, sorter: array<nat>)
    requires base + n <= |tree|
    ensures fresh(sorter) && |t| == |tree| && ok == UniqueIds(DomComps(tree, base, n))
    ensures forall k :: 0 <= k < |t| ==>
            t[k] == if base <= k < base + n then tree[k].(comp := Up(tree[k].comp)) else tree[k]
    ensures ok ==> SorterFor(sorter[..], base, n, DomId(t))
  {
    t := tree;
    sorter := new nat[n];
    for j := 0 to n
      invariant |t| == |tree| && forall k :: 0 <= k < |t| ==>
                t[k] == if base <= k < base + j then tree[k].(comp := Up(tree[k].comp)) else tree[k]
      invariant forall k :: 0 <= k < j ==> sorter[k] == base + k
    {
      if t[base + j].comp.status == ST_NEW {
        t := t[base + j := t[base + j].(comp := t[base + j].comp.(status := ST_UP))];
      }
      sorter[j] := base + j;
    }
    assert sorter[..] == Positions(base, n);
    UniqueKeys(DomComps(tree, base, n), base, DomId(t));
    ok := Sort.ArraySort(sorter, true, DomId(t));
  }

  /** Bring up the targets and sort them by id. */
  method SortTargets(targets: seq<Comp>) returns (ok: bool, ts: seq<Comp>, sorter: array<nat>)
    ensures fresh(sorter) && ts == UpAll(targets) && ok == UniqueIds(targets)
    ensures ok ==> SorterFor(sorter[..], 0, |targets|, TargetId(ts))
  {
    ts := targets;
    sorter := new nat[|targets|];
    for j := 0 to |targets|
      invariant |ts| == |targets| && forall k :: 0 <= k < |ts| ==> ts[k] == if k < j then Up(targets[k]) else targets[k]
      invariant forall k :: 0 <= k < j ==> sorter[k] == k
    {
      sorter[j] := j;
      if ts[j].status == ST_NEW {
        ts := ts[j := ts[j].(status := ST_UP)];
      }
    }
    assert ts == UpAll(targets);
    assert sorter[..] == Positions(0, |targets|);
    UniqueKeys(targets, 0, TargetId(ts));
    ok := Sort.ArraySort(sorter, true, TargetId(ts));
  }

  // ---------------------------------------------------------------------------
  // Maps
  // ---------------------------------------------------------------------------

  /** After layer `l` of the first `l` layers' tree was brought up, the first `l + 1` are. */
  lemma LayerUp(ls: Layers, targets: seq<Comp>, tree: seq<Dom>, t: seq<Dom>, l: nat)
    requires Layered(ls, targets) && l < |ls| && |t| == |tree|
    requires Layered(UpLayers(ls, l), targets) && IsTree(UpLayers(ls, l), targets, tree)
    requires Off(ls, l) + |ls[l]| <= |tree|
    requires forall k :: 0 <= k < |t| ==>
               t[k] == if Off(ls, l) <= k < Off(ls, l) + |ls[l]| then tree[k].(comp := Up(tree[k].comp)) else tree[k]
    ensures Layered(UpLayers(ls, l + 1), targets) && IsTree(UpLayers(ls, l + 1), targets, t)
    ensures UniqueIds(DomComps(tree, Off(ls, l), |ls[l]|)) <==> UniqueIds(ls[l])
  {
    hide Layered, IsTree, Off, Expected, Before, UniqueIds;
    var a, b := UpLayers(ls, l + 1), UpLayers(ls, l);
    UpAlike(ls, l + 1, targets, false);
    UpAlike(ls, l, targets, false);
    assert AlikeLayers(a, b) by {
      forall m | 0 <= m < |a| ensures Alike(a[m], b[m]) { assert Alike(a[m], ls[m]) && Alike(b[m], ls[m]); }
    }
    forall m, j {:trigger a[m][j]} | 0 <= m < |a| && 0 <= j < |a[m]| && Off(b, m) + j < |tree|
      ensures t[Off(b, m) + j] == tree[Off(b, m) + j].(comp := tree[Off(b, m) + j].comp.(status := a[m][j].status))
    {
      UpAt(ls, targets, tree, t, l, m, j);
    }
    AlikeTree(a, b, targets, targets, tree, t);
    LayerIds(ls, targets, tree, l);
  }

  lemma LayerIds(ls: Layers, targets: seq<Comp>, tree: seq<Dom>, l: nat)
    requires Layered(ls, targets) && l < |ls| && Off(ls, l) + |ls[l]| <= |tree|
    requires Layered(UpLayers(ls, l), targets) && IsTree(UpLayers(ls, l), targets, tree)
    ensures UniqueIds(DomComps(tree, Off(ls, l), |ls[l]|)) <==> UniqueIds(ls[l])
  {
    hide Layered, IsTree, Off, Expected, Before, UniqueIds;
    var b := UpLayers(ls, l);
    UpAlike(ls, l, targets, false);
    forall j | 0 <= j < |ls[l]| ensures DomComps(tree, Off(ls, l), |ls[l]|)[j].id == ls[l][j].id {
      AlikeOff(b, ls, l);
      TreeAt(b, targets, tree, l, j);
    }
    SameIds(DomComps(tree, Off(ls, l), |ls[l]|), ls[l]);
  }

  lemma SameIds(a: seq<Comp>, b: seq<Comp>)
    requires |a| == |b| && forall j :: 0 <= j < |b| ==> a[j].id == b[j].id
    ensures UniqueIds(a) <==> UniqueIds(b)
  {
  }

  lemma UpAt(ls: Layers, targets: seq<Comp>, tree: seq<Dom>, t: seq<Dom>, l: nat, m: nat, j: nat)
    requires Layered(ls, targets) && l < |ls| && |t| == |tree|
    requires Layered(UpLayers(ls, l), targets) && IsTree(UpLayers(ls, l), targets, tree)
    requires Off(ls, l) + |ls[l]| <= |tree|
    requires forall k :: 0 <= k < |t| ==>
               t[k] == if Off(ls, l) <= k < Off(ls, l) + |ls[l]| then tree[k].(comp := Up(tree[k].comp)) else tree[k]
    requires m < |ls| && j < |ls[m]|
    ensures var a, b := UpLayers(ls, l + 1), UpLayers(ls, l);
            Off(b, m) + j < |tree| && t[Off(b, m) + j] ==
              tree[Off(b, m) + j].(comp := tree[Off(b, m) + j].comp.(status := a[m][j].status))
  {
    hide Layered, IsTree, Off, Expected, Before;
    var a, b := UpLayers(ls, l + 1), UpLayers(ls, l);
    UpAlike(ls, l, targets, false);
    AlikeOff(b, ls, m);
    AlikeOff(b, ls, l);
    TreeAt(b, targets, tree, m, j);
    Apart(ls, l, m, j);
    assert a[m][j] == if m < l + 1 then Up(ls[m][j]) else ls[m][j];
    assert b[m][j] == if m < l then Up(ls[m][j]) else ls[m][j];
  }

  /** A position is in one layer only. */
  lemma Apart(ls: Layers, l: nat, m: nat, j: nat)
    requires l < |ls| && m < |ls| && j < |ls[m]|
    ensures Off(ls, l) <= Off(ls, m) + j < Off(ls, l) + |ls[l]| <==> m == l
  {
    if m < l { OffLess(ls, m, l); }
    if l < m { OffLess(ls, l, m); }
  }

  ghost predicate AllUnique(ls: Layers, n: nat)
    requires n <= |ls|
  {
    forall l :: 0 <= l < n ==> UniqueIds(ls[l])
  }

  /** The sorters of the first `n` layers. */
  ghost predicate Sorters(ls: Layers, tree: seq<Dom>, ss: seq<array<nat>>, n: nat)
    requires n <= |ls|
    reads ss
  {
    |ss| == n && forall l :: 0 <= l < n ==> SorterFor(ss[l][..], Off(ls, l), |ls[l]|, DomId(tree))
  }

  class Map {
    var version: nat
    var tree: seq<Dom>
    var targets: seq<Comp>
    var domainSorters: seq<array<nat>>
    var targetSorter: array<nat>
    ghost var ls: Layers

    ghost predicate Valid()
      reads this, domainSorters, targetSorter
    {
      && Layered(ls, targets) && IsTree(ls, targets, tree)
      && Sorters(ls, tree, domainSorters, |ls|) && AllUnique(ls, |ls|)
      && SorterFor(targetSorter[..], 0, |targets|, TargetId(targets)) && UniqueIds(targets)
    }

    constructor (version: nat, tree: seq<Dom>, targets: seq<Comp>, domainSorters: seq<array<nat>>,
      targetSorter: array<nat>, ghost ls: Layers)
      ensures this.version == version && this.tree == tree && this.targets == targets && this.ls == ls
      ensures this.domainSorters == domainSorters && this.targetSorter == targetSorter
    {
      this.version, this.tree, this.targets := version, tree, targets;
      this.domainSorters, this.targetSorter, this.ls := domainSorters, targetSorter, ls;
    }

    /** The target with an id, or all targets: how many there are, and the first. */
    method FindTarget(id: nat) returns (nr: nat, at: int)
      requires Valid()
      ensures id == ID_ALL ==> nr == |targets| && at == 0
      ensures id != ID_ALL && (exists k :: 0 <= k < |targets| && targets[k].id == id) ==>
                nr == 1 && 0 <= at < |targets| && forall k :: 0 <= k < |targets| ==> (targets[k].id == id <==> k == at)
      ensures id != ID_ALL && !(exists k :: 0 <= k < |targets| && targets[k].id == id) ==> nr == 0 && at == NULL
    {
      if id == ID_ALL {
        RootOne(ls, targets);
        TreeAt(ls, targets, tree, 0, 0);
        RootTargets(ls, targets);
        return tree[0].targetNr, tree[0].targets;
      }
      hide Layered, IsTree, Sorters, AllUnique;
      HasTargets(ls, targets);
      SorterRange(targetSorter[..], 0, |targets|);
      var r := Sort.ArrayFind(targetSorter, id, TargetId(targets));
      if r < 0 {
        forall k | 0 <= k < |targets| ensures targets[k].id != id {
          assert k in targetSorter[..];
        }
        return 0, NULL;
      }
      nr, at := 1, targetSorter[r];
      assert targetSorter[..][r] == at;
      assert targets[at].id == id;
    }

    /** The domain of a type with an id, or all domains of a type. */
    method FindDomain(ty: nat, id: nat) returns (nr: nat, at: int)
      requires Valid()
      ensures (forall l :: 0 <= l < |ls| ==> Type(ls, l) != ty) ==> nr == 0
      ensures forall l :: 0 <= l < |ls| && Type(ls, l) == ty ==> Found(ls, tree, l, id, nr, at)
    {
      hide Layered, IsTree, Off, Sorters, AllUnique, SorterFor, Expected, UniqueIds, Found;
      RootOne(ls, targets);
      TreeAt(ls, targets, tree, 0, 0);
      var tmp, i := 0, 0;
      while tmp != NULL
        invariant 0 <= i <= |ls| && (tmp != NULL <==> i < |ls|) && (i < |ls| ==> tmp == Off(ls, i) < |tree|)
        invariant forall l :: 0 <= l < i ==> Type(ls, l) != ty
        decreases |ls| - i
      {
        LayerSizes(ls, targets, i);
        TreeAt(ls, targets, tree, i, 0);
        if tree[tmp].comp.ty == ty {
          break;
        }
        tmp := tree[tmp].children;
        i := i + 1;
        if i < |ls| {
          LayerSizes(ls, targets, i);
          TreeAt(ls, targets, tree, i, 0);
        }
      }
      if i == |domainSorters| {
        assert i == |ls| by { SorterCount(ls, tree, domainSorters); }
        return 0, NULL;
      }
      SorterCount(ls, tree, domainSorters);
      LayerSizes(ls, targets, i);
      TreeAt(ls, targets, tree, i, 0);
      OneLayer(ls, targets, i);
      TypeIs(ls, targets, i);
      UniqueIn(ls, i);
      assert Type(ls, i) == ty;
      var sorter := domainSorters[i];
      SorterOf(ls, tree, domainSorters, i);
      if id == ID_ALL {
        nr, at := sorter.Length, tmp;
        FoundAll(ls, tree, i, nr, at);
        return;
      }
      var r := Sort.ArrayFind(sorter, id, DomId(tree));
      DomainIds(ls, targets, tree, i);
      if r < 0 {
        nr, at := 0, NULL;
      } else {
        nr, at := 1, sorter[r];
      }
      FoundOne(ls, tree, i, id, sorter[..], r, nr, at);
    }
  }

  ghost predicate OnlyAt(layer: seq<Comp>, id: nat, j: int) {
    0 <= j < |layer| && forall i :: 0 <= i < |layer| ==> (layer[i].id == id <==> i == j)
  }

  /** The outcome of a search in layer `l`. */
  ghost predicate Found(ls: Layers, tree: seq<Dom>, l: nat, id: nat, nr: nat, at: int)
    requires l < |ls|
  {
    if id == ID_ALL then nr == |ls[l]| && at == Off(ls, l)
    else if exists j :: 0 <= j < |ls[l]| && ls[l][j].id == id then
      nr == 1 && OnlyAt(ls[l], id, at - Off(ls, l))
    else nr == 0 && at == NULL
  }

  lemma SorterCount(ls: Layers, tree: seq<Dom>, ss: seq<array<nat>>)
    requires Sorters(ls, tree, ss, |ls|)
    ensures |ss| == |ls|
  {
  }

  lemma SorterOf(ls: Layers, tree: seq<Dom>, ss: seq<array<nat>>, l: nat)
    requires Sorters(ls, tree, ss, |ls|) && l < |ls|
    ensures |ss| == |ls| && SorterFor(ss[l][..], Off(ls, l), |ls[l]|, DomId(tree))
    ensures ss[l].Length == |ls[l]| && Sort.Sorted(ss[l][..], DomId(tree))
  {
    SorterRange(ss[l][..], Off(ls, l), |ls[l]|);
  }

  /** Only one layer has a given type. */
  lemma OneLayer(ls: Layers, targets: seq<Comp>, l: nat)
    requires Layered(ls, targets) && l < |ls|
    ensures forall m :: 0 <= m < |ls| && Type(ls, m) == Type(ls, l) ==> m == l
  {
    forall m | 0 <= m < |ls| && Type(ls, m) == Type(ls, l) ensures m == l {
      if m < l { Ascending(ls, targets, m, l); }
      if l < m { Ascending(ls, targets, l, m); }
    }
  }

  lemma {:induction false} Ascending(ls: Layers, targets: seq<Comp>, l: nat, m: nat)
    requires Layered(ls, targets) && l < m < |ls|
    ensures Type(ls, l) < Type(ls, m)
    decreases m - l
  {
    TypesAscend(ls, targets, m - 1);
    if l < m - 1 { Ascending(ls, targets, l, m - 1); }
  }

  lemma DomainIds(ls: Layers, targets: seq<Comp>, tree: seq<Dom>, l: nat)
    requires Layered(ls, targets) && IsTree(ls, targets, tree) && l < |ls|
    ensures forall j :: 0 <= j < |ls[l]| ==> DomId(tree)(Off(ls, l) + j) == ls[l][j].id
  {
    hide Layered, IsTree, Off, Expected;
    forall j | 0 <= j < |ls[l]| ensures DomId(tree)(Off(ls, l) + j) == ls[l][j].id { TreeAt(ls, targets, tree, l, j); }
  }

  lemma FoundAll(ls: Layers, tree: seq<Dom>, l: nat, nr: nat, at: int)
    requires l < |ls| && nr == |ls[l]| && at == Off(ls, l)
    ensures Found(ls, tree, l, ID_ALL, nr, at)
  {
  }

  lemma FoundOne(ls: Layers, tree: seq<Dom>, l: nat, id: nat, s: seq<nat>, r: int, nr: nat, at: int)
    requires l < |ls| && id != ID_ALL && SorterFor(s, Off(ls, l), |ls[l]|, DomId(tree)) && UniqueIds(ls[l])
    requires forall j :: 0 <= j < |ls[l]| ==> DomId(tree)(Off(ls, l) + j) == ls[l][j].id
    requires if r < 0 then nr == 0 && at == NULL && forall i :: 0 <= i < |s| ==> DomId(tree)(s[i]) != id
             else r < |s| && nr == 1 && at == s[r] && DomId(tree)(s[r]) == id
    ensures Found(ls, tree, l, id, nr, at)
  {
    hide DomId, Off;
    var base, layer := Off(ls, l), ls[l];
    SorterRange(s, base, |layer|);
    if r < 0 {
      forall j | 0 <= j < |layer| ensures layer[j].id != id {
        assert base + j in s;
        var i :| 0 <= i < |s| && s[i] == base + j;
      }
    } else {
      var j := at - base;
      assert base <= s[r] < base + |layer|;
      assert DomId(tree)(base + j) == layer[j].id;
      forall i | 0 <= i < |layer| ensures layer[i].id == id <==> i == j {
        if i < j { assert layer[i].id != layer[j].id; } else if j < i { assert layer[j].id != layer[i].id; }
      }
    }
  }

  lemma UniqueIn(ls: Layers, l: nat)
    requires AllUnique(ls, |ls|) && l < |ls|
    ensures UniqueIds(ls[l])
  {
  }

  lemma LayerReady(ls: Layers, targets: seq<Comp>, t: seq<Dom>, l: nat)
    requires Layered(ls, targets) && l < |ls|
    requires Layered(UpLayers(ls, l), targets) && IsTree(UpLayers(ls, l), targets, t)
    ensures |UpLayers(ls, l)| == |ls| && |UpLayers(ls, l)[l]| == |ls[l]| && Off(UpLayers(ls, l), l) == Off(ls, l)
    ensures Off(ls, l + 1) == Off(ls, l) + |ls[l]| <= |t|
  {
    hide Layered, IsTree, Off, UpLayers;
    UpAlike(ls, l, targets, false);
    AlikeOff(UpLayers(ls, l), ls, l);
    UpSizes(ls, l);
    LayerSizes(ls, targets, l);
    TreeSize(ls, targets, t, l);
  }

  /** Sort the domains of every layer, bringing them up. */
  method SortLayers(tree: seq<Dom>, layers: nat, ghost ls: Layers, ghost targets: seq<Comp>)
    returns (unique: bool, t: seq<Dom>, sorters: seq<array<nat>>)
    requires Layered(ls, targets) && IsTree(ls, targets, tree) && layers == |ls|
    ensures fresh(sorters) && (unique <==> AllUnique(ls, |ls|))
    ensures unique ==>
              && Layered(UpLayers(ls, |ls|), targets) && IsTree(UpLayers(ls, |ls|), targets, t)
              && Sorters(ls, t, sorters, |ls|)
  {
    hide Layered, IsTree, Off, Expected, SorterFor, UniqueIds, Before, UpLayers, DomComps;
    RootOne(ls, targets);
    var base := 0;
    t, sorters, unique := tree, [], true;
    UpNone(ls);
    for l := 0 to layers
      invariant l <= |ls| && base == Off(ls, l) && AllUnique(ls, l)
      invariant Layered(UpLayers(ls, l), targets) && IsTree(UpLayers(ls, l), targets, t)
      invariant Sorters(ls, t, sorters, l) && fresh(sorters)
    {
      LayerReady(ls, targets, t, l);
      var topDoms, _, _, _ := TreeCount(t, base, UpLayers(ls, l), targets, l);
      ghost var was := t;
      var ok, sorter;
      ok, t, sorter := SortLayer(t, base, topDoms);
      LayerUp(ls, targets, was, t, l);
      if !ok {
        unique := false;
        return;
      }
      SortersKept(ls, was, t, sorters, l);
      sorters := sorters + [sorter];
      base := base + topDoms;
    }
  }

  lemma UpFields(ls: Layers, targets: seq<Comp>)
    ensures forall k :: 0 <= k < |targets| ==>
              UpAll(targets)[k] == if targets[k].status == ST_NEW then targets[k].(status := ST_UP) else targets[k]
    ensures forall l :: 0 <= l < |ls| ==> |UpLayers(ls, |ls|)[l]| == |ls[l]|
    ensures forall l, j :: 0 <= l < |ls| && 0 <= j < |ls[l]| ==>
              UpLayers(ls, |ls|)[l][j] == if ls[l][j].status == ST_NEW then ls[l][j].(status := ST_UP) else ls[l][j]
  {
  }

  /** Set up the sorters of a tree, bringing its components up. */
  method Initialise(tree: seq<Dom>, targets: seq<Comp>, version: nat, ghost ls: Layers) returns (map_: Map?)
    requires Layered(ls, targets) && IsTree(ls, targets, tree)
    ensures map_ != null <==> AllUnique(ls, |ls|) && UniqueIds(targets)
    ensures map_ != null ==>
              && fresh(map_) && map_.Valid() && map_.version == version
              && map_.ls == UpLayers(ls, |ls|) && map_.targets == UpAll(targets)
    ensures map_ != null ==>
              && |map_.targets| == |targets| && |map_.ls| == |ls|
              && (forall k :: 0 <= k < |targets| ==>
                    map_.targets[k] == if targets[k].status == ST_NEW then targets[k].(status := ST_UP) else targets[k])
              && (forall l :: 0 <= l < |ls| ==> |map_.ls[l]| == |ls[l]|)
              && (forall l, j :: 0 <= l < |ls| && 0 <= j < |ls[l]| ==>
                    map_.ls[l][j] == if ls[l][j].status == ST_NEW then ls[l][j].(status := ST_UP) else ls[l][j])
  {
    hide Layered, IsTree, Off, Expected, SorterFor, UniqueIds, Before, UpLayers, UpAll, Sorters, AllUnique, Up;
    UpFields(ls, targets);
    RootOne(ls, targets);
    var _, _, targetNr, layers := TreeCount(tree, 0, ls, targets, 0);
    var unique, t, sorters := SortLayers(tree, layers, ls, targets);
    if !unique {
      return null;
    }
    var ok, ts, targetSorter := SortTargets(targets);
    if !ok {
      return null;
    }
    UpTargets(ls, targets, t);
    UpSorters(ls, t, sorters);
    UpIds(ls, targets);
    map_ := new Map(version, t, ts, sorters, targetSorter, UpLayers(ls, |ls|));
  }

  lemma UpSizes(ls: Layers, n: nat)
    ensures |UpLayers(ls, n)| == |ls| && forall l :: 0 <= l < |ls| ==> |UpLayers(ls, n)[l]| == |ls[l]|
  {
  }

  lemma TreeSize(ls: Layers, targets: seq<Comp>, tree: seq<Dom>, l: nat)
    requires Layered(ls, targets) && l < |ls| && Layered(UpLayers(ls, l), targets) &&
             IsTree(UpLayers(ls, l), targets, tree)
    ensures Off(ls, l) + |ls[l]| <= |tree|
  {
    UpSizes(ls, l);
    UpAlike(ls, l, targets, false);
    LayerSizes(ls, targets, l);
    LayerSizes(UpLayers(ls, l), targets, l);
    TreeAt(UpLayers(ls, l), targets, tree, l, |ls[l]| - 1);
    hide Layered, IsTree, UpLayers;
    AlikeOff(UpLayers(ls, l), ls, l);
  }

  /** Bringing up a later layer does not touch the sorters. */
  lemma SortersKept(ls: Layers, tree: seq<Dom>, t: seq<Dom>, ss: seq<array<nat>>, n: nat)
    requires n <= |ls| && Sorters(ls, tree, ss, n) && |t| == |tree| && forall k :: 0 <= k < |t| ==>
             t[k].comp.id == tree[k].comp.id
    ensures Sorters(ls, t, ss, n)
  {
    forall l | 0 <= l < n ensures SorterFor(ss[l][..], Off(ls, l), |ls[l]|, DomId(t)) {
      SorterKeys(ss[l][..], Off(ls, l), |ls[l]|, DomId(tree), DomId(t));
    }
  }

  lemma UpTargets(ls: Layers, targets: seq<Comp>, t: seq<Dom>)
    requires Layered(ls, targets) && Layered(UpLayers(ls, |ls|), targets) && IsTree(UpLayers(ls, |ls|), targets, t)
    ensures Layered(UpLayers(ls, |ls|), UpAll(targets)) && IsTree(UpLayers(ls, |ls|), UpAll(targets), t)
  {
    hide Layered, IsTree, Off, Expected;
    var a := UpLayers(ls, |ls|);
    UpAlike(ls, |ls|, targets, true);
    assert AlikeLayers(a, a);
    forall l, j {:trigger a[l][j]} | 0 <= l < |a| && 0 <= j < |a[l]| && Off(a, l) + j < |t|
      ensures t[Off(a, l) + j] == t[Off(a, l) + j].(comp := t[Off(a, l) + j].comp.(status := a[l][j].status))
    {
      TreeAt(a, targets, t, l, j);
    }
    AlikeTree(a, a, UpAll(targets), targets, t, t);
  }

  lemma UpSorters(ls: Layers, tree: seq<Dom>, ss: seq<array<nat>>)
    requires Sorters(ls, tree, ss, |ls|)
    ensures Sorters(UpLayers(ls, |ls|), tree, ss, |ls|)
  {
    var a := UpLayers(ls, |ls|);
    assert AlikeLayers(a, ls) by { forall l | 0 <= l < |a| ensures Alike(a[l], ls[l]) {} }
    forall l | 0 <= l < |ls| ensures SorterFor(ss[l][..], Off(a, l), |a[l]|, DomId(tree)) { AlikeOff(a, ls, l); }
  }

  lemma UpIds(ls: Layers, targets: seq<Comp>)
    requires AllUnique(ls, |ls|)
    ensures AllUnique(UpLayers(ls, |ls|), |ls|) && (UniqueIds(targets) ==> UniqueIds(UpAll(targets)))
  {
    var a := UpLayers(ls, |ls|);
    forall l | 0 <= l < |ls| ensures UniqueIds(a[l]) { SameIds(a[l], ls[l]); }
    SameIds(UpAll(targets), targets);
  }

  /** Create a map from a buffer. */
  method Create(buf: PoolBuf, version: nat, ghost ls: Layers, ghost ts: seq<Comp>) returns (rc: Rc, map_: Map?)
    requires buf.Valid() && Represents(buf.Filled(), ls, ts)
    ensures rc == Ok <==> map_ != null
    ensures rc == Ok <==>
              && |buf.Filled()| == buf.nr && AllVersions(ls, |ls|, version) && Versions(ts, version)
              && AllUnique(ls, |ls|) && UniqueIds(ts)
    ensures rc == Ok ==>
              && fresh(map_) && map_.Valid() && map_.version == version
              && map_.ls == UpLayers(ls, |ls|) && map_.targets == UpAll(ts)
              && (forall k :: 0 <= k < |ts| ==>
                    map_.targets[k] == if ts[k].status == ST_NEW then ts[k].(status := ST_UP) else ts[k])
  {
    hide Layered, IsTree, AllVersions, AllUnique, UniqueIds, Domains, Upto;
    BufferCounts(buf.Filled(), ls, ts);
    map_ := null;
    var tree, targets;
    rc, tree, targets := Parse(buf, ls, ts);
    if rc != Ok {
      return;
    }
    var sane := TreeSane(tree, targets, version, ls);
    if !sane {
      return Inval, null;
    }
    map_ := Initialise(tree, targets, version, ls);
    rc := if map_ == null then Inval else Ok;
  }

  lemma BufferCounts(cs: seq<Comp>, ls: Layers, ts: seq<Comp>)
    requires Represents(cs, ls, ts)
    ensures (Domains(cs) >= 1 <==> |ls| >= 2) && Domains(cs) + |ts| == |cs| && |ts| >= 1
  {
    RepresentsHolds(cs, ls, ts);
    HoldsTarget(ls, ts, cs, Domains(cs));
  }

  /** Every index of a tree is in some layer. */
  lemma {:induction false} LayerOf(ls: Layers, i: nat) returns (l: nat, j: nat)
    requires i < Off(ls, |ls|)
    ensures l < |ls| && j < |ls[l]| && i == Off(ls, l) + j
    decreases |ls|
  {
    var n := |ls| - 1;
    if i >= Off(ls, n) {
      l, j := n, i - Off(ls, n);
    } else {
      OffPrefix(ls, n, n);
      l, j := LayerOf(ls[..n], i);
      OffPrefix(ls, l, n);
    }
  }

  /** Component `k` of a buffer is of a layer, or a target if `l` is behind all layers. */
  ghost predicate At(cs: seq<Comp>, ls: Layers, ts: seq<Comp>, k: nat, l: nat, j: nat) {
    && k < |cs| && 1 <= l <= |ls| && k + 1 == Off(ls, l) + j
    && if l == |ls| then j < |ts| && cs[k] == ts[j] else j < |ls[l]| && cs[k] == ls[l][j]
  }

  lemma Sizes(cs: seq<Comp>, ls: Layers, ts: seq<Comp>)
    requires Represents(cs, ls, ts)
    ensures |ls| >= 1 && Off(ls, 1) == 1 && Domains(cs) + 1 == Off(ls, |ls|)
    ensures Domains(cs) + |ts| == |cs| && cs[Domains(cs)..] == ts
  {
    hide Layered, Upto, Flat, Domains;
    RepresentsHolds(cs, ls, ts);
    HoldsTarget(ls, ts, cs, Domains(cs));
    RootOne(ls, ts);
  }

  lemma LayerPlace(cs: seq<Comp>, ls: Layers, ts: seq<Comp>, l: nat, j: nat)
    requires Represents(cs, ls, ts) && 1 <= l < |ls| && j < |ls[l]|
    ensures 1 <= Off(ls, l) + j <= |cs| && At(cs, ls, ts, Off(ls, l) + j - 1, l, j)
  {
    hide Layered, Upto, Flat, Domains, Off;
    Sizes(cs, ls, ts);
    RepresentsHolds(cs, ls, ts);
    OffLess(ls, 1, l);
    HoldsAt(ls, ts, cs, Domains(cs), l, j);
  }

  lemma TargetPlace(cs: seq<Comp>, ls: Layers, ts: seq<Comp>, j: nat)
    requires Represents(cs, ls, ts) && j < |ts|
    ensures At(cs, ls, ts, Domains(cs) + j, |ls|, j)
  {
    hide Represents, Off, Domains;
    Sizes(cs, ls, ts);
    assert cs[Domains(cs)..][j] == cs[Domains(cs) + j];
  }

  lemma PlaceOf(cs: seq<Comp>, ls: Layers, ts: seq<Comp>, k: nat) returns (l: nat, j: nat)
    requires Represents(cs, ls, ts) && k < |cs|
    ensures At(cs, ls, ts, k, l, j)
  {
    hide Represents, Domains, At;
    Sizes(cs, ls, ts);
    if k < Domains(cs) {
      l, j := LayerOf(ls, k + 1);
      LayerPlace(cs, ls, ts, l, j);
    } else {
      l, j := |ls|, k - Domains(cs);
      TargetPlace(cs, ls, ts, j);
    }
  }

  lemma PlaceAt(cs: seq<Comp>, ls: Layers, ts: seq<Comp>, l: nat, j: nat) returns (k: nat)
    requires Represents(cs, ls, ts) && 1 <= l <= |ls| && j < if l == |ls| then |ts| else |ls[l]|
    ensures At(cs, ls, ts, k, l, j)
  {
    hide Represents, Domains, At, Off;
    if l < |ls| {
      LayerPlace(cs, ls, ts, l, j);
      k := Off(ls, l) + j - 1;
    } else {
      TargetPlace(cs, ls, ts, j);
      k := Domains(cs) + j;
    }
  }

  /** Components of one type are in one place: a layer, or the targets. */
  lemma TypePlace(cs: seq<Comp>, ls: Layers, ts: seq<Comp>, k: nat, l: nat, j: nat)
    requires Layered(ls, ts) && At(cs, ls, ts, k, l, j)
    ensures if l == |ls| then cs[k].ty == TARGET else cs[k].ty == Type(ls, l) < TARGET
  {
    if l < |ls| {
      TypeIs(ls, ts, l);
      TypesBelow(ls, ts, l);
    }
  }

  lemma SamePlace(cs: seq<Comp>, ls: Layers, ts: seq<Comp>, i: nat, l: nat, a: nat, k: nat, m: nat, b: nat)
    requires Layered(ls, ts) && At(cs, ls, ts, i, l, a) && At(cs, ls, ts, k, m, b) && cs[i].ty == cs[k].ty
    ensures l == m
  {
    hide Layered, At;
    TypePlace(cs, ls, ts, i, l, a);
    TypePlace(cs, ls, ts, k, m, b);
    AtRange(cs, ls, ts, i, l, a);
    AtRange(cs, ls, ts, k, m, b);
    if l < |ls| && m < |ls| { OneLayer(ls, ts, l); }
  }

  lemma AtRange(cs: seq<Comp>, ls: Layers, ts: seq<Comp>, k: nat, l: nat, j: nat)
    requires At(cs, ls, ts, k, l, j)
    ensures k < |cs| && 1 <= l <= |ls|
  {
  }

  /** No component is newer than `version`. */
  lemma VersionsAre(cs: seq<Comp>, ls: Layers, ts: seq<Comp>, version: nat)
    requires Represents(cs, ls, ts)
    ensures AllVersions(ls, |ls|, version) && Versions(ts, version) <==>
              forall k :: 0 <= k < |cs| ==> cs[k].ver <= version
  {
    hide Represents;
    if AllVersions(ls, |ls|, version) && Versions(ts, version) {
      forall k | 0 <= k < |cs| ensures cs[k].ver <= version {
        var l, j := PlaceOf(cs, ls, ts, k);
        if l < |ls| { assert Versions(ls[l], version); }
      }
    }
    if forall k :: 0 <= k < |cs| ==> cs[k].ver <= version {
      forall l | 0 <= l < |ls| ensures Versions(ls[l], version) {
        if l == 0 { RootVersion(cs, ls, ts); }
        else { forall j | 0 <= j < |ls[l]| ensures ls[l][j].ver <= version { var k := PlaceAt(cs, ls, ts, l, j); } }
      }
      RootVersion(cs, ls, ts);
      forall j | 0 <= j < |ts| ensures ts[j].ver <= version { var k := PlaceAt(cs, ls, ts, |ls|, j); }
    }
  }

  lemma RootVersion(cs: seq<Comp>, ls: Layers, ts: seq<Comp>)
    requires Represents(cs, ls, ts)
    ensures |ls| >= 1 && |ls[0]| == 1 && ls[0][0].ver == 0
  {
  }

  /** No two components of a type have one id. */
  lemma UniquesAre(cs: seq<Comp>, ls: Layers, ts: seq<Comp>)
    requires Represents(cs, ls, ts)
    ensures AllUnique(ls, |ls|) && UniqueIds(ts) <==>
              forall i, k :: 0 <= i < k < |cs| && cs[i].ty == cs[k].ty ==> cs[i].id != cs[k].id
  {
    hide Layered;
    assert Layered(ls, ts);
    hide Represents;
    if AllUnique(ls, |ls|) && UniqueIds(ts) {
      forall i, k | 0 <= i < k < |cs| && cs[i].ty == cs[k].ty ensures cs[i].id != cs[k].id {
        var l, a := PlaceOf(cs, ls, ts, i);
        var m, b := PlaceOf(cs, ls, ts, k);
        SamePlace(cs, ls, ts, i, l, a, k, m, b);
        if l < |ls| { assert UniqueIds(ls[l]); }
      }
    }
    if forall i, k :: 0 <= i < k < |cs| && cs[i].ty == cs[k].ty ==> cs[i].id != cs[k].id {
      RootVersion(cs, ls, ts);
      forall l | 0 <= l < |ls| ensures UniqueIds(ls[l]) {
        if l > 0 { UniqueLayer(cs, ls, ts, l, ls[l]); }
      }
      UniqueLayer(cs, ls, ts, |ls|, ts);
    }
  }

  lemma UniqueLayer(cs: seq<Comp>, ls: Layers, ts: seq<Comp>, l: nat, layer: seq<Comp>)
    requires Represents(cs, ls, ts) && 1 <= l <= |ls| && layer == if l == |ls| then ts else ls[l]
    requires forall i, k :: 0 <= i < k < |cs| && cs[i].ty == cs[k].ty ==> cs[i].id != cs[k].id
    ensures UniqueIds(layer)
  {
    hide Layered;
    assert Layered(ls, ts);
    hide Represents;
    forall a, b | 0 <= a < b < |layer| ensures layer[a].id != layer[b].id {
      var i := PlaceAt(cs, ls, ts, l, a);
      var k := PlaceAt(cs, ls, ts, l, b);
      TypePlace(cs, ls, ts, i, l, a);
      TypePlace(cs, ls, ts, k, l, b);
      assert cs[i].ty == cs[k].ty;
    }
  }

  /** Components are as they were, but that new ones are up. */
  lemma UpIs(was: seq<Comp>)
    ensures var now := UpAll(was);
            && |now| == |was| && (forall k :: 0 <= k < |was| ==> now[k] == was[k].(status := now[k].status))
            && (forall k :: 0 <= k < |was| && was[k].status == ST_NEW ==> now[k].status == ST_UP)
            && (forall k :: 0 <= k < |was| && was[k].status != ST_NEW ==> now[k].status == was[k].status)
  {
  }

  method CreateExtract(buf: PoolBuf, version: nat, ghost ls: Layers, ghost ts: seq<Comp>)
    returns (rc: Rc, out: PoolBuf?, read: Word)
    requires buf.Valid() && Represents(buf.Filled(), ls, ts)
    ensures rc == Ok <==>
              && |buf.Filled()| == buf.nr && AllVersions(ls, |ls|, version) && Versions(ts, version)
              && AllUnique(ls, |ls|) && UniqueIds(ts)
    ensures out != null <==> rc == Ok && buf.domainNr > 0
    ensures out != null ==> out.Valid() && out.nr == buf.nr && out.Filled() == UpAll(buf.Filled())
    ensures rc == Ok && buf.domainNr == 0 ==> read == if |ts| > 1 then OfTarget(Up(ts[1]), RANK) else Outside
  {
    hide Layered, IsTree, AllVersions, AllUnique, UniqueIds, Upto;
    out, read := null, Outside;
    var map_;
    rc, map_ := Create(buf, version, ls, ts);
    if rc != Ok {
      return;
    }
    BufferCounts(buf.Filled(), ls, ts);
    out, read := Extract(map_.tree, map_.targets, map_.ls);
    RootOne(ls, ts);
    UptoUp(ls, ts);
  }

  /** Creating a map and extracting it again gives back the buffer, with new components brought
      up, exactly if it has domains.  Without any, what is read for the first domain is of a
      target or outside the map. */
  method RoundTrip(buf: PoolBuf, version: nat, ghost ls: Layers, ghost ts: seq<Comp>)
    returns (rc: Rc, out: PoolBuf?, read: Word)
    requires buf.Valid() && Represents(buf.Filled(), ls, ts)
    ensures var cs := buf.Filled();
            rc == Ok <==>
              && |cs| == buf.nr && (forall k :: 0 <= k < |cs| ==> cs[k].ver <= version)
              && (forall i, k :: 0 <= i < k < |cs| && cs[i].ty == cs[k].ty ==> cs[i].id != cs[k].id)
    ensures out != null <==> rc == Ok && buf.domainNr > 0
    ensures out != null ==>
              var was, now := buf.Filled(), out.Filled();
              && out.Valid() && out.nr == buf.nr && |now| == |was|
              && (forall k :: 0 <= k < |was| ==> now[k] == was[k].(status := now[k].status))
              && (forall k :: 0 <= k < |was| && was[k].status == ST_NEW ==> now[k].status == ST_UP)
              && (forall k :: 0 <= k < |was| && was[k].status != ST_NEW ==> now[k].status == was[k].status)
    ensures rc == Ok && buf.domainNr == 0 && |ts| == 1 ==> read == Outside
    ensures rc == Ok && buf.domainNr == 0 && |ts| > 1 ==>
              read.OfTarget? && read.comp.rank == ts[1].rank && read.nth == 2
  {
    hide *;
    VersionsAre(buf.Filled(), ls, ts, version);
    UniquesAre(buf.Filled(), ls, ts);
    UpIs(buf.Filled());
    NonemptyTargets(buf.Filled(), ls, ts);
    rc, out, read := CreateExtract(buf, version, ls, ts);
  }

  lemma NonemptyTargets(cs: seq<Comp>, ls: Layers, ts: seq<Comp>)
    requires Represents(cs, ls, ts)
    ensures |ts| >= 1 && (|ts| > 1 ==> Up(ts[1]).rank == ts[1].rank) && RANK == 2
  {
    hide Represents;
    BufferCounts(cs, ls, ts);
  }

  /** A buffer of one target and no domain is accepted, and cannot be extracted. */
  lemma NoDomainFails(t: Comp, version: nat)
    requires t.ty == TARGET && t.ver <= version
    ensures var ls := [[Comp(ROOT, ST_UP, 0, 0, 0, 0, 1)]];
            && Represents([t], ls, [t]) && AllVersions(ls, |ls|, version) && Versions([t], version)
            && AllUnique(ls, |ls|) && UniqueIds([t])
            && IsTree(ls, [t], [Dom(Comp(ROOT, ST_UP, 0, 0, 0, 0, 0), 1, NULL, 0)])
            && WordAt([Dom(Comp(ROOT, ST_UP, 0, 0, 0, 0, 0), 1, NULL, 0)], [t], DOM_WORDS + CHILDREN) == Outside
  {
    var root := Comp(ROOT, ST_UP, 0, 0, 0, 0, 1);
    var ls := [[root]];
    SumMore(Nrs([root]), 0);
    assert Before([root], 1) == 1;
    assert ls[1..1] == [];
    assert Upto(ls, 1) + [t] == [t];
    RootOnly(ls, [t]);
  }

  lemma UptoUp(ls: Layers, ts: seq<Comp>)
    requires |ls| >= 1
    ensures Upto(UpLayers(ls, |ls|), |ls|) + UpAll(ts) == UpAll(Upto(ls, |ls|) + ts)
  {
    var a := UpLayers(ls, |ls|);
    var n := |ls| - 1;
    FlatUp(ls[1..]);
    assert a[1..|ls|] == UpLayers(ls[1..], |ls[1..]|);
    assert ls[1..|ls|] == ls[1..];
    assert UpAll(Upto(ls, |ls|) + ts) == UpAll(Upto(ls, |ls|)) + UpAll(ts);
  }

  /** The targets of a domain are the targets of its children, one after the other. */
  lemma TargetsOfChildren(ls: Layers, targets: seq<Comp>, tree: seq<Dom>, l: nat, j: nat)
    requires Layered(ls, targets) && IsTree(ls, targets, tree) && l + 1 < |ls| && j < |ls[l]|
    ensures Off(ls, l) + j < |tree|
    ensures var d := tree[Off(ls, l) + j]; var first, end := d.children, d.children + d.comp.nr;
            && Off(ls, l + 1) <= first < end <= Off(ls, l + 2) <= |tree|
            && tree[first].targets == d.targets
            && (forall k :: first <= k < end - 1 ==> tree[k].targets + tree[k].targetNr == tree[k + 1].targets)
            && tree[end - 1].targets + tree[end - 1].targetNr == d.targets + d.targetNr
  {
    hide Layered, IsTree, Off, Sum, Counts, Before;
    LayerSizes(ls, targets, l);
    LayerSizes(ls, targets, l + 1);
    TreeAt(ls, targets, tree, l, j);
    ChildTargets(ls, targets, l, j);
    var b, nr := Before(ls[l], j), ls[l][j].nr;
    var base, cs := Off(ls, l + 1), Counts(ls, targets, l + 1);
    forall k | base + b <= k < base + b + nr
      ensures tree[k] == Expected(ls, targets, l + 1, k - base) { TreeAt(ls, targets, tree, l + 1, k - base); }
    forall k | base + b <= k < base + b + nr - 1 ensures tree[k].targets + tree[k].targetNr == tree[k + 1].targets {
      Neighbours(ls, targets, l + 1, k - base + 1);
    }
    SumMore(cs, b + nr - 1);
    SumLess(cs, b, b + nr);
  }
}
