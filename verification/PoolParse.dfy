/** From a flat buffer of components to a tree of domains and targets. */
module PoolParse {
  import opened Sequences
  import opened PoolLayers

  ghost function DomNrs(tree: seq<Dom>): (s: seq<nat>)
    ensures |s| == |tree|
  {
    seq(|tree|, k requires 0 <= k < |tree| => tree[k].comp.nr)
  }

  /** Domains `p` up to `i` get their children one after the other, from `i` on. */
  method LinkChildren(tree: seq<Dom>, p: nat, i: nat) returns (t: seq<Dom>)
    requires p <= i <= |tree|
    ensures |t| == |tree| && t[..p] == tree[..p] && t[i..] == tree[i..]
    ensures RangeLinked(tree, t, p, i, false)
  {
    t := tree;
    var nr := 0;
    for parent := p to i
      invariant |t| == |tree| && t[..p] == tree[..p] && t[parent..] == tree[parent..] &&
                nr == Sum(DomNrs(tree[p..i])[..parent - p])
      invariant forall k :: p <= k < parent ==> t[k] == tree[k].(children := i + Sum(DomNrs(tree[p..i])[..k - p]))
    {
      SumMore(DomNrs(tree[p..i]), parent - p);
      assert t[parent] == t[parent..][0] == tree[parent];
      t := t[parent := t[parent].(children := i + nr)];
      nr := nr + t[parent].comp.nr;
    }
  }

  /** Domains `p` up to `i` get their targets one after the other. */
  method LinkTargets(tree: seq<Dom>, p: nat, i: nat) returns (t: seq<Dom>)
    requires p <= i <= |tree|
    ensures |t| == |tree| && t[..p] == tree[..p] && t[i..] == tree[i..]
    ensures RangeLinked(tree, t, p, i, true)
  {
    t := tree;
    var at := 0;
    for parent := p to i
      invariant |t| == |tree| && t[..p] == tree[..p] && t[parent..] == tree[parent..] &&
                at == Sum(DomNrs(tree[p..i])[..parent - p])
      invariant forall k :: p <= k < parent ==>
                  t[k] == tree[k].(comp := tree[k].comp.(nr := 0), targetNr := tree[k].comp.nr,
                    targets := Sum(DomNrs(tree[p..i])[..k - p]))
    {
      SumMore(DomNrs(tree[p..i]), parent - p);
      assert t[parent] == t[parent..][0] == tree[parent];
      var d := t[parent];
      t := t[parent := d.(comp := d.comp.(nr := 0), targetNr := d.comp.nr, targets := at)];
      at := at + d.comp.nr;
    }
  }

  // ---------------------------------------------------------------------------
  // First pass: components, children, and the targets of the last layer
  // ---------------------------------------------------------------------------

  /** Domain `j` of layer `l` when its layer is linked, and before the targets of the upper
      layers are counted. */
  ghost function LinkedDom(ls: Layers, targets: seq<Comp>, l: nat, j: nat): Dom
    requires Layered(ls, targets) && l < |ls| && j < |ls[l]|
  {
    if l == |ls| - 1 then Dom(ls[l][j].(nr := 0), ls[l][j].nr, NULL, Before(ls[l], j))
    else Dom(ls[l][j], 0, Off(ls, l + 1) + Before(ls[l], j), NULL)
  }

  ghost predicate LayerLinked(ls: Layers, targets: seq<Comp>, tree: seq<Dom>, l: nat)
    requires Layered(ls, targets) && l < |ls|
  {
    Off(ls, l) + |ls[l]| <= |tree| && forall j {:trigger ls[l][j]} :: 0 <= j < |ls[l]| ==>
      tree[Off(ls, l) + j] == LinkedDom(ls, targets, l, j)
  }

  /** The first `n` domains of layer `l` hold their components only. */
  ghost predicate LayerRaw(ls: Layers, tree: seq<Dom>, l: nat, n: nat)
    requires l < |ls|
  {
    && n <= |ls[l]| && Off(ls, l) + n <= |tree|
    && forall j {:trigger ls[l][j]} :: 0 <= j < n ==> tree[Off(ls, l) + j] == Dom(ls[l][j], 0, NULL, NULL)
  }

  /** The buffer holds the domains, without the root, and then the targets. */
  ghost predicate Holds(ls: Layers, targets: seq<Comp>, comps: seq<Comp>, domainNr: nat)
    requires Layered(ls, targets)
  {
    && domainNr + 1 == Off(ls, |ls|)
    && [ls[0][0]] + comps == Flat(ls) + targets
  }

  lemma HoldsAt(ls: Layers, targets: seq<Comp>, comps: seq<Comp>, domainNr: nat, l: nat, j: nat)
    requires Layered(ls, targets) && Holds(ls, targets, comps, domainNr) && l < |ls| && j < |ls[l]| &&
             Off(ls, l) + j >= 1
    ensures Off(ls, l) + j <= domainNr <= |comps| && comps[Off(ls, l) + j - 1] == ls[l][j]
  {
    FlatAt(ls, l, j);
    FlatLen(ls);
    var i := Off(ls, l) + j;
    assert ([ls[0][0]] + comps)[i] == (Flat(ls) + targets)[i];
    assert |[ls[0][0]] + comps| == |Flat(ls) + targets|;
  }

  lemma HoldsTarget(ls: Layers, targets: seq<Comp>, comps: seq<Comp>, domainNr: nat)
    requires Layered(ls, targets) && Holds(ls, targets, comps, domainNr)
    ensures |comps| == domainNr + |targets| && |targets| >= 1 && comps[domainNr] == targets[0] &&
            comps[domainNr..] == targets
  {
    FlatLen(ls);
    assert |[ls[0][0]] + comps| == |Flat(ls) + targets|;
    CountsAll(ls, targets, 0);
    CountsPositive(ls, targets, 0);
    assert ls[0] != [];
    SumPositive(Counts(ls, targets, 0));
    assert comps[domainNr..] == ([ls[0][0]] + comps)[domainNr + 1..] == (Flat(ls) + targets)[domainNr + 1..] == targets;
    assert comps[domainNr] == comps[domainNr..][0];
  }

  lemma SumPositive(s: seq<nat>)
    requires s != [] && forall k :: 0 <= k < |s| ==> s[k] >= 1
    ensures Sum(s) >= 1
  {
  }

  /** A layer of bare components has the counts of its components. */
  lemma SameNrs(s: seq<Dom>, layer: seq<Comp>)
    requires |s| == |layer| && forall j :: 0 <= j < |s| ==> s[j].comp == layer[j]
    ensures DomNrs(s) == Nrs(layer)
  {
  }

  lemma RawNrs(ls: Layers, tree: seq<Dom>, l: nat)
    requires l < |ls| && LayerRaw(ls, tree, l, |ls[l]|)
    ensures DomNrs(tree[Off(ls, l)..Off(ls, l) + |ls[l]|]) == Nrs(ls[l])
  {
    hide Off, DomNrs, Nrs;
    var s := tree[Off(ls, l)..Off(ls, l) + |ls[l]|];
    forall j | 0 <= j < |s| ensures s[j].comp == ls[l][j] { assert s[j] == tree[Off(ls, l) + j]; }
    SameNrs(s, ls[l]);
  }

  ghost predicate RangeLinked(tree: seq<Dom>, t: seq<Dom>, p: nat, i: nat, last: bool)
    requires p <= i <= |tree| == |t|
  {
    forall k :: p <= k < i ==>
      t[k] == if last then tree[k].(comp := tree[k].comp.(nr := 0), targetNr := tree[k].comp.nr,
        targets := Sum(DomNrs(tree[p..i])[..k - p]))
              else tree[k].(children := i + Sum(DomNrs(tree[p..i])[..k - p]))
  }

  /** Linking a layer of bare components. */
  lemma LayerDone(ls: Layers, targets: seq<Comp>, tree: seq<Dom>, t: seq<Dom>, l: nat)
    requires Layered(ls, targets) && l < |ls| && LayerRaw(ls, tree, l, |ls[l]|) && |t| == |tree|
    requires RangeLinked(tree, t, Off(ls, l), Off(ls, l) + |ls[l]|, l == |ls| - 1)
    ensures LayerLinked(ls, targets, t, l)
  {
    hide Layered, LinkedDom, RangeLinked;
    forall j | 0 <= j < |ls[l]| ensures t[Off(ls, l) + j] == LinkedDom(ls, targets, l, j) {
      DoneAt(ls, targets, tree, t, l, j);
    }
  }

  lemma DoneAt(ls: Layers, targets: seq<Comp>, tree: seq<Dom>, t: seq<Dom>, l: nat, j: nat)
    requires Layered(ls, targets) && l < |ls| && LayerRaw(ls, tree, l, |ls[l]|) && |t| == |tree| && j < |ls[l]|
    requires RangeLinked(tree, t, Off(ls, l), Off(ls, l) + |ls[l]|, l == |ls| - 1)
    ensures t[Off(ls, l) + j] == LinkedDom(ls, targets, l, j)
  {
    hide Layered, Sum, DomNrs, Nrs;
    RawNrs(ls, tree, l);
    assert tree[Off(ls, l) + j] == Dom(ls[l][j], 0, NULL, NULL);
    hide LayerRaw;
    var k := Off(ls, l) + j;
    assert k - Off(ls, l) == j;
  }

  /** What the buffer holds at position `i` of the tree, `i` being in or just behind layer `l`. */
  lemma NextComp(ls: Layers, targets: seq<Comp>, comps: seq<Comp>, domainNr: nat, l: nat, i: nat)
    requires Layered(ls, targets) && Holds(ls, targets, comps, domainNr) && 1 <= l < |ls| &&
             Off(ls, l) <= i <= Off(ls, l + 1)
    ensures 1 <= i <= domainNr + 1 && i <= |comps| && comps[i - 1].ty <= TARGET
    ensures i < Off(ls, l + 1) ==>
              i <= domainNr && comps[i - 1] == ls[l][i - Off(ls, l)] && comps[i - 1].ty == ls[l][0].ty
    ensures i == Off(ls, l + 1) && l + 1 < |ls| ==>
              i <= domainNr && comps[i - 1] == ls[l + 1][0] && ls[l][0].ty < comps[i - 1].ty < TARGET
    ensures i == Off(ls, l + 1) && l + 1 == |ls| ==> i == domainNr + 1 && comps[i - 1].ty == TARGET > ls[l][0].ty
  {
    OffLess(ls, 1, l);
    OffLess(ls, l + 1, |ls|);
    HoldsTarget(ls, targets, comps, domainNr);
    TypesBelow(ls, targets, l);
    if i < Off(ls, l + 1) {
      HoldsAt(ls, targets, comps, domainNr, l, i - Off(ls, l));
    } else if l + 1 < |ls| {
      TypesBelow(ls, targets, l + 1);
      HoldsAt(ls, targets, comps, domainNr, l + 1, 0);
    }
  }

  lemma {:induction false} TypesBelow(ls: Layers, targets: seq<Comp>, l: nat)
    requires Layered(ls, targets) && l < |ls|
    ensures ls[l][0].ty < TARGET
    decreases |ls| - l
  {
    if l < |ls| - 1 { TypesBelow(ls, targets, l + 1); }
  }

  ghost predicate Blanks(tree: seq<Dom>, i: nat) {
    forall k :: i <= k < |tree| ==> tree[k] == Dom(Blank, 0, NULL, NULL)
  }

  /** The first `i` places of the tree are filled in, up to somewhere in layer `l`, and all
      layers above that one are linked. */
  ghost predicate Parsing(ls: Layers, targets: seq<Comp>, tree: seq<Dom>, parent: nat, l: nat, i: nat)
    requires Layered(ls, targets)
  {
    && 1 <= l < |ls| && Off(ls, l) <= i <= Off(ls, l + 1) && |tree| == Off(ls, |ls|)
    && (if l == 1 then parent == 0 && tree[0] == Dom(ls[0][0].(nr := 0), 0, 1, NULL)
        else parent == Off(ls, l) && LayerLinked(ls, targets, tree, 0))
    && (forall m :: 1 <= m < l ==> LayerLinked(ls, targets, tree, m))
    && LayerRaw(ls, tree, l, i - Off(ls, l))
    && Blanks(tree, i)
  }

  lemma ParsingSame(ls: Layers, targets: seq<Comp>, tree: seq<Dom>, parent: nat, l: nat, i: nat)
    requires Layered(ls, targets) && Parsing(ls, targets, tree, parent, l, i) && i < Off(ls, l + 1)
    ensures i < |tree| && Parsing(ls, targets, tree[i := tree[i].(comp := ls[l][i - Off(ls, l)])], parent, l, i + 1)
  {
    hide LinkedDom, Layered, LayerLinked;
    OffLess(ls, l + 1, |ls|);
    var t := tree[i := tree[i].(comp := ls[l][i - Off(ls, l)])];
    forall m | (m == 0 && l > 1) || 1 <= m < l
      ensures LayerLinked(ls, targets, t, m) { OffLess(ls, m, l); LinkedElsewhere(ls, targets, tree, t, m, i); }
    OffLess(ls, 1, l);
    assert tree[i] == Dom(Blank, 0, NULL, NULL);
  }

  lemma LinkedElsewhere(ls: Layers, targets: seq<Comp>, tree: seq<Dom>, t: seq<Dom>, m: nat, i: nat)
    requires Layered(ls, targets) && m < |ls| && LayerLinked(ls, targets, tree, m) &&
             Off(ls, m) + |ls[m]| <= i <= |t| == |tree| && t[..i] == tree[..i]
    ensures LayerLinked(ls, targets, t, m)
  {
    hide Layered, LinkedDom, Off;
    forall j | 0 <= j < |ls[m]| ensures t[Off(ls, m) + j] == LinkedDom(ls, targets, m, j) {
      assert t[..i][Off(ls, m) + j] == tree[..i][Off(ls, m) + j];
      assert ls[m][j] == ls[m][j];
    }
  }

  ghost predicate AllLinked(ls: Layers, targets: seq<Comp>, tree: seq<Dom>, l: nat)
    requires Layered(ls, targets) && l <= |ls|
  {
    forall m :: 0 <= m < l ==> LayerLinked(ls, targets, tree, m)
  }

  /** Layer `l` is complete; `tree` already has the first component behind it, if that is a
      domain. */
  ghost predicate Ready(ls: Layers, targets: seq<Comp>, tree: seq<Dom>, l: nat)
    requires Layered(ls, targets)
  {
    && 1 <= l < |ls| && |tree| == Off(ls, |ls|)
    && AllLinked(ls, targets, tree, l) && LayerRaw(ls, tree, l, |ls[l]|)
    && (l + 1 < |ls| ==> LayerRaw(ls, tree, l + 1, 1) && Blanks(tree, Off(ls, l + 1) + 1))
  }

  /** The root learns how many domains the first layer has. */
  lemma RootReady(ls: Layers, targets: seq<Comp>, tree: seq<Dom>, t: seq<Dom>, parent: nat, l: nat)
    requires Layered(ls, targets) && l < |ls| && Parsing(ls, targets, tree, parent, l, Off(ls, l + 1)) &&
             |t| == |tree| >= 1
    requires l + 1 < |ls| ==> ls[l + 1] != []
    requires var i := Off(ls, l + 1);
             var t1 := if l + 1 < |ls| && i < |tree| then tree[i := tree[i].(comp := ls[l + 1][0])] else tree;
             t == if parent == 0 then t1[0 := t1[0].(comp := t1[0].comp.(nr := i - 1))] else t1
    ensures Ready(ls, targets, t, l) && (parent == 0 <==> l == 1)
  {
    hide LinkedDom, LayerLinked, LayerRaw, Layered;
    OffLess(ls, 1, l);
    OffLess(ls, l + 1, |ls|);
    RootAlone(ls, targets);
    forall m | 1 <= m < l ensures LayerLinked(ls, targets, t, m) {
      OffLess(ls, 1, m);
      OffLess(ls, m, l);
      LinkedBetween(ls, targets, tree, t, m);
    }
    if l > 1 { LinkedElsewhere(ls, targets, tree, t, 0, 1); }
    RawKept(ls, tree, t, l);
    if l + 1 < |ls| {
      OffLess(ls, l + 2, |ls|);
      TypeIs(ls, targets, l + 1);
      RawFirst(ls, t, l + 1);
    }
    RootLinked(ls, targets, t, l);
  }

  lemma RawKept(ls: Layers, tree: seq<Dom>, t: seq<Dom>, l: nat)
    requires l < |ls| && LayerRaw(ls, tree, l, |ls[l]|) && |t| == |tree|
    requires forall k :: Off(ls, l) <= k < Off(ls, l) + |ls[l]| ==> t[k] == tree[k]
    ensures LayerRaw(ls, t, l, |ls[l]|)
  {
    hide Off;
  }

  lemma RawFirst(ls: Layers, t: seq<Dom>, l: nat)
    requires l < |ls| && ls[l] != [] && Off(ls, l) < |t| && t[Off(ls, l)] == Dom(ls[l][0], 0, NULL, NULL)
    ensures LayerRaw(ls, t, l, 1)
  {
    hide Off;
  }

  lemma RootAlone(ls: Layers, targets: seq<Comp>)
    requires Layered(ls, targets) && |ls| >= 2
    ensures Off(ls, 1) == 1 && Off(ls, 2) == 1 + |ls[1]| && |ls[0]| == 1 && ls[0][0].nr == |ls[1]|
  {
    assert Off(ls, 0) == 0;
    SumMore(Nrs(ls[0]), 0);
  }

  lemma RootLinked(ls: Layers, targets: seq<Comp>, t: seq<Dom>, l: nat)
    requires Layered(ls, targets) && |ls| >= 2 && |t| >= 1
    ensures t[0] == Dom(ls[0][0], 0, 1, NULL) ==> LayerLinked(ls, targets, t, 0)
  {
    RootAlone(ls, targets);
  }

  lemma LinkedBetween(ls: Layers, targets: seq<Comp>, tree: seq<Dom>, t: seq<Dom>, m: nat)
    requires Layered(ls, targets) && m < |ls| && LayerLinked(ls, targets, tree, m) && |t| == |tree|
    requires forall k :: Off(ls, m) <= k < Off(ls, m) + |ls[m]| ==> t[k] == tree[k]
    ensures LayerLinked(ls, targets, t, m)
  {
    hide Layered, LinkedDom, Off;
    forall j | 0 <= j < |ls[m]| ensures t[Off(ls, m) + j] == LinkedDom(ls, targets, m, j) {
      assert ls[m][j] == ls[m][j];
    }
  }

  /** Linking layer `l` moves on to the next one, or ends the pass. */
  lemma LayerNext(ls: Layers, targets: seq<Comp>, tree: seq<Dom>, t: seq<Dom>, l: nat)
    requires Layered(ls, targets) && Ready(ls, targets, tree, l) && |t| == |tree| &&
             Off(ls, l) <= Off(ls, l + 1) <= |tree|
    requires var p, i := Off(ls, l), Off(ls, l + 1);
             t[..p] == tree[..p] && t[i..] == tree[i..] && RangeLinked(tree, t, p, i, l == |ls| - 1)
    ensures l + 1 < |ls| ==> Parsing(ls, targets, t, Off(ls, l + 1), l + 1, Off(ls, l + 1) + 1)
    ensures l + 1 == |ls| ==> AllLinked(ls, targets, t, |ls|)
  {
    hide LinkedDom, RangeLinked;
    LayerDone(ls, targets, tree, t, l);
    forall m | 0 <= m < l ensures LayerLinked(ls, targets, t, m) {
      OffLess(ls, m, l);
      LinkedElsewhere(ls, targets, tree, t, m, Off(ls, l));
    }
    if l + 1 < |ls| {
      var i := Off(ls, l + 1);
      OffLess(ls, l + 2, |ls|);
      assert ls[l + 1] != [];
      assert i < |t| && t[i..][0] == t[i] && tree[i..][0] == tree[i];
      forall k | i <= k < |t| ensures t[k] == tree[k] { assert t[i..][k - i] == t[k] && tree[i..][k - i] == tree[k]; }
    }
  }

  ghost function Type(ls: Layers, l: nat): nat {
    if l < |ls| && ls[l] != [] then ls[l][0].ty else 0
  }

  lemma TypeIs(ls: Layers, targets: seq<Comp>, l: nat)
    requires Layered(ls, targets) && l < |ls|
    ensures ls[l] != [] && Type(ls, l) == ls[l][0].ty
  {
  }

  lemma ParsingStart(ls: Layers, targets: seq<Comp>, comps: seq<Comp>, domainNr: nat, tree: seq<Dom>)
    requires Layered(ls, targets) && |ls| >= 2 && Holds(ls, targets, comps, domainNr) && |tree| == domainNr + 1
    requires tree[0] == Dom(Comp(ROOT, ST_UP, 0, 0, 0, 0, 0), 0, 1, NULL) && forall k :: 1 <= k < |tree| ==>
             tree[k] == Dom(Blank, 0, NULL, NULL)
    ensures comps != [] && comps[0].ty == Type(ls, 1) && Off(ls, 1) == 1 <= Off(ls, 2)
    ensures Off(ls, |ls|) == domainNr + 1 && Parsing(ls, targets, tree, 0, 1, 1)
  {
    RootAlone(ls, targets);
    NextComp(ls, targets, comps, domainNr, 1, 1);
  }

  lemma LayerEnds(ls: Layers, l: nat)
    requires l < |ls|
    ensures Off(ls, l) <= Off(ls, l + 1) <= Off(ls, |ls|)
  {
    OffLess(ls, l, l + 1);
    OffLess(ls, l + 1, |ls|);
  }

  lemma ParsingIn(ls: Layers, targets: seq<Comp>, tree: seq<Dom>, parent: nat, l: nat, i: nat)
    requires Layered(ls, targets) && Parsing(ls, targets, tree, parent, l, i)
    ensures 1 <= l < |ls| && Off(ls, l) <= i <= Off(ls, l + 1)
  {
  }

  lemma ParentAt(ls: Layers, targets: seq<Comp>, tree: seq<Dom>, parent: nat, l: nat, i: nat)
    requires Layered(ls, targets) && Parsing(ls, targets, tree, parent, l, i)
    ensures (if parent == 0 then 1 else parent) == Off(ls, l)
  {
    RootAlone(ls, targets);
    OffLess(ls, 1, l);
  }

  /** Fill the tree from the buffer and link it, but for the targets of the upper layers. */
  method LinkLayers(comps: seq<Comp>, domainNr: nat, ghost ls: Layers, ghost targets: seq<Comp>)
      returns (ok: bool, tree: seq<Dom>)
    requires Layered(ls, targets) && |ls| >= 2 && Holds(ls, targets, comps, domainNr)
    ensures ok && |tree| == Off(ls, |ls|) && AllLinked(ls, targets, tree, |ls|)
  {
    hide Layered, Off, LayerLinked, LayerRaw, Blanks, RangeLinked, AllLinked, Ready, Parsing, Holds;
    ok := true;
    tree := seq(domainNr + 1, _ => Dom(Blank, 0, NULL, NULL));
    tree := tree[0 := Dom(Comp(ROOT, ST_UP, 0, 0, 0, 0, 0), 0, 1, NULL)];
    ghost var l := 1;
    ParsingStart(ls, targets, comps, domainNr, tree);
    var parent: nat := 0;
    var ty := comps[0].ty;
    var i: nat := 1;
    while true
      invariant 1 <= l < |ls| && Off(ls, l) <= i <= Off(ls, l + 1) && |tree| == domainNr + 1
      invariant Parsing(ls, targets, tree, parent, l, i) && ty == Type(ls, l)
      decreases domainNr + 1 - i
    {
      NextComp(ls, targets, comps, domainNr, l, i);
      TypeIs(ls, targets, l);
      var c := comps[i - 1];
      ghost var was := tree;
      if i <= domainNr {
        tree := tree[i := tree[i].(comp := c)];
      }
      if c.ty > TARGET {
        ok := false;
        return;
      }
      if c.ty == ty {
        ParsingSame(ls, targets, was, parent, l, i);
        i := i + 1;
        continue;
      }
      ty := c.ty;
      ghost var was' := parent;
      if parent == 0 {
        tree := tree[0 := tree[0].(comp := tree[0].comp.(nr := i - 1))];
        parent := 1;
      }
      LayerEnds(ls, l);
      if l + 1 < |ls| { TypeIs(ls, targets, l + 1); }
      RootReady(ls, targets, was, tree, was', l);
      ParentAt(ls, targets, was, was', l, i);
      ghost var ready := tree;
      if ty != TARGET {
        tree := LinkChildren(tree, parent, i);
      } else {
        tree := LinkTargets(tree, parent, i);
      }
      parent := i;
      LayerNext(ls, targets, ready, tree, l);
      if ty == TARGET {
        break;
      }
      l := l + 1;
      TypeIs(ls, targets, l);
      i := i + 1;
      ParsingIn(ls, targets, tree, parent, l, i);
    }
  }

  // ---------------------------------------------------------------------------
  // Second pass: the targets of the upper layers, from the bottom up
  // ---------------------------------------------------------------------------

  /** The first `n` domains of layer `l` are as they will be. */
  ghost predicate LayerCounted(ls: Layers, targets: seq<Comp>, tree: seq<Dom>, l: nat, n: nat)
    requires Layered(ls, targets) && l < |ls| && n <= |ls[l]|
  {
    Off(ls, l) + |ls[l]| <= |tree| && forall j {:trigger ls[l][j]} :: 0 <= j < n ==>
      tree[Off(ls, l) + j] == Expected(ls, targets, l, j)
  }

  /** Layers from `m` on are done, the ones above only linked. */
  ghost predicate Counting(ls: Layers, targets: seq<Comp>, tree: seq<Dom>, m: nat)
    requires Layered(ls, targets) && m <= |ls|
  {
    && |tree| == Off(ls, |ls|) && AllLinked(ls, targets, tree, m)
    && forall l :: m <= l < |ls| ==> LayerCounted(ls, targets, tree, l, |ls[l]|)
  }

  lemma CountingStart(ls: Layers, targets: seq<Comp>, tree: seq<Dom>)
    requires Layered(ls, targets) && |ls| >= 2 && |tree| == Off(ls, |ls|) && AllLinked(ls, targets, tree, |ls|)
    ensures Counting(ls, targets, tree, |ls| - 1)
  {
    hide Off, Layered, LinkedDom, Expected;
    var l := |ls| - 1;
    assert LayerLinked(ls, targets, tree, l);
    forall j | 0 <= j < |ls[l]| ensures tree[Off(ls, l) + j] == Expected(ls, targets, l, j) {
      assert ls[l][j] == ls[l][j];
      LastIs(ls, targets, j);
    }
  }

  lemma LastIs(ls: Layers, targets: seq<Comp>, j: nat)
    requires Layered(ls, targets) && j < |ls[|ls| - 1]|
    ensures LinkedDom(ls, targets, |ls| - 1, j) == Expected(ls, targets, |ls| - 1, j)
  {
    hide Off, Layered, Sum;
  }

  /** The children of domain `j` of layer `l`, and their targets. */
  lemma ChildTargets(ls: Layers, targets: seq<Comp>, l: nat, j: nat)
    requires Layered(ls, targets) && l + 1 < |ls| && j < |ls[l]|
    ensures var b, e := Before(ls[l], j), Before(ls[l], j + 1);
            var cs, below := Counts(ls, targets, l), Counts(ls, targets, l + 1);
            && b < e == b + ls[l][j].nr <= |ls[l + 1]| == |below|
            && cs[j] == Sum(below[b..e]) && Sum(cs[..j]) == Sum(below[..b])
  {
    var below := Counts(ls, targets, l + 1);
    assert ls[l][j].nr >= 1;
    SumMore(Nrs(ls[l]), j);
    GatherSum(ls[l], below, j);
    GatherSum(ls[l], below, j + 1);
  }

  /** Add up the targets of the children of one domain. */
  method CountChildren(tree: seq<Dom>, domain: nat, nr: nat, ghost ls: Layers, ghost targets: seq<Comp>, ghost l: nat,
      ghost b: nat) returns (sum: nat)
    requires Layered(ls, targets) && l < |ls| && LayerCounted(ls, targets, tree, l, |ls[l]|) && b + nr <= |ls[l]| &&
             domain == Off(ls, l) + b
    ensures sum == Sum(Counts(ls, targets, l)[b..b + nr])
  {
    hide Layered, Off, Sum, Counts;
    sum := 0;
    ghost var cs := Counts(ls, targets, l);
    SumNone();
    assert cs[b..b + 0] == [];
    for i := 0 to nr
      invariant sum == Sum(cs[b..b + i])
    {
      assert ls[l][b + i] == ls[l][b + i];
      SumMore(cs[b..b + nr], i);
      assert cs[b..b + nr][..i] == cs[b..b + i] && cs[b..b + nr][..i + 1] == cs[b..b + (i + 1)];
      sum := sum + tree[domain + i].targetNr;
    }
  }

  lemma SumNone()
    ensures Sum([]) == 0
  {
  }

  /** While layer `l` is counted, its first `j` domains are done and all before and behind
      them is as it was. */
  ghost predicate Midway(ls: Layers, targets: seq<Comp>, tree: seq<Dom>, t: seq<Dom>, l: nat, j: nat)
    requires Layered(ls, targets) && l + 1 < |ls|
  {
    && Counting(ls, targets, tree, l + 1) && j <= |ls[l]| && |t| == |tree| && Off(ls, l) + j <= |t|
    && t[..Off(ls, l)] == tree[..Off(ls, l)] && t[Off(ls, l) + j..] == tree[Off(ls, l) + j..] &&
      LayerCounted(ls, targets, t, l, j)
  }

  lemma MidwayStart(ls: Layers, targets: seq<Comp>, tree: seq<Dom>, l: nat)
    requires Layered(ls, targets) && l + 1 < |ls| && Counting(ls, targets, tree, l + 1)
    ensures Midway(ls, targets, tree, tree, l, 0) && Before(ls[l], 0) == 0 && ls[l] != []
  {
    OffLess(ls, l, |ls|);
  }

  /** The next domain to count, or the first one behind the layer. */
  lemma MidwayAt(ls: Layers, targets: seq<Comp>, tree: seq<Dom>, t: seq<Dom>, l: nat, j: nat)
    requires Layered(ls, targets) && l + 1 < |ls| && Midway(ls, targets, tree, t, l, j)
    ensures ls[l] != [] && Off(ls, l) + j < |t|
    ensures j < |ls[l]| ==> t[Off(ls, l) + j] == LinkedDom(ls, targets, l, j)
    ensures t[Off(ls, l) + j].comp.ty == ls[l][0].ty <==> j < |ls[l]|
  {
    hide Before, Counts, Expected, LinkedDom, Layered, Off;
    var k := Off(ls, l) + j;
    OffLess(ls, l + 1, |ls|);
    LayerTypes(ls, targets, l, j);
    NextOff(ls, targets, l);
    assert t[k..][0] == tree[k..][0];
    if j < |ls[l]| {
      assert LayerLinked(ls, targets, tree, l);
      assert ls[l][j] == ls[l][j];
    } else {
      assert LayerCounted(ls, targets, tree, l + 1, |ls[l + 1]|);
      assert ls[l + 1][0] == ls[l + 1][0];
    }
  }

  lemma NextOff(ls: Layers, targets: seq<Comp>, l: nat)
    requires Layered(ls, targets) && l + 1 < |ls|
    ensures ls[l] != [] && ls[l + 1] != [] && Off(ls, l + 1) == Off(ls, l) + |ls[l]| &&
            Off(ls, l + 1) + |ls[l + 1]| <= Off(ls, |ls|)
  {
    OffLess(ls, l + 2, |ls|);
  }

  lemma LayerTypes(ls: Layers, targets: seq<Comp>, l: nat, j: nat)
    requires Layered(ls, targets) && l + 1 < |ls|
    ensures ls[l] != [] && ls[l + 1] != []
    ensures j < |ls[l]| ==> LinkedDom(ls, targets, l, j).comp.ty == ls[l][0].ty
    ensures Expected(ls, targets, l + 1, 0).comp.ty > ls[l][0].ty
  {
    hide Off, Before, Counts;
    assert ls[l + 1] != [] && ls[l] != [];
    if j < |ls[l]| { assert ls[l][j].ty == ls[l][0].ty; }
  }

  lemma BelowCounted(ls: Layers, targets: seq<Comp>, tree: seq<Dom>, t: seq<Dom>, l: nat, j: nat, q: nat)
    requires Layered(ls, targets) && l + 1 < |ls| && Midway(ls, targets, tree, t, l, j) && l < q < |ls|
    ensures LayerCounted(ls, targets, t, q, |ls[q]|)
  {
    hide Before, Counts, Expected, Layered;
    OffLess(ls, l + 1, q);
    assert LayerCounted(ls, targets, tree, q, |ls[q]|);
    var k := Off(ls, l) + j;
    forall i | 0 <= i < |ls[q]| ensures t[Off(ls, q) + i] == Expected(ls, targets, q, i) {
      assert t[k..][Off(ls, q) + i - k] == tree[k..][Off(ls, q) + i - k];
      assert ls[q][i] == ls[q][i];
    }
  }

  lemma MidwayMore(ls: Layers, targets: seq<Comp>, tree: seq<Dom>, t: seq<Dom>, t': seq<Dom>, l: nat, j: nat)
    requires Layered(ls, targets) && l + 1 < |ls| && Midway(ls, targets, tree, t, l, j) && j < |ls[l]| &&
             Off(ls, l) + j < |t|
    requires t' == t[Off(ls, l) + j := Expected(ls, targets, l, j)]
    ensures Midway(ls, targets, tree, t', l, j + 1)
  {
    hide Before, Counts, Expected, Layered, Counting, Off;
    var k := Off(ls, l) + j;
    assert t'[..Off(ls, l)] == t[..Off(ls, l)];
    assert t'[k + 1..] == t[k..][1..];
    assert tree[k + 1..] == tree[k..][1..];
    forall i | 0 <= i < j + 1 ensures t'[Off(ls, l) + i] == Expected(ls, targets, l, i) { assert ls[l][i] == ls[l][i]; }
  }

  lemma MidwayEnd(ls: Layers, targets: seq<Comp>, tree: seq<Dom>, t: seq<Dom>, l: nat)
    requires Layered(ls, targets) && l + 1 < |ls| && Midway(ls, targets, tree, t, l, |ls[l]|)
    ensures Counting(ls, targets, t, l)
  {
    hide Before, Counts, Expected, Layered, LinkedDom, LayerCounted, LayerLinked;
    forall q | l <= q < |ls| ensures LayerCounted(ls, targets, t, q, |ls[q]|) {
      if q > l { BelowCounted(ls, targets, tree, t, l, |ls[l]|, q); }
    }
    forall m | 0 <= m < l ensures LayerLinked(ls, targets, t, m) {
      OffLess(ls, m, l);
      LinkedElsewhere(ls, targets, tree, t, m, Off(ls, l));
    }
  }

  /** Counting domain `j` from its children makes it what it will be. */
  lemma CountedOne(ls: Layers, targets: seq<Comp>, t: seq<Dom>, l: nat, j: nat)
    requires Layered(ls, targets) && l + 1 < |ls| && j < |ls[l]| && LayerCounted(ls, targets, t, l + 1, |ls[l + 1]|)
    ensures Before(ls[l], j) + ls[l][j].nr <= |ls[l + 1]| && ls[l][j].nr >= 1 && Off(ls, l + 1) + Before(ls[l], j) < |t|
    ensures var b := Before(ls[l], j);
            LinkedDom(ls, targets, l, j).(targets := t[Off(ls, l + 1) + b].targets,
              targetNr := Sum(Counts(ls, targets, l + 1)[b..b + ls[l][j].nr]))
            == Expected(ls, targets, l, j)
  {
    hide Layered, Off, Sum, Before, Counts;
    ChildTargets(ls, targets, l, j);
    var b := Before(ls[l], j);
    assert ls[l + 1][b] == ls[l + 1][b];
  }

  /** Set the targets of the domains of layer `l`, the layer below being done. */
  method CountLayer(tree: seq<Dom>, p: nat, d: nat, ghost ls: Layers, ghost targets: seq<Comp>, ghost l: nat)
      returns (t: seq<Dom>)
    requires Layered(ls, targets) && l + 1 < |ls| && p == Off(ls, l) && d == Off(ls, l + 1) &&
             Counting(ls, targets, tree, l + 1)
    ensures Counting(ls, targets, t, l)
  {
    hide Layered, Off, Sum, Counts, Before, LayerLinked, LayerCounted, Counting, AllLinked, Expected, Midway;
    t := tree;
    var parent, domain := p, d;
    ghost var j: nat := 0;
    MidwayStart(ls, targets, tree, l);
    MidwayAt(ls, targets, tree, t, l, j);
    var ty := t[parent].comp.ty;
    while t[parent].comp.ty == ty
      invariant j <= |ls[l]| && parent == p + j && domain == d + Before(ls[l], j) && parent < |t|
      invariant Midway(ls, targets, tree, t, l, j)
      invariant t[parent].comp.ty == ty <==> j < |ls[l]|
      invariant j < |ls[l]| ==> t[parent] == LinkedDom(ls, targets, l, j)
      decreases |ls[l]| - j
    {
      ChildTargets(ls, targets, l, j);
      BelowCounted(ls, targets, tree, t, l, j, l + 1);
      CountedOne(ls, targets, t, l, j);
      var sum := CountChildren(t, domain, t[parent].comp.nr, ls, targets, l + 1, Before(ls[l], j));
      ghost var was := t;
      var nr := t[parent].comp.nr;
      t := t[parent := t[parent].(targets := t[domain].targets, targetNr := t[parent].targetNr + sum)];
      MidwayMore(ls, targets, tree, was, t, l, j);
      domain := domain + nr;
      parent := parent + 1;
      j := j + 1;
      MidwayAt(ls, targets, tree, t, l, j);
    }
    MidwayEnd(ls, targets, tree, t, l);
  }

  lemma FirstOf(ls: Layers, targets: seq<Comp>, tree: seq<Dom>, m: nat, q: nat)
    requires Layered(ls, targets) && 0 < m < |ls| && Counting(ls, targets, tree, m) && q <= m
    ensures Off(ls, q) < |tree| &&
            (q < m ==> tree[Off(ls, q)].targets == NULL && tree[Off(ls, q)].children == Off(ls, q + 1))
    ensures q == m ==> tree[Off(ls, q)].targets != NULL
  {
    OffLess(ls, q + 1, |ls|);
    assert ls[q] != [] && ls[q][0] == ls[q][0];
    if q < m {
      assert LayerLinked(ls, targets, tree, q);
    } else {
      assert LayerCounted(ls, targets, tree, m, |ls[m]|);
    }
  }

  lemma RootCounted(ls: Layers, targets: seq<Comp>, tree: seq<Dom>, m: nat)
    requires Layered(ls, targets) && m < |ls| && Counting(ls, targets, tree, m)
    ensures |tree| >= 1 && Off(ls, 0) == 0 && (tree[0].targets == NULL <==> m > 0)
    ensures m == 0 ==> IsTree(ls, targets, tree)
  {
    if m > 0 {
      FirstOf(ls, targets, tree, m, 0);
    } else {
      OffLess(ls, 1, |ls|);
      assert ls[0][0] == ls[0][0];
      assert LayerCounted(ls, targets, tree, 0, |ls[0]|);
      hide Expected;
      forall l, j | 0 <= l < |ls| && 0 <= j < |ls[l]| ensures TreeHas(ls, targets, tree, l, j) {
        assert LayerCounted(ls, targets, tree, l, |ls[l]|);
        assert ls[l][j] == ls[l][j];
      }
    }
  }

  /** Set the targets of every domain, going down to the deepest layer without them, as
      long as the root has none. */
  method CountTargets(tree: seq<Dom>, ghost ls: Layers, ghost targets: seq<Comp>) returns (t: seq<Dom>)
    requires Layered(ls, targets) && |ls| >= 2 && |tree| == Off(ls, |ls|) && AllLinked(ls, targets, tree, |ls|)
    ensures IsTree(ls, targets, t)
  {
    hide Layered, Off, Counting, AllLinked, IsTree;
    t := tree;
    ghost var m := |ls| - 1;
    CountingStart(ls, targets, tree);
    RootCounted(ls, targets, t, m);
    while t[0].targets == NULL
      invariant 0 <= m < |ls| && Counting(ls, targets, t, m) && |t| >= 1 && Off(ls, 0) == 0
      invariant t[0].targets == NULL <==> m > 0
      invariant m == 0 ==> IsTree(ls, targets, t)
      decreases m
    {
      var parent: nat, domain: nat := 0, 0;
      ghost var q := 0;
      FirstOf(ls, targets, t, m, 0);
      while t[domain].targets == NULL
        invariant q <= m && domain == Off(ls, q) < |t| && (q > 0 ==> parent == Off(ls, q - 1))
        invariant q < m ==> t[domain].targets == NULL && t[domain].children == Off(ls, q + 1)
        invariant q == m ==> t[domain].targets != NULL
        decreases m - q
      {
        parent := domain;
        domain := t[domain].children;
        q := q + 1;
        FirstOf(ls, targets, t, m, q);
      }
      t := CountLayer(t, parent, domain, ls, targets, m - 1);
      m := m - 1;
      RootCounted(ls, targets, t, m);
    }
  }
}
