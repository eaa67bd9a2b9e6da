/** Walking a tree of domains layer by layer. */
module PoolTree {
  import opened Sequences
  import opened PoolLayers
  import opened PoolBuffer

  /** What a finished tree holds for domain `j` of layer `l`. */
  lemma TreeAt(ls: Layers, targets: seq<Comp>, tree: seq<Dom>, l: nat, j: nat)
    requires Layered(ls, targets) && IsTree(ls, targets, tree) && l < |ls| && j < |ls[l]|
    ensures Off(ls, l) + j < |tree| == Off(ls, |ls|)
    ensures var d := tree[Off(ls, l) + j];
            && d == Expected(ls, targets, l, j) && d.targetNr >= 1 && d.targets >= 0 && (j == 0 ==> d.targets == 0)
            && (if l == |ls| - 1 then d.comp == ls[l][j].(nr := 0) && d.children == NULL && d.targetNr == ls[l][j].nr
                else d.comp == ls[l][j] && d.children == Off(ls, l + 1) + Before(ls[l], j))
  {
    hide Layered, Off, Expected, Before;
    assert TreeHas(ls, targets, tree, l, j);
    ExpectedIs(ls, targets, l, j);
  }

  lemma ExpectedIs(ls: Layers, targets: seq<Comp>, l: nat, j: nat)
    requires Layered(ls, targets) && l < |ls| && j < |ls[l]|
    ensures var d := Expected(ls, targets, l, j);
            && d.targetNr >= 1 && d.targets >= 0 && (j == 0 ==> d.targets == 0)
            && (if l == |ls| - 1 then d.comp == ls[l][j].(nr := 0) && d.children == NULL && d.targetNr == ls[l][j].nr
                else d.comp == ls[l][j] && d.children == Off(ls, l + 1) + Before(ls[l], j))
  {
    CountsPositive(ls, targets, l);
    hide Layered, Off, Before;
  }

  lemma LayerSizes(ls: Layers, targets: seq<Comp>, l: nat)
    requires Layered(ls, targets) && l < |ls|
    ensures ls[l] != [] && Off(ls, l + 1) == Off(ls, l) + |ls[l]| <= Off(ls, |ls|) && Before(ls[l], 0) == 0
    ensures Before(ls[l], |ls[l]|) == if l == |ls| - 1 then |targets| else |ls[l + 1]|
  {
    OffLess(ls, l + 1, |ls|);
  }

  lemma BeforeMore(layer: seq<Comp>, j: nat)
    requires j < |layer|
    ensures Before(layer, j + 1) == Before(layer, j) + layer[j].nr
  {
    SumMore(Nrs(layer), j);
  }

  /** The children of one layer, or its targets if it is the last. */
  method CountLayerOf(tree: seq<Dom>, at: nat, domNr: nat, ghost ls: Layers, ghost targets: seq<Comp>, ghost l: nat)
    returns (childNr: nat, targetNr: nat)
    requires Layered(ls, targets) && IsTree(ls, targets, tree) && l < |ls| && at == Off(ls, l) && domNr == |ls[l]|
    ensures childNr == if l == |ls| - 1 then 0 else |ls[l + 1]|
    ensures targetNr == if l == |ls| - 1 then |targets| else 0
  {
    hide Layered, IsTree, Off, Before, Expected;
    childNr, targetNr := 0, 0;
    LayerSizes(ls, targets, l);
    for i := 0 to domNr
      invariant childNr == if l == |ls| - 1 then 0 else Before(ls[l], i)
      invariant targetNr == if l == |ls| - 1 then Before(ls[l], i) else 0
    {
      TreeAt(ls, targets, tree, l, i);
      BeforeMore(ls[l], i);
      if tree[at + i].children != NULL {
        childNr := childNr + tree[at + i].comp.nr;
      } else {
        targetNr := targetNr + tree[at + i].targetNr;
      }
    }
  }

  /** Count the domains, targets and layers of a tree from the layer at `base` on. */
  method TreeCount(tree: seq<Dom>, base: nat, ghost ls: Layers, ghost targets: seq<Comp>, ghost q: nat)
    returns (topDoms: nat, domains: nat, targetNr: nat, layers: nat)
    requires Layered(ls, targets) && IsTree(ls, targets, tree) && q < |ls| && base == Off(ls, q)
    ensures topDoms == |ls[q]| && domains == Off(ls, |ls|) - Off(ls, q) && targetNr == |targets| && layers == |ls| - q
  {
    hide Layered, IsTree, Off, Before, Expected;
    LayerSizes(ls, targets, q);
    TreeAt(ls, targets, tree, q, 0);
    var domNr: nat;
    if tree[base].children != NULL {
      domNr := tree[base].children - base;
    } else {
      // the targets follow the last domain
      domNr := |tree| - base;
    }
    topDoms, domains, targetNr, layers := domNr, domNr, 0, 0;
    var at := base;
    ghost var l := q;
    while at != NULL
      invariant q <= l <= |ls| && layers == l - q
      invariant at != NULL <==> l < |ls|
      invariant l < |ls| ==>
                  at == Off(ls, l) && domNr == |ls[l]| && domains == Off(ls, l + 1) - Off(ls, q) && targetNr == 0
      invariant l == |ls| ==> domains == Off(ls, |ls|) - Off(ls, q) && targetNr == |targets|
      decreases |ls| - l
    {
      LayerSizes(ls, targets, l);
      TreeAt(ls, targets, tree, l, 0);
      var childNr, ts := CountLayerOf(tree, at, domNr, ls, targets, l);
      domains := domains + childNr;
      targetNr := targetNr + ts;
      domNr := childNr;
      at := tree[at].children;
      layers := layers + 1;
      l := l + 1;
      if l < |ls| { LayerSizes(ls, targets, l); }
    }
  }

  // ---------------------------------------------------------------------------
  // Extracting
  // ---------------------------------------------------------------------------

  /** The domains of layers 1 up to `l`, as a buffer holds them. */
  ghost function Upto(ls: Layers, l: nat): seq<Comp>
    requires 1 <= l <= |ls|
  {
    Flat(ls[1..l])
  }

  lemma UptoMore(ls: Layers, l: nat)
    requires 1 <= l < |ls|
    ensures Upto(ls, l + 1) == Upto(ls, l) + ls[l]
  {
    assert ls[1..l + 1][..l - 1] == ls[1..l];
  }

  lemma {:induction false} UptoLen(ls: Layers, l: nat)
    requires 1 <= l <= |ls| && |ls[0]| == 1
    ensures |Upto(ls, l)| == Off(ls, l) - 1
  {
    if l == 1 {
      assert Off(ls, 0) == 0;
      assert ls[1..1] == [];
    } else {
      UptoMore(ls, l - 1);
      UptoLen(ls, l - 1);
    }
  }

  /** A layer can follow the ones above it. */
  lemma LayerFollows(ls: Layers, targets: seq<Comp>, l: nat, j: nat)
    requires Layered(ls, targets) && 1 <= l < |ls| && j < |ls[l]|
    ensures LastType(Upto(ls, l) + ls[l][..j]) <= ls[l][j].ty
  {
    if j > 0 {
      assert ls[l][j - 1].ty == ls[l][0].ty == ls[l][j].ty;
    } else {
      assert ls[l][..0] == [];
      if l > 1 {
        UptoMore(ls, l - 1);
        assert ls[l - 1][|ls[l - 1]| - 1].ty == ls[l - 1][0].ty;
      } else {
        assert Upto(ls, 1) == [] by { assert ls[1..1] == []; }
      }
    }
  }

  lemma TargetFollows(ls: Layers, targets: seq<Comp>, k: nat)
    requires Layered(ls, targets) && k < |targets|
    ensures LastType(Upto(ls, |ls|) + targets[..k]) <= TARGET == targets[k].ty
  {
    if k > 0 {
      assert targets[k - 1].ty == TARGET;
    } else {
      assert targets[..0] == [];
      var l := |ls| - 1;
      if l == 0 {
        assert ls[1..1] == [];
      } else {
        UptoMore(ls, l);
        assert ls[l][|ls[l]| - 1].ty == ls[l][0].ty;
      }
    }
  }

  lemma FollowsOne(ty: nat, c: Comp)
    requires ty <= c.ty
    ensures Follows(ty, [c]) == 1
  {
    assert [c][1..] == [];
  }

  /** Attach the domains of one layer. */
  method ExtractLayer(tree: seq<Dom>, at: nat, domNr: nat, buf: PoolBuf, ghost ls: Layers, ghost targets: seq<Comp>,
      ghost l: nat)
    returns (childNr: nat)
    requires Layered(ls, targets) && IsTree(ls, targets, tree) && 1 <= l < |ls| && at == Off(ls, l) && domNr == |ls[l]|
    requires buf.Valid() && buf.Filled() == Upto(ls, l) && Off(ls, |ls|) - 1 <= buf.nr
    modifies buf
    ensures buf.Valid() && buf.Filled() == Upto(ls, l + 1)
    ensures childNr == if l == |ls| - 1 then 0 else |ls[l + 1]|
  {
    hide Layered, IsTree, Off, Before, Expected, Upto, Follows, Domains;
    childNr := 0;
    LayerSizes(ls, targets, l);
    RootOne(ls, targets);
    UptoLen(ls, l);
    for i := 0 to domNr
      invariant childNr == if l == |ls| - 1 then 0 else Before(ls[l], i)
      invariant buf.Valid() && buf.Filled() == Upto(ls, l) + ls[l][..i]
    {
      TreeAt(ls, targets, tree, l, i);
      BeforeMore(ls[l], i);
      var comp := tree[at + i].comp;
      if tree[at + i].children != NULL {
        childNr := childNr + comp.nr;
      } else {
        comp := comp.(nr := tree[at + i].targetNr);
      }
      LayerFollows(ls, targets, l, i);
      FollowsOne(LastType(buf.Filled()), comp);
      var _ := buf.Attach([comp]);
      assert ls[l][..i + 1] == ls[l][..i] + [ls[l][i]];
    }
    UptoMore(ls, l);
    assert ls[l][..|ls[l]|] == ls[l];
  }

  lemma RootOne(ls: Layers, targets: seq<Comp>)
    requires Layered(ls, targets)
    ensures |ls| >= 1 && |ls[0]| == 1 && Off(ls, 0) == 0 && Off(ls, 1) == 1
  {
  }

  lemma RootTargets(ls: Layers, targets: seq<Comp>)
    requires Layered(ls, targets)
    ensures |ls[0]| == 1 && Expected(ls, targets, 0, 0).targetNr == |targets|
  {
    CountsAll(ls, targets, 0);
    var cs := Counts(ls, targets, 0);
    assert cs[..0] == [];
    SumMore(cs, 0);
    assert cs[..1] == cs;
  }

  /** There is a domain after the root exactly if there is a layer of domains. */
  lemma MoreThanRoot(ls: Layers, targets: seq<Comp>, tree: seq<Dom>)
    requires Layered(ls, targets) && IsTree(ls, targets, tree)
    ensures (|tree| > 1 <==> |ls| > 1) && |tree| >= 1 && |targets| >= 1
  {
    RootOne(ls, targets);
    TreeAt(ls, targets, tree, 0, 0);
    RootTargets(ls, targets);
    if |ls| > 1 { LayerSizes(ls, targets, 1); }
  }

  /** A tree and its targets are one piece of memory.  Of its four-byte words a domain takes
      twelve, its children pointer being the ninth and tenth, and a target six, its rank and
      version being the third and fourth. */
  datatype Word = OfDomain(dom: Dom, nth: nat) | OfTarget(comp: Comp, nth: nat) | Outside

  const DOM_WORDS := 12
  const COMP_WORDS := 6
  const CHILDREN := 8
  const RANK := 2

  function WordAt(tree: seq<Dom>, targets: seq<Comp>, k: nat): Word {
    if k < DOM_WORDS * |tree| then OfDomain(tree[k / DOM_WORDS], k % DOM_WORDS)
    else
      var j := k - DOM_WORDS * |tree|;
      if j < COMP_WORDS * |targets| then OfTarget(targets[j / COMP_WORDS], j % COMP_WORDS) else Outside
  }

  /** What is read as the children pointer of the first domain after the root: that, if there
      is a domain; otherwise rank and version of the second target, or what lies behind the
      only one. */
  lemma FirstRead(tree: seq<Dom>, targets: seq<Comp>)
    requires |tree| >= 1 && |targets| >= 1
    ensures WordAt(tree, targets, DOM_WORDS + CHILDREN) ==
            if |tree| > 1 then OfDomain(tree[1], CHILDREN)
            else if |targets| > 1 then OfTarget(targets[1], RANK) else Outside
  {
  }

  /** Write the components of a tree to a buffer.  The domain after the root is looked at
      before anything else; if that is none, there is no telling what follows from what was
      `read`. */
  method Extract(tree: seq<Dom>, targets: seq<Comp>, ghost ls: Layers) returns (buf: PoolBuf?, read: Word)
    requires Layered(ls, targets) && IsTree(ls, targets, tree)
    ensures buf != null <==> |ls| > 1
    ensures buf != null ==>
              && fresh(buf) && buf.Valid() && buf.Filled() == Upto(ls, |ls|) + targets && buf.nr == |buf.Filled()|
              && buf.nr == buf.domainNr + buf.targetNr
    ensures |ls| == 1 ==> read == if |targets| > 1 then OfTarget(targets[1], RANK) else Outside
  {
    hide Layered, IsTree, Off, Before, Expected, Upto, Follows, Domains, LastType;
    RootOne(ls, targets);
    MoreThanRoot(ls, targets, tree);
    FirstRead(tree, targets);
    read := WordAt(tree, targets, DOM_WORDS + CHILDREN);
    hide WordAt;
    if !read.OfDomain? {
      return null, read;
    }
    buf := ExtractAll(tree, targets, ls);
  }

  method ExtractAll(tree: seq<Dom>, targets: seq<Comp>, ghost ls: Layers) returns (buf: PoolBuf)
    requires Layered(ls, targets) && IsTree(ls, targets, tree) && |ls| > 1
    ensures fresh(buf) && buf.Valid() && buf.Filled() == Upto(ls, |ls|) + targets && buf.nr == |buf.Filled()|
    ensures buf.nr == buf.domainNr + buf.targetNr
  {
    hide Layered, IsTree, Off, Before, Expected, Upto, Follows, Domains, LastType;
    RootOne(ls, targets);
    var topDoms, domains, targetNr, _ := TreeCount(tree, 1, ls, targets, 1);
    buf := new PoolBuf(domains + targetNr);
    var domNr, at := topDoms, 1;
    ghost var l := 1;
    UptoLen(ls, 1);
    LayerSizes(ls, targets, 1);
    while domNr != 0
      invariant 1 <= l <= |ls| && buf.Valid() && buf.nr == Off(ls, |ls|) - 1 + |targets| && fresh(buf)
      invariant domNr != 0 <==> l < |ls|
      invariant l < |ls| ==> at == Off(ls, l) && domNr == |ls[l]|
      invariant buf.Filled() == Upto(ls, l)
      decreases |ls| - l
    {
      LayerSizes(ls, targets, l);
      TreeAt(ls, targets, tree, l, 0);
      domNr := ExtractLayer(tree, at, domNr, buf, ls, targets, l);
      at := tree[at].children;
      l := l + 1;
      if l < |ls| { LayerSizes(ls, targets, l); }
    }
    UptoLen(ls, |ls|);
    TreeAt(ls, targets, tree, 0, 0);
    ExtractTargets(targets, tree[0].targets, targetNr, buf, ls);
  }

  /** Attach the targets, which begin at `first`. */
  method ExtractTargets(targets: seq<Comp>, first: nat, targetNr: nat, buf: PoolBuf, ghost ls: Layers)
    requires Layered(ls, targets) && first == 0 && targetNr == |targets|
    requires buf.Valid() && buf.Filled() == Upto(ls, |ls|) && |Upto(ls, |ls|)| + |targets| == buf.nr
    modifies buf
    ensures buf.Valid() && buf.Filled() == Upto(ls, |ls|) + targets
  {
    hide Layered, Upto, Follows, Domains, LastType;
    RootOne(ls, targets);
    for i := 0 to targetNr
      invariant buf.Valid() && buf.Filled() == Upto(ls, |ls|) + targets[..i]
    {
      TargetFollows(ls, targets, i);
      FollowsOne(LastType(buf.Filled()), targets[i]);
      var _ := buf.Attach([targets[first + i]]);
      assert targets[..i + 1] == targets[..i] + [targets[i]];
    }
    assert targets[..|targets|] == targets;
  }
}
