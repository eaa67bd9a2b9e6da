/** Where an array index lives: which dkey of the object, and which record of that dkey. */
module ArrayDkey {

  /** `block` records fill one block; the blocks of a group go round robin to its `dkeys`
      dkeys until each has `blocks` of them. */
  datatype Array = Array(cell: nat, block: nat, blocks: nat, dkeys: nat) {
    predicate Valid() {
      cell > 0 && block > 0 && blocks > 0 && dkeys > 0
    }
  }

  datatype Dkey = Dkey(grp: nat, num: nat)

  datatype Place = Place(dkey: Dkey, rec: nat)

  // ---------------------------------------------------------------------------
  // Division
  // ---------------------------------------------------------------------------

  lemma Quotient(x: nat, y: nat, q: nat, r: nat)
    requires y > 0 && r < y && x == q * y + r
    ensures x / y == q && x % y == r
  {
    var q', r' := x / y, x % y;
    assert x == q' * y + r';
    assert (q - q') * y == r' - r;
    if q > q' { assert (q - q') * y >= y by { Grows(q - q', y); } }
    if q < q' {
      assert (q' - q) * y == r - r' by { assert (q - q') * y == -((q' - q) * y); }
      assert (q' - q) * y >= y by { Grows(q' - q, y); }
    }
  }

  lemma Grows(k: nat, y: nat)
    requires k >= 1
    ensures k * y >= y
  {
    assert k * y == (k - 1) * y + y;
  }

  lemma DivMod(x: nat, y: nat)
    requires y > 0
    ensures x == (x / y) * y + x % y && 0 <= x % y < y
  {
  }

  lemma Product(a: nat, b: nat)
    requires a > 0 && b > 0
    ensures a * b > 0
  {
    Grows(a, b);
  }

  lemma Regroup(g: nat, m: nat, w: nat, b: nat, o: nat)
    ensures (g * m + w) * b + o == g * (b * m) + (w * b + o)
  {
  }

  lemma Fits(w: nat, m: nat, b: nat, o: nat)
    requires w < m && o < b
    ensures w * b + o < b * m
  {
    assert b * m == (m - 1 - w) * b + w * b + b;
    assert (m - 1 - w) * b >= 0;
  }

  /** Dividing in two stages. */
  lemma TwoStage(x: nat, b: nat, m: nat)
    requires b > 0 && m > 0
    ensures b * m > 0
    ensures x / (b * m) == (x / b) / m
    ensures x % (b * m) == ((x / b) % m) * b + x % b
  {
    DivMod(x, b);
    DivMod(x / b, m);
    Product(b, m);
    Stages(x, b, m, (x / b) / m, (x / b) % m, x % b);
  }

  lemma Stages(x: nat, b: nat, m: nat, g: nat, w: nat, o: nat)
    requires w < m && o < b && x == (g * m + w) * b + o && b * m > 0
    ensures x / (b * m) == g && x % (b * m) == w * b + o
  {
    Regroup(g, m, w, b, o);
    Fits(w, m, b, o);
    Quotient(x, b * m, g, w * b + o);
  }

  // ---------------------------------------------------------------------------
  // The layout
  // ---------------------------------------------------------------------------

  /** Index `idx` is record `idx % block` of block `idx / block`. */
  function Locate(arr: Array, idx: nat): Place
    requires arr.Valid()
  {
    BlockPlace(arr, idx / arr.block, idx % arr.block)
  }

  /** Record `o` of block `q`. */
  function BlockPlace(arr: Array, q: nat, o: nat): Place
    requires arr.Valid()
  {
    Product(arr.dkeys, arr.blocks);
    var grp, w := q / (arr.dkeys * arr.blocks), q % (arr.dkeys * arr.blocks);
    Scale(w / arr.dkeys, arr.block);
    Place(Dkey(grp, w % arr.dkeys), (w / arr.dkeys) * arr.block + o)
  }

  lemma Scale(a: nat, b: nat)
    ensures a * b >= 0
  {
  }

  ghost predicate InLayout(arr: Array, p: Place)
    requires arr.Valid()
  {
    p.dkey.num < arr.dkeys && p.rec / arr.block < arr.blocks
  }

  /** The array index that is stored at a place. */
  function IndexAt(arr: Array, p: Place): nat
    requires arr.Valid()
  {
    ((p.dkey.grp * arr.blocks + p.rec / arr.block) * arr.dkeys + p.dkey.num) * arr.block + p.rec % arr.block
  }

  /** Each index has a place of its own ... */
  lemma LocateOnce(arr: Array, idx: nat)
    requires arr.Valid()
    ensures InLayout(arr, Locate(arr, idx)) && IndexAt(arr, Locate(arr, idx)) == idx
  {
    var q, o := idx / arr.block, idx % arr.block;
    var p := Locate(arr, idx);
    var t := q / arr.dkeys;
    TwoStage(q, arr.dkeys, arr.blocks);
    var w := q % (arr.dkeys * arr.blocks);
    Quotient(w, arr.dkeys, t % arr.blocks, q % arr.dkeys);
    Quotient(p.rec, arr.block, w / arr.dkeys, o);
    DivMod(t, arr.blocks);
    DivMod(q, arr.dkeys);
    DivMod(idx, arr.block);
  }

  /** ... and each place of the layout has an index. */
  lemma PlaceOnce(arr: Array, p: Place)
    requires arr.Valid() && InLayout(arr, p)
    ensures Locate(arr, IndexAt(arr, p)) == p
  {
    var i, o := p.rec / arr.block, p.rec % arr.block;
    var t := p.dkey.grp * arr.blocks + i;
    var q := t * arr.dkeys + p.dkey.num;
    var idx := IndexAt(arr, p);
    Quotient(idx, arr.block, q, o);
    Quotient(q, arr.dkeys, t, p.dkey.num);
    Quotient(t, arr.blocks, p.dkey.grp, i);
    TwoStage(q, arr.dkeys, arr.blocks);
    var w := q % (arr.dkeys * arr.blocks);
    Quotient(w, arr.dkeys, i, p.dkey.num);
    DivMod(p.rec, arr.block);
  }

  /** How many records are left in the block of `idx`, itself included. */
  function Left(arr: Array, idx: nat): (n: nat)
    requires arr.Valid()
    ensures 1 <= n <= arr.block
  {
    arr.block - idx % arr.block
  }

  /** A block is contiguous in its dkey. */
  lemma LocateNext(arr: Array, idx: nat, k: nat)
    requires arr.Valid() && k < Left(arr, idx)
    ensures Locate(arr, idx + k) == Place(Locate(arr, idx).dkey, Locate(arr, idx).rec + k)
    ensures Left(arr, idx + k) == Left(arr, idx) - k
  {
    DivMod(idx, arr.block);
    Quotient(idx + k, arr.block, idx / arr.block, idx % arr.block + k);
  }

  /** Two indices are in one block. */
  ghost predicate SameBlock(arr: Array, i: nat, j: nat)
    requires arr.Valid()
  {
    i / arr.block == j / arr.block
  }

  lemma SameBlockIs(arr: Array, i: nat, j: nat)
    requires arr.Valid()
    ensures SameBlock(arr, i, j) <==> i + Left(arr, i) - arr.block <= j < i + Left(arr, i)
    ensures SameBlock(arr, i, j) ==> Locate(arr, i).dkey == Locate(arr, j).dkey
  {
    var b, q := arr.block, i / arr.block;
    DivMod(i, b);
    DivMod(j, b);
    if q * b <= j < q * b + b {
      Quotient(j, b, q, j - q * b);
    }
  }

  /** What is left of a block's number once its group is taken off. */
  lemma InGroup(b: nat, nb: nat, nd: nat, idx: nat)
    requires b > 0 && nb > 0 && nd > 0
    ensures nd * nb > 0 && b * nb * nd > 0
    ensures idx / (b * nb * nd) == (idx / b) / (nd * nb)
    ensures idx % (b * nb * nd) == ((idx / b) % (nd * nb)) * b + idx % b
  {
    Product(nd, nb);
    assert b * nb * nd == b * (nd * nb);
    TwoStage(idx, b, nd * nb);
  }

  /** What is left of a record's number once its turn of the round robin is taken off. */
  lemma InTurn(b: nat, nd: nat, w: nat, o: nat)
    requires b > 0 && nd > 0 && o < b
    ensures b * nd > 0 && (w * b + o) / b == w && (w * b + o) / (b * nd) == w / nd
    ensures (w / nd) * (b * nd) + (w % nd) * b == w * b
  {
    Product(b, nd);
    Quotient(w * b + o, b, w, o);
    TwoStage(w * b + o, b, nd);
    DivMod(w, nd);
    Regroup(w / nd, nd, w % nd, b, 0);
  }

  lemma Remaining(b: nat, t: nat, o: nat)
    ensures (t + 1) * b - (b * t + o) == b - o
  {
  }

  /** The dkey for an index, the records that dkey can hold from there on, and the record
      index relative to the dkey. */
  method ComputeDkey(arr: Array, idx: nat) returns (numRecords: nat, rec: nat, dkey: Dkey)
    requires arr.Valid()
    ensures Place(dkey, rec) == Locate(arr, idx) && numRecords == Left(arr, idx)
    ensures dkey.num < arr.dkeys && rec / arr.block < arr.blocks && numRecords == arr.block - rec % arr.block
    ensures idx == ((dkey.grp * arr.blocks + rec / arr.block) * arr.dkeys + dkey.num) * arr.block + rec % arr.block
  {
    dkey, rec, numRecords := Compute(arr, idx);
    hide Locate;
    LocateOnce(arr, idx);
    LeftIs(arr, idx);
  }

  lemma LeftIs(arr: Array, idx: nat)
    requires arr.Valid()
    ensures Left(arr, idx) == arr.block - Locate(arr, idx).rec % arr.block
  {
    var p := Locate(arr, idx);
    var q := (idx / arr.block) % (arr.dkeys * arr.blocks) / arr.dkeys;
    Quotient(p.rec, arr.block, q, idx % arr.block);
  }

  method Compute(arr: Array, idx: nat) returns (dkey: Dkey, rec: nat, numRecords: nat)
    requires arr.Valid()
    ensures Place(dkey, rec) == Locate(arr, idx) && numRecords == Left(arr, idx)
  {
    ghost var q, o := idx / arr.block, idx % arr.block;
    ghost var w := BlockInGroup(arr, q);
    InGroup(arr.block, arr.blocks, arr.dkeys, idx);
    var grpSize := arr.block * arr.blocks * arr.dkeys;
    var dkeyGrp := idx / grpSize;
    DivMod(idx, grpSize);
    var rel := idx - dkeyGrp * grpSize;
    InTurn(arr.block, arr.dkeys, w, o);
    var grpChunk := arr.block * arr.dkeys;
    var dkeyNum := rel / arr.block % arr.dkeys;
    var grpIter := rel / grpChunk;
    var dkeyIdx := grpIter * grpChunk + dkeyNum * arr.block;
    Remaining(arr.block, grpIter, o);
    rec := arr.block * grpIter + (rel - dkeyIdx);
    numRecords := (grpIter + 1) * arr.block - rec;
    dkey := Dkey(dkeyGrp, dkeyNum);
  }

  ghost function BlockInGroup(arr: Array, q: nat): nat
    requires arr.Valid()
  {
    Product(arr.dkeys, arr.blocks);
    q % (arr.dkeys * arr.blocks)
  }
}
