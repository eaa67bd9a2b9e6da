/** Node-level routines: each takes the nodes it changes and returns their new contents. */
module BTreeNode {
  import opened BTreeShape

  /** A tree node: `recs` is the whole buffer of `order` slots, of which the first
      `keyn` are in use; `child` is unused in a leaf. */
  datatype Node = Node(leaf: bool, root: bool, keyn: nat, child: Mmid, recs: seq<Record>)

  /** The slots in use. */
  ghost function Live(n: Node): (live: seq<Record>)
    requires n.keyn <= |n.recs|
    ensures |live| == n.keyn
  {
    n.recs[..n.keyn]
  }

  lemma LiveAt(n: Node, i: nat)
    requires i < n.keyn <= |n.recs|
    ensures Live(n)[i] == n.recs[i]
  {
  }

  /** memmove inside a buffer. */
  function RecMove(recs: seq<Record>, dst: nat, src: nat, nr: nat): (r: seq<Record>)
    requires src + nr <= |recs| && dst + nr <= |recs|
    ensures |r| == |recs| && r[..dst] == recs[..dst] && r[dst..dst + nr] == recs[src..src + nr]
  {
    recs[..dst] + recs[src..src + nr] + recs[dst + nr..]
  }

  /** memcpy from one buffer to another. */
  function RecCopy(to: seq<Record>, dst: nat, from: seq<Record>, src: nat, nr: nat): (r: seq<Record>)
    requires src + nr <= |from| && dst + nr <= |to|
    ensures |r| == |to| && r[..dst] == to[..dst] && r[dst..dst + nr] == from[src..src + nr]
  {
    to[..dst] + from[src..src + nr] + to[dst + nr..]
  }

  function InsertAt<T>(s: seq<T>, at: nat, x: T): (r: seq<T>)
    requires at <= |s|
    ensures |r| == |s| + 1 && r[at] == x
  {
    s[..at] + [x] + s[at..]
  }

  function RemoveAt<T>(s: seq<T>, at: nat): seq<T>
    requires at < |s|
  {
    s[..at] + s[at + 1..]
  }

  /** Inserting left of a cut moves the cut by one. */
  lemma InsertLeftOf<T>(s: seq<T>, at: nat, x: T, cut: nat)
    requires at <= cut < |s|
    ensures var big := InsertAt(s, at, x);
            big[..cut + 1] == InsertAt(s[..cut], at, x) && big[cut + 1] == s[cut] && big[cut + 2..] == s[cut + 1..]
  {
  }

  /** Inserting at a cut, or right of it, leaves the left part alone. */
  lemma InsertRightOf<T>(s: seq<T>, at: nat, x: T, cut: nat)
    requires cut <= at <= |s|
    ensures var big := InsertAt(s, at, x);
            && big[..cut] == s[..cut]
            && big[cut] == (if cut == at then x else s[cut])
            && big[cut + 1..] == if cut == at then s[cut..] else InsertAt(s[cut + 1..], at - cut - 1, x)
  {
  }

  lemma SplitLeftOf<T>(s: seq<T>, at: nat, x: T, cut: nat)
    requires at <= cut <= |s|
    ensures InsertAt(s, at, x)[..cut + 1] == InsertAt(s[..cut], at, x)
    ensures InsertAt(s, at, x)[cut + 1..] == s[cut..]
  {
  }

  lemma SplitRightOf<T>(s: seq<T>, at: nat, x: T, cut: nat)
    requires cut <= at <= |s|
    ensures InsertAt(s, at, x)[..cut] == s[..cut]
    ensures InsertAt(s, at, x)[cut..] == InsertAt(s[cut..], at - cut, x)
  {
  }

  predicate Sized(n: Node, order: nat) {
    |n.recs| == order && n.keyn <= order
  }

  /** Child `at` of an inner node; there is one more child than keys. */
  function ChildAt(nd: Node, at: nat): Mmid
    requires at <= nd.keyn <= |nd.recs|
  {
    if at == 0 then nd.child else nd.recs[at - 1].mmid
  }

  /** Shift the slots from `at` on and store `rec` there. */
  method InsertRecOnly(nd: Node, at: nat, rec: Record) returns (r: Node)
    requires at <= nd.keyn < |nd.recs|
    ensures r == nd.(keyn := nd.keyn + 1, recs := r.recs) && |r.recs| == |nd.recs|
    ensures Live(r) == InsertAt(Live(nd), at, rec)
  {
    var recs := nd.recs;
    if at != nd.keyn {
      recs := RecMove(recs, at + 1, at, nd.keyn - at);
    }
    recs := recs[at := rec];
    r := nd.(keyn := nd.keyn + 1, recs := recs);
    assert Live(r) == InsertAt(Live(nd), at, rec);
  }

  /** Where a full node splits once the new record is in place: a leaf keeps `m`
      records on the left, an inner node keeps `m` keys and sends key `m` up. */
  function SplitPoint(order: nat, leaf: bool, at: nat): nat {
    if leaf && at < order / 2 then order / 2 + 1 else order / 2
  }

  /** The node `n` with `rec` inserted at `at`, cut into `l` and `r` with `up` between them. */
  ghost predicate SplitInto(order: nat, n: Node, at: nat, rec: Record, l: Node, r: Node, up: int) {
    && Sized(n, order) && Sized(l, order) && Sized(r, order)
    && at <= n.keyn == order - 1
    && l == n.(keyn := l.keyn, recs := l.recs)
    && r.leaf == n.leaf && !r.root
    && var big, m := InsertAt(Live(n), at, rec), SplitPoint(order, n.leaf, at);
    && m < order
    && Live(l) == big[..m] && up == big[m].hkey
    && (if n.leaf then Live(r) == big[m..] else Live(r) == big[m + 1..] && r.child == big[m].mmid)
  }

  /** Copy the records of `src` from slot `at` on into the empty node `dst`. */
  method CopyTail(dst: Node, src: Node, at: nat) returns (r: Node)
    requires at <= src.keyn <= |src.recs| == |dst.recs|
    ensures r == dst.(keyn := src.keyn - at, recs := r.recs) && |r.recs| == |dst.recs|
    ensures Live(r) == Live(src)[at..]
  {
    r := dst.(keyn := src.keyn - at, recs := RecCopy(dst.recs, 0, src.recs, at, src.keyn - at));
    assert Live(r) == Live(src)[at..];
  }

  /** Keep the first `cut` records. */
  method Truncate(nd: Node, cut: nat) returns (r: Node)
    requires cut <= nd.keyn <= |nd.recs|
    ensures r == nd.(keyn := cut) && Live(r) == Live(nd)[..cut]
  {
    r := nd.(keyn := cut);
    assert Live(r) == Live(nd)[..cut];
  }

  /** Split a full leaf, inserting `rec`, into itself and the empty leaf `blank`. */
  method SplitLeaf(order: nat, nd: Node, blank: Node, at: nat, rec: Record)
    returns (l: Node, r: Node, toRight: bool, pos: nat, hkey: int)
    requires order >= 3 && Sized(nd, order) && Sized(blank, order) && at <= nd.keyn == order - 1
    requires nd.leaf && blank.leaf && !blank.root
    ensures SplitInto(order, nd, at, rec, l, r, hkey)
    ensures toRight == (at >= order / 2) && var into := if toRight then r else l;
            pos < into.keyn && Live(into)[pos] == rec
  {
    hide Live, InsertAt, RecCopy, RecMove;
    var splitAt := order / 2;
    toRight := at >= splitAt;
    r := CopyTail(blank, nd, splitAt);
    l := Truncate(nd, splitAt);
    pos := if toRight then at - splitAt else at;
    if toRight {
      r := InsertRecOnly(r, pos, rec);
      SplitRightOf(Live(nd), at, rec, splitAt);
    } else {
      l := InsertRecOnly(l, at, rec);
      SplitLeftOf(Live(nd), at, rec, splitAt);
    }
    hkey := r.recs[0].hkey;
    LiveAt(r, 0);
  }

  /** Split a full inner node, inserting `rec`, into itself and the empty node `blank`;
      one key leaves both nodes and goes up. */
  method SplitInner(order: nat, nd: Node, blank: Node, at: nat, rec: Record)
    returns (l: Node, r: Node, toRight: bool, pos: nat, hkey: int)
    requires order >= 3 && Sized(nd, order) && Sized(blank, order) && at <= nd.keyn == order - 1
    requires !nd.leaf && !blank.leaf && !blank.root
    ensures SplitInto(order, nd, at, rec, l, r, hkey)
    ensures toRight == (at >= order / 2)
    ensures var into := if toRight then r else l;
            (pos < into.keyn && Live(into)[pos] == rec) ||
              (toRight && pos == 0 && r.child == rec.mmid && hkey == rec.hkey)
  {
    hide Live, InsertAt, RecCopy, RecMove;
    toRight := at >= order / 2;
    var splitAt := if toRight then order / 2 else order / 2 - 1;
    l := Truncate(nd, splitAt);
    pos := if toRight then at - splitAt else at;
    if toRight && pos == 0 {
      // the new record is the first one on the right node: its key goes up
      r := CopyTail(blank.(child := rec.mmid), nd, splitAt);
      hkey := rec.hkey;
      InsertRightOf(Live(nd), at, rec, splitAt);
    } else {
      // the first key of the right node goes up
      r := CopyTail(blank.(child := nd.recs[splitAt].mmid), nd, splitAt + 1);
      hkey := nd.recs[splitAt].hkey;
      LiveAt(nd, splitAt);
      if toRight {
        pos := pos - 1;
        r := InsertRecOnly(r, pos, rec);
        InsertRightOf(Live(nd), at, rec, splitAt);
      } else {
        l := InsertRecOnly(l, at, rec);
        InsertLeftOf(Live(nd), at, rec, splitAt);
      }
    }
  }

  // ---------------------------------------------------------------------------
  // Search
  // ---------------------------------------------------------------------------

  /** Half of `x`, rounded towards zero. */
  function TruncHalf(x: int): (h: int)
    ensures x >= 0 ==> 2 * h <= x <= 2 * h + 1
    ensures x == -1 ==> h == 0
  {
    if x >= 0 then x / 2 else -((-x) / 2)
  }

  /** `cmp` compares the record at `at` with `hkey`, and its neighbours lie as expected. */
  ghost predicate Located(recs: seq<Record>, hkey: int, at: nat, cmp: int) {
    && at < |recs|
    && (cmp == 0 ==> recs[at].hkey == hkey)
    && (cmp < 0 ==>
          (forall j :: 0 <= j <= at ==> recs[j].hkey < hkey) && (forall j :: at < j < |recs| ==> recs[j].hkey > hkey))
    && (cmp > 0 ==>
          (forall j :: 0 <= j < at ==> recs[j].hkey < hkey) && (forall j :: at <= j < |recs| ==> recs[j].hkey > hkey))
  }

  /** Binary search for `hkey`: the slot it ends at and how that slot's key compares. */
  method Search(nd: Node, hkey: int) returns (at: nat, cmp: int)
    requires 1 <= nd.keyn <= |nd.recs| && Ascending(Live(nd))
    ensures Located(Live(nd), hkey, at, cmp)
  {
    var start, end := 0, nd.keyn - 1;
    while true
      invariant 0 <= start <= end + 1 <= nd.keyn && start < nd.keyn
      invariant forall j :: 0 <= j < start ==> Live(nd)[j].hkey < hkey
      invariant forall j :: end < j < nd.keyn ==> Live(nd)[j].hkey > hkey
      decreases end - start + 1
    {
      at := TruncHalf(start + end);
      cmp := nd.recs[at].hkey - hkey;
      assert nd.recs[at] == Live(nd)[at];
      if start < end && cmp != 0 {
        if cmp < 0 {
          start := at + 1;
        } else {
          end := at - 1;
        }
      } else {
        break;
      }
    }
  }

  // ---------------------------------------------------------------------------
  // Deletion from a leaf
  // ---------------------------------------------------------------------------

  /** Delete the record at `at`, closing the gap from the right (`shiftLeft`) or from
      the left, which frees slot 0. */
  method DelLeafOnly(nd: Node, at: nat, shiftLeft: bool) returns (r: Node)
    requires at < nd.keyn <= |nd.recs|
    ensures r == nd.(keyn := nd.keyn - 1, recs := r.recs) && |r.recs| == |nd.recs|
    ensures shiftLeft ==> Live(r) == RemoveAt(Live(nd), at)
    ensures !shiftLeft ==> r.recs[1..nd.keyn] == RemoveAt(Live(nd), at)
  {
    var keyn := nd.keyn - 1;
    var recs := nd.recs;
    if shiftLeft && at != keyn {
      recs := RecMove(recs, at, at + 1, keyn - at);
    } else if !shiftLeft && at != 0 {
      recs := RecMove(recs, 1, 0, at);
    }
    r := nd.(keyn := keyn, recs := recs);
    if shiftLeft {
      assert Live(r) == RemoveAt(Live(nd), at);
    } else {
      assert r.recs[1..at + 1] == Live(nd)[..at];
      assert r.recs[at + 1..nd.keyn] == Live(nd)[at + 1..];
      assert r.recs[1..nd.keyn] == r.recs[1..at + 1] + r.recs[at + 1..nd.keyn];
    }
  }

  /** Give away the first record. */
  method DropFirst(nd: Node) returns (r: Node)
    requires 0 < nd.keyn <= |nd.recs|
    ensures r == nd.(keyn := nd.keyn - 1, recs := r.recs) && |r.recs| == |nd.recs|
    ensures Live(r) == Live(nd)[1..]
  {
    r := nd.(keyn := nd.keyn - 1, recs := RecMove(nd.recs, 0, 1, nd.keyn - 1));
    assert Live(r) == Live(nd)[1..];
  }

  /** Store `rec` behind the last record. */
  method PutLast(nd: Node, rec: Record) returns (r: Node)
    requires nd.keyn < |nd.recs|
    ensures r == nd.(keyn := nd.keyn + 1, recs := r.recs) && |r.recs| == |nd.recs|
    ensures Live(r) == Live(nd) + [rec]
  {
    r := nd.(keyn := nd.keyn + 1, recs := nd.recs[nd.keyn := rec]);
    assert Live(r) == Live(nd) + [rec];
  }

  /** Store `rec` in the free slot 0. */
  method PutFirst(nd: Node, rec: Record) returns (r: Node)
    requires nd.keyn < |nd.recs|
    ensures r == nd.(keyn := nd.keyn + 1, recs := r.recs) && |r.recs| == |nd.recs|
    ensures Live(r) == [rec] + nd.recs[1..nd.keyn + 1]
  {
    r := nd.(keyn := nd.keyn + 1, recs := nd.recs[0 := rec]);
    assert Live(r) == [rec] + nd.recs[1..nd.keyn + 1];
  }

  /** Append the records of `src` to `dst`, leaving `src` empty. */
  method Drain(dst: Node, src: Node) returns (d: Node, s: Node)
    requires dst.keyn + src.keyn <= |dst.recs| && src.keyn <= |src.recs|
    ensures d == dst.(keyn := dst.keyn + src.keyn, recs := d.recs) && |d.recs| == |dst.recs|
    ensures Live(d) == Live(dst) + Live(src)
    ensures s == src.(keyn := 0)
  {
    d := dst.(keyn := dst.keyn + src.keyn, recs := RecCopy(dst.recs, dst.keyn, src.recs, 0, src.keyn));
    assert d.recs[..dst.keyn + src.keyn] == d.recs[..dst.keyn] + d.recs[dst.keyn..dst.keyn + src.keyn];
    s := src.(keyn := 0);
  }

  ghost predicate LeafRebalanced(cur: Node, sib: Node, at: nat, sibOnRight: bool, c: Node, s: Node, hkey: int) {
    && at < cur.keyn <= |cur.recs| && 1 < sib.keyn <= |sib.recs|
    && c == cur.(recs := c.recs) && |c.recs| == |cur.recs|
    && s == sib.(keyn := sib.keyn - 1, recs := s.recs) && |s.recs| == |sib.recs|
    && (if sibOnRight then
          && Live(c) == RemoveAt(Live(cur), at) + [Live(sib)[0]]
          && Live(s) == Live(sib)[1..] && hkey == Live(sib)[1].hkey
        else
          && Live(c) == [Live(sib)[sib.keyn - 1]] + RemoveAt(Live(cur), at)
          && Live(s) == Live(sib)[..sib.keyn - 1] && hkey == Live(sib)[sib.keyn - 1].hkey)
  }

  /** Delete a record and take one from the sibling; `hkey` is the new separator. */
  method DelLeafRebal(cur: Node, sib: Node, at: nat, sibOnRight: bool) returns (c: Node, s: Node, hkey: int)
    requires at < cur.keyn <= |cur.recs| && 1 < sib.keyn <= |sib.recs|
    ensures LeafRebalanced(cur, sib, at, sibOnRight, c, s, hkey)
  {
    c := DelLeafOnly(cur, at, sibOnRight);
    if sibOnRight {
      c := PutLast(c, sib.recs[0]);
      s := DropFirst(sib);
      hkey := s.recs[0].hkey;
      assert hkey == Live(s)[0].hkey;
    } else {
      c := PutFirst(c, sib.recs[sib.keyn - 1]);
      hkey := c.recs[0].hkey;
      assert hkey == Live(c)[0].hkey;
      s := Truncate(sib, sib.keyn - 1);
    }
  }

  /** The left node of the pair, `l`, holds everything and the right one, `r`, nothing. */
  ghost predicate LeafMerged(cur: Node, sib: Node, at: nat, sibOnRight: bool, c: Node, s: Node) {
    && at < cur.keyn <= |cur.recs| && sib.keyn <= |sib.recs| == |cur.recs|
    && |c.recs| == |s.recs| == |cur.recs|
    && c == cur.(keyn := c.keyn, recs := c.recs) && s == sib.(keyn := s.keyn, recs := s.recs)
    && (if sibOnRight then
          s.keyn == 0 && c.keyn <= |c.recs| && Live(c) == RemoveAt(Live(cur), at) + Live(sib)
        else
          c.keyn == 0 && s.keyn <= |s.recs| && Live(s) == Live(sib) + RemoveAt(Live(cur), at))
  }

  /** Delete a record and merge the right node of the pair into the left one. */
  method DelLeafMerge(cur: Node, sib: Node, at: nat, sibOnRight: bool) returns (c: Node, s: Node)
    requires at < cur.keyn <= |cur.recs| && sib.keyn <= |sib.recs|
    requires cur.keyn + sib.keyn <= |cur.recs| == |sib.recs|
    ensures LeafMerged(cur, sib, at, sibOnRight, c, s)
  {
    c := DelLeafOnly(cur, at, true);
    if sibOnRight {
      c, s := Drain(c, sib);
    } else {
      if c.keyn != 0 {
        s, c := Drain(sib, c);
      } else { // current node is empty
        s := sib;
        assert Live(s) == Live(sib) + RemoveAt(Live(cur), at);
      }
    }
  }

  // ---------------------------------------------------------------------------
  // Deletion from an inner node
  // ---------------------------------------------------------------------------

  /** First child and slots of an inner node once child `at` is gone. */
  ghost function WithoutChild(child: Mmid, live: seq<Record>, at: nat): (Mmid, seq<Record>)
    requires at <= |live| && live != []
  {
    if at == 0 then (live[0].mmid, live[1..]) else (child, RemoveAt(live, at - 1))
  }

  /** Close the gap of child `at` from the right. */
  method ShiftChildrenLeft(nd: Node, at: nat) returns (r: Node)
    requires 0 < nd.keyn <= |nd.recs| && at <= nd.keyn
    ensures r == nd.(keyn := nd.keyn - 1, child := r.child, recs := r.recs) && |r.recs| == |nd.recs|
    ensures (r.child, Live(r)) == WithoutChild(nd.child, Live(nd), at)
  {
    var keyn := nd.keyn - 1;
    var child, recs, slot := nd.child, nd.recs, at;
    if at == 0 {
      child := recs[0].mmid;
    } else {
      slot := at - 1;
    }
    if slot != keyn {
      recs := RecMove(recs, slot, slot + 1, keyn - slot);
    }
    r := nd.(keyn := keyn, child := child, recs := recs);
    assert Live(r) == RemoveAt(Live(nd), slot);
  }

  /** Close the gap of child `at` from the left, which frees the first child and the key of slot 0. */
  method ShiftChildrenRight(nd: Node, at: nat) returns (r: Node)
    requires 0 < nd.keyn <= |nd.recs| && at <= nd.keyn
    ensures r == nd.(keyn := nd.keyn - 1, child := r.child, recs := r.recs) && |r.recs| == |nd.recs|
    ensures (r.recs[0].mmid, r.recs[1..nd.keyn]) == WithoutChild(nd.child, Live(nd), at)
  {
    var recs := nd.recs;
    if at != 0 {
      if at > 1 {
        recs := RecMove(recs, 1, 0, at - 1);
      }
      recs := recs[0 := recs[0].(mmid := nd.child)];
      assert recs[1..at] == nd.recs[..at - 1];
      assert recs[at..nd.keyn] == nd.recs[at..nd.keyn];
      assert recs[1..nd.keyn] == recs[1..at] + recs[at..nd.keyn];
    }
    r := nd.(keyn := nd.keyn - 1, recs := recs);
    assert r.recs[1..nd.keyn] == WithoutChild(nd.child, Live(nd), at).1;
  }

  /** Delete child `at`, closing the gap from the right (`shiftLeft`) or from the left. */
  method DelChildOnly(nd: Node, at: nat, shiftLeft: bool) returns (r: Node)
    requires 0 < nd.keyn <= |nd.recs| && at <= nd.keyn
    ensures r == nd.(keyn := nd.keyn - 1, child := r.child, recs := r.recs) && |r.recs| == |nd.recs|
    ensures shiftLeft ==> (r.child, Live(r)) == WithoutChild(nd.child, Live(nd), at)
    ensures !shiftLeft ==> (r.recs[0].mmid, r.recs[1..nd.keyn]) == WithoutChild(nd.child, Live(nd), at)
  {
    if shiftLeft {
      r := ShiftChildrenLeft(nd, at);
    } else {
      r := ShiftChildrenRight(nd, at);
    }
  }

  ghost predicate ChildRebalanced(cur: Node, sib: Node, at: nat, sibOnRight: bool, parKey: int, c: Node, s: Node,
      hkey: int) {
    && 0 < cur.keyn <= |cur.recs| && at <= cur.keyn && 1 < sib.keyn <= |sib.recs|
    && c == cur.(child := c.child, recs := c.recs) && |c.recs| == |cur.recs|
    && s == sib.(keyn := sib.keyn - 1, child := s.child, recs := s.recs) && |s.recs| == |sib.recs|
    && var (first, l) := WithoutChild(cur.child, Live(cur), at);
    if sibOnRight then
      && c.child == first && Live(c) == l + [Record(parKey, sib.child)]
      && s.child == Live(sib)[0].mmid && Live(s) == Live(sib)[1..] && hkey == Live(sib)[0].hkey
    else
      && c.child == Live(sib)[sib.keyn - 1].mmid && Live(c) == [Record(parKey, first)] + l
      && s.child == sib.child && Live(s) == Live(sib)[..sib.keyn - 1]
      && hkey == Live(sib)[sib.keyn - 1].hkey
  }

  /** Delete a child and take one from the sibling, through the separator `parKey`. */
  method DelChildRebal(cur: Node, sib: Node, at: nat, sibOnRight: bool, parKey: int)
    returns (c: Node, s: Node, hkey: int)
    requires 0 < cur.keyn <= |cur.recs| && at <= cur.keyn && 1 < sib.keyn <= |sib.recs|
    ensures ChildRebalanced(cur, sib, at, sibOnRight, parKey, c, s, hkey)
  {
    c := DelChildOnly(cur, at, sibOnRight);
    if sibOnRight {
      c := PutLast(c, Record(parKey, sib.child));
      hkey := sib.recs[0].hkey;
      s := DropFirst(sib.(child := sib.recs[0].mmid));
    } else {
      var src := sib.recs[sib.keyn - 1];
      c := PutFirst(c, Record(parKey, c.recs[0].mmid));
      c := c.(child := src.mmid);
      hkey := src.hkey;
      s := Truncate(sib, sib.keyn - 1);
    }
  }

  ghost predicate ChildMerged(cur: Node, sib: Node, at: nat, sibOnRight: bool, parKey: int, c: Node, s: Node) {
    && 0 < cur.keyn <= |cur.recs| && at <= cur.keyn && sib.keyn <= |sib.recs| == |cur.recs|
    && |c.recs| == |s.recs| == |cur.recs|
    && c == cur.(keyn := c.keyn, child := c.child, recs := c.recs) && s == sib.(keyn := s.keyn, recs := s.recs)
    && var (first, l) := WithoutChild(cur.child, Live(cur), at);
    if sibOnRight then
      && s.keyn == 0 && c.keyn <= |c.recs| && c.child == first
      && Live(c) == l + [Record(parKey, sib.child)] + Live(sib)
    else
      && c.keyn == 0 && s.keyn <= |s.recs|
      && Live(s) == Live(sib) + [Record(parKey, first)] + l
  }

  /** Delete a child and merge the right node of the pair into the left one; the
      separator `parKey` comes down between them. */
  method DelChildMerge(cur: Node, sib: Node, at: nat, sibOnRight: bool, parKey: int) returns (c: Node, s: Node)
    requires 0 < cur.keyn <= |cur.recs| && at <= cur.keyn && sib.keyn <= |sib.recs|
    requires cur.keyn + sib.keyn <= |cur.recs| == |sib.recs|
    ensures ChildMerged(cur, sib, at, sibOnRight, parKey, c, s)
  {
    c := DelChildOnly(cur, at, true);
    if sibOnRight {
      c := PutLast(c, Record(parKey, sib.child));
      c, s := Drain(c, sib);
    } else {
      s := PutLast(sib, Record(parKey, c.child));
      s, c := Drain(s, c);
    }
  }
}
