/** Scatter/gather lists, and cutting off the part that one I/O uses. */
module ArraySgl {
  import opened ArrayDkey

  /** A piece of memory: `len` bytes from address `buf` on. */
  datatype Iov = Iov(buf: nat, len: nat)

  function Interval(a: nat, n: nat): (s: seq<nat>)
    ensures |s| == n && forall j :: 0 <= j < n ==> s[j] == a + j
  {
    seq(n, j => a + j)
  }

  lemma IntervalSplit(a: nat, m: nat, n: nat)
    ensures Interval(a, m + n) == Interval(a, m) + Interval(a + m, n)
  {
  }

  /** The addresses a list runs through, in order. */
  ghost function Bytes(iovs: seq<Iov>): seq<nat> {
    if iovs == [] then [] else Interval(iovs[0].buf, iovs[0].len) + Bytes(iovs[1..])
  }

  ghost function Size(iovs: seq<Iov>): nat {
    |Bytes(iovs)|
  }

  lemma {:induction false} BytesAppend(a: seq<Iov>, b: seq<Iov>)
    ensures Bytes(a + b) == Bytes(a) + Bytes(b)
  {
    if a == [] {
      assert a + b == b;
    } else {
      assert (a + b)[1..] == a[1..] + b;
      BytesAppend(a[1..], b);
    }
  }

  lemma BytesOne(v: Iov)
    ensures Bytes([v]) == Interval(v.buf, v.len)
  {
    assert Bytes([v][1..]) == [];
  }

  /** What the user's list still holds at byte `off` of buffer `i`. */
  ghost function Tail(user: seq<Iov>, i: nat, off: nat): seq<Iov>
    requires i < |user| ==> off <= user[i].len
  {
    if i < |user| then [Iov(user[i].buf + off, user[i].len - off)] + user[i + 1..] else []
  }

  // ---------------------------------------------------------------------------
  // How much is cut off
  // ---------------------------------------------------------------------------

  /** How many bytes go to an I/O of `rem` records of `cell` bytes: buffers are taken
      whole as long as they fit, and each counts only for the whole records in it. */
  ghost function Taken(iovs: seq<Iov>, cell: nat, rem: nat): nat
    requires cell > 0
    decreases iovs
  {
    if iovs == [] || rem == 0 then 0
    else if rem * cell >= iovs[0].len then
      WholeFits(iovs[0].len, cell, rem);
      iovs[0].len + Taken(iovs[1..], cell, rem - iovs[0].len / cell)
    else rem * cell
  }

  /** What is left afterwards. */
  ghost function Untaken(iovs: seq<Iov>, cell: nat, rem: nat): seq<Iov>
    requires cell > 0
    decreases iovs
  {
    if iovs == [] || rem == 0 then iovs
    else if rem * cell >= iovs[0].len then
      WholeFits(iovs[0].len, cell, rem);
      Untaken(iovs[1..], cell, rem - iovs[0].len / cell)
    else
      [Iov(iovs[0].buf + rem * cell, iovs[0].len - rem * cell)] + iovs[1..]
  }

  lemma WholeFits(len: nat, cell: nat, rem: nat)
    requires cell > 0 && rem * cell >= len
    ensures len / cell <= rem
    ensures (rem - len / cell) * cell == rem * cell - len + len % cell
  {
    DivMod(len, cell);
    var c := len / cell;
    assert (rem - c) * cell == rem * cell - c * cell;
    if c > rem {
      assert c * cell == (c - rem) * cell + rem * cell;
      Grows(c - rem, cell);
    }
  }

  /** The first `m` bytes of the first buffer, and the rest. */
  lemma CutFirst(iovs: seq<Iov>, m: nat)
    requires iovs != [] && m <= iovs[0].len
    ensures var v := iovs[0]; var rest := [Iov(v.buf + m, v.len - m)] + iovs[1..];
            Bytes(iovs) == Interval(v.buf, m) + Bytes(rest) && m <= Size(iovs) && Bytes(rest) == Bytes(iovs)[m..]
  {
    var v := iovs[0];
    var rest := [Iov(v.buf + m, v.len - m)] + iovs[1..];
    assert rest[1..] == iovs[1..];
    IntervalSplit(v.buf, m, v.len - m);
    Reassociate(Interval(v.buf, m), Interval(v.buf + m, v.len - m), Bytes(iovs[1..]));
  }

  lemma DropMore<T>(s: seq<T>, m: nat, n: nat)
    requires m + n <= |s|
    ensures s[m..][n..] == s[m + n..]
  {
  }

  ghost predicate Fits(len: nat, cell: nat, rem: nat) {
    rem * cell >= len
  }

  /** A first buffer that fits is taken whole, `next` records being left to take. */
  lemma TakenFirst(iovs: seq<Iov>, cell: nat, rem: nat) returns (next: nat)
    requires cell > 0 && iovs != [] && rem > 0 && Fits(iovs[0].len, cell, rem)
    ensures Taken(iovs, cell, rem) == iovs[0].len + Taken(iovs[1..], cell, next)
    ensures Untaken(iovs, cell, rem) == Untaken(iovs[1..], cell, next)
  {
    WholeFits(iovs[0].len, cell, rem);
    next := rem - iovs[0].len / cell;
  }

  lemma TakenPart(iovs: seq<Iov>, cell: nat, rem: nat)
    requires cell > 0 && iovs != [] && rem > 0 && !Fits(iovs[0].len, cell, rem)
    ensures var t := Taken(iovs, cell, rem); t <= Size(iovs) && Bytes(Untaken(iovs, cell, rem)) == Bytes(iovs)[t..]
  {
    CutFirst(iovs, rem * cell);
  }

  lemma TakenNone(iovs: seq<Iov>, cell: nat, rem: nat)
    requires cell > 0 && (iovs == [] || rem == 0)
    ensures Taken(iovs, cell, rem) == 0 && Untaken(iovs, cell, rem) == iovs
  {
  }

  lemma DropFirst(iovs: seq<Iov>, t: nat)
    requires iovs != [] && t <= Size(iovs[1..])
    ensures iovs[0].len + t <= Size(iovs) && Bytes(iovs)[iovs[0].len + t..] == Bytes(iovs[1..])[t..]
  {
    assert Bytes(iovs)[iovs[0].len..] == Bytes(iovs[1..]);
    DropMore(Bytes(iovs), iovs[0].len, t);
  }

  lemma {:induction false} TakenBytes(iovs: seq<Iov>, cell: nat, rem: nat)
    requires cell > 0
    ensures var t := Taken(iovs, cell, rem); t <= Size(iovs) && Bytes(Untaken(iovs, cell, rem)) == Bytes(iovs)[t..]
    decreases iovs
  {
    hide Taken, Untaken, Bytes, Fits;
    if iovs == [] || rem == 0 {
      TakenNone(iovs, cell, rem);
    } else if Fits(iovs[0].len, cell, rem) {
      var next := TakenFirst(iovs, cell, rem);
      TakenBytes(iovs[1..], cell, next);
      DropFirst(iovs, Taken(iovs[1..], cell, next));
    } else {
      TakenPart(iovs, cell, rem);
    }
  }

  // ---------------------------------------------------------------------------
  // Alignment
  // ---------------------------------------------------------------------------

  /** No buffer ends inside a record before byte `limit`. */
  ghost predicate Aligned(iovs: seq<Iov>, cell: nat, limit: nat)
    requires cell > 0
  {
    || iovs == [] || limit <= iovs[0].len
    || (iovs[0].len % cell == 0 && Aligned(iovs[1..], cell, limit - iovs[0].len))
  }

  /** Buffer boundaries are sums of buffer lengths. */
  lemma {:induction false} AlignedIs(iovs: seq<Iov>, cell: nat, limit: nat)
    requires cell > 0
    ensures Aligned(iovs, cell, limit) <==> forall k :: 0 <= k <= |iovs| && Size(iovs[..k]) < limit ==>
            Size(iovs[..k]) % cell == 0
  {
    if iovs != [] {
      var v := iovs[0];
      forall k | 0 < k <= |iovs| ensures Size(iovs[..k]) == v.len + Size(iovs[1..][..k - 1]) {
        assert iovs[..k][1..] == iovs[1..][..k - 1];
      }
      assert Size(iovs[..1]) == v.len by { assert iovs[1..][..0] == []; }
      if limit > v.len {
        AlignedIs(iovs[1..], cell, limit - v.len);
        if v.len % cell == 0 {
          forall k | 0 < k <= |iovs| ensures Size(iovs[..k]) % cell == Size(iovs[1..][..k - 1]) % cell {
            ModAdd(v.len, Size(iovs[1..][..k - 1]), cell);
          }
          if Aligned(iovs, cell, limit) {
            forall k | 0 <= k <= |iovs| && Size(iovs[..k]) < limit ensures Size(iovs[..k]) % cell == 0 {
              if k > 0 { assert Size(iovs[1..][..k - 1]) < limit - v.len; } else { assert iovs[..0] == []; }
            }
          } else {
            var k :| 0 <= k <= |iovs[1..]| && Size(iovs[1..][..k]) < limit - v.len && Size(iovs[1..][..k]) % cell != 0;
            assert Size(iovs[..k + 1]) % cell != 0;
          }
        }
      }
    } else {
      assert iovs[..0] == [];
    }
  }

  lemma ModAdd(a: nat, b: nat, cell: nat)
    requires cell > 0 && a % cell == 0
    ensures (a + b) % cell == b % cell
  {
    DivMod(a, cell);
    DivMod(b, cell);
    assert (a / cell + b / cell) * cell == (a / cell) * cell + (b / cell) * cell;
    Quotient(a + b, cell, a / cell + b / cell, b % cell);
  }

  /** Cutting on a record boundary takes what it should. */
  lemma {:induction false} TakenAligned(iovs: seq<Iov>, cell: nat, rem: nat)
    requires cell > 0 && Aligned(iovs, cell, rem * cell) && Size(iovs) >= rem * cell
    ensures Taken(iovs, cell, rem) == rem * cell
    decreases iovs
  {
    if iovs == [] || rem == 0 {
    } else if rem * cell >= iovs[0].len {
      WholeFits(iovs[0].len, cell, rem);
      if rem * cell > iovs[0].len {
        TakenAligned(iovs[1..], cell, rem - iovs[0].len / cell);
      } else {
        Exact(iovs[0].len, cell, rem);
      }
    }
  }

  lemma Exact(len: nat, cell: nat, rem: nat)
    requires cell > 0 && len == rem * cell
    ensures len / cell == rem && len % cell == 0
  {
    Quotient(len, cell, rem, 0);
  }

  /** The last I/O takes all that is there, however it is cut. */
  lemma {:induction false} TakenLast(iovs: seq<Iov>, cell: nat, rem: nat)
    requires cell > 0 && Size(iovs) <= rem * cell
    ensures Taken(iovs, cell, rem) == Size(iovs)
    decreases iovs
  {
    if iovs != [] && rem > 0 {
      WholeFits(iovs[0].len, cell, rem);
      TakenLast(iovs[1..], cell, rem - iovs[0].len / cell);
    }
  }

  lemma {:induction false} TakenAtLeast(iovs: seq<Iov>, cell: nat, rem: nat)
    requires cell > 0
    ensures Taken(iovs, cell, rem) >= rem * cell || Taken(iovs, cell, rem) == Size(iovs)
    decreases iovs
  {
    if iovs != [] && rem > 0 && rem * cell >= iovs[0].len {
      WholeFits(iovs[0].len, cell, rem);
      TakenAtLeast(iovs[1..], cell, rem - iovs[0].len / cell);
    }
  }

  /** A boundary inside a record makes any I/O but the last take too much. */
  lemma {:induction false} TakenMisaligned(iovs: seq<Iov>, cell: nat, rem: nat)
    requires cell > 0 && !Aligned(iovs, cell, rem * cell) && Size(iovs) > rem * cell
    ensures Taken(iovs, cell, rem) > rem * cell
    decreases iovs
  {
    var len := iovs[0].len;
    WholeFits(len, cell, rem);
    var rem' := rem - len / cell;
    if len % cell == 0 {
      TakenMisaligned(iovs[1..], cell, rem');
    } else {
      TakenAtLeast(iovs[1..], cell, rem');
    }
  }

  /** Alignment further on is alignment of what is left. */
  lemma {:induction false} AlignedSplit(iovs: seq<Iov>, cell: nat, rem: nat, more: nat)
    requires cell > 0 && Aligned(iovs, cell, rem * cell)
    ensures Aligned(iovs, cell, rem * cell + more) <==> Aligned(Untaken(iovs, cell, rem), cell, more)
    decreases iovs
  {
    if iovs != [] && rem > 0 {
      var len := iovs[0].len;
      if rem * cell > len {
        WholeFits(len, cell, rem);
        AlignedSplit(iovs[1..], cell, rem - len / cell, more);
      } else if rem * cell == len {
        Exact(len, cell, rem);
      } else {
        var u := Untaken(iovs, cell, rem);
        assert u[1..] == iovs[1..];
        Exact(rem * cell, cell, rem);
        ModAdd(rem * cell, len - rem * cell, cell);
      }
    }
  }

  lemma {:induction false} AlignedLess(iovs: seq<Iov>, cell: nat, limit: nat, less: nat)
    requires cell > 0 && Aligned(iovs, cell, limit) && less <= limit
    ensures Aligned(iovs, cell, less)
    decreases iovs
  {
    if iovs != [] && less > iovs[0].len {
      AlignedLess(iovs[1..], cell, limit - iovs[0].len, less - iovs[0].len);
    }
  }

  // ---------------------------------------------------------------------------
  // Cutting
  // ---------------------------------------------------------------------------

  lemma Stop(iovs: seq<Iov>, cell: nat, rem: nat)
    requires cell > 0 && (iovs == [] || rem == 0)
    ensures Taken(iovs, cell, rem) == 0 && Untaken(iovs, cell, rem) == iovs
  {
  }

  lemma TakeWhole(user: seq<Iov>, cell: nat, rem: nat, i: nat, off: nat)
    requires cell > 0 && rem >= 1 && i < |user| && off <= user[i].len && rem * cell >= user[i].len - off
    ensures var left := user[i].len - off; var tail, next := Tail(user, i, off), Tail(user, i + 1, 0);
            && left / cell <= rem
            && Untaken(tail, cell, rem) == Untaken(next, cell, rem - left / cell)
            && Taken(tail, cell, rem) == left + Taken(next, cell, rem - left / cell)
            && Bytes(tail) == Interval(user[i].buf + off, left) + Bytes(next)
  {
    WholeFits(user[i].len - off, cell, rem);
    assert Tail(user, i, off)[1..] == Tail(user, i + 1, 0);
  }

  lemma TakePart(user: seq<Iov>, cell: nat, rem: nat, i: nat, off: nat)
    requires cell > 0 && rem >= 1 && i < |user| && off <= user[i].len && rem * cell < user[i].len - off
    ensures var tail, next := Tail(user, i, off), Tail(user, i, off + rem * cell);
            && rem * cell / cell == rem
            && Untaken(tail, cell, rem) == next && Taken(tail, cell, rem) == rem * cell
            && Bytes(tail) == Interval(user[i].buf + off, rem * cell) + Bytes(next)
  {
    Exact(rem * cell, cell, rem);
    PartBytes(user, i, off, rem * cell);
    var tail, next := Tail(user, i, off), Tail(user, i, off + rem * cell);
    assert Untaken(tail, cell, rem) == next;
  }

  lemma PartBytes(user: seq<Iov>, i: nat, off: nat, m: nat)
    requires i < |user| && off + m <= user[i].len
    ensures Bytes(Tail(user, i, off)) == Interval(user[i].buf + off, m) + Bytes(Tail(user, i, off + m))
  {
    hide Bytes;
    CutFirst(Tail(user, i, off), m);
  }

  lemma AddOne(sgl: seq<Iov>, v: Iov)
    ensures Bytes(sgl + [v]) == Bytes(sgl) + Interval(v.buf, v.len) && Size(sgl + [v]) == Size(sgl) + v.len
  {
    BytesAppend(sgl, [v]);
    BytesOne(v);
  }

  /** The sub-list for `num` records from byte `off` of buffer `i` on. */
  method CreateSgl(user: seq<Iov>, cell: nat, num: nat, i: nat, off: nat) returns (sgl: seq<Iov>, i': nat, off': nat)
    requires cell > 0 && num >= 1 && i < |user| && off <= user[i].len
    ensures i' <= |user| && (i' < |user| ==> off' <= user[i'].len)
    ensures Tail(user, i', off') == Untaken(Tail(user, i, off), cell, num)
    ensures var t := Taken(Tail(user, i, off), cell, num);
            t <= Size(Tail(user, i, off)) && Bytes(sgl) == Bytes(Tail(user, i, off))[..t]
  {
    hide Taken, Untaken, Bytes, Tail;
    i', off', sgl := i, off, [];
    var rem := num;
    ghost var all := Tail(user, i, off);
    AddNone(Bytes(all));
    while true
      invariant i' < |user| && off' <= user[i'].len && rem >= 1
      invariant Untaken(all, cell, num) == Untaken(Tail(user, i', off'), cell, rem)
      invariant Taken(all, cell, num) == Size(sgl) + Taken(Tail(user, i', off'), cell, rem)
      invariant Bytes(all) == Bytes(sgl) + Bytes(Tail(user, i', off'))
      decreases |user| - i', rem
    {
      var left := user[i'].len - off';
      var iov: Iov;
      if rem * cell >= left {
        TakeWhole(user, cell, rem, i', off');
        iov := Iov(user[i'].buf + off', left);
        i', off' := i' + 1, 0;
      } else {
        TakePart(user, cell, rem, i', off');
        iov := Iov(user[i'].buf + off', rem * cell);
        off' := off' + rem * cell;
      }
      Reassociate(Bytes(sgl), Interval(iov.buf, iov.len), Bytes(Tail(user, i', off')));
      AddOne(sgl, iov);
      sgl := sgl + [iov];
      rem := rem - iov.len / cell;
      if !(rem > 0 && i' < |user|) {
        break;
      }
    }
    TailEnd(user, i', off');
    Stop(Tail(user, i', off'), cell, rem);
  }

  lemma TailEnd(user: seq<Iov>, i: nat, off: nat)
    requires i < |user| ==> off <= user[i].len
    ensures i >= |user| ==> Tail(user, i, off) == []
  {
  }

  lemma AddNone(s: seq<nat>)
    ensures s == Bytes([]) + s && Size([]) == 0
  {
  }

  lemma Reassociate(a: seq<nat>, b: seq<nat>, c: seq<nat>)
    ensures a + (b + c) == (a + b) + c
  {
  }
}
