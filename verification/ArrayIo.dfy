/** Cutting a user's ranges and buffers into one I/O per dkey. */
module ArrayIo {
  import opened Sequences
  import opened ArrayDkey
  import opened ArraySgl

  datatype Range = Range(len: nat, idx: nat)

  /** `nr` records of a dkey from record `idx` on. */
  datatype Recx = Recx(idx: nat, nr: nat)

  datatype Io = Io(dkey: Dkey, recxs: seq<Recx>, sgl: seq<Iov>)

  /** The array indices a list of ranges runs through, in order. */
  ghost function Indices(ranges: seq<Range>): seq<nat> {
    if ranges == [] then [] else Interval(ranges[0].idx, ranges[0].len) + Indices(ranges[1..])
  }

  /** A position in the ranges: `records` are left of range `u`, from array index `idx` on. */
  datatype Cursor = Cursor(u: nat, records: nat, idx: nat)

  function Start(ranges: seq<Range>, u: nat): Cursor {
    if u < |ranges| then Cursor(u, ranges[u].len, ranges[u].idx) else Cursor(u, 0, 0)
  }

  ghost predicate At(ranges: seq<Range>, c: Cursor) {
    && c.u <= |ranges|
    && (c.u == |ranges| ==> c == Start(ranges, c.u))
    && (c.u < |ranges| ==>
          var r := ranges[c.u];
          c.records <= r.len && c.idx == r.idx + (r.len - c.records) && (c.records == 0 ==> r.len == 0))
  }

  /** The indices still to come. */
  ghost function Rest(ranges: seq<Range>, c: Cursor): seq<nat> {
    if c.u < |ranges| then Interval(c.idx, c.records) + Indices(ranges[c.u + 1..]) else []
  }

  ghost function Run(dkey: Dkey, rec: nat, n: nat): seq<Place> {
    seq(n, (j: nat) => Place(dkey, rec + j))
  }

  /** The places the extents of one dkey run through. */
  ghost function Places(dkey: Dkey, recxs: seq<Recx>): seq<Place> {
    if recxs == [] then []
    else
      var n := |recxs| - 1;
      Places(dkey, recxs[..n]) + Run(dkey, recxs[n].idx, recxs[n].nr)
  }

  ghost function Locs(arr: Array, s: seq<nat>): seq<Place>
    requires arr.Valid()
  {
    seq(|s|, i requires 0 <= i < |s| => Locate(arr, s[i]))
  }

  lemma LocsLen(arr: Array, s: seq<nat>)
    requires arr.Valid()
    ensures |Locs(arr, s)| == |s|
  {
  }

  lemma LocsAppend(arr: Array, a: seq<nat>, b: seq<nat>)
    requires arr.Valid()
    ensures Locs(arr, a + b) == Locs(arr, a) + Locs(arr, b)
  {
  }

  // ---------------------------------------------------------------------------
  // Which indices go together
  // ---------------------------------------------------------------------------

  datatype Filled = Filled(count: nat, next: Cursor)

  /** How many of the coming indices share the next I/O: the rest of the block for a range
      that goes beyond it, else the range and, while the following ranges start in the
      same block, those as well.  A following range exactly as long as what was left of
      the block starts a new I/O. */
  ghost function Fill(arr: Array, ranges: seq<Range>, c: Cursor): Filled
    requires arr.Valid() && c.u < |ranges|
    decreases |ranges| - c.u
  {
    var num, next := Left(arr, c.idx), Start(ranges, c.u + 1);
    if c.records > num then Filled(num, Cursor(c.u, c.records - num, c.idx + num))
    else if next.u == |ranges| || next.records == num || !SameBlock(arr, c.idx, next.idx) then Filled(c.records, next)
    else
      var f := Fill(arr, ranges, next);
      Filled(c.records + f.count, f.next)
  }

  lemma StartRest(ranges: seq<Range>, u: nat)
    requires u <= |ranges|
    ensures At(ranges, Start(ranges, u)) && Rest(ranges, Start(ranges, u)) == Indices(ranges[u..])
  {
    if u < |ranges| { assert ranges[u..][1..] == ranges[u + 1..]; }
  }

  /** Going `m` indices on in the current range, and to the next one when it is used up. */
  lemma Advance(ranges: seq<Range>, c: Cursor, m: nat, c': Cursor)
    requires At(ranges, c) && c.u < |ranges| && m <= c.records
    requires c' == if m < c.records then Cursor(c.u, c.records - m, c.idx + m) else Start(ranges, c.u + 1)
    ensures At(ranges, c') && Rest(ranges, c) == Interval(c.idx, m) + Rest(ranges, c')
  {
    if m < c.records {
      IntervalSplit(c.idx, m, c.records - m);
      Reassociate(Interval(c.idx, m), Interval(c.idx + m, c.records - m), Indices(ranges[c.u + 1..]));
    } else {
      StartRest(ranges, c.u + 1);
    }
  }

  lemma {:induction false} FillRest(arr: Array, ranges: seq<Range>, c: Cursor)
    requires arr.Valid() && At(ranges, c) && c.u < |ranges|
    ensures var f := Fill(arr, ranges, c);
            && At(ranges, f.next) && |Rest(ranges, c)| == f.count + |Rest(ranges, f.next)|
            && c.u <= f.next.u && (c.records > 0 ==> f.count > 0)
    decreases |ranges| - c.u
  {
    hide Rest, SameBlock;
    var num := Left(arr, c.idx);
    if c.records > num {
      Advance(ranges, c, num, Cursor(c.u, c.records - num, c.idx + num));
    } else {
      var next := Start(ranges, c.u + 1);
      Advance(ranges, c, c.records, next);
      if next.u < |ranges| { FillRest(arr, ranges, next); }
    }
  }

  /** The sizes of the I/Os from a position on. */
  ghost function Counts(arr: Array, ranges: seq<Range>, c: Cursor): seq<nat>
    requires arr.Valid() && At(ranges, c)
    decreases |Rest(ranges, c)|, |ranges| - c.u
  {
    if c.u == |ranges| then []
    else if ranges[c.u].len == 0 then
      Advance(ranges, c, 0, Start(ranges, c.u + 1));
      Counts(arr, ranges, Start(ranges, c.u + 1))
    else
      FillRest(arr, ranges, c);
      var f := Fill(arr, ranges, c);
      [f.count] + Counts(arr, ranges, f.next)
  }

  /** How many records come before the last I/O. */
  ghost function BeforeLast(counts: seq<nat>): nat {
    if |counts| <= 1 then 0 else counts[0] + BeforeLast(counts[1..])
  }

  lemma {:induction false} CountsSum(arr: Array, ranges: seq<Range>, c: Cursor)
    requires arr.Valid() && At(ranges, c)
    ensures Sum(Counts(arr, ranges, c)) == |Rest(ranges, c)|
    ensures Rest(ranges, c) == [] <==> Counts(arr, ranges, c) == []
    decreases |Rest(ranges, c)|, |ranges| - c.u
  {
    if c.u == |ranges| {
    } else if ranges[c.u].len == 0 {
      Advance(ranges, c, 0, Start(ranges, c.u + 1));
      CountsSum(arr, ranges, Start(ranges, c.u + 1));
    } else {
      FillRest(arr, ranges, c);
      var f := Fill(arr, ranges, c);
      CountsSum(arr, ranges, f.next);
      SumAppend([f.count], Counts(arr, ranges, f.next));
      assert Sum([f.count]) == f.count;
    }
  }

  // ---------------------------------------------------------------------------
  // One I/O descriptor
  // ---------------------------------------------------------------------------

  /** An extent inside a block names the places of the indices it is for. */
  lemma RunIs(arr: Array, idx: nat, n: nat)
    requires arr.Valid() && n <= Left(arr, idx)
    ensures Run(Locate(arr, idx).dkey, Locate(arr, idx).rec, n) == Locs(arr, Interval(idx, n))
  {
    forall j | 0 <= j < n
      ensures Run(Locate(arr, idx).dkey, Locate(arr, idx).rec, n)[j] == Locs(arr, Interval(idx, n))[j]
    {
      LocateNext(arr, idx, j);
    }
  }

  /** `recxs` covers the first `d` of the indices `all`, and `c` stands behind them. */
  ghost predicate Covers(arr: Array, ranges: seq<Range>, all: seq<nat>, dkey: Dkey, recxs: seq<Recx>, d: nat, c: Cursor)
    requires arr.Valid()
  {
    && At(ranges, c) && d <= |all| && Rest(ranges, c) == all[d..]
    && Places(dkey, recxs) == Locs(arr, all[..d])
  }

  lemma CoverMore(arr: Array, ranges: seq<Range>, all: seq<nat>, dkey: Dkey, recxs: seq<Recx>, d: nat, c: Cursor,
      m: nat, c': Cursor)
    requires arr.Valid() && Covers(arr, ranges, all, dkey, recxs, d, c) && c.u < |ranges|
    requires m <= c.records && m <= Left(arr, c.idx) && Locate(arr, c.idx).dkey == dkey
    requires c' == if m < c.records then Cursor(c.u, c.records - m, c.idx + m) else Start(ranges, c.u + 1)
    ensures Covers(arr, ranges, all, dkey, recxs + [Recx(Locate(arr, c.idx).rec, m)], d + m, c')
  {
    Advance(ranges, c, m, c');
    RunIs(arr, c.idx, m);
    LocsAppend(arr, all[..d], Interval(c.idx, m));
    Behind(all, d, Interval(c.idx, m), Rest(ranges, c'));
    var more := recxs + [Recx(Locate(arr, c.idx).rec, m)];
    assert more[..|more| - 1] == recxs;
  }

  lemma SplitAt<T>(s: seq<T>, m: nat)
    requires m <= |s|
    ensures s == s[..m] + s[m..]
  {
  }

  lemma Behind(all: seq<nat>, d: nat, s: seq<nat>, r: seq<nat>)
    requires d <= |all| && all[d..] == s + r
    ensures d + |s| <= |all| && all[..d + |s|] == all[..d] + s && all[d + |s|..] == r
  {
    assert all[d..][..|s|] == s;
    assert all[d..][|s|..] == r;
  }

  /** The I/O descriptor for the dkey of index `idx`: the rest of range `u`, as far as the
      block goes, combined with following ranges in the same block. */
  method BuildIod(arr: Array, ranges: seq<Range>, u: nat, records: nat, idx: nat)
    returns (dkey: Dkey, recxs: seq<Recx>, dkeyRecords: nat, u': nat, records': nat, idx': nat)
    requires arr.Valid() && u < |ranges| && At(ranges, Cursor(u, records, idx)) && records > 0
    ensures Covers(arr, ranges, Rest(ranges, Cursor(u, records, idx)), dkey, recxs, dkeyRecords,
            Cursor(u', records', idx'))
    ensures Fill(arr, ranges, Cursor(u, records, idx)) == Filled(dkeyRecords, Cursor(u', records', idx'))
  {
    hide Rest, Locs, Places, Covers, Fill, At;
    ghost var c := Cursor(u, records, idx);
    ghost var all := Rest(ranges, c);
    u', records', idx' := u, records, idx;
    recxs, dkeyRecords := [], 0;
    var num, rec;
    num, rec, dkey := ComputeDkey(arr, idx);
    CoverNone(arr, ranges, dkey, c);
    while true
      invariant u' < |ranges| && num == Left(arr, idx') && Place(dkey, rec) == Locate(arr, idx')
      invariant Covers(arr, ranges, all, dkey, recxs, dkeyRecords, Cursor(u', records', idx'))
      invariant var f := Fill(arr, ranges, Cursor(u', records', idx'));
                Fill(arr, ranges, c) == Filled(dkeyRecords + f.count, f.next)
      decreases |ranges| - u'
    {
      ghost var was := Cursor(u', records', idx');
      FillStep(arr, ranges, was);
      var nr := if num > records' then records' else num;
      ghost var next := if nr < records' then Cursor(u', records' - nr, idx' + nr) else Start(ranges, u' + 1);
      CoverMore(arr, ranges, all, dkey, recxs, dkeyRecords, was, nr, next);
      recxs := recxs + [Recx(rec, nr)];
      if records' > num {
        idx' := idx' + num;
        records' := records' - num;
        dkeyRecords := dkeyRecords + num;
        break;
      }
      u' := u' + 1;
      dkeyRecords := dkeyRecords + records';
      if |ranges| <= u' {
        records', idx' := 0, 0;
        break;
      }
      var oldIdx := idx';
      records', idx' := ranges[u'].len, ranges[u'].idx;
      if records' == num {
        break;
      }
      SameBlockIs(arr, oldIdx, idx');
      if idx' < oldIdx + num && idx' >= oldIdx + num - arr.block {
        var again;
        num, rec, again := ComputeDkey(arr, idx');
        assert again == dkey;
      } else {
        break;
      }
    }
  }

  lemma CoverNone(arr: Array, ranges: seq<Range>, dkey: Dkey, c: Cursor)
    requires arr.Valid() && At(ranges, c)
    ensures Covers(arr, ranges, Rest(ranges, c), dkey, [], 0, c)
  {
  }

  lemma FillStep(arr: Array, ranges: seq<Range>, c: Cursor)
    requires arr.Valid() && c.u < |ranges|
    ensures var num, next := Left(arr, c.idx), Start(ranges, c.u + 1);
            Fill(arr, ranges, c) ==
            if c.records > num then Filled(num, Cursor(c.u, c.records - num, c.idx + num))
            else if next.u == |ranges| || next.records == num || !SameBlock(arr, c.idx, next.idx)
            then Filled(c.records, next)
            else var f := Fill(arr, ranges, next); Filled(c.records + f.count, f.next)
  {
  }

  // ---------------------------------------------------------------------------
  // All I/Os
  // ---------------------------------------------------------------------------

  datatype Result = Inval | Aborted | Issued(ios: seq<Io>)

  ghost function IosPlaces(ios: seq<Io>): seq<Place> {
    if ios == [] then []
    else
      var n := |ios| - 1;
      IosPlaces(ios[..n]) + Places(ios[n].dkey, ios[n].recxs)
  }

  ghost function IosBytes(ios: seq<Io>): seq<nat> {
    if ios == [] then []
    else
      var n := |ios| - 1;
      IosBytes(ios[..n]) + Bytes(ios[n].sgl)
  }

  lemma IosMore(ios: seq<Io>, io: Io)
    ensures IosPlaces(ios + [io]) == IosPlaces(ios) + Places(io.dkey, io.recxs)
    ensures IosBytes(ios + [io]) == IosBytes(ios) + Bytes(io.sgl)
  {
    assert (ios + [io])[..|ios|] == ios;
  }

  /** An I/O has exactly the memory its records need. */
  ghost predicate Exactly(cell: nat, io: Io) {
    Size(io.sgl) == |Places(io.dkey, io.recxs)| * cell
  }

  ghost predicate AllExact(cell: nat, ios: seq<Io>) {
    forall k :: 0 <= k < |ios| ==> Exactly(cell, ios[k])
  }

  /** The I/Os run through the places of the user's indices and through the user's bytes,
      both in order, and each has the bytes of its own records. */
  ghost predicate Faithful(arr: Array, ranges: seq<Range>, user: seq<Iov>, ios: seq<Io>)
    requires arr.Valid()
  {
    && IosPlaces(ios) == Locs(arr, Indices(ranges))
    && IosBytes(ios) == Bytes(user)
    && AllExact(arr.cell, ios)
  }

  /** The byte at which the last I/O begins. */
  ghost function LastIo(arr: Array, ranges: seq<Range>): nat
    requires arr.Valid()
  {
    StartRest(ranges, 0);
    BeforeLast(Counts(arr, ranges, Start(ranges, 0))) * arr.cell
  }

  method IoExtentSame(ranges: seq<Range>, sgl: seq<Iov>, cell: nat) returns (same: bool)
    ensures same == (|Indices(ranges)| * cell == Size(sgl))
  {
    var rangesLen, sglLen := 0, 0;
    assert ranges[0..] == ranges;
    for u := 0 to |ranges|
      invariant rangesLen + |Indices(ranges[u..])| == |Indices(ranges)|
    {
      assert ranges[u..][1..] == ranges[u + 1..];
      rangesLen := rangesLen + ranges[u].len;
    }
    assert sgl[0..] == sgl;
    for u := 0 to |sgl|
      invariant sglLen + Size(sgl[u..]) == Size(sgl)
    {
      assert sgl[u..][1..] == sgl[u + 1..];
      sglLen := sglLen + sgl[u].len;
    }
    same := rangesLen * cell == sglLen;
  }

  /** The memory of the I/Os so far, for `d` of `total` records, matches, and `tail` is what
      is left of it; or some I/O has too much.  Alignment matters up to byte `limit` of the
      user's memory, which is byte `ahead` of `tail`. */
  ghost predicate Matched(cell: nat, user: seq<Iov>, ios: seq<Io>, d: nat, total: nat, tail: seq<Iov>, limit: nat,
      ahead: nat)
    requires cell > 0 && d <= total
  {
    if AllExact(cell, ios) then
      && d * cell <= total * cell == Size(user)
      && IosBytes(ios) == Bytes(user)[..d * cell] && Bytes(tail) == Bytes(user)[d * cell..]
      && (Aligned(user, cell, limit) <==> Aligned(tail, cell, ahead))
    else
      !Aligned(user, cell, limit)
  }

  /** The state between I/Os: `ios` cover the first `d` indices. */
  ghost predicate Progress(arr: Array, ranges: seq<Range>, user: seq<Iov>, ios: seq<Io>, d: nat, c: Cursor,
      tail: seq<Iov>)
    requires arr.Valid()
  {
    var all := Indices(ranges);
    && At(ranges, c) && d <= |all| && Rest(ranges, c) == all[d..] && IosPlaces(ios) == Locs(arr, all[..d])
    && Matched(arr.cell, user, ios, d, |all|, tail, LastIo(arr, ranges), BeforeLast(Counts(arr, ranges, c)) * arr.cell)
  }

  lemma ProgressStart(arr: Array, ranges: seq<Range>, user: seq<Iov>)
    requires arr.Valid() && |Indices(ranges)| * arr.cell == Size(user)
    ensures Progress(arr, ranges, user, [], 0, Start(ranges, 0), user)
  {
    StartRest(ranges, 0);
    assert ranges[0..] == ranges;
  }

  lemma ProgressSkip(arr: Array, ranges: seq<Range>, user: seq<Iov>, ios: seq<Io>, d: nat, c: Cursor, tail: seq<Iov>)
    requires arr.Valid() && Progress(arr, ranges, user, ios, d, c, tail) && c.u < |ranges| && ranges[c.u].len == 0
    ensures Progress(arr, ranges, user, ios, d, Start(ranges, c.u + 1), tail)
  {
    Advance(ranges, c, 0, Start(ranges, c.u + 1));
  }

  lemma ProgressDone(arr: Array, ranges: seq<Range>, user: seq<Iov>, ios: seq<Io>, d: nat, c: Cursor, tail: seq<Iov>)
    requires arr.Valid() && Progress(arr, ranges, user, ios, d, c, tail) && c.u == |ranges|
    ensures Faithful(arr, ranges, user, ios) <==> Aligned(user, arr.cell, LastIo(arr, ranges))
    ensures IosPlaces(ios) == Locs(arr, Indices(ranges))
  {
    assert d == |Indices(ranges)|;
    assert Indices(ranges)[..d] == Indices(ranges);
    if AllExact(arr.cell, ios) {
      assert Bytes(user)[..d * arr.cell] == Bytes(user);
    }
  }

  /** Cutting the memory of an I/O of `m` records off `tail`, with `rest` records to come. */
  lemma CutOff(tail: seq<Iov>, cell: nat, m: nat, rest: nat, counts: seq<nat>)
    requires cell > 0 && Size(tail) == (m + rest) * cell && (rest == 0 <==> counts == [])
    ensures if Taken(tail, cell, m) == m * cell
            then Aligned(tail, cell, BeforeLast([m] + counts) * cell) <==>
              Aligned(Untaken(tail, cell, m), cell, BeforeLast(counts) * cell)
            else !Aligned(tail, cell, BeforeLast([m] + counts) * cell)
  {
    Times(m, rest, cell);
    if counts == [] {
      TakenLast(tail, cell, m);
    } else {
      var more := BeforeLast(counts);
      assert ([m] + counts)[1..] == counts;
      Times(m, more, cell);
      Grows(rest, cell);
      if Aligned(tail, cell, m * cell) {
        TakenAligned(tail, cell, m);
        AlignedSplit(tail, cell, m, more * cell);
      } else {
        TakenMisaligned(tail, cell, m);
        if Aligned(tail, cell, m * cell + more * cell) { AlignedLess(tail, cell, m * cell + more * cell, m * cell); }
      }
    }
  }

  lemma Times(a: nat, b: nat, c: nat)
    ensures (a + b) * c == a * c + b * c && a * c >= 0 && b * c >= 0
  {
  }

  lemma CountsFill(arr: Array, ranges: seq<Range>, c: Cursor)
    requires arr.Valid() && At(ranges, c) && c.u < |ranges| && c.records > 0
    ensures var f := Fill(arr, ranges, c);
            && At(ranges, f.next) && Counts(arr, ranges, c) == [f.count] + Counts(arr, ranges, f.next)
            && (Rest(ranges, f.next) == [] <==> Counts(arr, ranges, f.next) == [])
            && |Rest(ranges, c)| == f.count + |Rest(ranges, f.next)|
  {
    FillRest(arr, ranges, c);
    CountsSum(arr, ranges, Fill(arr, ranges, c).next);
  }

  /** The places of one more I/O. */
  lemma PlacesMore(arr: Array, ranges: seq<Range>, all: seq<nat>, ios: seq<Io>, d: nat, c: Cursor, io: Io, m: nat,
      c': Cursor)
    requires arr.Valid() && d <= |all| && Rest(ranges, c) == all[d..] && IosPlaces(ios) == Locs(arr, all[..d])
    requires Covers(arr, ranges, Rest(ranges, c), io.dkey, io.recxs, m, c')
    ensures d + m <= |all| && Rest(ranges, c') == all[d + m..] && IosPlaces(ios + [io]) == Locs(arr, all[..d + m])
    ensures |Places(io.dkey, io.recxs)| == m
  {
    hide Places, Locs, Rest, IosPlaces, IosBytes;
    var t := all[d..];
    SplitAt(t, m);
    Behind(all, d, t[..m], t[m..]);
    LocsLen(arr, t[..m]);
    LocsAppend(arr, all[..d], t[..m]);
    IosMore(ios, io);
  }

  /** The memory of one more I/O. */
  lemma BytesMore(user: seq<Iov>, ios: seq<Io>, io: Io, tail: seq<Iov>, tail': seq<Iov>, p: nat, t: nat)
    requires p <= Size(user) && IosBytes(ios) == Bytes(user)[..p] && Bytes(tail) == Bytes(user)[p..]
    requires t <= Size(tail) && Bytes(io.sgl) == Bytes(tail)[..t] && Bytes(tail') == Bytes(tail)[t..]
    ensures p + t <= Size(user) && IosBytes(ios + [io]) == Bytes(user)[..p + t] && Bytes(tail') == Bytes(user)[p + t..]
    ensures Size(io.sgl) == t
  {
    hide IosBytes, IosPlaces, Bytes, Places;
    IosMore(ios, io);
    Behind(Bytes(user), p, Bytes(tail)[..t], Bytes(tail)[t..]);
    assert Bytes(tail) == Bytes(tail)[..t] + Bytes(tail)[t..];
  }

  lemma ExactMore(cell: nat, ios: seq<Io>, io: Io)
    ensures AllExact(cell, ios + [io]) <==> AllExact(cell, ios) && Exactly(cell, io)
  {
    var more := ios + [io];
    assert more[|ios|] == io;
    if AllExact(cell, more) {
      forall k | 0 <= k < |ios| ensures Exactly(cell, ios[k]) { assert more[k] == ios[k]; }
    }
  }

  lemma MatchedMore(cell: nat, user: seq<Iov>, ios: seq<Io>, d: nat, total: nat, tail: seq<Iov>, limit: nat, io: Io,
      m: nat, counts: seq<nat>)
    requires cell > 0 && d + m <= total && (d + m == total <==> counts == []) && |Places(io.dkey, io.recxs)| == m
    requires Matched(cell, user, ios, d, total, tail, limit, BeforeLast([m] + counts) * cell)
    requires var t := Taken(tail, cell, m); t <= Size(tail) && Bytes(io.sgl) == Bytes(tail)[..t]
    ensures Matched(cell, user, ios + [io], d + m, total, Untaken(tail, cell, m), limit, BeforeLast(counts) * cell)
  {
    hide Places, IosBytes, Bytes, BeforeLast, Taken, Untaken, Aligned, AllExact;
    ExactMore(cell, ios, io);
    if AllExact(cell, ios) {
      Times(d, m, cell);
      Times(d + m, total - d - m, cell);
      Times(m, total - d - m, cell);
      TakenBytes(tail, cell, m);
      BytesMore(user, ios, io, tail, Untaken(tail, cell, m), d * cell, Taken(tail, cell, m));
      CutOff(tail, cell, m, total - d - m, counts);
    }
  }

  lemma ProgressMore(arr: Array, ranges: seq<Range>, user: seq<Iov>, ios: seq<Io>, d: nat, c: Cursor, tail: seq<Iov>,
      io: Io, m: nat, c': Cursor)
    requires arr.Valid() && Progress(arr, ranges, user, ios, d, c, tail) && c.u < |ranges| && c.records > 0
    requires Covers(arr, ranges, Rest(ranges, c), io.dkey, io.recxs, m, c') && Fill(arr, ranges, c) == Filled(m, c')
    requires var t := Taken(tail, arr.cell, m); t <= Size(tail) && Bytes(io.sgl) == Bytes(tail)[..t]
    ensures Progress(arr, ranges, user, ios + [io], d + m, c', Untaken(tail, arr.cell, m))
  {
    hide Rest, Indices, Locs, Places, IosPlaces, IosBytes, Bytes, Counts, BeforeLast, Taken, Untaken, Aligned,
      AllExact, Fill, Covers, LastIo, At, Matched;
    var all := Indices(ranges);
    CountsFill(arr, ranges, c);
    PlacesMore(arr, ranges, all, ios, d, c, io, m, c');
    MatchedMore(arr.cell, user, ios, d, |all|, tail, LastIo(arr, ranges), io, m, Counts(arr, ranges, c'));
  }

  /** With the memory still matching, an I/O finds memory left to use. */
  lemma NotDry(arr: Array, ranges: seq<Range>, user: seq<Iov>, ios: seq<Io>, d: nat, c: Cursor, tail: seq<Iov>)
    requires arr.Valid() && Progress(arr, ranges, user, ios, d, c, tail) && c.u < |ranges| && c.records > 0 &&
             tail == []
    ensures !Aligned(user, arr.cell, LastIo(arr, ranges))
  {
    RestNonempty(ranges, c);
    hide Rest, Indices, Locs, IosPlaces, Counts, BeforeLast, LastIo, Aligned, Matched;
    DryMatched(arr.cell, user, ios, d, |Indices(ranges)|, LastIo(arr, ranges),
      BeforeLast(Counts(arr, ranges, c)) * arr.cell);
  }

  lemma RestNonempty(ranges: seq<Range>, c: Cursor)
    requires At(ranges, c) && c.u < |ranges| && c.records > 0
    ensures Rest(ranges, c) != []
  {
  }

  lemma DryMatched(cell: nat, user: seq<Iov>, ios: seq<Io>, d: nat, total: nat, limit: nat, ahead: nat)
    requires cell > 0 && d < total && Matched(cell, user, ios, d, total, [], limit, ahead)
    ensures !Aligned(user, cell, limit)
  {
    hide Aligned, IosBytes, AllExact;
    Times(d, total - d, cell);
    Grows(total - d, cell);
  }

  /** A single buffer for a range inside one dkey is used as it is, and is what would be
      cut off. */
  lemma TakenAll(arr: Array, ranges: seq<Range>, c: Cursor, user: seq<Iov>)
    requires arr.Valid() && At(ranges, c) && c.u < |ranges| && c.records > 0
    requires |ranges| == 1 && Fill(arr, ranges, c).count == ranges[0].len && Size(user) == |Indices(ranges)| * arr.cell
    ensures var t := Taken(user, arr.cell, ranges[0].len); t == Size(user) && Bytes(user) == Bytes(user)[..t]
    ensures Fill(arr, ranges, c).next.u == 1
  {
    assert |Indices(ranges)| == ranges[0].len by { assert Indices(ranges[1..]) == []; }
    TakenLast(user, arr.cell, ranges[0].len);
    FillRest(arr, ranges, c);
    FillStep(arr, ranges, c);
  }

  lemma TailStart(user: seq<Iov>)
    ensures (0 < |user| ==> 0 <= user[0].len) && Tail(user, 0, 0) == user
  {
  }

  lemma InRange(arr: Array, ranges: seq<Range>, user: seq<Iov>, ios: seq<Io>, d: nat, c: Cursor, tail: seq<Iov>)
    requires arr.Valid() && Progress(arr, ranges, user, ios, d, c, tail) && c.u < |ranges|
    ensures At(ranges, c) && (ranges[c.u].len > 0 ==> c.records > 0)
    ensures |Rest(ranges, c)| == |Indices(ranges)| - d
  {
  }

  lemma Forward(arr: Array, ranges: seq<Range>, c: Cursor)
    requires arr.Valid() && At(ranges, c) && c.u < |ranges| && c.records > 0
    ensures 0 < Fill(arr, ranges, c).count <= |Rest(ranges, c)| && Fill(arr, ranges, c).next.u <= |ranges|
    ensures |ranges| == 1 ==> |Indices(ranges)| == ranges[0].len
  {
    FillRest(arr, ranges, c);
    if |ranges| == 1 { assert Indices(ranges[1..]) == []; }
  }

  /** Read or write the ranges from or to the user's memory: cut into one I/O per dkey. */
  method DacArrayIo(arr: Array, ranges: seq<Range>, user: seq<Iov>) returns (r: Result)
    requires arr.Valid()
    ensures r.Inval? <==> |Indices(ranges)| * arr.cell != Size(user)
    ensures r.Issued? ==> IosPlaces(r.ios) == Locs(arr, Indices(ranges))
    ensures !r.Inval? ==> (r.Issued? && Faithful(arr, ranges, user, r.ios) <==>
            Aligned(user, arr.cell, LastIo(arr, ranges)))
  {
    hide Rest, Indices, Locs, Places, IosPlaces, IosBytes, Bytes, Counts, BeforeLast, Taken, Untaken, Aligned,
      AllExact, Fill, Covers, LastIo, Progress, Faithful, Tail, At;
    var same := IoExtentSame(ranges, user, arr.cell);
    if !same {
      return Inval;
    }
    var off: nat, i: nat, u: nat := 0, 0, 0;
    var ios: seq<Io> := [];
    var records: nat, idx: nat := 0, 0;
    if |ranges| > 0 {
      records, idx := ranges[0].len, ranges[0].idx;
    }
    ghost var d: nat, tail := 0, user;
    ProgressStart(arr, ranges, user);
    TailStart(user);
    while u < |ranges|
      invariant Progress(arr, ranges, user, ios, d, Cursor(u, records, idx), tail)
      invariant u <= |ranges| && i <= |user| && (i < |user| ==> off <= user[i].len)
      invariant u < |ranges| ==> tail == Tail(user, i, off)
      invariant d == 0 ==> i == 0 && off == 0
      decreases |Indices(ranges)| - d, |ranges| - u
    {
      ghost var c := Cursor(u, records, idx);
      InRange(arr, ranges, user, ios, d, c, tail);
      if ranges[u].len == 0 {
        ProgressSkip(arr, ranges, user, ios, d, c, tail);
        u := u + 1;
        records, idx := 0, 0;
        if u < |ranges| {
          records, idx := ranges[u].len, ranges[u].idx;
        }
        continue;
      }
      var dkey, recxs, dkeyRecords;
      dkey, recxs, dkeyRecords, u, records, idx := BuildIod(arr, ranges, u, records, idx);
      Forward(arr, ranges, c);
      var sgl;
      if |ranges| == 1 && |user| == 1 && dkeyRecords == ranges[0].len {
        sgl := user;
        TakenAll(arr, ranges, c, user);
      } else {
        TailEnd(user, i, off);
        if !(|user| > i) {
          NotDry(arr, ranges, user, ios, d, c, tail);
          return Aborted;
        }
        sgl, i, off := CreateSgl(user, arr.cell, dkeyRecords, i, off);
      }
      ProgressMore(arr, ranges, user, ios, d, c, tail, Io(dkey, recxs, sgl), dkeyRecords, Cursor(u, records, idx));
      d := d + dkeyRecords;
      tail := Untaken(tail, arr.cell, dkeyRecords);
      ios := ios + [Io(dkey, recxs, sgl)];
    }
    ProgressDone(arr, ranges, user, ios, d, Cursor(u, records, idx), tail);
    r := Issued(ios);
  }

  /** Buffers of whole records are always cut right. */
  lemma {:induction false} WholeRecords(user: seq<Iov>, cell: nat, limit: nat)
    requires cell > 0 && forall k :: 0 <= k < |user| ==> user[k].len % cell == 0
    ensures Aligned(user, cell, limit)
    decreases user
  {
    if user != [] && limit > user[0].len { WholeRecords(user[1..], cell, limit - user[0].len); }
  }

  /** Two records in blocks of one: two I/Os of one record each. */
  lemma TwoIos(cell: nat, idx: nat)
    requires cell >= 1
    ensures var arr, ranges := Array(cell, 1, 1, 1), [Range(2, idx)];
            At(ranges, Start(ranges, 0)) && Counts(arr, ranges, Start(ranges, 0)) == [1] + [1] && |Indices(ranges)| == 2
  {
    var arr, ranges := Array(cell, 1, 1, 1), [Range(2, idx)];
    assert ranges[1..] == [];
    var c, c' := Start(ranges, 0), Cursor(0, 1, idx + 1);
    assert Fill(arr, ranges, c) == Filled(1, c');
    assert Fill(arr, ranges, c') == Filled(1, Start(ranges, 1));
    StartRest(ranges, 0);
    FillRest(arr, ranges, c);
    StartRest(ranges, 1);
    assert Counts(arr, ranges, Start(ranges, 1)) == [];
    assert Counts(arr, ranges, c') == [1];
  }

  /** Buffers that only add up to the right size are not: a record cut in two across
      buffers, with a second I/O to follow. */
  lemma CutRecord(cell: nat, idx: nat, a: nat, b: nat)
    requires cell >= 2
    ensures var arr, ranges, user := Array(cell, 1, 1, 1), [Range(2, idx)], [Iov(a, 1), Iov(b, 2 * cell - 1)];
            |Indices(ranges)| * cell == Size(user) && !Aligned(user, cell, LastIo(arr, ranges))
  {
    var arr, ranges, user := Array(cell, 1, 1, 1), [Range(2, idx)], [Iov(a, 1), Iov(b, 2 * cell - 1)];
    assert user[1..] == [Iov(b, 2 * cell - 1)] && user[1..][1..] == [];
    hide Counts, Indices, Fill;
    TwoIos(cell, idx);
    BytesOne(user[1]);
    assert Size(user) == 1 + (2 * cell - 1);
    var counts := Counts(arr, ranges, Start(ranges, 0));
    assert counts[1..] == [1];
    assert BeforeLast(counts) == 1;
    assert LastIo(arr, ranges) == cell;
    Quotient(1, cell, 0, 1);
    assert !Aligned(user, cell, cell);
  }
}
