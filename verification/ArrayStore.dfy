/** What the I/Os of an array move between the user's memory and the object. */
module ArrayStore {
  import opened Sequences
  import opened ArrayDkey
  import opened ArraySgl
  import opened ArrayIo

  type Byte = x: nat | x < 256

  /** Byte `b` of the record at a place. */
  datatype Slot = Slot(place: Place, b: nat)

  datatype Transfer = Transfer(slot: Slot, addr: nat)

  type Memory = map<nat, Byte>

  type Object = map<Slot, Byte>

  lemma Inside(j: nat, n: nat, cell: nat)
    requires cell > 0 && j < n * cell
    ensures j / cell < n
  {
    DivMod(j, cell);
    if j / cell >= n { Monotone(n, j / cell, cell); }
  }

  lemma Monotone(a: nat, b: nat, c: nat)
    requires a <= b
    ensures a * c <= b * c
  {
    assert b * c == a * c + (b - a) * c;
  }

  /** Record by record, byte by byte. */
  ghost function Pair(cell: nat, places: seq<Place>, bytes: seq<nat>): (ts: seq<Transfer>)
    requires cell > 0 && |bytes| == |places| * cell
    ensures |ts| == |bytes|
  {
    seq(|bytes|, j requires 0 <= j < |bytes| => Inside(j, |places|, cell);
      Transfer(Slot(places[j / cell], j % cell), bytes[j]))
  }

  lemma Shift(j: nat, n: nat, cell: nat)
    requires cell > 0 && j >= n * cell
    ensures j / cell == n + (j - n * cell) / cell && j % cell == (j - n * cell) % cell
  {
    var k := j - n * cell;
    DivMod(k, cell);
    assert (n + k / cell) * cell == n * cell + (k / cell) * cell;
    Quotient(j, cell, n + k / cell, k % cell);
  }

  lemma PairAt(cell: nat, places: seq<Place>, bytes: seq<nat>, j: nat)
    requires cell > 0 && |bytes| == |places| * cell && j < |bytes|
    ensures j / cell < |places| && Pair(cell, places, bytes)[j] == Transfer(Slot(places[j / cell], j % cell), bytes[j])
  {
    Inside(j, |places|, cell);
  }

  lemma PairLeft(cell: nat, p: seq<Place>, q: seq<Place>, a: seq<nat>, b: seq<nat>, j: nat)
    requires cell > 0 && |a| == |p| * cell && |a + b| == |p + q| * cell && j < |a|
    ensures Pair(cell, p + q, a + b)[j] == Pair(cell, p, a)[j]
  {
    hide Pair;
    PairAt(cell, p + q, a + b, j);
    PairAt(cell, p, a, j);
  }

  lemma PairRight(cell: nat, p: seq<Place>, q: seq<Place>, a: seq<nat>, b: seq<nat>, j: nat)
    requires cell > 0 && |a| == |p| * cell && |b| == |q| * cell && |a + b| == |p + q| * cell && |a| <= j < |a + b|
    ensures Pair(cell, p + q, a + b)[j] == Pair(cell, q, b)[j - |a|]
  {
    hide Pair;
    PairAt(cell, p + q, a + b, j);
    Shift(j, |p|, cell);
    PairAt(cell, q, b, j - |a|);
  }

  lemma PairAppend(cell: nat, p: seq<Place>, q: seq<Place>, a: seq<nat>, b: seq<nat>)
    requires cell > 0 && |a| == |p| * cell && |b| == |q| * cell
    ensures |a + b| == |p + q| * cell && Pair(cell, p + q, a + b) == Pair(cell, p, a) + Pair(cell, q, b)
  {
    hide Pair;
    Times(|p|, |q|, cell);
    var l, r := Pair(cell, p + q, a + b), Pair(cell, p, a) + Pair(cell, q, b);
    forall j | 0 <= j < |l| ensures l[j] == r[j] {
      if j < |a| { PairLeft(cell, p, q, a, b, j); } else { PairRight(cell, p, q, a, b, j); }
    }
  }

  ghost function IoTransfers(cell: nat, io: Io): seq<Transfer>
    requires cell > 0 && Exactly(cell, io)
  {
    Pair(cell, Places(io.dkey, io.recxs), Bytes(io.sgl))
  }

  /** All that a list of I/Os moves. */
  ghost function Moved(cell: nat, ios: seq<Io>): seq<Transfer>
    requires cell > 0 && AllExact(cell, ios)
  {
    if ios == [] then []
    else
      var n := |ios| - 1;
      Moved(cell, ios[..n]) + IoTransfers(cell, ios[n])
  }

  ghost predicate SameExtent(arr: Array, ranges: seq<Range>, user: seq<Iov>) {
    Size(user) == |Indices(ranges)| * arr.cell
  }

  /** What the user asked to be moved: index number k of the ranges gets or gives byte
      k * cell and the following ones of the user's memory. */
  ghost function Intended(arr: Array, ranges: seq<Range>, user: seq<Iov>): seq<Transfer>
    requires arr.Valid() && SameExtent(arr, ranges, user)
  {
    Pair(arr.cell, Locs(arr, Indices(ranges)), Bytes(user))
  }

  lemma {:induction false} MovedIs(cell: nat, ios: seq<Io>)
    requires cell > 0 && AllExact(cell, ios)
    ensures |IosBytes(ios)| == |IosPlaces(ios)| * cell && Moved(cell, ios) == Pair(cell, IosPlaces(ios), IosBytes(ios))
  {
    if ios != [] {
      var n := |ios| - 1;
      var io := ios[n];
      MovedIs(cell, ios[..n]);
      PairAppend(cell, IosPlaces(ios[..n]), Places(io.dkey, io.recxs), IosBytes(ios[..n]), Bytes(io.sgl));
    }
  }

  /** Faithful I/Os move exactly what was asked. */
  lemma MovesIntended(arr: Array, ranges: seq<Range>, user: seq<Iov>, ios: seq<Io>)
    requires arr.Valid() && Faithful(arr, ranges, user, ios)
    ensures SameExtent(arr, ranges, user) && Moved(arr.cell, ios) == Intended(arr, ranges, user)
  {
    MovedIs(arr.cell, ios);
  }

  // ---------------------------------------------------------------------------
  // Moving bytes, in any order
  // ---------------------------------------------------------------------------

  /** The object after the transfers `ts` of a write. */
  ghost function Put(obj: Object, mem: Memory, ts: seq<Transfer>): Object
    requires forall t :: t in ts ==> t.addr in mem
  {
    if ts == [] then obj
    else
      var t := ts[|ts| - 1];
      Put(obj, mem, ts[..|ts| - 1])[t.slot := mem[t.addr]]
  }

  /** The memory after the transfers `ts` of a read. */
  ghost function Get(mem: Memory, obj: Object, ts: seq<Transfer>): Memory
    requires forall t :: t in ts ==> t.slot in obj
  {
    if ts == [] then mem
    else
      var t := ts[|ts| - 1];
      Get(mem, obj, ts[..|ts| - 1])[t.addr := obj[t.slot]]
  }

  ghost predicate SameMoves(order: seq<Transfer>, ts: seq<Transfer>) {
    forall t :: t in order <==> t in ts
  }

  ghost predicate OneSource(ts: seq<Transfer>) {
    forall s, t :: s in ts && t in ts && s.slot == t.slot ==> s == t
  }

  ghost predicate OneSlot(ts: seq<Transfer>) {
    forall s, t :: s in ts && t in ts && s.addr == t.addr ==> s == t
  }

  lemma {:induction false} PutEach(obj: Object, mem: Memory, ts: seq<Transfer>, x: Slot)
    requires (forall t :: t in ts ==> t.addr in mem) && OneSource(ts)
    ensures forall t :: t in ts ==> t.slot in Put(obj, mem, ts) && Put(obj, mem, ts)[t.slot] == mem[t.addr]
    ensures (forall t :: t in ts ==> t.slot != x) ==>
              (x in Put(obj, mem, ts) <==> x in obj) && (x in obj ==> Put(obj, mem, ts)[x] == obj[x])
  {
    if ts != [] {
      PutEach(obj, mem, ts[..|ts| - 1], x);
    }
  }

  lemma {:induction false} GetEach(mem: Memory, obj: Object, ts: seq<Transfer>, x: nat)
    requires (forall t :: t in ts ==> t.slot in obj) && OneSlot(ts)
    ensures forall t :: t in ts ==> t.addr in Get(mem, obj, ts) && Get(mem, obj, ts)[t.addr] == obj[t.slot]
    ensures (forall t :: t in ts ==> t.addr != x) ==>
              (x in Get(mem, obj, ts) <==> x in mem) && (x in mem ==> Get(mem, obj, ts)[x] == mem[x])
  {
    if ts != [] {
      GetEach(mem, obj, ts[..|ts| - 1], x);
    }
  }

  // ---------------------------------------------------------------------------
  // Reading back what was written
  // ---------------------------------------------------------------------------

  lemma IntendedAt(arr: Array, ranges: seq<Range>, user: seq<Iov>, j: nat)
    requires arr.Valid() && SameExtent(arr, ranges, user) && j < Size(user)
    ensures j / arr.cell < |Indices(ranges)| && |Intended(arr, ranges, user)| == Size(user)
    ensures Intended(arr, ranges, user)[j] ==
            Transfer(Slot(Locate(arr, Indices(ranges)[j / arr.cell]), j % arr.cell), Bytes(user)[j])
  {
    hide Pair, Indices, Bytes, Locate;
    PairAt(arr.cell, Locs(arr, Indices(ranges)), Bytes(user), j);
  }

  lemma LocateSame(arr: Array, i: nat, j: nat)
    requires arr.Valid() && Locate(arr, i) == Locate(arr, j)
    ensures i == j
  {
    hide Locate, IndexAt;
    LocateOnce(arr, i);
    LocateOnce(arr, j);
  }

  /** With disjoint ranges two transfers never meet in a slot ... */
  lemma SlotsApart(arr: Array, ranges: seq<Range>, user: seq<Iov>, i: nat, j: nat)
    requires arr.Valid() && SameExtent(arr, ranges, user) && Distinct(Indices(ranges)) && i < Size(user) &&
             j < Size(user)
    requires |Intended(arr, ranges, user)| == Size(user) &&
             Intended(arr, ranges, user)[i].slot == Intended(arr, ranges, user)[j].slot
    ensures i == j
  {
    hide Intended, Locate, Indices, Bytes, SameExtent;
    IntendedAt(arr, ranges, user, i);
    IntendedAt(arr, ranges, user, j);
    LocateSame(arr, Indices(ranges)[i / arr.cell], Indices(ranges)[j / arr.cell]);
    SameByte(i, j, arr.cell);
  }

  lemma SameByte(i: nat, j: nat, cell: nat)
    requires cell > 0 && i / cell == j / cell && i % cell == j % cell
    ensures i == j
  {
    DivMod(i, cell);
    DivMod(j, cell);
  }

  lemma IntendedOneSource(arr: Array, ranges: seq<Range>, user: seq<Iov>)
    requires arr.Valid() && SameExtent(arr, ranges, user) && Distinct(Indices(ranges))
    ensures OneSource(Intended(arr, ranges, user))
  {
    var ts := Intended(arr, ranges, user);
    assert |ts| == Size(user);
    hide Intended, Indices, Bytes, Distinct, SameExtent;
    forall s, t | s in ts && t in ts && s.slot == t.slot ensures s == t {
      var i, j :| 0 <= i < |ts| && 0 <= j < |ts| && s == ts[i] && t == ts[j];
      SlotsApart(arr, ranges, user, i, j);
    }
  }

  /** ... and with disjoint buffers never in an address. */
  lemma IntendedOneSlot(arr: Array, ranges: seq<Range>, user: seq<Iov>)
    requires arr.Valid() && SameExtent(arr, ranges, user) && Distinct(Bytes(user))
    ensures OneSlot(Intended(arr, ranges, user))
  {
    var ts := Intended(arr, ranges, user);
    assert |ts| == Size(user);
    hide Intended, Indices, Bytes, Locate, SameExtent;
    forall s, t | s in ts && t in ts && s.addr == t.addr ensures s == t {
      var i, j :| 0 <= i < |ts| && 0 <= j < |ts| && s == ts[i] && t == ts[j];
      IntendedAt(arr, ranges, user, i);
      IntendedAt(arr, ranges, user, j);
    }
  }

  /** A write to disjoint ranges stores each byte at its index, whatever order the I/Os and
      their bytes are carried out in, and leaves every other index alone. */
  lemma WriteStores(arr: Array, ranges: seq<Range>, user: seq<Iov>, ios: seq<Io>, order: seq<Transfer>, obj: Object,
      mem: Memory, x: Slot)
    requires arr.Valid() && Faithful(arr, ranges, user, ios) && Distinct(Indices(ranges))
    requires SameMoves(order, Moved(arr.cell, ios)) && forall a :: a in Bytes(user) ==> a in mem
    ensures forall t :: t in order ==> t.addr in mem
    ensures SameExtent(arr, ranges, user)
    ensures forall t :: t in Intended(arr, ranges, user) ==>
              t.slot in Put(obj, mem, order) && t.addr in mem && Put(obj, mem, order)[t.slot] == mem[t.addr]
    ensures !PlaceOfIndex(arr, ranges, x.place) ==>
              (x in Put(obj, mem, order) <==> x in obj) && (x in obj ==> Put(obj, mem, order)[x] == obj[x])
  {
    MovesIntended(arr, ranges, user, ios);
    IntendedOneSource(arr, ranges, user);
    IntendedEnds(arr, ranges, user);
    hide Intended, Moved, Faithful, Locate, Indices, Bytes, SameExtent;
    assert OneSource(order);
    PutEach(obj, mem, order, x);
  }

  /** Byte `j` of the user's buffers is stored as byte `j % cell` of record `j / cell`. */
  lemma WriteStoresAt(arr: Array, ranges: seq<Range>, user: seq<Iov>, ios: seq<Io>, order: seq<Transfer>, obj: Object,
      mem: Memory, j: nat)
    requires arr.Valid() && Faithful(arr, ranges, user, ios) && Distinct(Indices(ranges)) && j < Size(user)
    requires SameMoves(order, Moved(arr.cell, ios)) && forall a :: a in Bytes(user) ==> a in mem
    ensures j / arr.cell < |Indices(ranges)| && forall t :: t in order ==> t.addr in mem
    ensures var x := Slot(Locate(arr, Indices(ranges)[j / arr.cell]), j % arr.cell);
            x in Put(obj, mem, order) && Put(obj, mem, order)[x] == mem[Bytes(user)[j]]
  {
    hide Intended, Moved, Faithful, Locate, Indices, Bytes, SameExtent;
    WriteStores(arr, ranges, user, ios, order, obj, mem, Slot(Locate(arr, 0), 0));
    IntendedAt(arr, ranges, user, j);
    assert Intended(arr, ranges, user)[j] in Intended(arr, ranges, user);
  }

  lemma IntendedEnds(arr: Array, ranges: seq<Range>, user: seq<Iov>)
    requires arr.Valid() && SameExtent(arr, ranges, user)
    ensures forall t :: t in Intended(arr, ranges, user) ==>
              t.addr in Bytes(user) && PlaceOfIndex(arr, ranges, t.slot.place)
  {
    var ts := Intended(arr, ranges, user);
    assert |ts| == Size(user);
    hide Intended, Indices, Bytes, Locate, SameExtent, PlaceOfIndex;
    forall t | t in ts ensures t.addr in Bytes(user) && PlaceOfIndex(arr, ranges, t.slot.place) {
      var j :| 0 <= j < |ts| && ts[j] == t;
      EndsAt(arr, ranges, user, j);
    }
  }

  lemma EndsAt(arr: Array, ranges: seq<Range>, user: seq<Iov>, j: nat)
    requires arr.Valid() && SameExtent(arr, ranges, user) && j < Size(user)
    ensures |Intended(arr, ranges, user)| == Size(user)
    ensures var t := Intended(arr, ranges, user)[j]; t.addr in Bytes(user) && PlaceOfIndex(arr, ranges, t.slot.place)
  {
    hide Intended, Indices, Bytes, Locate, SameExtent;
    IntendedAt(arr, ranges, user, j);
    IndexPlace(arr, ranges, j / arr.cell);
  }

  lemma IndexPlace(arr: Array, ranges: seq<Range>, k: nat)
    requires arr.Valid() && k < |Indices(ranges)|
    ensures PlaceOfIndex(arr, ranges, Locate(arr, Indices(ranges)[k]))
  {
    assert Indices(ranges)[k] in Indices(ranges);
  }

  ghost predicate PlaceOfIndex(arr: Array, ranges: seq<Range>, p: Place)
    requires arr.Valid()
  {
    exists i :: i in Indices(ranges) && p == Locate(arr, i)
  }

  /** A read into disjoint buffers fetches each byte of each index, in any order. */
  lemma ReadFetches(arr: Array, ranges: seq<Range>, user: seq<Iov>, ios: seq<Io>, order: seq<Transfer>, obj: Object,
      mem: Memory)
    requires arr.Valid() && Faithful(arr, ranges, user, ios) && Distinct(Bytes(user))
    requires SameMoves(order, Moved(arr.cell, ios)) && forall t :: t in order ==> t.slot in obj
    ensures SameExtent(arr, ranges, user)
    ensures forall t :: t in Intended(arr, ranges, user) ==>
              t.addr in Get(mem, obj, order) && t.slot in obj && Get(mem, obj, order)[t.addr] == obj[t.slot]
  {
    MovesIntended(arr, ranges, user, ios);
    IntendedOneSlot(arr, ranges, user);
    hide Intended, Moved, SameExtent, Indices, Bytes, Faithful;
    assert OneSlot(order);
    GetEach(mem, obj, order, 0);
  }

  /** Writing disjoint ranges and reading them back, into buffers cut any other way, gives
      the same bytes. */
  lemma RoundTrip(arr: Array, ranges: seq<Range>, from: seq<Iov>, to: seq<Iov>, writes: seq<Io>, reads_: seq<Io>,
                  order: seq<Transfer>, back: seq<Transfer>, obj: Object, mem: Memory, mem': Memory)
    requires arr.Valid() && Faithful(arr, ranges, from, writes) && Faithful(arr, ranges, to, reads_)
    requires Distinct(Indices(ranges)) && Distinct(Bytes(to))
    requires SameMoves(order, Moved(arr.cell, writes)) && SameMoves(back, Moved(arr.cell, reads_))
    requires forall a :: a in Bytes(from) ==> a in mem
    ensures forall t :: t in order ==> t.addr in mem
    ensures forall t :: t in back ==> t.slot in Put(obj, mem, order)
    ensures Size(from) == Size(to)
    ensures var got := Get(mem', Put(obj, mem, order), back);
            forall j :: 0 <= j < Size(to) ==>
              Bytes(to)[j] in got && Bytes(from)[j] in mem && got[Bytes(to)[j]] == mem[Bytes(from)[j]]
  {
    WriteStores(arr, ranges, from, writes, order, obj, mem, Slot(Place(Dkey(0, 0), 0), 0));
    MovesIntended(arr, ranges, to, reads_);
    var stored := Put(obj, mem, order);
    var i, o := Intended(arr, ranges, from), Intended(arr, ranges, to);
    forall j | 0 <= j < Size(to)
      ensures i[j] in i && o[j] in o && i[j].slot == o[j].slot
      ensures i[j].addr == Bytes(from)[j] && o[j].addr == Bytes(to)[j]
    {
      IntendedAt(arr, ranges, from, j);
      IntendedAt(arr, ranges, to, j);
    }
    hide Intended, Moved, Put, Get, Faithful, SameExtent;
    forall t | t in back ensures t.slot in stored {
      var j :| 0 <= j < |o| && o[j] == t;
      assert i[j] in i;
    }
    ReadFetches(arr, ranges, to, reads_, back, stored, mem');
  }
}
