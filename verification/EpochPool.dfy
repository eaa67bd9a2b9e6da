/** All containers of a pool: each has its own counters and epochs, but their handles are in
    one store, and a request says which container it is for. */
module EpochPool {
  import opened EpochStore
  import opened EpochHandler
  import opened EpochRef
  import opened EpochCount
  import opened EpochServer

  type Cid = nat

  datatype Cont = Cont(ghce: U64, ghpce: U64, lres: Counters, lhes: Counters)

  /** A handle and the container it was opened for. */
  datatype Owned = Owned(cont: Cid, hdl: Hdl)

  datatype Pool = Pool(conts: map<Cid, Cont>, hdls: map<Uuid, Owned>)

  datatype Answer = Answer(rc: Rc, p: Pool)

  /** The handles of container `c`. */
  function Own(p: Pool, c: Cid): map<Uuid, Hdl> {
    map id | id in p.hdls && p.hdls[id].cont == c :: p.hdls[id].hdl
  }

  /** What container `c` would be on its own. */
  function Local(p: Pool, c: Cid): Store
    requires c in p.conts
  {
    Store(p.conts[c].ghce, p.conts[c].ghpce, p.conts[c].lres, p.conts[c].lhes, Own(p, c))
  }

  /** Write back what a request for container `c` did to it and to handle `id`, which stays
      with its container. */
  function Merged(p: Pool, c: Cid, id: Uuid, s: Store): Pool {
    Pool(p.conts[c := Cont(s.ghce, s.ghpce, s.lres, s.lhes)],
         if id in s.hdls then p.hdls[id := Owned(if id in p.hdls then p.hdls[id].cont else c, s.hdls[id])]
         else if id in Own(p, c) then p.hdls - {id}
         else p.hdls)
  }

  ghost function Settled(p: Pool, c: Cid, id: Uuid, o: Reply): Answer {
    if o.rc == Ok then Answer(Ok, Merged(p, c, id, o.s)) else Answer(o.rc, p)
  }

  /** What the service does with a request for container `c`.  A handle is looked up by itself;
      only closing goes by the container it was opened for. */
  ghost function Serves(p: Pool, c: Cid, q: Req): Answer {
    if c !in p.conts then Answer(NonExist, p)
    else
      match q
      case Open(id, capas, poolRw) =>
        if capas.rw && !poolRw then Answer(NoPerm, p)
        else if id in p.hdls then Answer(if p.hdls[id].hdl.capas == capas then Ok else Exist, p)
        else Settled(p, c, id, OpenOn(Local(p, c), id, capas))
      case Close(id, purge) =>
        if id !in p.hdls then Answer(Ok, p)
        else if p.hdls[id].cont !in p.conts then Answer(NonExist, p)
        else
          var o := p.hdls[id];
          Settled(p, o.cont, id, CloseOn(Local(p, o.cont), id, o.hdl, purge))
      case _ =>
        if q.id !in p.hdls then Answer(NoHdl, p)
        else Settled(p, c, q.id, Operate(Local(p, c), q.id, p.hdls[q.id].hdl, q))
  }

  /** The request is for the container of its handle.  Closing always is. */
  ghost predicate Addressed(p: Pool, c: Cid, q: Req) {
    q.Close? || q.id !in p.hdls || p.hdls[q.id].cont == c
  }

  /** The container a request works on. */
  ghost function Target(p: Pool, c: Cid, q: Req): Cid {
    if q.Close? && q.id in p.hdls then p.hdls[q.id].cont else c
  }

  /** Every container is as if on its own, in reference state `refs[c]`. */
  ghost predicate Sound(p: Pool, refs: map<Cid, Ref>) {
    && refs.Keys == p.conts.Keys
    && (forall id :: id in p.hdls ==> p.hdls[id].cont in p.conts)
    && forall c :: c in p.conts ==> Inv(refs[c]) && Rep(Local(p, c), refs[c])
  }

  // ---------------------------------------------------------------------------
  // What a request touches
  // ---------------------------------------------------------------------------

  /** The handle of the request, its counts, and no other handle. */
  ghost predicate Booked(s: Store, s': Store, id: Uuid, hdl: Hdl, h: Hdl) {
    && s'.hdls == s.hdls[id := h] && h != hdl && WellStored(s')
    && (if h.lhe == hdl.lhe then s'.lhes == s.lhes
        else CanShift(s.lhes, Some(hdl.lhe), Some(h.lhe)) && s'.lhes == Shifted(s.lhes, Some(hdl.lhe), Some(h.lhe)))
    && (if s'.lres == s.lres then h.lre == hdl.lre
        else CanShift(s.lres, Some(hdl.lre), Some(h.lre)) && s'.lres == Shifted(s.lres, Some(hdl.lre), Some(h.lre)))
    && (h.lhe == hdl.lhe ==>
          && h == hdl.(lre := h.lre) && h.lre < EPOCH_MAX
          && s' == s.(hdls := s'.hdls, lres := s'.lres))
  }

  lemma ShiftedStored(kvs: Counters, dec: Option<U64>, inc: Option<U64>)
    requires WellCounted(kvs) && CanShift(kvs, dec, inc)
    ensures WellCounted(Shifted(kvs, dec, inc))
    ensures dec.Some? && dec != inc ==> Shifted(kvs, dec, inc) != kvs
    ensures dec.None? && inc.Some? ==> Shifted(kvs, dec, inc) != kvs
  {
    if dec.Some? && dec != inc {
      ShiftedCount(kvs, dec, inc, dec.value);
    } else if inc.Some? {
      ShiftedCount(kvs, dec, inc, inc.value);
    }
  }

  lemma OperateBooks(s: Store, id: Uuid, hdl: Hdl, q: Req)
    requires WellStored(s) && !q.Open? && !q.Close?
    ensures var o := Operate(s, id, hdl, q);
            o.rc == Ok && o.s != s ==> id in o.s.hdls && Booked(s, o.s, id, hdl, o.s.hdls[id])
  {
    hide Shifted, LowestOf, WellCounted, Count;
    match q {
      case Hold(_, epoch) =>
        var h := HeldOn(s, hdl, epoch);
        if CanShift(s.lhes, Some(hdl.lhe), Some(h.lhe)) { ShiftedStored(s.lhes, Some(hdl.lhe), Some(h.lhe)); }
      case Slip(_, epoch) =>
        if CanShift(s.lres, Some(hdl.lre), Some(epoch)) { ShiftedStored(s.lres, Some(hdl.lre), Some(epoch)); }
      case Commit(_, epoch, _) =>
        var h := CommittedHdl(hdl, epoch);
        if CanCommit(s, hdl, epoch) {
          ShiftedStored(s.lhes, Some(hdl.lhe), Some(h.lhe));
          if !hdl.capas.noslip { ShiftedStored(s.lres, Some(hdl.lre), Some(h.lre)); }
        }
      case _ =>
    }
  }

  lemma ServeTouches(s: Store, q: Req, x: Uuid)
    requires x != q.id && Serve(s, q).rc == Ok
    ensures x in Serve(s, q).s.hdls <==> x in s.hdls
    ensures x in s.hdls ==> Serve(s, q).s.hdls[x] == s.hdls[x]
  {
    hide Shifted, LowestOf, Count, CheckEpoch, CheckGlobal, NewGhce;
  }

  lemma MergedSame(p: Pool, c: Cid, id: Uuid)
    requires c in p.conts
    ensures Merged(p, c, id, Local(p, c)) == p
  {
    assert p.conts[c := p.conts[c]] == p.conts;
    if id in Own(p, c) { assert p.hdls[id := p.hdls[id]] == p.hdls; }
  }

  /** Written back, the container of the handle is as the request left it. */
  lemma MergedLocal(p: Pool, c: Cid, id: Uuid, s: Store)
    requires c in p.conts && (id in p.hdls ==> p.hdls[id].cont == c)
    requires forall x :: x != id ==> (x in s.hdls <==> x in Own(p, c))
    requires forall x :: x != id && x in Own(p, c) ==> s.hdls[x] == Own(p, c)[x]
    ensures Local(Merged(p, c, id, s), c) == s
  {
    var own := Own(Merged(p, c, id, s), c);
    forall x ensures (x in own <==> x in s.hdls) && (x in own ==> own[x] == s.hdls[x]) {
      if x != id { assert x in own <==> x in Own(p, c); }
    }
    assert own == s.hdls;
  }

  /** Only the container of a handle has it. */
  lemma MergedElsewhere(p: Pool, c: Cid, id: Uuid, s: Store, d: Cid)
    requires c in p.conts && d in p.conts && d != c && (id in p.hdls ==> p.hdls[id].cont != d)
    ensures d in Merged(p, c, id, s).conts && Local(Merged(p, c, id, s), d) == Local(p, d)
  {
    var own := Own(Merged(p, c, id, s), d);
    forall x ensures (x in own <==> x in Own(p, d)) && (x in own ==> own[x] == Own(p, d)[x]) {}
    assert own == Own(p, d);
  }

  /** An addressed request is served as by the container on its own. */
  lemma AddressedIs(p: Pool, c: Cid, q: Req)
    requires c in p.conts && Addressed(p, c, q) && Target(p, c, q) in p.conts
    ensures var t := Target(p, c, q); Serves(p, c, q) == Settled(p, t, q.id, Serve(Local(p, t), q))
  {
    hide OpenOn, CloseOn, Operate, Merged;
    var t := Target(p, c, q);
    MergedSame(p, t, q.id);
    assert q.id in Own(p, t) <==> q.id in p.hdls && p.hdls[q.id].cont == t;
  }

  /** Requests that name their handle's container are answered as the containers' references
      do, and leave every container sound. */
  lemma AddressedServes(p: Pool, refs: map<Cid, Ref>, c: Cid, q: Req)
    requires Sound(p, refs) && c in p.conts && Addressed(p, c, q)
    ensures var a, t := Serves(p, c, q), Target(p, c, q);
            && t in refs && (a.rc == Step(refs[t], q).rc || (a.rc == Overflow && CounterFull(Local(p, t))))
            && (if a.rc == Ok then Sound(a.p, refs[t := Step(refs[t], q).r]) else a.p == p)
            && (q.Close? ==> a.rc == Ok)
  {
    hide Rep, Inv, Step, Serve, Serves, CounterFull, Local, Merged, Own;
    var t := Target(p, c, q);
    AddressedIs(p, c, q);
    CloseWorks(Local(p, t), refs[t], q);
    ServeRefines(Local(p, t), refs[t], q);
    StepKeepsInv(refs[t], q);
    if Serves(p, c, q).rc == Ok {
      AddressedSound(p, refs, t, q);
    }
  }

  lemma AddressedSound(p: Pool, refs: map<Cid, Ref>, t: Cid, q: Req)
    requires Sound(p, refs) && t in p.conts && (q.id in p.hdls ==> p.hdls[q.id].cont == t)
    requires Serve(Local(p, t), q).rc == Ok && Inv(Step(refs[t], q).r)
    requires Rep(Serve(Local(p, t), q).s, Step(refs[t], q).r)
    ensures Sound(Merged(p, t, q.id, Serve(Local(p, t), q).s), refs[t := Step(refs[t], q).r])
  {
    hide Rep, Inv, Step, Serve;
    var s := Serve(Local(p, t), q).s;
    var p' := Merged(p, t, q.id, s);
    forall x | x != q.id
      ensures x in s.hdls <==> x in Own(p, t)
      ensures x in Own(p, t) ==> s.hdls[x] == Own(p, t)[x]
    {
      ServeTouches(Local(p, t), q, x);
    }
    MergedLocal(p, t, q.id, s);
    forall d | d in p.conts && d != t ensures Local(p', d) == Local(p, d) { MergedElsewhere(p, t, q.id, s, d); }
    hide Local;
    assert p'.conts.Keys == p.conts.Keys;
  }

  lemma CloseWorks(s: Store, r: Ref, q: Req)
    requires Rep(s, r) && Inv(r)
    ensures q.Close? ==> Serve(s, q).rc == Ok
  {
    hide CloseOn, Inv;
    if q.Close? && q.id in r.hdls { CloseRefines(s, r, q.id, q.purge); }
  }

  // ---------------------------------------------------------------------------
  // Runs
  // ---------------------------------------------------------------------------

  ghost function PoolAfter(p: Pool, rs: seq<(Cid, Req)>): Pool
    decreases |rs|
  {
    if rs == [] then p else PoolAfter(Serves(p, rs[0].0, rs[0].1).p, rs[1..])
  }

  ghost function PoolAnswers(p: Pool, rs: seq<(Cid, Req)>): seq<Rc>
    decreases |rs|
  {
    if rs == [] then []
    else
      var a := Serves(p, rs[0].0, rs[0].1);
      [a.rc] + PoolAnswers(a.p, rs[1..])
  }

  /** Every request of a run names its handle's container. */
  ghost predicate AllAddressed(p: Pool, rs: seq<(Cid, Req)>)
    decreases |rs|
  {
    rs != [] ==> Addressed(p, rs[0].0, rs[0].1) && AllAddressed(Serves(p, rs[0].0, rs[0].1).p, rs[1..])
  }

  /** A decrement for any open handle finds a count to take. */
  ghost predicate Covered(p: Pool) {
    forall id :: id in p.hdls ==>
      var o := p.hdls[id];
      o.cont in p.conts && Count(p.conts[o.cont].lhes, o.hdl.lhe) >= 1 && Count(p.conts[o.cont].lres, o.hdl.lre) >= 1
  }

  lemma SoundCovers(p: Pool, refs: map<Cid, Ref>)
    requires Sound(p, refs)
    ensures Covered(p)
  {
    hide Inv;
    forall id | id in p.hdls
      ensures var o := p.hdls[id];
              && o.cont in p.conts
              && Count(p.conts[o.cont].lhes, o.hdl.lhe) >= 1 && Count(p.conts[o.cont].lres, o.hdl.lre) >= 1
    {
      var c := p.hdls[id].cont;
      assert id in Local(p, c).hdls;
      CountedAtLeast(Local(p, c), refs[c], id);
    }
  }

  /** Over any run of requests that name their handle's container no counter can underflow, and
      every close succeeds. */
  lemma {:induction false} AddressedRun(p: Pool, refs: map<Cid, Ref>, rs: seq<(Cid, Req)>)
    returns (refs': map<Cid, Ref>)
    requires Sound(p, refs) && AllAddressed(p, rs) && forall k :: 0 <= k < |rs| ==> rs[k].0 in p.conts
    ensures Sound(PoolAfter(p, rs), refs') && Covered(PoolAfter(p, rs))
    ensures |PoolAnswers(p, rs)| == |rs|
    ensures forall k :: 0 <= k < |rs| && rs[k].1.Close? ==> PoolAnswers(p, rs)[k] == Ok
    decreases |rs|
  {
    hide Rep, Inv, Step, Serves, CounterFull, Local, Merged, Own, Covered;
    if rs == [] {
      refs' := refs;
    } else {
      var c, q := rs[0].0, rs[0].1;
      var a := Serves(p, c, q);
      AddressedServes(p, refs, c, q);
      var t := Target(p, c, q);
      var next := if a.rc == Ok then refs[t := Step(refs[t], q).r] else refs;
      SameConts(p, a.p, refs, next);
      refs' := AddressedRun(a.p, next, rs[1..]);
      forall k | 0 <= k < |rs| && rs[k].1.Close? ensures PoolAnswers(p, rs)[k] == Ok {
        if k > 0 { assert rs[1..][k - 1] == rs[k]; }
      }
    }
    SoundCovers(PoolAfter(p, rs), refs');
  }

  lemma SameConts(p: Pool, p': Pool, refs: map<Cid, Ref>, refs': map<Cid, Ref>)
    requires Sound(p, refs) && Sound(p', refs') && refs'.Keys == refs.Keys
    ensures p'.conts.Keys == p.conts.Keys
  {
  }

  // ---------------------------------------------------------------------------
  // Requests for another container
  // ---------------------------------------------------------------------------

  /** What such a request leaves: the counts of container `c` have moved, and the handle of
      container `a`. */
  lemma StrayLeaves(p: Pool, c: Cid, q: Req)
    requires c in p.conts && q.id in p.hdls && !Addressed(p, c, q) && p.hdls[q.id].cont in p.conts
    requires WellStored(Local(p, c)) && Serves(p, c, q).rc == Ok && Serves(p, c, q).p != p
    ensures var p', o := Serves(p, c, q).p, p.hdls[q.id];
            && q.id in p'.hdls && p'.conts.Keys == p.conts.Keys && !q.Open? && !q.Close?
            && var s, h := Operate(Local(p, c), q.id, o.hdl, q).s, p'.hdls[q.id].hdl;
            && Booked(Local(p, c), s, q.id, o.hdl, h)
            && Local(p', c) == s.(hdls := Own(p, c))
            && Local(p', o.cont) == Local(p, o.cont).(hdls := Own(p, o.cont)[q.id := h])
            && p'.hdls == p.hdls[q.id := Owned(o.cont, h)]
  {
    hide Operate, OpenOn, CloseOn, Booked;
    var o := p.hdls[q.id];
    var s := Operate(Local(p, c), q.id, o.hdl, q).s;
    var p' := Serves(p, c, q).p;
    OperateBooks(Local(p, c), q.id, o.hdl, q);
    MergedSame(p, c, q.id);
    BookedHas(Local(p, c), s, q.id, o.hdl);
    assert p'.hdls == p.hdls[q.id := Owned(o.cont, s.hdls[q.id])];
    assert Own(p', c) == Own(p, c);
    assert Own(p', o.cont) == Own(p, o.cont)[q.id := s.hdls[q.id]];
  }

  lemma BookedHas(s: Store, s': Store, id: Uuid, hdl: Hdl)
    requires id in s'.hdls && Booked(s, s', id, hdl, s'.hdls[id])
    ensures s'.hdls == s.hdls[id := s'.hdls[id]] && s' != s
  {
  }

  /** A stray request that was carried out leaves containers that are sound exactly if it only
      moved a reference, and the counters had one too many where it was taken from and where
      the handle went. */
  ghost predicate Harmless(p: Pool, refs: map<Cid, Ref>, c: Cid, hdl: Owned, h: Hdl)
    requires c in refs && hdl.cont in refs
  {
    h.lhe == hdl.hdl.lhe && hdl.hdl.lre in refs[c].leaks && h.lre in refs[hdl.cont].leaks
  }

  lemma StrayExact(p: Pool, refs: map<Cid, Ref>, c: Cid, q: Req)
    requires Sound(p, refs) && c in p.conts && q.id in p.hdls && !Addressed(p, c, q)
    requires Serves(p, c, q).rc == Ok && Serves(p, c, q).p != p
    ensures var p' := Serves(p, c, q).p;
            && q.id in p'.hdls
            && ((exists refs' :: Sound(p', refs')) <==> Harmless(p, refs, c, p.hdls[q.id], p'.hdls[q.id].hdl))
  {
    hide Inv, Serves, Operate, Booked, Local, Own;
    RepStored(p, refs, c);
    StrayLeaves(p, c, q);
    var p', o := Serves(p, c, q).p, p.hdls[q.id];
    var h := p'.hdls[q.id].hdl;
    if Harmless(p, refs, c, o, h) {
      var refs' := StrayHarmless(p, refs, c, q);
    }
    forall refs' | Sound(p', refs') ensures Harmless(p, refs, c, o, h) { StrayHarms(p, refs, refs', c, q); }
  }

  lemma RepStored(p: Pool, refs: map<Cid, Ref>, c: Cid)
    requires Sound(p, refs) && c in p.conts
    ensures WellStored(Local(p, c))
  {
    hide Inv;
  }

  /** Whatever reference states the containers are left in, the counts say that. */
  lemma StrayHarms(p: Pool, refs: map<Cid, Ref>, refs': map<Cid, Ref>, c: Cid, q: Req)
    requires Sound(p, refs) && c in p.conts && q.id in p.hdls && !Addressed(p, c, q)
    requires Serves(p, c, q).rc == Ok && Serves(p, c, q).p != p && Sound(Serves(p, c, q).p, refs')
    ensures q.id in Serves(p, c, q).p.hdls
    ensures Harmless(p, refs, c, p.hdls[q.id], Serves(p, c, q).p.hdls[q.id].hdl)
  {
    hide Inv, Serves, Operate, Shifted, Ghce, Own, Booked;
    RepStored(p, refs, c);
    StrayLeaves(p, c, q);
    var p', o := Serves(p, c, q).p, p.hdls[q.id];
    var s, h := Operate(Local(p, c), q.id, o.hdl, q).s, p'.hdls[q.id].hdl;
    var a := o.cont;
    StrayCounts(Local(p, c), s, q.id, o.hdl, h, refs[c], refs'[c], Own(p, c));
    OwnsIt(p, q.id);
    ReadersSet(Own(p, a), q.id, h, h.lre);
    assert Count(p.conts[a].lres, h.lre) == |Readers(Own(p, a), h.lre)| + refs[a].leaks[h.lre];
    assert Count(p.conts[a].lres, h.lre) == |Readers(Own(p, a)[q.id := h], h.lre)| + refs'[a].leaks[h.lre];
  }

  lemma OwnsIt(p: Pool, id: Uuid)
    requires id in p.hdls
    ensures var o := p.hdls[id]; id in Own(p, o.cont) && Own(p, o.cont)[id] == o.hdl
  {
  }

  /** Counts taken for a handle that is not there. */
  lemma StrayCounts(s: Store, s': Store, id: Uuid, hdl: Hdl, h: Hdl, r: Ref, r': Ref, own: map<Uuid, Hdl>)
    requires Rep(s, r) && s.hdls == own && Booked(s, s', id, hdl, h) && Rep(s'.(hdls := own), r')
    ensures h.lhe == hdl.lhe && hdl.lre in r.leaks && h.lre != hdl.lre
  {
    hide Shifted, Ghce;
    assert Count(s'.lhes, hdl.lhe) == |Holders(own, hdl.lhe)| == Count(s.lhes, hdl.lhe);
    assert Count(s'.lres, hdl.lre) == |Readers(own, hdl.lre)| + r'.leaks[hdl.lre];
    assert Count(s.lres, hdl.lre) == |Readers(own, hdl.lre)| + r.leaks[hdl.lre];
    if h.lhe != hdl.lhe {
      ShiftedCount(s.lhes, Some(hdl.lhe), Some(h.lhe), hdl.lhe);
    } else {
      ShiftedCount(s.lres, Some(hdl.lre), Some(h.lre), hdl.lre);
    }
  }

  /** A reference moved from a leak to another stands for the leaks moved with it. */
  lemma StrayHarmless(p: Pool, refs: map<Cid, Ref>, c: Cid, q: Req) returns (refs': map<Cid, Ref>)
    requires Sound(p, refs) && c in p.conts && q.id in p.hdls && !Addressed(p, c, q)
    requires Serves(p, c, q).rc == Ok && Serves(p, c, q).p != p
    requires q.id in Serves(p, c, q).p.hdls
    requires Harmless(p, refs, c, p.hdls[q.id], Serves(p, c, q).p.hdls[q.id].hdl)
    ensures Sound(Serves(p, c, q).p, refs')
  {
    hide Inv, Rep, Serves, Operate, Shifted, Ghce, Booked, Own;
    RepStored(p, refs, c);
    StrayLeaves(p, c, q);
    var p', o := Serves(p, c, q).p, p.hdls[q.id];
    var s, h := Operate(Local(p, c), q.id, o.hdl, q).s, p'.hdls[q.id].hdl;
    var a, from, to := o.cont, o.hdl.lre, h.lre;
    var rc := refs[c].(leaks := refs[c].leaks - multiset{from} + multiset{to});
    var ra := refs[a].(hdls := Own(p, a)[q.id := h], leaks := refs[a].leaks + multiset{from} - multiset{to});
    refs' := refs[c := rc][a := ra];
    OwnsIt(p, q.id);
    BookedRef(Local(p, c), s, q.id, o.hdl, h);
    TakenFrom(Local(p, c), s, q.id, o.hdl, h, refs[c], rc, Own(p, c));
    TakenTo(Local(p, a), q.id, h, refs[a], ra);
    forall d | d in p.conts && d != a && d != c ensures Local(p', d) == Local(p, d) {
      MergedElsewhere(p, c, q.id, s, d);
      ServedBy(p, c, q);
    }
    assert refs'.Keys == p'.conts.Keys;
  }

  lemma BookedRef(s: Store, s': Store, id: Uuid, hdl: Hdl, h: Hdl)
    requires Booked(s, s', id, hdl, h) && h.lhe == hdl.lhe
    ensures h == hdl.(lre := h.lre) && h.lre < EPOCH_MAX && h.lre != hdl.lre
  {
  }

  lemma ServedBy(p: Pool, c: Cid, q: Req)
    requires c in p.conts && q.id in p.hdls && !Addressed(p, c, q) && !q.Open? && Serves(p, c, q).rc == Ok
    ensures Serves(p, c, q).p == Merged(p, c, q.id, Operate(Local(p, c), q.id, p.hdls[q.id].hdl, q).s)
  {
    hide Operate;
  }

  lemma TakenFrom(s: Store, s': Store, id: Uuid, hdl: Hdl, h: Hdl, r: Ref, r': Ref, own: map<Uuid, Hdl>)
    requires Rep(s, r) && Inv(r) && s.hdls == own && Booked(s, s', id, hdl, h) && h.lhe == hdl.lhe && hdl.lre in r.leaks
    requires r' == r.(leaks := r.leaks - multiset{hdl.lre} + multiset{h.lre})
    ensures Rep(s'.(hdls := own), r') && Inv(r')
  {
    hide Shifted;
    assert s'.lres == Shifted(s.lres, Some(hdl.lre), Some(h.lre)) && h.lre != hdl.lre;
    forall e: U64 ensures Count(s'.lres, e) == |Readers(own, e)| + r'.leaks[e] {
      ShiftedCount(s.lres, Some(hdl.lre), Some(h.lre), e);
    }
    assert Glhe(r') == Glhe(r);
  }

  lemma TakenTo(s: Store, id: Uuid, h: Hdl, r: Ref, r': Ref)
    requires Rep(s, r) && Inv(r) && id in s.hdls && h == s.hdls[id].(lre := h.lre) && h.lre < EPOCH_MAX
    requires h.lre != s.hdls[id].lre && h.lre in r.leaks
    requires r' == Ref(s.hdls[id := h], r.ghpce, r.leaks + multiset{s.hdls[id].lre} - multiset{h.lre})
    ensures Rep(s.(hdls := s.hdls[id := h]), r') && Inv(r')
  {
    SameHolders(s.lhes, r, id, h);
    assert Glhe(r') == Glhe(r.(hdls := r.hdls[id := h]));
    forall e: U64 ensures Count(s.lres, e) == |Readers(s.hdls[id := h], e)| + r'.leaks[e] {
      ReadersSet(s.hdls, id, h, e);
    }
  }

  // ---------------------------------------------------------------------------
  // Holds that went astray
  // ---------------------------------------------------------------------------

  ghost predicate WellPool(p: Pool) {
    && (forall id :: id in p.hdls ==> p.hdls[id].cont in p.conts)
    && forall c :: c in p.conts ==> WellStored(Local(p, c))
  }

  /** How many holds at epoch `e` are not counted. */
  ghost function Uncounted(s: Store, e: U64): int {
    |Holders(s.hdls, e)| - Count(s.lhes, e)
  }

  lemma BookedKeeps(s: Store, s': Store, id: Uuid, hdl: Hdl, h: Hdl, e: U64)
    requires WellStored(s) && Booked(s, s', id, hdl, h) && id in s.hdls && s.hdls[id] == hdl
    ensures Uncounted(s', e) == Uncounted(s, e)
  {
    hide Shifted, WellCounted;
    HoldersSet(s.hdls, id, h, e);
    if h.lhe != hdl.lhe { ShiftedCount(s.lhes, Some(hdl.lhe), Some(h.lhe), e); }
  }

  lemma OpenKeeps(s: Store, id: Uuid, capas: Capas, e: U64)
    requires WellStored(s) && id !in s.hdls && OpenOn(s, id, capas).rc == Ok
    ensures WellStored(OpenOn(s, id, capas).s) && Uncounted(OpenOn(s, id, capas).s, e) == Uncounted(s, e)
  {
    hide Shifted, WellCounted, LowestOf, Count;
    var h := Hdl(capas, s.ghce, s.ghce, EPOCH_MAX);
    ShiftedStored(s.lres, None, Some(h.lre));
    ShiftedStored(s.lhes, None, Some(h.lhe));
    ShiftedCount(s.lhes, None, Some(h.lhe), e);
    HoldersSet(s.hdls, id, h, e);
  }

  lemma CloseKeeps(s: Store, id: Uuid, purge: bool, e: U64)
    requires WellStored(s) && id in s.hdls && CloseOn(s, id, s.hdls[id], purge).rc == Ok
    ensures var s' := CloseOn(s, id, s.hdls[id], purge).s; WellStored(s') && Uncounted(s', e) == Uncounted(s, e)
  {
    hide Shifted, WellCounted, LowestOf, Count;
    var h := s.hdls[id];
    ShiftedStored(s.lres, Some(h.lre), None);
    ShiftedStored(s.lhes, Some(h.lhe), None);
    ShiftedCount(s.lhes, Some(h.lhe), None, e);
    HoldersDrop(s.hdls, id, e);
  }

  lemma ServeKeeps(s: Store, q: Req, e: U64)
    requires WellStored(s) && Serve(s, q).rc == Ok
    ensures WellStored(Serve(s, q).s) && Uncounted(Serve(s, q).s, e) == Uncounted(s, e)
  {
    hide OpenOn, CloseOn, Operate, Booked, WellStored, Uncounted;
    if q.Open? {
      if q.id !in s.hdls { OpenKeeps(s, q.id, q.capas, e); }
    } else if q.Close? {
      if q.id in s.hdls { CloseKeeps(s, q.id, q.purge, e); }
    } else {
      OperateBooks(s, q.id, s.hdls[q.id], q);
      var s' := Serve(s, q).s;
      if s' != s {
        BookedStored(s, s', q.id, s.hdls[q.id], s'.hdls[q.id]);
        BookedKeeps(s, s', q.id, s.hdls[q.id], s'.hdls[q.id], e);
      }
    }
  }

  lemma BookedStored(s: Store, s': Store, id: Uuid, hdl: Hdl, h: Hdl)
    requires Booked(s, s', id, hdl, h)
    ensures WellStored(s')
  {
  }

  /** Requests that name their handle's container change nothing of what is not counted. */
  lemma AddressedKeeps(p: Pool, b: Cid, q: Req, c: Cid, e: U64)
    requires WellPool(p) && Addressed(p, b, q) && c in p.conts
    ensures var p' := Serves(p, b, q).p;
            c in p'.conts && WellPool(p') && Uncounted(Local(p', c), e) == Uncounted(Local(p, c), e)
  {
    hide Serves, Serve, WellStored, Uncounted, Merged;
    if b in p.conts && Serves(p, b, q).rc == Ok {
      var t := Target(p, b, q);
      AddressedIs(p, b, q);
      var s := Serve(Local(p, t), q).s;
      var p' := Serves(p, b, q).p;
      MergedConts(p, t, q.id, s);
      forall x | x != q.id
        ensures x in s.hdls <==> x in Own(p, t)
        ensures x in Own(p, t) ==> s.hdls[x] == Own(p, t)[x]
      {
        ServeTouches(Local(p, t), q, x);
      }
      MergedLocal(p, t, q.id, s);
      ServeKeeps(Local(p, t), q, e);
      forall d | d in p.conts && d != t ensures Local(p', d) == Local(p, d) { MergedElsewhere(p, t, q.id, s, d); }
    } else {
      RefusedSame(p, b, q);
    }
  }

  lemma MergedConts(p: Pool, c: Cid, id: Uuid, s: Store)
    requires c in p.conts && forall x :: x in p.hdls ==> p.hdls[x].cont in p.conts
    ensures Merged(p, c, id, s).conts.Keys == p.conts.Keys
    ensures forall x :: x in Merged(p, c, id, s).hdls ==> Merged(p, c, id, s).hdls[x].cont in p.conts
  {
  }

  lemma RefusedSame(p: Pool, c: Cid, q: Req)
    requires c !in p.conts || Serves(p, c, q).rc != Ok
    ensures Serves(p, c, q).p == p
  {
    hide OpenOn, CloseOn, Operate;
  }

  lemma {:induction false} AddressedRunKeeps(p: Pool, rs: seq<(Cid, Req)>, c: Cid, e: U64)
    requires WellPool(p) && AllAddressed(p, rs) && c in p.conts
    ensures c in PoolAfter(p, rs).conts && Uncounted(Local(PoolAfter(p, rs), c), e) == Uncounted(Local(p, c), e)
    decreases |rs|
  {
    if rs != [] {
      hide Serves, WellPool, Uncounted, Addressed;
      AddressedKeeps(p, rs[0].0, rs[0].1, c, e);
      AddressedRunKeeps(Serves(p, rs[0].0, rs[0].1).p, rs[1..], c, e);
    }
  }

  /** Once a stray request has moved a hold, the container it was sent to is never without an
      open handle again, whatever requests that name their handle's container follow: some
      handle cannot be closed. */
  lemma StrayForever(p: Pool, refs: map<Cid, Ref>, c: Cid, q: Req, rs: seq<(Cid, Req)>)
    requires Sound(p, refs) && c in p.conts && q.id in p.hdls && !Addressed(p, c, q)
    requires Serves(p, c, q).rc == Ok && q.id in Serves(p, c, q).p.hdls
    requires Serves(p, c, q).p.hdls[q.id].hdl.lhe != p.hdls[q.id].hdl.lhe
    requires AllAddressed(Serves(p, c, q).p, rs)
    ensures Own(PoolAfter(Serves(p, c, q).p, rs), c) != map[]
  {
    hide Inv, Serves, Operate, Booked, Own, AllAddressed, WellStored;
    forall d | d in p.conts ensures WellStored(Local(p, d)) { RepStored(p, refs, d); }
    StrayLeaves(p, c, q);
    var p', o := Serves(p, c, q).p, p.hdls[q.id];
    var s, h := Operate(Local(p, c), q.id, o.hdl, q).s, p'.hdls[q.id].hdl;
    BookedStored(Local(p, c), s, q.id, o.hdl, h);
    StrayUncounted(Local(p, c), s, q.id, o.hdl, h, refs[c]);
    StrayWell(p, c, q);
    AddressedRunKeeps(p', rs, c, o.hdl.lhe);
    NoneHeld(Own(PoolAfter(p', rs), c), o.hdl.lhe);
  }

  lemma NoneHeld(own: map<Uuid, Hdl>, e: U64)
    ensures own == map[] ==> |Holders(own, e)| == 0
  {
    if own == map[] { assert Holders(own, e) == {}; }
  }

  lemma StrayUncounted(s: Store, s': Store, id: Uuid, hdl: Hdl, h: Hdl, r: Ref)
    requires Rep(s, r) && WellStored(s) && Booked(s, s', id, hdl, h) && h.lhe != hdl.lhe
    ensures Uncounted(s'.(hdls := s.hdls), hdl.lhe) == 1
  {
    hide Shifted, WellCounted, Ghce;
    ShiftedCount(s.lhes, Some(hdl.lhe), Some(h.lhe), hdl.lhe);
    assert Count(s.lhes, hdl.lhe) == |Holders(s.hdls, hdl.lhe)|;
  }

  lemma StrayWell(p: Pool, c: Cid, q: Req)
    requires WellPool(p) && c in p.conts && q.id in p.hdls && !Addressed(p, c, q)
    requires Serves(p, c, q).rc == Ok && Serves(p, c, q).p != p
    ensures WellPool(Serves(p, c, q).p)
  {
    hide Serves, Operate, Booked, Merged;
    StrayLeaves(p, c, q);
    var p', o := Serves(p, c, q).p, p.hdls[q.id];
    var s := Operate(Local(p, c), q.id, o.hdl, q).s;
    BookedStored(Local(p, c), s, q.id, o.hdl, p'.hdls[q.id].hdl);
    ServedBy(p, c, q);
    MergedConts(p, c, q.id, s);
    forall d | d in p.conts ensures WellStored(Local(p', d)) {
      if d != c && d != o.cont { MergedElsewhere(p, c, q.id, s, d); }
    }
  }

  // ---------------------------------------------------------------------------
  // An example
  // ---------------------------------------------------------------------------

  const Writer := Capas(false, true, false)

  /** A container with one handle that has done nothing yet. */
  const Opened := Cont(0, 0, map[0 := 1], map[EPOCH_MAX := 1])

  const Fresh := Cont(0, 0, map[], map[])

  ghost function Start(a: Cid, b: Cid): Pool {
    Pool(map[a := Fresh, b := Fresh], map[])
  }

  lemma FreshSound(a: Cid, b: Cid)
    requires a != b
    ensures Sound(Start(a, b), map[a := Created, b := Created])
  {
    var p := Start(a, b);
    forall c | c in p.conts ensures Rep(Local(p, c), Created) {
      assert Own(p, c) == map[];
      assert Lhes(Created.hdls) == {};
      assert forall e: U64 :: Holders(Created.hdls, e) == {} && Readers(Created.hdls, e) == {};
    }
  }

  lemma OneKey(e: U64)
    ensures LowestOf({e}) == e
  {
  }

  lemma FreshOpens(s: Store, id: Uuid)
    requires s.ghce == s.ghpce == 0 && s.lres == map[] && s.lhes == map[]
    ensures OpenOn(s, id, Writer).rc == Ok
    ensures OpenOn(s, id, Writer).s ==
            s.(lres := map[0 := 1], lhes := map[EPOCH_MAX := 1], hdls := s.hdls[id := Hdl(Writer, 0, 0, EPOCH_MAX)])
  {
    var none: Counters := map[];
    assert none.Keys == {};
    assert Shifted(none, None, Some(0)) == map[0 := 1] && Shifted(none, None, Some(EPOCH_MAX)) == map[EPOCH_MAX := 1];
    OneKey(0);
    OneKey(EPOCH_MAX);
    var r: Counters, h: Counters := map[0 := 1], map[EPOCH_MAX := 1];
    assert r.Keys == {0} && h.Keys == {EPOCH_MAX};
  }

  /** Handle `x` of container `a`, sent to container `b`, takes the hold of `y` there.  Up to
      then all was sound. */
  lemma StrayHappens(a: Cid, b: Cid, x: Uuid, y: Uuid) returns (refs: map<Cid, Ref>)
    requires a != b && x != y
    ensures var p1 := Serves(Start(a, b), a, Open(x, Writer, true));
            var p2 := Serves(p1.p, b, Open(y, Writer, true));
            var p3 := Serves(p2.p, b, Hold(x, 1));
            && p1.rc == p2.rc == p3.rc == Ok && Sound(p2.p, refs)
            && x in p2.p.hdls && !Addressed(p2.p, b, Hold(x, 1))
            && x in p3.p.hdls && p3.p.hdls[x].hdl.lhe != p2.p.hdls[x].hdl.lhe
  {
    var p0 := Start(a, b);
    refs := StillSound(a, b, Open(x, Writer, true), Open(y, Writer, true));
    hide Serves, Sound;
    OpensFresh(p0, a, x);
    var p1 := Serves(p0, a, Open(x, Writer, true)).p;
    OpensFresh(p1, b, y);
    HoldsStray(Serves(p1, b, Open(y, Writer, true)).p, b, x);
  }

  const FirstHdl := Hdl(Writer, 0, 0, EPOCH_MAX)

  lemma OpensFresh(p: Pool, c: Cid, id: Uuid)
    requires c in p.conts && p.conts[c] == Fresh && id !in p.hdls
    ensures Serves(p, c, Open(id, Writer, true)) ==
            Answer(Ok, Pool(p.conts[c := Opened], p.hdls[id := Owned(c, FirstHdl)]))
  {
    hide OpenOn, Operate, LowestOf, Shifted;
    FreshOpens(Local(p, c), id);
  }

  lemma HoldsStray(p: Pool, c: Cid, id: Uuid)
    requires c in p.conts && p.conts[c] == Opened && id in p.hdls && p.hdls[id].hdl == FirstHdl
    ensures var o := Serves(p, c, Hold(id, 1));
            o.rc == Ok && id in o.p.hdls && o.p.hdls[id].hdl.lhe == 1
  {
    hide OpenOn, Operate, LowestOf, Shifted;
    OpenedHolds(Local(p, c), id);
  }

  lemma StillSound(a: Cid, b: Cid, q: Req, q': Req) returns (refs: map<Cid, Ref>)
    requires a != b && q.Open? && q'.Open? && q.id != q'.id
    ensures Sound(Serves(Serves(Start(a, b), a, q).p, b, q').p, refs)
  {
    hide Serves, Rep, Inv, Step, CounterFull, Local, Own;
    FreshSound(a, b);
    var p0 := Start(a, b);
    refs := map[a := Created, b := Created];
    AddressedServes(p0, refs, a, q);
    var p1 := Serves(p0, a, q);
    refs := if p1.rc == Ok then refs[a := Step(refs[a], q).r] else refs;
    OpensOne(p0, a, q, q'.id);
    AddressedServes(p1.p, refs, b, q');
    refs := if Serves(p1.p, b, q').rc == Ok then refs[b := Step(refs[b], q').r] else refs;
  }

  lemma OpensOne(p: Pool, c: Cid, q: Req, x: Uuid)
    requires q.Open? && x != q.id && c in p.conts
    ensures x in Serves(p, c, q).p.hdls <==> x in p.hdls
  {
    hide OpenOn, Local;
  }

  lemma OpenedHolds(s: Store, id: Uuid)
    requires s.ghce == s.ghpce == 0 && s.lres == map[0 := 1] && s.lhes == map[EPOCH_MAX := 1]
    ensures var h := Hdl(Writer, 0, 0, EPOCH_MAX); var o := Operate(s, id, h, Hold(id, 1));
            o.rc == Ok && id in o.s.hdls && o.s.hdls[id] == h.(lhe := 1)
  {
    OneKey(0);
    OneKey(1);
    OneKey(EPOCH_MAX);
    assert s.lres.Keys == {0} && s.lhes.Keys == {EPOCH_MAX};
    var lhes := Shifted(s.lhes, Some(EPOCH_MAX), Some(1));
    assert lhes == map[1 := 1] && lhes.Keys == {1};
  }

  // ---------------------------------------------------------------------------
  // The service
  // ---------------------------------------------------------------------------

  class PoolService {
    var conts: map<Cid, Cont>
    var hdls: map<Uuid, Owned>

    function V(): Pool
      reads this
    {
      Pool(conts, hdls)
    }

    ghost predicate Valid()
      reads this
    {
      WellPool(V())
    }

    constructor ()
      ensures Valid() && V() == Pool(map[], map[])
    {
      conts, hdls := map[], map[];
    }

    /** A new container has no epochs and no handles; one that is there stays as it is. */
    method Create(c: Cid, poolRw: bool) returns (rc: Rc)
      requires Valid()
      modifies this
      ensures Valid() && rc == if poolRw then Ok else NoPerm
      ensures V() == if poolRw && c !in old(conts) then Pool(old(conts)[c := Fresh], old(hdls)) else old(V())
    {
      if !poolRw {
        return NoPerm;
      }
      if c in conts {
        return Ok;
      }
      ghost var p := V();
      conts := conts[c := Cont(0, 0, map[], map[])];
      forall d | d in conts ensures WellStored(Local(V(), d)) {
        if d != c { assert WellStored(Local(p, d)); }
      }
      rc := Ok;
    }

    /** Serve a request for container `c` in a transaction of its own. */
    method Handle(c: Cid, q: Req) returns (rc: Rc)
      requires Valid()
      modifies this
      ensures Valid() && Answer(rc, V()) == Serves(old(V()), c, q)
    {
      hide WellStored, Serves, OpenOn, CloseOn, Operate, Merged;
      ghost var p := V();
      ServesWell(p, c, q);
      ServesIs(p, c, q);
      if c !in conts {
        return NonExist;
      }
      var at := c;
      if q.Open? {
        if q.capas.rw && !q.poolRw {
          return NoPerm;
        }
        if q.id in hdls {
          return if hdls[q.id].hdl.capas == q.capas then Ok else Exist;
        }
      } else if q.id !in hdls {
        return if q.Close? then Ok else NoHdl;
      } else if q.Close? {
        at := hdls[q.id].cont;
      }
      var tx := new Tx(Local(V(), at));
      assert WellStored(Local(p, at));
      var state, sent;
      if q.Open? {
        var hdl;
        rc, hdl, state := EpochInitHdl(tx, q.capas, q.id);
        if rc != Ok { return; }
        tx.Write(SetHdl(q.id, hdl));
      } else if q.Close? {
        rc, sent := EpochFiniHdl(tx, q.id, hdls[q.id].hdl, q.purge);
        if rc != Ok { return; }
        tx.Write(DelHdl(q.id));
      } else {
        rc, state, sent := OperateHdl(tx, q.id, hdls[q.id].hdl, q);
        if rc != Ok { return; }
      }
      var p' := Merged(V(), at, q.id, Apply(tx.db, tx.log));
      conts, hdls := p'.conts, p'.hdls;
    }
  }

  lemma ServesIs(p: Pool, c: Cid, q: Req)
    ensures Serves(p, c, q) ==
            if c !in p.conts then Answer(NonExist, p)
            else if q.Open? then
              if q.capas.rw && !q.poolRw then Answer(NoPerm, p)
              else if q.id in p.hdls then Answer(if p.hdls[q.id].hdl.capas == q.capas then Ok else Exist, p)
              else Settled(p, c, q.id, OpenOn(Local(p, c), q.id, q.capas))
            else if q.id !in p.hdls then Answer(if q.Close? then Ok else NoHdl, p)
            else if q.Close? then
              if p.hdls[q.id].cont !in p.conts then Answer(NonExist, p)
              else
                var o := p.hdls[q.id];
                Settled(p, o.cont, q.id, CloseOn(Local(p, o.cont), q.id, o.hdl, q.purge))
            else Settled(p, c, q.id, Operate(Local(p, c), q.id, p.hdls[q.id].hdl, q))
  {
    hide OpenOn, CloseOn, Operate, Settled, Local;
  }

  /** Counters without a count are never stored. */
  lemma ServesWell(p: Pool, c: Cid, q: Req)
    requires WellPool(p)
    ensures WellPool(Serves(p, c, q).p)
  {
    hide WellPool, Serves;
    if c !in p.conts || Serves(p, c, q).rc != Ok {
      RefusedSame(p, c, q);
    } else if Addressed(p, c, q) {
      AddressedKeeps(p, c, q, c, 0);
    } else if Serves(p, c, q).p != p {
      StrayWell(p, c, q);
    }
  }
}
