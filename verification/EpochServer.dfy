/** The container service: on a store that holds a reference state the handlers answer as the
    reference does. */
module EpochServer {
  import opened EpochStore
  import opened EpochHandler
  import opened EpochRef
  import opened EpochCount

  ghost function AttrOf(r: Ref): Attr
    requires Ghce(r) <= EPOCH_MAX
  {
    Attr(Ghce(r), r.ghpce, Glre(r), Glhe(r))
  }

  ghost function StateOf(r: Ref, h: Hdl): EpochState {
    EpochState(h.hce, h.lre, h.lhe, Ghce(r), Glre(r), r.ghpce)
  }

  lemma RepFacts(s: Store, r: Ref)
    requires Rep(s, r) && Inv(r)
    ensures Ghce(r) <= r.ghpce < EPOCH_MAX
    ensures s.hdls == r.hdls && s.ghpce == r.ghpce && s.ghce == Ghce(r)
    ensures WellCounted(s.lres) && WellCounted(s.lhes)
    ensures CountsLhes(s.lhes, r.hdls) && CountsLres(s.lres, r.hdls, r.leaks)
  {
    GhceBelow(r);
  }

  lemma AttrRead(s: Store, r: Ref)
    requires Rep(s, r) && Inv(r)
    ensures AttrIn(s) == AttrOf(r)
  {
    GhceBelow(r);
    LreKeys(s.lres, r.hdls, r.leaks);
    LheKeys(s.lhes, r.hdls);
  }

  lemma Full(s: Store, ty: EcType, e: U64)
    ensures Count(s.Kvs(ty), e) == EPOCH_MAX ==> CounterFull(s)
  {
  }

  /** Once the counters, the handles and GHPCE are those after request `q`, only GHCE is
      left to bring up to date: it does not fall, and every check passes. */
  lemma Settle(s: Store, r: Ref, q: Req, r': Ref)
    requires Inv(r) && r' == Step(r, q).r
    requires s.hdls == r'.hdls && s.ghpce == r'.ghpce
    requires CountsLhes(s.lhes, r'.hdls) && CountsLres(s.lres, r'.hdls, r'.leaks)
    ensures Inv(r') && r'.ghpce < EPOCH_MAX && Ghce(r) <= Ghce(r') && Rep(s.(ghce := Ghce(r')), r')
    ensures LowestOf(s.lres.Keys) == Glre(r') && LowestOf(s.lhes.Keys) == Glhe(r') >= 1
    ensures Ghce(r') == if r'.ghpce < Glhe(r') - 1 then r'.ghpce else Glhe(r') - 1
    ensures CheckGlobal(AttrOf(r'))
    ensures q.id in r'.hdls ==> CheckEpoch(AttrOf(r'), r'.hdls[q.id])
  {
    hide Step;
    StepKeepsInv(r, q);
    StepMonotone(r, q);
    LreKeys(s.lres, r'.hdls, r'.leaks);
    LheKeys(s.lhes, r'.hdls);
    GhceMin(r');
    AttrChecks(r', q.id);
  }

  lemma Aggregates(r: Ref, r': Ref)
    requires Ghce(r') <= EPOCH_MAX
    ensures TriggerAggregation(Glre(r), AttrOf(r')) == Aggregation(r, r')
  {
  }

  lemma AttrChecks(r: Ref, id: Uuid)
    requires Inv(r)
    ensures CheckGlobal(AttrOf(r))
    ensures id in r.hdls ==> CheckEpoch(AttrOf(r), r.hdls[id])
  {
    GhceBelow(r);
    if id in r.hdls { assert r.hdls[id].lre in Lres(r.hdls); }
  }

  lemma GhceMin(r: Ref)
    requires Inv(r)
    ensures Glhe(r) >= 1 && Ghce(r) == if r.ghpce < Glhe(r) - 1 then r.ghpce else Glhe(r) - 1
  {
    GhceBelow(r);
  }

  // ---------------------------------------------------------------------------
  // Opening and closing
  // ---------------------------------------------------------------------------

  lemma OpenRefines(s: Store, r: Ref, id: Uuid, capas: Capas)
    requires Rep(s, r) && Inv(r) && id !in r.hdls
    ensures var o, p := OpenOn(s, id, capas), Step(r, Open(id, capas, true));
            && (o.rc == Ok || (o.rc == Overflow && CounterFull(s)))
            && (o.rc == Ok ==> Rep(o.s, p.r) && o.state == StateOf(p.r, p.r.hdls[id]) && o.sent == None)
  {
    hide Rep, Inv, CountsLhes, CountsLres, Shifted, Glre, Glhe, Ghce, WellCounted, LowestOf, CounterFull, Apply,
      Count;
    RepFacts(s, r);
    AttrRead(s, r);
    AttrChecks(r, id);
    var h := Hdl(capas, s.ghce, s.ghce, EPOCH_MAX);
    Full(s, LRE, h.lre);
    Full(s, LHE, h.lhe);
    if CanShift(s.lres, None, Some(h.lre)) && CanShift(s.lhes, None, Some(h.lhe)) {
      var r' := r.(hdls := r.hdls[id := h]);
      LhesSet(s.lhes, r.hdls, id, h);
      LresSet(s.lres, r.hdls, r.leaks, id, h);
      assert r.leaks + multiset{} == r.leaks;
      var lres, lhes := Shifted(s.lres, None, Some(h.lre)), Shifted(s.lhes, None, Some(h.lhe));
      Settle(s.(lres := lres, lhes := lhes, hdls := s.hdls[id := h]), r, Open(id, capas, true), r');
      OpenedGhce(r, id, h);
    }
  }

  /** A new handle holds nothing, so GHCE stays. */
  lemma OpenedGhce(r: Ref, id: Uuid, h: Hdl)
    requires Inv(r) && id !in r.hdls && h.lhe == EPOCH_MAX && Inv(r.(hdls := r.hdls[id := h]))
    ensures Ghce(r.(hdls := r.hdls[id := h])) == Ghce(r)
  {
    var r' := r.(hdls := r.hdls[id := h]);
    GhceBelow(r);
    GhceBelow(r');
    GhceIs(r', Ghce(r));
    forall x | x in r.hdls ensures Ghce(r') < r.hdls[x].lhe { assert r'.hdls[x] == r.hdls[x]; }
    GhceIs(r, Ghce(r'));
  }

  lemma CloseRefines(s: Store, r: Ref, id: Uuid, purge: bool)
    requires Rep(s, r) && Inv(r) && id in r.hdls
    ensures var o, p := CloseOn(s, id, r.hdls[id], purge), Step(r, Close(id, purge));
            o.rc == Ok && Rep(o.s, p.r) && o.sent == p.sent
  {
    hide Rep, Inv, CountsLhes, CountsLres, Shifted, Glre, Glhe, Ghce, WellCounted, LowestOf, CounterFull, Apply,
      Aggregation, TriggerAggregation;
    RepFacts(s, r);
    AttrRead(s, r);
    AttrChecks(r, id);
    CountedAtLeast(s, r, id);
    var h := r.hdls[id];
    var r' := r.(hdls := r.hdls - {id});
    CountersDrop(s, r, id);
    var lres, lhes := Shifted(s.lres, Some(h.lre), None), Shifted(s.lhes, Some(h.lhe), None);
    Settle(s.(lres := lres, lhes := lhes, hdls := s.hdls - {id}), r, Close(id, purge), r');
    Aggregates(r, r');
  }

  // ---------------------------------------------------------------------------
  // Operations on an open handle
  // ---------------------------------------------------------------------------

  lemma QueryRefines(s: Store, r: Ref, id: Uuid)
    requires Rep(s, r) && Inv(r) && id in r.hdls
    ensures QueryOn(s, r.hdls[id]) == Reply(Ok, s, StateOf(r, r.hdls[id]), None)
  {
    hide Rep, Inv;
    AttrRead(s, r);
    AttrChecks(r, id);
  }

  lemma HoldRefines(s: Store, r: Ref, id: Uuid, epoch: U64)
    requires Rep(s, r) && Inv(r) && id in r.hdls
    ensures var o, p := HoldOn(s, id, r.hdls[id], epoch), Step(r, Hold(id, epoch));
            && (o.rc == p.rc || (o.rc == Overflow && CounterFull(s)))
            && (o.rc == Ok ==> Rep(o.s, p.r) && o.state == StateOf(p.r, p.r.hdls[id]) && o.sent == None)
  {
    hide Rep, Inv, CountsLhes, CountsLres, Shifted, Glre, Glhe, Ghce, WellCounted, LowestOf, CounterFull, Apply,
      Count;
    RepFacts(s, r);
    AttrRead(s, r);
    GhceBelow(r);
    AttrChecks(r, id);
    var hdl := r.hdls[id];
    var h := HeldOn(s, hdl, epoch);
    CountedAtLeast(s, r, id);
    Full(s, LHE, h.lhe);
    if h.lhe == hdl.lhe {
      assert r.hdls[id := h] == r.hdls;
    } else if CanShift(s.lhes, Some(hdl.lhe), Some(h.lhe)) {
      var r' := r.(hdls := r.hdls[id := h]);
      var lhes := Shifted(s.lhes, Some(hdl.lhe), Some(h.lhe));
      LhesSet(s.lhes, r.hdls, id, h);
      SameReaders(s.lres, r, id, h, r.ghpce);
      if h.lhe > hdl.hce && hdl.capas.rw {
        Settle(s.(lhes := lhes, hdls := s.hdls[id := h]), r, Hold(id, epoch), r');
        HeldGhce(r, id, h);
      }
    }
  }

  lemma SameReaders(lres: Counters, r: Ref, id: Uuid, h: Hdl, ghpce: U64)
    requires id in r.hdls && h.lre == r.hdls[id].lre && CountsLres(lres, r.hdls, r.leaks)
    ensures CountsLres(lres, r.hdls[id := h], r.leaks) && r.leaks + multiset{} == r.leaks
    ensures Glre(Ref(r.hdls[id := h], ghpce, r.leaks)) == Glre(r)
  {
    var hdls := r.hdls[id := h];
    forall e: U64 ensures Readers(hdls, e) == Readers(r.hdls, e) {}
    LreKeys(lres, r.hdls, r.leaks);
    LreKeys(lres, hdls, r.leaks);
  }

  /** Lowering a hold leaves GHCE where it was. */
  lemma HeldGhce(r: Ref, id: Uuid, h: Hdl)
    requires Inv(r) && id in r.hdls && h == r.hdls[id].(lhe := h.lhe) && h.lhe > Ghce(r)
    requires Inv(r.(hdls := r.hdls[id := h]))
    ensures h.lhe <= r.hdls[id].lhe ==> Ghce(r.(hdls := r.hdls[id := h])) == Ghce(r)
  {
    var r' := r.(hdls := r.hdls[id := h]);
    GhceBelow(r);
    GhceBelow(r');
    GhceIs(r', Ghce(r));
    if h.lhe <= r.hdls[id].lhe {
      forall x | x in r.hdls ensures Ghce(r') < r.hdls[x].lhe { assert Ghce(r') < r'.hdls[x].lhe; }
      GhceIs(r, Ghce(r'));
    }
  }

  lemma SlipRefines(s: Store, r: Ref, id: Uuid, epoch: U64)
    requires Rep(s, r) && Inv(r) && id in r.hdls
    ensures var o, p := SlipOn(s, id, r.hdls[id], epoch), Step(r, Slip(id, epoch));
            && (o.rc == p.rc || (o.rc == Overflow && CounterFull(s)))
            && (o.rc == Ok ==> Rep(o.s, p.r) && o.state == StateOf(p.r, p.r.hdls[id]) && o.sent == p.sent)
  {
    hide Rep, Inv, CountsLhes, CountsLres, Shifted, Glre, Glhe, Ghce, WellCounted, LowestOf, CounterFull, Apply,
      Aggregation, TriggerAggregation;
    RepFacts(s, r);
    AttrRead(s, r);
    AttrChecks(r, id);
    var hdl := r.hdls[id];
    CountedAtLeast(s, r, id);
    Full(s, LRE, epoch);
    if hdl.lre < epoch < EPOCH_MAX && CanShift(s.lres, Some(hdl.lre), Some(epoch)) {
      var h := hdl.(lre := epoch);
      var r' := r.(hdls := r.hdls[id := h]);
      var lres := Shifted(s.lres, Some(hdl.lre), Some(epoch));
      LresSet(s.lres, r.hdls, r.leaks, id, h);
      SameHolders(s.lhes, r, id, h);
      Settle(s.(lres := lres, hdls := s.hdls[id := h]), r, Slip(id, epoch), r');
      Aggregates(r, r');
    }
  }

  lemma SameHolders(lhes: Counters, r: Ref, id: Uuid, h: Hdl)
    requires id in r.hdls && h.lhe == r.hdls[id].lhe && CountsLhes(lhes, r.hdls)
    ensures CountsLhes(lhes, r.hdls[id := h]) && r.leaks + multiset{} == r.leaks
    ensures var r' := r.(hdls := r.hdls[id := h]); Glhe(r') == Glhe(r) && Ghce(r') == Ghce(r)
  {
    var hdls := r.hdls[id := h];
    forall e: U64 ensures Holders(hdls, e) == Holders(r.hdls, e) {}
    LheKeys(lhes, r.hdls);
    LheKeys(lhes, hdls);
  }

  lemma DiscardRefines(s: Store, r: Ref, id: Uuid, epoch: U64)
    requires Rep(s, r) && Inv(r) && id in r.hdls
    ensures var o := DiscardOn(s, r.hdls[id], epoch);
            && o.rc == Step(r, Discard(id, epoch)).rc
            && (o.rc == Ok ==> o.s == s && o.state == StateOf(r, r.hdls[id]) && o.sent == None)
  {
    QueryRefines(s, r, id);
    hide QueryOn;
  }

  /** The counters after handle `id` has committed `epoch`. */
  lemma CommitCounts(s: Store, r: Ref, id: Uuid, epoch: U64, ghpce: U64)
    requires Rep(s, r) && id in r.hdls && r.hdls[id].lhe <= epoch < EPOCH_MAX
    requires var h := CommitHdl(r.hdls[id], epoch);
             Count(s.lhes, h.lhe) < EPOCH_MAX && (!h.capas.noslip ==> Count(s.lres, h.lre) < EPOCH_MAX)
    ensures var was := r.hdls[id];
            var h := CommitHdl(was, epoch);
            var leaks := r.leaks + CommitLeak(was, epoch);
            && CountsLhes(Shifted(s.lhes, Some(was.lhe), Some(h.lhe)), r.hdls[id := h])
            && CountsLres(if was.capas.noslip then s.lres else Shifted(s.lres, Some(was.lre), Some(h.lre)),
              r.hdls[id := h], leaks)
            && (was.capas.noslip ==> Glre(Ref(r.hdls[id := h], ghpce, leaks)) == Glre(r))
  {
    hide CountsLhes, CountsLres, Shifted, Glre, Count;
    var h := CommitHdl(r.hdls[id], epoch);
    LhesSet(s.lhes, r.hdls, id, h);
    if h.capas.noslip { SameReaders(s.lres, r, id, h, ghpce); } else { LresSet(s.lres, r.hdls, r.leaks, id, h); }
  }

  /** When a commit has written its counters, only GHCE is out of date. */
  lemma CommitSettles(s: Store, r: Ref, id: Uuid, epoch: U64, purge: bool)
    requires Rep(s, r) && Inv(r) && id in r.hdls && CanCommit(s, r.hdls[id], epoch)
    requires r.hdls[id].capas.rw && r.hdls[id].hce < epoch && r.hdls[id].lhe <= epoch < EPOCH_MAX
    ensures var s', r' := CommitWrites(s, id, r.hdls[id], epoch), Step(r, Commit(id, epoch, purge)).r;
            && Inv(r') && Ghce(r) <= Ghce(r') <= EPOCH_MAX && s'.ghce == Ghce(r)
            && AttrIn(s').(ghce := Ghce(r')) == AttrOf(r') && NewGhce(AttrIn(s')) == Ghce(r')
            && CheckEpoch(AttrOf(r'), CommittedHdl(r.hdls[id], epoch)) && Rep(s'.(ghce := Ghce(r')), r')
            && r'.hdls == r.hdls[id := CommittedHdl(r.hdls[id], epoch)]
  {
    hide Rep, Inv, CountsLhes, CountsLres, Shifted, Glre, Glhe, Ghce, WellCounted, LowestOf, CounterFull, Apply,
      Aggregation, Count, CommitLeak, CheckEpoch, CheckGlobal;
    RepFacts(s, r);
    var r' := Step(r, Commit(id, epoch, purge)).r;
    CommitCounts(s, r, id, epoch, r'.ghpce);
    Settle(CommitWrites(s, id, r.hdls[id], epoch), r, Commit(id, epoch, purge), r');
  }

  lemma CommitRefines(s: Store, r: Ref, id: Uuid, epoch: U64, purge: bool)
    requires Rep(s, r) && Inv(r) && id in r.hdls
    ensures var o, p := CommitOn(s, id, r.hdls[id], epoch, purge), Step(r, Commit(id, epoch, purge));
            && (o.rc == p.rc || (o.rc == Overflow && CounterFull(s)))
            && (o.rc == Ok ==> Rep(o.s, p.r) && o.state == StateOf(p.r, p.r.hdls[id]) && o.sent == p.sent)
  {
    hide Rep, Inv, CountsLhes, CountsLres, Shifted, Glre, Glhe, Ghce, WellCounted, LowestOf, CounterFull, Apply,
      Aggregation, Count, CommitLeak, TriggerAggregation, CommitWrites, NewGhce, AttrIn;
    RepFacts(s, r);
    AttrRead(s, r);
    AttrChecks(r, id);
    CountedAtLeast(s, r, id);
    var hdl := r.hdls[id];
    if hdl.capas.rw && hdl.hce < epoch && hdl.lhe <= epoch < EPOCH_MAX {
      var h := CommittedHdl(hdl, epoch);
      Full(s, LHE, h.lhe);
      Full(s, LRE, h.lre);
      if CanCommit(s, hdl, epoch) {
        CommitSettles(s, r, id, epoch, purge);
        Aggregates(r, Step(r, Commit(id, epoch, purge)).r);
      }
    }
  }

  // ---------------------------------------------------------------------------
  // The service
  // ---------------------------------------------------------------------------

  /** What the service does with a request. */
  ghost function Serve(s: Store, q: Req): Reply {
    match q
    case Open(id, capas, poolRw) =>
      if capas.rw && !poolRw then Refused(NoPerm, s)
      else if id in s.hdls then Refused(if s.hdls[id].capas == capas then Ok else Exist, s)
      else OpenOn(s, id, capas)
    case Close(id, purge) =>
      if id in s.hdls then CloseOn(s, id, s.hdls[id], purge) else Refused(Ok, s)
    case _ =>
      if q.id !in s.hdls then Refused(NoHdl, s) else Operate(s, q.id, s.hdls[q.id], q)
  }

  /** An operation on a handle, whatever container it is of. */
  ghost function Operate(s: Store, id: Uuid, hdl: Hdl, q: Req): Reply
    requires !q.Open? && !q.Close?
  {
    match q
    case Query(_) => QueryOn(s, hdl)
    case Hold(_, epoch) => HoldOn(s, id, hdl, epoch)
    case Slip(_, epoch) => SlipOn(s, id, hdl, epoch)
    case Discard(_, epoch) => DiscardOn(s, hdl, epoch)
    case Commit(_, epoch, purge) => CommitOn(s, id, hdl, epoch, purge)
  }

  lemma OperateRefines(s: Store, r: Ref, q: Req)
    requires Rep(s, r) && Inv(r) && q.id in r.hdls && !q.Open? && !q.Close?
    ensures var o, p := Operate(s, q.id, r.hdls[q.id], q), Step(r, q);
            && (o.rc == p.rc || (o.rc == Overflow && CounterFull(s)))
            && (o.rc == Ok ==> Rep(o.s, p.r) && o.sent == p.sent)
            && (o.rc == Ok ==> q.id in p.r.hdls && o.state == StateOf(p.r, p.r.hdls[q.id]))
  {
    hide Rep, Inv, CounterFull, QueryOn, HoldOn, SlipOn, DiscardOn, CommitOn, Glre, Glhe, Ghce, Aggregation;
    match q {
      case Query(id) => QueryRefines(s, r, id);
      case Hold(id, epoch) => HoldRefines(s, r, id, epoch);
      case Slip(id, epoch) => SlipRefines(s, r, id, epoch);
      case Discard(id, epoch) => DiscardRefines(s, r, id, epoch);
      case Commit(id, epoch, purge) => CommitRefines(s, r, id, epoch, purge);
    }
  }

  /** On a store that holds a reference state every request is served as the reference does. */
  lemma ServeRefines(s: Store, r: Ref, q: Req)
    requires Rep(s, r) && Inv(r)
    ensures var o, p := Serve(s, q), Step(r, q);
            && (o.rc == p.rc || (o.rc == Overflow && CounterFull(s)))
            && (o.rc == Ok ==> Rep(o.s, p.r) && o.sent == p.sent)
            && (o.rc == Ok && q.id in p.r.hdls && (q.Open? ==> q.id !in r.hdls) ==>
                  o.state == StateOf(p.r, p.r.hdls[q.id]))
  {
    hide Rep, Inv, CounterFull, OpenOn, CloseOn, Operate, Glre, Glhe, Ghce, Aggregation;
    RepFacts(s, r);
    if q.Open? {
      if q.id !in r.hdls { OpenRefines(s, r, q.id, q.capas); }
    } else if q.Close? {
      if q.id in r.hdls { CloseRefines(s, r, q.id, q.purge); }
    } else if q.id in r.hdls {
      OperateRefines(s, r, q);
    }
  }

  /** A refused request changes nothing and sends nothing. */
  lemma RefusedAlone(r: Ref, q: Req)
    requires Inv(r)
    ensures Step(r, q).rc != Ok ==> Step(r, q).r == r && Step(r, q).sent == None
    ensures q.Close? ==> q.id !in Step(r, q).r.hdls
  {
  }

  method OpenHdl(tx: Tx, id: Uuid, capas: Capas, poolRw: bool) returns (rc: Rc, state: EpochState)
    requires tx.Result() == tx.db && WellStored(tx.db)
    modifies tx
    ensures var o := Serve(tx.db, Open(id, capas, poolRw));
            rc == o.rc && (rc == Ok ==> tx.Result() == o.s && state == o.state && o.sent == None)
  {
    hide OpenOn, Apply, WellStored;
    state := NoState;
    if capas.rw && !poolRw {
      return NoPerm, state;
    }
    if id in tx.db.hdls {
      rc := if tx.db.hdls[id].capas != capas then Exist else Ok;
      return;
    }
    OpenSilent(tx.db, id, capas);
    var hdl;
    rc, hdl, state := EpochInitHdl(tx, capas, id);
    if rc != Ok { return; }
    tx.Write(SetHdl(id, hdl));
  }

  lemma OpenSilent(s: Store, id: Uuid, capas: Capas)
    ensures OpenOn(s, id, capas).sent == None
  {
    hide LowestOf, Shifted;
  }

  method CloseHdl(tx: Tx, id: Uuid, purge: bool) returns (rc: Rc, agg: Option<U64>)
    requires tx.Result() == tx.db && WellStored(tx.db)
    modifies tx
    ensures var o := Serve(tx.db, Close(id, purge)); rc == o.rc && (rc == Ok ==> tx.Result() == o.s && agg == o.sent)
  {
    hide CloseOn, Apply, WellStored;
    if id !in tx.db.hdls {
      return Ok, None;
    }
    rc, agg := EpochFiniHdl(tx, id, tx.db.hdls[id], purge);
    if rc != Ok { return; }
    tx.Write(DelHdl(id));
  }

  method OperateHdl(tx: Tx, id: Uuid, hdl: Hdl, q: Req) returns (rc: Rc, state: EpochState, agg: Option<U64>)
    requires tx.Result() == tx.db && WellStored(tx.db) && !q.Open? && !q.Close?
    modifies tx
    ensures var o := Operate(tx.db, id, hdl, q);
            rc == o.rc && (rc == Ok ==> tx.Result() == o.s && agg == o.sent && state == o.state)
  {
    hide Apply, WellStored, LowestOf, Shifted, CommitWrites;
    agg := None;
    match q {
      case Query(_) => rc, state := EpochQuery(tx, hdl);
      case Hold(_, epoch) => rc, state := EpochHold(tx, id, hdl, epoch);
      case Slip(_, epoch) => rc, state, agg := EpochSlip(tx, id, hdl, epoch);
      case Discard(_, epoch) => rc, state := EpochDiscard(tx, hdl, epoch);
      case Commit(_, epoch, purge) => rc, state, agg := EpochCommit(tx, id, hdl, epoch, purge);
    }
  }

  method Dispatch(tx: Tx, q: Req) returns (rc: Rc, state: EpochState, agg: Option<U64>)
    requires tx.Result() == tx.db && WellStored(tx.db)
    modifies tx
    ensures var o := Serve(tx.db, q);
            rc == o.rc && (rc == Ok ==> tx.Result() == o.s && agg == o.sent)
            && (rc == Ok && !q.Close? ==> state == o.state)
  {
    hide Apply, WellStored, OpenOn, CloseOn, Operate;
    agg, state := None, NoState;
    if q.Open? {
      rc, state := OpenHdl(tx, q.id, q.capas, q.poolRw);
    } else if q.Close? {
      rc, agg := CloseHdl(tx, q.id, q.purge);
    } else if q.id !in tx.db.hdls {
      rc := NoHdl;
    } else {
      rc, state, agg := OperateHdl(tx, q.id, tx.db.hdls[q.id], q);
    }
  }

  class Service {
    var store: Store
    /** the reference state, and the ends of all aggregation ranges broadcast so far */
    ghost var ref: Ref
    ghost var sent: set<U64>

    ghost predicate Valid()
      reads this
    {
      Inv(ref) && Rep(store, ref) && forall a :: a in sent ==> Safe(ref, a)
    }

    constructor ()
      ensures Valid() && ref == Created && sent == {}
    {
      store := Store(0, 0, map[], map[], map[]);
      ref, sent := Created, {};
      new;
      assert Lhes(ref.hdls) == {};
      assert forall e: U64 :: Holders(ref.hdls, e) == {} && Readers(ref.hdls, e) == {};
    }

    /** Run one request in its own transaction: committed if it succeeds, dropped if not. */
    method Handle(q: Req) returns (rc: Rc, state: EpochState)
      requires Valid()
      modifies this
      ensures Valid()
      ensures var o := old(Step(ref, q));
              || (rc == o.rc && ref == o.r && sent == old(sent) + (if o.sent.Some? then {o.sent.value} else {}))
              || (rc == Overflow && old(CounterFull(store)) && ref == old(ref) && sent == old(sent))
      ensures rc != Ok ==> store == old(store)
      ensures rc == Ok && q.id in ref.hdls && (q.Open? ==> q.id !in old(ref.hdls)) ==>
              var h := ref.hdls[q.id];
              && state.hce == h.hce && state.lre == h.lre && state.lhe == h.lhe
              && state.ghce == Ghce(ref) && state.glre == Glre(ref) && state.ghpce == ref.ghpce
      ensures store.ghce >= old(store.ghce) && store.ghpce >= old(store.ghpce)
    {
      hide Step, Rep, Inv, Safe, CounterFull, Apply, Serve;
      var tx := new Tx(store);
      ghost var o := Step(ref, q);
      StepKeepsInv(ref, q);
      StepMonotone(ref, q);
      SentSafe(ref, q);
      RefusedAlone(ref, q);
      forall a | a in sent ensures Safe(o.r, a) { SafeStays(ref, q, a); }
      RepFacts(store, ref);
      ServeRefines(store, ref, q);
      var agg;
      rc, state, agg := Dispatch(tx, q);
      if rc == Ok {
        store := Apply(store, tx.log);
        ref := o.r;
        sent := sent + if agg.Some? then {agg.value} else {};
        RepFacts(store, ref);
      }
    }

    /** Any sequence of requests: the service answers each as the reference does, unless they
        are so many that a counter could be full. */
    method Run(qs: seq<Req>) returns (rcs: seq<Rc>)
      requires Valid()
      modifies this
      ensures Valid() && |rcs| == |qs|
      ensures Load(old(ref)) + |qs| <= EPOCH_MAX ==>
                && ref == After(old(ref), qs) && sent == old(sent) + Sent(old(ref), qs)
                && rcs == Answers(old(ref), qs)
      decreases |qs|
    {
      hide Step, Rep, Inv, Trail, After, Sent, CounterFull, Safe, Answers, Load;
      RunParts(ref, qs);
      if qs == [] {
        return [];
      }
      if Load(ref) < EPOCH_MAX { NotFull(store, ref); }
      StepGrows(ref, qs[0]);
      var rc, _ := Handle(qs[0]);
      var rest := Run(qs[1..]);
      rcs := [rc] + rest;
    }
  }

  /** A counter overflows only with as many handles and leaks as there are epochs. */
  lemma NotFull(s: Store, r: Ref)
    requires Rep(s, r) && Load(r) < EPOCH_MAX
    ensures !CounterFull(s)
  {
    forall e: U64 ensures Count(s.lhes, e) < EPOCH_MAX && Count(s.lres, e) < EPOCH_MAX {
      Smaller(Holders(r.hdls, e), r.hdls.Keys);
      Smaller(Readers(r.hdls, e), r.hdls.Keys);
      assert r.leaks == (r.leaks - multiset{e}[e := r.leaks[e]]) + multiset{e}[e := r.leaks[e]];
    }
  }
}
