/** The container service's epoch handlers, on any store and any handle: nothing is assumed of
    how the two belong together. */
module EpochHandler {
  import opened EpochStore

  /** The global epoch state as read from the store. */
  datatype Attr = Attr(ghce: U64, ghpce: U64, glre: U64, glhe: U64)

  datatype EpochState = EpochState(hce: U64, lre: U64, lhe: U64, ghce: U64, glre: U64, ghpce: U64)

  const NoState := EpochState(0, 0, 0, 0, 0, 0)

  /** What a handler answers, the store it leaves if it succeeds, and the end of the range to
      aggregate. */
  datatype Reply = Reply(rc: Rc, s: Store, state: EpochState, sent: Option<U64>)

  // 64-bit arithmetic
  function Inc(x: U64): U64 {
    if x == EPOCH_MAX then 0 else x + 1
  }

  function Dec(x: U64): U64 {
    if x == 0 then EPOCH_MAX else x - 1
  }

  predicate CheckGlobal(attr: Attr) {
    attr.ghce <= attr.ghpce && (attr.glhe == EPOCH_MAX || attr.glhe > attr.ghce)
  }

  predicate CheckEpoch(attr: Attr, h: Hdl) {
    CheckGlobal(attr) && h.hce < h.lhe && attr.glre <= h.lre && attr.ghce < h.lhe && attr.ghpce >= h.hce
  }

  function SetEpochState(attr: Attr, h: Hdl): EpochState {
    EpochState(h.hce, h.lre, h.lhe, attr.ghce, attr.glre, attr.ghpce)
  }

  /** The end of the range to broadcast when GLRE has risen. */
  function TriggerAggregation(glre: U64, attr: Attr): Option<U64> {
    if attr.glre > glre then Some(if attr.glre < attr.ghce then attr.glre else attr.ghce) else None
  }

  function NewGhce(attr: Attr): U64 {
    if attr.ghpce < Dec(attr.glhe) then attr.ghpce else Dec(attr.glhe)
  }

  // ---------------------------------------------------------------------------
  // What the handlers do
  // ---------------------------------------------------------------------------

  ghost function AttrIn(s: Store): Attr {
    Attr(s.ghce, s.ghpce, LowestOf(s.lres.Keys), LowestOf(s.lhes.Keys))
  }

  ghost function Refused(rc: Rc, s: Store): Reply {
    Reply(rc, s, NoState, None)
  }

  /** Counters can be taken from and added to. */
  ghost predicate CanShift(kvs: Counters, dec: Option<U64>, inc: Option<U64>) {
    && (dec.Some? ==> Count(kvs, dec.value) > 0)
    && (inc.Some? ==> Count(kvs, inc.value) < EPOCH_MAX)
  }

  ghost function OpenOn(s: Store, id: Uuid, capas: Capas): Reply {
    var attr := AttrIn(s);
    var h := Hdl(capas, attr.ghce, attr.ghce, EPOCH_MAX);
    if !CheckGlobal(attr) then Refused(Io, s)
    else if !CanShift(s.lres, None, Some(h.lre)) || !CanShift(s.lhes, None, Some(h.lhe)) then Refused(Overflow, s)
    else
      var lres, lhes := Shifted(s.lres, None, Some(h.lre)), Shifted(s.lhes, None, Some(h.lhe));
      var attr' := attr.(glre := LowestOf(lres.Keys), glhe := LowestOf(lhes.Keys));
      if !CheckEpoch(attr', h) then Refused(Io, s)
      else Reply(Ok, s.(lres := lres, lhes := lhes, hdls := s.hdls[id := h]), SetEpochState(attr', h), None)
  }

  ghost function CloseOn(s: Store, id: Uuid, hdl: Hdl, purge: bool): Reply {
    var attr := AttrIn(s);
    if !CheckEpoch(attr, hdl) then Refused(Io, s)
    else if !CanShift(s.lres, Some(hdl.lre), None) || !CanShift(s.lhes, Some(hdl.lhe), None) then Refused(Overflow, s)
    else
      var lres, lhes := Shifted(s.lres, Some(hdl.lre), None), Shifted(s.lhes, Some(hdl.lhe), None);
      var attr' := attr.(glre := LowestOf(lres.Keys), glhe := LowestOf(lhes.Keys));
      var ghce := NewGhce(attr');
      if ghce < attr.ghce || !CheckGlobal(attr'.(ghce := ghce)) then Refused(Io, s)
      else
        Reply(Ok, s.(ghce := ghce, lres := lres, lhes := lhes, hdls := s.hdls - {id}), NoState,
              if purge then TriggerAggregation(attr.glre, attr'.(ghce := ghce)) else None)
  }

  ghost function QueryOn(s: Store, hdl: Hdl): Reply {
    if CheckEpoch(AttrIn(s), hdl) then Reply(Ok, s, SetEpochState(AttrIn(s), hdl), None) else Refused(Io, s)
  }

  ghost function DiscardOn(s: Store, hdl: Hdl, epoch: U64): Reply {
    if !hdl.capas.rw then Refused(NoPerm, s)
    else if epoch >= EPOCH_MAX then Refused(Overflow, s)
    else if epoch < hdl.lhe then Refused(EpRo, s)
    else QueryOn(s, hdl)
  }

  ghost function HeldOn(s: Store, hdl: Hdl, epoch: U64): Hdl {
    hdl.(lhe := if epoch == 0 then Inc(s.ghpce) else if epoch <= s.ghce then Inc(s.ghce) else epoch)
  }

  ghost function HoldOn(s: Store, id: Uuid, hdl: Hdl, epoch: U64): Reply {
    var attr, h := AttrIn(s), HeldOn(s, hdl, epoch);
    if !hdl.capas.rw then Refused(NoPerm, s)
    else if !CheckEpoch(attr, hdl) then Refused(Io, s)
    else if h.lhe == hdl.lhe then Reply(Ok, s, SetEpochState(attr, h), None)
    else if !CanShift(s.lhes, Some(hdl.lhe), Some(h.lhe)) then Refused(Overflow, s)
    else
      var lhes := Shifted(s.lhes, Some(hdl.lhe), Some(h.lhe));
      var attr' := attr.(glhe := LowestOf(lhes.Keys));
      var ghce := if h.lhe > hdl.lhe then NewGhce(attr') else attr.ghce;
      if ghce < attr.ghce || !CheckEpoch(attr'.(ghce := ghce), h) then Refused(Io, s)
      else Reply(Ok, s.(ghce := ghce, lhes := lhes, hdls := s.hdls[id := h]),
                 SetEpochState(attr'.(ghce := ghce), h), None)
  }

  ghost function SlipOn(s: Store, id: Uuid, hdl: Hdl, epoch: U64): Reply {
    var attr, h := AttrIn(s), hdl.(lre := if epoch < hdl.lre then hdl.lre else epoch);
    if epoch >= EPOCH_MAX then Refused(Overflow, s)
    else if !CheckEpoch(attr, hdl) then Refused(Io, s)
    else if h.lre == hdl.lre then Reply(Ok, s, SetEpochState(attr, hdl), None)
    else if !CanShift(s.lres, Some(hdl.lre), Some(h.lre)) then Refused(Overflow, s)
    else
      var lres := Shifted(s.lres, Some(hdl.lre), Some(h.lre));
      var attr' := attr.(glre := LowestOf(lres.Keys));
      if !CheckEpoch(attr', h) then Refused(Io, s)
      else Reply(Ok, s.(lres := lres, hdls := s.hdls[id := h]), SetEpochState(attr', h),
                 TriggerAggregation(attr.glre, attr'))
  }

  ghost function CommittedHdl(hdl: Hdl, epoch: U64): Hdl {
    hdl.(hce := epoch, lhe := Inc(epoch), lre := if hdl.capas.noslip then hdl.lre else epoch)
  }

  /** The counters of a store after a commit, and the highest committed epoch. */
  ghost function CommitWrites(s: Store, id: Uuid, hdl: Hdl, epoch: U64): Store
    requires CanCommit(s, hdl, epoch)
  {
    var h := CommittedHdl(hdl, epoch);
    s.(hdls := s.hdls[id := h], lhes := Shifted(s.lhes, Some(hdl.lhe), Some(h.lhe)),
       lres := if hdl.capas.noslip then s.lres else Shifted(s.lres, Some(hdl.lre), Some(h.lre)),
       ghpce := if epoch > s.ghpce then epoch else s.ghpce)
  }

  ghost predicate CanCommit(s: Store, hdl: Hdl, epoch: U64) {
    var h := CommittedHdl(hdl, epoch);
    && CanShift(s.lhes, Some(hdl.lhe), Some(h.lhe))
    && (hdl.capas.noslip || CanShift(s.lres, Some(hdl.lre), Some(h.lre)))
  }

  ghost function CommitOn(s: Store, id: Uuid, hdl: Hdl, epoch: U64, purge: bool): Reply {
    var attr, h := AttrIn(s), CommittedHdl(hdl, epoch);
    if !hdl.capas.rw then Refused(NoPerm, s)
    else if epoch >= EPOCH_MAX then Refused(Overflow, s)
    else if !CheckEpoch(attr, hdl) then Refused(Io, s)
    else if epoch <= hdl.hce then Reply(Ok, s, SetEpochState(attr, hdl), None)
    else if epoch < hdl.lhe then Refused(EpRo, s)
    else if !CanCommit(s, hdl, epoch) then Refused(Overflow, s)
    else
      var s' := CommitWrites(s, id, hdl, epoch);
      var attr' := AttrIn(s');
      var ghce := NewGhce(attr');
      if ghce < attr.ghce || !CheckEpoch(attr'.(ghce := ghce), h) then Refused(Io, s)
      else Reply(Ok, s'.(ghce := ghce), SetEpochState(attr'.(ghce := ghce), h),
                 if purge then TriggerAggregation(attr.glre, attr'.(ghce := ghce)) else None)
  }

  // ---------------------------------------------------------------------------
  // How they do it
  // ---------------------------------------------------------------------------

  ghost predicate WellStored(s: Store) {
    WellCounted(s.lres) && WellCounted(s.lhes)
  }

  method ReadEpochAttr(tx: Tx) returns (attr: Attr)
    ensures attr == AttrIn(tx.db)
  {
    var found, glre := tx.EcFindLowest(LRE);
    if !found { glre := EPOCH_MAX; }
    var found', glhe := tx.EcFindLowest(LHE);
    if !found' { glhe := EPOCH_MAX; }
    attr := Attr(tx.db.ghce, tx.db.ghpce, glre, glhe);
  }

  /** GHCE afresh from GHPCE and GLHE; it must not decrease. */
  method UpdateGhce(tx: Tx, attr: Attr) returns (rc: Rc, attr': Attr)
    requires tx.Result().ghce == attr.ghce
    modifies tx
    ensures rc == (if NewGhce(attr) < attr.ghce then Io else Ok)
    ensures rc == Ok ==>
              attr' == attr.(ghce := NewGhce(attr)) && tx.Result() == old(tx.Result()).(ghce := NewGhce(attr))
  {
    var ghce := if attr.ghpce < Dec(attr.glhe) then attr.ghpce else Dec(attr.glhe);
    attr' := attr;
    if ghce < attr.ghce {
      return Io, attr;
    } else if ghce == attr.ghce {
      return Ok, attr;
    }
    tx.Write(SetGhce(ghce));
    attr' := attr.(ghce := ghce);
    rc := Ok;
  }

  method EpochInitHdl(tx: Tx, capas: Capas, ghost id: Uuid) returns (rc: Rc, hdl: Hdl, state: EpochState)
    requires tx.Result() == tx.db && WellStored(tx.db)
    modifies tx
    ensures var o := OpenOn(tx.db, id, capas);
            rc == o.rc && (rc == Ok ==> ApplyOne(tx.Result(), SetHdl(id, hdl)) == o.s && state == o.state)
  {
    hide Shifted, WellCounted, LowestOf, Apply;
    var attr := ReadEpochAttr(tx);
    hdl := Hdl(capas, attr.ghce, attr.ghce, EPOCH_MAX);
    state := SetEpochState(attr, hdl);
    if !CheckGlobal(attr) {
      return Io, hdl, state;
    }
    var empty, glre, glhe;
    rc, empty, glre := tx.EcUpdateAndFindLowest(LRE, None, Some(hdl.lre));
    if rc != Ok { return; }
    rc, empty, glhe := tx.EcUpdateAndFindLowest(LHE, None, Some(hdl.lhe));
    if rc != Ok { return; }
    attr := attr.(glre := glre, glhe := glhe);
    if !CheckEpoch(attr, hdl) {
      return Io, hdl, state;
    }
    state := SetEpochState(attr, hdl);
  }

  method EpochFiniHdl(tx: Tx, ghost id: Uuid, hdl: Hdl, purge: bool) returns (rc: Rc, sent: Option<U64>)
    requires tx.Result() == tx.db && WellStored(tx.db)
    modifies tx
    ensures var o := CloseOn(tx.db, id, hdl, purge);
            rc == o.rc && (rc == Ok ==> ApplyOne(tx.Result(), DelHdl(id)) == o.s && sent == o.sent)
  {
    hide Shifted, WellCounted, LowestOf, Apply;
    var attr := ReadEpochAttr(tx);
    var glre := attr.glre;
    sent := None;
    if !CheckEpoch(attr, hdl) {
      return Io, None;
    }
    var empty, lowest;
    rc, empty, lowest := tx.EcUpdateAndFindLowest(LRE, Some(hdl.lre), None);
    if rc != Ok { return; }
    attr := attr.(glre := if empty then EPOCH_MAX else lowest);
    rc, empty, lowest := tx.EcUpdateAndFindLowest(LHE, Some(hdl.lhe), None);
    if rc != Ok { return; }
    attr := attr.(glhe := if empty then EPOCH_MAX else lowest);
    rc, attr := UpdateGhce(tx, attr);
    if rc != Ok { return; }
    if !CheckGlobal(attr) {
      return Io, None;
    }
    if purge {
      sent := TriggerAggregation(glre, attr);
    }
  }

  method EpochQuery(tx: Tx, hdl: Hdl) returns (rc: Rc, state: EpochState)
    ensures var o := QueryOn(tx.db, hdl); rc == o.rc && (rc == Ok ==> state == o.state)
    ensures rc == Io || rc == Ok
    ensures rc == Ok <==>
              && tx.db.ghce <= tx.db.ghpce && tx.db.ghce < hdl.lhe && hdl.hce < hdl.lhe && hdl.hce <= tx.db.ghpce
              && LowestOf(tx.db.lres.Keys) <= hdl.lre
              && (LowestOf(tx.db.lhes.Keys) == EPOCH_MAX || tx.db.ghce < LowestOf(tx.db.lhes.Keys))
    ensures rc == Ok ==>
              && state.hce == hdl.hce && state.lre == hdl.lre && state.lhe == hdl.lhe
              && state.ghce == tx.db.ghce && state.ghpce == tx.db.ghpce && state.glre == LowestOf(tx.db.lres.Keys)
  {
    var attr := ReadEpochAttr(tx);
    state := SetEpochState(attr, hdl);
    if !CheckEpoch(attr, hdl) {
      return Io, state;
    }
    rc := Ok;
  }

  method EpochHold(tx: Tx, id: Uuid, hdl: Hdl, epoch: U64) returns (rc: Rc, state: EpochState)
    requires tx.Result() == tx.db && WellStored(tx.db)
    modifies tx
    ensures var o := HoldOn(tx.db, id, hdl, epoch);
            rc == o.rc && (rc == Ok ==> tx.Result() == o.s && state == o.state)
  {
    hide Shifted, WellCounted, LowestOf, Apply;
    state := NoState;
    if !hdl.capas.rw {
      return NoPerm, state;
    }
    var attr := ReadEpochAttr(tx);
    if !CheckEpoch(attr, hdl) {
      return Io, state;
    }
    var lhe := if epoch == 0 then Inc(attr.ghpce) else if epoch <= attr.ghce then Inc(attr.ghce) else epoch;
    var h := hdl.(lhe := lhe);
    if lhe == hdl.lhe {
      return Ok, SetEpochState(attr, h);
    }
    tx.Write(SetHdl(id, h));
    var empty, lowest;
    rc, empty, lowest := tx.EcUpdateAndFindLowest(LHE, Some(hdl.lhe), Some(lhe));
    if rc != Ok { return; }
    attr := attr.(glhe := lowest);
    if lhe > hdl.lhe {
      rc, attr := UpdateGhce(tx, attr);
      if rc != Ok { return; }
    }
    if !CheckEpoch(attr, h) {
      return Io, state;
    }
    state := SetEpochState(attr, h);
  }

  method EpochSlip(tx: Tx, id: Uuid, hdl: Hdl, epoch: U64) returns (rc: Rc, state: EpochState, sent: Option<U64>)
    requires tx.Result() == tx.db && WellStored(tx.db)
    modifies tx
    ensures var o := SlipOn(tx.db, id, hdl, epoch);
            rc == o.rc && (rc == Ok ==> tx.Result() == o.s && state == o.state && sent == o.sent)
  {
    hide Shifted, WellCounted, LowestOf, Apply;
    state, sent := NoState, None;
    if epoch >= EPOCH_MAX {
      return Overflow, state, None;
    }
    var attr := ReadEpochAttr(tx);
    var glre := attr.glre;
    if !CheckEpoch(attr, hdl) {
      return Io, state, None;
    }
    var lre := if epoch < hdl.lre then hdl.lre else epoch;
    if lre == hdl.lre {
      return Ok, SetEpochState(attr, hdl), None;
    }
    var h := hdl.(lre := lre);
    tx.Write(SetHdl(id, h));
    var empty, lowest;
    rc, empty, lowest := tx.EcUpdateAndFindLowest(LRE, Some(hdl.lre), Some(lre));
    if rc != Ok { return; }
    attr := attr.(glre := lowest);
    if !CheckEpoch(attr, h) {
      return Io, state, None;
    }
    sent := TriggerAggregation(glre, attr);
    state := SetEpochState(attr, h);
  }

  method EpochDiscard(tx: Tx, hdl: Hdl, epoch: U64) returns (rc: Rc, state: EpochState)
    ensures var o := DiscardOn(tx.db, hdl, epoch); rc == o.rc && (rc == Ok ==> state == o.state)
  {
    state := NoState;
    if !hdl.capas.rw {
      return NoPerm, state;
    }
    if epoch >= EPOCH_MAX {
      return Overflow, state;
    } else if epoch < hdl.lhe {
      return EpRo, state;
    }
    rc, state := EpochQuery(tx, hdl);
  }

  /** Move handle `id` and its counts on, and raise GHPCE: then only GHCE is out of date. */
  method CommitCounters(tx: Tx, attr: Attr, id: Uuid, hdl: Hdl, h: Hdl) returns (rc: Rc, attr': Attr)
    requires tx.Result() == tx.db && WellStored(tx.db) && attr == AttrIn(tx.db)
    requires h == CommittedHdl(hdl, h.hce)
    modifies tx
    ensures rc == if CanCommit(tx.db, hdl, h.hce) then Ok else Overflow
    ensures rc == Ok ==>
              tx.Result() == CommitWrites(tx.db, id, hdl, h.hce) && attr' == AttrIn(tx.Result())
  {
    hide Shifted, WellCounted, LowestOf, Apply;
    attr' := attr;
    tx.Write(SetHdl(id, h));
    var empty, lowest;
    rc, empty, lowest := tx.EcUpdateAndFindLowest(LHE, Some(hdl.lhe), Some(h.lhe));
    if rc != Ok { return; }
    attr' := attr'.(glhe := lowest);
    if !hdl.capas.noslip {
      rc, empty, lowest := tx.EcUpdateAndFindLowest(LRE, Some(hdl.lre), Some(h.lre));
      if rc != Ok { return; }
      attr' := attr'.(glre := lowest);
    }
    if h.hce > attr'.ghpce {
      attr' := attr'.(ghpce := h.hce);
      tx.Write(SetGhpce(attr'.ghpce));
    }
  }

  method EpochCommit(tx: Tx, id: Uuid, hdl: Hdl, epoch: U64, purge: bool)
    returns (rc: Rc, state: EpochState, sent: Option<U64>)
    requires tx.Result() == tx.db && WellStored(tx.db)
    modifies tx
    ensures var o := CommitOn(tx.db, id, hdl, epoch, purge);
            rc == o.rc && (rc == Ok ==> tx.Result() == o.s && state == o.state && sent == o.sent)
  {
    hide Shifted, WellCounted, LowestOf, Apply, CanShift;
    state, sent := NoState, None;
    if !hdl.capas.rw {
      return NoPerm, state, None;
    }
    if epoch >= EPOCH_MAX {
      return Overflow, state, None;
    }
    var attr := ReadEpochAttr(tx);
    var glre := attr.glre;
    if !CheckEpoch(attr, hdl) {
      return Io, state, None;
    }
    if epoch <= hdl.hce {
      return Ok, SetEpochState(attr, hdl), None;
    } else if epoch < hdl.lhe {
      return EpRo, state, None;
    }
    var h := hdl.(hce := epoch, lhe := epoch + 1);
    if !hdl.capas.noslip {
      h := h.(lre := epoch);
    }
    rc, attr := CommitCounters(tx, attr, id, hdl, h);
    if rc != Ok { return; }
    rc, attr := UpdateGhce(tx, attr);
    if rc != Ok { return; }
    if !CheckEpoch(attr, h) {
      return Io, state, None;
    }
    if purge {
      sent := TriggerAggregation(glre, attr);
    }
    state := SetEpochState(attr, h);
  }
}
