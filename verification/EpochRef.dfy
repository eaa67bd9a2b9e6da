/** The container epoch protocol at its simplest: open handles and the highest epoch any
    of them has committed.  Everything global (GHCE, GLHE, GLRE) is derived. */
module EpochRef {
  import opened EpochStore

  /** `leaks` are the reference counts that no handle accounts for. */
  datatype Ref = Ref(hdls: map<Uuid, Hdl>, ghpce: U64, leaks: multiset<U64>)

  const Created := Ref(map[], 0, multiset{})

  ghost function Lhes(hdls: map<Uuid, Hdl>): set<U64> {
    set h | h in hdls :: hdls[h].lhe
  }

  ghost function Lres(hdls: map<Uuid, Hdl>): set<U64> {
    set h | h in hdls :: hdls[h].lre
  }

  /** Global lowest held epoch. */
  ghost function Glhe(r: Ref): U64 {
    LowestOf(Lhes(r.hdls))
  }

  /** Global lowest referenced epoch, as the counters see it. */
  ghost function Glre(r: Ref): U64 {
    LowestOf(Lres(r.hdls) + set e | e in r.leaks)
  }

  /** Global highest committed epoch: the highest one that some handle has committed and
      none holds. */
  ghost function Ghce(r: Ref): nat {
    if r.ghpce < Glhe(r) then r.ghpce else if Glhe(r) == 0 then 0 else Glhe(r) - 1
  }

  ghost predicate HdlInv(h: Hdl, ghpce: U64) {
    h.hce <= ghpce && h.hce < h.lhe && h.lre < EPOCH_MAX
  }

  ghost predicate Inv(r: Ref) {
    && r.ghpce < EPOCH_MAX
    && forall h :: h in r.hdls ==> HdlInv(r.hdls[h], r.ghpce)
  }

  datatype Req =
    | Open(id: Uuid, capas: Capas, poolRw: bool)
    | Close(id: Uuid, purge: bool)
    | Query(id: Uuid)
    | Hold(id: Uuid, epoch: U64)
    | Slip(id: Uuid, epoch: U64)
    | Discard(id: Uuid, epoch: U64)
    | Commit(id: Uuid, epoch: U64, purge: bool)

  /** The outcome of a request: its return code, the state after it, and the end of the
      aggregation range it had broadcast, if any. */
  datatype Outcome = Outcome(rc: Rc, r: Ref, sent: Option<U64>)

  /** The epoch a hold request gets. */
  ghost function HeldEpoch(r: Ref, epoch: U64): U64
    requires r.ghpce < EPOCH_MAX
  {
    if epoch == 0 then r.ghpce + 1 else if epoch <= Ghce(r) then Ghce(r) + 1 else epoch
  }

  /** Aggregation is sent when GLRE has risen, up to the lower of GLRE and GHCE. */
  ghost function Aggregation(before: Ref, after: Ref): Option<U64> {
    if Glre(after) > Glre(before) then Some(if Glre(after) < Ghce(after) then Glre(after) else Ghce(after)) else None
  }

  ghost function CommitHdl(h: Hdl, epoch: U64): Hdl
    requires epoch < EPOCH_MAX
  {
    h.(hce := epoch, lhe := epoch + 1, lre := if h.capas.noslip then h.lre else epoch)
  }

  /** A slipping commit at the handle's own LRE counts that epoch twice. */
  ghost function CommitLeak(h: Hdl, epoch: U64): multiset<U64> {
    if !h.capas.noslip && h.lre == epoch then multiset{epoch} else multiset{}
  }

  ghost function Step(r: Ref, q: Req): Outcome
    requires Inv(r)
  {
    match q
    case Open(id, capas, poolRw) =>
      if capas.rw && !poolRw then Outcome(NoPerm, r, None)
      else if id in r.hdls then Outcome(if r.hdls[id].capas == capas then Ok else Exist, r, None)
      else Outcome(Ok, r.(hdls := r.hdls[id := Hdl(capas, Ghce(r), Ghce(r), EPOCH_MAX)]), None)
    case Close(id, purge) =>
      if id !in r.hdls then Outcome(Ok, r, None)
      else
        var r' := r.(hdls := r.hdls - {id});
        Outcome(Ok, r', if purge then Aggregation(r, r') else None)
    case Query(id) => Outcome(if id in r.hdls then Ok else NoHdl, r, None)
    case Hold(id, epoch) =>
      if id !in r.hdls then Outcome(NoHdl, r, None)
      else if !r.hdls[id].capas.rw then Outcome(NoPerm, r, None)
      else if HeldEpoch(r, epoch) <= r.hdls[id].hce then Outcome(Io, r, None)
      else Outcome(Ok, r.(hdls := r.hdls[id := r.hdls[id].(lhe := HeldEpoch(r, epoch))]), None)
    case Slip(id, epoch) =>
      if id !in r.hdls then Outcome(NoHdl, r, None)
      else if epoch == EPOCH_MAX then Outcome(Overflow, r, None)
      else if epoch <= r.hdls[id].lre then Outcome(Ok, r, None)
      else
        var r' := r.(hdls := r.hdls[id := r.hdls[id].(lre := epoch)]);
        Outcome(Ok, r', Aggregation(r, r'))
    case Discard(id, epoch) =>
      Outcome(if id !in r.hdls then NoHdl
              else if !r.hdls[id].capas.rw then NoPerm
              else if epoch == EPOCH_MAX then Overflow
              else if epoch < r.hdls[id].lhe then EpRo
              else Ok, r, None)
    case Commit(id, epoch, purge) =>
      if id !in r.hdls then Outcome(NoHdl, r, None)
      else if !r.hdls[id].capas.rw then Outcome(NoPerm, r, None)
      else if epoch == EPOCH_MAX then Outcome(Overflow, r, None)
      else if epoch <= r.hdls[id].hce then Outcome(Ok, r, None)
      else if epoch < r.hdls[id].lhe then Outcome(EpRo, r, None)
      else
        var h := r.hdls[id];
        var ghpce := if epoch > r.ghpce then epoch else r.ghpce;
        var r' := Ref(r.hdls[id := CommitHdl(h, epoch)], ghpce, r.leaks + CommitLeak(h, epoch));
        Outcome(Ok, r', if purge then Aggregation(r, r') else None)
  }

  // ---------------------------------------------------------------------------
  // One step
  // ---------------------------------------------------------------------------

  lemma GhceBelow(r: Ref)
    requires Inv(r)
    ensures Ghce(r) <= r.ghpce && Ghce(r) < Glhe(r) && Glhe(r) >= 1
    ensures forall h :: h in r.hdls ==> Ghce(r) < r.hdls[h].lhe
    ensures Ghce(r) == r.ghpce || Ghce(r) + 1 == Glhe(r)
  {
    forall h | h in r.hdls ensures Glhe(r) <= r.hdls[h].lhe {
      assert r.hdls[h].lhe in Lhes(r.hdls);
    }
    if r.hdls.Keys != {} {
      var x :| x in r.hdls;
      assert r.hdls[x].lhe in Lhes(r.hdls);
      var y :| y in r.hdls && r.hdls[y].lhe == Glhe(r);
    } else {
      assert Lhes(r.hdls) == {};
    }
  }

  /** GHCE is the highest epoch committed by some handle and held by none. */
  lemma GhceIs(r: Ref, e: nat)
    requires Inv(r)
    requires e <= r.ghpce && forall h :: h in r.hdls ==> e < r.hdls[h].lhe
    ensures e <= Ghce(r)
  {
    GhceBelow(r);
    if r.hdls.Keys == {} { assert Lhes(r.hdls) == {}; }
  }

  lemma StepKeepsInv(r: Ref, q: Req)
    requires Inv(r)
    ensures Inv(Step(r, q).r)
  {
    GhceBelow(r);
  }

  /** GHCE and GHPCE never decrease. */
  lemma StepMonotone(r: Ref, q: Req)
    requires Inv(r)
    ensures Ghce(r) <= Ghce(Step(r, q).r) && r.ghpce <= Step(r, q).r.ghpce
  {
    StepKeepsInv(r, q);
    GhceBelow(r);
    GhceIs(Step(r, q).r, Ghce(r));
  }

  /** A hold fails exactly when it would reach below the handle's own commits. */
  lemma HoldFails(r: Ref, id: Uuid, epoch: U64)
    requires Inv(r) && id in r.hdls && r.hdls[id].capas.rw
    ensures Step(r, Hold(id, epoch)).rc == Io <==> 0 < epoch <= r.hdls[id].hce && Ghce(r) < r.hdls[id].hce
    ensures Step(r, Hold(id, epoch)).rc == Io ==> Step(r, Hold(id, epoch)).r == r
  {
    GhceBelow(r);
  }

  /** An epoch at or below GHCE is immutable: nobody can hold it, commit it anew or discard it. */
  ghost predicate Immutable(r: Ref, e: nat) {
    forall h :: h in r.hdls ==> e < r.hdls[h].lhe
  }

  lemma BelowGhceImmutable(r: Ref, q: Req, e: nat)
    requires Inv(r) && e <= Ghce(r)
    ensures Immutable(Step(r, q).r, e) && e <= Ghce(Step(r, q).r)
    ensures q.Discard? && q.epoch == e ==> Step(r, q).rc != Ok
    ensures q.Commit? && q.epoch == e ==> Step(r, q).r == r
  {
    StepKeepsInv(r, q);
    StepMonotone(r, q);
    GhceBelow(Step(r, q).r);
    GhceBelow(r);
  }

  // ---------------------------------------------------------------------------
  // What requests give
  // ---------------------------------------------------------------------------

  /** Exactly when a request is refused, and with what. */
  lemma StepRefuses(r: Ref, q: Req)
    requires Inv(r)
    ensures var rc := Step(r, q).rc;
            && (rc == NoHdl <==> q.id !in r.hdls && !q.Open? && !q.Close?)
            && (rc == NoPerm <==>
                  || (q.Open? && q.capas.rw && !q.poolRw)
                  || ((q.Hold? || q.Discard? || q.Commit?) && q.id in r.hdls && !r.hdls[q.id].capas.rw))
            && (rc == Exist <==>
                  q.Open? && (q.capas.rw ==> q.poolRw) && q.id in r.hdls && r.hdls[q.id].capas != q.capas)
            && (rc == Overflow <==>
                  && q.id in r.hdls && (q.Slip? || ((q.Discard? || q.Commit?) && r.hdls[q.id].capas.rw))
                  && q.epoch == EPOCH_MAX)
            && (rc == EpRo <==>
                  && (q.Discard? || q.Commit?) && q.id in r.hdls && r.hdls[q.id].capas.rw && q.epoch < EPOCH_MAX
                  && q.epoch < r.hdls[q.id].lhe && (q.Commit? ==> q.epoch > r.hdls[q.id].hce))
            && (rc == Io <==>
                  && q.Hold? && q.id in r.hdls && r.hdls[q.id].capas.rw
                  && 0 < q.epoch <= r.hdls[q.id].hce && Ghce(r) < r.hdls[q.id].hce)
            && rc != NonExist && (rc != Ok ==> Step(r, q).r == r)
  {
    GhceBelow(r);
  }

  /** A request touches no handle but its own; only commits touch GHPCE and the leaks. */
  lemma StepTouches(r: Ref, q: Req, x: Uuid)
    requires Inv(r)
    ensures var r' := Step(r, q).r;
            && (x != q.id ==> (x in r'.hdls <==> x in r.hdls) && (x in r.hdls ==> r'.hdls[x] == r.hdls[x]))
            && (!q.Commit? ==> r'.ghpce == r.ghpce && r'.leaks == r.leaks)
            && (q.id in r.hdls && !q.Close? ==> q.id in r'.hdls && r'.hdls[q.id].capas == r.hdls[q.id].capas)
            && (q.Query? || q.Discard? ==> r' == r)
  {
  }

  /** A new handle reads the last committed epoch and holds nothing: whatever it has not seen
      committed it cannot commit, and GHCE stays. */
  lemma OpenGives(r: Ref, id: Uuid, capas: Capas, poolRw: bool, e: U64, purge: bool)
    requires Inv(r) && id !in r.hdls && Step(r, Open(id, capas, poolRw)).rc == Ok
    ensures var r' := Step(r, Open(id, capas, poolRw)).r;
            && id in r'.hdls && r'.hdls[id].capas == capas
            && r'.hdls[id].lre == r'.hdls[id].hce == Ghce(r) && r'.hdls[id].lhe == EPOCH_MAX
            && Inv(r') && Ghce(r') == Ghce(r)
            && (capas.rw && e < EPOCH_MAX ==>
                  Step(r', Commit(id, e, purge)) == Outcome(if e <= Ghce(r) then Ok else EpRo, r', None))
  {
    var r' := Step(r, Open(id, capas, poolRw)).r;
    StepKeepsInv(r, Open(id, capas, poolRw));
    GhceBelow(r);
    GhceBelow(r');
    GhceIs(r', Ghce(r));
    forall x | x in r.hdls ensures Ghce(r') < r.hdls[x].lhe { assert r'.hdls[x] == r.hdls[x]; }
    GhceIs(r, Ghce(r'));
  }

  /** A closed handle is gone; it may be opened again. */
  lemma CloseGives(r: Ref, id: Uuid, purge: bool)
    requires Inv(r)
    ensures Step(r, Close(id, purge)).rc == Ok && id !in Step(r, Close(id, purge)).r.hdls
  {
  }

  /** What a hold gives.  Asked for an epoch, the lowest one from there on that is not yet
      immutable; not asked for one, the one above all that were ever committed. */
  lemma HoldGives(r: Ref, id: Uuid, epoch: U64)
    requires Inv(r) && Step(r, Hold(id, epoch)).rc == Ok
    ensures var r' := Step(r, Hold(id, epoch)).r;
            && id in r.hdls && id in r'.hdls && r'.hdls[id] == r.hdls[id].(lhe := r'.hdls[id].lhe)
            && var lhe := r'.hdls[id].lhe;
            && lhe > Ghce(r) && lhe > r.hdls[id].hce
            && (epoch == 0 ==> lhe == r.ghpce + 1 && forall h :: h in r.hdls ==> r.hdls[h].hce < lhe)
            && (epoch > 0 ==> lhe >= epoch && (lhe == epoch || lhe == Ghce(r) + 1))
  {
    GhceBelow(r);
  }

  /** A held epoch can be committed, and so can all above it; what is below cannot. */
  lemma HoldCommits(r: Ref, id: Uuid, epoch: U64, e: U64, purge: bool)
    requires Inv(r) && Step(r, Hold(id, epoch)).rc == Ok && e < EPOCH_MAX
    ensures var r' := Step(r, Hold(id, epoch)).r;
            && Inv(r') && id in r'.hdls && id in r.hdls
            && var o := Step(r', Commit(id, e, purge));
            && (o.rc == Ok && o.r != r' <==> e >= r'.hdls[id].lhe)
            && (o.rc == Ok && o.r != r' ==> id in o.r.hdls && o.r.hdls[id].hce == e)
            && (o.rc == EpRo <==> r.hdls[id].hce < e < r'.hdls[id].lhe)
  {
    StepKeepsInv(r, Hold(id, epoch));
    var r' := Step(r, Hold(id, epoch)).r;
    var o := Step(r', Commit(id, e, purge));
    if e >= r'.hdls[id].lhe { assert o.r.hdls[id].hce == e != r'.hdls[id].hce; }
  }

  /** Slipping moves what a handle reads on, never back. */
  lemma SlipGives(r: Ref, id: Uuid, epoch: U64)
    requires Inv(r) && Step(r, Slip(id, epoch)).rc == Ok
    ensures var r' := Step(r, Slip(id, epoch)).r;
            && id in r.hdls && id in r'.hdls && r'.hdls[id] == r.hdls[id].(lre := r'.hdls[id].lre)
            && var was, lre := r.hdls[id].lre, r'.hdls[id].lre;
            && was <= lre && epoch <= lre && (lre == was || lre == epoch)
  {
  }

  /** An effective commit: the handle holds on from the epoch after, and reads what it has
      committed unless it is not to slip.  Done again it changes nothing, and the epoch can no
      longer be discarded. */
  lemma CommitGives(r: Ref, id: Uuid, e: U64, purge: bool, again: bool)
    requires Inv(r) && Step(r, Commit(id, e, purge)).rc == Ok
    ensures var o := Step(r, Commit(id, e, purge));
            && id in r.hdls && id in o.r.hdls && Inv(o.r) && (o.r == r <==> e <= r.hdls[id].hce)
            && (o.r != r ==>
                  && o.r.hdls[id].hce == e && o.r.hdls[id].lhe == e + 1
                  && o.r.hdls[id].lre == (if r.hdls[id].capas.noslip then r.hdls[id].lre else e)
                  && o.r.ghpce >= e && o.r.ghpce >= r.ghpce && (o.r.ghpce == e || o.r.ghpce == r.ghpce))
            && Step(o.r, Commit(id, e, again)) == Outcome(Ok, o.r, None)
            && Step(o.r, Discard(id, e)).rc == EpRo
  {
    StepKeepsInv(r, Commit(id, e, purge));
    var r' := Step(r, Commit(id, e, purge)).r;
    if e > r.hdls[id].hce { assert r'.hdls[id].hce != r.hdls[id].hce; }
  }

  // ---------------------------------------------------------------------------
  // Aggregation
  // ---------------------------------------------------------------------------

  /** A range is sent exactly if GLRE has risen by a slip, or by a close or commit that is to
      purge; it ends at the lower of GLRE and GHCE. */
  lemma SentExact(r: Ref, q: Req)
    requires Inv(r)
    ensures var o := Step(r, q);
            && (o.sent.Some? <==>
                  Glre(o.r) > Glre(r) && (q.Slip? || (q.Close? && q.purge) || (q.Commit? && q.purge)))
            && (o.sent.Some? ==>
                  var a := o.sent.value; a <= Glre(o.r) && a <= Ghce(o.r) && (a == Glre(o.r) || a == Ghce(o.r)))
  {
    hide Glre, Ghce, CommitHdl;
  }

  /** Epoch `a` may have been aggregated away: everybody reads at or above it. */
  ghost predicate Safe(r: Ref, a: nat) {
    a <= Ghce(r) && forall h :: h in r.hdls ==> a <= r.hdls[h].lre
  }

  lemma SentSafe(r: Ref, q: Req)
    requires Inv(r)
    ensures Step(r, q).sent.Some? ==> Safe(Step(r, q).r, Step(r, q).sent.value)
  {
    var r' := Step(r, q).r;
    forall h | h in r'.hdls ensures Glre(r') <= r'.hdls[h].lre {
      assert r'.hdls[h].lre in Lres(r'.hdls);
    }
  }

  /** What is sent is all that is safe to aggregate, exactly if no leak is below the handles'
      references and GHCE. */
  lemma SentHighest(r: Ref, q: Req)
    requires Inv(r) && Step(r, q).sent.Some?
    ensures var o := Step(r, q);
            && Safe(o.r, o.sent.value)
            && ((forall b: nat :: Safe(o.r, b) ==> b <= o.sent.value) <==>
                  Glre(o.r) == LowestOf(Lres(o.r.hdls)) || Ghce(o.r) <= Glre(o.r))
  {
    hide Ghce;
    SentSafe(r, q);
    SentExact(r, q);
    var r', a := Step(r, q).r, Step(r, q).sent.value;
    hide Step, Glre;
    var low := LowestOf(Lres(r'.hdls));
    GlreExact(r');
    forall b: nat | Safe(r', b) ensures b <= low {
      if Lres(r'.hdls) != {} {
        var h :| h in r'.hdls && r'.hdls[h].lre == low;
      } else {
        SafeSmall(r', b);
      }
    }
    if Glre(r') < low && Glre(r') < Ghce(r') {
      var b: nat := if low < Ghce(r') then low else Ghce(r');
      forall h | h in r'.hdls ensures b <= r'.hdls[h].lre { assert r'.hdls[h].lre in Lres(r'.hdls); }
      assert Safe(r', b) && b > a;
    }
  }

  lemma SafeSmall(r: Ref, b: nat)
    requires Safe(r, b)
    ensures b <= EPOCH_MAX
  {
  }

  lemma NoLeaks(r: Ref, qs: seq<Req>)
    requires Inv(r) && qs != [] && Leaked(r, qs) == multiset{}
    ensures Inv(Step(r, qs[0]).r) && !Leaky(r, qs[0]) && Leaked(Step(r, qs[0]).r, qs[1..]) == multiset{}
  {
    hide Leaky;
    StepKeepsInv(r, qs[0]);
    assert Leaked(Step(r, qs[0]).r, qs[1..]) <= Leaked(r, qs);
  }

  /** Over a run without leaks everything that is safe is aggregated whenever anything is. */
  lemma {:induction false} RunSentHighest(r: Ref, qs: seq<Req>, k: nat, b: nat)
    requires Inv(r) && r.leaks == multiset{} && Leaked(r, qs) == multiset{} && k < |qs|
    ensures Inv(Trail(r, qs)[k]) && Trail(r, qs)[k + 1] == Step(Trail(r, qs)[k], qs[k]).r
    ensures Step(Trail(r, qs)[k], qs[k]).sent.Some? && Safe(Trail(r, qs)[k + 1], b) ==>
              b <= Step(Trail(r, qs)[k], qs[k]).sent.value
    decreases |qs|
  {
    hide Step, Safe, Glre, Ghce, Leaky;
    StepKeepsInv(r, qs[0]);
    NoLeaks(r, qs);
    hide Leaked;
    StepLeaks(r, qs[0]);
    var r1 := Step(r, qs[0]).r;
    if k > 0 {
      RunSentHighest(r1, qs[1..], k - 1, b);
    } else if Step(r, qs[0]).sent.Some? {
      SentHighest(r, qs[0]);
      GlreExact(r1);
    }
  }

  /** What is safe to aggregate stays safe, through new handles and commits that move a
      handle's LRE back. */
  lemma SafeStays(r: Ref, q: Req, a: nat)
    requires Inv(r) && Safe(r, a)
    ensures Safe(Step(r, q).r, a)
  {
    StepMonotone(r, q);
    GhceBelow(r);
  }

  // ---------------------------------------------------------------------------
  // Runs
  // ---------------------------------------------------------------------------

  /** The states a sequence of requests passes through, the first one included. */
  ghost function Trail(r: Ref, qs: seq<Req>): (t: seq<Ref>)
    requires Inv(r)
    ensures |t| == |qs| + 1 && t[0] == r
    decreases |qs|
  {
    if qs == [] then [r]
    else
      StepKeepsInv(r, qs[0]);
      [r] + Trail(Step(r, qs[0]).r, qs[1..])
  }

  ghost function After(r: Ref, qs: seq<Req>): Ref
    requires Inv(r)
  {
    Trail(r, qs)[|qs|]
  }

  /** The ends of the aggregation ranges a sequence of requests sends. */
  ghost function Sent(r: Ref, qs: seq<Req>): set<U64>
    requires Inv(r)
    decreases |qs|
  {
    if qs == [] then {}
    else
      StepKeepsInv(r, qs[0]);
      var o := Step(r, qs[0]);
      (if o.sent.Some? then {o.sent.value} else {}) + Sent(o.r, qs[1..])
  }

  /** The request commits its epoch. */
  ghost predicate Commits(r: Ref, q: Req)
    requires Inv(r)
  {
    q.Commit? && Step(r, q).rc == Ok && q.id in r.hdls && q.epoch > r.hdls[q.id].hce
  }

  /** Request `k` of a run commits epoch `e`. */
  ghost predicate CommitsAt(r: Ref, qs: seq<Req>, k: nat, e: U64)
    requires Inv(r)
  {
    k < |qs| && Inv(Trail(r, qs)[k]) && Commits(Trail(r, qs)[k], qs[k]) && qs[k].epoch == e
  }

  lemma CommitsNext(r: Ref, qs: seq<Req>, k: nat, e: U64)
    requires Inv(r) && qs != []
    ensures Inv(Step(r, qs[0]).r)
    ensures CommitsAt(r, qs, k, e) <==>
              if k == 0 then Commits(r, qs[0]) && qs[0].epoch == e else CommitsAt(Step(r, qs[0]).r, qs[1..], k - 1, e)
  {
    hide Step, Commits;
    StepKeepsInv(r, qs[0]);
    if 0 < k < |qs| { assert qs[1..][k - 1] == qs[k]; }
  }

  lemma StepGhpce(r: Ref, q: Req)
    requires Inv(r)
    ensures var r' := Step(r, q).r;
            && r'.ghpce >= r.ghpce && (Commits(r, q) ==> q.epoch <= r'.ghpce)
            && (r'.ghpce == r.ghpce || (Commits(r, q) && q.epoch == r'.ghpce))
  {
    hide Ghce, Glre;
  }

  /** GHPCE is the highest epoch ever committed, by whatever handle. */
  lemma {:induction false} RunGhpce(r: Ref, qs: seq<Req>) returns (k: nat)
    requires Inv(r)
    ensures forall j: nat, e: U64 :: CommitsAt(r, qs, j, e) ==> e <= After(r, qs).ghpce
    ensures After(r, qs).ghpce >= r.ghpce
    ensures After(r, qs).ghpce == r.ghpce || CommitsAt(r, qs, k, After(r, qs).ghpce)
    decreases |qs|
  {
    hide Step, Commits, CommitsAt;
    k := 0;
    if qs == [] {
      forall j: nat, e: U64 ensures !CommitsAt(r, qs, j, e) { NoneCommits(r, j, e); }
    } else {
      StepKeepsInv(r, qs[0]);
      StepGhpce(r, qs[0]);
      var r1 := Step(r, qs[0]).r;
      k := RunGhpce(r1, qs[1..]);
      var e := After(r, qs).ghpce;
      forall j: nat, x: U64 | CommitsAt(r, qs, j, x) ensures x <= e { CommitsNext(r, qs, j, x); }
      k := if e == r1.ghpce then 0 else k + 1;
      CommitsNext(r, qs, k, e);
    }
  }

  lemma NoneCommits(r: Ref, j: nat, e: U64)
    requires Inv(r)
    ensures !CommitsAt(r, [], j, e)
  {
  }

  /** Over any run GHCE and GHPCE only rise. */
  lemma {:induction false} RunMonotone(r: Ref, qs: seq<Req>)
    requires Inv(r)
    ensures Inv(After(r, qs)) && Ghce(r) <= Ghce(After(r, qs)) && r.ghpce <= After(r, qs).ghpce
    decreases |qs|
  {
    if qs != [] {
      StepKeepsInv(r, qs[0]);
      StepMonotone(r, qs[0]);
      RunMonotone(Step(r, qs[0]).r, qs[1..]);
    }
  }

  /** Whatever was safe before a run, and whatever the run sends, is safe after it. */
  lemma {:induction false} RunSafe(r: Ref, qs: seq<Req>, a: nat)
    requires Inv(r) && (Safe(r, a) || a in Sent(r, qs))
    ensures Safe(After(r, qs), a)
    decreases |qs|
  {
    if qs != [] {
      StepKeepsInv(r, qs[0]);
      SentSafe(r, qs[0]);
      var o := Step(r, qs[0]);
      if Safe(r, a) { SafeStays(r, qs[0], a); }
      RunSafe(o.r, qs[1..], a);
    }
  }

  /** Once an epoch is at or below GHCE, no later request of any handle changes it. */
  lemma {:induction false} RunImmutable(r: Ref, qs: seq<Req>, q: Req, e: nat)
    requires Inv(r) && e <= Ghce(r)
    ensures Inv(After(r, qs)) && Immutable(Step(After(r, qs), q).r, e)
    ensures q.Discard? && q.epoch == e ==> Step(After(r, qs), q).rc != Ok
    ensures q.Commit? && q.epoch == e ==> Step(After(r, qs), q).r == After(r, qs)
  {
    RunMonotone(r, qs);
    BelowGhceImmutable(After(r, qs), q, e);
  }

  // ---------------------------------------------------------------------------
  // Leaked references
  // ---------------------------------------------------------------------------

  /** A commit that leaks: it slips, takes effect, and is at the handle's current LRE. */
  ghost predicate Leaky(r: Ref, q: Req)
    requires Inv(r)
  {
    && q.Commit? && q.id in r.hdls && Step(r, q).rc == Ok && q.epoch > r.hdls[q.id].hce
    && !r.hdls[q.id].capas.noslip && q.epoch == r.hdls[q.id].lre
  }

  lemma StepLeaks(r: Ref, q: Req)
    requires Inv(r)
    ensures Step(r, q).r.leaks == r.leaks + if Leaky(r, q) then multiset{q.epoch} else multiset{}
  {
  }

  /** The epochs of the leaky commits of a run. */
  ghost function Leaked(r: Ref, qs: seq<Req>): multiset<U64>
    requires Inv(r)
    decreases |qs|
  {
    if qs == [] then multiset{}
    else
      StepKeepsInv(r, qs[0]);
      (if Leaky(r, qs[0]) then multiset{qs[0].epoch} else multiset{}) + Leaked(Step(r, qs[0]).r, qs[1..])
  }

  /** Over any run the surplus counts are exactly those of its leaky commits. */
  lemma {:induction false} RunLeaks(r: Ref, qs: seq<Req>)
    requires Inv(r)
    ensures After(r, qs).leaks == r.leaks + Leaked(r, qs)
    decreases |qs|
  {
    if qs != [] {
      StepKeepsInv(r, qs[0]);
      StepLeaks(r, qs[0]);
      RunLeaks(Step(r, qs[0]).r, qs[1..]);
    }
  }

  /** GLRE is the lowest epoch any handle references exactly when no leak is below it. */
  lemma GlreExact(r: Ref)
    ensures Glre(r) == LowestOf(Lres(r.hdls)) <==> forall e :: e in r.leaks ==> LowestOf(Lres(r.hdls)) <= e
    ensures Glre(r) <= LowestOf(Lres(r.hdls))
  {
    var leaks := set e | e in r.leaks;
    var low := LowestOf(Lres(r.hdls));
    if Lres(r.hdls) != {} { assert low in Lres(r.hdls) + leaks; }
    forall e | e in r.leaks ensures Glre(r) <= e { assert e in Lres(r.hdls) + leaks; }
    if Lres(r.hdls) + leaks != {} {
      var e := Glre(r);
      assert e in Lres(r.hdls) || e in leaks;
    }
  }

  lemma Pinned(r: Ref, e: U64)
    requires e in r.leaks
    ensures Glre(r) <= e
  {
    assert e in Lres(r.hdls) + set x | x in r.leaks;
  }

  lemma SentPinned(r: Ref, q: Req, e: U64)
    requires Inv(r) && e in r.leaks
    ensures Step(r, q).sent.Some? ==> Step(r, q).sent.value <= e
  {
    hide Lres, LowestOf, Glre, Ghce;
    StepLeaks(r, q);
    Pinned(Step(r, q).r, e);
  }

  /** A leaked reference pins GLRE for good: no later run lifts it or aggregates past it. */
  lemma {:induction false} LeakPins(r: Ref, qs: seq<Req>, e: U64)
    requires Inv(r) && e in r.leaks
    ensures Glre(After(r, qs)) <= e
    ensures forall a :: a in Sent(r, qs) ==> a <= e
    decreases |qs|
  {
    hide Step, Inv, Trail, Sent;
    RunParts(r, qs);
    if qs == [] {
      Pinned(r, e);
    } else {
      var o := Step(r, qs[0]);
      StepLeaks(r, qs[0]);
      SentPinned(r, qs[0], e);
      LeakPins(o.r, qs[1..], e);
    }
  }

  lemma AfterFirst(r: Ref, q: Req, qs: seq<Req>)
    requires Inv(r)
    ensures Inv(Step(r, q).r) && After(r, [q] + qs) == After(Step(r, q).r, qs)
  {
    StepKeepsInv(r, q);
    assert ([q] + qs)[1..] == qs;
  }

  /** The state of a single writable handle. */
  ghost function Alone(id: Uuid, hce: U64, lre: U64, lhe: U64, leaks: multiset<U64>): Ref {
    Ref(map[id := Hdl(Capas(false, true, false), hce, lre, lhe)], hce, leaks)
  }

  lemma LeakSteps(id: Uuid, e: U64)
    requires 0 < e < EPOCH_MAX
    ensures Step(Created, Open(id, Capas(false, true, false), true)).r == Alone(id, 0, 0, EPOCH_MAX, multiset{})
    ensures Step(Alone(id, 0, 0, EPOCH_MAX, multiset{}), Slip(id, e)).r == Alone(id, 0, e, EPOCH_MAX, multiset{})
    ensures Step(Alone(id, 0, e, EPOCH_MAX, multiset{}), Hold(id, e)).r == Alone(id, 0, e, e, multiset{})
    ensures Step(Alone(id, 0, e, e, multiset{}), Commit(id, e, false)).r == Alone(id, e, e, e + 1, multiset{e})
    ensures Step(Alone(id, e, e, e + 1, multiset{e}), Close(id, false)).r == Ref(map[], e, multiset{e})
  {
    hide Lhes, Lres, LowestOf, Glre, Aggregation;
    GhceBelow(Created);
    GhceBelow(Alone(id, 0, e, EPOCH_MAX, multiset{}));
  }

  /** A handle that slips ahead and then commits where it slipped to leaves a reference
      behind when it closes. */
  lemma LeakHappens(id: Uuid, e: U64)
    requires 0 < e < EPOCH_MAX
    ensures var qs := [Open(id, Capas(false, true, false), true)]
            + ([Slip(id, e)] + ([Hold(id, e)] + ([Commit(id, e, false)] + ([Close(id, false)] + []))));
            After(Created, qs) == Ref(map[], e, multiset{e})
  {
    hide Step, Trail, Alone;
    LeakSteps(id, e);
    var q5 := [Close(id, false)] + [];
    var q4 := [Commit(id, e, false)] + q5;
    var q3 := [Hold(id, e)] + q4;
    var q2 := [Slip(id, e)] + q3;
    AfterFirst(Created, Open(id, Capas(false, true, false), true), q2);
    AfterFirst(Alone(id, 0, 0, EPOCH_MAX, multiset{}), Slip(id, e), q3);
    AfterFirst(Alone(id, 0, e, EPOCH_MAX, multiset{}), Hold(id, e), q4);
    AfterFirst(Alone(id, 0, e, e, multiset{}), Commit(id, e, false), q5);
    AfterFirst(Alone(id, e, e, e + 1, multiset{e}), Close(id, false), []);
    RunEmpty(Ref(map[], e, multiset{e}));
  }

  /** The state of two writable handles, `b` holding from `lheB` on. */
  ghost function Pair(a: Uuid, hce: U64, lhe: U64, b: Uuid, lheB: U64): Ref {
    Ref(map[a := Hdl(Capas(false, true, false), hce, hce, lhe), b := Hdl(Capas(false, true, false), 0, 0, lheB)],
        hce, multiset{})
  }

  lemma PairGhce(a: Uuid, hce: U64, lhe: U64, b: Uuid)
    requires a != b && hce < lhe && hce < EPOCH_MAX
    ensures Inv(Pair(a, hce, lhe, b, 1)) && Ghce(Pair(a, hce, lhe, b, 1)) == 0
  {
    var r := Pair(a, hce, lhe, b, 1);
    GhceBelow(r);
    assert b in r.hdls && r.hdls[b].lhe == 1;
  }

  lemma PairOpens(a: Uuid, b: Uuid)
    requires a != b
    ensures Step(Created, Open(a, Capas(false, true, false), true)).r == Alone(a, 0, 0, EPOCH_MAX, multiset{})
    ensures Step(Alone(a, 0, 0, EPOCH_MAX, multiset{}), Open(b, Capas(false, true, false), true)).r
            == Pair(a, 0, EPOCH_MAX, b, EPOCH_MAX)
  {
    hide Lhes, Lres, LowestOf, Glre, Aggregation;
    GhceBelow(Created);
    GhceBelow(Alone(a, 0, 0, EPOCH_MAX, multiset{}));
  }

  lemma PairSteps(a: Uuid, b: Uuid, e: U64)
    requires a != b && 0 < e < EPOCH_MAX
    ensures Step(Pair(a, 0, EPOCH_MAX, b, EPOCH_MAX), Hold(b, 1)).r == Pair(a, 0, EPOCH_MAX, b, 1)
    ensures Step(Pair(a, 0, EPOCH_MAX, b, 1), Hold(a, e)).r == Pair(a, 0, e, b, 1)
  {
    hide Lhes, Lres, LowestOf, Glre, Aggregation;
    GhceBelow(Pair(a, 0, EPOCH_MAX, b, EPOCH_MAX));
    PairGhce(a, 0, EPOCH_MAX, b);
  }

  lemma PairCommits(a: Uuid, b: Uuid, e: U64)
    requires a != b && 0 < e < EPOCH_MAX
    ensures Step(Pair(a, 0, e, b, 1), Commit(a, e, false)).r == Pair(a, e, e + 1, b, 1)
  {
    hide Glre, Glhe, Ghce, Aggregation;
  }

  /** A handle that has committed `e` while another holds epoch 1 cannot hold any of its
      epochs up to `e` again. */
  lemma HoldFailure(a: Uuid, b: Uuid, e: U64, x: U64)
    requires a != b && 0 < x <= e < EPOCH_MAX
    ensures var capas := Capas(false, true, false);
            var qs := [Open(a, capas, true)] + ([Open(b, capas, true)]
                      + ([Hold(b, 1)] + ([Hold(a, e)] + ([Commit(a, e, false)] + []))));
            var r := After(Created, qs); Inv(r) && Step(r, Hold(a, x)).rc == Io
  {
    hide Step, Trail, Alone, Pair;
    PairOpens(a, b);
    PairSteps(a, b, e);
    PairCommits(a, b, e);
    var q5 := [Commit(a, e, false)] + [];
    var q4 := [Hold(a, e)] + q5;
    var q3 := [Hold(b, 1)] + q4;
    var q2 := [Open(b, Capas(false, true, false), true)] + q3;
    AfterFirst(Created, Open(a, Capas(false, true, false), true), q2);
    AfterFirst(Alone(a, 0, 0, EPOCH_MAX, multiset{}), Open(b, Capas(false, true, false), true), q3);
    AfterFirst(Pair(a, 0, EPOCH_MAX, b, EPOCH_MAX), Hold(b, 1), q4);
    AfterFirst(Pair(a, 0, EPOCH_MAX, b, 1), Hold(a, e), q5);
    AfterFirst(Pair(a, 0, e, b, 1), Commit(a, e, false), []);
    RunEmpty(Pair(a, e, e + 1, b, 1));
    PairGhce(a, e, e + 1, b);
    PairHold(a, b, e, x);
  }

  lemma PairHold(a: Uuid, b: Uuid, e: U64, x: U64)
    requires a != b && 0 < x <= e < EPOCH_MAX
    ensures Inv(Pair(a, e, e + 1, b, 1)) && Step(Pair(a, e, e + 1, b, 1), Hold(a, x)).rc == Io
  {
    PairGhce(a, e, e + 1, b);
    HoldFails(Pair(a, e, e + 1, b, 1), a, x);
  }

  lemma RunEmpty(r: Ref)
    requires Inv(r)
    ensures After(r, []) == r && Sent(r, []) == {}
  {
  }

  // ---------------------------------------------------------------------------
  // Runs, one request at a time
  // ---------------------------------------------------------------------------

  /** What a sequence of requests returns. */
  ghost function Answers(r: Ref, qs: seq<Req>): seq<Rc>
    requires Inv(r)
    decreases |qs|
  {
    if qs == [] then []
    else
      StepKeepsInv(r, qs[0]);
      [Step(r, qs[0]).rc] + Answers(Step(r, qs[0]).r, qs[1..])
  }

  /** A run is its first step and then the rest. */
  lemma RunParts(r: Ref, qs: seq<Req>)
    requires Inv(r)
    ensures qs == [] ==> After(r, qs) == r && Sent(r, qs) == {} && Answers(r, qs) == []
    ensures qs != [] ==>
              var o := Step(r, qs[0]);
              && Inv(o.r) && After(r, qs) == After(o.r, qs[1..]) && Answers(r, qs) == [o.rc] + Answers(o.r, qs[1..])
              && Sent(r, qs) == (if o.sent.Some? then {o.sent.value} else {}) + Sent(o.r, qs[1..])
  {
    if qs != [] { StepKeepsInv(r, qs[0]); }
  }

  /** How many counts are kept. */
  ghost function Load(r: Ref): nat {
    |r.hdls| + |r.leaks|
  }

  /** A request adds at most one count to all that are kept. */
  lemma StepGrows(r: Ref, q: Req)
    requires Inv(r)
    ensures Load(Step(r, q).r) <= Load(r) + 1
  {
    var r' := Step(r, q).r;
    StepLeaks(r, q);
    if q.id in r.hdls {
      assert r'.hdls.Keys <= r.hdls.Keys;
      Smaller(r'.hdls.Keys, r.hdls.Keys);
    } else {
      assert r'.hdls.Keys <= r.hdls.Keys + {q.id};
      Smaller(r'.hdls.Keys, r.hdls.Keys + {q.id});
    }
  }

  lemma {:induction false} Smaller<T>(a: set<T>, b: set<T>)
    requires a <= b
    ensures |a| <= |b|
  {
    if a != {} {
      var x :| x in a;
      Smaller(a - {x}, b - {x});
    }
  }
}
