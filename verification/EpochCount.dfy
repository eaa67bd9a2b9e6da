/** What the stored counters and GHCE stand for. */
module EpochCount {
  import opened EpochStore
  import opened EpochRef

  ghost function Holders(hdls: map<Uuid, Hdl>, e: U64): set<Uuid> {
    set h | h in hdls && hdls[h].lhe == e
  }

  ghost function Readers(hdls: map<Uuid, Hdl>, e: U64): set<Uuid> {
    set h | h in hdls && hdls[h].lre == e
  }

  /** The LHE KVS counts the open handles holding each epoch, exactly. */
  ghost predicate CountsLhes(kvs: Counters, hdls: map<Uuid, Hdl>) {
    && WellCounted(kvs)
    && forall e: U64 :: Count(kvs, e) == |Holders(hdls, e)|
  }

  /** The LRE KVS counts the open handles referencing each epoch, and the leaks besides. */
  ghost predicate CountsLres(kvs: Counters, hdls: map<Uuid, Hdl>, leaks: multiset<U64>) {
    && WellCounted(kvs)
    && forall e: U64 :: Count(kvs, e) == |Readers(hdls, e)| + leaks[e]
  }

  /** The store holds the reference state: GHCE is stored, not derived, and is right. */
  ghost predicate Rep(s: Store, r: Ref) {
    && s.hdls == r.hdls && s.ghpce == r.ghpce && s.ghce == Ghce(r)
    && CountsLhes(s.lhes, r.hdls) && CountsLres(s.lres, r.hdls, r.leaks)
  }

  lemma NonEmpty<T>(s: set<T>, x: T)
    requires x in s
    ensures |s| >= 1
  {
    assert |s - {x}| + 1 == |s|;
  }

  lemma LheKeys(kvs: Counters, hdls: map<Uuid, Hdl>)
    requires CountsLhes(kvs, hdls)
    ensures kvs.Keys == Lhes(hdls)
  {
    forall e: U64 ensures e in kvs.Keys <==> e in Lhes(hdls) {
      if e in kvs {
        assert Count(kvs, e) == |Holders(hdls, e)| >= 1;
        var h :| h in Holders(hdls, e);
        assert hdls[h].lhe == e;
      }
      if e in Lhes(hdls) {
        var h :| h in hdls && hdls[h].lhe == e;
        NonEmpty(Holders(hdls, e), h);
        assert Count(kvs, e) >= 1;
      }
    }
  }

  lemma LreKeys(kvs: Counters, hdls: map<Uuid, Hdl>, leaks: multiset<U64>)
    requires CountsLres(kvs, hdls, leaks)
    ensures kvs.Keys == Lres(hdls) + set e | e in leaks
  {
    forall e: U64 ensures e in kvs.Keys <==> e in Lres(hdls) || e in leaks {
      if e in kvs {
        assert Count(kvs, e) == |Readers(hdls, e)| + leaks[e] >= 1;
        if e !in leaks {
          assert |Readers(hdls, e)| >= 1;
          var h :| h in Readers(hdls, e);
          assert hdls[h].lre == e;
        }
      }
      if e in Lres(hdls) {
        var h :| h in hdls && hdls[h].lre == e;
        NonEmpty(Readers(hdls, e), h);
        assert Count(kvs, e) >= 1;
      }
      if e in leaks { assert Count(kvs, e) >= 1; }
    }
  }

  // ---------------------------------------------------------------------------
  // Counting through updates
  // ---------------------------------------------------------------------------

  lemma ShiftedCount(kvs: Counters, dec: Option<U64>, inc: Option<U64>, e: U64)
    requires WellCounted(kvs) && (inc.Some? ==> Count(kvs, inc.value) < EPOCH_MAX)
    requires dec.Some? ==> Count(kvs, dec.value) >= 1
    ensures dec != inc ==>
              Count(Shifted(kvs, dec, inc), e) ==
                Count(kvs, e) - (if dec == Some(e) then 1 else 0) + (if inc == Some(e) then 1 else 0)
    ensures dec == inc ==> Count(Shifted(kvs, dec, inc), e) == Count(kvs, e) + (if inc == Some(e) then 1 else 0)
  {
  }

  lemma CardMove<T>(s: set<T>, x: T, stays: bool)
    ensures |if stays then (s - {x}) + {x} else s - {x}| == |s| - (if x in s then 1 else 0) + (if stays then 1 else 0)
  {
  }

  /** Moving handle `id` from one set of holders or readers to another. */
  lemma HoldersSet(hdls: map<Uuid, Hdl>, id: Uuid, h: Hdl, e: U64)
    ensures var was := if id in hdls && hdls[id].lhe == e then 1 else 0;
            |Holders(hdls[id := h], e)| == |Holders(hdls, e)| - was + (if h.lhe == e then 1 else 0)
  {
    var hs := Holders(hdls, e);
    assert Holders(hdls[id := h], e) == (if h.lhe == e then (hs - {id}) + {id} else hs - {id});
    CardMove(hs, id, h.lhe == e);
  }

  lemma ReadersSet(hdls: map<Uuid, Hdl>, id: Uuid, h: Hdl, e: U64)
    ensures var was := if id in hdls && hdls[id].lre == e then 1 else 0;
            |Readers(hdls[id := h], e)| == |Readers(hdls, e)| - was + (if h.lre == e then 1 else 0)
  {
    var rs := Readers(hdls, e);
    assert Readers(hdls[id := h], e) == (if h.lre == e then (rs - {id}) + {id} else rs - {id});
    CardMove(rs, id, h.lre == e);
  }

  lemma HoldersDrop(hdls: map<Uuid, Hdl>, id: Uuid, e: U64)
    requires id in hdls
    ensures |Holders(hdls - {id}, e)| == |Holders(hdls, e)| - (if hdls[id].lhe == e then 1 else 0)
    ensures |Readers(hdls - {id}, e)| == |Readers(hdls, e)| - (if hdls[id].lre == e then 1 else 0)
  {
    assert Holders(hdls - {id}, e) == Holders(hdls, e) - {id};
    assert Readers(hdls - {id}, e) == Readers(hdls, e) - {id};
  }

  lemma CountedAtLeast(s: Store, r: Ref, id: Uuid)
    requires Rep(s, r) && id in r.hdls
    ensures Count(s.lhes, r.hdls[id].lhe) >= 1 && Count(s.lres, r.hdls[id].lre) >= 1
  {
    NonEmpty(Holders(r.hdls, r.hdls[id].lhe), id);
    NonEmpty(Readers(r.hdls, r.hdls[id].lre), id);
  }

  /** The LHE KVS after handle `id` has become `h`. */
  lemma LhesSet(kvs: Counters, hdls: map<Uuid, Hdl>, id: Uuid, h: Hdl)
    requires CountsLhes(kvs, hdls) && Count(kvs, h.lhe) < EPOCH_MAX
    requires id in hdls ==> hdls[id].lhe != h.lhe
    ensures CountsLhes(Shifted(kvs, if id in hdls then Some(hdls[id].lhe) else None, Some(h.lhe)), hdls[id := h])
  {
    var dec := if id in hdls then Some(hdls[id].lhe) else None;
    if id in hdls { NonEmpty(Holders(hdls, hdls[id].lhe), id); assert Count(kvs, hdls[id].lhe) >= 1; }
    ShiftedKeys(kvs, dec, Some(h.lhe));
    forall e: U64 ensures Count(Shifted(kvs, dec, Some(h.lhe)), e) == |Holders(hdls[id := h], e)| {
      ShiftedCount(kvs, dec, Some(h.lhe), e);
      HoldersSet(hdls, id, h, e);
    }
  }

  /** The LRE KVS after handle `id` has become `h`: an unchanged LRE is counted once too often. */
  lemma LresSet(kvs: Counters, hdls: map<Uuid, Hdl>, leaks: multiset<U64>, id: Uuid, h: Hdl)
    requires CountsLres(kvs, hdls, leaks) && Count(kvs, h.lre) < EPOCH_MAX
    ensures CountsLres(Shifted(kvs, if id in hdls then Some(hdls[id].lre) else None, Some(h.lre)), hdls[id := h],
                       leaks + if id in hdls && hdls[id].lre == h.lre then multiset{h.lre} else multiset{})
  {
    var dec := if id in hdls then Some(hdls[id].lre) else None;
    if id in hdls { NonEmpty(Readers(hdls, hdls[id].lre), id); assert Count(kvs, hdls[id].lre) >= 1; }
    ShiftedKeys(kvs, dec, Some(h.lre));
    var leaks' := leaks + if id in hdls && hdls[id].lre == h.lre then multiset{h.lre} else multiset{};
    forall e: U64 ensures Count(Shifted(kvs, dec, Some(h.lre)), e) == |Readers(hdls[id := h], e)| + leaks'[e] {
      ShiftedCount(kvs, dec, Some(h.lre), e);
      ReadersSet(hdls, id, h, e);
    }
  }

  lemma CountersDrop(s: Store, r: Ref, id: Uuid)
    requires Rep(s, r) && id in r.hdls
    ensures CountsLhes(Shifted(s.lhes, Some(r.hdls[id].lhe), None), r.hdls - {id})
    ensures CountsLres(Shifted(s.lres, Some(r.hdls[id].lre), None), r.hdls - {id}, r.leaks)
  {
    var h := r.hdls[id];
    CountedAtLeast(s, r, id);
    ShiftedKeys(s.lhes, Some(h.lhe), None);
    ShiftedKeys(s.lres, Some(h.lre), None);
    forall e: U64 ensures Count(Shifted(s.lhes, Some(h.lhe), None), e) == |Holders(r.hdls - {id}, e)| {
      ShiftedCount(s.lhes, Some(h.lhe), None, e);
      HoldersDrop(r.hdls, id, e);
    }
    forall e: U64 ensures Count(Shifted(s.lres, Some(h.lre), None), e) == |Readers(r.hdls - {id}, e)| + r.leaks[e] {
      ShiftedCount(s.lres, Some(h.lre), None, e);
      HoldersDrop(r.hdls, id, e);
    }
  }

  /** Counters that only a handle count no machine can hold would fill. */
  ghost predicate CounterFull(s: Store) {
    exists ty, e: U64 :: Count(s.Kvs(ty), e) == EPOCH_MAX
  }
}
