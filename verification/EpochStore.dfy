/** The replicated store behind a container, and its transactions.

    A transaction reads only what was committed before it began: its own updates go to
    an ordered log that is applied at commit. */
module EpochStore {

  const EPOCH_MAX: nat := 0xFFFF_FFFF_FFFF_FFFF

  type U64 = x: nat | x <= EPOCH_MAX

  type Uuid = nat

  datatype Capas = Capas(ro: bool, rw: bool, noslip: bool)

  /** A container handle: highest committed, lowest referenced and lowest held epoch. */
  datatype Hdl = Hdl(capas: Capas, hce: U64, lre: U64, lhe: U64)

  /** An epoch-sorted KVS of counters; a counter that reaches zero is removed. */
  type Counters = map<U64, U64>

  datatype EcType = LRE | LHE

  datatype Store = Store(ghce: U64, ghpce: U64, lres: Counters, lhes: Counters, hdls: map<Uuid, Hdl>) {
    function Kvs(ty: EcType): Counters {
      if ty.LRE? then lres else lhes
    }
  }

  datatype Write =
    | SetGhce(epoch: U64)
    | SetGhpce(epoch: U64)
    | SetCounter(ty: EcType, epoch: U64, count: U64)
    | DelCounter(ty: EcType, epoch: U64)
    | SetHdl(id: Uuid, hdl: Hdl)
    | DelHdl(id: Uuid)

  function ApplyOne(s: Store, w: Write): Store {
    match w
    case SetGhce(e) => s.(ghce := e)
    case SetGhpce(e) => s.(ghpce := e)
    case SetCounter(ty, e, c) => if ty.LRE? then s.(lres := s.lres[e := c]) else s.(lhes := s.lhes[e := c])
    case DelCounter(ty, e) => if ty.LRE? then s.(lres := s.lres - {e}) else s.(lhes := s.lhes - {e})
    case SetHdl(id, hdl) => s.(hdls := s.hdls[id := hdl])
    case DelHdl(id) => s.(hdls := s.hdls - {id})
  }

  /** The store after the log has been applied in order. */
  function Apply(s: Store, log: seq<Write>): Store {
    if log == [] then s else ApplyOne(Apply(s, log[..|log| - 1]), log[|log| - 1])
  }

  lemma ApplyAdd(s: Store, log: seq<Write>, w: Write)
    ensures Apply(s, log + [w]) == ApplyOne(Apply(s, log), w)
  {
    assert (log + [w])[..|log|] == log;
  }

  function Count(kvs: Counters, e: U64): U64 {
    if e in kvs then kvs[e] else 0
  }

  ghost predicate WellCounted(kvs: Counters) {
    forall e :: e in kvs ==> kvs[e] >= 1
  }

  ghost predicate IsLowest(keys: set<U64>, e: U64) {
    e in keys && forall k :: k in keys ==> e <= k
  }

  lemma {:induction false} LowestExists(keys: set<U64>)
    requires keys != {}
    ensures exists e :: IsLowest(keys, e)
  {
    var x :| x in keys;
    if keys == {x} {
      assert IsLowest(keys, x);
    } else {
      assert |keys - {x}| < |keys|;
      LowestExists(keys - {x});
      var y :| IsLowest(keys - {x}, y);
      assert keys == (keys - {x}) + {x};
      if x < y {
        assert IsLowest(keys, x);
      } else {
        assert IsLowest(keys, y);
      }
    }
  }

  /** The lowest key, or EPOCH_MAX when there is none. */
  ghost function LowestOf(keys: set<U64>): (e: U64)
    ensures keys == {} ==> e == EPOCH_MAX
    ensures keys != {} ==> IsLowest(keys, e)
  {
    if keys == {} then EPOCH_MAX else LowestExists(keys); var e :| IsLowest(keys, e); e
  }

  datatype Rc = Ok | NoPerm | NoHdl | NonExist | Exist | Overflow | EpRo | Io

  /** Drop one count from `dec` and add one to `inc`, reading both counters first.  When
      both name the same epoch the second write wins and a count too many stays behind. */
  function Shifted(kvs: Counters, dec: Option<U64>, inc: Option<U64>): (r: Counters)
    requires inc.Some? ==> Count(kvs, inc.value) < EPOCH_MAX
  {
    var k :=
      if dec.None? then kvs
      else if Count(kvs, dec.value) <= 1 then kvs - {dec.value}
      else kvs[dec.value := kvs[dec.value] - 1];
    if inc.None? then k else k[inc.value := Count(kvs, inc.value) + 1]
  }

  datatype Option<T> = None | Some(value: T)

  class Tx {
    /** what the transaction can read */
    const db: Store
    var log: seq<Write>

    constructor (db: Store)
      ensures this.db == db && log == [] && Result() == db
    {
      this.db := db;
      log := [];
    }

    ghost function Result(): Store
      reads this
    {
      Apply(db, log)
    }

    method Write(w: Write)
      modifies this
      ensures Result() == ApplyOne(old(Result()), w)
    {
      ApplyAdd(db, log, w);
      log := log + [w];
    }

    /** Add one to the counter of `epoch`. */
    method EcIncrement(ty: EcType, epoch: U64) returns (rc: Rc)
      modifies this
      ensures rc == if Count(db.Kvs(ty), epoch) < EPOCH_MAX then Ok else Overflow
      ensures Result() == if rc == Ok
              then ApplyOne(old(Result()), SetCounter(ty, epoch, Count(db.Kvs(ty), epoch) + 1)) else old(Result())
    {
      var c := Count(db.Kvs(ty), epoch);
      if c == EPOCH_MAX { // c + 1 would wrap around
        return Overflow;
      }
      Write(SetCounter(ty, epoch, c + 1));
      rc := Ok;
    }

    /** Take one from the counter of `epoch`, removing it when it reaches zero. */
    method EcDecrement(ty: EcType, epoch: U64) returns (rc: Rc)
      modifies this
      ensures rc == if Count(db.Kvs(ty), epoch) > 0 then Ok else Overflow
      ensures Result() ==
              var c := Count(db.Kvs(ty), epoch);
              if c == 0 then old(Result())
              else ApplyOne(old(Result()), if c == 1 then DelCounter(ty, epoch) else SetCounter(ty, epoch, c - 1))
    {
      var c := Count(db.Kvs(ty), epoch);
      if c == 0 { // c - 1 would wrap around
        return Overflow;
      }
      if c - 1 == 0 {
        Write(DelCounter(ty, epoch));
      } else {
        Write(SetCounter(ty, epoch, c - 1));
      }
      rc := Ok;
    }

    /** The lowest committed epoch, if there is any. */
    method EcFindLowest(ty: EcType) returns (found: bool, lowest: U64)
      ensures found ==> IsLowest(db.Kvs(ty).Keys, lowest)
      ensures !found ==> db.Kvs(ty).Keys == {}
    {
      var keys := db.Kvs(ty).Keys;
      found, lowest := keys != {}, 0;
      if found {
        LowestExists(keys);
        lowest :| lowest in keys && forall k :: k in keys ==> lowest <= k;
      }
    }

    /** Visit the committed counters in epoch order and stop at the first that survives
        taking one count from `dec`. */
    method EcLowestWithout(ty: EcType, dec: U64) returns (found: bool, lowest: U64)
      ensures found ==> IsLowest(Survivors(db.Kvs(ty), dec), lowest)
      ensures !found ==> Survivors(db.Kvs(ty), dec) == {}
    {
      var kvs := db.Kvs(ty);
      var left := kvs.Keys;
      found, lowest := false, 0;
      while left != {}
        invariant left <= kvs.Keys
        invariant forall k :: k in kvs && k !in left ==> k == dec && kvs[k] == 1
        decreases |left|
      {
        LowestExists(left);
        var epoch :| epoch in left && forall k :: k in left ==> epoch <= k;
        left := left - {epoch};
        if !(epoch == dec && kvs[epoch] == 1) {
          found, lowest := true, epoch;
          return;
        }
      }
    }

    /** Decrement `dec`, increment `inc`, and tell the lowest epoch the KVS will then
        hold, all from what was committed before. */
    method EcUpdateAndFindLowest(ty: EcType, dec: Option<U64>, inc: Option<U64>)
        returns (rc: Rc, empty: bool, lowest: U64)
      requires WellCounted(db.Kvs(ty)) && Result().Kvs(ty) == db.Kvs(ty)
      modifies this
      ensures rc == (if (dec.Some? && Count(db.Kvs(ty), dec.value) == 0) ||
              (inc.Some? && Count(db.Kvs(ty), inc.value) == EPOCH_MAX)
                     then Overflow else Ok)
      ensures rc == Ok ==> Result() == SetKvs(old(Result()), ty, Shifted(db.Kvs(ty), dec, inc))
      ensures rc == Ok && inc.Some? ==> !empty
      ensures rc == Ok ==> (if empty then EPOCH_MAX else lowest) == LowestOf(Shifted(db.Kvs(ty), dec, inc).Keys)
    {
      hide Survivors, WellCounted, Apply, LowestOf, IsLowest;
      empty, lowest := false, 0;
      if dec.Some? {
        rc := EcDecrement(ty, dec.value);
        if rc != Ok { return; }
        var found;
        found, lowest := EcLowestWithout(ty, dec.value);
        empty := !found;
      } else {
        var found;
        found, lowest := EcFindLowest(ty);
        empty := !found;
        rc := Ok;
      }
      ghost var kept := lowest;
      ghost var none := empty;
      if inc.Some? {
        rc := EcIncrement(ty, inc.value);
        if rc != Ok { return; }
        if empty || lowest > inc.value {
          lowest := inc.value;
        }
        empty := false;
      }
      LowestShifted(db.Kvs(ty), dec, inc, none, kept);
    }
  }

  function SetKvs(s: Store, ty: EcType, kvs: Counters): Store {
    if ty.LRE? then s.(lres := kvs) else s.(lhes := kvs)
  }

  /** The epochs that stay in the KVS when one count is taken from `dec`. */
  ghost function Survivors(kvs: Counters, dec: U64): set<U64> {
    set e | e in kvs && !(e == dec && kvs[e] == 1)
  }

  lemma ShiftedKeys(kvs: Counters, dec: Option<U64>, inc: Option<U64>)
    requires WellCounted(kvs) && (inc.Some? ==> Count(kvs, inc.value) < EPOCH_MAX)
    ensures Shifted(kvs, dec, inc).Keys ==
            (if dec.Some? then Survivors(kvs, dec.value) else kvs.Keys) + (if inc.Some? then {inc.value} else {})
    ensures WellCounted(Shifted(kvs, dec, inc))
  {
  }

  /** The keys before anything is added. */
  ghost function Kept(kvs: Counters, dec: Option<U64>): set<U64> {
    if dec.Some? then Survivors(kvs, dec.value) else kvs.Keys
  }

  /** The lowest key that is kept or added. */
  lemma LowestShifted(kvs: Counters, dec: Option<U64>, inc: Option<U64>, empty: bool, low: U64)
    requires WellCounted(kvs) && (inc.Some? ==> Count(kvs, inc.value) < EPOCH_MAX)
    requires if empty then Kept(kvs, dec) == {} else IsLowest(Kept(kvs, dec), low)
    ensures LowestOf(Shifted(kvs, dec, inc).Keys) ==
            if inc.Some? && (empty || low > inc.value) then inc.value else if empty then EPOCH_MAX else low
  {
    ShiftedKeys(kvs, dec, inc);
  }
}
