/** Flat buffers of pool components. */
module PoolBuffer {
  import opened PoolLayers

  datatype Rc = Ok | NoSpace | Inval | NonExist

  // ---------------------------------------------------------------------------
  // Buffers
  // ---------------------------------------------------------------------------

  /** How many of `cs` can follow a component of type `ty` with types not descending. */
  ghost function Follows(ty: nat, cs: seq<Comp>): nat
    decreases |cs|
  {
    if cs == [] || ty > cs[0].ty then 0 else 1 + Follows(cs[0].ty, cs[1..])
  }

  ghost function Domains(cs: seq<Comp>): nat {
    if cs == [] then 0 else Domains(cs[..|cs| - 1]) + if cs[|cs| - 1].ty == TARGET then 0 else 1
  }

  /** A buffer with room for `nr` components. */
  class PoolBuf {
    const nr: nat
    var domainNr: nat
    var targetNr: nat
    var comps: seq<Comp>

    ghost predicate Valid()
      reads this
    {
      |comps| == nr && domainNr + targetNr <= nr && domainNr == Domains(Filled())
    }

    ghost function Filled(): seq<Comp>
      reads this
    {
      if domainNr + targetNr <= |comps| then comps[..domainNr + targetNr] else []
    }

    constructor (nr: nat)
      ensures Valid() && this.nr == nr && Filled() == []
    {
      this.nr := nr;
      domainNr, targetNr := 0, 0;
      comps := seq(nr, _ => Blank);
    }

    /** Add components, which must not descend in type. */
    method Attach(cs: seq<Comp>) returns (rc: Rc)
      requires Valid()
      modifies this
      ensures Valid()
      ensures rc == NoSpace <==> |old(Filled())| + |cs| > nr
      ensures rc == NoSpace ==> Filled() == old(Filled())
      ensures rc != NoSpace ==>
                var f := old(Filled()); var k := Follows(LastType(f), cs);
                k <= |cs| && Filled() == f + cs[..k] && rc == if k == |cs| then Ok else Inval
    {
      assert |Filled()| == domainNr + targetNr;
      if nr < domainNr + targetNr + |cs| {
        return NoSpace;
      }
      rc := AttachFitting(cs);
    }

    method AttachFitting(cs: seq<Comp>) returns (rc: Rc)
      requires Valid() && |Filled()| + |cs| <= nr
      modifies this
      ensures Valid() && rc != NoSpace
      ensures var f := old(Filled()); var k := Follows(LastType(f), cs);
              k <= |cs| && Filled() == f + cs[..k] && rc == if k == |cs| then Ok else Inval
    {
      hide Follows, Domains, LastType, Valid, Filled;
      ghost var f := Filled();
      ghost var ty := LastType(f);
      FollowsBegin(ty, cs);
      for i := 0 to |cs|
        invariant Valid() && Filled() == f + cs[..i] && |f| + |cs| <= nr
        invariant Follows(ty, cs) == i + Follows(LastType(Filled()), cs[i..])
      {
        FollowsStep(LastType(Filled()), cs, i);
        var fits := Put(cs[i]);
        if !fits {
          return Inval;
        }
        TakeMore(f, cs, i);
      }
      FollowsBegin(LastType(Filled()), cs);
      assert cs[|cs|..] == [] && cs[..|cs|] == cs;
      rc := Ok;
    }

    method Put(c: Comp) returns (fits: bool)
      requires Valid() && |Filled()| < nr
      modifies this
      ensures Valid() && fits == (LastType(old(Filled())) <= c.ty)
      ensures Filled() == old(Filled()) + if fits then [c] else []
      ensures fits ==> LastType(Filled()) == c.ty
    {
      ghost var f := Filled();
      var n := domainNr + targetNr;
      if n > 0 && comps[n - 1].ty > c.ty {
        return false;
      }
      comps := comps[n := c];
      if c.ty == TARGET {
        targetNr := targetNr + 1;
      } else {
        domainNr := domainNr + 1;
      }
      assert Filled() == f + [c];
      assert (f + [c])[..|f|] == f;
      fits := true;
    }
  }

  ghost function LastType(cs: seq<Comp>): nat {
    if cs == [] then 0 else cs[|cs| - 1].ty
  }

  lemma TakeMore(f: seq<Comp>, cs: seq<Comp>, i: nat)
    requires i < |cs|
    ensures f + cs[..i] + [cs[i]] == f + cs[..i + 1]
  {
  }

  lemma FollowsBegin(ty: nat, cs: seq<Comp>)
    ensures cs[0..] == cs && Follows(ty, []) == 0
  {
  }

  lemma FollowsStep(ty: nat, cs: seq<Comp>, i: nat)
    requires i < |cs|
    ensures Follows(ty, cs[i..]) == (if ty > cs[i].ty then 0 else 1 + Follows(cs[i].ty, cs[i + 1..])) &&
            Follows(ty, cs[i..]) <= |cs| - i
    ensures Follows(cs[i].ty, cs[i + 1..]) == 0 || i + 1 < |cs|
  {
    assert cs[i..][1..] == cs[i + 1..];
    FollowsAtMost(ty, cs[i..]);
  }

  lemma {:induction false} FollowsAtMost(ty: nat, cs: seq<Comp>)
    ensures Follows(ty, cs) <= |cs|
    decreases |cs|
  {
    if cs != [] && ty <= cs[0].ty { FollowsAtMost(cs[0].ty, cs[1..]); }
  }
}
