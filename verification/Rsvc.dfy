/** The client side of a replicated service: finding its leader. */
module Rsvc {

  const DER_NOTLEADER: int := -2008

  /** What a client knows.  Ranks may be appended; `index` and `next` are indices of `ranks`. */
  datatype State = State(ranks: seq<nat>, known: bool, alive: nat, term: nat, index: int, next: int)

  datatype Hint = NoHint | Hint(rank: nat, term: nat)

  datatype Outcome = Proceed | Rechoose

  ghost predicate Valid(s: State) {
    && s.ranks != [] && 0 <= s.next < |s.ranks|
    && (s.known ==> 0 <= s.index < |s.ranks|)
    && s.alive <= 2 && (s.alive > 0 ==> s.known)
  }

  // ---------------------------------------------------------------------------
  // One step
  // ---------------------------------------------------------------------------

  ghost predicate HasLeader(s: State) {
    s.known && s.alive > 0
  }

  /** The replica the next RPC goes to: the leader, or the next one in turn. */
  ghost function Chosen(s: State): int {
    if HasLeader(s) then s.index else s.next
  }

  ghost function AfterChoose(s: State): State
    requires s.ranks != []
  {
    if HasLeader(s) then s else s.(next := (s.next + 1) % |s.ranks|)
  }

  /** An error from `rank` counts against it if it is the leader; a leader given up, the
      search goes on behind it. */
  ghost function AfterError(s: State, rank: nat, notLeader: bool): State
    requires Valid(s)
  {
    if !HasLeader(s) || rank != s.ranks[s.index] then s
    else
      var alive := if notLeader then 0 else s.alive - 1;
      s.(alive := alive, next := if alive == 0 then (s.index + 1) % |s.ranks| else s.next)
  }

  /** A hint is adopted unless it contradicts its sender or is not newer than what is known. */
  ghost predicate Adopts(s: State, hint: Hint, fromLeader: bool, rank: nat) {
    hint.Hint? && !(fromLeader && hint.rank != rank) && (s.known ==> hint.term > s.term)
  }

  /** The ranks with the hinted one among them. */
  ghost function WithRank(ranks: seq<nat>, rank: nat): seq<nat> {
    if rank in ranks then ranks else ranks + [rank]
  }

  ghost predicate AfterHint(s: State, s': State, hint: Hint, fromLeader: bool, rank: nat, appended: bool) {
    if Adopts(s, hint, fromLeader, rank) && (hint.rank in s.ranks || appended) then
      && s'.ranks == WithRank(s.ranks, hint.rank)
      && 0 <= s'.index < |s'.ranks| && s'.ranks[s'.index] == hint.rank
      && s' == s.(ranks := s'.ranks, index := s'.index, known := true, term := hint.term,
        alive := if fromLeader then 2 else 1)
    else s' == s
  }

  /** What the end of an RPC to `rank` does: `crt` is whether there was no reply at all. */
  ghost predicate AfterRpc(s: State, s': State, rank: nat, crt: int, svc: int, hint: Hint, appended: bool)
    requires Valid(s)
  {
    if crt != 0 then s' == AfterError(s, rank, crt == DER_NOTLEADER)
    else if svc == DER_NOTLEADER then
      AfterHint(AfterError(s, rank, true), s', hint, false, rank, appended)
    else AfterHint(s, s', hint, true, rank, appended)
  }

  lemma StepValid(s: State, s': State, rank: nat, crt: int, svc: int, hint: Hint, appended: bool)
    requires Valid(s)
    ensures Valid(AfterChoose(s)) && 0 <= Chosen(s) < |s.ranks|
    ensures AfterRpc(s, s', rank, crt, svc, hint, appended) ==> Valid(s') && s.ranks <= s'.ranks
  {
  }

  // ---------------------------------------------------------------------------
  // Searching without hints
  // ---------------------------------------------------------------------------

  /** One RPC that fails without a hint. */
  ghost function Round(s: State, notLeader: bool): State
    requires Valid(s)
  {
    AfterError(AfterChoose(s), s.ranks[Chosen(s)], notLeader)
  }

  /** The replicas contacted by a number of failing rounds. */
  ghost function Contacts(s: State, fails: seq<bool>): seq<int>
    requires Valid(s)
    decreases |fails|
  {
    if fails == [] then [] else [Chosen(s)] + Contacts(Round(s, fails[0]), fails[1..])
  }

  /** How far `i` is behind `next` in turn. */
  ghost function Turns(s: State, i: int): nat
    requires Valid(s) && 0 <= i < |s.ranks|
  {
    if i >= s.next then i - s.next else i + |s.ranks| - s.next
  }

  lemma NextTurn(next: int, n: int)
    requires 0 <= next < n
    ensures (next + 1) % n == if next + 1 == n then 0 else next + 1
  {
    if next + 1 < n { SmallMod(next + 1, n); }
  }

  lemma SmallMod(x: int, n: int)
    requires 0 <= x < n
    ensures x % n == x
  {
  }

  /** Without a leader, replicas are contacted in turn. */
  lemma {:induction false} RobinContacts(s: State, fails: seq<bool>, i: int)
    requires Valid(s) && !HasLeader(s) && 0 <= i < |s.ranks| && Turns(s, i) < |fails|
    ensures i in Contacts(s, fails)
    decreases |fails|
  {
    NextTurn(s.next, |s.ranks|);
    var rest := Contacts(Round(s, fails[0]), fails[1..]);
    if i != s.next {
      RobinContacts(Round(s, fails[0]), fails[1..], i);
      assert i in rest;
    }
    assert Contacts(s, fails) == [Chosen(s)] + rest;
  }

  /** How many failing rounds it takes to contact everybody. */
  ghost function Budget(s: State): nat
    requires Valid(s)
  {
    if HasLeader(s) then s.alive + |s.ranks| - 1 else |s.ranks|
  }

  /** A search that keeps failing contacts every replica, within one round more than there are. */
  lemma {:induction false} SearchContactsAll(s: State, fails: seq<bool>, i: int)
    requires Valid(s) && 0 <= i < |s.ranks| && |fails| >= Budget(s)
    ensures i in Contacts(s, fails) && Budget(s) <= |s.ranks| + 1
    decreases |fails|
  {
    if HasLeader(s) {
      NextTurn(s.index, |s.ranks|);
      var t := Round(s, fails[0]);
      var rest := Contacts(t, fails[1..]);
      if i != s.index {
        if HasLeader(t) { SearchContactsAll(t, fails[1..], i); } else { RobinContacts(t, fails[1..], i); }
        assert i in rest;
      }
      assert Contacts(s, fails) == [s.index] + rest;
    } else {
      RobinContacts(s, fails, i);
    }
  }

  /** `turns` places on from `i`, in turn. */
  ghost function Onto(i: int, turns: nat, n: nat): int
    requires 0 <= i < n
    decreases turns
  {
    if turns == 0 then i else Onto(if i + 1 == n then 0 else i + 1, turns - 1, n)
  }

  /** Without a leader the replicas are contacted in turn, for as long as the search fails. */
  lemma {:induction false} RobinInTurn(s: State, fails: seq<bool>, k: nat)
    requires Valid(s) && !HasLeader(s) && k < |fails|
    ensures |Contacts(s, fails)| == |fails| && Contacts(s, fails)[k] == Onto(s.next, k, |s.ranks|)
    decreases |fails|
  {
    NextTurn(s.next, |s.ranks|);
    var t := Round(s, fails[0]);
    if k > 0 {
      RobinInTurn(t, fails[1..], k - 1);
    } else if |fails| > 1 {
      RobinInTurn(t, fails[1..], 0);
    }
  }

  /** A leader is tried `n` times, as often as it is thought alive or up to its first answer
      that it leads no more; then the search goes on in turn behind it. */
  lemma {:induction false} LeaderTries(s: State, fails: seq<bool>, n: nat, k: nat)
    requires Valid(s) && HasLeader(s) && 1 <= n <= s.alive && n <= |fails|
    requires (n == s.alive || fails[n - 1]) && forall j :: 0 <= j < n - 1 ==> !fails[j]
    requires k < |fails|
    ensures |Contacts(s, fails)| == |fails|
    ensures Contacts(s, fails)[k] == if k < n then s.index else Onto(s.index, k - n + 1, |s.ranks|)
    ensures k == n ==> Contacts(s, fails)[k] == (s.index + 1) % |s.ranks|
    decreases |fails|
  {
    NextTurn(s.index, |s.ranks|);
    var t, rest := Round(s, fails[0]), fails[1..];
    if n > 1 {
      LeaderTries(t, rest, n - 1, if k > 0 then k - 1 else 0);
    } else if |fails| > 1 {
      RobinInTurn(t, rest, if k > 0 then k - 1 else 0);
    }
  }

  /** A leader that answered itself is given a second try when it then fails to answer; one
      only heard of is not. */
  lemma HintTries(s: State, s': State, hint: Hint, fromLeader: bool, rank: nat, fails: seq<bool>)
    requires Valid(s) && Adopts(s, hint, fromLeader, rank) && AfterHint(s, s', hint, fromLeader, rank, true)
    requires |fails| == 3 && !fails[0] && !fails[1]
    ensures Valid(s') && 0 <= s'.index < |s'.ranks| && s'.ranks[s'.index] == hint.rank
    ensures var c, after := Contacts(s', fails), Onto(s'.index, 1, |s'.ranks|);
            && |c| == 3 && c[0] == s'.index
            && (if fromLeader then c[1] == s'.index && c[2] == after else c[1] == after)
  {
    var n := if fromLeader then 2 else 1;
    LeaderTries(s', fails, n, 0);
    LeaderTries(s', fails, n, 1);
    LeaderTries(s', fails, n, 2);
  }

  /** What the end of an RPC teaches: a newer hint that its sender does not contradict makes
      its rank the known leader, and nothing else changes whom the client takes for it. */
  lemma RpcLearns(s: State, s': State, rank: nat, crt: int, svc: int, hint: Hint, appended: bool)
    requires Valid(s) && AfterRpc(s, s', rank, crt, svc, hint, appended)
    ensures var learns :=
              && crt == 0 && hint.Hint? && (svc == DER_NOTLEADER || hint.rank == rank)
              && (s.known ==> hint.term > s.term) && (hint.rank in s.ranks || appended);
            if learns then
              && s'.known && s'.term == hint.term && 0 <= s'.index < |s'.ranks| && s'.ranks[s'.index] == hint.rank
              && (forall x :: x in s'.ranks <==> x in s.ranks || x == hint.rank)
              && s'.alive == if svc == DER_NOTLEADER then 1 else 2
            else
              && s'.known == s.known && s'.term == s.term && s'.index == s.index && s'.ranks == s.ranks
              && s'.alive ==
                 (if !HasLeader(s) || rank != s.ranks[s.index] then s.alive
                  else if crt == DER_NOTLEADER || (crt == 0 && svc == DER_NOTLEADER) then 0
                  else if crt != 0 then s.alive - 1 else s.alive)
              && (s'.alive == s.alive ==> s'.next == s.next)
  {
  }

  // ---------------------------------------------------------------------------
  // Runs
  // ---------------------------------------------------------------------------

  /** A run passes from state to state by choosing and by ending RPCs. */
  ghost predicate IsStep(s: State, s': State)
    requires Valid(s)
  {
    || s' == AfterChoose(s)
    || exists rank, crt, svc, hint, appended :: AfterRpc(s, s', rank, crt, svc, hint, appended)
  }

  ghost predicate IsRun(run: seq<State>) {
    run != [] && Valid(run[0]) && forall k :: 0 <= k < |run| - 1 ==> Valid(run[k]) ==> IsStep(run[k], run[k + 1])
  }

  /** From `s` to `s'` the leader only changed together with a higher term. */
  ghost predicate Onward(s: State, s': State)
    requires Valid(s) && Valid(s')
  {
    && s.ranks <= s'.ranks
    && (s.known ==> s'.known && s.term <= s'.term && (s.term == s'.term ==> s'.index == s.index))
  }

  lemma StepOnward(s: State, s': State)
    requires Valid(s) && IsStep(s, s')
    ensures Valid(s') && Onward(s, s')
  {
    if s' != AfterChoose(s) {
      var rank, crt, svc, hint, appended :| AfterRpc(s, s', rank, crt, svc, hint, appended);
      StepValid(s, s', rank, crt, svc, hint, appended);
    } else {
      StepValid(s, s', 0, 0, 0, NoHint, true);
    }
  }

  /** Over any run every adopted leader has a higher term than the one before, each term has
      one leader, and the indices stay in range. */
  lemma {:induction false} RunOnward(run: seq<State>, a: nat, b: nat)
    requires IsRun(run) && a <= b < |run|
    ensures Valid(run[a]) && Valid(run[b]) && Onward(run[a], run[b])
    decreases b
  {
    hide IsStep, Valid, Onward;
    if b == 0 {
      OnwardSame(run[a]);
    } else if a < b {
      RunOnward(run, a, b - 1);
      StepOnward(run[b - 1], run[b]);
      OnwardTwice(run[a], run[b - 1], run[b]);
    } else {
      RunOnward(run, a - 1, b - 1);
      StepOnward(run[b - 1], run[b]);
      OnwardSame(run[b]);
    }
  }

  lemma OnwardSame(s: State)
    requires Valid(s)
    ensures Onward(s, s)
  {
  }

  lemma OnwardTwice(s: State, t: State, u: State)
    requires Valid(s) && Valid(t) && Valid(u) && Onward(s, t) && Onward(t, u)
    ensures Onward(s, u)
  {
  }

  // ---------------------------------------------------------------------------
  // Rank lists
  // ---------------------------------------------------------------------------

  ghost predicate StrictlyAscending(s: seq<nat>) {
    forall i, j :: 0 <= i < j < |s| ==> s[i] < s[j]
  }

  /** The elements of a list in order, each once. */
  method SortUniq(s: seq<nat>) returns (r: seq<nat>)
    ensures StrictlyAscending(r) && forall x :: x in r <==> x in s
  {
    r := [];
    for k := 0 to |s|
      invariant StrictlyAscending(r) && forall x :: x in r <==> x in s[..k]
    {
      assert s[..k + 1] == s[..k] + [s[k]];
      if s[k] !in r {
        r := Put(r, s[k]);
      }
    }
    assert s[..|s|] == s;
  }

  method Put(s: seq<nat>, x: nat) returns (r: seq<nat>)
    requires StrictlyAscending(s) && x !in s
    ensures StrictlyAscending(r) && forall y :: y in r <==> y == x || y in s
  {
    var i := 0;
    while i < |s| && s[i] < x
      invariant i <= |s| && forall j :: 0 <= j < i ==> s[j] < x
    {
      i := i + 1;
    }
    assert s == s[..i] + s[i..];
    r := s[..i] + [x] + s[i..];
  }

  // ---------------------------------------------------------------------------
  // The client
  // ---------------------------------------------------------------------------

  class Client {
    var ranks: seq<nat>
    var leaderKnown: bool
    var leaderAliveness: nat
    var leaderTerm: nat
    var leaderIndex: int
    var next: int

    ghost function V(): State
      reads this
    {
      State(ranks, leaderKnown, leaderAliveness, leaderTerm, leaderIndex, next)
    }

    /** A client that knows of no leader; the term starts as -1 of 64 bits. */
    constructor (ranks: seq<nat>)
      requires ranks != []
      ensures Valid(V()) && this.ranks == ranks && !leaderKnown
    {
      this.ranks := ranks;
      leaderKnown, leaderAliveness, leaderTerm, leaderIndex, next := false, 0, 0xFFFF_FFFF_FFFF_FFFF, -1, 0;
    }

    /** The client keeps the ranks sorted and without duplicates. */
    static method Init(ranks: seq<nat>) returns (client: Client?)
      ensures client == null <==> ranks == []
      ensures client != null ==>
                && fresh(client) && Valid(client.V()) && !client.leaderKnown
                && StrictlyAscending(client.ranks) && forall x :: x in client.ranks <==> x in ranks
    {
      if |ranks| == 0 {
        return null;
      }
      var sorted := SortUniq(ranks);
      assert ranks[0] in sorted;
      client := new Client(sorted);
    }

    method Choose() returns (rank: nat)
      requires Valid(V())
      modifies this
      ensures Valid(V()) && V() == AfterChoose(old(V())) && rank == old(ranks[Chosen(V())])
    {
      var chosen;
      if leaderKnown && leaderAliveness > 0 {
        chosen := leaderIndex;
      } else {
        chosen := next;
        next := next + 1;
        next := next % |ranks|;
      }
      rank := ranks[chosen];
    }

    method ProcessError(rc: int, rank: nat)
      requires Valid(V())
      modifies this
      ensures Valid(V()) && V() == AfterError(old(V()), rank, rc == DER_NOTLEADER)
    {
      if leaderKnown && leaderAliveness > 0 && rank == ranks[leaderIndex] {
        if rc == DER_NOTLEADER {
          leaderAliveness := 0;
        } else {
          leaderAliveness := leaderAliveness - 1;
        }
        if leaderAliveness == 0 {
          next := leaderIndex + 1;
          next := next % |ranks|;
        }
      }
    }

    /** `appends` is whether an unknown rank can be appended. */
    method ProcessHint(hint: Hint, fromLeader: bool, rank: nat, appends: bool)
      requires Valid(V()) && hint.Hint?
      modifies this
      ensures Valid(V()) && AfterHint(old(V()), V(), hint, fromLeader, rank, appends)
    {
      if fromLeader && hint.rank != rank {
        return;
      }
      if leaderKnown {
        if hint.term < leaderTerm {
          return;
        } else if hint.term == leaderTerm {
          return;
        }
      }
      var found := hint.rank in ranks;
      if found {
        var i := 0;
        while ranks[i] != hint.rank
          invariant 0 <= i < |ranks| && hint.rank in ranks[i..]
          decreases |ranks| - i
        {
          assert ranks[i..] == [ranks[i]] + ranks[i + 1..];
          i := i + 1;
        }
        leaderIndex := i;
      } else {
        if !appends {
          return;
        }
        ranks := ranks + [hint.rank];
        leaderIndex := |ranks| - 1;
      }
      leaderTerm := hint.term;
      leaderKnown := true;
      leaderAliveness := if fromLeader then 2 else 1;
    }

    /** End of an RPC to `rank`. */
    method CompleteRpc(rank: nat, crt: int, svc: int, hint: Hint, appends: bool) returns (rc: Outcome)
      requires Valid(V())
      modifies this
      ensures Valid(V()) && AfterRpc(old(V()), V(), rank, crt, svc, hint, appends)
      ensures rc == if crt != 0 || svc == DER_NOTLEADER then Rechoose else Proceed
    {
      if crt != 0 {
        ProcessError(crt, rank);
        return Rechoose;
      } else if svc == DER_NOTLEADER && hint.NoHint? {
        ProcessError(svc, rank);
        return Rechoose;
      } else if svc == DER_NOTLEADER {
        ProcessError(svc, rank);
        ProcessHint(hint, false, rank, appends);
        return Rechoose;
      } else if hint.NoHint? {
        return Proceed;
      } else {
        ProcessHint(hint, true, rank, appends);
        return Proceed;
      }
    }
  }
}
