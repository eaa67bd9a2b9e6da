/** Tasks and the references between them. */
module TseTask {

  type Tid = nat

  /** The scheduler list a task is on, or how far its completion has come: Popped is the
      private list of a thread in tse_sched_process_complete(), Posted is past the loop
      over its dependents, Dropped is off all lists and past its initial reference. */
  datatype List = Fresh | Init | Picked | Running | Complete | Popped | Posted | Dropped

  /** `deps` are the links to tasks that wait for this one, `rets` those to finished tasks
      this one waited for, and `call` the link whose task is in its completion callback. */
  datatype Task = Task(func: bool, refcnt: nat, depCnt: nat, running: bool, complete: bool, list: List,
                       deps: seq<Tid>, rets: seq<Tid>, call: seq<Tid>)

  datatype Kind = Deps | Rets | Call

  function Links(k: Kind, t: Task): seq<Tid> {
    match k
    case Deps => t.deps
    case Rets => t.rets
    case Call => t.call
  }

  function SetLinks(k: Kind, t: Task, l: seq<Tid>): Task {
    match k
    case Deps => t.(deps := l)
    case Rets => t.(rets := l)
    case Call => t.(call := l)
  }

  type Tasks = map<Tid, Task>

  /** The tasks that links of one kind point at, once for each link. */
  ghost function Flat(k: Kind, m: Tasks): multiset<Tid>
    decreases |m|
  {
    if m == map[] then multiset{}
    else
      var t :| t in m;
      Shrinks(m, t);
      multiset(Links(k, m[t])) + Flat(k, m - {t})
  }

  lemma Shrinks(m: Tasks, t: Tid)
    requires t in m
    ensures |m - {t}| < |m|
  {
    assert (m - {t}).Keys == m.Keys - {t};
    assert |m.Keys - {t}| == |m.Keys| - 1;
  }

  lemma FlatPick(k: Kind, m: Tasks) returns (t: Tid)
    requires m != map[]
    ensures t in m && Flat(k, m) == multiset(Links(k, m[t])) + Flat(k, m - {t})
  {
    t :| t in m && Flat(k, m) == multiset(Links(k, m[t])) + Flat(k, m - {t});
  }

  lemma Exchange(a: multiset<Tid>, b: multiset<Tid>, c: multiset<Tid>)
    ensures a + (b + c) == b + (a + c)
  {
  }

  lemma {:induction false} FlatWithout(k: Kind, m: Tasks, x: Tid)
    requires x in m
    ensures Flat(k, m) == multiset(Links(k, m[x])) + Flat(k, m - {x})
    decreases |m|
  {
    hide Flat, Links;
    var t := FlatPick(k, m);
    if t != x {
      var rest := m - {t} - {x};
      Shrinks(m, t);
      Shrinks(m, x);
      FlatWithout(k, m - {t}, x);
      FlatWithout(k, m - {x}, t);
      assert m - {x} - {t} == rest;
      Exchange(multiset(Links(k, m[t])), multiset(Links(k, m[x])), Flat(k, rest));
    }
  }

  lemma FlatSet(k: Kind, m: Tasks, x: Tid, t: Task)
    ensures Flat(k, m[x := t]) + multiset(if x in m then Links(k, m[x]) else []) == Flat(k, m) + multiset(Links(k, t))
  {
    FlatWithout(k, m[x := t], x);
    if x in m {
      FlatWithout(k, m, x);
      assert m[x := t] - {x} == m - {x};
    } else {
      assert m[x := t] - {x} == m;
    }
  }

  lemma FlatDel(k: Kind, m: Tasks, x: Tid)
    requires x in m && Links(k, m[x]) == []
    ensures Flat(k, m - {x}) == Flat(k, m)
  {
    FlatWithout(k, m, x);
  }

  /** A task some link points at has an owner of that link. */
  lemma {:induction false} Owner(k: Kind, m: Tasks, t: Tid) returns (o: Tid)
    requires t in Flat(k, m)
    ensures o in m && t in Links(k, m[o])
    decreases |m|
  {
    var x :| x in m && Flat(k, m) == multiset(Links(k, m[x])) + Flat(k, m - {x});
    if t in Links(k, m[x]) {
      o := x;
    } else {
      Shrinks(m, x);
      assert t in Flat(k, m - {x});
      o := Owner(k, m - {x}, t);
    }
  }

  lemma Pointed(k: Kind, m: Tasks, o: Tid, t: Tid)
    requires o in m && t in Links(k, m[o])
    ensures t in Flat(k, m)
  {
    FlatWithout(k, m, o);
    assert t in multiset(Links(k, m[o]));
  }

  // ---------------------------------------------------------------------------
  // What is done to a task
  // ---------------------------------------------------------------------------

  ghost function Bumped(m: Tasks, x: Tid): Tasks {
    if x in m then m[x := m[x].(refcnt := m[x].refcnt + 1)] else m
  }

  ghost function Unbumped(m: Tasks, x: Tid): Tasks {
    if x in m && m[x].refcnt > 0 then m[x := m[x].(refcnt := m[x].refcnt - 1)] else m
  }

  ghost function CountedUp(m: Tasks, x: Tid): Tasks {
    if x in m then m[x := m[x].(depCnt := m[x].depCnt + 1)] else m
  }

  ghost function CountedDown(m: Tasks, x: Tid): Tasks {
    if x in m && m[x].depCnt > 0 then m[x := m[x].(depCnt := m[x].depCnt - 1)] else m
  }

  ghost function Linked(k: Kind, m: Tasks, x: Tid, y: Tid): Tasks {
    if x in m then m[x := SetLinks(k, m[x], Links(k, m[x]) + [y])] else m
  }

  ghost function Unlinked(k: Kind, m: Tasks, x: Tid): Tasks {
    if x in m && Links(k, m[x]) != [] then m[x := SetLinks(k, m[x], Links(k, m[x])[1..])] else m
  }

  ghost function Completed(m: Tasks, x: Tid): Tasks {
    if x in m && !m[x].complete then m[x := m[x].(running := false, complete := true, list := Complete)] else m
  }

  /** Finished task `t` becomes a result of `d`, and the link to `d` is let go. */
  ghost function Attached(m: Tasks, t: Tid, d: Tid): Tasks {
    Unbumped(Linked(Rets, Bumped(m, t), d, t), d)
  }

  /** After the link from `t` to `d` is taken off and counted down. */
  lemma PostedLink(m: Tasks, t: Tid, d: Tid)
    requires t in m && d in m && m[d].depCnt > 0
    ensures var m1 := Unlinked(Deps, m, t); var m2 := CountedDown(m1, d);
            && m1.Keys == m2.Keys == m.Keys && m1[d].depCnt == m[d].depCnt
            && m2[t].list == m[t].list && m2[t].call == m[t].call
            && m2[d].depCnt == m[d].depCnt - 1 && m2[d].running == m[d].running && m2[d].complete == m[d].complete &&
              m2[d].list == m[d].list
  {
  }

  // ---------------------------------------------------------------------------
  // The invariant
  // ---------------------------------------------------------------------------

  ghost function Own(t: Task): nat {
    if t.list.Dropped? then 0 else 1
  }

  /** All the references to a task. */
  ghost function Refs(m: Tasks, held: multiset<Tid>, x: Tid): nat {
    Flat(Deps, m)[x] + Flat(Rets, m)[x] + Flat(Call, m)[x] + held[x]
  }

  /** The counts of a task are right.  `held` are references on some thread's stack and
      `owed` links already taken off but not yet counted down. */
  ghost predicate Counted(m: Tasks, held: multiset<Tid>, owed: multiset<Tid>, x: Tid)
    requires x in m
  {
    m[x].refcnt == Own(m[x]) + Refs(m, held, x) && m[x].depCnt == Flat(Deps, m)[x] + owed[x]
  }

  /** Every task that is linked to or held exists, and its counts are right. */
  ghost predicate Balanced(m: Tasks, held: multiset<Tid>, owed: multiset<Tid>) {
    && (forall x :: x in m ==> Counted(m, held, owed, x))
    && (forall x: Tid :: Refs(m, held, x) > 0 ==> x in m)
  }

  ghost predicate Flags(t: Task) {
    && (t.running <==> t.list.Running?)
    && (t.complete <==> t.list.Complete? || t.list.Popped? || t.list.Posted? || t.list.Dropped?)
    && (t.list.Posted? || t.list.Dropped? ==> t.deps == [])
    && (t.call != [] ==> t.list.Popped? && |t.call| == 1)
  }

  ghost predicate InFlight(t: Task) {
    t.list.Picked? || t.list.Running? || t.list.Complete? || t.list.Popped?
  }

  ghost function Flying(m: Tasks): set<Tid> {
    set x | x in m && InFlight(m[x])
  }

  /** Task `d` has completed; it may be freed by now. */
  ghost predicate Done(m: Tasks, next: Tid, d: Tid) {
    d < next && (d in m ==> m[d].complete)
  }

  /** A dependency is done, or its link is there and the task is not about to start. */
  ghost predicate Met(m: Tasks, next: Tid, t: Tid, d: Tid) {
    || Done(m, next, d)
    || (d in m && t in m && t in m[d].deps && !m[t].list.Picked?)
  }

  /** A task that was completed before what it waits for is processed may lose its last
      reference unnoticed; no other task is without references. */
  ghost predicate Alive(m: Tasks, early: set<Tid>, dying: set<Tid>) {
    && (forall x :: x in m && m[x].complete && (m[x].depCnt > 0 || Flat(Call, m)[x] > 0) ==> x in early)
    && (forall x :: x in m && m[x].refcnt == 0 ==> x in early || x in dying)
  }

  /** The scheduler: `needs` are the dependencies ever registered, but for those of tasks that
      had been taken from the init list and not yet started. */
  datatype State = State(tasks: Tasks, next: Tid, inflight: int, held: multiset<Tid>, owed: multiset<Tid>,
                         needs: set<(Tid, Tid)>, early: set<Tid>)

  ghost predicate Shape(m: Tasks, next: Tid) {
    forall x :: x in m ==> x < next && Flags(m[x])
  }

  ghost predicate AllMet(m: Tasks, next: Tid, needs: set<(Tid, Tid)>) {
    forall p :: p in needs ==> Met(m, next, p.0, p.1)
  }

  ghost predicate Inv(s: State, dying: set<Tid>) {
    && Balanced(s.tasks, s.held, s.owed) && Shape(s.tasks, s.next)
    && s.inflight == |Flying(s.tasks)|
    && AllMet(s.tasks, s.next, s.needs)
    && Alive(s.tasks, s.early, dying)
  }

  // ---------------------------------------------------------------------------
  // Changing one task
  // ---------------------------------------------------------------------------

  lemma FlatSetAt(k: Kind, m: Tasks, x: Tid, t: Task, y: Tid)
    requires x in m
    ensures Flat(k, m[x := t])[y] + multiset(Links(k, m[x]))[y] == Flat(k, m)[y] + multiset(Links(k, t))[y]
  {
    hide Flat;
    FlatSet(k, m, x, t);
    assert (Flat(k, m[x := t]) + multiset(Links(k, m[x])))[y] == (Flat(k, m) + multiset(Links(k, t)))[y];
  }

  /** Raising or lowering counts along with what they count. */
  lemma Recounted(m: Tasks, held: multiset<Tid>, owed: multiset<Tid>, x: Tid, t: Task, held': multiset<Tid>,
      owed': multiset<Tid>)
    requires Balanced(m, held, owed) && x in m
    requires t.deps == m[x].deps && t.rets == m[x].rets && t.call == m[x].call
    requires forall y :: y != x ==> held'[y] == held[y] && owed'[y] == owed[y]
    requires t.refcnt - Own(t) - held'[x] == m[x].refcnt - Own(m[x]) - held[x]
    requires t.depCnt - owed'[x] == m[x].depCnt - owed[x]
    ensures Balanced(m[x := t], held', owed')
  {
    hide Flat;
    var m' := m[x := t];
    forall y: Tid
      ensures Flat(Deps, m')[y] == Flat(Deps, m)[y] && Flat(Rets, m')[y] == Flat(Rets, m)[y] &&
              Flat(Call, m')[y] == Flat(Call, m)[y]
    {
      FlatSetAt(Deps, m, x, t, y);
      FlatSetAt(Rets, m, x, t, y);
      FlatSetAt(Call, m, x, t, y);
    }
    forall y | y in m' ensures Counted(m', held', owed', y) {
      assert Counted(m, held, owed, y);
    }
    forall y: Tid | Refs(m', held', y) > 0 ensures y in m' {
      if y != x { assert Refs(m, held, y) > 0; }
    }
  }

  /** A link of kind `k` of task `x` comes or goes: its reference comes from or goes to the
      stack. */
  ghost predicate Relinks(k: Kind, t: Task, t': Task, held: multiset<Tid>, held': multiset<Tid>, owed: multiset<Tid>,
      owed': multiset<Tid>) {
    && t'.refcnt == t.refcnt && t'.depCnt == t.depCnt && t'.list == t.list
    && (k != Deps ==> t'.deps == t.deps) && (k != Rets ==> t'.rets == t.rets) && (k != Call ==> t'.call == t.call)
    && forall y: Tid ::
         && held'[y] + multiset(Links(k, t'))[y] == held[y] + multiset(Links(k, t))[y]
         && (if k == Deps then owed'[y] + multiset(t'.deps)[y] == owed[y] + multiset(t.deps)[y]
             else owed'[y] == owed[y])
  }

  lemma RelinkedAt(k: Kind, m: Tasks, held: multiset<Tid>, owed: multiset<Tid>, x: Tid, t: Task, held': multiset<Tid>,
      owed': multiset<Tid>, y: Tid)
    requires x in m && Relinks(k, m[x], t, held, held', owed, owed')
    ensures Refs(m[x := t], held', y) == Refs(m, held, y) &&
            Flat(Deps, m[x := t])[y] + owed'[y] == Flat(Deps, m)[y] + owed[y]
  {
    hide Flat;
    FlatSetAt(Deps, m, x, t, y);
    FlatSetAt(Rets, m, x, t, y);
    FlatSetAt(Call, m, x, t, y);
    match k {
      case Deps =>
      case Rets =>
      case Call =>
    }
  }

  lemma Relinked(k: Kind, m: Tasks, held: multiset<Tid>, owed: multiset<Tid>, x: Tid, t: Task, held': multiset<Tid>,
      owed': multiset<Tid>)
    requires Balanced(m, held, owed) && x in m && Relinks(k, m[x], t, held, held', owed, owed')
    ensures Balanced(m[x := t], held', owed')
  {
    hide Flat, Refs;
    var m' := m[x := t];
    assert forall y :: y in m' ==>
             Own(m'[y]) == Own(m[y]) && m'[y].refcnt == m[y].refcnt && m'[y].depCnt == m[y].depCnt;
    hide Relinks;
    forall y: Tid
      ensures Refs(m', held', y) == Refs(m, held, y) &&
              Flat(Deps, m')[y] + owed'[y] == Flat(Deps, m)[y] + owed[y]
    {
      RelinkedAt(k, m, held, owed, x, t, held', owed', y);
    }
    forall y | y in m' ensures Counted(m', held', owed', y) { assert Counted(m, held, owed, y); }
  }

  // ---------------------------------------------------------------------------
  // Keeping the invariant
  // ---------------------------------------------------------------------------

  lemma FlyingSet(m: Tasks, x: Tid, t: Task)
    ensures |Flying(m[x := t])| ==
            |Flying(m)| - (if x in m && InFlight(m[x]) then 1 else 0) + (if InFlight(t) then 1 else 0)
  {
    var f := Flying(m);
    assert Flying(m[x := t]) == (if InFlight(t) then (f - {x}) + {x} else f - {x});
  }

  /** What a task is waited for by, and what it waits for, when it changes to `t`. */
  ghost predicate KeepsNeeds(m: Tasks, next: Tid, needs: set<(Tid, Tid)>, x: Tid, t: Task)
    requires x in m
  {
    && (m[x].complete ==> t.complete)
    && (t.complete || forall y :: y in m[x].deps ==> y in t.deps)
    && (t.list.Picked? ==> forall d: Tid :: (x, d) in needs ==> Done(m, next, d))
  }

  lemma NeedsKept(m: Tasks, next: Tid, needs: set<(Tid, Tid)>, x: Tid, t: Task)
    requires x in m && x < next && AllMet(m, next, needs) && KeepsNeeds(m, next, needs, x, t)
    ensures AllMet(m[x := t], next, needs)
  {
    forall p | p in needs ensures Met(m[x := t], next, p.0, p.1) {
      assert Met(m, next, p.0, p.1);
      if p.0 == x { assert p == (x, p.1); }
    }
  }

  /** Changing the counts, flags or list of task `x`. */
  lemma Recount(s: State, s': State, x: Tid, dying: set<Tid>, dying': set<Tid>)
    requires Inv(s, dying) && x in s.tasks && x in s'.tasks && s'.tasks == s.tasks[x := s'.tasks[x]] &&
             s'.next == s.next
    requires var t, t' := s.tasks[x], s'.tasks[x];
             && Flags(t') && t'.deps == t.deps && t'.rets == t.rets && t'.call == t.call
             && t'.refcnt - Own(t') - s'.held[x] == t.refcnt - Own(t) - s.held[x]
             && t'.depCnt - s'.owed[x] == t.depCnt - s.owed[x]
             && KeepsNeeds(s.tasks, s.next, s.needs, x, t')
             && s'.inflight == s.inflight - (if InFlight(t) then 1 else 0) + (if InFlight(t') then 1 else 0)
             && (t'.complete && (t'.depCnt > 0 || Flat(Call, s.tasks)[x] > 0) ==> x in s'.early)
             && (t'.refcnt == 0 ==> x in s'.early || x in dying')
    requires forall y :: y != x ==> s'.held[y] == s.held[y] && s'.owed[y] == s.owed[y]
    requires s'.needs == s.needs && s.early <= s'.early && dying - {x} <= dying'
    ensures Inv(s', dying')
  {
    ShapeAt(s.tasks, s.next, x);
    hide Balanced, AllMet, Flat, Flying, Alive, KeepsNeeds, Shape;
    var m, t' := s.tasks, s'.tasks[x];
    Recounted(m, s.held, s.owed, x, t', s'.held, s'.owed);
    FlyingSet(m, x, t');
    NeedsKept(m, s.next, s.needs, x, t');
    ShapeSet(m, s.next, x, t');
    AliveSet(m, s.early, dying, x, t', s'.early, dying');
  }

  lemma ShapeSet(m: Tasks, next: Tid, x: Tid, t: Task)
    requires Shape(m, next) && x < next && Flags(t)
    ensures Shape(m[x := t], next)
  {
  }

  lemma ShapeAt(m: Tasks, next: Tid, x: Tid)
    requires Shape(m, next) && x in m
    ensures x < next && Flags(m[x])
  {
  }

  lemma AliveSet(m: Tasks, early: set<Tid>, dying: set<Tid>, x: Tid, t: Task, early': set<Tid>, dying': set<Tid>)
    requires Alive(m, early, dying) && x in m && early <= early' && dying - {x} <= dying'
    requires t.complete && (t.depCnt > 0 || Flat(Call, m)[x] > 0) ==> x in early'
    requires t.refcnt == 0 ==> x in early' || x in dying'
    requires t.call == m[x].call
    ensures Alive(m[x := t], early', dying')
  {
    hide Flat;
    var m' := m[x := t];
    forall y: Tid ensures Flat(Call, m')[y] == Flat(Call, m)[y] { FlatSetAt(Call, m, x, t, y); }
    forall y | y in m' && m'[y].complete && (m'[y].depCnt > 0 || Flat(Call, m')[y] > 0) ensures y in early' {
      if y != x { assert y in m && m[y] == m'[y]; }
    }
    forall y | y in m' && m'[y].refcnt == 0 ensures y in early' || y in dying' {
      if y != x { assert y in m && m[y] == m'[y]; }
    }
  }

  /** Adding a link to task `x` or taking one off. */
  lemma Relink(k: Kind, s: State, s': State, x: Tid, dying: set<Tid>)
    requires Inv(s, dying) && x in s.tasks && x in s'.tasks && s'.tasks == s.tasks[x := s'.tasks[x]]
    requires s' == s.(tasks := s'.tasks, held := s'.held, owed := s'.owed)
    requires var t, t' := s.tasks[x], s'.tasks[x];
             && Relinks(k, t, t', s.held, s'.held, s.owed, s'.owed)
             && Flags(t') && t'.running == t.running && t'.complete == t.complete
             && (t.complete || forall y :: y in t.deps ==> y in t'.deps)
             && (forall y :: y in t'.call ==> y in t.call || (y in s.tasks && !s.tasks[y].complete))
    ensures Inv(s', dying)
  {
    ShapeAt(s.tasks, s.next, x);
    NeedsAt(s.tasks, s.next, s.needs, x);
    var m, t' := s.tasks, s'.tasks[x];
    assert Relinks(k, m[x], t', s.held, s'.held, s.owed, s'.owed) ==>
             t'.list == m[x].list && t'.refcnt == m[x].refcnt && t'.depCnt == m[x].depCnt;
    assert KeepsNeeds(m, s.next, s.needs, x, t');
    hide Balanced, AllMet, Flat, Flying, Alive, KeepsNeeds, Shape, Relinks, Done;
    Relinked(k, m, s.held, s.owed, x, t', s'.held, s'.owed);
    FlyingSet(m, x, t');
    NeedsKept(m, s.next, s.needs, x, t');
    ShapeSet(m, s.next, x, t');
    AliveLink(m, s.early, dying, x, t');
  }

  /** A task that is about to start has met its needs. */
  lemma NeedsAt(m: Tasks, next: Tid, needs: set<(Tid, Tid)>, x: Tid)
    requires AllMet(m, next, needs) && x in m
    ensures m[x].list.Picked? ==> forall d: Tid :: (x, d) in needs ==> Done(m, next, d)
  {
    forall d: Tid | (x, d) in needs ensures Met(m, next, x, d) { assert Met(m, next, (x, d).0, (x, d).1); }
  }

  lemma AliveLink(m: Tasks, early: set<Tid>, dying: set<Tid>, x: Tid, t: Task)
    requires Alive(m, early, dying) && x in m && t.refcnt == m[x].refcnt && t.depCnt == m[x].depCnt &&
             t.complete == m[x].complete
    requires forall y :: y in t.call ==> y in m[x].call || (y in m && !m[y].complete)
    ensures Alive(m[x := t], early, dying)
  {
    hide Flat;
    var m' := m[x := t];
    forall y | y in m' && m'[y].complete && (m'[y].depCnt > 0 || Flat(Call, m')[y] > 0) ensures y in early {
      assert m[y].complete && m[y].depCnt == m'[y].depCnt;
      FlatSetAt(Call, m, x, t, y);
      PointedAt(Call, m, x, y);
    }
    forall y | y in m' && m'[y].refcnt == 0 ensures y in early || y in dying {
      assert y in m && m[y].refcnt == 0;
    }
  }

  lemma PointedAt(k: Kind, m: Tasks, o: Tid, y: Tid)
    requires o in m
    ensures y in Links(k, m[o]) ==> Flat(k, m)[y] > 0
  {
    if y in Links(k, m[o]) { Pointed(k, m, o, y); }
  }

  lemma NewTask(s: State, s': State, t: Task)
    requires Inv(s, {}) && Flags(t) && t.list.Fresh? && t.refcnt == 1 && t.depCnt == 0 &&
             t.deps == t.rets == t.call == [] && s.owed == multiset{}
    requires s' == s.(tasks := s.tasks[s.next := t], next := s.next + 1)
    ensures Inv(s', {})
  {
    hide Flat, Flying, Alive;
    var m, m', x := s.tasks, s'.tasks, s.next;
    FlyingSet(m, x, t);
    assert x !in m;
    forall k ensures Flat(k, m') == Flat(k, m) { FlatNew(k, m, x, t); }
    assert Refs(m, s.held, x) == 0;
    BalancedSame(m, m', s.held, s.owed, x);
    AliveNew(m, s.early, x, t);
    hide Balanced;
    forall p | p in s.needs ensures Met(m', s'.next, p.0, p.1) { assert Met(m, s.next, p.0, p.1); }
  }

  lemma FlatNew(k: Kind, m: Tasks, x: Tid, t: Task)
    requires x !in m && Links(k, t) == []
    ensures Flat(k, m[x := t]) == Flat(k, m)
  {
    hide Flat;
    FlatSet(k, m, x, t);
    assert multiset(Links(k, t)) == multiset{};
    assert Flat(k, m) + multiset{} == Flat(k, m) && Flat(k, m[x := t]) + multiset{} == Flat(k, m[x := t]);
  }

  lemma AliveNew(m: Tasks, early: set<Tid>, x: Tid, t: Task)
    requires Alive(m, early, {}) && x !in m && !t.complete && t.refcnt > 0 && t.call == []
    ensures Alive(m[x := t], early, {})
  {
    hide Flat;
    FlatNew(Call, m, x, t);
  }

  /** Adding or removing a task that has no links and no references. */
  lemma BalancedSame(m: Tasks, m': Tasks, held: multiset<Tid>, owed: multiset<Tid>, x: Tid)
    requires Balanced(m, held, owed) && (forall k :: Flat(k, m') == Flat(k, m)) && Refs(m, held, x) == 0
    requires m - {x} == m' - {x} && (x in m' ==> m'[x].refcnt == Own(m'[x]) && m'[x].depCnt == 0 && owed[x] == 0)
    ensures Balanced(m', held, owed)
  {
    hide Flat;
    forall y | y in m' ensures Counted(m', held, owed, y) {
      if y != x {
        assert y in m' - {x};
        assert y in m && m[y] == m'[y] by { assert m[y] == (m - {x})[y]; }
        assert Counted(m, held, owed, y);
      }
    }
    forall y: Tid | Refs(m', held, y) > 0 ensures y in m' {
      assert Refs(m, held, y) > 0;
      assert y in m - {x};
    }
  }

  /** Freeing a task without references. */
  lemma Freed(s: State, s': State, x: Tid, dying: set<Tid>)
    requires Inv(s, dying + {x}) && x in s.tasks && s.tasks[x].refcnt == 0 && s.tasks[x].rets == []
    requires s' == s.(tasks := s.tasks - {x})
    ensures s.tasks[x].deps == [] && Inv(s', dying)
  {
    hide Flat;
    var m, m' := s.tasks, s'.tasks;
    assert Counted(m, s.held, s.owed, x);
    assert Flags(m[x]);
    forall k ensures Flat(k, m') == Flat(k, m) { FlatDel(k, m, x); }
    assert Flying(m') == Flying(m);
    hide Flying;
    BalancedSame(m, m', s.held, s.owed, x);
    forall p | p in s.needs ensures Met(m', s'.next, p.0, p.1) {
      assert Met(m, s.next, p.0, p.1);
      if p.1 in m { PointedAt(Deps, m, p.1, p.0); }
    }
    assert Shape(m', s'.next);
  }

  /** What the invariant says of one task. */
  lemma Facts(s: State, dying: set<Tid>, t: Tid)
    requires Inv(s, dying) && t in s.tasks
    ensures var x := s.tasks[t];
            && Flags(x) && t < s.next
            && x.refcnt == Own(x) + Refs(s.tasks, s.held, t) && x.depCnt == Flat(Deps, s.tasks)[t] + s.owed[t]
            && KeepsNeeds(s.tasks, s.next, s.needs, t, x)
            && (t in s.held ==> x.refcnt > 0)
            && (x.complete && (x.depCnt > 0 || Flat(Call, s.tasks)[t] > 0) ==> t in s.early)
            && (x.refcnt == 0 ==> t in s.early || t in dying)
  {
    hide Flat;
    assert Counted(s.tasks, s.held, s.owed, t);
    NeedsAt(s.tasks, s.next, s.needs, t);
  }

  /** Changing only the counts of task `x`. */
  lemma CountOnly(s: State, s': State, x: Tid, dying: set<Tid>, dying': set<Tid>)
    requires Inv(s, dying) && x in s.tasks && x in s'.tasks
    requires s' == s.(tasks := s.tasks[x := s'.tasks[x]], held := s'.held, owed := s'.owed)
    requires var t, t' := s.tasks[x], s'.tasks[x];
             && t' == t.(refcnt := t'.refcnt, depCnt := t'.depCnt)
             && t'.refcnt - s'.held[x] == t.refcnt - s.held[x] && t'.depCnt - s'.owed[x] == t.depCnt - s.owed[x]
             && (t.complete ==> t'.depCnt <= t.depCnt || x in s.early)
             && (t'.refcnt == 0 ==> x in s.early || x in dying')
    requires forall y :: y != x ==> s'.held[y] == s.held[y] && s'.owed[y] == s.owed[y]
    requires dying - {x} <= dying'
    ensures Inv(s', dying')
  {
    hide Inv, Flat, Refs, Flags, Done;
    Facts(s, dying, x);
    FlagsCounts(s.tasks[x], s'.tasks[x]);
    Recount(s, s', x, dying, dying');
  }

  lemma FlagsCounts(t: Task, t': Task)
    requires Flags(t) && t' == t.(refcnt := t'.refcnt, depCnt := t'.depCnt)
    ensures Flags(t')
  {
  }

  lemma RelinksAdd(k: Kind, t: Task, y: Tid, held: multiset<Tid>, owed: multiset<Tid>)
    requires y in held && (k == Deps ==> y in owed)
    ensures Relinks(k, t, SetLinks(k, t, Links(k, t) + [y]), held, held - multiset{y}, owed,
            if k == Deps then owed - multiset{y} else owed)
  {
    assert multiset(Links(k, t) + [y]) == multiset(Links(k, t)) + multiset{y};
  }

  lemma RelinksDrop(k: Kind, t: Task, held: multiset<Tid>, owed: multiset<Tid>)
    requires Links(k, t) != []
    ensures var y := Links(k, t)[0];
            Relinks(k, t, SetLinks(k, t, Links(k, t)[1..]), held, held + multiset{y}, owed,
              if k == Deps then owed + multiset{y} else owed)
  {
    assert Links(k, t) == [Links(k, t)[0]] + Links(k, t)[1..];
    assert multiset(Links(k, t)) == multiset{Links(k, t)[0]} + multiset(Links(k, t)[1..]);
  }

  /** A link from `x` to `y` takes over a reference from the stack. */
  lemma LinkAdded(k: Kind, s: State, s': State, x: Tid, y: Tid, dying: set<Tid>)
    requires Inv(s, dying) && x in s.tasks && y in s.held
    requires k == Deps ==> y in s.owed && !s.tasks[x].list.Posted? && !s.tasks[x].list.Dropped?
    requires k == Call ==> s.tasks[x].list.Popped? && s.tasks[x].call == [] && y in s.tasks && !s.tasks[y].complete
    requires s' == s.(tasks := s.tasks[x := SetLinks(k, s.tasks[x], Links(k, s.tasks[x]) + [y])],
                      held := s.held - multiset{y}, owed := if k == Deps then s.owed - multiset{y} else s.owed)
    ensures Inv(s', dying)
  {
    hide Relinks, Flat, Inv, Refs, Done;
    Facts(s, dying, x);
    RelinksAdd(k, s.tasks[x], y, s.held, s.owed);
    Relink(k, s, s', x, dying);
  }

  /** Taking the first link off leaves its reference on the stack. */
  lemma LinkTaken(k: Kind, s: State, s': State, x: Tid, dying: set<Tid>)
    requires Inv(s, dying) && x in s.tasks && Links(k, s.tasks[x]) != [] && (k == Deps ==> s.tasks[x].complete)
    requires var y := Links(k, s.tasks[x])[0];
             s' == s.(tasks := s.tasks[x := SetLinks(k, s.tasks[x], Links(k, s.tasks[x])[1..])],
                      held := s.held + multiset{y}, owed := if k == Deps then s.owed + multiset{y} else s.owed)
    ensures Inv(s', dying) && Links(k, s.tasks[x])[0] in s.tasks
  {
    hide Relinks, Flat, Inv, Refs, Done;
    Facts(s, dying, x);
    RelinksDrop(k, s.tasks[x], s.held, s.owed);
    LinkedExists(k, s, dying, x, Links(k, s.tasks[x])[0]);
    Relink(k, s, s', x, dying);
  }

  lemma LinkedExists(k: Kind, s: State, dying: set<Tid>, x: Tid, y: Tid)
    requires Inv(s, dying) && x in s.tasks && y in Links(k, s.tasks[x])
    ensures y in s.tasks && s.tasks[y].refcnt > 0 && (k == Deps ==> s.tasks[y].depCnt > 0)
  {
    hide Flat;
    PointedAt(k, s.tasks, x, y);
    assert Refs(s.tasks, s.held, y) > 0 by { match k { case Deps => case Rets => case Call => } }
    assert Counted(s.tasks, s.held, s.owed, y);
  }

  /** Task `x` moves to another list. */
  lemma ListMoved(s: State, s': State, x: Tid, dying: set<Tid>)
    requires Inv(s, dying) && x in s.tasks && x in s'.tasks
    requires s' == s.(tasks := s.tasks[x := s'.tasks[x]], inflight := s'.inflight, early := s'.early)
    requires var t, t' := s.tasks[x], s'.tasks[x];
             && t' == t.(list := t'.list, running := t'.running, complete := t'.complete) && Flags(t') &&
               !t'.list.Dropped? && !t.list.Dropped?
             && (t.complete ==> t'.complete)
             && s'.inflight == s.inflight - (if InFlight(t) then 1 else 0) + (if InFlight(t') then 1 else 0)
             && (t'.list.Picked? ==> forall d: Tid :: (x, d) in s.needs ==> Done(s.tasks, s.next, d))
             && (t'.complete && (t'.depCnt > 0 || Flat(Call, s.tasks)[x] > 0) ==> x in s'.early)
    requires s.early <= s'.early
    ensures Inv(s', dying)
  {
    hide Inv, Flat, Refs, Done;
    Facts(s, dying, x);
    Recount(s, s', x, dying, dying);
  }

  /** Task `x` leaves its last list; its first reference stays on the stack. */
  lemma LeftLists(s: State, s': State, x: Tid)
    requires Inv(s, {}) && x in s.tasks && s.tasks[x].list.Posted?
    requires s' == s.(tasks := s.tasks[x := s.tasks[x].(list := Dropped)], held := s.held + multiset{x})
    ensures Inv(s', {})
  {
    hide Inv, Flat, Refs, Done;
    Facts(s, {}, x);
    Recount(s, s', x, {}, {});
  }

  lemma MoreDying(s: State, dying: set<Tid>, x: Tid)
    requires Inv(s, dying)
    ensures Inv(s, dying + {x})
  {
    hide Balanced, Flat, Flying, AllMet, Shape;
  }

  lemma NotDying(s: State, dying: set<Tid>, x: Tid)
    requires Inv(s, dying + {x}) && x in s.tasks && s.tasks[x].refcnt > 0
    ensures Inv(s, dying)
  {
    hide Balanced, Flat, Flying, AllMet, Shape;
  }

  /** Each return link taken off is one less. */
  lemma FewerRets(m: Tasks, x: Tid, t: Task)
    requires x in m
    ensures |Flat(Rets, m[x := t])| + |m[x].rets| == |Flat(Rets, m)| + |t.rets|
  {
    hide Flat;
    FlatSet(Rets, m, x, t);
    assert |Flat(Rets, m[x := t]) + multiset(m[x].rets)| == |Flat(Rets, m) + multiset(t.rets)|;
  }

  lemma RetsDel(m: Tasks, x: Tid)
    requires x in m && m[x].rets == []
    ensures Flat(Rets, m - {x}) == Flat(Rets, m)
  {
    FlatDel(Rets, m, x);
  }

  /** A dropped task with no references but those of links it waits on.  They are let go
      without a look at what is left, so nothing will ever free it. */
  ghost predicate Stuck(t: Task) {
    t.list.Dropped? && t.refcnt == t.depCnt
  }

  /** From `m` to `m'` only reference counts changed, none to zero, and only dropped tasks
      went, none of them in `keep` and none that was stuck. */
  ghost predicate Shed(m: Tasks, m': Tasks, keep: set<Tid>) {
    && (forall x :: x in m' ==>
          x in m && m'[x] == m[x].(refcnt := m'[x].refcnt) && (m'[x].refcnt == 0 <==> m[x].refcnt == 0))
    && (forall x :: x in keep && x in m ==> x in m' && m'[x] == m[x])
    && (forall x :: x in m && x !in m' ==> m[x].list.Dropped?)
    && (forall x :: x in m && Stuck(m[x]) ==> x in m' && m'[x] == m[x])
  }

  lemma ShedNone(m: Tasks, keep: set<Tid>)
    ensures Shed(m, m, keep)
  {
  }

  lemma ShedMore(m: Tasks, m1: Tasks, m2: Tasks, keep: set<Tid>)
    requires Shed(m, m1, keep) && Shed(m1, m2, keep)
    ensures Shed(m, m2, keep)
  {
  }

  lemma ShedBut(m: Tasks, m': Tasks, keep: set<Tid>, t: Tid)
    requires Shed(m, m', keep + {t}) && t in m
    ensures Shed(m - {t}, m' - {t}, keep) && t in m' && m'[t] == m[t]
  {
  }

  lemma ShedOne(m: Tasks, m': Tasks, keep: set<Tid>, t: Tid, n: nat)
    requires t in m && t !in keep && !Stuck(m[t]) && m[t].refcnt > 0 && m' == m[t := m[t].(refcnt := n)]
    ensures m - {t} == m' - {t}
    ensures n > 0 ==> Shed(m, m', keep)
  {
  }

  lemma ShedEnd(m: Tasks, m': Tasks, keep: set<Tid>, t: Tid)
    requires t in m && t !in keep && Shed(m - {t}, m', keep) && t !in m' && m[t].list.Dropped? && !Stuck(m[t])
    ensures Shed(m, m', keep)
  {
    forall x | x in m && x !in m' ensures m[x].list.Dropped? { if x != t { assert x in m - {t}; } }
    forall x | x in m'
      ensures x in m && m'[x] == m[x].(refcnt := m'[x].refcnt) && (m'[x].refcnt == 0 <==> m[x].refcnt == 0)
    {
      assert x in m - {t};
    }
    forall x | x in keep && x in m ensures x in m' && m'[x] == m[x] { assert x in m - {t}; }
    forall x | x in m && Stuck(m[x]) ensures x in m' && m'[x] == m[x] { assert x in m - {t}; }
  }

  /** A task somebody holds is not stuck. */
  lemma HeldNotStuck(s: State, dying: set<Tid>, t: Tid)
    requires Inv(s, dying) && s.owed == multiset{} && t in s.tasks && t in s.held
    ensures !Stuck(s.tasks[t]) && s.tasks[t].refcnt > 0
  {
    hide Flat;
    Facts(s, dying, t);
  }

  lemma KeptAre(m: Tasks, m': Tasks, keep: set<Tid>)
    requires Shed(m, m', keep) && forall x :: x in keep ==> x in m && m[x].refcnt == 0
    ensures forall x :: x in keep ==> x in m' && m'[x].refcnt == 0
  {
  }

  lemma Unreferenced(s: State, dying: set<Tid>, x: Tid)
    requires Inv(s, dying) && x in s.tasks && s.tasks[x].refcnt == 0
    ensures s.tasks[x].list.Dropped? && Refs(s.tasks, s.held, x) == 0
  {
    Facts(s, dying, x);
  }

  lemma NewNeed(s: State, task: Tid, dep: Tid)
    requires Inv(s, {}) && task in s.tasks && dep in s.tasks && task in s.tasks[dep].deps
    requires !s.tasks[task].list.Picked?
    ensures Inv(s.(needs := s.needs + {(task, dep)}), {})
  {
    hide Balanced, Flat, Flying, Alive, Shape;
  }

  /** A task that waits for nothing has met its needs. */
  lemma NoDeps(s: State, t: Tid)
    requires Inv(s, {}) && t in s.tasks && s.tasks[t].depCnt == 0
    ensures forall d: Tid :: (t, d) in s.needs ==> Done(s.tasks, s.next, d)
  {
    hide Flat, Refs;
    Facts(s, {}, t);
    forall d: Tid | (t, d) in s.needs ensures Done(s.tasks, s.next, d) {
      assert Met(s.tasks, s.next, (t, d).0, (t, d).1);
      if d in s.tasks && t in s.tasks[d].deps { PointedAt(Deps, s.tasks, d, t); }
    }
  }

  lemma MetNeeds(s: State, t: Tid)
    requires Inv(s, {}) && t in s.tasks && s.tasks[t].list.Picked?
    ensures forall d: Tid :: (t, d) in s.needs ==> Done(s.tasks, s.next, d)
  {
    NeedsAt(s.tasks, s.next, s.needs, t);
  }

  /** A reference on the stack is not the only one of a task that is on a list. */
  lemma HeldOne(s: State, dying: set<Tid>, t: Tid)
    requires Inv(s, dying) && t in s.tasks && t in s.held
    ensures s.tasks[t].refcnt > 1 || s.tasks[t].list.Dropped?
  {
    hide Flat;
    Facts(s, dying, t);
  }

  lemma Airborne(s: State, t: Tid)
    requires Inv(s, {}) && t in s.tasks && InFlight(s.tasks[t])
    ensures s.inflight > 0
  {
    assert t in Flying(s.tasks);
  }

  lemma PostFacts(s: State, t: Tid)
    requires Inv(s, {}) && t in s.tasks && s.tasks[t].list.Popped? && s.tasks[t].deps != []
    ensures var d := s.tasks[t].deps[0];
            && s.tasks[t].complete && d in s.tasks && s.tasks[d].depCnt > 0
            && (s.tasks[d].list.Dropped? ==> d in s.early) && (s.tasks[d].running ==> !s.tasks[d].complete)
  {
    hide Inv, Flat, Refs;
    LinkedExists(Deps, s, {}, t, s.tasks[t].deps[0]);
    Facts(s, {}, t);
    Facts(s, {}, s.tasks[t].deps[0]);
  }

  // ---------------------------------------------------------------------------
  // Registering a dependency
  // ---------------------------------------------------------------------------

  /** `t` is counted to wait for `d`, and linked to it. */
  ghost function Waits(m: Tasks, t: Tid, d: Tid): Tasks {
    Linked(Deps, CountedUp(Bumped(m, t), t), d, t)
  }

  ghost predicate Unprocessed(t: Task) {
    !t.list.Posted? && !t.list.Dropped?
  }

  /** Linking keeps the invariant exactly if what `d` holds back is still to be processed;
      whether `d` has completed does not matter. */
  lemma WaitsInv(s: State, s': State, t: Tid, d: Tid)
    requires Inv(s, {}) && s.owed == multiset{} && t in s.tasks && d in s.tasks
    requires s' == s.(tasks := Waits(s.tasks, t, d), early := if s.tasks[t].complete then s.early + {t} else s.early)
    ensures Inv(s', {}) <==> Unprocessed(s.tasks[d])
  {
    if Unprocessed(s.tasks[d]) {
      WaitsKeeps(s, s', t, d);
    } else {
      LateBreaks(s', s.tasks, t, d);
    }
  }

  lemma WaitsKeeps(s: State, s': State, t: Tid, d: Tid)
    requires Inv(s, {}) && s.owed == multiset{} && t in s.tasks && d in s.tasks && Unprocessed(s.tasks[d])
    requires s' == s.(tasks := Waits(s.tasks, t, d), early := if s.tasks[t].complete then s.early + {t} else s.early)
    ensures Inv(s', {})
  {
    hide Inv, Flat, Refs;
    var x := s.tasks[t];
    var s0 := s.(early := s'.early);
    MoreEarly(s, s'.early);
    Facts(s0, {}, t);
    WaitsIs(s.tasks, t, d);
    var x' := x.(refcnt := x.refcnt + 1, depCnt := x.depCnt + 1);
    var s1 := s0.(tasks := s.tasks[t := x'], held := s.held + multiset{t}, owed := multiset{t});
    CountOnly(s0, s1, t, {}, {});
    Back(s.held, t);
    hide Waits;
    LinkAdded(Deps, s1, s', d, t, {});
  }

  lemma WaitsIs(m: Tasks, t: Tid, d: Tid)
    requires t in m && d in m
    ensures var m1 := m[t := m[t].(refcnt := m[t].refcnt + 1, depCnt := m[t].depCnt + 1)];
            Waits(m, t, d) == m1[d := SetLinks(Deps, m1[d], Links(Deps, m1[d]) + [t])]
  {
    assert CountedUp(Bumped(m, t), t) == m[t := m[t].(refcnt := m[t].refcnt + 1, depCnt := m[t].depCnt + 1)];
  }

  /** The order of counting and linking makes no difference. */
  lemma WaitsOrder(m: Tasks, m': Tasks, t: Tid, d: Tid)
    requires t in m && d in m
    requires var m1 := m[t := m[t].(refcnt := m[t].refcnt + 1)];
             var m2 := m1[d := m1[d].(deps := m1[d].deps + [t])];
             m' == m2[t := m2[t].(depCnt := m2[t].depCnt + 1)]
    ensures m' == Waits(m, t, d)
  {
    WaitsIs(m, t, d);
    hide Waits;
    forall x | x in m' ensures m'[x] == Waits(m, t, d)[x] {}
  }

  lemma Back(held: multiset<Tid>, t: Tid)
    ensures held + multiset{t} - multiset{t} == held && multiset{t} - multiset{t} == multiset{}
  {
  }

  /** A link on a task that is past its dependents is never looked at. */
  lemma LateBreaks(s: State, m: Tasks, t: Tid, d: Tid)
    requires t in m && d in m && !Unprocessed(m[d]) && s.tasks == Waits(m, t, d)
    ensures !Inv(s, {})
  {
    hide Balanced, Flat, Flying, AllMet, Alive;
    WaitsIs(m, t, d);
    assert s.tasks[d].deps != [] && s.tasks[d].list == m[d].list;
  }

  lemma MoreEarly(s: State, early: set<Tid>)
    requires Inv(s, {}) && s.early <= early
    ensures Inv(s.(early := early), {})
  {
    hide Balanced, Flat, Flying, AllMet, Shape;
  }
}
