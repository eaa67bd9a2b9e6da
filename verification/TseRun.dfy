/** Running a scheduler to its end: one thread calls the bodies of tasks, which complete them. */
module TseRun {
  import opened TseTask
  import opened TseEvent
  import opened Tse

  /** Tasks handed to the scheduler that it has not done with. */
  ghost function Work(m: Tasks): set<Tid> {
    set x | x in m && !m[x].list.Fresh? && !m[x].list.Posted? && !m[x].list.Dropped?
  }

  /** Dependencies are acyclic, and on tasks that are scheduled. */
  ghost predicate Ordered(m: Tasks, rank: Tid -> nat) {
    Ranked(m, rank) && forall d :: d in m && m[d].deps != [] ==> !m[d].list.Fresh?
  }

  /** No completion callback is under way, and tasks that run wait for others to be done. */
  ghost predicate Calm(m: Tasks) {
    forall x :: x in m ==> m[x].call == [] && (m[x].list.Running? ==> m[x].depCnt > 0)
  }

  /** Nothing is added from `m` to `m'`: no task, no dependency, no work, nothing to start. */
  ghost predicate Later(m: Tasks, m': Tasks) {
    && (forall x :: x in m' ==>
          && x in m && (m'[x].list.Fresh? <==> m[x].list.Fresh?) && (forall y :: y in m'[x].deps ==> y in m[x].deps)
          && (m'[x].list.Picked? ==> m[x].list.Picked?) && (x in Work(m') ==> x in Work(m)))
    && (forall x :: x in m && m[x].list.Fresh? ==> x in m')
  }

  lemma LaterTwice(m: Tasks, m1: Tasks, m2: Tasks)
    requires Later(m, m1) && Later(m1, m2)
    ensures Later(m, m2)
  {
    hide Work;
  }

  lemma LaterSame(m: Tasks)
    ensures Later(m, m)
  {
  }

  lemma LaterOrdered(m: Tasks, m': Tasks, rank: Tid -> nat)
    requires Later(m, m') && Ordered(m, rank)
    ensures Ordered(m', rank)
  {
    hide Work;
    forall d | d in m' && m'[d].deps != [] ensures !m'[d].list.Fresh? { assert m'[d].deps[0] in m[d].deps; }
  }

  lemma LaterWork(m: Tasks, m': Tasks)
    requires Later(m, m')
    ensures Work(m') <= Work(m) && |Work(m')| <= |Work(m)|
  {
    forall x | x in Work(m') ensures x in Work(m) { assert x in m'; }
    SubsetSize(Work(m'), Work(m));
  }

  lemma SubsetSize<T>(a: set<T>, b: set<T>)
    requires a <= b
    ensures |a| <= |b| && (a != b ==> |a| < |b|)
  {
    assert b == a + (b - a);
    if a != b { assert b - a != {}; }
  }

  /** One task leaves its list, or some of its links go. */
  lemma LaterOne(m: Tasks, t: Tid, n: Task)
    requires t in m && !m[t].list.Fresh? && !n.list.Fresh? && (n.list.Picked? ==> m[t].list.Picked?)
    requires forall y :: y in n.deps ==> y in m[t].deps
    requires t in Work(m) || n.list.Dropped? || n.list.Posted?
    ensures Later(m, m[t := n])
  {
  }

  lemma LaterShed(m: Tasks, m': Tasks)
    requires Shed(m, m', {})
    ensures Later(m, m') && (Calm(m) ==> Calm(m'))
  {
  }

  // ---------------------------------------------------------------------------
  // Completed tasks
  // ---------------------------------------------------------------------------

  lemma LaterCounting(m: Tasks, m': Tasks, t: Tid, d: Tid)
    requires t in m && d in m && t != d && m[t].deps != [] && m[t].call == [] && m[t].list.Popped?
    requires Counting(m, m', t, d)
    ensures Later(m, m')
    ensures t in m' && m'[t].list.Popped? && m'[t].deps == m[t].deps[1..]
    ensures m'.Keys == m.Keys && forall x :: x in m' ==> m'[x].list == m[x].list
    ensures Calm(m) && !(m[d].running && m[d].depCnt == 1) && (m[d].list.Running? ==> m[d].running) ==> Calm(m')
  {
  }

  lemma LaterResuming(m: Tasks, m1: Tasks, m': Tasks, t: Tid, d: Tid)
    requires t in m && d in m && t != d && m[t].deps != [] && Counting(m, m1, t, d) && Calm(m)
    requires m[d].running && m[d].depCnt == 1 && m[d].list.Running? && !m[d].complete && m[t].list.Popped?
    requires m1[t].call == [d] && Resuming(m1, m', t, d, true)
    ensures Later(m, m') && Calm(m')
    ensures t in m' && m'[t].list.Popped? && m'[t].deps == m[t].deps[1..]
    ensures m'.Keys == m.Keys && forall x :: x in m' ==> (m'[x].list.Popped? <==> m[x].list.Popped?)
  {
  }

  /** One turn of the loop over dependents. */
  method PostOne(s: Sched, t: Tid, ghost rank: Tid -> nat)
    requires s.Valid() && Ordered(s.tasks, rank) && Calm(s.tasks)
    requires t in s.tasks && s.tasks[t].list.Popped? && s.tasks[t].deps != []
    modifies s`tasks, s`held, s`owed, s`early
    ensures s.Valid() && Later(old(s.tasks), s.tasks) && Calm(s.tasks) && s.held == old(s.held)
    ensures t in s.tasks && s.tasks[t].list.Popped? && s.tasks[t].deps == old(s.tasks[t]).deps[1..]
    ensures forall x :: x in s.tasks && s.tasks[x].list.Popped? ==> x in old(s.tasks) && old(s.tasks)[x].list.Popped?
    ensures forall x :: x in old(s.tasks) && old(s.tasks)[x].list.Popped? ==> x in s.tasks && s.tasks[x].list.Popped?
  {
    hide Inv, Flat, Refs, Unlinked, CountedDown, Linked, Attached, Completed, Unbumped, Work, Counting, Resuming, Hasty;
    ghost var m := s.tasks;
    NextFacts(s.V(), t);
    ghost var d' := m[t].deps[0];
    assert rank(t) < rank(d');
    Facts(s.V(), {}, d');
    hide Later, KeepsNeeds;
    var d, callback := s.PostLink(t);
    DoesNext(m, t, s.tasks, callback);
    LaterCounting(m, s.tasks, t, d);
    if callback {
      ghost var m1 := s.tasks;
      CallIs(m, m1, t, d);
      s.PostCallback(t, true);
      DoesResume(m1, t, s.tasks, true);
      LaterResuming(m, m1, s.tasks, t, d);
    }
    LaterIn(m, s.tasks);
  }

  lemma LaterIn(m: Tasks, m': Tasks)
    requires Later(m, m')
    ensures forall x :: x in m' ==> x in m
  {
  }

  lemma CallIs(m: Tasks, m': Tasks, t: Tid, d: Tid)
    requires t in m && d in m && t != d && m[t].deps != [] && m[t].call == [] && Counting(m, m', t, d)
    requires m[d].running && m[d].depCnt == 1 && m[d].refcnt > 0
    ensures t in m' && m'[t].call == [d] && d in m' && m'[d].running && m'[d].refcnt > 0
  {
  }

  /** Process one completed task to its end. */
  method Process(s: Sched, t: Tid, ghost rank: Tid -> nat)
    requires s.Valid() && Ordered(s.tasks, rank) && Calm(s.tasks) && t in s.tasks && s.tasks[t].list.Popped?
    modifies s
    ensures s.Valid() && Later(old(s.tasks), s.tasks) && Calm(s.tasks) && s.held == old(s.held)
    ensures t !in Work(s.tasks)
    ensures forall x :: x in s.tasks && s.tasks[x].list.Popped? ==>
              x != t && x in old(s.tasks) && old(s.tasks)[x].list.Popped?
    ensures forall x :: x in old(s.tasks) && old(s.tasks)[x].list.Popped? && x != t ==>
              x in s.tasks && s.tasks[x].list.Popped?
  {
    hide Inv, Flat, Refs, Later, Ordered, Shed, Work, Calm;
    ghost var m := s.tasks;
    LaterSame(m);
    while s.tasks[t].deps != []
      invariant s.Valid() && Later(m, s.tasks) && Calm(s.tasks) && s.held == old(s.held)
      invariant t in s.tasks && s.tasks[t].list.Popped?
      invariant forall x :: x in s.tasks && s.tasks[x].list.Popped? ==> x in m && m[x].list.Popped?
      invariant forall x :: x in m && m[x].list.Popped? ==> x in s.tasks && s.tasks[x].list.Popped?
      decreases |s.tasks[t].deps|
    {
      ghost var m1 := s.tasks;
      LaterOrdered(m, m1, rank);
      PostOne(s, t, rank);
      LaterTwice(m, m1, s.tasks);
    }
    ghost var m1 := s.tasks;
    CalmAt(m1, t);
    s.PostEnd(t);
    s.Drop(t);
    Processed(m1, s.tasks, t);
    LaterTwice(m, m1, s.tasks);
  }

  lemma CalmAt(m: Tasks, t: Tid)
    requires Calm(m) && t in m
    ensures m[t].call == []
  {
  }

  lemma Processed(m: Tasks, m': Tasks, t: Tid)
    requires t in m && m[t].list.Popped? && Calm(m)
    requires Shed(m[t := m[t].(list := Posted)][t := m[t].(list := Dropped)], m', {})
    ensures Later(m, m') && Calm(m') && t !in Work(m')
    ensures forall x :: x in m' && m'[x].list.Popped? ==> x != t && x in m && m[x].list.Popped?
    ensures forall x :: x in m && m[x].list.Popped? && x != t ==> x in m' && m'[x].list.Popped?
  {
    var m1 := m[t := m[t].(list := Posted)][t := m[t].(list := Dropped)];
    assert m1 == m[t := m[t].(list := Dropped)];
    LaterOne(m, t, m[t].(list := Dropped));
    LaterShed(m1, m');
    LaterTwice(m, m1, m');
    hide Later;
  }

  ghost function Popped(m: Tasks): set<Tid> {
    set x | x in m && m[x].list.Popped?
  }

  /** Process what has completed, and count it. */
  method ProcessComplete(s: Sched, ghost rank: Tid -> nat) returns (n: nat)
    requires s.Valid() && Ordered(s.tasks, rank) && Calm(s.tasks)
    modifies s
    ensures s.Valid() && Later(old(s.tasks), s.tasks) && Calm(s.tasks) && s.held == old(s.held)
    ensures forall x :: x in s.tasks ==> !s.tasks[x].list.Popped?
    ensures forall x :: x in old(s.tasks) && (old(s.tasks)[x].list.Complete? || old(s.tasks)[x].list.Popped?) ==>
              x !in Work(s.tasks)
    ensures n == 0 ==> s.tasks == old(s.tasks)
    ensures n > 0 ==> |Work(s.tasks)| < |Work(old(s.tasks))|
    ensures n == 0 ==> forall x :: x in s.tasks ==> !s.tasks[x].list.Complete?
  {
    hide Inv, Flat, Later, Ordered, Work, Calm, Splicing, Left;
    ghost var m := s.tasks;
    s.Splice();
    Spliced(m, s.tasks);
    LaterOrdered(m, s.tasks, rank);
    n := ProcessAll(s, Popped(s.tasks), rank);
    ProcessedAll(m, Splicing(m, {}), s.tasks, n);
  }

  /** `todo` are the tasks to process: those still there, and those done with. */
  ghost predicate Left(m: Tasks, todo: set<Tid>) {
    Popped(m) <= todo && forall x :: x in todo ==> x in Popped(m) || x !in Work(m)
  }

  method ProcessAll(s: Sched, ghost todo: set<Tid>, ghost rank: Tid -> nat) returns (n: nat)
    requires s.Valid() && Ordered(s.tasks, rank) && Calm(s.tasks) && todo == Popped(s.tasks)
    modifies s
    ensures s.Valid() && Later(old(s.tasks), s.tasks) && Calm(s.tasks) && s.held == old(s.held)
    ensures Left(s.tasks, todo) && Popped(s.tasks) == {}
    ensures n == 0 ==> s.tasks == old(s.tasks)
    ensures n > 0 ==> |Work(s.tasks)| < |Work(old(s.tasks))|
  {
    hide Inv, Flat, Later, Ordered, Work, Calm, Left;
    ghost var m := s.tasks;
    LaterSame(m);
    AllLeft(m);
    n := 0;
    while exists x :: x in s.tasks && s.tasks[x].list.Popped?
      invariant s.Valid() && Later(m, s.tasks) && Calm(s.tasks) && s.held == old(s.held) && Left(s.tasks, todo)
      invariant n == 0 ==> s.tasks == m
      invariant n > 0 ==> |Work(s.tasks)| < |Work(m)|
      decreases |Popped(s.tasks)|
    {
      var t :| t in s.tasks && s.tasks[t].list.Popped?;
      ghost var m1 := s.tasks;
      LaterOrdered(m, m1, rank);
      Process(s, t, rank);
      LaterTwice(m, m1, s.tasks);
      FewerPopped(m1, s.tasks, t);
      WorkDone(m, m1, s.tasks, t);
      LeftOn(m1, s.tasks, todo, t);
      n := n + 1;
    }
    assert Popped(s.tasks) == {};
  }

  lemma AllLeft(m: Tasks)
    ensures Left(m, Popped(m))
  {
  }

  lemma LeftOn(m: Tasks, m': Tasks, todo: set<Tid>, t: Tid)
    requires Left(m, todo) && Later(m, m') && t !in Work(m')
    requires forall x :: x in m' && m'[x].list.Popped? ==> x != t && x in m && m[x].list.Popped?
    requires forall x :: x in m && m[x].list.Popped? && x != t ==> x in m' && m'[x].list.Popped?
    ensures Left(m', todo)
  {
    LaterWork(m, m');
  }

  /** From taking the completed tasks over to the end of processing them. */
  lemma ProcessedAll(m: Tasks, m1: Tasks, m2: Tasks, n: nat)
    requires m1 == Splicing(m, {}) && Later(m, m1) && Later(m1, m2) && Left(m2, Popped(m1)) && Popped(m2) == {}
    requires n == 0 ==> m2 == m1
    requires n > 0 ==> |Work(m2)| < |Work(m1)|
    ensures Later(m, m2)
    ensures forall x :: x in m2 ==> !m2[x].list.Popped?
    ensures forall x :: x in m && (m[x].list.Complete? || m[x].list.Popped?) ==> x !in Work(m2)
    ensures n == 0 ==> m2 == m && forall x :: x in m ==> !m[x].list.Complete?
    ensures n > 0 ==> |Work(m2)| < |Work(m)|
  {
    LaterTwice(m, m1, m2);
    LaterWork(m, m1);
    forall x | x in m2 ensures !m2[x].list.Popped? { assert x !in Popped(m2); }
    forall x | x in m && (m[x].list.Complete? || m[x].list.Popped?) ensures x !in Work(m2) {
      assert x in Popped(m1) && x !in Popped(m2);
    }
    if n == 0 { SplicedNone(m); }
  }

  lemma Spliced(m: Tasks, m': Tasks)
    requires m' == Splicing(m, {}) && Calm(m)
    ensures Later(m, m') && Calm(m')
    ensures forall x :: x in m && (m[x].list.Complete? || m[x].list.Popped?) ==> x in Popped(m')
  {
  }

  lemma SplicedNone(m: Tasks)
    requires forall x :: x in Splicing(m, {}) ==> !Splicing(m, {})[x].list.Popped?
    ensures Splicing(m, {}) == m && forall x :: x in m ==> !m[x].list.Complete?
  {
    forall x | x in m ensures !m[x].list.Complete? { assert x in Splicing(m, {}); }
  }

  lemma FewerPopped(m: Tasks, m': Tasks, t: Tid)
    requires t in m && m[t].list.Popped?
    requires forall x :: x in m' && m'[x].list.Popped? ==> x != t && x in m && m[x].list.Popped?
    ensures |Popped(m')| < |Popped(m)|
  {
    assert t in Popped(m) && t !in Popped(m');
    SubsetSize(Popped(m'), Popped(m));
  }

  lemma WorkDone(m: Tasks, m1: Tasks, m2: Tasks, t: Tid)
    requires Later(m, m1) && Later(m1, m2) && t in m1 && m1[t].list.Popped? && t !in Work(m2)
    ensures |Work(m2)| < |Work(m)|
    ensures forall x :: x in Work(m2) ==> x in Work(m1)
  {
    LaterWork(m, m1);
    LaterWork(m1, m2);
    assert t in Work(m1);
    SubsetSize(Work(m2), Work(m1));
  }

  // ---------------------------------------------------------------------------
  // The init list
  // ---------------------------------------------------------------------------

  /** Start a task, call its body, which completes it, and give its reference back. */
  method RunBody(s: Sched, t: Tid, ghost rank: Tid -> nat)
    requires s.Valid() && Ordered(s.tasks, rank) && Calm(s.tasks) && t in s.tasks && s.tasks[t].list.Picked?
    modifies s
    ensures s.Valid() && Later(old(s.tasks), s.tasks) && Calm(s.tasks) && s.held == old(s.held)
    ensures t !in Work(s.tasks)
  {
    hide Inv, Flat, Refs, Later, Ordered, Work, Calm, Shed, Bumped, Completed, Done;
    ghost var m := s.tasks;
    StartedIs(s.V(), t);
    s.Start(t);
    Finish(s, t);
    BodyDone(m, s.tasks, t);
    ghost var m1 := s.tasks;
    LaterOrdered(m, m1, rank);
    var _ := ProcessComplete(s, rank);
    ghost var m2 := s.tasks;
    LaterTwice(m, m1, m2);
    HeldThere(s.V(), t);
    s.Return(t);
    LaterShed(m2, s.tasks);
    LaterTwice(m, m2, s.tasks);
    LaterWork(m2, s.tasks);
    assert s.held == old(s.held);
  }

  lemma StartedIs(s: State, t: Tid)
    requires Inv(s, {}) && t in s.tasks && s.tasks[t].list.Picked?
    ensures !s.tasks[t].complete
    ensures var m := Bumped(s.tasks[t := s.tasks[t].(running := true, list := Running)], t);
            t in m && m[t].running && !m[t].complete
  {
    hide Inv, Flat;
    Facts(s, {}, t);
  }

  lemma HeldThere(s: State, t: Tid)
    requires Inv(s, {}) && t in s.held
    ensures t in s.tasks
  {
    hide Flat;
    assert Refs(s.tasks, s.held, t) > 0;
  }

  lemma BodyDone(m: Tasks, m': Tasks, t: Tid)
    requires t in m && m[t].list.Picked? && Calm(m) && !m[t].complete
    requires m' == Completed(Bumped(m[t := m[t].(running := true, list := Running)], t), t)
    ensures Later(m, m') && Calm(m') && t in m' && m'[t].list.Complete?
  {
  }

  ghost function Pickeds(m: Tasks): set<Tid> {
    set x | x in m && m[x].list.Picked?
  }

  lemma FewerPicked(m: Tasks, m': Tasks, t: Tid)
    requires Later(m, m') && t in m && m[t].list.Picked? && t !in Work(m')
    ensures |Pickeds(m')| < |Pickeds(m)| && |Work(m')| < |Work(m)|
  {
    LaterWork(m, m');
    assert t in Work(m);
    SubsetSize(Work(m'), Work(m));
    forall x | x in Pickeds(m') ensures x in Pickeds(m) && x != t { assert x in Work(m'); }
    assert t in Pickeds(m);
    SubsetSize(Pickeds(m'), Pickeds(m));
  }

  /** Taking tasks from the init list. */
  lemma PickedIs(m: Tasks, m': Tasks, rank: Tid -> nat)
    requires m' == Picking(m, {}) && Ordered(m, rank) && Calm(m) && forall x :: x in m ==> !m[x].list.Picked?
    ensures Ordered(m', rank) && Calm(m') && Work(m') == Work(m)
    ensures forall x :: x in m && m[x].list.Fresh? ==> x in m' && m'[x].list.Fresh?
    ensures Pickeds(m') == {} ==> m' == m && forall x :: x in m && m[x].list.Init? ==> m[x].depCnt > 0
  {
    if Pickeds(m') == {} {
      forall x | x in m ensures !(m[x].list.Init? && m[x].depCnt == 0) { assert x !in Pickeds(m'); }
    }
  }

  /** Start all that can be started, and count it. */
  method ProcessInit(s: Sched, ghost rank: Tid -> nat) returns (n: nat)
    requires s.Valid() && Ordered(s.tasks, rank) && Calm(s.tasks)
    requires forall x :: x in s.tasks ==> !s.tasks[x].list.Picked?
    modifies s
    ensures s.Valid() && Ordered(s.tasks, rank) && Calm(s.tasks) && s.held == old(s.held)
    ensures forall x :: x in s.tasks ==> !s.tasks[x].list.Picked?
    ensures Work(s.tasks) <= Work(old(s.tasks))
    ensures forall x :: x in old(s.tasks) && old(s.tasks)[x].list.Fresh? ==> x in s.tasks && s.tasks[x].list.Fresh?
    ensures n == 0 ==>
              s.tasks == old(s.tasks) && forall x :: x in s.tasks && s.tasks[x].list.Init? ==> s.tasks[x].depCnt > 0
    ensures n > 0 ==> |Work(s.tasks)| < |Work(old(s.tasks))|
  {
    hide Inv, Flat, Later, Ordered, Work, Calm, Picking;
    ghost var m := s.tasks;
    s.Pick();
    ghost var m0 := s.tasks;
    PickedIs(m, m0, rank);
    LaterSame(m0);
    n := 0;
    while exists x :: x in s.tasks && s.tasks[x].list.Picked?
      invariant s.Valid() && Later(m0, s.tasks) && Calm(s.tasks) && s.held == old(s.held)
      invariant n == 0 ==> s.tasks == m0
      invariant n > 0 ==> |Work(s.tasks)| < |Work(m0)|
      decreases |Pickeds(s.tasks)|
    {
      var t :| t in s.tasks && s.tasks[t].list.Picked?;
      ghost var m1 := s.tasks;
      LaterOrdered(m0, m1, rank);
      LaterWork(m0, m1);
      RunBody(s, t, rank);
      LaterTwice(m0, m1, s.tasks);
      FewerPicked(m1, s.tasks, t);
      n := n + 1;
    }
    LaterOrdered(m0, s.tasks, rank);
    LaterWork(m0, s.tasks);
    LaterFresh(m0, s.tasks);
    if n == 0 { assert Pickeds(m0) == {}; }
  }

  lemma LaterFresh(m: Tasks, m': Tasks)
    requires Later(m, m')
    ensures forall x :: x in m && m[x].list.Fresh? ==> x in m' && m'[x].list.Fresh?
  {
  }

  // ---------------------------------------------------------------------------
  // The scheduler
  // ---------------------------------------------------------------------------

  /** Work that is left has a task that waits for nothing. */
  lemma SomeReady(s: State, rank: Tid -> nat) returns (t: Tid)
    requires Inv(s, {}) && s.owed == multiset{} && Ordered(s.tasks, rank) && Work(s.tasks) != {}
    ensures t in Work(s.tasks) && s.tasks[t].depCnt == 0
  {
    hide Flat, Refs, Balanced, AllMet, Alive, Flying, Shape;
    t := LowestRank(Work(s.tasks), rank);
    if s.tasks[t].depCnt > 0 {
      Facts(s, {}, t);
      var d := Owner(Deps, s.tasks, t);
      Facts(s, {}, d);
    }
  }

  /** Run the scheduler until all is done, or nothing can be.  With acyclic dependencies on
      scheduled tasks, and bodies that complete their tasks, all is done. */
  method SchedRun(s: Sched, ghost rank: Tid -> nat)
    requires s.Valid() && Ordered(s.tasks, rank) && Calm(s.tasks)
    requires forall x :: x in s.tasks ==> !s.tasks[x].list.Picked? && !s.tasks[x].list.Popped?
    modifies s
    ensures s.Valid() && s.held == old(s.held)
    ensures forall x :: x in s.tasks ==> s.tasks[x].list.Fresh? || s.tasks[x].list.Posted? || s.tasks[x].list.Dropped?
    ensures forall x :: x in old(s.tasks) && old(s.tasks)[x].list.Fresh? ==> x in s.tasks && s.tasks[x].list.Fresh?
    ensures s.inflight == 0
  {
    hide Inv, Flat, Ordered, Work, Calm, Later;
    var completed, processed := false, 1;
    while !completed && processed != 0
      invariant s.Valid() && Ordered(s.tasks, rank) && Calm(s.tasks) && s.held == old(s.held)
      invariant forall x :: x in s.tasks ==> !s.tasks[x].list.Picked? && !s.tasks[x].list.Popped?
      invariant forall x :: x in old(s.tasks) && old(s.tasks)[x].list.Fresh? ==> x in s.tasks && s.tasks[x].list.Fresh?
      invariant processed == 0 ==> Work(s.tasks) == {}
      invariant completed ==>
                  forall x :: x in s.tasks ==>
                    s.tasks[x].list.Fresh? || s.tasks[x].list.Posted? || s.tasks[x].list.Dropped?
      decreases |Work(s.tasks)|, processed
    {
      ghost var m := s.tasks;
      var started := ProcessInit(s, rank);
      ghost var m1 := s.tasks;
      var finished := ProcessComplete(s, rank);
      SizeDown(m, m1);
      LaterWork(m1, s.tasks);
      LaterOrdered(m1, s.tasks, rank);
      LaterFresh(m1, s.tasks);
      LaterPicked(m1, s.tasks);
      completed := s.CheckComplete();
      processed := started + finished;
      if processed == 0 { NothingLeft(s.V(), rank); }
    }
    if processed == 0 { NoWork(s.tasks); }
    AllGrounded(s.V());
  }

  lemma SizeDown(m: Tasks, m': Tasks)
    ensures Work(m') <= Work(m) ==> |Work(m')| <= |Work(m)|
  {
    if Work(m') <= Work(m) { SubsetSize(Work(m'), Work(m)); }
  }

  lemma LaterPicked(m: Tasks, m': Tasks)
    requires Later(m, m') && forall x :: x in m ==> !m[x].list.Picked?
    ensures forall x :: x in m' ==> !m'[x].list.Picked?
  {
  }

  lemma NothingLeft(s: State, rank: Tid -> nat)
    requires Inv(s, {}) && s.owed == multiset{} && Ordered(s.tasks, rank) && Calm(s.tasks)
    requires forall x :: x in s.tasks ==>
               !s.tasks[x].list.Picked? && !s.tasks[x].list.Popped? && !s.tasks[x].list.Complete?
    requires forall x :: x in s.tasks && s.tasks[x].list.Init? ==> s.tasks[x].depCnt > 0
    ensures Work(s.tasks) == {}
  {
    hide Inv, Ordered;
    if Work(s.tasks) != {} { var t := SomeReady(s, rank); }
  }

  lemma NoWork(m: Tasks)
    requires Work(m) == {}
    ensures forall x :: x in m ==> m[x].list.Fresh? || m[x].list.Posted? || m[x].list.Dropped?
  {
    forall x | x in m ensures m[x].list.Fresh? || m[x].list.Posted? || m[x].list.Dropped? { assert x !in Work(m); }
  }

  lemma AllGrounded(s: State)
    requires Inv(s, {})
    requires forall x :: x in s.tasks ==>
               s.tasks[x].list.Fresh? || s.tasks[x].list.Posted? || s.tasks[x].list.Dropped?
    ensures s.inflight == 0
  {
    hide Inv;
    Grounded(s);
  }

  /** One round of picking gets an idle scheduler with waiting tasks going. */
  lemma PickFlies(s: State, s': State, rank: Tid -> nat)
    requires Inv(s, {}) && s.owed == multiset{} && Ordered(s.tasks, rank) && s.inflight == 0
    requires exists x :: x in s.tasks && s.tasks[x].list.Init?
    requires Inv(s', {}) && Does(s.tasks, s'.tasks, PickAll)
    ensures s'.inflight > 0
  {
    hide Inv, Flat;
    var t := NeverStalls(s, rank);
    Airborne(s', t);
  }

  method PickOnward(s: Sched, ghost rank: Tid -> nat) returns (fault: bool)
    requires s.Valid() && Ordered(s.tasks, rank) && s.inflight == 0
    requires exists x :: x in s.tasks && s.tasks[x].list.Init?
    modifies s
    ensures s.Valid() && !fault && s.inflight > 0
  {
    hide Inv, Flat, Does, Effect, Hasty, Needing, Ordered;
    ghost var v := s.V();
    fault := s.Step(PickAll);
    PickFlies(v, s.V(), rank);
  }
}
