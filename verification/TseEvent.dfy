/** What threads do to a scheduler, one event at a time, and which tasks they strand. */
module TseEvent {
  import opened TseTask

  /** One thread's next access to the scheduler.  Registering a dependency and completing a
      task are two events each: a look without the lock, then the change with the lock. */
  datatype Event =
    | New(func: bool) | Submit(t: Tid, ready: bool) | Again(t: Tid)
    | Check(t: Tid, d: Tid) | LinkUp(t: Tid, d: Tid)
    | FinishBegin(t: Tid) | FinishEnd(t: Tid, done: bool)
    | PickAll | Begin(t: Tid) | Back(t: Tid)
    | SpliceAll | Next(t: Tid) | Resume(t: Tid, done: bool) | End(t: Tid) | Last(t: Tid)

  /** Some thread is where it can do `e` next.  `checked` are dependencies looked at but not
      yet linked, `finishing` tasks whose completion callbacks run. */
  predicate Enabled(m: Tasks, held: multiset<Tid>, checked: multiset<(Tid, Tid)>, finishing: multiset<Tid>, e: Event) {
    match e
    case LinkUp(t, d) => (t, d) in checked
    case FinishEnd(t, _) => t in finishing
    case Begin(t) => t in m && m[t].list.Picked?
    case Back(t) => t in m && t in held
    case Next(t) => t in m && m[t].list.Popped? && m[t].deps != [] && m[t].call == []
    case Resume(t, _) => t in m && m[t].call != []
    case End(t) => t in m && m[t].list.Popped? && m[t].deps == [] && m[t].call == []
    case Last(t) => t in m && m[t].list.Posted?
    case _ => true
  }

  /** The event goes wrong: it names a freed task, schedules a task twice, links to a task
      whose dependents were all processed, or finds a task to complete put back meanwhile. */
  predicate Faulty(m: Tasks, e: Event) {
    match e
    case Submit(t, _) => t !in m || !m[t].list.Fresh?
    case Again(t) => t !in m
    case Check(t, d) => t !in m || d !in m
    case LinkUp(t, d) => t !in m || d !in m || m[d].list.Posted? || m[d].list.Dropped?
    case FinishBegin(t) => t !in m
    case FinishEnd(t, done) => t !in m || (done && !m[t].running && !m[t].complete)
    case Resume(t, done) =>
      && done && t in m && m[t].call != []
      && var d := m[t].call[0]; d !in m || (!m[d].running && !m[d].complete)
    case _ => false
  }

  // ---------------------------------------------------------------------------
  // What events do
  // ---------------------------------------------------------------------------

  /** What becomes of the tasks when the event is carried out. */
  ghost predicate Does(m: Tasks, m': Tasks, e: Event) {
    match e
    case New(func) => exists t: Tid :: t !in m && m' == m[t := Task(func, 1, 0, false, false, Fresh, [], [], [])]
    case Submit(t, ready) =>
      && t in m && m'.Keys == m.Keys && (forall x :: x in m && x != t ==> m'[x] == m[x])
      && (if ready && !m[t].func then m'[t] == m[t]
          else if !ready && m[t].func then m'[t] == m[t].(list := Init)
          else m'[t] == m[t].(list := Running, running := true, refcnt := m[t].refcnt + if ready then 1 else 0))
    case Again(t) =>
      && t in m && m'.Keys == m.Keys && (forall x :: x in m && x != t ==> m'[x] == m[x])
      && m'[t] == if m[t].running && !m[t].complete && m[t].func then m[t].(running := false, list := Init) else m[t]
    case Check(_, _) => m' == m
    case LinkUp(t, d) => t in m && d in m && Linking(m, m', t, d)
    case FinishBegin(_) => m' == m
    case FinishEnd(t, done) =>
      && t in m && m'.Keys == m.Keys && (forall x :: x in m && x != t ==> m'[x] == m[x])
      && m'[t] == if done && !m[t].complete then m[t].(running := false, complete := true, list := Complete) else m[t]
    case PickAll =>
      && m'.Keys == m.Keys
      && forall x :: x in m ==>
           m'[x] == if m[x].list.Init? && m[x].depCnt == 0 then m[x].(list := Picked) else m[x]
    case Begin(t) => t in m && m' == m[t := m[t].(list := Running, running := true, refcnt := m[t].refcnt + 1)]
    case Back(t) =>
      t in m && m[t].refcnt > 0 && if m[t].refcnt > 1 then m' == m[t := m[t].(refcnt := m[t].refcnt - 1)] else t !in m'
    case SpliceAll =>
      && m'.Keys == m.Keys
      && forall x :: x in m ==> m'[x] == if m[x].list.Complete? then m[x].(list := Popped) else m[x]
    case Next(t) => t in m && m[t].deps != [] && m[t].deps[0] in m && Counting(m, m', t, m[t].deps[0])
    case Resume(t, done) => t in m && m[t].call != [] && m[t].call[0] in m && Resuming(m, m', t, m[t].call[0], done)
    case End(t) => t in m && m' == m[t := m[t].(list := Posted)]
    case Last(t) =>
      && t in m && m[t].refcnt > 0
      && if m[t].refcnt > 1 then m' == m[t := m[t].(list := Dropped, refcnt := m[t].refcnt - 1)] else t !in m'
  }

  /** `t` is one of the tasks that wait for `d`, and is counted as waiting once more. */
  ghost predicate Linking(m: Tasks, m': Tasks, t: Tid, d: Tid)
    requires t in m && d in m
  {
    && m'.Keys == m.Keys && (forall x :: x in m && x != t && x != d ==> m'[x] == m[x])
    && m'[t] == m[t].(refcnt := m[t].refcnt + 1, depCnt := m[t].depCnt + 1, deps := m'[t].deps)
    && m'[d].deps == m[d].deps + [t] && (t != d ==> m'[t].deps == m[t].deps && m'[d] == m[d].(deps := m'[d].deps))
  }

  /** `d` no longer waits for `t`: its callbacks are to be run if it is running and waits for
      nothing else; otherwise `t` is one of its results. */
  ghost predicate Counting(m: Tasks, m': Tasks, t: Tid, d: Tid)
    requires t in m && d in m && m[t].deps != []
  {
    var last := m[d].running && m[d].depCnt == 1;
    && m'.Keys == m.Keys && (forall x :: x in m && x != t && x != d ==> m'[x] == m[x])
    && m[d].depCnt > 0 && m'[d].depCnt == m[d].depCnt - 1
    && m'[t].deps == m[t].deps[1..] && m'[t].call == m[t].call + (if last then [d] else [])
    && m'[d].rets == m[d].rets + (if last then [] else [t])
    && m'[d].list == m[d].list && m'[d].running == m[d].running && m'[d].complete == m[d].complete
    && (if t == d then m'[d].refcnt == m[d].refcnt
        else
          && m'[t] == m[t].(deps := m'[t].deps, call := m'[t].call, refcnt := m[t].refcnt + if last then 0 else 1)
          && m'[d] == m[d].(depCnt := m'[d].depCnt, rets := m'[d].rets, refcnt := m'[d].refcnt)
          && m'[d].refcnt == m[d].refcnt - if last then 0 else 1)
  }

  /** The callbacks of `d` have run: it is complete, with `t` as a result, unless they put it
      back. */
  ghost predicate Resuming(m: Tasks, m': Tasks, t: Tid, d: Tid, done: bool)
    requires t in m && d in m && m[t].call != []
  {
    && m'.Keys == m.Keys && (forall x :: x in m && x != t && x != d ==> m'[x] == m[x])
    && m'[t].call == m[t].call[1..] && m'[d].rets == m[d].rets + (if done then [t] else [])
    && (done && !m[d].complete ==> m'[d].list == Complete && m'[d].complete && !m'[d].running)
    && (!done || m[d].complete ==>
          m'[d].list == m[d].list && m'[d].complete == m[d].complete && m'[d].running == m[d].running)
    && m'[d].depCnt == m[d].depCnt && m'[t].deps == m[t].deps
    && (if t == d then m'[d].refcnt == m[d].refcnt - if done then 0 else 1
        else
          && m'[t] == m[t].(call := m'[t].call, refcnt := m[t].refcnt + if done then 1 else 0)
          && m'[d].refcnt == m[d].refcnt - 1 && m'[d].deps == m[d].deps && m'[d].call == m[d].call)
  }

  lemma DoesLink(m: Tasks, t: Tid, d: Tid)
    requires t in m && d in m
    ensures Linking(m, Waits(m, t, d), t, d)
  {
    WaitsIs(m, t, d);
    hide Waits;
  }

  lemma OffIs(m: Tasks, t: Tid, d: Tid)
    requires t in m && d in m && m[t].deps != [] && m[d].depCnt > 0
    ensures var m' := CountedDown(Unlinked(Deps, m, t), d);
            && m'.Keys == m.Keys && (forall x :: x in m && x != t && x != d ==> m'[x] == m[x])
            && m'[t] == m[t].(deps := m[t].deps[1..], depCnt := m'[t].depCnt)
            && m'[d] == m[d].(depCnt := m[d].depCnt - 1, deps := m'[d].deps)
            && (t != d ==> m'[t].depCnt == m[t].depCnt && m'[d].deps == m[d].deps)
  {
  }

  lemma AttachIs(m: Tasks, t: Tid, d: Tid)
    requires t in m && d in m && m[d].refcnt > 0
    ensures var m' := Attached(m, t, d);
            && m'.Keys == m.Keys && (forall x :: x in m && x != t && x != d ==> m'[x] == m[x])
            && m'[d] == m[d].(rets := m[d].rets + [t], refcnt := m'[d].refcnt)
            && (if t == d then m'[d].refcnt == m[d].refcnt
                else m'[d].refcnt == m[d].refcnt - 1 && m'[t] == m[t].(refcnt := m[t].refcnt + 1))
  {
  }

  lemma DoesNext(m: Tasks, t: Tid, m': Tasks, callback: bool)
    requires t in m && m[t].deps != [] && m[t].deps[0] in m
    requires var d := m[t].deps[0];
             && m[d].depCnt > 0 && m[d].refcnt > 0 && callback == (m[d].depCnt == 1 && m[d].running)
             && var m1 := CountedDown(Unlinked(Deps, m, t), d);
             m' == if callback then Linked(Call, m1, t, d) else Attached(m1, t, d)
    ensures Counting(m, m', t, m[t].deps[0])
  {
    hide CountedDown, Unlinked, Attached;
    var d := m[t].deps[0];
    OffIs(m, t, d);
    AttachIs(CountedDown(Unlinked(Deps, m, t), d), t, d);
  }

  lemma CallOff(m: Tasks, t: Tid, d: Tid)
    requires t in m && d in m && m[t].call != []
    ensures var m1 := Unlinked(Call, m, t); var m' := Completed(m1, d);
            && m1 == m[t := m[t].(call := m[t].call[1..])]
            && m' == if m[d].complete then m1
                     else m1[d := m1[d].(running := false, complete := true, list := Complete)]
  {
  }

  lemma ResumeDone(m: Tasks, t: Tid, d: Tid)
    requires t in m && m[t].call != [] && m[t].call[0] == d && d in m && m[d].refcnt > 0
    ensures Resuming(m, Attached(Completed(Unlinked(Call, m, t), d), t, d), t, d, true)
  {
    hide Unlinked, Completed, Attached;
    CallOff(m, t, d);
    AttachIs(Completed(Unlinked(Call, m, t), d), t, d);
  }

  lemma ResumePut(m: Tasks, t: Tid, d: Tid)
    requires t in m && m[t].call != [] && m[t].call[0] == d && d in m && m[d].refcnt > 0
    ensures Resuming(m, Unbumped(Unlinked(Call, m, t), d), t, d, false)
  {
    hide Unlinked, Completed;
    CallOff(m, t, d);
  }

  lemma DoesResume(m: Tasks, t: Tid, m': Tasks, done: bool)
    requires t in m && m[t].call != [] && m[t].call[0] in m
    requires var d := m[t].call[0];
             && m[d].refcnt > 0
             && var m1 := Unlinked(Call, m, t);
             m' == if done then Attached(Completed(m1, d), t, d) else Unbumped(m1, d)
    ensures Resuming(m, m', t, m[t].call[0], done)
  {
    hide Unlinked, Completed, Attached, Unbumped, Resuming;
    var d := m[t].call[0];
    if done { ResumeDone(m, t, d); } else { ResumePut(m, t, d); }
  }

  // ---------------------------------------------------------------------------
  // Stranded tasks
  // ---------------------------------------------------------------------------

  /** The task whose last reference the event lets go unnoticed: a dropped one, let go by the
      loop over dependents. */
  ghost function Leaking(m: Tasks, e: Event): set<Tid> {
    match e
    case Next(t) => if t in m && m[t].deps != [] then LastLink(m, m[t].deps[0]) else {}
    case Resume(t, _) => if t in m && m[t].call != [] then LastLink(m, m[t].call[0]) else {}
    case _ => {}
  }

  ghost function LastLink(m: Tasks, d: Tid): set<Tid> {
    if d in m && m[d].list.Dropped? && m[d].refcnt == 1 then {d} else {}
  }

  /** The task the event completes, or has wait, too early: before all that it waits for was
      processed. */
  ghost function Hasty(m: Tasks, e: Event): set<Tid> {
    match e
    case LinkUp(t, _) => if t in m && m[t].complete then {t} else {}
    case FinishEnd(t, done) =>
      if done && t in m && !m[t].complete && (m[t].depCnt > 0 || t in Flat(Call, m)) then {t} else {}
    case Resume(t, done) =>
      if done && t in m && m[t].call != [] then
        var d, m1 := m[t].call[0], Unlinked(Call, m, t);
        if d in m && !m[d].complete && (m[d].depCnt > 0 || d in Flat(Call, m1)) then {d} else {}
      else {}
    case _ => {}
  }

  /** The dependency the event registers, unless its task is already about to start. */
  ghost function Needing(m: Tasks, e: Event): set<(Tid, Tid)> {
    if e.LinkUp? && e.t in m && !m[e.t].list.Picked? then {(e.t, e.d)} else {}
  }

  ghost predicate ZeroStuck(m: Tasks) {
    forall x :: x in m && m[x].refcnt == 0 ==> Stuck(m[x]) && m[x].depCnt == 0
  }

  lemma ZeroIsStuck(s: State)
    requires Inv(s, {}) && s.owed == multiset{}
    ensures ZeroStuck(s.tasks)
  {
    hide Inv, Flat;
    forall x | x in s.tasks && s.tasks[x].refcnt == 0
      ensures Stuck(s.tasks[x]) && s.tasks[x].depCnt == 0 { Facts(s, {}, x); }
  }

  /** What an event does to tasks without references and to stuck ones: the first stay as they
      are, unless a link to one is still under way; the others stay stuck and keep their
      results; and the only task to lose its last reference and stay is the leaking one. */
  ghost predicate Effect(m: Tasks, m': Tasks, e: Event) {
    && (forall x :: x in m && Stuck(m[x]) ==> x in m' && Stuck(m'[x]) && m[x].rets <= m'[x].rets)
    && (forall x :: x in m && m[x].refcnt == 0 && !(e.LinkUp? && e.t == x) ==> x in m' && m'[x] == m[x])
    && (forall x :: x in m' && m'[x].refcnt == 0 ==> (x in m && m[x].refcnt == 0) || x in Leaking(m, e))
    && (forall x :: x in Leaking(m, e) ==> x in m && m[x].refcnt == 1 && x in m' && m'[x].refcnt == 0)
  }

  lemma EffectSame(m: Tasks, e: Event)
    requires Leaking(m, e) == {}
    ensures Effect(m, m, e)
  {
  }

  /** A task that is not stuck changes and keeps a reference. */
  lemma EffectOne(m: Tasks, x: Tid, t: Task, e: Event)
    requires ZeroStuck(m) && Leaking(m, e) == {} && (x in m ==> !Stuck(m[x])) && t.refcnt > 0
    ensures Effect(m, m[x := t], e)
  {
  }

  /** Tasks that are not stuck change lists. */
  lemma EffectLists(m: Tasks, m': Tasks, e: Event)
    requires ZeroStuck(m) && Leaking(m, e) == {} && m'.Keys == m.Keys
    requires forall x :: x in m ==> m'[x] == m[x] || (!m[x].list.Dropped? && m'[x] == m[x].(list := m'[x].list))
    ensures Effect(m, m', e)
  {
  }

  lemma EffectShed(m: Tasks, m': Tasks, e: Event)
    requires ZeroStuck(m) && Leaking(m, e) == {} && Shed(m, m', {})
    ensures Effect(m, m', e)
  {
  }

  /** A posted task is dropped, and what has no references left is freed. */
  lemma EffectDrop(m: Tasks, m': Tasks, t: Tid, e: Event)
    requires ZeroStuck(m) && Leaking(m, e) == {} && t in m && m[t].list.Posted? && m[t].refcnt > 0
    requires Shed(m[t := m[t].(list := Dropped)], m', {})
    ensures Effect(m, m', e)
  {
    var m1 := m[t := m[t].(list := Dropped)];
    forall x | x in m && Stuck(m[x]) ensures x in m' && m'[x] == m[x] { assert m1[x] == m[x]; }
    forall x | x in m' && m'[x].refcnt == 0 ensures x in m && m[x].refcnt == 0 { assert x in m1; }
  }

  lemma EffectLink(m: Tasks, t: Tid, d: Tid, e: Event)
    requires ZeroStuck(m) && t in m && d in m && !m[d].list.Dropped? && e == LinkUp(t, d)
    ensures Effect(m, Waits(m, t, d), e)
  {
    WaitsIs(m, t, d);
    hide Waits;
    var m' := Waits(m, t, d);
    forall x | x in m && x != t && x != d ensures m'[x] == m[x] {}
    assert m'[t].list == m[t].list && m'[t].refcnt == m[t].refcnt + 1 && m'[t].depCnt == m[t].depCnt + 1 &&
           m'[t].rets == m[t].rets;
    assert d != t ==> m'[d] == m[d].(deps := m[d].deps + [t]);
  }

  /** The loop over dependents lets go of `d`. */
  lemma EffectNext(m: Tasks, t: Tid, m': Tasks, callback: bool, e: Event)
    requires ZeroStuck(m) && e == Next(t) && t in m && m[t].list.Popped? && m[t].refcnt > 0 && m[t].deps != []
    requires var d := m[t].deps[0];
             && d in m && m[d].depCnt > 0 && m[d].refcnt > 0 && (!m[d].list.Dropped? ==> m[d].refcnt > 1)
             && (m[d].list.Dropped? ==> !m[d].running)
             && callback == (m[d].depCnt == 1 && m[d].running)
             && var m1 := CountedDown(Unlinked(Deps, m, t), d); m' == if callback then Linked(Call, m1, t, d)
               else Attached(m1, t, d)
    ensures Effect(m, m', e)
  {
    var d := m[t].deps[0];
    NextIs(m, t, d, callback);
    hide CountedDown, Unlinked, Linked, Attached;
    var before := m[d];
    forall x | x in m && x != t && x != d ensures x in m' && m'[x] == m[x] {}
  }

  /** What becomes of the two tasks of a link. */
  lemma NextIs(m: Tasks, t: Tid, d: Tid, callback: bool)
    requires t in m && d in m && m[t].deps != [] && m[t].deps[0] == d && m[d].depCnt > 0 && m[d].refcnt > 0
    ensures var m1 := CountedDown(Unlinked(Deps, m, t), d); var m' := if callback then Linked(Call, m1, t, d)
            else Attached(m1, t, d);
            && m'.Keys == m.Keys && (forall x :: x in m && x != t && x != d ==> m'[x] == m[x])
            && m'[t].list == m[t].list && m'[d].list == m[d].list && m'[d].depCnt == m[d].depCnt - 1
            && (t != d ==>
                  && m'[t].refcnt == m[t].refcnt + (if callback then 0 else 1)
                  && m'[t].rets == m[t].rets && m'[t].depCnt == m[t].depCnt)
            && m'[d].refcnt == m[d].refcnt - (if callback || t == d then 0 else 1)
            && m'[d].rets == m[d].rets + (if callback then [] else [t])
  {
    hide CountedDown, Unlinked, Attached;
    OffIs(m, t, d);
    AttachIs(CountedDown(Unlinked(Deps, m, t), d), t, d);
  }

  /** The loop over dependents goes on after a callback of `d`. */
  lemma EffectResume(m: Tasks, t: Tid, done: bool, m': Tasks, e: Event)
    requires ZeroStuck(m) && e == Resume(t, done) && t in m && m[t].list.Popped? && m[t].refcnt > 0 && m[t].call != []
    requires var d := m[t].call[0];
             && d in m && m[d].refcnt > 0 && (!m[d].list.Dropped? ==> m[d].refcnt > 1) && !Stuck(m[d]) &&
               (m[d].list.Dropped? ==> m[d].complete)
             && var m1 := Unlinked(Call, m, t); m' == if done then Attached(Completed(m1, d), t, d) else Unbumped(m1, d)
    ensures Effect(m, m', e)
  {
    var d := m[t].call[0];
    ResumeIs(m, t, d, done);
    hide Unlinked, Completed, Attached, Unbumped;
  }

  lemma ResumeIs(m: Tasks, t: Tid, d: Tid, done: bool)
    requires t in m && d in m && m[t].call != [] && m[d].refcnt > 0
    ensures var m1 := Unlinked(Call, m, t); var m' := if done then Attached(Completed(m1, d), t, d)
            else Unbumped(m1, d);
            && m'.Keys == m.Keys && (forall x :: x in m && x != t && x != d ==> m'[x] == m[x])
            && (t != d ==> m'[t].refcnt == m[t].refcnt + (if done then 1 else 0) && m'[t].list == m[t].list)
            && m'[d].refcnt == m[d].refcnt - (if done && t == d then 0 else 1)
  {
    hide Unlinked, Completed, Attached;
    CallOff(m, t, d);
    AttachIs(Completed(Unlinked(Call, m, t), d), t, d);
  }
}
