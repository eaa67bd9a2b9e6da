/** The task scheduler engine.  Each method is what one thread does in one access to the
    scheduler: all it does while it has the lock, or one look without it.  User code (bodies
    and callbacks) and other threads run in between. */
module Tse {
  import opened TseTask
  import opened TseEvent

  datatype Rc = Ok | NoPerm | Inval

  class Sched {
    var tasks: Tasks
    var inflight: int
    /** references on some thread's stack */
    var held: multiset<Tid>
    /** dependencies some thread has looked at and is about to link */
    var checked: multiset<(Tid, Tid)>
    /** tasks some thread is about to complete */
    var finishing: multiset<Tid>
    var next: Tid
    ghost var owed: multiset<Tid>
    ghost var needs: set<(Tid, Tid)>
    ghost var early: set<Tid>

    ghost function V(): State
      reads this
    {
      State(tasks, next, inflight, held, owed, needs, early)
    }

    ghost predicate Valid()
      reads this
    {
      Inv(V(), {}) && owed == multiset{}
    }

    constructor ()
      ensures Valid() && tasks == map[] && held == multiset{} && checked == multiset{} && needs == {} && early == {}
    {
      tasks, inflight, held, next := map[], 0, multiset{}, 0;
      checked, finishing := multiset{}, multiset{};
      owed, needs, early := multiset{}, {}, {};
      new;
      assert Flying(tasks) == {};
    }

    // -------------------------------------------------------------------------
    // References and counts
    // -------------------------------------------------------------------------

    method AddRef(t: Tid, ghost dying: set<Tid>)
      requires Inv(V(), dying) && t in tasks
      modifies this`tasks, this`held
      ensures Inv(V(), dying)
      ensures tasks == Bumped(old(tasks), t) && held == old(held) + multiset{t}
    {
      hide Inv, Flat, Refs, Flags, Flying;
      ghost var v := V();
      Facts(v, dying, t);
      tasks := tasks[t := tasks[t].(refcnt := tasks[t].refcnt + 1)];
      held := held + multiset{t};
      CountOnly(v, V(), t, dying, dying);
    }

    /** Drop a reference from the stack without looking at what is left. */
    method DecRefLocked(t: Tid, ghost dying: set<Tid>)
      requires Inv(V(), dying) && t in tasks && t in held
      requires tasks[t].refcnt > 1 || t in early || t in dying
      modifies this`tasks, this`held
      ensures old(tasks[t]).refcnt > 0
      ensures tasks == Unbumped(old(tasks), t) && held == old(held) - multiset{t}
      ensures Inv(V(), dying)
    {
      hide Inv, Flat, Refs, Flags, Flying;
      ghost var v := V();
      Facts(v, dying, t);
      tasks := tasks[t := tasks[t].(refcnt := tasks[t].refcnt - 1)];
      held := held - multiset{t};
      CountOnly(v, V(), t, dying, dying);
    }

    /** Count one task less to wait for. */
    method CountDown(t: Tid, ghost dying: set<Tid>)
      requires Inv(V(), dying) && t in tasks && t in owed
      modifies this`tasks, this`owed
      ensures old(tasks[t]).depCnt > 0
      ensures tasks == CountedDown(old(tasks), t) && owed == old(owed) - multiset{t}
      ensures Inv(V(), dying)
    {
      hide Inv, Flat, Refs, Flags, Flying, KeepsNeeds;
      ghost var v := V();
      Facts(v, dying, t);
      tasks := tasks[t := tasks[t].(depCnt := tasks[t].depCnt - 1)];
      owed := owed - multiset{t};
      CountOnly(v, V(), t, dying, dying);
    }

    method Link(k: Kind, x: Tid, y: Tid, ghost dying: set<Tid>)
      requires Inv(V(), dying) && x in tasks && y in held && k != Deps
      requires k == Call ==> tasks[x].list.Popped? && tasks[x].call == [] && y in tasks && !tasks[y].complete
      modifies this`tasks, this`held
      ensures Inv(V(), dying)
      ensures tasks == Linked(k, old(tasks), x, y) && held == old(held) - multiset{y}
    {
      hide Inv;
      ghost var v := V();
      tasks := tasks[x := SetLinks(k, tasks[x], Links(k, tasks[x]) + [y])];
      held := held - multiset{y};
      LinkAdded(k, v, V(), x, y, dying);
    }

    method Unlink(k: Kind, x: Tid, ghost dying: set<Tid>) returns (y: Tid)
      requires Inv(V(), dying) && x in tasks && Links(k, tasks[x]) != [] && (k == Deps ==> tasks[x].complete)
      modifies this`tasks, this`held, this`owed
      ensures Inv(V(), dying) && y == Links(k, old(tasks[x]))[0] && y in tasks
      ensures tasks == Unlinked(k, old(tasks), x)
      ensures held == old(held) + multiset{y} && owed == if k == Deps then old(owed) + multiset{y} else old(owed)
    {
      hide Inv;
      ghost var v := V();
      y := Links(k, tasks[x])[0];
      tasks := tasks[x := SetLinks(k, tasks[x], Links(k, tasks[x])[1..])];
      held := held + multiset{y};
      owed := if k == Deps then owed + multiset{y} else owed;
      LinkTaken(k, v, V(), x, dying);
    }

    /** Drop a reference from the stack, and free what has none left: the task, and in turn
        the finished tasks only it still referred to. */
    method DecRef(t: Tid, ghost dying: set<Tid>)
      requires Inv(V(), dying) && owed == multiset{} && t in held && t in tasks
      requires forall x :: x in dying ==> x in tasks && tasks[x].refcnt == 0
      modifies this`tasks, this`held, this`owed
      ensures Inv(V(), dying) && held == old(held) - multiset{t} && owed == old(owed)
      ensures Shed(old(tasks), tasks, dying)
      ensures if old(tasks[t]).refcnt > 1 then tasks == Unbumped(old(tasks), t) else t !in tasks
      ensures |Flat(Rets, tasks)| <= |Flat(Rets, old(tasks))|
      decreases |Flat(Rets, tasks)|, 1
    {
      hide Inv, Flat, Refs, Flags, Shed;
      ghost var m := tasks;
      Facts(V(), dying, t);
      HeldNotStuck(V(), dying, t);
      MoreDying(V(), dying, t);
      FewerRets(tasks, t, tasks[t].(refcnt := tasks[t].refcnt - 1));
      DecRefLocked(t, dying + {t});
      ShedOne(m, tasks, dying, t, tasks[t].refcnt);
      if tasks[t].refcnt != 0 {
        NotDying(V(), dying, t);
        return;
      }
      Free(t, dying);
      ShedEnd(m, tasks, dying, t);
    }

    /** Free a task that has no references left. */
    method Free(t: Tid, ghost dying: set<Tid>)
      requires Inv(V(), dying + {t}) && owed == multiset{} && t in tasks && tasks[t].refcnt == 0 && t !in dying
      requires forall x :: x in dying ==> x in tasks && tasks[x].refcnt == 0
      modifies this`tasks, this`held, this`owed
      ensures Inv(V(), dying) && held == old(held) && owed == old(owed)
      ensures Shed(old(tasks) - {t}, tasks, dying) && t !in tasks && old(tasks[t]).list.Dropped?
      ensures |Flat(Rets, tasks)| <= |Flat(Rets, old(tasks))|
      decreases |Flat(Rets, tasks)|, 0
    {
      hide Inv, Flat, Refs, Flags, Shed;
      ghost var all, m: Tasks, n := dying + {t}, tasks, |Flat(Rets, tasks)|;
      Unreferenced(V(), all, t);
      ShedNone(m - {t}, dying);
      while tasks[t].rets != []
        invariant t in tasks && Inv(V(), all) && held == old(held) && owed == old(owed)
        invariant tasks[t] == m[t].(rets := tasks[t].rets)
        invariant Shed(m - {t}, tasks - {t}, dying)
        invariant forall x :: x in all ==> x in tasks && tasks[x].refcnt == 0
        invariant |Flat(Rets, tasks)| <= n
        decreases |tasks[t].rets|
      {
        var r := UnlinkRet(t, all);
        ghost var m1 := tasks;
        DecRef(r, all);
        ShedBut(m1, tasks, dying, t);
        KeptAre(m1, tasks, all);
        ShedMore(m - {t}, m1 - {t}, tasks - {t}, dying);
      }
      RetsDel(tasks, t);
      ghost var v := V();
      tasks := tasks - {t};
      Freed(v, V(), t, dying);
    }

    method UnlinkRet(t: Tid, ghost all: set<Tid>) returns (r: Tid)
      requires Inv(V(), all) && t in all && t in tasks && tasks[t].rets != []
      requires forall x :: x in all ==> x in tasks && tasks[x].refcnt == 0
      modifies this`tasks, this`held, this`owed
      ensures Inv(V(), all) && r in tasks && held == old(held) + multiset{r} && owed == old(owed)
      ensures tasks == Unlinked(Rets, old(tasks), t) && tasks - {t} == old(tasks) - {t}
      ensures forall x :: x in all ==> x in tasks && tasks[x].refcnt == 0
      ensures |Flat(Rets, tasks)| < |Flat(Rets, old(tasks))|
    {
      hide Inv, Flat;
      FewerRets(tasks, t, tasks[t].(rets := tasks[t].rets[1..]));
      r := Unlink(Rets, t, all);
    }

    // -------------------------------------------------------------------------
    // What user code calls
    // -------------------------------------------------------------------------

    method TaskInit(func: bool) returns (t: Tid)
      requires Valid()
      modifies this`tasks, this`next
      ensures Valid() && t !in old(tasks) && tasks == old(tasks)[t := Task(func, 1, 0, false, false, Fresh, [], [], [])]
    {
      hide Flat;
      ghost var v := V();
      assert next !in tasks;
      t := next;
      tasks := tasks[t := Task(func, 1, 0, false, false, Fresh, [], [], [])];
      next := next + 1;
      NewTask(v, V(), tasks[t]);
    }

    /** Look, without the lock, whether `task` can be made to wait for `dep`: `go` if the link
        is to be made. */
    method CheckDepend(task: Tid, dep: Tid) returns (rc: Rc, go: bool)
      requires Valid() && task in tasks && dep in tasks
      modifies this`checked
      ensures Valid() && rc == (if tasks[task].complete then NoPerm else Ok)
      ensures go == (!tasks[task].complete && !tasks[dep].complete)
      ensures checked == if go then old(checked) + multiset{(task, dep)} else old(checked)
    {
      hide Inv;
      go := false;
      if tasks[task].complete {
        return NoPerm, false;
      }
      if tasks[dep].complete {
        return Ok, false;
      }
      checked := checked + multiset{(task, dep)};
      return Ok, true;
    }

    /** Make the link, with the lock.  Meanwhile both tasks may have completed; that does no
        harm exactly if what `dep` holds back is still to be processed. */
    method LinkDepend(task: Tid, dep: Tid)
      requires Valid() && task in tasks && dep in tasks && (task, dep) in checked
      modifies this`tasks, this`checked, this`needs, this`early
      ensures Valid() <==> Unprocessed(old(tasks[dep]))
      ensures tasks == Waits(old(tasks), task, dep) && checked == old(checked) - multiset{(task, dep)}
      ensures needs == old(needs) + Needing(old(tasks), LinkUp(task, dep))
      ensures early == old(early) + if old(tasks[task]).complete then {task} else {}
    {
      hide Inv, Flat, Waits;
      ghost var v := V();
      tasks := tasks[task := tasks[task].(refcnt := tasks[task].refcnt + 1)];
      tasks := tasks[dep := tasks[dep].(deps := tasks[dep].deps + [task])];
      tasks := tasks[task := tasks[task].(depCnt := tasks[task].depCnt + 1)];
      WaitsOrder(v.tasks, tasks, task, dep);
      checked := checked - multiset{(task, dep)};
      early := early + if v.tasks[task].complete then {task} else {};
      needs := needs + Needing(v.tasks, LinkUp(task, dep));
      LinkInv(v, V(), task, dep);
    }

    /** Hand a task to the scheduler.  A task without a body, or one to be run at once, goes
        straight to the running list; with `ready` its body is called next. */
    method Schedule(t: Tid, ready: bool) returns (rc: Rc)
      requires Valid() && t in tasks && tasks[t].list.Fresh?
      modifies this`tasks, this`held, this`inflight
      ensures Valid() && rc == if ready && !old(tasks[t]).func then Inval else Ok
      ensures rc != Ok ==> tasks == old(tasks) && held == old(held)
      ensures rc == Ok && !ready && old(tasks[t]).func ==>
                tasks == old(tasks)[t := old(tasks[t]).(list := Init)] && held == old(held)
      ensures rc == Ok && (ready || !old(tasks[t]).func) ==>
                var m := old(tasks)[t := old(tasks[t]).(list := Running, running := true)];
                && tasks == (if ready then Bumped(m, t) else m)
                && held == old(held) + (if ready then multiset{t} else multiset{})
    {
      hide Inv, Flat, Refs, Done;
      if ready && !tasks[t].func {
        return Inval;
      }
      ghost var v := V();
      Facts(v, {}, t);
      if !tasks[t].func || ready {
        inflight := inflight + 1;
        tasks := tasks[t := tasks[t].(running := true, list := Running)];
        ListMoved(v, V(), t, {});
        if ready {
          AddRef(t, {});
        }
      } else {
        tasks := tasks[t := tasks[t].(list := Init)];
        ListMoved(v, V(), t, {});
      }
      rc := Ok;
    }

    /** Give up the extra reference a task has while its body or preparation runs. */
    method Return(t: Tid)
      requires Valid() && t in tasks && t in held
      modifies this`tasks, this`held, this`owed
      ensures Valid() && held == old(held) - multiset{t} && Shed(old(tasks), tasks, {})
      ensures if old(tasks[t]).refcnt > 1 then tasks == Unbumped(old(tasks), t) else t !in tasks
    {
      hide Inv, Flat;
      DecRef(t, {});
    }

    /** Put a running task back on the init list. */
    method Reinit(t: Tid) returns (rc: Rc)
      requires Valid() && t in tasks
      modifies this`tasks, this`inflight
      ensures Valid()
      ensures rc == if old(tasks[t]).complete || !old(tasks[t]).running then NoPerm
              else if !old(tasks[t]).func then Inval else Ok
      ensures tasks == if rc == Ok then old(tasks)[t := old(tasks[t]).(running := false, list := Init)] else old(tasks)
    {
      hide Inv, Flat, Refs, Done;
      if tasks[t].complete {
        return NoPerm;
      }
      if !tasks[t].running {
        return NoPerm;
      }
      if !tasks[t].func {
        return Inval;
      }
      ghost var v := V();
      Facts(v, {}, t);
      tasks := tasks[t := tasks[t].(running := false, complete := false, list := Init)];
      inflight := inflight - 1;
      ListMoved(v, V(), t, {});
      rc := Ok;
    }

    /** Mark a task complete, its completion callbacks having run. */
    method CompleteLocked(t: Tid, ghost dying: set<Tid>)
      requires Inv(V(), dying) && t in tasks && (tasks[t].running || tasks[t].complete)
      modifies this`tasks, this`early
      ensures Inv(V(), dying) && old(early) <= early
      ensures tasks == Completed(old(tasks), t)
      ensures early == if old(tasks[t]).complete || (old(tasks[t]).depCnt == 0 && t !in Flat(Call, old(tasks)))
              then old(early)
                       else old(early) + {t}
    {
      hide Inv, Flat, Refs, Done;
      if tasks[t].complete {
        return;
      }
      ghost var v := V();
      Facts(v, dying, t);
      tasks := tasks[t := tasks[t].(running := false, complete := true, list := Complete)];
      if tasks[t].depCnt > 0 || t in Flat(Call, v.tasks) {
        early := early + {t};
      }
      ListMoved(v, V(), t, dying);
    }

    /** Look, without the lock, whether a task is there to be completed: `go` if its
        completion callbacks are to be run. */
    method BeginComplete(t: Tid) returns (go: bool)
      requires Valid() && t in tasks
      modifies this`finishing
      ensures Valid() && go == (tasks[t].running && !tasks[t].complete)
      ensures finishing == if go then old(finishing) + multiset{t} else old(finishing)
    {
      hide Inv;
      if !tasks[t].running || tasks[t].complete {
        return false;
      }
      finishing := finishing + multiset{t};
      go := true;
    }

    /** Complete a task after its callbacks, with the lock; `done` unless one of them put the
        task back on the init list. */
    method EndComplete(t: Tid, done: bool)
      requires Valid() && t in tasks && t in finishing && (done ==> tasks[t].running || tasks[t].complete)
      modifies this`tasks, this`finishing, this`early
      ensures Valid() && finishing == old(finishing) - multiset{t}
      ensures tasks == if done then Completed(old(tasks), t) else old(tasks)
      ensures early == old(early) + Hasty(old(tasks), FinishEnd(t, done))
    {
      hide Inv, Flat, Refs;
      finishing := finishing - multiset{t};
      if done {
        CompleteLocked(t, {});
      }
    }

    // -------------------------------------------------------------------------
    // The init list
    // -------------------------------------------------------------------------

    /** Take every task without dependencies from the init list. */
    method Pick()
      requires Valid()
      modifies this`tasks, this`inflight
      ensures Valid() && tasks == Picking(old(tasks), {})
      ensures tasks.Keys == old(tasks).Keys
      ensures forall x :: x in tasks ==>
                var was := old(tasks)[x];
                tasks[x] == if was.list.Init? && was.depCnt == 0 then was.(list := Picked) else was
    {
      hide Inv, Flat;
      ghost var m := tasks;
      var todo := tasks.Keys;
      while todo != {}
        invariant Valid() && todo <= m.Keys && tasks == Picking(m, todo)
        decreases |todo|
      {
        var t :| t in todo;
        todo := todo - {t};
        if tasks[t].list.Init? && tasks[t].depCnt == 0 {
          PickOne(t);
        }
      }
    }

    method PickOne(t: Tid)
      requires Valid() && t in tasks && tasks[t].list.Init? && tasks[t].depCnt == 0
      modifies this`tasks, this`inflight
      ensures Valid() && tasks == old(tasks)[t := old(tasks[t]).(list := Picked)]
    {
      hide Inv, Flat, Refs, Done;
      ghost var v := V();
      Facts(v, {}, t);
      NoDeps(v, t);
      tasks := tasks[t := tasks[t].(list := Picked)];
      inflight := inflight + 1;
      ListMoved(v, V(), t, {});
    }

    /** Start a task: what it was to wait for has completed. */
    method Start(t: Tid)
      requires Valid() && t in tasks && tasks[t].list.Picked?
      modifies this`tasks, this`held
      ensures Valid() && held == old(held) + multiset{t}
      ensures tasks == Bumped(old(tasks)[t := old(tasks[t]).(running := true, list := Running)], t)
      ensures forall d: Tid :: (t, d) in needs ==> Done(tasks, next, d)
    {
      hide Inv, Flat, Refs;
      ghost var v := V();
      Facts(v, {}, t);
      MetNeeds(v, t);
      tasks := tasks[t := tasks[t].(running := true, list := Running)];
      ListMoved(v, V(), t, {});
      AddRef(t, {});
    }

    // -------------------------------------------------------------------------
    // The complete list
    // -------------------------------------------------------------------------

    /** Take all completed tasks over for processing. */
    method Splice()
      requires Valid()
      modifies this`tasks
      ensures Valid() && tasks == Splicing(old(tasks), {})
      ensures tasks.Keys == old(tasks).Keys
      ensures forall x :: x in tasks ==>
                tasks[x] == if old(tasks)[x].list.Complete? then old(tasks)[x].(list := Popped) else old(tasks)[x]
    {
      hide Inv, Flat;
      ghost var m := tasks;
      var todo := tasks.Keys;
      while todo != {}
        invariant Valid() && todo <= m.Keys && tasks == Splicing(m, todo)
        decreases |todo|
      {
        var t :| t in todo;
        todo := todo - {t};
        if tasks[t].list.Complete? {
          SpliceOne(t);
        }
      }
    }

    method SpliceOne(t: Tid)
      requires Valid() && t in tasks && tasks[t].list.Complete?
      modifies this`tasks
      ensures Valid() && tasks == old(tasks)[t := old(tasks[t]).(list := Popped)]
    {
      hide Inv, Flat, Refs, Done;
      ghost var v := V();
      Facts(v, {}, t);
      tasks := tasks[t := tasks[t].(list := Popped)];
      ListMoved(v, V(), t, {});
    }

    /** Keep finished task `t` as a result of `d`, and let go of the link to `d`. */
    method Attach(t: Tid, d: Tid)
      requires Inv(V(), {}) && t in tasks && d in tasks && d in held && (tasks[d].list.Dropped? ==> d in early)
      modifies this`tasks, this`held, this`owed
      ensures Inv(V(), {}) && held == old(held) - multiset{d} && owed == old(owed)
      ensures tasks == Attached(old(tasks), t, d)
    {
      hide Inv, Flat, Refs;
      AddRef(t, {});
      Link(Rets, d, t, {});
      Facts(V(), {}, d);
      HeldOne(V(), {}, d);
      DecRefLocked(d, {});
    }

    /** Take the next task that waits for `t` off its list, and count it down. */
    method TakeDependent(t: Tid) returns (d: Tid)
      requires Valid() && t in tasks && tasks[t].deps != [] && tasks[t].complete
      requires tasks[t].deps[0] in tasks && tasks[tasks[t].deps[0]].depCnt > 0
      modifies this`tasks, this`held, this`owed
      ensures Valid() && held == old(held) + multiset{d} && d == old(tasks[t]).deps[0] && d in tasks && t in tasks
      ensures tasks == CountedDown(Unlinked(Deps, old(tasks), t), d)
      ensures tasks[t].list == old(tasks[t]).list && tasks[t].call == old(tasks[t]).call
      ensures var was := old(tasks)[d];
              && tasks[d].depCnt == was.depCnt - 1 && tasks[d].running == was.running
              && tasks[d].complete == was.complete && tasks[d].list == was.list
    {
      hide Inv, Flat, Refs, Unlinked, CountedDown, KeepsNeeds;
      PostedLink(tasks, t, tasks[t].deps[0]);
      d := Unlink(Deps, t, {});
      CountDown(d, {});
    }

    /** Process the next task that waits for `t`.  When `d` waits for nothing else and is
        running, its completion callbacks are run next, without the lock. */
    method PostLink(t: Tid) returns (d: Tid, callback: bool)
      requires Valid() && t in tasks && tasks[t].list.Popped? && tasks[t].deps != [] && tasks[t].call == []
      modifies this`tasks, this`held, this`owed
      ensures Valid() && held == old(held) && d == old(tasks[t]).deps[0] && d in old(tasks)
      ensures callback == (old(tasks)[d].depCnt == 1 && old(tasks)[d].running)
      ensures var m := CountedDown(Unlinked(Deps, old(tasks), t), d);
              tasks == if callback then Linked(Call, m, t, d) else Attached(m, t, d)
    {
      hide Inv, Flat, Refs, Unlinked, CountedDown, Linked, Attached, KeepsNeeds, Links;
      PostFacts(V(), t);
      d := TakeDependent(t);
      if tasks[d].depCnt == 0 && tasks[d].running {
        Link(Call, t, d, {});
        callback := true;
      } else {
        Attach(t, d);
        callback := false;
      }
    }

    /** Go on after the completion callbacks of `d`; `done` unless they put `d` back on the
        init list. */
    method PostCallback(t: Tid, done: bool)
      requires Valid() && t in tasks && tasks[t].call != [] && tasks[t].call[0] in tasks
      requires done ==> tasks[tasks[t].call[0]].running || tasks[tasks[t].call[0]].complete
      modifies this`tasks, this`held, this`owed, this`early
      ensures Valid() && held == old(held) && early == old(early) + Hasty(old(tasks), Resume(t, done))
      ensures var m, d := Unlinked(Call, old(tasks), t), old(tasks[t]).call[0];
              tasks == if done then Attached(Completed(m, d), t, d) else Unbumped(m, d)
    {
      hide Inv, Flat, Refs, Hasty, Unlinked, Completed, Attached, Unbumped, KeepsNeeds, Links;
      ghost var m := tasks;
      CallFacts(V(), t, done);
      var d := Unlink(Call, t, {});
      assert held[d] > 0;
      if !done {
        HeldOne(V(), {}, d);
        DecRefLocked(d, {});
      } else {
        CompleteLocked(d, {});
        CompletedIs(Unlinked(Call, m, t), t, d);
        Attach(t, d);
      }
      assert held == old(held);
    }

    /** All that waited for `t` is processed. */
    method PostEnd(t: Tid)
      requires Valid() && t in tasks && tasks[t].list.Popped? && tasks[t].deps == [] && tasks[t].call == []
      modifies this`tasks, this`inflight
      ensures Valid() && old(inflight) > 0 && inflight == old(inflight) - 1
      ensures tasks == old(tasks)[t := old(tasks[t]).(list := Posted)]
    {
      hide Inv, Flat, Refs, Done;
      ghost var v := V();
      Facts(v, {}, t);
      Airborne(v, t);
      tasks := tasks[t := tasks[t].(list := Posted)];
      inflight := inflight - 1;
      ListMoved(v, V(), t, {});
    }

    /** Drop the reference a task has had since it was made. */
    method Drop(t: Tid)
      requires Valid() && t in tasks && tasks[t].list.Posted?
      modifies this`tasks, this`held, this`owed
      ensures Valid() && held == old(held)
      ensures var m := old(tasks)[t := old(tasks[t]).(list := Dropped)];
              Shed(m, tasks, {}) && if old(tasks[t]).refcnt > 1 then tasks == Unbumped(m, t) else t !in tasks
    {
      hide Inv, Flat, Refs;
      ghost var v := V();
      tasks := tasks[t := tasks[t].(list := Dropped)];
      held := held + multiset{t};
      LeftLists(v, V(), t);
      DecRef(t, {});
      assert held == old(held);
    }

    /** Nothing is scheduled that has not completed. */
    method CheckComplete() returns (completed: bool)
      requires Valid()
      ensures completed <==> inflight == 0 && forall x :: x in tasks ==> !tasks[x].list.Init?
      ensures completed <==> forall x :: x in tasks ==>
              tasks[x].list.Fresh? || tasks[x].list.Posted? || tasks[x].list.Dropped?
    {
      completed := (forall x | x in tasks :: !tasks[x].list.Init?) && inflight == 0;
      Grounded(V());
    }

    // -------------------------------------------------------------------------
    // Runs
    // -------------------------------------------------------------------------

    /** The next event of some thread.  It is skipped if no thread is there to do it, and not
        carried out if it goes wrong. */
    method Step(e: Event) returns (fault: bool)
      requires Valid()
      modifies this
      ensures Valid()
      ensures fault == old(Enabled(tasks, held, checked, finishing, e) && Faulty(tasks, e))
      ensures if old(Enabled(tasks, held, checked, finishing, e)) && !fault
              then Effect(old(tasks), tasks, e) && early == old(early) + Hasty(old(tasks), e)
                   && needs == old(needs) + Needing(old(tasks), e) && Does(old(tasks), tasks, e)
              else Now() == old(Now())
      ensures forall x :: x in old(tasks) && old(tasks)[x].refcnt == 0 && Unchecked(old(checked), x) ==>
                x in tasks && tasks[x] == old(tasks)[x] && Unchecked(checked, x)
    {
      hide Inv, Flat, Shed, Done, Does, Effect, Hasty, Leaking, ZeroStuck, Stuck;
      if !Enabled(tasks, held, checked, finishing, e) {
        return false;
      }
      if Faulty(tasks, e) {
        return true;
      }
      fault := false;
      Take(e);
      ghost var m, c := old(tasks), old(checked);
      forall x | x in m && m[x].refcnt == 0 && Unchecked(c, x)
        ensures x in tasks && tasks[x] == m[x] && Unchecked(checked, x) {
        ZeroStays(m, tasks, c, checked, e, x);
      }
    }

    /** Carry an event out. */
    method Take(e: Event)
      requires Valid() && Enabled(tasks, held, checked, finishing, e) && !Faulty(tasks, e)
      modifies this
      ensures Valid() && Effect(old(tasks), tasks, e) && early == old(early) + Hasty(old(tasks), e)
      ensures needs == old(needs) + Needing(old(tasks), e) && Does(old(tasks), tasks, e)
      ensures forall p :: p in checked ==> p in old(checked) || (p.0 in old(tasks) && !old(tasks)[p.0].complete)
      ensures forall x :: x in old(tasks) && old(tasks)[x].refcnt == 0 ==> old(tasks)[x].complete
    {
      hide Inv, Flat, Done, Does, Effect, Hasty, Leaking, ZeroStuck, Stuck, Shed;
      ZeroIsStuck(V());
      ZeroComplete(V());
      match e {
        case New(func) => TakeNew(func);
        case Check(t, d) => TakeCheck(t, d);
        case LinkUp(t, d) => TakeLink(t, d);
        case Submit(t, ready) => TakeSubmit(t, ready);
        case Back(t) => TakeBack(t);
        case Again(t) => TakeAgain(t);
        case FinishBegin(t) => TakeFinishBegin(t);
        case FinishEnd(t, done) => TakeFinishEnd(t, done);
        case PickAll => TakePick();
        case Begin(t) => TakeBegin(t);
        case SpliceAll => TakeSplice();
        case Next(t) => TakeNext(t);
        case Resume(t, done) => TakeResume(t, done);
        case End(t) => TakeEnd(t);
        case Last(t) => TakeLast(t);
      }
    }

    method TakeNew(func: bool)
      requires Valid() && ZeroStuck(tasks) && Enabled(tasks, held, checked, finishing, New(func)) &&
               !Faulty(tasks, New(func))
      modifies this
      ensures Valid() && Effect(old(tasks), tasks, New(func)) && early == old(early) + Hasty(old(tasks), New(func))
      ensures needs == old(needs) && Does(old(tasks), tasks, New(func))
      ensures checked == old(checked)
    {
      hide Inv, Flat, ZeroStuck, Effect;
      ghost var m := tasks;
      var t := TaskInit(func);
      EffectOne(m, t, tasks[t], New(func));
    }

    method TakeCheck(t: Tid, d: Tid)
      requires Valid() && ZeroStuck(tasks) && Enabled(tasks, held, checked, finishing, Check(t, d)) &&
               !Faulty(tasks, Check(t, d))
      modifies this
      ensures Valid() && Effect(old(tasks), tasks, Check(t, d)) && early == old(early) + Hasty(old(tasks), Check(t, d))
      ensures needs == old(needs) && Does(old(tasks), tasks, Check(t, d))
      ensures forall p :: p in checked ==> p in old(checked) || p == (t, d)
      ensures checked != old(checked) ==> !old(tasks)[t].complete
    {
      hide Inv, Flat, ZeroStuck, Effect;
      EffectSame(tasks, Check(t, d));
      var _, _ := CheckDepend(t, d);
    }

    method TakeLink(t: Tid, d: Tid)
      requires Valid() && ZeroStuck(tasks) && Enabled(tasks, held, checked, finishing, LinkUp(t, d)) &&
               !Faulty(tasks, LinkUp(t, d))
      modifies this
      ensures Valid() && Effect(old(tasks), tasks, LinkUp(t, d)) &&
              early == old(early) + Hasty(old(tasks), LinkUp(t, d))
      ensures needs == old(needs) + Needing(old(tasks), LinkUp(t, d)) && Does(old(tasks), tasks, LinkUp(t, d))
      ensures forall p :: p in checked ==> p in old(checked)
    {
      hide Inv, Flat, ZeroStuck, Effect;
      EffectLink(tasks, t, d, LinkUp(t, d));
      DoesLink(tasks, t, d);
      hide Waits, Linking;
      LinkDepend(t, d);
    }

    method TakeSubmit(t: Tid, ready: bool)
      requires Valid() && ZeroStuck(tasks) && Enabled(tasks, held, checked, finishing, Submit(t, ready)) &&
               !Faulty(tasks, Submit(t, ready))
      modifies this
      ensures Valid() && Effect(old(tasks), tasks, Submit(t, ready)) &&
              early == old(early) + Hasty(old(tasks), Submit(t, ready))
      ensures needs == old(needs) && Does(old(tasks), tasks, Submit(t, ready))
      ensures checked == old(checked)
    {
      hide Inv, Flat, ZeroStuck, Effect, Refs;
      ghost var m, e := tasks, Submit(t, ready);
      Facts(V(), {}, t);
      EffectSame(m, e);
      var rc := Schedule(t, ready);
      if rc == Ok {
        assert tasks == m[t := tasks[t]];
        EffectOne(m, t, tasks[t], e);
      }
    }

    method TakeBack(t: Tid)
      requires Valid() && ZeroStuck(tasks) && Enabled(tasks, held, checked, finishing, Back(t)) &&
               !Faulty(tasks, Back(t))
      modifies this
      ensures Valid() && Effect(old(tasks), tasks, Back(t)) && early == old(early) + Hasty(old(tasks), Back(t))
      ensures needs == old(needs) && Does(old(tasks), tasks, Back(t))
      ensures checked == old(checked)
    {
      hide Inv, Flat, ZeroStuck, Effect, Shed;
      ghost var m := tasks;
      Return(t);
      EffectShed(m, tasks, Back(t));
    }

    method TakeAgain(t: Tid)
      requires Valid() && ZeroStuck(tasks) && Enabled(tasks, held, checked, finishing, Again(t)) &&
               !Faulty(tasks, Again(t))
      modifies this
      ensures Valid() && Effect(old(tasks), tasks, Again(t)) && early == old(early) + Hasty(old(tasks), Again(t))
      ensures needs == old(needs) && Does(old(tasks), tasks, Again(t))
      ensures checked == old(checked)
    {
      hide Inv, Flat, ZeroStuck, Effect, Refs;
      ghost var m := tasks;
      Facts(V(), {}, t);
      EffectSame(m, Again(t));
      var rc := Reinit(t);
      if rc == Ok { EffectOne(m, t, tasks[t], Again(t)); }
    }

    method TakeFinishBegin(t: Tid)
      requires Valid() && ZeroStuck(tasks) && Enabled(tasks, held, checked, finishing, FinishBegin(t)) &&
               !Faulty(tasks, FinishBegin(t))
      modifies this
      ensures Valid() && Effect(old(tasks), tasks, FinishBegin(t)) &&
              early == old(early) + Hasty(old(tasks), FinishBegin(t))
      ensures needs == old(needs) && Does(old(tasks), tasks, FinishBegin(t))
      ensures checked == old(checked)
    {
      hide Inv, Flat, ZeroStuck, Effect;
      EffectSame(tasks, FinishBegin(t));
      var _ := BeginComplete(t);
    }

    method TakeFinishEnd(t: Tid, done: bool)
      requires Valid() && ZeroStuck(tasks) && Enabled(tasks, held, checked, finishing, FinishEnd(t, done)) &&
               !Faulty(tasks, FinishEnd(t, done))
      modifies this
      ensures Valid() && Effect(old(tasks), tasks, FinishEnd(t, done)) &&
              early == old(early) + Hasty(old(tasks), FinishEnd(t, done))
      ensures needs == old(needs) && Does(old(tasks), tasks, FinishEnd(t, done))
      ensures checked == old(checked)
    {
      hide Inv, Flat, ZeroStuck, Effect, Refs;
      ghost var m, e := tasks, FinishEnd(t, done);
      Facts(V(), {}, t);
      EffectSame(m, e);
      EndComplete(t, done);
      if tasks != m { EffectOne(m, t, tasks[t], e); }
    }

    method TakePick()
      requires Valid() && ZeroStuck(tasks) && Enabled(tasks, held, checked, finishing, PickAll) &&
               !Faulty(tasks, PickAll)
      modifies this
      ensures Valid() && Effect(old(tasks), tasks, PickAll) && early == old(early) + Hasty(old(tasks), PickAll)
      ensures needs == old(needs) && Does(old(tasks), tasks, PickAll)
      ensures checked == old(checked)
    {
      hide Inv, Flat, ZeroStuck, Effect;
      ghost var m := tasks;
      Pick();
      EffectLists(m, tasks, PickAll);
    }

    method TakeBegin(t: Tid)
      requires Valid() && ZeroStuck(tasks) && Enabled(tasks, held, checked, finishing, Begin(t)) &&
               !Faulty(tasks, Begin(t))
      modifies this
      ensures Valid() && Effect(old(tasks), tasks, Begin(t)) && early == old(early) + Hasty(old(tasks), Begin(t))
      ensures needs == old(needs) && Does(old(tasks), tasks, Begin(t))
      ensures checked == old(checked)
    {
      hide Inv, Flat, ZeroStuck, Effect;
      ghost var m := tasks;
      Start(t);
      assert tasks == m[t := tasks[t]];
      EffectOne(m, t, tasks[t], Begin(t));
    }

    method TakeSplice()
      requires Valid() && ZeroStuck(tasks) && Enabled(tasks, held, checked, finishing, SpliceAll) &&
               !Faulty(tasks, SpliceAll)
      modifies this
      ensures Valid() && Effect(old(tasks), tasks, SpliceAll) && early == old(early) + Hasty(old(tasks), SpliceAll)
      ensures needs == old(needs) && Does(old(tasks), tasks, SpliceAll)
      ensures checked == old(checked)
    {
      hide Inv, Flat, ZeroStuck, Effect;
      ghost var m := tasks;
      Splice();
      EffectLists(m, tasks, SpliceAll);
    }

    method TakeNext(t: Tid)
      requires Valid() && ZeroStuck(tasks) && Enabled(tasks, held, checked, finishing, Next(t)) &&
               !Faulty(tasks, Next(t))
      modifies this
      ensures Valid() && Effect(old(tasks), tasks, Next(t)) && early == old(early) + Hasty(old(tasks), Next(t))
      ensures needs == old(needs) && Does(old(tasks), tasks, Next(t))
      ensures checked == old(checked)
    {
      hide Inv, Flat, ZeroStuck, Effect, CountedDown, Unlinked, Linked, Attached, Counting;
      ghost var m := tasks;
      NextFacts(V(), t);
      var _, callback := PostLink(t);
      EffectNext(m, t, tasks, callback, Next(t));
      DoesNext(m, t, tasks, callback);
    }

    method TakeResume(t: Tid, done: bool)
      requires Valid() && ZeroStuck(tasks) && Enabled(tasks, held, checked, finishing, Resume(t, done)) &&
               !Faulty(tasks, Resume(t, done))
      modifies this
      ensures Valid() && Effect(old(tasks), tasks, Resume(t, done)) &&
              early == old(early) + Hasty(old(tasks), Resume(t, done))
      ensures needs == old(needs) && Does(old(tasks), tasks, Resume(t, done))
      ensures checked == old(checked)
    {
      hide Inv, Flat, ZeroStuck, Effect, Completed, Unlinked, Unbumped, Attached, Hasty, Resuming;
      ghost var m := tasks;
      ResumeFacts(V(), t);
      PostCallback(t, done);
      EffectResume(m, t, done, tasks, Resume(t, done));
      DoesResume(m, t, tasks, done);
    }

    method TakeEnd(t: Tid)
      requires Valid() && ZeroStuck(tasks) && Enabled(tasks, held, checked, finishing, End(t)) && !Faulty(tasks, End(t))
      modifies this
      ensures Valid() && Effect(old(tasks), tasks, End(t)) && early == old(early) + Hasty(old(tasks), End(t))
      ensures needs == old(needs) && Does(old(tasks), tasks, End(t))
      ensures checked == old(checked)
    {
      hide Inv, Flat, ZeroStuck, Effect, Refs;
      ghost var m := tasks;
      Facts(V(), {}, t);
      PostEnd(t);
      EffectOne(m, t, tasks[t], End(t));
    }

    method TakeLast(t: Tid)
      requires Valid() && ZeroStuck(tasks) && Enabled(tasks, held, checked, finishing, Last(t)) &&
               !Faulty(tasks, Last(t))
      modifies this
      ensures Valid() && Effect(old(tasks), tasks, Last(t)) && early == old(early) + Hasty(old(tasks), Last(t))
      ensures needs == old(needs) && Does(old(tasks), tasks, Last(t))
      ensures checked == old(checked)
    {
      hide Inv, Flat, ZeroStuck, Effect, Refs, Shed;
      ghost var m := tasks;
      Facts(V(), {}, t);
      Drop(t);
      EffectDrop(m, tasks, t, Last(t));
    }

    ghost function Now(): Snap
      reads this
    {
      Snap(V(), checked, finishing)
    }

    /** Any interleaving of threads and of the user code they run, up to the first event that
        goes wrong.  `trail` is what the events find and leave. */
    method Run(es: seq<Event>) returns (n: nat, ghost trail: seq<Snap>)
      requires Valid()
      modifies this
      ensures Valid() && n <= |es| && (n < |es| ==> Faulty(tasks, es[n]))
      ensures |trail| == n + 1 && trail[0] == old(Now()) && trail[n] == Now()
      ensures forall k :: 0 <= k < n ==> Moves(trail[k], trail[k + 1], es[k])
      ensures forall t, d, j, k :: 0 <= j < k < n && Registers(trail[j], es[j], t, d) && Starts(trail[k], es[k], t) ==>
                Done(trail[k].s.tasks, trail[k].s.next, d)
      ensures old(needs) <= needs
      ensures old(early) == {} && (forall k :: 0 <= k < n ==> Hasty(trail[k].s.tasks, es[k]) == {}) ==>
                forall x :: x in tasks ==> tasks[x].refcnt > 0
      ensures forall x :: x in old(tasks) && Stuck(old(tasks)[x]) ==>
                && x in tasks && Stuck(tasks[x])
                && forall r :: r in old(tasks)[x].rets ==> r in tasks
      ensures forall x :: x in old(tasks) && old(tasks)[x].refcnt == 0 && Unchecked(old(checked), x) ==>
                x in tasks && tasks[x] == old(tasks)[x]
    {
      hide Inv, Flat, Does, Effect, Hasty, Needing, Stuck, Faulty, Enabled, Moves, Registers, Starts, Done;
      n, trail := 0, [Now()];
      StuckSame(tasks);
      while n < |es|
        invariant Valid() && n <= |es| && |trail| == n + 1 && trail[0] == old(Now()) && trail[n] == Now()
        invariant forall k :: 0 <= k < n ==> Moves(trail[k], trail[k + 1], es[k])
        invariant forall k :: 0 <= k <= n ==> Inv(trail[k].s, {})
        invariant old(early) == {} && (forall k :: 0 <= k < n ==> Hasty(trail[k].s.tasks, es[k]) == {}) ==> early == {}
        invariant old(needs) <= needs && StillStuck(old(tasks), tasks)
        invariant forall x :: x in old(tasks) && old(tasks)[x].refcnt == 0 && Unchecked(old(checked), x) ==>
                    x in tasks && tasks[x] == old(tasks)[x] && Unchecked(checked, x)
      {
        ghost var was := Now();
        var fault := Step(es[n]);
        if fault {
          break;
        }
        MovesOn(was, Now(), es[n]);
        StuckOn(old(tasks), was.s.tasks, tasks, es[n]);
        trail := trail + [Now()];
        n := n + 1;
      }
      forall t, d, j, k | 0 <= j < k < n && Registers(trail[j], es[j], t, d) && Starts(trail[k], es[k], t)
        ensures Done(trail[k].s.tasks, trail[k].s.next, d)
      {
        StartOrder(trail, es, t, d, j, k);
      }
      NoneStranded(V());
      Pinned(V(), old(tasks));
    }
  }

  // ---------------------------------------------------------------------------
  // Runs
  // ---------------------------------------------------------------------------

  /** The scheduler and what threads are about to do with it. */
  datatype Snap = Snap(s: State, checked: multiset<(Tid, Tid)>, finishing: multiset<Tid>)

  /** The event is carried out. */
  ghost predicate Acts(p: Snap, e: Event) {
    Enabled(p.s.tasks, p.s.held, p.checked, p.finishing, e) && !Faulty(p.s.tasks, e)
  }

  /** What an event does between two points of a run. */
  ghost predicate Moves(p: Snap, q: Snap, e: Event) {
    if Acts(p, e) then
      && Effect(p.s.tasks, q.s.tasks, e) && Does(p.s.tasks, q.s.tasks, e)
      && q.s.early == p.s.early + Hasty(p.s.tasks, e) && q.s.needs == p.s.needs + Needing(p.s.tasks, e)
    else q == p
  }

  /** Task `t` is made to wait for `d`, and is not already about to start. */
  ghost predicate Registers(p: Snap, e: Event, t: Tid, d: Tid) {
    e == LinkUp(t, d) && Acts(p, e) && !p.s.tasks[t].list.Picked?
  }

  /** Task `t`, taken from the init list, starts. */
  ghost predicate Starts(p: Snap, e: Event, t: Tid) {
    e == Begin(t) && Acts(p, e)
  }

  lemma MovesOn(p: Snap, q: Snap, e: Event)
    requires !(Enabled(p.s.tasks, p.s.held, p.checked, p.finishing, e) && Faulty(p.s.tasks, e))
    requires if Enabled(p.s.tasks, p.s.held, p.checked, p.finishing, e)
             then Effect(p.s.tasks, q.s.tasks, e) && q.s.early == p.s.early + Hasty(p.s.tasks, e)
                  && q.s.needs == p.s.needs + Needing(p.s.tasks, e) && Does(p.s.tasks, q.s.tasks, e)
             else q == p
    ensures Moves(p, q, e)
  {
  }

  /** A task starts only after all it was made to wait for has completed. */
  lemma StartOrder(trail: seq<Snap>, es: seq<Event>, t: Tid, d: Tid, j: nat, k: nat)
    requires j < k < |es| && k < |trail| && forall i :: 0 <= i < k ==> Moves(trail[i], trail[i + 1], es[i])
    requires Inv(trail[k].s, {}) && Registers(trail[j], es[j], t, d) && Starts(trail[k], es[k], t)
    ensures Done(trail[k].s.tasks, trail[k].s.next, d)
  {
    hide Inv, Does, Effect, Hasty, Done;
    assert (t, d) in trail[j + 1].s.needs by { assert Moves(trail[j], trail[j + 1], es[j]); }
    NeedsStay(trail, es, (t, d), j + 1, k);
    MetNeeds(trail[k].s, t);
  }

  lemma {:induction false} NeedsStay(trail: seq<Snap>, es: seq<Event>, p: (Tid, Tid), j: nat, k: nat)
    requires j <= k <= |es| && k < |trail| && forall i :: 0 <= i < k ==> Moves(trail[i], trail[i + 1], es[i])
    requires p in trail[j].s.needs
    ensures p in trail[k].s.needs
    decreases k
  {
    hide Does, Effect, Hasty, Needing;
    if j < k {
      NeedsStay(trail, es, p, j, k - 1);
      assert Moves(trail[k - 1], trail[k - 1 + 1], es[k - 1]);
    }
  }

  ghost function Picking(m: Tasks, todo: set<Tid>): Tasks {
    map x | x in m :: if x !in todo && m[x].list.Init? && m[x].depCnt == 0 then m[x].(list := Picked) else m[x]
  }

  ghost function Splicing(m: Tasks, todo: set<Tid>): Tasks {
    map x | x in m :: if x !in todo && m[x].list.Complete? then m[x].(list := Popped) else m[x]
  }

  /** No thread is about to make `x` wait for something. */
  ghost predicate Unchecked(checked: multiset<(Tid, Tid)>, x: Tid) {
    forall d: Tid :: (x, d) !in checked
  }

  lemma ZeroComplete(s: State)
    requires Inv(s, {})
    ensures forall x :: x in s.tasks && s.tasks[x].refcnt == 0 ==> s.tasks[x].complete
  {
    hide Inv, Flat;
    forall x | x in s.tasks && s.tasks[x].refcnt == 0 ensures s.tasks[x].complete { Facts(s, {}, x); }
  }

  lemma ZeroStays(m: Tasks, m': Tasks, c: multiset<(Tid, Tid)>, c': multiset<(Tid, Tid)>, e: Event, x: Tid)
    requires Effect(m, m', e) && x in m && m[x].refcnt == 0 && m[x].complete && Unchecked(c, x)
    requires e.LinkUp? ==> (e.t, e.d) in c
    requires forall p :: p in c' ==> p in c || (p.0 in m && !m[p.0].complete)
    ensures x in m' && m'[x] == m[x] && Unchecked(c', x)
  {
    forall d: Tid ensures (x, d) !in c' { assert (x, d) !in c; }
  }

  lemma NextFacts(s: State, t: Tid)
    requires Inv(s, {}) && t in s.tasks && s.tasks[t].list.Popped? && s.tasks[t].deps != []
    ensures var d := s.tasks[t].deps[0];
            && s.tasks[t].refcnt > 0 && d in s.tasks && s.tasks[d].depCnt > 0 && s.tasks[d].refcnt > 0
            && (!s.tasks[d].list.Dropped? ==> s.tasks[d].refcnt > 1) &&
              (s.tasks[d].list.Dropped? ==> !s.tasks[d].running)
  {
    hide Inv, Flat;
    var d := s.tasks[t].deps[0];
    LinkedExists(Deps, s, {}, t, d);
    PointedAt(Deps, s.tasks, t, d);
    Facts(s, {}, t);
    Facts(s, {}, d);
  }

  /** Before a callback returns: what taking its link off leaves, and what is hasty. */
  lemma CallFacts(s: State, t: Tid, done: bool)
    requires Inv(s, {}) && t in s.tasks && s.tasks[t].call != [] && s.tasks[t].call[0] in s.tasks
    ensures var d, m := s.tasks[t].call[0], Unlinked(Call, s.tasks, t);
            && m.Keys == s.tasks.Keys
            && m[d].running == s.tasks[d].running && m[d].complete == s.tasks[d].complete
            && m[d].depCnt == s.tasks[d].depCnt && m[d].list == s.tasks[d].list
            && Links(Call, s.tasks[t]) == s.tasks[t].call
            && (m[d].list.Dropped? ==> d in s.early)
            && Hasty(s.tasks, Resume(t, done)) ==
               if done && !m[d].complete && (m[d].depCnt > 0 || d in Flat(Call, m)) then {d} else {}
  {
    hide Inv, Flat;
    var d := s.tasks[t].call[0];
    Facts(s, {}, d);
    PointedAt(Call, s.tasks, t, d);
  }

  lemma CompletedIs(m: Tasks, t: Tid, d: Tid)
    requires t in m && d in m
    ensures var m' := Completed(m, d);
            m'.Keys == m.Keys && m'[d].complete && (m'[d].list.Dropped? ==> m'[d] == m[d] && m[d].complete)
  {
  }

  lemma ResumeFacts(s: State, t: Tid)
    requires Inv(s, {}) && s.owed == multiset{} && t in s.tasks && s.tasks[t].call != []
    ensures var d := s.tasks[t].call[0];
            && s.tasks[t].list.Popped? && s.tasks[t].refcnt > 0 && d in s.tasks && s.tasks[d].refcnt > 0
            && (!s.tasks[d].list.Dropped? ==> s.tasks[d].refcnt > 1) && !Stuck(s.tasks[d])
            && (s.tasks[d].list.Dropped? ==> s.tasks[d].complete)
  {
    hide Inv, Flat;
    var d := s.tasks[t].call[0];
    LinkedExists(Call, s, {}, t, d);
    PointedAt(Call, s.tasks, t, d);
    Facts(s, {}, t);
    Facts(s, {}, d);
  }

  /** What was stuck in `m` is stuck in `m'`, with all its results. */
  ghost predicate StillStuck(m: Tasks, m': Tasks) {
    forall x :: x in m && Stuck(m[x]) ==> x in m' && Stuck(m'[x]) && m[x].rets <= m'[x].rets
  }

  lemma StuckSame(m: Tasks)
    ensures StillStuck(m, m)
  {
  }

  lemma StuckOn(m: Tasks, m1: Tasks, m2: Tasks, e: Event)
    requires StillStuck(m, m1) && (m1 == m2 || Effect(m1, m2, e))
    ensures StillStuck(m, m2)
  {
    hide Leaking, Stuck;
  }

  /** A link keeps the invariant exactly if what it waits for is unprocessed. */
  lemma LinkInv(s: State, s': State, t: Tid, d: Tid)
    requires Inv(s, {}) && s.owed == multiset{} && t in s.tasks && d in s.tasks
    requires s' == s.(tasks := Waits(s.tasks, t, d), early := s.early + if s.tasks[t].complete then {t} else {},
                      needs := s.needs + Needing(s.tasks, LinkUp(t, d)))
    ensures Inv(s', {}) <==> Unprocessed(s.tasks[d])
  {
    hide Inv;
    var w := s'.(needs := s.needs);
    assert w.early == if s.tasks[t].complete then s.early + {t} else s.early;
    WaitsInv(s, w, t, d);
    WaitsIs(s.tasks, t, d);
    hide Waits;
    if !Unprocessed(s.tasks[d]) {
      LateBreaks(s', s.tasks, t, d);
    } else if s.tasks[t].list.Picked? {
      assert s' == w;
    } else {
      NewNeed(w, t, d);
    }
  }

  /** Unless some task was completed too early, every task has a reference. */
  lemma NoneStranded(s: State)
    requires Inv(s, {})
    ensures s.early == {} ==> forall x :: x in s.tasks ==> s.tasks[x].refcnt > 0
  {
    hide Inv, Flat;
    forall x | x in s.tasks && s.early == {} ensures s.tasks[x].refcnt > 0 { Facts(s, {}, x); }
  }

  /** The results of a stuck task are never freed either. */
  lemma Pinned(s: State, m: Tasks)
    requires Inv(s, {}) && StillStuck(m, s.tasks)
    ensures forall x :: x in m && Stuck(m[x]) ==>
              && x in s.tasks && Stuck(s.tasks[x])
              && forall r :: r in m[x].rets ==> r in s.tasks
  {
    hide Inv, Stuck;
    forall x, r | x in m && Stuck(m[x]) && r in m[x].rets ensures r in s.tasks {
      LinkedExists(Rets, s, {}, x, r);
    }
  }

  lemma Grounded(s: State)
    requires Inv(s, {})
    ensures s.inflight == 0 <==> forall x :: x in s.tasks ==> !InFlight(s.tasks[x])
  {
    var f := Flying(s.tasks);
    if f == {} {
      forall x | x in s.tasks ensures !InFlight(s.tasks[x]) { assert x !in f; }
    } else {
      var x :| x in f;
      assert x in s.tasks && InFlight(s.tasks[x]);
    }
  }

  // ---------------------------------------------------------------------------
  // Progress
  // ---------------------------------------------------------------------------

  /** No task waits, over any number of links, for itself. */
  ghost predicate Ranked(m: Tasks, rank: Tid -> nat) {
    forall d, t :: d in m && t in m[d].deps ==> rank(d) < rank(t)
  }

  lemma {:induction false} LowestRank(ts: set<Tid>, rank: Tid -> nat) returns (t: Tid)
    requires ts != {}
    ensures t in ts && forall x :: x in ts ==> rank(t) <= rank(x)
  {
    t :| t in ts;
    var rest := ts - {t};
    assert ts == rest + {t};
    if rest != {} {
      var r := LowestRank(rest, rank);
      if rank(r) < rank(t) { t := r; }
    }
  }

  /** With acyclic dependencies on tasks that are scheduled, a task on the init list means
      that something is in flight or that some task can be picked. */
  lemma NeverStalls(s: State, rank: Tid -> nat) returns (t: Tid)
    requires Inv(s, {}) && s.owed == multiset{} && Ranked(s.tasks, rank)
    requires forall d :: d in s.tasks && s.tasks[d].deps != [] ==> !s.tasks[d].list.Fresh?
    requires s.inflight == 0 && exists x :: x in s.tasks && s.tasks[x].list.Init?
    ensures t in s.tasks && s.tasks[t].list.Init? && s.tasks[t].depCnt == 0
  {
    hide Flat, Refs, Balanced, AllMet, Alive, Flying, Shape;
    Grounded(s);
    var x :| x in s.tasks && s.tasks[x].list.Init?;
    var waiting := set x | x in s.tasks && s.tasks[x].list.Init?;
    assert x in waiting;
    t := LowestRank(waiting, rank);
    if s.tasks[t].depCnt > 0 { var d := Blocker(s, t); }
  }

  /** What keeps a task back is on the init list itself. */
  lemma Blocker(s: State, t: Tid) returns (d: Tid)
    requires Inv(s, {}) && s.owed == multiset{} && t in s.tasks && s.tasks[t].depCnt > 0
    requires forall d :: d in s.tasks && s.tasks[d].deps != [] ==> !s.tasks[d].list.Fresh?
    requires forall x :: x in s.tasks ==> !InFlight(s.tasks[x])
    ensures d in s.tasks && t in s.tasks[d].deps && s.tasks[d].list.Init?
  {
    hide Flat, Refs, Balanced, AllMet, Alive, Flying, Shape;
    Facts(s, {}, t);
    d := Owner(Deps, s.tasks, t);
    Facts(s, {}, d);
  }

  // ---------------------------------------------------------------------------
  // Runs that go wrong
  // ---------------------------------------------------------------------------

  method Finish(s: Sched, t: Tid)
    requires s.Valid() && t in s.tasks && s.tasks[t].running && !s.tasks[t].complete
    modifies s`tasks, s`finishing, s`early
    ensures s.Valid() && s.tasks == Completed(old(s.tasks), t)
  {
    hide Inv, Flat;
    var _ := s.BeginComplete(t);
    s.EndComplete(t, true);
  }

  /** Two running tasks, `t` waiting for `d`. */
  method Waiting() returns (s: Sched, t: Tid, d: Tid)
    ensures fresh(s) && s.Valid() && s.held == multiset{} && t != d
    ensures t in s.tasks && s.tasks[t] == Task(false, 2, 1, true, false, Running, [], [], [])
    ensures d in s.tasks && s.tasks[d] == Task(false, 1, 0, true, false, Running, [t], [], [])
  {
    hide Inv, Flat, Refs;
    s := new Sched();
    t := s.TaskInit(false);
    d := s.TaskInit(false);
    var rc, go := s.CheckDepend(t, d);
    s.LinkDepend(t, d);
    assert s.tasks[t] == Task(false, 2, 1, false, false, Fresh, [], [], []);
    assert s.tasks[d] == Task(false, 1, 0, false, false, Fresh, [t], [], []);
    rc := s.Schedule(t, false);
    rc := s.Schedule(d, false);
  }

  /** `t` is completed, processed and dropped while it still waits. */
  method DropEarly() returns (s: Sched, t: Tid, d: Tid)
    ensures fresh(s) && s.Valid() && s.held == multiset{} && t != d
    ensures t in s.tasks && s.tasks[t] == Task(false, 1, 1, false, true, Dropped, [], [], [])
    ensures d in s.tasks && s.tasks[d] == Task(false, 1, 0, true, false, Running, [t], [], [])
  {
    hide Inv, Flat, Refs, Shed;
    s, t, d := Waiting();
    Finish(s, t);
    s.Splice();
    s.PostEnd(t);
    s.Drop(t);
  }

  /** Then it is stuck, and `d` is among its results: by Run neither is ever freed. */
  method LeakExample() returns (s: Sched, t: Tid, d: Tid)
    ensures s.Valid() && t in s.tasks && d in s.tasks && s.held == multiset{}
    ensures Stuck(s.tasks[t]) && s.tasks[t].refcnt == 0 && s.tasks[t].rets == [d]
    ensures s.tasks[d].list.Dropped? && s.tasks[d].refcnt == 1
  {
    hide Inv, Flat, Refs, Shed, Splicing;
    s, t, d := LastLet();
    s.PostEnd(d);
    s.Drop(d);
  }

  /** Processing `d` lets go of the last reference to `t`. */
  method LastLet() returns (s: Sched, t: Tid, d: Tid)
    ensures fresh(s) && s.Valid() && s.held == multiset{} && t != d
    ensures t in s.tasks && s.tasks[t] == Task(false, 0, 0, false, true, Dropped, [], [d], [])
    ensures d in s.tasks && s.tasks[d] == Task(false, 2, 0, false, true, Popped, [], [], [])
  {
    hide Inv, Flat, Refs;
    s, t, d := DropEarly();
    Finish(s, d);
    s.Splice();
    var _, _ := s.PostLink(d);
  }

  /** A thread is about to complete `t`; another puts it back on the init list.  The first
      then goes wrong. */
  method LateFinish() returns (s: Sched, t: Tid)
    ensures s.Valid() && t in s.tasks && t in s.finishing && Faulty(s.tasks, FinishEnd(t, true))
  {
    hide Inv, Flat, Refs;
    s := new Sched();
    t := s.TaskInit(true);
    var rc := s.Schedule(t, true);
    var go := s.BeginComplete(t);
    rc := s.Reinit(t);
  }

  /** A thread looks at `d`, and another completes it. */
  method LateLook() returns (s: Sched, t: Tid, d: Tid)
    ensures fresh(s) && s.Valid() && (t, d) in s.checked && t != d && s.held == multiset{}
    ensures s.tasks == map[t := Task(true, 1, 0, false, false, Fresh, [], [], []),
                           d := Task(false, 1, 0, false, true, Complete, [], [], [])]
  {
    hide Inv, Flat, Refs;
    s := new Sched();
    t := s.TaskInit(true);
    d := s.TaskInit(false);
    var rc, go := s.CheckDepend(t, d);
    rc := s.Schedule(d, false);
    Finish(s, d);
  }

  /** The first thread then links `t` to `d`.  The link breaks the invariant, and with `t` on
      the init list nothing can be done any more. */
  method LateLink() returns (s: Sched, t: Tid, d: Tid)
    ensures s.Valid() && (t, d) in s.checked && s.held == multiset{}
    ensures t in s.tasks && d in s.tasks && Faulty(s.tasks, LinkUp(t, d))
    ensures var m := Waits(s.tasks, t, d);
            && (forall v: State :: v.tasks == m ==> !Inv(v, {}))
            && m.Keys == {t, d} && m[t].list.Init? && m[t].depCnt == 1 && m[d].list.Posted?
            && Picking(m, {}) == m && Splicing(m, {}) == m
  {
    hide Inv, Flat, Refs, Waits, Picking;
    s, t, d := LateLook();
    s.Splice();
    s.PostEnd(d);
    hide Splicing;
    var rc := s.Schedule(t, false);
    ghost var m := Waits(s.tasks, t, d);
    WaitsIs(s.tasks, t, d);
    forall v: State | v.tasks == m ensures !Inv(v, {}) { LateBreaks(v, s.tasks, t, d); }
    StaysPut(m, t, d);
  }

  lemma StaysPut(m: Tasks, t: Tid, d: Tid)
    requires m.Keys == {t, d} && m[t].list.Init? && m[t].depCnt > 0 && m[d].list.Posted?
    ensures Picking(m, {}) == m && Splicing(m, {}) == m
  {
  }
}
