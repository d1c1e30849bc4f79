/** The scheduler's operations on mutable queues, each equal to its function on states. */
module Scheduler {
  import opened Counting
  import opened SchedState

  datatype Link = Null | To(id: Id)

  /** LIST_FIRST. */
  function First(q: seq<Id>): Link {
    if q == [] then Null else To(q[0])
  }

  /** LIST_NEXT of the element `id`; NULL of NULL is NULL (LOOP_LIST_NEXT). */
  function NextOf(q: seq<Id>, v: Link): Link {
    if v.Null? || q == [] then Null else if q[0] == v.id then First(q[1..]) else NextOf(q[1..], v)
  }

  lemma {:induction false} NextAt(q: seq<Id>, k: nat)
    requires Distinct(q) && k < |q|
    ensures NextOf(q, To(q[k])) == First(q[k + 1..])
  {
    if k > 0 {
      NextAt(q[1..], k - 1);
      assert q[1..][k..] == q[k + 1..];
    }
  }

  class ProcessQueues {
    var envs: map<Id, Env>
    var newQ: seq<Id>
    var ready: seq<seq<Id>>
    var exitQ: seq<Id>
    var chans: seq<seq<Id>>
    var cur: Cpu
    var ticks: int
    var thresh: int
    var ptrNext: seq<Link>     // one saved successor per ready queue, shared by every LIST_FOREACH over it

    ghost function Abs(): State
      reads this
    {
      State(envs, newQ, ready, exitQ, chans, cur, ticks, thresh)
    }

    ghost predicate Ok()
      reads this
    {
      Valid(Abs()) && |ptrNext| == |ready|
    }

    /** sched_init_PRIRR, with the environments of the new queue kept by the caller. */
    constructor (levels: nat, channels: nat, starvThresh: nat)
      requires 0 < levels
      ensures Ok() && thresh == starvThresh && |ready| == levels && |chans| == channels
      ensures envs == map[] && cur == Idle && Timely(Abs())
    {
      envs, newQ, exitQ, cur, ticks, thresh := map[], [], [], Idle, 0, starvThresh;
      ready := seq(levels, _ => []);
      chans := seq(channels, _ => []);
      ptrNext := seq(levels, _ => Null);
    }

    /** find_env_in_queue: its LIST_FOREACH overwrites the saved successor of queue `i`. */
    method FindInQueue(i: nat, id: Id) returns (found: bool)
      requires i < |ready| == |ptrNext| && Distinct(ready[i])
      modifies `ptrNext
      ensures found <==> id in ready[i]
      ensures ptrNext == old(ptrNext)[i := if found then NextOf(ready[i], To(id)) else Null]
    {
      ghost var k := 0;
      var v := First(ready[i]);
      ptrNext := ptrNext[i := NextOf(ready[i], v)];
      while v.To?
        invariant k <= |ready[i]| && v == First(ready[i][k..]) && id !in ready[i][..k]
        invariant |ptrNext| == |ready| && ptrNext == old(ptrNext)[i := NextOf(ready[i], v)]
        decreases |ready[i]| - k
      {
        NextAt(ready[i], k);
        if v.id == id {
          return true;
        }
        v := ptrNext[i];
        ptrNext := ptrNext[i := NextOf(ready[i], v)];
        assert ready[i][..k + 1] == ready[i][..k] + [ready[i][k]];
        k := k + 1;
      }
      found := false;
    }

    /** sched_insert_ready. */
    method InsertReady(id: Id)
      requires id in envs && 0 <= envs[id].priority < |ready|
      modifies `envs, `ready
      ensures Abs() == SchedState.InsertReady(old(Abs()), id)
    {
      var e := envs[id];
      envs := envs[id := e.(status := Ready)];
      ready := ready[e.priority := [id] + ready[e.priority]];
      envs := envs[id := envs[id].(arrival := ticks)];
    }

    /** sched_remove_ready: searches the ready queues in order for `id`. */
    method RemoveReady(id: Id)
      requires Ok() && id in envs && envs[id].status == Ready
      modifies `envs, `ready, `ptrNext
      ensures Inv(Abs(), {id}) && Abs() == SchedState.RemoveReady(old(Abs()), id)
      ensures |ptrNext| == |ready| == |old(ready)|
      ensures var p := old(envs[id].priority);
              && 0 <= p < |ready| && ptrNext[p] == NextOf(old(ready[p]), To(id))
              && forall j | p < j < |ready| :: ptrNext[j] == old(ptrNext[j])
    {
      hide Placed, At, NextOf;
      ghost var p := envs[id].priority;
      InQueueIff(Abs(), p, id);
      WaitingReady(Abs(), id);
      var i := 0;
      while i < |ready|
        invariant 0 <= i <= p < |ready| && Abs() == old(Abs())
        invariant |ptrNext| == |ready| && forall j | p <= j < |ready| :: ptrNext[j] == old(ptrNext[j])
        decreases |ready| - i
      {
        ReadyNoDups(Abs(), i);
        var found := FindInQueue(i, id);
        InQueueIff(Abs(), i, id);
        if found {
          ready := ready[i := Without(ready[i], id)];
          envs := envs[id := envs[id].(status := Unknown)];
          return;
        }
        i := i + 1;
      }
      assert false;
    }

    /** The body of the pass for one element `id` of queue `i`, whose successor the outer loop has saved. */
    method Visit(id: Id, i: nat)
      requires Ok() && 0 < i < |ready| && id in ready[i] && ptrNext[i] == NextOf(ready[i], To(id))
      modifies `envs, `ready, `ptrNext
      ensures id in old(envs) && old(PrioritiesOk(Abs()))
      ensures Abs() == Promote(old(Abs()), id) && |ready| == old(|ready|) && Ok()
      ensures ptrNext[i] == old(ptrNext[i])
    {
      hide Placed, At, NextOf, Promote;
      ghost var s := Abs();
      InQueue(s, i, id);
      PromoteInv(s, id, i);
      if envs[id].priority > 0 && ticks - envs[id].arrival >= thresh {
        RemoveReady(id);
        envs := envs[id := envs[id].(priority := envs[id].priority - 1)];
        InsertReady(id);
        PromoteTaken(s, Abs(), id);
      } else {
        PromoteNotTaken(s, id);
      }
    }

    /**
     * The pass over queue `i`. While the outer LIST_FOREACH walks the queue, the removal of its current element
     * runs find_env_in_queue over the same queue and overwrites the saved successor; the loop is still the
     * function PromoteList, which visits every element.
     */
    method PromoteLevel(i: nat)
      requires Ok() && 0 < i < |ready|
      modifies `envs, `ready, `ptrNext
      ensures Distinct(old(ready[i])) && |ready| == old(|ready|)
      ensures Abs() == PromoteList(old(Abs()), old(ready[i]), i) && Ok()
    {
      hide Placed, At, NextOf, Promote, PromoteList;
      ReadyNoDups(Abs(), i);
      ghost var s1, kept, rest := Abs(), [], ready[i];
      var v := First(ready[i]);
      FirstNext(ready[i]);
      assert ready[i] == [] + ready[i];
      ptrNext := ptrNext[i := NextOf(ready[i], v)];
      while v.To?
        invariant Ok() && i < |ready| == |s1.ready| && v == First(rest) && ready[i] == kept + rest && Distinct(rest)
        invariant forall id | id in rest :: id in ready[i]
        invariant PromoteList(s1, s1.ready[i], i) == PromoteList(Abs(), rest, i)
        invariant ptrNext[i] == First(if rest == [] then [] else rest[1..]) && ptrNext[i] == NextOf(ready[i], v)
        decreases |rest|
      {
        ghost var s2 := Abs();
        VisitStep(s2, kept, rest, i);
        Visit(v.id, i);
        kept := VisitLeft(s2, kept, rest, i);
        v := ptrNext[i];
        rest := rest[1..];
        ReadyNoDups(Abs(), i);
        RestNext(kept, rest);
        ptrNext := ptrNext[i := NextOf(ready[i], v)];
      }
      PromoteNone(Abs(), i);
    }

    /** The promotion pass of clock_interrupt_handler, from the lowest level up. */
    method PromotionPass()
      requires Ok()
      modifies `envs, `ready, `ptrNext
      ensures Abs() == PromoteFrom(old(Abs()), old(|ready|) - 1) && Ok()
    {
      hide Placed, At, PromoteList;
      var i := |ready| - 1;
      while i > 0
        invariant Ok() && i < |ready| == old(|ready|)
        invariant PromoteFrom(old(Abs()), old(|ready|) - 1) == PromoteFrom(Abs(), i)
        decreases i
      {
        PromoteLevel(i);
        i := i - 1;
      }
    }

    /** fos_scheduler_PRIRR together with the dispatch in fos_scheduler. */
    method Schedule()
      requires Ok()
      modifies this
      ensures Abs() == SchedState.Schedule(old(Abs())) && Ok()
    {
      hide Placed, At;
      ghost var s := Abs();
      if cur.Runs? {
        LeaveCpuInv(s);
        InsertReadyInv(LeaveCpu(s), {cur.id}, cur.id);
        assert {cur.id} - {cur.id} == {};
        var id := cur.id;
        cur := Idle;
        InsertReady(id);
      }
      ghost var s1 := Abs();
      DispatchInv(s1);
      var i := 0;
      while i < |ready|
        invariant 0 <= i <= |ready| && Abs() == s1 && Ok() && FirstBusy(ready, 0) == FirstBusy(ready, i)
      {
        if |ready[i]| > 0 {
          var id := Last(ready[i]);
          InQueue(s1, i, id);
          ready := ready[i := Init(ready[i])];
          cur := Runs(id);
          envs := envs[id := envs[id].(status := Running)];
          return;
        }
        i := i + 1;
      }
    }

    /** clock_interrupt_handler. */
    method ClockInterrupt()
      requires Ok()
      modifies this
      ensures Abs() == Tick(old(Abs())) && Ok()
    {
      hide Placed, At, PromoteFrom;
      PromotionPass();
      TickCountInv(Abs(), ticks + 1);
      ticks := ticks + 1;
      if cur.Runs? {
        Schedule();
      }
    }

    /** sched_new_env, for a new environment of the given priority. */
    method NewEnvironment(id: Id, priority: int)
      requires Ok() && id !in envs && 0 <= priority < |ready|
      modifies this
      ensures Abs() == NewEnv(old(Abs()), id, priority) && Ok()
    {
      hide Placed, At;
      NewInv(Abs(), SetEnv(Abs(), id, Env(New, priority, 0)), id);
      envs := envs[id := Env(New, priority, 0)];
      newQ := [id] + newQ;
    }

    /** sched_run_env: a LIST_FOREACH over the new queue up to the environment. */
    method RunEnvironment(id: Id)
      requires Ok()
      modifies this
      ensures Abs() == RunEnv(old(Abs()), id) && Ok()
    {
      hide Placed, At;
      ghost var s := Abs();
      var k := 0;
      while k < |newQ|
        invariant 0 <= k <= |newQ| && Abs() == s && Ok() && id !in newQ[..k]
      {
        if newQ[k] == id {
          RemoveNewInv(s, id);
          InsertReadyInv(RemoveNew(s, id), {id}, id);
          assert {id} - {id} == {};
          newQ := Without(newQ, id);
          envs := envs[id := envs[id].(status := Unknown)];
          InsertReady(id);
          return;
        }
        k := k + 1;
      }
    }

    /** sched_run_all: once the environments have moved, it starts the scheduler, or panics if that runs already. */
    method RunAllEnvironments(stopped: bool) returns (panics: bool)
      requires Ok()
      modifies this
      ensures Abs() == RunAll(old(Abs())) && Ok()
      ensures panics <==> !stopped
    {
      hide Placed, At, RunAll, RunEnv;
      RunAllNone(Abs());
      var size := |newQ|;
      for i := 0 to size
        invariant Ok() && |newQ| == size - i && RunAll(Abs()) == RunAll(old(Abs()))
      {
        var id := Last(newQ);
        ghost var s := Abs();
        RunAllStep(s);
        newQ := Init(newQ);
        InsertReady(id);
      }
      RunAllNone(Abs());
      panics := !stopped;
    }

    /** sleep, up to the call of sched: the environment is queued on the channel and no longer runs. */
    method SleepOn(c: nat)
      requires Ok() && cur.Runs? && c < |chans|
      modifies this
      ensures Abs() == Sleep(old(Abs()), c) && Ok()
    {
      hide Placed, At;
      LeaveCpuInv(Abs());
      var id := cur.id;
      envs := envs[id := envs[id].(status := Blocked)];
      chans := chans[c := [id] + chans[c]];
      cur := Idle;
    }

    /** wakeup_one. */
    method WakeupOne(c: nat)
      requires Ok() && c < |chans|
      modifies this
      ensures Abs() == WakeOne(old(Abs()), c) && Ok()
    {
      hide Placed, At;
      if |chans[c]| != 0 {
        ghost var s := Abs();
        var id := Last(chans[c]);
        ChanLast(s, c);
        TakeChanInv(s, c, id);
        InsertReadyInv(TakeChan(s, c, id), {id}, id);
        assert {id} - {id} == {};
        chans := chans[c := Init(chans[c])];
        InsertReady(id);
      }
    }

    /** wakeup_all: drains the channel. */
    method WakeupAll(c: nat)
      requires Ok() && c < |chans|
      modifies this
      ensures Abs() == WakeAll(old(Abs()), c) && Ok()
      ensures |chans| == old(|chans|) && chans[c] == []
    {
      hide Placed, At, WakeOne;
      while |chans[c]| != 0
        invariant Ok() && c < |chans| && |chans| == old(|chans|) && WakeAll(Abs(), c) == WakeAll(old(Abs()), c)
        decreases |chans[c]|
      {
        WakeOneShrinks(Abs(), c);
        WakeupOne(c);
      }
    }

    /** env_set_priority. */
    method SetPriorityOf(id: Id, priority: int)
      requires Ok() && id in envs && 0 <= priority < |ready|
      modifies this
      ensures Abs() == SetPriority(old(Abs()), id, priority) && Ok()
    {
      hide Placed, At;
      ghost var s := Abs();
      if envs[id].status == Ready {
        WaitingReady(s, id);
        RemoveReady(id);
        ChangeInv(Abs(), id, envs[id].(priority := priority));
        envs := envs[id := envs[id].(priority := priority)];
        InsertReadyInv(Abs(), {id}, id);
        assert {id} - {id} == {};
        InsertReady(id);
      } else {
        RepriorityInv(s, id, priority);
      }
      envs := envs[id := envs[id].(priority := priority)];
    }

    /**
     * sched_exit_env, for an environment that is not new. The kernel panics on an idle CPU, after it has searched
     * (and perhaps shortened) the ready queues.
     */
    method ExitEnvironment(id: Id) returns (panics: bool)
      requires Ok() && id in envs && envs[id].status != New
      modifies this
      ensures panics <==> old(cur).Idle?
      ensures !panics ==> Abs() == ExitEnv(old(Abs()), id) && Ok()
      ensures panics ==> Abs() == old(Abs()).(ready := ready)
    {
      hide Placed, At;
      ghost var s := Abs();
      var found := TakeFromReady(id);
      if cur.Idle? {
        return true;
      }
      panics := false;
      if found {
        InsertExitInv(SchedState.RemoveReady(s, id), id);
        envs := envs[id := envs[id].(status := Exit)];
        exitQ := [id] + exitQ;
      } else if cur == Runs(id) {
        LeaveCpuInv(s);
        InsertExitInv(LeaveCpu(s), id);
        envs := envs[id := envs[id].(status := Exit)];
        exitQ := [id] + exitQ;
        cur := Idle;
      }
    }

    /** The search of the ready queues for `id`, which leaves its queue. */
    method TakeFromReady(id: Id) returns (found: bool)
      requires Ok() && id in envs
      modifies `ready, `ptrNext
      ensures |ptrNext| == |ready|
      ensures found <==> old(envs)[id].status == Ready
      ensures found ==> Inv(SchedState.RemoveReady(old(Abs()), id), {id})
      ensures Abs() == if found then old(Abs()).(ready := SchedState.RemoveReady(old(Abs()), id).ready) else old(Abs())
    {
      hide Placed, At;
      ghost var s := Abs();
      var i := 0;
      while i < |ready|
        invariant 0 <= i <= |ready| == |ptrNext| && Abs() == s && Ok()
        invariant forall j | 0 <= j < i :: id !in ready[j]
      {
        ReadyNoDups(s, i);
        InQueueIff(s, i, id);
        found := FindInQueue(i, id);
        if found {
          WaitingReady(s, id);
          ready := ready[i := Without(ready[i], id)];
          return true;
        }
        i := i + 1;
      }
      NotReady(s, id);
      found := false;
    }

    /**
     * sched_kill_env, with env_free taking the environment out of the table. The kernel panics if it looks for a
     * sleeper while the CPU is idle.
     */
    method KillEnvironment(id: Id) returns (panics: bool)
      requires Ok() && id in envs
      modifies this
      ensures panics <==> old(cur).Idle? && old(envs)[id].status == Blocked
      ensures Abs() == KillEnv(old(Abs()), id) && Ok()
    {
      hide Placed, At;
      ghost var s := Abs();
      SleepsIff(s, id);
      panics := false;
      if id in newQ {
        RemoveNewInv(s, id);
        FreeInv(RemoveNew(s, id), id);
        newQ := Without(newQ, id);
        envs := envs - {id};
        return;
      }
      var found := TakeFromReady(id);
      if found {
        FreeInv(SchedState.RemoveReady(s, id), id);
        envs := envs - {id};
      } else if id in exitQ {
        RemoveExitInv(s, id);
        FreeInv(RemoveExit(s, id), id);
        exitQ := Without(exitQ, id);
        envs := envs - {id};
      } else if cur.Idle? {
        panics := true;
      } else if cur == Runs(id) {
        LeaveCpuInv(s);
        FreeInv(LeaveCpu(s), id);
        cur := Idle;
        envs := envs - {id};
      }
    }
  }

  /** A sleeper is whoever is in no queue that a request to kill searches, and not running. */
  lemma SleepsIff(s: State, id: Id)
    requires Valid(s) && id in s.envs
    ensures s.envs[id].status == Blocked
            <==> id !in s.newQ && s.envs[id].status != Ready && id !in s.exitQ && s.cur != Runs(id)
  {
    var p :| id in At(s, p);
    assert Names(s, id, p);
    forall q | id in At(s, q) ensures q == p { }
    assert id in s.newQ ==> id in At(s, InNew);
    assert id in s.exitQ ==> id in At(s, InExit);
    assert s.cur == Runs(id) ==> id in At(s, OnCpu);
  }

  /** What a visit leaves of the queue: everything but the element, or everything. */
  lemma VisitLeft(s: State, kept: seq<Id>, rest: seq<Id>, i: int) returns (kept': seq<Id>)
    requires Valid(s) && 0 < i < |s.ready| && s.ready[i] == kept + rest && rest != []
    ensures rest[0] in s.envs && s.envs[rest[0]].priority == i
    ensures Promote(s, rest[0]).ready[i] == kept' + rest[1..]
  {
    hide Placed, At;
    InQueue(s, i, rest[0]);
    ReadyNoDups(s, i);
    WithoutAt(kept + rest, |kept|);
    assert (kept + rest)[..|kept|] == kept && (kept + rest)[|kept| + 1..] == rest[1..];
    assert kept + [rest[0]] + rest[1..] == kept + rest;
    kept' := if s.ticks - s.envs[rest[0]].arrival >= s.thresh then kept else kept + [rest[0]];
  }

  lemma PromoteNone(s: State, i: int)
    requires Valid(s) && 0 < i < |s.ready|
    ensures PromoteList(s, [], i) == s
  {
  }

  lemma FirstNext(q: seq<Id>)
    requires Distinct(q)
    ensures NextOf(q, First(q)) == First(if q == [] then [] else q[1..])
  {
    if q != [] { NextAt(q, 0); }
  }

  lemma RestNext(kept: seq<Id>, rest: seq<Id>)
    requires Distinct(kept + rest)
    ensures NextOf(kept + rest, First(rest)) == First(if rest == [] then [] else rest[1..])
  {
    if rest != [] {
      NextAt(kept + rest, |kept|);
      assert (kept + rest)[|kept| + 1..] == rest[1..];
    }
  }

  /** What one visit of the pass needs to know about the element it visits. */
  lemma VisitStep(s: State, kept: seq<Id>, rest: seq<Id>, i: int)
    requires Valid(s) && 0 < i < |s.ready| && s.ready[i] == kept + rest && rest != [] && Distinct(rest)
    requires forall id | id in rest :: id in s.ready[i]
    ensures rest[0] in s.envs && s.envs[rest[0]].priority == i && s.envs[rest[0]].status == Ready
    ensures Valid(Promote(s, rest[0])) && |Promote(s, rest[0]).ready| == |s.ready|
    ensures Distinct(rest[1..]) && forall id | id in rest[1..] :: id in Promote(s, rest[0]).ready[i]
    ensures PromoteList(s, rest, i) == PromoteList(Promote(s, rest[0]), rest[1..], i)
    ensures NextOf(s.ready[i], To(rest[0])) == First(rest[1..])
    ensures Without(s.ready[i], rest[0]) == kept + rest[1..]
  {
    hide Placed, At, Promote;
    InQueue(s, i, rest[0]);
    PromoteInv(s, rest[0], i);
    ReadyNoDups(s, i);
    RestNext(kept, rest);
    WithoutAt(kept + rest, |kept|);
    assert (kept + rest)[..|kept|] == kept && (kept + rest)[|kept| + 1..] == rest[1..];
    assert rest[0] !in rest[1..];
  }

  lemma PromoteTaken(s: State, r: State, id: Id)
    requires id in s.envs && 0 < s.envs[id].priority < |s.ready| && s.ticks - s.envs[id].arrival >= s.thresh
    requires var s1 := SchedState.RemoveReady(s, id);
             r == SchedState.InsertReady(SetEnv(s1, id, s1.envs[id].(priority := s1.envs[id].priority - 1)), id)
    ensures r == Promote(s, id)
    ensures r.ready[s.envs[id].priority] == Without(s.ready[s.envs[id].priority], id)
  {
  }

  lemma PromoteNotTaken(s: State, id: Id)
    requires id in s.envs && 0 < s.envs[id].priority < |s.ready| && s.ticks - s.envs[id].arrival < s.thresh
    ensures Promote(s, id) == s
  {
  }

  lemma RunAllNone(s: State)
    requires Valid(s)
    ensures s.newQ == [] ==> RunAll(s) == s
  {
  }

  lemma RunAllStep(s: State)
    requires Valid(s) && s.newQ != []
    ensures var id := Last(s.newQ);
            var taken := s.(newQ := Init(s.newQ));
            && id in s.envs && 0 <= s.envs[id].priority < |s.ready|
            && Valid(SchedState.InsertReady(taken, id))
            && RunAll(s) == RunAll(SchedState.InsertReady(taken, id))
  {
    hide Placed, At, RunEnv;
    NewLast(s);
    RunEnvLast(s);
    assert RunAll(s) == RunAll(RunEnv(s, Last(s.newQ)));
  }

  lemma RunEnvLast(s: State)
    requires Valid(s) && s.newQ != []
    ensures var id := Last(s.newQ);
            && id in s.envs && 0 <= s.envs[id].priority < |s.ready|
            && RunEnv(s, id) == SchedState.InsertReady(s.(newQ := Init(s.newQ)), id)
  {
    hide Placed, At;
    NewLast(s);
    RemoveNewInv(s, Last(s.newQ));
  }

  lemma NewLast(s: State)
    requires Valid(s) && s.newQ != []
    ensures Last(s.newQ) in s.newQ && Without(s.newQ, Last(s.newQ)) == Init(s.newQ)
  {
    assert Distinct(At(s, InNew));
    LastWithout(s.newQ);
  }

  lemma ChanLast(s: State, c: int)
    requires Valid(s) && 0 <= c < |s.chans| && s.chans[c] != []
    ensures Last(s.chans[c]) in s.chans[c] && Without(s.chans[c], Last(s.chans[c])) == Init(s.chans[c])
  {
    assert Distinct(At(s, InChan(c)));
    LastWithout(s.chans[c]);
  }

  lemma WakeOneShrinks(s: State, c: int)
    requires Valid(s) && 0 <= c < |s.chans| && s.chans[c] != []
    ensures |WakeOne(s, c).chans| == |s.chans| && |WakeOne(s, c).chans[c]| < |s.chans[c]|
  {
    assert Last(s.chans[c]) in s.chans[c];
  }

  lemma NotReady(s: State, id: Id)
    requires Valid(s) && id in s.envs && forall j | 0 <= j < |s.ready| :: id !in s.ready[j]
    ensures s.envs[id].status != Ready
  {
    if s.envs[id].status == Ready { InQueueIff(s, s.envs[id].priority, id); }
  }
}
