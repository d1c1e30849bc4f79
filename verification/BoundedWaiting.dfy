/** Whole runs of the scheduler: no environment that waits in a ready queue waits for ever. */
module BoundedWaiting {
  import opened Counting
  import opened SchedState
  import opened SchedMoves
  import Scheduler

  datatype Step =
    | ClockTick | Yield | Pick | Create(id: Id, priority: int) | Run(id: Id) | RunEvery
    | Block(c: int) | Wake(c: int) | WakeEvery(c: int)
    | Reprioritise(id: Id, priority: int) | Leave(id: Id) | Kill(id: Id)

  /**
   * When a step can happen. The clock is stopped while the CPU is idle and some environment is ready, and the kernel
   * panics on an exit from an idle CPU, when it is to kill a sleeper from one, and when it is to run all environments
   * after the scheduler was started.
   */
  ghost predicate Enabled(s: State, step: Step) {
    match step
    case ClockTick => s.cur.Runs? || forall i | 0 <= i < |s.ready| :: s.ready[i] == []
    case Yield => s.cur.Runs?
    case Pick => s.cur.Idle?
    case Create(id, p) => id !in s.envs && 0 <= p < |s.ready|
    case Run(_) => true
    case RunEvery => s.cur.Idle?
    case Block(c) => s.cur.Runs? && 0 <= c < |s.chans|
    case Wake(c) => 0 <= c < |s.chans|
    case WakeEvery(c) => 0 <= c < |s.chans|
    case Reprioritise(id, p) => id in s.envs && 0 <= p < |s.ready|
    case Leave(id) => id in s.envs && s.envs[id].status != New && s.cur.Runs?
    case Kill(id) => id in s.envs && (s.envs[id].status == Blocked ==> s.cur.Runs?)
  }

  /** Every step keeps every live environment in exactly the one place that its status names. */
  ghost function Next(s: State, step: Step): (r: State)
    requires Valid(s) && Enabled(s, step)
    ensures Valid(r)
  {
    match step
    case ClockTick => Tick(s)
    case Yield => Schedule(s)
    case Pick => Schedule(s)
    case Create(id, p) => NewEnv(s, id, p)
    case Run(id) => RunEnv(s, id)
    case RunEvery => RunAll(s)
    case Block(c) => Sleep(s, c)
    case Wake(c) => WakeOne(s, c)
    case WakeEvery(c) => WakeAll(s, c)
    case Reprioritise(id, p) => SetPriority(s, id, p)
    case Leave(id) => ExitEnv(s, id)
    case Kill(id) => KillEnv(s, id)
  }

  /** Each step of a run is one call of the operations on the queues in memory, and none of these calls panics. */
  method Perform(q: Scheduler.ProcessQueues, step: Step) returns (panics: bool)
    requires q.Ok() && Enabled(q.Abs(), step)
    modifies q
    ensures q.Ok() && q.Abs() == Next(old(q.Abs()), step) && !panics
  {
    hide Valid, Tick, SchedState.Schedule, NewEnv, RunEnv, RunAll, Sleep, WakeOne, WakeAll, SetPriority, ExitEnv;
    hide KillEnv;
    panics := false;
    match step {
      case ClockTick => q.ClockInterrupt();
      case Yield => q.Schedule();
      case Pick => q.Schedule();
      case Create(id, p) => q.NewEnvironment(id, p);
      case Run(id) => q.RunEnvironment(id);
      case RunEvery => panics := q.RunAllEnvironments(true);
      case Block(c) => q.SleepOn(c);
      case Wake(c) => q.WakeupOne(c);
      case WakeEvery(c) => q.WakeupAll(c);
      case Reprioritise(id, p) => q.SetPriorityOf(id, p);
      case Leave(id) => panics := q.ExitEnvironment(id);
      case Kill(id) => panics := q.KillEnvironment(id);
    }
  }

  // ----- entry times -----

  lemma TimelySchedule(s: State)
    requires Valid(s) && Timely(s)
    ensures Timely(Schedule(s))
  {
    hide Placed, At;
    if s.cur.Runs? {
      LeaveCpuInv(s);
      assert Timely(InsertReady(LeaveCpu(s), s.cur.id));
    }
  }

  lemma TimelyRunEnv(s: State, id: Id)
    requires Valid(s) && Timely(s)
    ensures Timely(RunEnv(s, id))
  {
    if id in s.newQ {
      assert id in At(s, InNew) && Names(s, id, InNew);
      hide Placed, At;
    }
  }

  lemma TimelyPriority(s: State, id: Id, p: int)
    requires Valid(s) && Timely(s) && id in s.envs && 0 <= p < |s.ready|
    ensures Timely(SetPriority(s, id, p))
  {
    hide Placed, At;
  }

  lemma TimelyRemoved(s: State, id: Id)
    requires Valid(s) && Timely(s) && id in s.envs
    ensures s.envs[id].status != New ==> Timely(ExitEnv(s, id))
    ensures Timely(KillEnv(s, id))
  {
    hide Placed, At;
  }

  lemma LaterTimely(s: State)
    requires Timely(s)
    ensures Timely(s.(ticks := s.ticks + 1))
  {
  }

  lemma TimelyTick(s: State)
    requires Valid(s) && Timely(s)
    ensures Timely(Tick(s))
  {
    hide Placed, At, PromoteFrom, Schedule, Timely, PrioritiesOk;
    var s1 := PromoteFrom(s, |s.ready| - 1);
    PassTimely(s, |s.ready| - 1);
    TickCountInv(s1, s.ticks + 1);
    LaterTimely(s1);
    if s.cur.Runs? {
      TimelySchedule(s1.(ticks := s.ticks + 1));
    }
  }

  /** No step makes an environment wait since a tick that has not come yet. */
  lemma NextTimely(s: State, step: Step)
    requires Valid(s) && Enabled(s, step) && Timely(s)
    ensures Timely(Next(s, step))
  {
    hide Placed, At, Tick, Schedule, RunAll, WakeAll, SetPriority, ExitEnv, KillEnv, RunEnv;
    match step
    case ClockTick => TimelyTick(s);
    case Yield => TimelySchedule(s);
    case Pick => TimelySchedule(s);
    case Create(_, _) =>
    case Run(id) => TimelyRunEnv(s, id);
    case RunEvery => RunAllOrder(s);
    case Block(_) =>
    case Wake(c) => if s.chans[c] != [] { WakeOneEffect(s, c); }
    case WakeEvery(c) => WakeAllOrder(s, c);
    case Reprioritise(id, p) => TimelyPriority(s, id, p);
    case Leave(id) => TimelyRemoved(s, id);
    case Kill(id) => TimelyRemoved(s, id);
  }

  ghost predicate Waiting(s: State, e: Id) {
    e in s.envs && s.envs[e].status == Ready
  }

  /** The step is not a request about `e` itself. */
  predicate Spares(step: Step, e: Id) {
    !(step.Reprioritise? && step.id == e) && !(step.Leave? && step.id == e) && !(step.Kill? && step.id == e)
  }

  // ----- the environments ahead -----

  /** How many environments leave the queue before `e` does. */
  function Ahead(q: seq<Id>, e: Id): (n: nat)
    ensures n <= |q| && (e in q ==> n < |q|)
  {
    if q == [] then 0 else if q[0] == e then |q| - 1 else Ahead(q[1..], e)
  }

  /** `e` is in the new queue too, and no further from its end. */
  ghost predicate Closer(q: seq<Id>, r: seq<Id>, e: Id) {
    e in q ==> e in r && Ahead(r, e) <= Ahead(q, e)
  }

  lemma {:induction false} AheadWithout(q: seq<Id>, x: Id, e: Id)
    requires x != e
    ensures Closer(q, Without(q, x), e)
  {
    if q != [] && q[0] != x && q[0] != e {
      AheadWithout(q[1..], x, e);
      var r := Without(q[1..], x);
      assert ([q[0]] + r)[1..] == r;
    }
  }

  lemma {:induction false} AheadInit(q: seq<Id>, e: Id)
    requires q != [] && Distinct(q) && e in q && Last(q) != e
    ensures e in Init(q) && Ahead(Init(q), e) == Ahead(q, e) - 1
  {
    if q[0] != e {
      AheadInit(q[1..], e);
      assert Init(q)[1..] == Init(q[1..]);
    }
  }

  lemma {:induction false} AheadBehind(q: seq<Id>, r: seq<Id>, e: Id)
    requires Behind(q, r) && Distinct(r) && e in q
    ensures e in r && Ahead(r, e) == Ahead(q, e)
    decreases |r|
  {
    if |r| == |q| {
      assert r == q;
    } else {
      assert forall i | 0 <= i < |q| :: q[i] == r[|r| - |q| + i];
      assert r[0] != e;
      assert r[1..][|r| - 1 - |q|..] == r[|r| - |q|..];
      AheadBehind(q, r[1..], e);
    }
  }

  // ----- what other environments' steps do to `e` -----

  /** The step neither touched `e` nor let anybody overtake it. */
  ghost predicate Calm(s: State, r: State, e: Id) {
    && e in s.envs && e in r.envs && r.envs[e] == s.envs[e]
    && r.ticks == s.ticks && r.thresh == s.thresh && |r.ready| == |s.ready| > 0
    && Closer(s.ready[0], r.ready[0], e)
  }

  lemma CalmInsert(s: State, id: Id, e: Id)
    requires PrioritiesOk(s) && id in s.envs && e in s.envs && id != e
    ensures Calm(s, InsertReady(s, id), e)
  {
    var q := s.ready[0];
    assert ([id] + q)[1..] == q;
  }

  lemma CalmRemove(s: State, id: Id, e: Id)
    requires PrioritiesOk(s) && id in s.envs && e in s.envs && id != e
    ensures Calm(s, RemoveReady(s, id), e)
  {
    AheadWithout(s.ready[0], id, e);
  }

  lemma CalmDispatch(s: State, e: Id)
    requires Valid(s) && s.cur.Idle? && Waiting(s, e) && Waiting(Dispatch(s), e)
    ensures Calm(s, Dispatch(s), e)
    ensures e in s.ready[0] ==> Dispatch(s).cur.Runs? && e in Dispatch(s).ready[0]
                                && Ahead(Dispatch(s).ready[0], e) == Ahead(s.ready[0], e) - 1
  {
    hide Placed, At;
    ReadyNoDups(s, 0);
    var p := FirstBusy(s.ready, 0);
    if p < |s.ready| {
      InQueue(s, p, Last(s.ready[p]));
      if p == 0 && e in s.ready[0] { AheadInit(s.ready[0], e); }
    }
  }

  lemma CalmRunEnv(s: State, id: Id, e: Id)
    requires Valid(s) && Waiting(s, e)
    ensures Calm(s, RunEnv(s, id), e)
  {
    if id in s.newQ {
      assert id in At(s, InNew) && Names(s, id, InNew);
      hide Placed, At;
      CalmInsert(RemoveNew(s, id), id, e);
    }
  }

  lemma {:induction false} CalmRunAll(s: State, e: Id)
    requires Valid(s) && Waiting(s, e)
    ensures Calm(s, RunAll(s), e)
    decreases |s.newQ|
  {
    hide Placed, At;
    if s.newQ != [] {
      assert Last(s.newQ) in s.newQ;
      CalmRunEnv(s, Last(s.newQ), e);
      CalmRunAll(RunEnv(s, Last(s.newQ)), e);
    }
  }

  lemma CalmWake(s: State, c: int, e: Id)
    requires Valid(s) && Waiting(s, e) && 0 <= c < |s.chans|
    ensures Calm(s, WakeOne(s, c), e)
  {
    if s.chans[c] != [] {
      var id := Last(s.chans[c]);
      assert id in At(s, InChan(c)) && Names(s, id, InChan(c));
      hide Placed, At;
      CalmInsert(TakeChan(s, c, id), id, e);
    }
  }

  lemma {:induction false} CalmWakeAll(s: State, c: int, e: Id)
    requires Valid(s) && Waiting(s, e) && 0 <= c < |s.chans|
    ensures Calm(s, WakeAll(s, c), e)
    decreases if 0 <= c < |s.chans| then |s.chans[c]| else 0
  {
    hide Placed, At;
    if s.chans[c] != [] {
      assert Last(s.chans[c]) in s.chans[c];
      CalmWake(s, c, e);
      CalmWakeAll(WakeOne(s, c), c, e);
    }
  }

  lemma OthersInQueue(s: State, e: Id)
    requires Valid(s) && Waiting(s, e)
    ensures s.cur != Runs(e) && e !in s.newQ && e !in s.exitQ
  {
    assert s.cur == Runs(e) ==> e in At(s, OnCpu) && Names(s, e, OnCpu);
    assert e in s.newQ ==> e in At(s, InNew) && Names(s, e, InNew);
    assert e in s.exitQ ==> e in At(s, InExit) && Names(s, e, InExit);
  }

  /** The scheduler puts the current environment behind everybody and dispatches the oldest. */
  lemma CalmSchedule(s: State, e: Id)
    requires Valid(s) && Waiting(s, e) && Waiting(Schedule(s), e)
    ensures Calm(s, Schedule(s), e)
    ensures e in s.ready[0] ==> e in Schedule(s).ready[0] && Schedule(s).cur.Runs?
                                && Ahead(Schedule(s).ready[0], e) <= Ahead(s.ready[0], e) - 1
  {
    OthersInQueue(s, e);
    if s.cur.Runs? {
      LeaveCpuInv(s);
      InsertReadyInv(LeaveCpu(s), {s.cur.id}, s.cur.id);
      assert {s.cur.id} - {s.cur.id} == {};
      hide Placed, At;
      CalmInsert(LeaveCpu(s), s.cur.id, e);
      CalmDispatch(InsertReady(LeaveCpu(s), s.cur.id), e);
    } else {
      hide Placed, At;
      CalmDispatch(s, e);
    }
  }

  lemma CalmPriority(s: State, id: Id, p: int, e: Id)
    requires Valid(s) && Waiting(s, e) && id in s.envs && 0 <= p < |s.ready| && id != e
    ensures Calm(s, SetPriority(s, id, p), e)
  {
    hide Placed, At;
    if s.envs[id].status == Ready {
      var s1 := RemoveReady(s, id);
      CalmRemove(s, id, e);
      CalmInsert(SetEnv(s1, id, s1.envs[id].(priority := p)), id, e);
    }
  }

  lemma CalmExit(s: State, id: Id, e: Id)
    requires Valid(s) && Waiting(s, e) && id in s.envs && id != e
    ensures s.envs[id].status != New ==> Calm(s, ExitEnv(s, id), e)
    ensures Calm(s, KillEnv(s, id), e)
  {
    hide Placed, At;
    if s.envs[id].status == Ready { CalmRemove(s, id, e); }
  }

  /** Every step that is not a clock tick and not about `e`, if it leaves `e` waiting, lets nobody overtake it. */
  lemma CalmStep(s: State, step: Step, e: Id)
    requires Valid(s) && Enabled(s, step) && !step.ClockTick? && Spares(step, e)
    requires Waiting(s, e) && Waiting(Next(s, step), e)
    ensures Calm(s, Next(s, step), e)
  {
    hide Placed, At, Schedule, RunAll, WakeAll, SetPriority, ExitEnv, KillEnv, WakeOne, RunEnv;
    OthersInQueue(s, e);
    match step
    case Yield => CalmSchedule(s, e);
    case Pick => CalmSchedule(s, e);
    case Create(_, _) =>
    case Run(id) => CalmRunEnv(s, id, e);
    case RunEvery => CalmRunAll(s, e);
    case Block(_) =>
    case Wake(c) => CalmWake(s, c, e);
    case WakeEvery(c) => CalmWakeAll(s, c, e);
    case Reprioritise(id, p) => CalmPriority(s, id, p, e);
    case Leave(id) => CalmExit(s, id, e);
    case Kill(id) => CalmExit(s, id, e);
  }

  // ----- the clock -----

  /** Ticks that can still pass while `e` waits, with at most `n` live environments. */
  ghost function Rank(s: State, e: Id, n: nat): int
    requires e in s.envs && 0 < |s.ready|
  {
    var v := s.envs[e];
    if v.priority == 0 then Ahead(s.ready[0], e)
    else
      var starved := v.arrival + s.thresh;
      (if starved > s.ticks then starved - s.ticks else 0) + (v.priority - 1) * s.thresh + n - 1
  }

  lemma {:induction false} SetOfSize(q: seq<Id>, all: set<Id>)
    requires Distinct(q) && forall x | x in q :: x in all
    ensures |q| <= |all|
  {
    if q != [] {
      assert q[0] !in q[1..];
      SetOfSize(q[1..], all - {q[0]});
    }
  }

  /** The running environment is not in the queue, so the queue is shorter than the number of environments. */
  lemma Room(s: State)
    requires Valid(s) && s.cur.Runs?
    ensures |s.ready[0]| + 1 <= |s.envs|
  {
    var c := s.cur.id;
    assert c in At(s, OnCpu) && Names(s, c, OnCpu);
    ReadyNoDups(s, 0);
    forall x | x in s.ready[0] ensures x in s.envs.Keys - {c} {
      InQueue(s, 0, x);
    }
    SetOfSize(s.ready[0], s.envs.Keys - {c});
  }

  /** A tick's pass keeps those ahead of an environment at level 0. */
  lemma PassAhead(s: State, e: Id)
    requires Valid(s) && s.thresh >= 1 && Waiting(s, e) && s.envs[e].priority == 0 && |s.ready| > 0
    ensures var r := PromoteFrom(s, |s.ready| - 1);
            |r.ready| == |s.ready| && e in s.ready[0] && Ahead(r.ready[0], e) == Ahead(s.ready[0], e)
  {
    hide Placed, At, PromoteFrom, RaisedUpTo, Behind, PrioritiesOk, Ahead;
    PromoteFromEffect(s, |s.ready| - 1);
    InQueueIff(s, 0, e);
    ReadyNoDups(PromoteFrom(s, |s.ready| - 1), 0);
    AheadBehind(s.ready[0], PromoteFrom(s, |s.ready| - 1).ready[0], e);
  }

  /** What a tick does to a waiting environment that is still waiting afterwards. */
  lemma TickEffect(s: State, e: Id)
    requires Valid(s) && s.thresh >= 1 && s.cur.Runs? && Waiting(s, e) && Waiting(Tick(s), e)
    ensures var r := Tick(s);
            && r.ticks == s.ticks + 1 && r.thresh == s.thresh && |r.ready| == |s.ready|
            && r.envs[e] == (if Starved(s, e) then Raised(s, e) else s.envs[e])
            && (r.envs[e].priority == 0 ==> r.cur.Runs? && e in r.ready[0])
            && (s.envs[e].priority == 0 ==> Ahead(r.ready[0], e) <= Ahead(s.ready[0], e) - 1)
  {
    hide Placed, At, PromoteFrom, Schedule;
    var s1 := PromoteFrom(s, |s.ready| - 1);
    var s2 := s1.(ticks := s.ticks + 1);
    PromoteFromEffect(s, |s.ready| - 1);
    TickCountInv(s1, s.ticks + 1);
    assert Waiting(s2, e) && Tick(s) == Schedule(s2);
    CalmSchedule(s2, e);
    InQueueIff(s2, 0, e);
    if s.envs[e].priority == 0 { PassAhead(s, e); }
  }

  lemma TickRank(s: State, e: Id, n: nat)
    requires Valid(s) && s.thresh >= 1 && Enabled(s, ClockTick) && Waiting(s, e) && Waiting(Tick(s), e)
    requires |Tick(s).envs| <= n
    ensures |Tick(s).ready| > 0 && Rank(Tick(s), e, n) <= Rank(s, e, n) - 1
  {
    hide Placed, At, Tick;
    InQueueIff(s, s.envs[e].priority, e);
    TickEffect(s, e);
    var r, p, t := Tick(s), s.envs[e].priority, s.thresh;
    if p == 0 {
    } else if Starved(s, e) {
      if p == 1 {
        Room(r);
      } else {
        assert (p - 1) * t == (p - 2) * t + t;
      }
    }
  }

  // ----- runs -----

  /** A run during which `e` goes on waiting, nobody asks anything of `e`, and at most `n` environments live. */
  ghost predicate KeepsWaiting(s: State, steps: seq<Step>, e: Id, n: nat)
    requires Valid(s)
    decreases |steps|
  {
    && Waiting(s, e) && |s.envs| <= n
    && (steps != [] ==>
          && Enabled(s, steps[0]) && Spares(steps[0], e)
          && KeepsWaiting(Next(s, steps[0]), steps[1..], e, n))
  }

  function Ticks(steps: seq<Step>): nat {
    if steps == [] then 0 else (if steps[0].ClockTick? then 1 else 0) + Ticks(steps[1..])
  }

  lemma {:induction false} RunRank(s: State, steps: seq<Step>, e: Id, n: nat)
    requires Valid(s) && s.thresh >= 1 && KeepsWaiting(s, steps, e, n)
    ensures Ticks(steps) <= Rank(s, e, n)
    decreases |steps|
  {
    hide Placed, At;
    InQueueIff(s, s.envs[e].priority, e);
    if steps == [] {
      RankNatural(s, e, n);
    } else {
      var r := Next(s, steps[0]);
      assert Waiting(r, e) && |r.envs| <= n;
      if steps[0].ClockTick? {
        TickRank(s, e, n);
        InQueueIff(s, s.envs[e].priority, e);
        TickEffect(s, e);
      } else {
        CalmStep(s, steps[0], e);
      }
      hide Next;
      RunRank(r, steps[1..], e, n);
    }
  }

  lemma ProductNatural(a: int, b: int)
    requires 0 <= a && 0 <= b
    ensures 0 <= a * b
  {
  }

  lemma RankNatural(s: State, e: Id, n: nat)
    requires Valid(s) && s.thresh >= 1 && Waiting(s, e) && |s.envs| <= n
    ensures 0 <= Rank(s, e, n)
  {
    hide Placed, Ahead;
    assert e in s.envs.Keys;
    assert |s.envs| > 0;
    if s.envs[e].priority > 0 {
      ProductNatural(s.envs[e].priority - 1, s.thresh);
    }
  }

  /**
   * Bounded waiting: an environment that has just entered ready queue `p` does not wait through p*T + N clock
   * ticks, whatever else happens: in any run during which it is not dispatched there are fewer ticks.
   */
  lemma BoundedWaiting(s: State, steps: seq<Step>, e: Id, n: nat)
    requires Valid(s) && s.thresh >= 1 && KeepsWaiting(s, steps, e, n)
    requires s.envs[e].arrival == s.ticks
    ensures Ticks(steps) < s.envs[e].priority * s.thresh + n
  {
    hide Placed, At;
    RunRank(s, steps, e, n);
    RankAtEntry(s, e, n);
  }

  lemma RankAtEntry(s: State, e: Id, n: nat)
    requires Valid(s) && s.thresh >= 1 && Waiting(s, e) && |s.envs| <= n && s.envs[e].arrival == s.ticks
    ensures Rank(s, e, n) < s.envs[e].priority * s.thresh + n
  {
    hide Placed, At;
    var p := s.envs[e].priority;
    InQueueIff(s, p, e);
    if p == 0 {
      forall x | x in s.ready[0] ensures x in s.envs.Keys { InQueue(s, 0, x); }
      ReadyNoDups(s, 0);
      SetOfSize(s.ready[0], s.envs.Keys);
    } else {
      assert p * s.thresh == (p - 1) * s.thresh + s.thresh;
    }
  }
}
