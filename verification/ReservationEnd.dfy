/** Whole runs of the reservation program: every run ends, and it ends with every customer served. */
module ReservationEnd {
  import opened Counting
  import opened Reservation
  import opened ReservationBoard
  import opened ReservationSafety

  // ----- runs -----

  /** The shared state as the master sets it up; the clerk semaphore starts at the number of clerks. */
  ghost predicate Initial(s: State) {
    && |s.flight| == |s.custs| == |s.queue| && (forall x | 0 <= x < |s.flight| :: 1 <= s.flight[x] <= 3)
    && (forall i | 0 <= i < |s.custs| :: s.custs[i].pt.CWaitCounter? && !s.custs[i].blocked)
    && (forall j | 0 <= j < |s.clerks| :: s.clerks[j].pt.KWaitReady? && !s.clerks[j].blocked)
    && s.master == Master(0, false)
    && (forall sem :: sem in s.count <==> (sem.Finished? ==> 0 <= sem.id < |s.custs|))
    && (forall sem | sem in s.count :: s.count[sem] ==
          if Mutex(sem) then 1 else if sem.ClerkSem? then |s.clerks| else 0)
    && s.counter == s.queueIn == s.queueOut == s.completed == 0
    && s.left1 == s.tickets1 && s.left2 == s.tickets2 && s.booked1 == [] && s.booked2 == []
    && s.finished == {} && s.denied == {}
  }

  lemma {:induction false} NothingYet(key: Key, cs: seq<Cust>, ks: seq<Clerk>)
    requires !key.Progress?
    requires forall i | 0 <= i < |cs| :: cs[i].pt.CWaitCounter? && !cs[i].blocked
    requires forall j | 0 <= j < |ks| :: ks[j].pt.KWaitReady? && !ks[j].blocked
    ensures SumC(key, cs) == 0 && SumK(key, ks) == 0
    decreases |cs| + |ks|
  {
    if cs != [] {
      NothingYet(key, cs[1..], ks);
    } else if ks != [] {
      NothingYet(key, cs, ks[1..]);
    }
  }

  lemma InitialAccounts(s: State)
    requires Initial(s)
    ensures Shape(s) && Accounts(s)
  {
    forall key: Key | !key.Progress? ensures Net(s, key) == 0 { NothingYet(key, s.custs, s.clerks); }
    hide Net;
  }

  lemma InitialInv(s: State)
    requires Initial(s)
    ensures Inv(s)
  {
    InitialAccounts(s);
    hide Shape, Accounts;
    assert Ok(View(s));
  }

  ghost predicate Run(s: State, sched: seq<(Proc, Proc)>)
    decreases |sched|
  {
    sched == [] || (Enabled(s, sched[0].0, sched[0].1) && Run(Step(s, sched[0].0, sched[0].1), sched[1..]))
  }

  ghost function After(s: State, sched: seq<(Proc, Proc)>): State
    requires Run(s, sched)
    decreases |sched|
  {
    if sched == [] then s else After(Step(s, sched[0].0, sched[0].1), sched[1..])
  }

  /** What no step changes. */
  ghost predicate SameProblem(s: State, r: State) {
    && r.flight == s.flight && r.tickets1 == s.tickets1 && r.tickets2 == s.tickets2
    && |r.custs| == |s.custs| && |r.clerks| == |s.clerks|
  }

  lemma CustProblem(s: State, i: int, w: Proc)
    requires Enabled(s, PC(i), w)
    ensures SameProblem(s, CustStep(s, i, w))
  {
  }

  lemma ClerkProblem(s: State, j: int, w: Proc)
    requires Enabled(s, PK(j), w)
    ensures SameProblem(s, ClerkStep(s, j, w))
  {
  }

  lemma StepProblem(s: State, p: Proc, w: Proc)
    requires Enabled(s, p, w)
    ensures SameProblem(s, Step(s, p, w))
  {
    match p
    case PC(i) => hide CustStep, Enabled; CustProblem(s, i, w);
    case PK(j) => hide ClerkStep, Enabled; ClerkProblem(s, j, w);
    case PM =>
  }

  lemma {:induction false} RunInv(s: State, sched: seq<(Proc, Proc)>)
    requires Inv(s) && Run(s, sched)
    ensures Inv(After(s, sched)) && SameProblem(s, After(s, sched))
    decreases |sched|
  {
    if sched != [] {
      InvStep(s, sched[0].0, sched[0].1);
      StepProblem(s, sched[0].0, sched[0].1);
      hide Enabled, Step, Inv;
      RunInv(Step(s, sched[0].0, sched[0].1), sched[1..]);
    }
  }

  /** Bookings are appended, and nobody who was finished, denied or booked is so no more. */
  ghost predicate Adds(s: State, r: State) {
    && s.booked1 <= r.booked1 && s.booked2 <= r.booked2 && |r.booked1| + |r.booked2| <= |s.booked1| + |s.booked2| + 1
    && s.finished <= r.finished && s.denied <= r.denied && s.completed <= r.completed
  }

  lemma StepAdds(s: State, p: Proc, w: Proc)
    requires Enabled(s, p, w)
    ensures Adds(s, Step(s, p, w))
  {
    match p
    case PC(i) => hide CustStep, Enabled, Adds; CustAdds(s, i, w);
    case PK(j) => hide ClerkStep, Enabled, Adds; ClerkAdds(s, j, w);
    case PM =>
  }

  /** A signal touches none of the lists. */
  lemma SignalAdds(s: State, sem: Sem, w: Proc)
    requires sem in s.count && (s.count[sem] + 1 <= 0 ==> BlockedOn(s, w, sem))
    ensures Adds(s, Signal(s, sem, w)) && Signal(s, sem, w).finished == s.finished
    ensures Signal(s, sem, w).booked1 == s.booked1 && Signal(s, sem, w).booked2 == s.booked2
  {
    hide CustPassed, ClerkPassed;
  }

  lemma CustAdds(s: State, i: int, w: Proc)
    requires Enabled(s, PC(i), w)
    ensures Adds(s, CustStep(s, i, w))
  {
    var c := s.custs[i];
    if CustSignals(c.pt).On? {
      CustSignalIs(s, i, w);
      hide CustStep, Enabled, Signal;
      SignalAdds(SetCust(s, i, CustSignalled(c)), CustSignals(c.pt).sem, w);
    } else if CustWait(c).On? {
      CustWaitIs(s, i, w);
      hide CustStep, Enabled;
    } else {
      hide Resume, Signal;
    }
  }

  lemma ClerkAdds(s: State, j: int, w: Proc)
    requires Enabled(s, PK(j), w)
    ensures Adds(s, ClerkStep(s, j, w))
  {
    var k := s.clerks[j];
    if ClerkSignals(k).On? {
      ClerkSignalIs(s, j, w);
      hide ClerkStep, Enabled, Signal;
      SignalAdds(SetClerk(Recorded(s, k), j, Signalled(k)), ClerkSignals(k).sem, w);
    } else if ClerkWait(k).On? {
      ClerkWaitIs(s, j, w);
      hide ClerkStep, Enabled;
    } else {
      hide Resume, Signal;
    }
  }

  /** A run only adds to the lists of bookings, at their ends. */
  lemma {:induction false} RunAdds(s: State, sched: seq<(Proc, Proc)>)
    requires Run(s, sched)
    ensures var r := After(s, sched);
            && s.booked1 <= r.booked1 && s.booked2 <= r.booked2
            && s.finished <= r.finished && s.denied <= r.denied && s.completed <= r.completed
    decreases |sched|
  {
    if sched != [] {
      StepAdds(s, sched[0].0, sched[0].1);
      hide Enabled, Step;
      RunAdds(Step(s, sched[0].0, sched[0].1), sched[1..]);
    }
  }

  // ----- every run ends -----

  /** Grows with every step. */
  function Work(s: State): int { Net(s, Progress) + 30 * s.completed }

  lemma ResumeWork(s: State, w: Proc, sem: Sem)
    requires BlockedOn(s, w, sem)
    ensures Work(Resume(s, w)) > Work(s)
  {
    match w
    case PC(i) =>
      SumCSet(Progress, s.custs, i, CustPassed(s.custs[i]));
      assert Resume(s, w).custs == s.custs[i := CustPassed(s.custs[i])];
      hide SumC;
    case PK(j) =>
      SumKSet(Progress, s.clerks, j, ClerkPassed(s.clerks[j]));
      assert Resume(s, w).clerks == s.clerks[j := ClerkPassed(s.clerks[j])];
      hide SumK;
    case PM =>
  }

  lemma SignalWork(s: State, sem: Sem, w: Proc)
    requires sem in s.count && (s.count[sem] + 1 <= 0 ==> BlockedOn(s, w, sem))
    ensures Work(Signal(s, sem, w)) >= Work(s)
  {
    var s1 := s.(count := s.count[sem := s.count[sem] + 1]);
    assert Work(s1) == Work(s);
    if s.count[sem] + 1 <= 0 {
      assert BlockedOn(s1, w, sem);
      ResumeWork(s1, w, sem);
    }
  }

  lemma SetCustWork(s: State, i: int, c: Cust)
    requires 0 <= i < |s.custs|
    ensures Work(SetCust(s, i, c)) == Work(s) - WC(Progress, s.custs[i]) + WC(Progress, c)
  {
    SumCSet(Progress, s.custs, i, c);
    hide SumC, SumK, WC;
  }

  lemma SetClerkWork(s: State, j: int, k: Clerk)
    requires 0 <= j < |s.clerks|
    ensures Work(SetClerk(s, j, k)) == Work(s) - WK(Progress, s.clerks[j]) + WK(Progress, k)
  {
    SumKSet(Progress, s.clerks, j, k);
    hide SumC, SumK, WK;
  }

  lemma WorkOther(s: State, r: State)
    requires r.custs == s.custs && r.clerks == s.clerks && r.master == s.master
    ensures Work(r) - 30 * r.completed == Work(s) - 30 * s.completed
  {
  }

  lemma CustLocalWork(s: State, i: int, w: Proc)
    requires Enabled(s, PC(i), w) && CustSignals(s.custs[i].pt).None? && CustWait(s.custs[i]).None?
    ensures Work(CustStep(s, i, w)) > Work(s)
  {
    var r := CustStep(s, i, w);
    assert r.clerks == s.clerks && r.master == s.master && r.custs == s.custs[i := r.custs[i]]
      && r.completed == s.completed;
    assert WC(Progress, r.custs[i]) > WC(Progress, s.custs[i]);
    hide CustStep, Enabled, WC, Work;
    WorkOther(SetCust(s, i, r.custs[i]), r);
    SetCustWork(s, i, r.custs[i]);
  }

  lemma CustWork(s: State, i: int, w: Proc)
    requires Enabled(s, PC(i), w)
    ensures Work(CustStep(s, i, w)) > Work(s)
  {
    var c := s.custs[i];
    hide Work;
    if CustSignals(c.pt).On? {
      CustSignalIs(s, i, w);
      hide CustStep, BlockedOn, Enabled, Signal;
      SetCustWork(s, i, CustSignalled(c));
      SignalWork(SetCust(s, i, CustSignalled(c)), CustSignals(c.pt).sem, w);
    } else if CustWait(c).On? {
      CustWaitIs(s, i, w);
      hide CustStep, Enabled;
      WorkOther(s, Down(s, CustWait(c).sem));
      SetCustWork(Down(s, CustWait(c).sem), i, CustAfter(c, s.count[CustWait(c).sem]));
    } else {
      CustLocalWork(s, i, w);
    }
  }

  lemma ClerkLocalWork(s: State, j: int, w: Proc)
    requires Enabled(s, PK(j), w) && RouteOk(s.clerks[j]) && ClerkSignals(s.clerks[j]).None?
             && ClerkWait(s.clerks[j]).None?
    ensures Work(ClerkStep(s, j, w)) > Work(s)
  {
    var r := ClerkStep(s, j, w);
    assert r.custs == s.custs && r.master == s.master && r.clerks == s.clerks[j := r.clerks[j]]
      && r.completed == s.completed;
    assert WK(Progress, r.clerks[j]) > WK(Progress, s.clerks[j]);
    hide ClerkStep, Enabled, WK, Work;
    WorkOther(SetClerk(s, j, r.clerks[j]), r);
    SetClerkWork(s, j, r.clerks[j]);
  }

  lemma ClerkSignalWork(s: State, j: int, w: Proc)
    requires Enabled(s, PK(j), w) && RouteOk(s.clerks[j]) && ClerkSignals(s.clerks[j]).On?
    ensures Work(ClerkStep(s, j, w)) > Work(s)
  {
    var k := s.clerks[j];
    hide Work, ClerkStep, Signal, BlockedOn;
    ClerkSignalIs(s, j, w);
    hide Enabled;
    WorkOther(s, Recorded(s, k));
    SetClerkWork(Recorded(s, k), j, Signalled(k));
    SignalWork(SetClerk(Recorded(s, k), j, Signalled(k)), ClerkSignals(k).sem, w);
  }

  lemma ClerkWaitWork(s: State, j: int, w: Proc)
    requires Enabled(s, PK(j), w) && RouteOk(s.clerks[j]) && ClerkWait(s.clerks[j]).On?
    ensures Work(ClerkStep(s, j, w)) > Work(s)
  {
    var k := s.clerks[j];
    hide Work, ClerkStep, Signal, BlockedOn;
    ClerkWaitIs(s, j, w);
    hide Enabled;
    WorkOther(s, Down(s, ClerkWait(k).sem));
    SetClerkWork(Down(s, ClerkWait(k).sem), j, ClerkAfter(k, s.count[ClerkWait(k).sem]));
  }

  lemma ClerkWork(s: State, j: int, w: Proc)
    requires Enabled(s, PK(j), w) && RouteOk(s.clerks[j])
    ensures Work(ClerkStep(s, j, w)) > Work(s)
  {
    assert 0 <= j < |s.clerks|;
    hide Work, ClerkStep, Enabled, RouteOk;
    if ClerkSignals(s.clerks[j]).On? {
      ClerkSignalWork(s, j, w);
    } else if ClerkWait(s.clerks[j]).On? {
      ClerkWaitWork(s, j, w);
    } else {
      ClerkLocalWork(s, j, w);
    }
  }

  lemma StepWork(s: State, p: Proc, w: Proc)
    requires Shape(s) && Enabled(s, p, w)
    ensures Work(Step(s, p, w)) > Work(s)
  {
    match p
    case PC(i) => CustWork(s, i, w);
    case PK(j) => ShapeRoute(s, j); hide RouteOk; ClerkWork(s, j, w);
    case PM => hide SumC, SumK;
  }

  lemma {:induction false} WorkSums(cs: seq<Cust>, ks: seq<Clerk>)
    ensures 0 <= SumC(Progress, cs) <= 25 * |cs| && 0 <= SumK(Progress, ks) <= 29 * |ks| && SumK(Serving, ks) >= 0
    decreases |cs| + |ks|
  {
    if cs != [] {
      WorkSums(cs[1..], ks);
    } else if ks != [] {
      WorkSums(cs, ks[1..]);
    }
  }

  lemma WorkBound(s: State)
    requires Inv(s)
    ensures 0 <= s.completed ==> 0 <= Work(s)
    ensures Work(s) <= 57 * |s.custs| + 29 * |s.clerks|
  {
    hide Ok, View, SemOk, RouteOk, SumC, SumK, WC, WK;
    assert s.queueOut == s.completed + Net(s, Serving) && s.master.waits + One(s.master.blocked) <= |s.custs|;
    hide Inv, Shape, Accounts;
    WorkSums(s.custs, s.clerks);
    SlotReady(s);
    Bounds(s);
    NoSums(s.custs, s.clerks);
  }

  lemma {:induction false} RunWork(s: State, sched: seq<(Proc, Proc)>)
    requires Inv(s) && Run(s, sched)
    ensures Work(After(s, sched)) >= Work(s) + |sched|
    decreases |sched|
  {
    if sched != [] {
      InvStep(s, sched[0].0, sched[0].1);
      StepWork(s, sched[0].0, sched[0].1);
      hide Enabled, Step, Inv, Work;
      RunWork(Step(s, sched[0].0, sched[0].1), sched[1..]);
    }
  }

  /** No interleaving goes on for ever: N customers and C clerks make at most 57 N + 29 C steps. */
  lemma RunsEnd(s: State, sched: seq<(Proc, Proc)>)
    requires Initial(s) && Run(s, sched)
    ensures |sched| <= 57 * |s.custs| + 29 * |s.clerks|
  {
    InitialInv(s);
    WorkBound(s);
    RunInv(s, sched);
    RunWork(s, sched);
    WorkBound(After(s, sched));
    hide Inv, Work;
  }

  // ----- no run gets stuck -----

  /** Nothing can move any more. */
  ghost predicate Quiescent(s: State) {
    forall p, w :: !Enabled(s, p, w)
  }

  lemma {:induction false} BlockedC(sem: Sem, cs: seq<Cust>)
    ensures SumC(Blk(sem), cs) >= 0
    ensures SumC(Blk(sem), cs) > 0 <==> exists i | 0 <= i < |cs| :: cs[i].blocked && CustWait(cs[i]) == On(sem)
  {
    if cs != [] {
      BlockedC(sem, cs[1..]);
      if i :| 0 <= i < |cs[1..]| && cs[1..][i].blocked && CustWait(cs[1..][i]) == On(sem) {
        assert cs[i + 1] == cs[1..][i];
      }
      assert forall i | 1 <= i < |cs| :: cs[1..][i - 1] == cs[i];
    }
  }

  lemma {:induction false} BlockedK(sem: Sem, ks: seq<Clerk>)
    ensures SumK(Blk(sem), ks) >= 0
    ensures SumK(Blk(sem), ks) > 0 <==> exists j | 0 <= j < |ks| :: ks[j].blocked && ClerkWait(ks[j]) == On(sem)
  {
    if ks != [] {
      BlockedK(sem, ks[1..]);
      if j :| 0 <= j < |ks[1..]| && ks[1..][j].blocked && ClerkWait(ks[1..][j]) == On(sem) {
        assert ks[j + 1] == ks[1..][j];
      }
      assert forall j | 1 <= j < |ks| :: ks[1..][j - 1] == ks[j];
    }
  }

  /** A signal that has to wake somebody finds somebody. */
  lemma CanWake(s: State, sem: Sem)
    requires sem in s.count && SemOk(s, sem)
    ensures exists w :: CanSignal(s, sem, w)
  {
    BlockedC(sem, s.custs);
    BlockedK(sem, s.clerks);
    hide SumC, SumK;
    if s.count[sem] + 1 <= 0 {
      if i :| 0 <= i < |s.custs| && s.custs[i].blocked && CustWait(s.custs[i]) == On(sem) {
        assert CanSignal(s, sem, PC(i));
      } else if j :| 0 <= j < |s.clerks| && s.clerks[j].blocked && ClerkWait(s.clerks[j]) == On(sem) {
        assert CanSignal(s, sem, PK(j));
      } else {
        assert CanSignal(s, sem, PM);
      }
    } else {
      assert CanSignal(s, sem, PM);
    }
  }

  lemma CustId(s: State, i: int)
    requires Inv(s) && 0 <= i < |s.custs| && CRank(s.custs[i].pt) >= 3
    ensures 0 <= s.custs[i].id < s.counter <= |s.custs|
  {
    hide Accounts, Shape;
    var b := View(s);
    assert b.cs[i].stage >= 3;
    hide Slots, Loading, ServiceOk, TicketsOk, Bookings;
  }

  lemma SemIn(s: State, sem: Sem)
    requires Shape(s) && (sem.Finished? ==> 0 <= sem.id < |s.custs|)
    ensures sem in s.count
  {
  }

  /** Only the blocked and the finished stand still. */
  lemma CustStuck(s: State, i: int)
    requires Inv(s) && Quiescent(s) && 0 <= i < |s.custs|
    ensures s.custs[i].blocked || s.custs[i].pt.CDone?
  {
    hide Shape, Ok, View, CanSignal, SemOk, Quiescent;
    var c := s.custs[i];
    if c.pt.CWaitFinished? { CustId(s, i); }
    var w := PM;
    if CustWait(c).On? { SemIn(s, CustWait(c).sem); }
    if CustSignals(c.pt).On? {
      SemIn(s, CustSignals(c.pt).sem);
      CanWake(s, CustSignals(c.pt).sem);
      w :| CanSignal(s, CustSignals(c.pt).sem, w);
    }
    assert c.blocked || c.pt.CDone? || Enabled(s, PC(i), w);
    StandsStill(s, PC(i), w);
  }

  lemma StandsStill(s: State, p: Proc, w: Proc)
    requires Quiescent(s)
    ensures !Enabled(s, p, w)
  {
  }

  lemma ClerkStuck(s: State, j: int)
    requires Inv(s) && Quiescent(s) && 0 <= j < |s.clerks|
    ensures s.clerks[j].blocked
  {
    ClerkFacts(s, j);
    hide Shape, Ok, View, CanSignal, SemOk, Quiescent;
    var k := s.clerks[j];
    var w := PM;
    if ClerkWait(k).On? { SemIn(s, ClerkWait(k).sem); }
    if ClerkSignals(k).On? {
      SemIn(s, ClerkSignals(k).sem);
      CanWake(s, ClerkSignals(k).sem);
      w :| CanSignal(s, ClerkSignals(k).sem, w);
    }
    assert k.blocked || Enabled(s, PK(j), w);
    StandsStill(s, PK(j), w);
  }

  lemma MasterStuck(s: State)
    requires Inv(s) && Quiescent(s)
    ensures s.master.blocked || s.master.waits == |s.custs|
  {
    SemIn(s, Terminated);
    hide Accounts, Ok;
    StandsStill(s, PM, PM);
  }

  lemma {:induction false} NoCharge(sem: Sem, cs: seq<Cust>, ks: seq<Clerk>)
    requires Mutex(sem) && (forall i | 0 <= i < |cs| :: !ChargesC(sem, cs[i]))
             && (forall j | 0 <= j < |ks| :: !ChargesK(sem, ks[j]))
    requires forall j | 0 <= j < |ks| :: RouteOk(ks[j])
    ensures SumC(Tok(sem), cs) + SumC(Blk(sem), cs) == 0 && SumK(Tok(sem), ks) + SumK(Blk(sem), ks) == 0
    decreases |cs| + |ks|
  {
    if cs != [] {
      NoCharge(sem, cs[1..], ks);
    } else if ks != [] {
      NoCharge(sem, cs, ks[1..]);
    }
  }

  /** A mutex that nobody holds is free and nobody is blocked on it. */
  lemma FreeMutex(s: State, sem: Sem)
    requires Shape(s) && Accounts(s) && Mutex(sem)
    requires (forall i | 0 <= i < |s.custs| :: !ChargesC(sem, s.custs[i]))
             && (forall j | 0 <= j < |s.clerks| :: !ChargesK(sem, s.clerks[j]))
    ensures sem in s.count && s.count[sem] == 1
    ensures forall i | 0 <= i < |s.custs| && s.custs[i].blocked :: CustWait(s.custs[i]) != On(sem)
    ensures forall j | 0 <= j < |s.clerks| && s.clerks[j].blocked :: ClerkWait(s.clerks[j]) != On(sem)
  {
    assert sem in s.count && SemOk(s, sem);
    NoCharge(sem, s.custs, s.clerks);
    BlockedC(sem, s.custs);
    BlockedK(sem, s.clerks);
    hide SumC, SumK, Shape, Accounts, RouteOk, ChargesC, ChargesK;
  }

  predicate AtRest(c: Cust) {
    (c.pt.CWaitClerk? && c.blocked) || (c.pt.CWaitFinished? && c.blocked) || c.pt.CDone?
  }

  predicate Idle(k: Clerk) {
    k.pt.KWaitReady? && k.blocked
  }

  /** Nobody stands at a mutex: its holder could move. */
  lemma Rest(s: State)
    requires Inv(s) && Quiescent(s)
    ensures forall i | 0 <= i < |s.custs| :: AtRest(s.custs[i])
    ensures forall j | 0 <= j < |s.clerks| :: Idle(s.clerks[j])
    ensures forall sem | sem in s.count && Mutex(sem) :: s.count[sem] == 1
  {
    forall i | 0 <= i < |s.custs| ensures s.custs[i].pt.CDone? || (s.custs[i].blocked && CustWait(s.custs[i]).On?) {
      CustStuck(s, i);
    }
    forall j | 0 <= j < |s.clerks| ensures RouteOk(s.clerks[j]) && s.clerks[j].blocked && ClerkWait(s.clerks[j]).On? {
      ClerkStuck(s, j);
      ShapeRoute(s, j);
    }
    assert Shape(s) && Accounts(s);
    hide Shape, Accounts, Ok, Quiescent, View;
    RestMutexes(s);
  }

  lemma RestMutexes(s: State)
    requires Shape(s) && Accounts(s)
    requires forall i | 0 <= i < |s.custs| :: s.custs[i].pt.CDone? || (s.custs[i].blocked && CustWait(s.custs[i]).On?)
    requires forall j | 0 <= j < |s.clerks| :: RouteOk(s.clerks[j]) && s.clerks[j].blocked && ClerkWait(s.clerks[j]).On?
    ensures forall i | 0 <= i < |s.custs| :: AtRest(s.custs[i])
    ensures forall j | 0 <= j < |s.clerks| :: Idle(s.clerks[j])
    ensures forall sem | sem in s.count && Mutex(sem) :: s.count[sem] == 1
  {
    hide Shape, Accounts;
    FreeMutex(s, CounterCS);
    FreeMutex(s, QueueCS);
    FreeMutex(s, Flight2CS);
    FreeMutex(s, Flight1CS);
  }

  // ----- what the accounts say at rest -----

  lemma {:induction false} IdleSums(ks: seq<Clerk>)
    requires forall j | 0 <= j < |ks| :: Idle(ks[j])
    ensures SumK(Tok(CustReady), ks) == -|ks| && SumK(Blk(CustReady), ks) == |ks|
    ensures forall key: Key | !key.Progress? && key != Tok(CustReady) && key != Blk(CustReady) :: SumK(key, ks) == 0
  {
    if ks != [] {
      IdleSums(ks[1..]);
    }
  }

  lemma {:induction false} RestSums(cs: seq<Cust>)
    requires forall i | 0 <= i < |cs| :: AtRest(cs[i])
    ensures SumC(Queued, cs) == SumC(Tok(CustReady), cs) && SumC(Blk(CustReady), cs) == 0
    ensures (forall i | 0 <= i < |cs| :: !cs[i].pt.CWaitFinished?) ==>
              SumC(Tok(ClerkSem), cs) == -|cs| && SumC(Blk(ClerkSem), cs) + SumC(Queued, cs) == |cs|
  {
    if cs != [] {
      assert forall i | 0 <= i < |cs[1..]| :: cs[1..][i] == cs[i + 1];
      RestSums(cs[1..]);
    }
  }

  /** All the customers that entered the queue have left it. */
  lemma QueueEmpty(s: State)
    requires Inv(s) && Quiescent(s) && |s.clerks| > 0
    ensures s.queueIn == s.queueOut == s.completed == SumC(Queued, s.custs) && s.count[CustReady] == -|s.clerks|
  {
    Rest(s);
    IdleSums(s.clerks);
    RestSums(s.custs);
    NoSums(s.custs, s.clerks);
    hide SumC, SumK, Ok, Quiescent, AtRest, Idle, View, WC, WK;
    assert CustReady in s.count by { SemIn(s, CustReady); }
    hide Shape;
    assert SemOk(s, CustReady);
  }

  lemma {:induction false} OnlyOne(cs: seq<Cust>, i: nat)
    requires i < |cs| && CRank(cs[i].pt) >= 10 && (cs[i].pt.CWaitFinished? ==> cs[i].blocked)
    requires forall n | 0 <= n < |cs| && n != i && CRank(cs[n].pt) >= 3 :: cs[n].id != cs[i].id
    ensures SumC(Tok(Finished(cs[i].id)), cs) == -1
  {
    var x := cs[i].id;
    assert forall n | 0 <= n < |cs[1..]| :: cs[1..][n] == cs[n + 1];
    if i > 0 {
      OnlyOne(cs[1..], i - 1);
    } else {
      Absent(cs[1..], x);
    }
  }

  lemma {:induction false} Absent(cs: seq<Cust>, x: int)
    requires forall n | 0 <= n < |cs| && CRank(cs[n].pt) >= 3 :: cs[n].id != x
    ensures SumC(Tok(Finished(x)), cs) == 0
  {
    if cs != [] {
      assert forall n | 0 <= n < |cs[1..]| :: cs[1..][n] == cs[n + 1];
      Absent(cs[1..], x);
    }
  }

  lemma IdsDiffer(s: State)
    requires Inv(s)
    ensures forall i, n | 0 <= i < |s.custs| && 0 <= n < |s.custs| && i != n && CRank(s.custs[i].pt) >= 3
            && CRank(s.custs[n].pt) >= 3 ::
              s.custs[i].id != s.custs[n].id
  {
    hide Shape, Accounts, Slots, Loading, ServiceOk, TicketsOk, Bookings;
    var b := View(s);
    assert Ids(b.cs, b.counter);
    forall i, n | 0 <= i < |s.custs| && 0 <= n < |s.custs| && i != n && CRank(s.custs[i].pt) >= 3
      && CRank(s.custs[n].pt) >= 3
      ensures s.custs[i].id != s.custs[n].id
    {
      assert b.cs[i] == CLook(s.custs[i]) && b.cs[n] == CLook(s.custs[n]);
    }
  }

  /** With every dequeued customer past its clerk, whoever entered the queue is finished. */
  lemma QueuedFinished(s: State, i: int)
    requires Inv(s) && s.queueIn == s.queueOut && (forall j | 0 <= j < |s.clerks| :: s.clerks[j].pt.KWaitReady?)
    requires 0 <= i < |s.custs| && CRank(s.custs[i].pt) >= 8
    ensures s.custs[i].id in s.finished
  {
    hide Shape, Accounts, TicketsOk, Bookings;
    var b := View(s);
    assert b.cs[i].stage == 8;
    assert Holds(b.queue, b.queueIn, b.cs[i].id) by { hide ServiceOk; }
    var k :| 0 <= k < b.queueIn && k < |b.queue| && b.queue[k] == Id(b.cs[i].id);
    assert !Served(b.ks, b.cs[i].id, 4);
    hide Ids, Slots, Loading;
  }

  /** A customer past the queue has its finished signal: the count is back at zero and nobody waits for it. */
  lemma FinishedCount(s: State, i: int)
    requires Inv(s) && (forall j | 0 <= j < |s.clerks| :: Idle(s.clerks[j])) && s.queueIn == s.queueOut
    requires 0 <= i < |s.custs| && CRank(s.custs[i].pt) >= 10 && (s.custs[i].pt.CWaitFinished? ==> s.custs[i].blocked)
    ensures Finished(s.custs[i].id) in s.count && s.count[Finished(s.custs[i].id)] == 0
            && SumC(Blk(Finished(s.custs[i].id)), s.custs) == 0
  {
    CustId(s, i);
    IdsDiffer(s);
    QueuedFinished(s, i);
    var sem := Finished(s.custs[i].id);
    SemIn(s, sem);
    OnlyOne(s.custs, i);
    IdleSums(s.clerks);
    hide SumC, SumK, Shape, Ok, View;
    assert SemOk(s, sem);
  }

  lemma NoneWaitsFinished(s: State)
    requires Inv(s) && Quiescent(s) && |s.clerks| > 0
    ensures forall i | 0 <= i < |s.custs| :: !s.custs[i].pt.CWaitFinished?
  {
    Rest(s);
    QueueEmpty(s);
    hide Inv, Quiescent, SumC;
    forall i | 0 <= i < |s.custs| ensures !s.custs[i].pt.CWaitFinished? {
      if s.custs[i].pt.CWaitFinished? {
        FinishedCount(s, i);
        BlockedC(Finished(s.custs[i].id), s.custs);
      }
    }
  }

  lemma AllDone(s: State)
    requires Inv(s) && Quiescent(s) && |s.clerks| > 0
    ensures forall i | 0 <= i < |s.custs| :: s.custs[i].pt.CDone?
  {
    Rest(s);
    QueueEmpty(s);
    NoneWaitsFinished(s);
    RestSums(s.custs);
    IdleSums(s.clerks);
    BlockedC(ClerkSem, s.custs);
    SemIn(s, ClerkSem);
    hide SumC, SumK, Shape, Ok, Quiescent;
    assert SemOk(s, ClerkSem);
  }

  // ----- the end of every run -----

  /** n different numbers below n are all of them. */
  lemma Pigeonhole(q: seq<int>)
    requires Distinct(q) && forall x | x in q :: 0 <= x < |q|
    ensures forall x | 0 <= x < |q| :: x in q
  {
    DistinctCard(q);
    SubsetCard((set x | x in q), Range(0, |q|));
    assert forall x | x in Range(0, |q|) :: x in q;
  }

  /** Once all customers are done they hold all the ids. */
  lemma EveryId(s: State, x: int) returns (i: int)
    requires Inv(s) && (forall i | 0 <= i < |s.custs| :: s.custs[i].pt.CDone?) && 0 <= x < |s.custs|
    ensures 0 <= i < |s.custs| && s.custs[i].id == x
  {
    var q := seq(|s.custs|, n requires 0 <= n < |s.custs| => s.custs[n].id);
    IdsDiffer(s);
    forall n | 0 <= n < |s.custs| ensures 0 <= s.custs[n].id < |s.custs| { CustId(s, n); }
    hide Inv;
    Pigeonhole(q);
    assert x in q;
    i :| 0 <= i < |q| && q[i] == x;
  }

  lemma {:induction false} DoneSums(cs: seq<Cust>)
    requires forall i | 0 <= i < |cs| :: cs[i].pt.CDone?
    ensures SumC(Tok(Terminated), cs) == |cs| && SumC(Queued, cs) == |cs| && SumC(Tok(ClerkSem), cs) == -|cs|
    ensures SumC(Blk(Terminated), cs) == 0
  {
    if cs != [] {
      DoneSums(cs[1..]);
    }
  }

  /** How the master finds the processes and the semaphores when it checks them. */
  ghost predicate AllServed(s: State) {
    && (forall i | 0 <= i < |s.custs| :: s.custs[i].pt.CDone?)
    && (forall j | 0 <= j < |s.clerks| :: Idle(s.clerks[j]))
    && s.master == Master(|s.custs|, false)
    && s.queueIn == s.queueOut == s.completed == |s.custs|
    && (forall x | 0 <= x < |s.custs| :: x in s.finished)
    && (forall sem :: sem in s.count <==> (sem.Finished? ==> 0 <= sem.id < |s.custs|))
    && (forall sem | sem in s.count :: s.count[sem] ==
          if Mutex(sem) then 1 else if sem.ClerkSem? then |s.clerks| else if sem.CustReady? then -|s.clerks| else 0)
  }

  lemma MasterDone(s: State)
    requires Inv(s) && Quiescent(s) && forall i | 0 <= i < |s.custs| :: s.custs[i].pt.CDone?
    requires forall j | 0 <= j < |s.clerks| :: Idle(s.clerks[j])
    ensures s.master == Master(|s.custs|, false) && Terminated in s.count && s.count[Terminated] == 0
  {
    MasterStuck(s);
    SemIn(s, Terminated);
    DoneSums(s.custs);
    IdleSums(s.clerks);
    assert s.master.waits + One(s.master.blocked) <= |s.custs|;
    hide SumC, SumK, Shape, Ok, View, Quiescent;
    assert SemOk(s, Terminated);
  }

  lemma EveryCustomer(s: State)
    requires Inv(s) && (forall i | 0 <= i < |s.custs| :: s.custs[i].pt.CDone?)
             && (forall j | 0 <= j < |s.clerks| :: Idle(s.clerks[j]))
    requires s.queueIn == s.queueOut
    ensures forall x | 0 <= x < |s.custs| :: x in s.finished && Finished(x) in s.count && s.count[Finished(x)] == 0
  {
    hide Inv;
    forall x | 0 <= x < |s.custs| ensures x in s.finished && Finished(x) in s.count && s.count[Finished(x)] == 0 {
      var i := EveryId(s, x);
      QueuedFinished(s, i);
      FinishedCount(s, i);
    }
  }

  lemma ClerkCount(s: State)
    requires Inv(s) && (forall i | 0 <= i < |s.custs| :: s.custs[i].pt.CDone?)
             && (forall j | 0 <= j < |s.clerks| :: Idle(s.clerks[j]))
    requires s.completed == |s.custs|
    ensures ClerkSem in s.count && s.count[ClerkSem] == |s.clerks|
  {
    SemIn(s, ClerkSem);
    DoneSums(s.custs);
    IdleSums(s.clerks);
    hide SumC, SumK, Shape, Ok, View;
    assert SemOk(s, ClerkSem);
  }

  lemma SemaphoreNames(s: State)
    requires Shape(s)
    ensures forall sem :: sem in s.count <==> (sem.Finished? ==> 0 <= sem.id < |s.custs|)
  {
  }

  /** A state from which no process can move is the end the master checks for. */
  lemma QuiescentIsEnd(s: State)
    requires Inv(s) && Quiescent(s) && |s.clerks| > 0
    ensures AllServed(s)
  {
    assert ClerkSem in s.count && CustReady in s.count by { SemIn(s, ClerkSem); SemIn(s, CustReady); }
    SemaphoreNames(s);
    assert forall sem :: Mutex(sem) || sem.ClerkSem? || sem.CustReady? || sem.Terminated? || sem.Finished?;
    hide Mutex;
    hide Inv, Quiescent, SumC, Idle;
    Rest(s);
    QueueEmpty(s);
    AllDone(s);
    DoneSums(s.custs);
    MasterDone(s);
    ClerkCount(s);
    EveryCustomer(s);
  }

  ghost predicate Settled(s: State, x: int) {
    && 0 <= x < |s.flight|
    && (s.flight[x] == 1 ==> x in s.booked1 || s.left1 == 0)
    && (s.flight[x] == 2 ==> x in s.booked2 || s.left2 == 0)
    && (s.flight[x] == 3 ==> (x in s.booked1 && x in s.booked2)
                             || (x !in s.booked1 && x !in s.booked2 && (s.left1 == 0 || s.left2 == 0)))
  }

  /** What holds at every moment of a run, whatever the interleaving. */
  ghost predicate Safe(s: State) {
    // Tickets are conserved, and only those who wanted a flight are on it, each once.
    && s.left1 >= 0 && s.left1 + |s.booked1| == s.tickets1 && s.left2 >= 0 && s.left2 + |s.booked2| == s.tickets2
    && Distinct(s.booked1) && (forall x | x in s.booked1 :: 0 <= x < |s.flight| && s.flight[x] in {1, 3})
    && Distinct(s.booked2) && (forall x | x in s.booked2 :: 0 <= x < |s.flight| && s.flight[x] in {2, 3})
    // A finished customer is on all the flights it wanted, or on none because one of them is sold out.
    && (forall x | x in s.finished :: Settled(s, x))
    // Nobody queues twice; a dequeued customer is with one clerk and not finished before that clerk says so.
    && 0 <= s.queueOut <= s.queueIn <= |s.queue|
    && (forall k, l | 0 <= k < l < s.queueIn :: s.queue[k] != s.queue[l])
    && (forall j, n | 0 <= j < n < |s.clerks| && KRank(s.clerks[j].pt) >= 4 && KRank(s.clerks[n].pt) >= 4 ::
          s.clerks[j].id != s.clerks[n].id)
    && (forall j | 0 <= j < |s.clerks| && 4 <= KRank(s.clerks[j].pt) <= 13 :: s.clerks[j].id !in s.finished)
    // The slot a clerk reads has been written, and the one a customer writes exists.
    && (forall j | 0 <= j < |s.clerks| && s.clerks[j].pt.KLoad? :: s.queueOut < s.queueIn && s.queue[s.queueOut].Id?)
    && (forall j | 0 <= j < |s.clerks| && KRank(s.clerks[j].pt) >= 4 :: 0 <= s.clerks[j].id < |s.flight|)
    && (forall i | 0 <= i < |s.custs| && s.custs[i].pt.CStore? :: s.queueIn < |s.queue|)
  }

  lemma ClerksSafe(s: State)
    requires Inv(s)
    ensures forall j, n | 0 <= j < n < |s.clerks| && KRank(s.clerks[j].pt) >= 4 && KRank(s.clerks[n].pt) >= 4 ::
              s.clerks[j].id != s.clerks[n].id
    ensures forall j | 0 <= j < |s.clerks| && 4 <= KRank(s.clerks[j].pt) <= 13 :: s.clerks[j].id !in s.finished
  {
    hide Shape, Accounts, QueueOk, TicketsOk, Bookings, Knows;
    var b := View(s);
    forall j, n | 0 <= j < n < |s.clerks| && KRank(s.clerks[j].pt) >= 4 && KRank(s.clerks[n].pt) >= 4
      ensures s.clerks[j].id != s.clerks[n].id
    {
      assert b.ks[j] == KLook(s.clerks[j]) && b.ks[n] == KLook(s.clerks[n]);
    }
    forall j | 0 <= j < |s.clerks| && 4 <= KRank(s.clerks[j].pt) <= 13 ensures s.clerks[j].id !in s.finished {
      assert b.ks[j] == KLook(s.clerks[j]);
    }
  }

  lemma BoardSafe(s: State)
    requires Inv(s)
    ensures s.left1 >= 0 && s.left1 + |s.booked1| == s.tickets1 && s.left2 >= 0 && s.left2 + |s.booked2| == s.tickets2
    ensures Distinct(s.booked1) && (forall x | x in s.booked1 :: 0 <= x < |s.flight| && Needs1(s.flight[x]))
    ensures Distinct(s.booked2) && (forall x | x in s.booked2 :: 0 <= x < |s.flight| && Needs2(s.flight[x]))
    ensures 0 <= s.queueOut <= s.queueIn <= |s.queue| == |s.flight|
    ensures forall k, l | 0 <= k < l < s.queueIn :: s.queue[k] != s.queue[l]
    ensures s.queueOut < s.queueIn ==> s.queue[s.queueOut].Id?
  {
    var b := View(s);
    hide Shape, Accounts, ServiceOk, DeniedOk, DecidedOk, Distinct;
  }

  lemma FinishedSettled(s: State)
    requires Inv(s)
    ensures forall x | x in s.finished :: Settled(s, x)
  {
    BoardSafe(s);
    forall x | x in s.finished ensures Settled(s, x) {
      FinishedDecided(s, x);
      if x in s.denied { DeniedFacts(s, x); }
      hide Inv, Distinct;
    }
  }

  lemma InvSafe(s: State)
    requires Inv(s)
    ensures Safe(s)
  {
    hide Inv, Distinct, KRank, Settled;
    ClerksSafe(s);
    BoardSafe(s);
    FinishedSettled(s);
    SlotsSafe(s);
    ClerkIds(s);
  }

  lemma SlotsSafe(s: State)
    requires Inv(s)
    ensures forall j | 0 <= j < |s.clerks| && s.clerks[j].pt.KLoad? :: s.queueOut < s.queueIn
    ensures forall i | 0 <= i < |s.custs| && s.custs[i].pt.CStore? :: s.queueIn < |s.queue|
  {
    assert |s.custs| == |s.queue|;
    hide Shape, Accounts, Ok;
    SlotReady(s);
    Bounds(s);
  }

  lemma ClerkIds(s: State)
    requires Inv(s)
    ensures forall j | 0 <= j < |s.clerks| && KRank(s.clerks[j].pt) >= 4 :: 0 <= s.clerks[j].id < |s.flight|
  {
    hide Inv;
    forall j | 0 <= j < |s.clerks| && KRank(s.clerks[j].pt) >= 4 ensures 0 <= s.clerks[j].id < |s.flight| {
      ClerkFacts(s, j);
    }
  }

  /** The protocol is safe in every interleaving of any number of customers and clerks. */
  lemma EveryRunSafe(s0: State, sched: seq<(Proc, Proc)>)
    requires Initial(s0) && Run(s0, sched)
    ensures SameProblem(s0, After(s0, sched)) && Safe(After(s0, sched))
  {
    InitialInv(s0);
    RunInv(s0, sched);
    hide Inv, Safe;
    InvSafe(After(s0, sched));
  }

  /** A run that cannot go on has served everybody and left the semaphores as the master expects them. */
  lemma EveryRunServes(s0: State, sched: seq<(Proc, Proc)>)
    requires Initial(s0) && Run(s0, sched) && Quiescent(After(s0, sched)) && |s0.clerks| > 0
    ensures AllServed(After(s0, sched))
  {
    InitialInv(s0);
    RunInv(s0, sched);
    hide Inv, Quiescent;
    QuiescentIsEnd(After(s0, sched));
  }

  // ----- who is booked -----

  /** The customers of flight type `t`. */
  ghost function OfType(flight: seq<int>, t: int): set<int> {
    set x | 0 <= x < |flight| && flight[x] == t
  }

  /** Tickets for everybody who wants one: types 1 and 3 need flight 1, types 2 and 3 flight 2. */
  ghost predicate Enough(s: State) {
    && |OfType(s.flight, 1)| + |OfType(s.flight, 3)| <= s.tickets1
    && |OfType(s.flight, 2)| + |OfType(s.flight, 3)| <= s.tickets2
  }

  /** What the master checks of the bookings. */
  ghost predicate EveryoneBooked(s: State) {
    forall x | 0 <= x < |s.flight| ::
      && (s.flight[x] == 1 ==> x in s.booked1)
      && (s.flight[x] == 2 ==> x in s.booked2)
      && (s.flight[x] == 3 ==> x in s.booked1 && x in s.booked2)
  }

  ghost function Wants1(flight: seq<int>): set<int> {
    set x | 0 <= x < |flight| && Needs1(flight[x])
  }

  ghost function Wants2(flight: seq<int>): set<int> {
    set x | 0 <= x < |flight| && Needs2(flight[x])
  }

  lemma WantsAre(flight: seq<int>)
    ensures |Wants1(flight)| == |OfType(flight, 1)| + |OfType(flight, 3)|
    ensures |Wants2(flight)| == |OfType(flight, 2)| + |OfType(flight, 3)|
  {
    assert Wants1(flight) == OfType(flight, 1) + OfType(flight, 3);
    assert Wants2(flight) == OfType(flight, 2) + OfType(flight, 3);
  }

  /** A list of different members of `all` that leaves one out is shorter. */
  lemma LeftOut(q: seq<int>, all: set<int>, x: int)
    requires Distinct(q) && (forall y | y in q :: y in all) && x in all && x !in q
    ensures |q| < |all|
  {
    DistinctCard(q);
    SubsetCard((set y | y in q), all - {x});
  }

  lemma NobodyDenied(s: State)
    requires Inv(s) && Enough(s)
    ensures s.denied == {}
  {
    BoardSafe(s);
    WantsAre(s.flight);
    hide Inv, Distinct, OfType;
    forall x ensures x !in s.denied {
      if x in s.denied {
        DeniedFacts(s, x);
        if Needs1(s.flight[x]) && s.left1 == 0 {
          LeftOut(s.booked1, Wants1(s.flight), x);
        } else {
          LeftOut(s.booked2, Wants2(s.flight), x);
        }
      }
    }
  }

  lemma DeniedFacts(s: State, x: int)
    requires Inv(s) && x in s.denied
    ensures 0 <= x < |s.flight| && !Room(s.flight[x], s.left1, s.left2) && x !in s.booked1 && x !in s.booked2
  {
    hide Shape, Accounts, QueueOk, ServiceOk, TicketsOk, Booked1Ok, Booked2Ok, DecidedOk;
  }

  lemma FinishedDecided(s: State, x: int)
    requires Inv(s) && x in s.finished
    ensures Decided(View(s), x)
  {
    hide Shape, Accounts, QueueOk, ServiceOk, TicketsOk, Booked1Ok, Booked2Ok, DeniedOk;
  }

  lemma BookedOnAll(s: State, x: int)
    requires Inv(s) && s.denied == {} && x in s.finished && 0 <= x < |s.flight|
    ensures s.flight[x] == 1 ==> x in s.booked1
    ensures s.flight[x] == 2 ==> x in s.booked2
    ensures s.flight[x] == 3 ==> x in s.booked1 && x in s.booked2
  {
    FinishedDecided(s, x);
    hide Inv;
  }

  lemma TicketsSufficed(s: State)
    requires Inv(s) && EveryoneBooked(s)
    ensures Enough(s)
  {
    BoardSafe(s);
    WantsAre(s.flight);
    hide Inv, OfType;
    DistinctCard(s.booked1);
    DistinctCard(s.booked2);
    SubsetCard(Wants1(s.flight), set x | x in s.booked1);
    SubsetCard(Wants2(s.flight), set x | x in s.booked2);
  }

  /** At the end everybody is booked on what they wanted exactly when there were tickets for all of them. */
  lemma BookedIffEnough(s0: State, sched: seq<(Proc, Proc)>)
    requires Initial(s0) && Run(s0, sched) && Quiescent(After(s0, sched)) && |s0.clerks| > 0
    ensures EveryoneBooked(After(s0, sched)) <==> Enough(s0)
  {
    InitialInv(s0);
    RunInv(s0, sched);
    var s := After(s0, sched);
    QuiescentIsEnd(s);
    assert Enough(s0) == Enough(s);
    assert |s.custs| == |s.flight|;
    hide After, Run, Initial, Inv, Quiescent, Enough;
    if Enough(s) {
      NobodyDenied(s);
      forall x | 0 <= x < |s.flight| { BookedOnAll(s, x); }
    }
    if EveryoneBooked(s) {
      TicketsSufficed(s);
    }
  }

  /** The master's layout: `n1` customers of type 1, then `n2` of type 2, then those of type 3. */
  ghost predicate LaidOut(flight: seq<int>, n1: nat, n2: nat) {
    n1 + n2 <= |flight|
    && forall x | 0 <= x < |flight| :: flight[x] == if x < n1 then 1 else if x < n1 + n2 then 2 else 3
  }

  lemma LaidOutTypes(flight: seq<int>, n1: nat, n2: nat)
    requires LaidOut(flight, n1, n2)
    ensures |OfType(flight, 1)| == n1 && |OfType(flight, 2)| == n2 && |OfType(flight, 3)| == |flight| - n1 - n2
  {
    assert OfType(flight, 1) == Range(0, n1);
    assert OfType(flight, 2) == Range(n1, n1 + n2);
    assert OfType(flight, 3) == Range(n1 + n2, |flight|);
  }

  /** The semaphore counts that the master asserts, for `n` customers and `c` clerks. */
  ghost predicate CountsAsAsserted(s: State, n: int, c: int) {
    && (forall sem | sem in {CounterCS, QueueCS, Flight1CS, Flight2CS} :: sem in s.count && s.count[sem] == 1)
    && ClerkSem in s.count && s.count[ClerkSem] == c && CustReady in s.count && s.count[CustReady] == -c
    && Terminated in s.count && s.count[Terminated] == 0
    && (forall x | 0 <= x < n :: Finished(x) in s.count && s.count[Finished(x)] == 0)
  }

  lemma ServedCounts(s: State)
    requires AllServed(s)
    ensures CountsAsAsserted(s, |s.custs|, |s.clerks|)
  {
  }

  /** The master with its 15 customers, 3 clerks and 8 and 15 tickets: no interleaving makes its checks fail. */
  lemma MasterPasses(s0: State, sched: seq<(Proc, Proc)>)
    requires Initial(s0) && |s0.flight| == 15 && LaidOut(s0.flight, 3, 8) && |s0.clerks| == 3
    requires s0.tickets1 == 8 && s0.tickets2 == 15
    requires Run(s0, sched) && Quiescent(After(s0, sched))
    ensures var s := After(s0, sched);
            && (forall x | 0 <= x < 3 :: x in s.booked1) && (forall x | 3 <= x < 11 :: x in s.booked2)
            && (forall x | 11 <= x < 15 :: x in s.booked1 && x in s.booked2)
            && s.master == Master(15, false) && CountsAsAsserted(s, 15, 3)
  {
    LaidOutTypes(s0.flight, 3, 8);
    BookedIffEnough(s0, sched);
    EveryRunServes(s0, sched);
    EveryRunSafe(s0, sched);
    var s := After(s0, sched);
    hide After, Run, Quiescent, Safe, CountsAsAsserted;
    assert |s.custs| == 15 && |s.clerks| == 3 && s.master == Master(15, false);
    ServedCounts(s);
    hide AllServed, Initial;
  }
}
