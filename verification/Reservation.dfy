/** The airline reservation program: customers, clerks and the master as one step machine over semaphores. */
module Reservation {
  import opened Counting

  datatype Sem = CounterCS | QueueCS | Flight1CS | Flight2CS | ClerkSem | CustReady | Terminated | Finished(id: int)

  datatype CPoint =
    | CWaitCounter | CRead | CWrite | CSignalCounter | CWaitClerk | CWaitQueue | CStore | CAdvance
    | CSignalQueue | CSignalReady | CWaitFinished | CTerminate | CDone

  datatype KPoint =
    | KWaitReady | KWaitQueue | KLoad | KAdvance | KSignalQueue | KSwitch | KWaitFlight1 | KWaitFlight2
    | KTest | KBook1 | KBook2 | KSignalFlight1 | KSignalFlight2 | KSignalFinished | KSignalClerk

  /** `blocked` processes stand at a wait whose decrement has been made. */
  datatype Cust = Cust(pt: CPoint, blocked: bool, id: int)
  datatype Clerk = Clerk(pt: KPoint, blocked: bool, id: int, flight: int)
  datatype Master = Master(waits: nat, blocked: bool)

  datatype Slot = Unwritten | Id(id: int)

  datatype Proc = PC(i: int) | PK(j: int) | PM

  /** Shared memory, the processes, and what has been finished, denied and completed so far. */
  datatype State = State(
    flight: seq<int>, tickets1: nat, tickets2: nat,
    custs: seq<Cust>, clerks: seq<Clerk>, master: Master, count: map<Sem, int>,
    counter: int, queueIn: int, queueOut: int, queue: seq<Slot>,
    left1: int, left2: int, booked1: seq<int>, booked2: seq<int>,
    finished: set<int>, denied: set<int>, completed: int)

  predicate Needs1(flight: int) { flight == 1 || flight == 3 }
  predicate Needs2(flight: int) { flight == 2 || flight == 3 }

  function CRank(pt: CPoint): nat {
    match pt
    case CWaitCounter => 0 case CRead => 1 case CWrite => 2 case CSignalCounter => 3 case CWaitClerk => 4
    case CWaitQueue => 5 case CStore => 6 case CAdvance => 7 case CSignalQueue => 8 case CSignalReady => 9
    case CWaitFinished => 10 case CTerminate => 11 case CDone => 12
  }

  function KRank(pt: KPoint): nat {
    match pt
    case KWaitReady => 0 case KWaitQueue => 1 case KLoad => 2 case KAdvance => 3 case KSignalQueue => 4
    case KSwitch => 5 case KWaitFlight1 => 6 case KWaitFlight2 => 7 case KTest => 8 case KBook1 => 9
    case KBook2 => 10 case KSignalFlight1 => 11 case KSignalFlight2 => 12 case KSignalFinished => 13
    case KSignalClerk => 14
  }

  // ----- what a process waits for and where it goes from there -----

  datatype Wait = None | On(sem: Sem)

  function CustWait(c: Cust): Wait {
    match c.pt
    case CWaitCounter => On(CounterCS)
    case CWaitClerk => On(ClerkSem)
    case CWaitQueue => On(QueueCS)
    case CWaitFinished => On(Finished(c.id))
    case _ => None
  }

  function CustPassed(c: Cust): Cust {
    Cust(match c.pt
         case CWaitCounter => CRead
         case CWaitClerk => CWaitQueue
         case CWaitQueue => CStore
         case _ => CTerminate, false, c.id)
  }

  function ClerkWait(k: Clerk): Wait {
    match k.pt
    case KWaitReady => On(CustReady)
    case KWaitQueue => On(QueueCS)
    case KWaitFlight1 => On(Flight1CS)
    case KWaitFlight2 => On(Flight2CS)
    case _ => None
  }

  function ClerkPassed(k: Clerk): Clerk {
    k.(blocked := false,
       pt := match k.pt
             case KWaitReady => KWaitQueue
             case KWaitQueue => KLoad
             case KWaitFlight1 => if Needs2(k.flight) then KWaitFlight2 else KTest
             case _ => KTest)
  }

  predicate BlockedOn(s: State, p: Proc, sem: Sem) {
    match p
    case PC(i) => 0 <= i < |s.custs| && s.custs[i].blocked && CustWait(s.custs[i]) == On(sem)
    case PK(j) => 0 <= j < |s.clerks| && s.clerks[j].blocked && ClerkWait(s.clerks[j]) == On(sem)
    case PM => s.master.blocked && sem == Terminated
  }

  /** A process blocked on its semaphore goes on behind the wait. */
  function Resume(s: State, p: Proc): State
    requires exists sem :: BlockedOn(s, p, sem)
  {
    match p
    case PC(i) => s.(custs := s.custs[i := CustPassed(s.custs[i])])
    case PK(j) => s.(clerks := s.clerks[j := ClerkPassed(s.clerks[j])])
    case PM => s.(master := Master(s.master.waits + 1, false))
  }

  /** signal_semaphore: increments; if the count stays at or below zero, one of the blocked, `w`, goes on. */
  ghost predicate CanSignal(s: State, sem: Sem, w: Proc) {
    sem in s.count && (s.count[sem] + 1 <= 0 ==> BlockedOn(s, w, sem))
  }

  function Signal(s: State, sem: Sem, w: Proc): State
    requires sem in s.count && (s.count[sem] + 1 <= 0 ==> BlockedOn(s, w, sem))
  {
    var s1 := s.(count := s.count[sem := s.count[sem] + 1]);
    if s.count[sem] + 1 <= 0 then assert BlockedOn(s1, w, sem); Resume(s1, w) else s1
  }

  // ----- steps -----

  /** The semaphore a customer signals at its point. */
  function CustSignals(pt: CPoint): Wait {
    match pt
    case CSignalCounter => On(CounterCS)
    case CSignalQueue => On(QueueCS)
    case CSignalReady => On(CustReady)
    case CTerminate => On(Terminated)
    case _ => None
  }

  function ClerkSignals(k: Clerk): Wait {
    match k.pt
    case KSignalQueue => On(QueueCS)
    case KSignalFlight1 => On(Flight1CS)
    case KSignalFlight2 => On(Flight2CS)
    case KSignalFinished => On(Finished(k.id))
    case KSignalClerk => On(ClerkSem)
    case _ => None
  }

  function Signalled(k: Clerk): Clerk {
    k.(pt := match k.pt
             case KSignalQueue => KSwitch
             case KSignalFlight1 => if Needs2(k.flight) then KSignalFlight2 else KSignalFinished
             case KSignalFlight2 => KSignalFinished
             case KSignalFinished => KSignalClerk
             case _ => KWaitReady)
  }

  /** `w` is the blocked process that a signal wakes. A blocked or finished process has no step of its own. */
  ghost predicate Enabled(s: State, p: Proc, w: Proc) {
    match p
    case PC(i) =>
      0 <= i < |s.custs| && !s.custs[i].blocked && !s.custs[i].pt.CDone?
      && (CustWait(s.custs[i]).On? ==> CustWait(s.custs[i]).sem in s.count)
      && (CustSignals(s.custs[i].pt).On? ==> CanSignal(s, CustSignals(s.custs[i].pt).sem, w))
    case PK(j) =>
      0 <= j < |s.clerks| && !s.clerks[j].blocked
      && (ClerkWait(s.clerks[j]).On? ==> ClerkWait(s.clerks[j]).sem in s.count)
      && (ClerkSignals(s.clerks[j]).On? ==> CanSignal(s, ClerkSignals(s.clerks[j]).sem, w))
    case PM => s.master.waits < |s.custs| && !s.master.blocked && Terminated in s.count
  }

  function SetCust(s: State, i: int, c: Cust): State
    requires 0 <= i < |s.custs|
  {
    s.(custs := s.custs[i := c])
  }

  function SetClerk(s: State, j: int, k: Clerk): State
    requires 0 <= j < |s.clerks|
  {
    s.(clerks := s.clerks[j := k])
  }

  /** wait_semaphore: decrements; below zero the caller blocks. */
  function Down(s: State, sem: Sem): State
    requires sem in s.count
  {
    s.(count := s.count[sem := s.count[sem] - 1])
  }

  function CustStep(s: State, i: int, w: Proc): State
    requires Enabled(s, PC(i), w)
  {
    var c := s.custs[i];
    match c.pt
    case CRead => SetCust(s, i, Cust(CWrite, false, s.counter))
    case CWrite => SetCust(s, i, c.(pt := CSignalCounter)).(counter := s.counter + 1)
    case CStore =>
      SetCust(s, i, c.(pt := CAdvance))
      .(queue := if 0 <= s.queueIn < |s.queue| then s.queue[s.queueIn := Id(c.id)] else s.queue)
    case CAdvance => SetCust(s, i, c.(pt := CSignalQueue)).(queueIn := s.queueIn + 1)
    case CSignalCounter => SignalC(s, i, CounterCS, CWaitClerk, w)
    case CSignalQueue => SignalC(s, i, QueueCS, CSignalReady, w)
    case CSignalReady => SignalC(s, i, CustReady, CWaitFinished, w)
    case CTerminate => SignalC(s, i, Terminated, CDone, w)
    case CWaitCounter | CWaitClerk | CWaitQueue | CWaitFinished =>
      var sem := CustWait(c).sem;
      SetCust(Down(s, sem), i, if s.count[sem] - 1 < 0 then c.(blocked := true) else CustPassed(c))
  }

  /** The signaller goes on to `pt` first; the woken process is another one. */
  function SignalC(s: State, i: int, sem: Sem, pt: CPoint, w: Proc): State
    requires 0 <= i < |s.custs| && !s.custs[i].blocked
    requires sem in s.count && (s.count[sem] + 1 <= 0 ==> BlockedOn(s, w, sem))
  {
    var s1 := SetCust(s, i, s.custs[i].(pt := pt));
    assert s.count[sem] + 1 <= 0 ==> BlockedOn(s1, w, sem);
    Signal(s1, sem, w)
  }

  function SignalK(s: State, j: int, sem: Sem, w: Proc): State
    requires 0 <= j < |s.clerks| && !s.clerks[j].blocked
    requires sem in s.count && (s.count[sem] + 1 <= 0 ==> BlockedOn(s, w, sem))
  {
    var s1 := SetClerk(s, j, Signalled(s.clerks[j]));
    assert s.count[sem] + 1 <= 0 ==> BlockedOn(s1, w, sem);
    Signal(s1, sem, w)
  }

  predicate Available(s: State, flight: int) {
    (Needs1(flight) ==> s.left1 > 0) && (Needs2(flight) ==> s.left2 > 0)
  }

  function ClerkStep(s: State, j: int, w: Proc): State
    requires Enabled(s, PK(j), w)
  {
    var k := s.clerks[j];
    match k.pt
    case KLoad =>
      var id := if 0 <= s.queueOut < |s.queue| && s.queue[s.queueOut].Id? then s.queue[s.queueOut].id else -1;
      SetClerk(s, j, k.(pt := KAdvance, id := id))
    case KAdvance => SetClerk(s, j, k.(pt := KSignalQueue)).(queueOut := s.queueOut + 1)
    case KSwitch =>
      var f := if 0 <= k.id < |s.flight| then s.flight[k.id] else 1;
      SetClerk(s, j, k.(flight := f, pt := if Needs1(f) then KWaitFlight1 else KWaitFlight2))
    case KTest =>
      if Available(s, k.flight) then SetClerk(s, j, k.(pt := if Needs1(k.flight) then KBook1 else KBook2))
      else
        SetClerk(s, j, k.(pt := if Needs1(k.flight) then KSignalFlight1 else KSignalFlight2))
        .(denied := s.denied + {k.id})
    case KBook1 =>
      SetClerk(s, j, k.(pt := if Needs2(k.flight) then KBook2 else KSignalFlight1))
      .(left1 := s.left1 - 1, booked1 := s.booked1 + [k.id])
    case KBook2 =>
      SetClerk(s, j, k.(pt := if Needs1(k.flight) then KSignalFlight1 else KSignalFlight2))
      .(left2 := s.left2 - 1, booked2 := s.booked2 + [k.id])
    case KSignalQueue => SignalK(s, j, QueueCS, w)
    case KSignalFlight1 => SignalK(s, j, Flight1CS, w)
    case KSignalFlight2 => SignalK(s, j, Flight2CS, w)
    case KSignalFinished => SignalK(s, j, Finished(k.id), w).(finished := s.finished + {k.id})
    case KSignalClerk => SignalK(s, j, ClerkSem, w).(completed := s.completed + 1)
    case KWaitReady | KWaitQueue | KWaitFlight1 | KWaitFlight2 =>
      var sem := ClerkWait(k).sem;
      SetClerk(Down(s, sem), j, if s.count[sem] - 1 < 0 then k.(blocked := true) else ClerkPassed(k))
  }

  function MasterStep(s: State): State
    requires Enabled(s, PM, PM)
  {
    Down(s, Terminated).(master := if s.count[Terminated] - 1 < 0 then s.master.(blocked := true)
                                   else Master(s.master.waits + 1, false))
  }

  function Step(s: State, p: Proc, w: Proc): State
    requires Enabled(s, p, w)
  {
    match p
    case PC(i) => CustStep(s, i, w)
    case PK(j) => ClerkStep(s, j, w)
    case PM => assert Enabled(s, PM, PM); MasterStep(s)
  }

  // ----- accounts -----

  datatype Key = Tok(sem: Sem) | Blk(sem: Sem) | Counted | Queued | Serving | Progress

  /** What a process contributes to an account: its own waits and signals on a semaphore so far, and so on. */
  function WC(key: Key, c: Cust): int {
    var r := CRank(c.pt);
    match key
    case Tok(CounterCS) => if (r == 0 && c.blocked) || 1 <= r <= 3 then -1 else 0
    case Tok(QueueCS) => if (r == 5 && c.blocked) || 6 <= r <= 8 then -1 else 0
    case Tok(ClerkSem) => if (r == 4 && c.blocked) || 5 <= r then -1 else 0
    case Tok(CustReady) => if 10 <= r then 1 else 0
    case Tok(Finished(x)) => if c.id == x && ((r == 10 && c.blocked) || 11 <= r) then -1 else 0
    case Tok(Terminated) => if r == 12 then 1 else 0
    case Tok(_) => 0
    case Blk(sem) => if c.blocked && CustWait(c) == On(sem) then 1 else 0
    case Counted => if 3 <= r then 1 else 0
    case Queued => if 8 <= r then 1 else 0
    case Serving => 0
    case Progress => 2 * r + One(c.blocked)
  }

  predicate Holds1(k: Clerk) {
    Needs1(k.flight) && 7 <= KRank(k.pt) <= 11
  }

  predicate Holds2(k: Clerk) {
    Needs2(k.flight) && 8 <= KRank(k.pt) <= 12
  }

  function WK(key: Key, k: Clerk): int {
    var r := KRank(k.pt);
    match key
    case Tok(QueueCS) => if (r == 1 && k.blocked) || 2 <= r <= 4 then -1 else 0
    case Tok(Flight1CS) => if (r == 6 && k.blocked) || Holds1(k) then -1 else 0
    case Tok(Flight2CS) => if (r == 7 && k.blocked) || Holds2(k) then -1 else 0
    case Tok(CustReady) => if (r == 0 && k.blocked) || 1 <= r <= 3 then -1 else 0
    case Tok(_) => 0
    case Blk(sem) => if k.blocked && ClerkWait(k) == On(sem) then 1 else 0
    case Serving => if 4 <= r then 1 else 0
    case Progress => 2 * r + One(k.blocked)
    case _ => 0
  }

  function WM(key: Key, m: Master): int {
    match key
    case Tok(Terminated) => -(m.waits as int) - if m.blocked then 1 else 0
    case Blk(Terminated) => if m.blocked then 1 else 0
    case Progress => 2 * m.waits + One(m.blocked)
    case _ => 0
  }

  function SumC(key: Key, cs: seq<Cust>): int {
    if cs == [] then 0 else WC(key, cs[0]) + SumC(key, cs[1..])
  }

  function SumK(key: Key, ks: seq<Clerk>): int {
    if ks == [] then 0 else WK(key, ks[0]) + SumK(key, ks[1..])
  }

  function Net(s: State, key: Key): int {
    SumC(key, s.custs) + SumK(key, s.clerks) + WM(key, s.master)
  }

  lemma {:induction false} SumCSet(key: Key, cs: seq<Cust>, i: nat, c: Cust)
    requires i < |cs|
    ensures SumC(key, cs[i := c]) == SumC(key, cs) - WC(key, cs[i]) + WC(key, c)
  {
    if i > 0 {
      SumCSet(key, cs[1..], i - 1, c);
      assert cs[i := c][1..] == cs[1..][i - 1 := c];
    } else {
      assert cs[i := c][1..] == cs[1..];
    }
  }

  lemma {:induction false} SumKSet(key: Key, ks: seq<Clerk>, j: nat, k: Clerk)
    requires j < |ks|
    ensures SumK(key, ks[j := k]) == SumK(key, ks) - WK(key, ks[j]) + WK(key, k)
  {
    if j > 0 {
      SumKSet(key, ks[1..], j - 1, k);
      assert ks[j := k][1..] == ks[1..][j - 1 := k];
    } else {
      assert ks[j := k][1..] == ks[1..];
    }
  }

  lemma NetCust(s: State, i: int, c: Cust)
    requires 0 <= i < |s.custs|
    ensures forall key :: Net(SetCust(s, i, c), key) == Net(s, key) - WC(key, s.custs[i]) + WC(key, c)
  {
    forall key ensures Net(SetCust(s, i, c), key) == Net(s, key) - WC(key, s.custs[i]) + WC(key, c) {
      SumCSet(key, s.custs, i, c);
    }
  }

  lemma NetClerk(s: State, j: int, k: Clerk)
    requires 0 <= j < |s.clerks|
    ensures forall key :: Net(SetClerk(s, j, k), key) == Net(s, key) - WK(key, s.clerks[j]) + WK(key, k)
  {
    forall key ensures Net(SetClerk(s, j, k), key) == Net(s, key) - WK(key, s.clerks[j]) + WK(key, k) {
      SumKSet(key, s.clerks, j, k);
    }
  }

  // ----- the accounting invariant -----

  function Base(s: State, sem: Sem): int {
    match sem
    case ClerkSem => |s.clerks| + s.completed
    case CustReady => -s.queueOut
    case Terminated => 0
    case Finished(x) => if x in s.finished then 1 else 0
    case _ => 1
  }

  function Waiters(n: int): int {
    if n < 0 then -n else 0
  }

  /** Every count is what the waits and signals made so far add up to, and negative by the number of the blocked. */
  ghost predicate SemOk(s: State, sem: Sem)
    requires sem in s.count
  {
    s.count[sem] == Base(s, sem) + Net(s, Tok(sem)) && Net(s, Blk(sem)) == Waiters(s.count[sem])
  }

  ghost predicate Accounts(s: State) {
    && (forall sem | sem in s.count :: SemOk(s, sem))
    && s.counter == Net(s, Counted) && s.queueIn == Net(s, Queued) && s.queueOut == s.completed + Net(s, Serving)
  }

  lemma CustWaitWeights(c: Cust, sem: Sem)
    requires !c.blocked && CustWait(c) == On(sem)
    ensures forall x :: WC(Tok(x), c.(blocked := true)) == WC(Tok(x), c) - One(x == sem)
    ensures forall x :: WC(Tok(x), CustPassed(c)) == WC(Tok(x), c) - One(x == sem)
    ensures forall x ::
              WC(Blk(x), c) == 0 && WC(Blk(x), CustPassed(c)) == 0
              && WC(Blk(x), c.(blocked := true)) == One(x == sem)
    ensures forall key: Key | key.Counted? || key.Queued? || key.Serving? ::
              WC(key, c.(blocked := true)) == WC(key, c) && WC(key, CustPassed(c)) == WC(key, c)
  {
  }

  lemma CustResumeWeights(c: Cust, sem: Sem)
    requires c.blocked && CustWait(c) == On(sem)
    ensures forall x :: WC(Tok(x), CustPassed(c)) == WC(Tok(x), c)
    ensures forall x :: WC(Blk(x), c) == One(x == sem) && WC(Blk(x), CustPassed(c)) == 0
    ensures forall key: Key | key.Counted? || key.Queued? || key.Serving? :: WC(key, CustPassed(c)) == WC(key, c)
  {
  }

  lemma ClerkWaitWeights(k: Clerk, sem: Sem)
    requires !k.blocked && ClerkWait(k) == On(sem) && RouteOk(k)
    ensures forall x :: WK(Tok(x), k.(blocked := true)) == WK(Tok(x), k) - One(x == sem)
    ensures forall x :: WK(Tok(x), ClerkPassed(k)) == WK(Tok(x), k) - One(x == sem)
    ensures forall x ::
              WK(Blk(x), k) == 0 && WK(Blk(x), ClerkPassed(k)) == 0
              && WK(Blk(x), k.(blocked := true)) == One(x == sem)
    ensures forall key: Key | key.Counted? || key.Queued? || key.Serving? ::
              WK(key, k.(blocked := true)) == WK(key, k) && WK(key, ClerkPassed(k)) == WK(key, k)
  {
  }

  lemma ClerkResumeWeights(k: Clerk, sem: Sem)
    requires k.blocked && ClerkWait(k) == On(sem) && RouteOk(k)
    ensures forall x :: WK(Tok(x), ClerkPassed(k)) == WK(Tok(x), k)
    ensures forall x :: WK(Blk(x), k) == One(x == sem) && WK(Blk(x), ClerkPassed(k)) == 0
    ensures forall key: Key | key.Counted? || key.Queued? || key.Serving? :: WK(key, ClerkPassed(k)) == WK(key, k)
  {
  }

  /** A clerk is at a flight's steps only for a customer of that flight, and blocked only at a wait. */
  predicate RouteOk(k: Clerk) {
    && (k.blocked ==> ClerkWait(k).On?)
    && (6 <= KRank(k.pt) <= 12 ==> 1 <= k.flight <= 3)
    && (k.pt.KWaitFlight1? || k.pt.KBook1? || k.pt.KSignalFlight1? ==> Needs1(k.flight))
    && (k.pt.KWaitFlight2? || k.pt.KBook2? || k.pt.KSignalFlight2? ==> Needs2(k.flight))
  }

  /** A signal changes the signaller's account by one and nothing else. */
  lemma CustSignalWeights(c: Cust, pt: CPoint, sem: Sem)
    requires !c.blocked && CustSignals(c.pt) == On(sem) && CRank(pt) == CRank(c.pt) + 1
    ensures forall x :: WC(Tok(x), c.(pt := pt)) == WC(Tok(x), c) + One(x == sem)
    ensures forall x :: WC(Blk(x), c) == 0 && WC(Blk(x), c.(pt := pt)) == 0
    ensures forall key: Key | key.Counted? || key.Queued? || key.Serving? :: WC(key, c.(pt := pt)) == WC(key, c)
  {
  }

  lemma ClerkSignalWeights(k: Clerk, sem: Sem)
    requires !k.blocked && ClerkSignals(k) == On(sem) && RouteOk(k)
    ensures forall x :: WK(Tok(x), Signalled(k)) == WK(Tok(x), k) + One(x == sem && !x.Finished? && !x.ClerkSem?)
    ensures forall x :: WK(Blk(x), k) == 0 && WK(Blk(x), Signalled(k)) == 0
    ensures forall key: Key | key.Counted? || key.Queued? ::  WK(key, Signalled(k)) == WK(key, k)
    ensures WK(Serving, Signalled(k)) == WK(Serving, k) - One(sem.ClerkSem?)
  {
  }

  // ----- every step keeps the accounts -----

  predicate TypeOk(f: int) { 1 <= f <= 3 }

  /** Sizes and types, fixed for the whole run, and every process at a point its own data allow. */
  ghost predicate Shape(s: State) {
    && |s.flight| == |s.custs| == |s.queue|
    && (forall x | 0 <= x < |s.flight| :: TypeOk(s.flight[x]))
    && (forall sem :: sem in s.count <==> (sem.Finished? ==> 0 <= sem.id < |s.custs|))
    && (forall i | 0 <= i < |s.custs| && s.custs[i].blocked :: CustWait(s.custs[i]).On?)
    && (forall j | 0 <= j < |s.clerks| :: RouteOk(s.clerks[j]))
    && s.master.waits + One(s.master.blocked) <= |s.custs|
  }

  ghost predicate SameCounters(s: State, r: State) {
    Net(r, Counted) == Net(s, Counted) && Net(r, Queued) == Net(s, Queued) && Net(r, Serving) == Net(s, Serving)
  }

  lemma ResumeNet(s: State, w: Proc, sem: Sem)
    requires Shape(s) && BlockedOn(s, w, sem)
    ensures var r := Resume(s, w);
            && (forall x :: Net(r, Tok(x)) == Net(s, Tok(x)))
            && (forall x :: Net(r, Blk(x)) == Net(s, Blk(x)) - One(x == sem))
            && SameCounters(s, r)
  {
    hide Shape, SumC, SumK;
    match w
    case PC(i) =>
      NetCust(s, i, CustPassed(s.custs[i]));
      CustResumeWeights(s.custs[i], sem);
      assert Resume(s, w) == SetCust(s, i, CustPassed(s.custs[i]));
      hide Net, WC;
    case PK(j) =>
      assert RouteOk(s.clerks[j]) by { ShapeRoute(s, j); }
      NetClerk(s, j, ClerkPassed(s.clerks[j]));
      ClerkResumeWeights(s.clerks[j], sem);
      assert Resume(s, w) == SetClerk(s, j, ClerkPassed(s.clerks[j]));
      hide Net, WK;
    case PM =>
  }

  lemma ShapeRoute(s: State, j: int)
    requires Shape(s) && 0 <= j < |s.clerks|
    ensures RouteOk(s.clerks[j])
  {
  }

  lemma NetOther(s: State, r: State)
    requires r.custs == s.custs && r.clerks == s.clerks && r.master == s.master
    ensures forall key :: Net(r, key) == Net(s, key)
  {
  }

  /** The accounts already show the signal of `sem` that is about to be made. */
  ghost predicate Credited(s: State, sem: Sem) {
    && (forall x | x in s.count :: s.count[x] + One(x == sem) == Base(s, x) + Net(s, Tok(x)))
    && (forall x | x in s.count :: Net(s, Blk(x)) == Waiters(s.count[x]))
    && s.counter == Net(s, Counted) && s.queueIn == Net(s, Queued) && s.queueOut == s.completed + Net(s, Serving)
  }

  lemma SignalOk(s: State, sem: Sem, w: Proc)
    requires Shape(s) && sem in s.count && (s.count[sem] + 1 <= 0 ==> BlockedOn(s, w, sem)) && Credited(s, sem)
    ensures Accounts(Signal(s, sem, w))
  {
    hide Net;
    var s1 := s.(count := s.count[sem := s.count[sem] + 1]);
    NetOther(s, s1);
    if s.count[sem] + 1 <= 0 {
      assert BlockedOn(s1, w, sem);
      ResumeNet(s1, w, sem);
      hide BlockedOn, Shape;
      assert forall x :: Base(Resume(s1, w), x) == Base(s1, x);
      hide Resume, Base;
    }
  }

  /** The state after process `p` decremented `sem` and blocked or went on, by what its own account shows. */
  ghost predicate Waited(s: State, r: State, sem: Sem) {
    && sem in s.count && r.count == s.count[sem := s.count[sem] - 1]
    && (forall x :: Net(r, Tok(x)) == Net(s, Tok(x)) - One(x == sem))
    && (forall x :: Net(r, Blk(x)) == Net(s, Blk(x)) + One(x == sem && s.count[sem] - 1 < 0))
    && SameCounters(s, r)
    && r.completed == s.completed && |r.clerks| == |s.clerks| && r.finished == s.finished
    && r.counter == s.counter && r.queueIn == s.queueIn && r.queueOut == s.queueOut
  }

  lemma WaitedOk(s: State, r: State, sem: Sem)
    requires Accounts(s) && Waited(s, r, sem)
    ensures Accounts(r)
  {
    hide Net;
  }

  /** What a process is after its wait with the count at `n`. */
  function CustAfter(c: Cust, n: int): Cust {
    if n - 1 < 0 then c.(blocked := true) else CustPassed(c)
  }

  function ClerkAfter(k: Clerk, n: int): Clerk {
    if n - 1 < 0 then k.(blocked := true) else ClerkPassed(k)
  }

  /** What a wait that finds the count at `n` does to the accounts of the process. */
  ghost predicate CustWaited(c: Cust, c': Cust, sem: Sem, n: int) {
    && (forall x :: WC(Tok(x), c') == WC(Tok(x), c) - One(x == sem))
    && (forall x :: WC(Blk(x), c') == WC(Blk(x), c) + One(x == sem && n - 1 < 0))
    && WC(Counted, c') == WC(Counted, c) && WC(Queued, c') == WC(Queued, c) && WC(Serving, c') == WC(Serving, c)
  }

  ghost predicate ClerkWaited(k: Clerk, k': Clerk, sem: Sem, n: int) {
    && (forall x :: WK(Tok(x), k') == WK(Tok(x), k) - One(x == sem))
    && (forall x :: WK(Blk(x), k') == WK(Blk(x), k) + One(x == sem && n - 1 < 0))
    && WK(Counted, k') == WK(Counted, k) && WK(Queued, k') == WK(Queued, k) && WK(Serving, k') == WK(Serving, k)
  }

  lemma CustAfterWeights(c: Cust, sem: Sem, n: int)
    requires !c.blocked && CustWait(c) == On(sem)
    ensures CustWaited(c, CustAfter(c, n), sem, n)
  {
    CustWaitWeights(c, sem);
    hide WC, CustPassed, CustWait;
  }

  lemma ClerkAfterWeights(k: Clerk, sem: Sem, n: int)
    requires !k.blocked && ClerkWait(k) == On(sem) && RouteOk(k)
    ensures ClerkWaited(k, ClerkAfter(k, n), sem, n)
  {
    ClerkWaitWeights(k, sem);
    hide WK, ClerkPassed, ClerkWait, RouteOk;
  }

  /** A wait seen from the whole state. */
  lemma CustWaitedNet(s: State, i: int, c': Cust, sem: Sem)
    requires 0 <= i < |s.custs| && sem in s.count && CustWaited(s.custs[i], c', sem, s.count[sem])
    ensures Waited(s, SetCust(Down(s, sem), i, c'), sem)
  {
    NetOther(s, Down(s, sem));
    NetCust(Down(s, sem), i, c');
    hide Net, WC;
  }

  lemma ClerkWaitedNet(s: State, j: int, k': Clerk, sem: Sem)
    requires 0 <= j < |s.clerks| && sem in s.count && ClerkWaited(s.clerks[j], k', sem, s.count[sem])
    ensures Waited(s, SetClerk(Down(s, sem), j, k'), sem)
  {
    NetOther(s, Down(s, sem));
    NetClerk(Down(s, sem), j, k');
    hide Net, WK;
  }

  lemma CustWaitIs(s: State, i: int, w: Proc)
    requires Enabled(s, PC(i), w) && CustWait(s.custs[i]).On?
    ensures var sem := CustWait(s.custs[i]).sem;
            sem in s.count && !s.custs[i].blocked
            && CustStep(s, i, w) == SetCust(Down(s, sem), i, CustAfter(s.custs[i], s.count[sem]))
  {
  }

  lemma ClerkWaitIs(s: State, j: int, w: Proc)
    requires Enabled(s, PK(j), w) && ClerkWait(s.clerks[j]).On?
    ensures var sem := ClerkWait(s.clerks[j]).sem;
            sem in s.count && !s.clerks[j].blocked
            && ClerkStep(s, j, w) == SetClerk(Down(s, sem), j, ClerkAfter(s.clerks[j], s.count[sem]))
  {
  }

  lemma CustWaitOk(s: State, i: int, w: Proc)
    requires Shape(s) && Accounts(s) && Enabled(s, PC(i), w) && CustWait(s.custs[i]).On?
    ensures Accounts(CustStep(s, i, w))
  {
    var c, sem := s.custs[i], CustWait(s.custs[i]).sem;
    hide CustStep, Shape, Accounts, Signal, SignalC, CustWaited, Waited, CustAfter;
    CustWaitIs(s, i, w);
    hide Enabled;
    var c' := CustAfter(c, s.count[sem]);
    CustAfterWeights(c, sem, s.count[sem]);
    CustWaitedNet(s, i, c', sem);
    WaitedOk(s, SetCust(Down(s, sem), i, c'), sem);
  }

  lemma ClerkWaitOk(s: State, j: int, w: Proc)
    requires Shape(s) && Accounts(s) && Enabled(s, PK(j), w) && ClerkWait(s.clerks[j]).On?
    ensures Accounts(ClerkStep(s, j, w))
  {
    var k, sem := s.clerks[j], ClerkWait(s.clerks[j]).sem;
    ShapeRoute(s, j);
    hide ClerkStep, Shape, Accounts, Signal, SignalK, ClerkWaited, Waited, ClerkAfter;
    ClerkWaitIs(s, j, w);
    hide Enabled;
    var k' := ClerkAfter(k, s.count[sem]);
    ClerkAfterWeights(k, sem, s.count[sem]);
    ClerkWaitedNet(s, j, k', sem);
    WaitedOk(s, SetClerk(Down(s, sem), j, k'), sem);
  }

  lemma MasterOk(s: State)
    requires Shape(s) && Accounts(s) && Enabled(s, PM, PM)
    ensures Accounts(MasterStep(s))
  {
    hide Shape, Accounts;
    assert Waited(s, MasterStep(s), Terminated);
    WaitedOk(s, MasterStep(s), Terminated);
  }

  lemma SetCustShape(s: State, i: int, c: Cust)
    requires Shape(s) && 0 <= i < |s.custs| && (c.blocked ==> CustWait(c).On?)
    ensures Shape(SetCust(s, i, c))
  {
  }

  lemma SetClerkShape(s: State, j: int, k: Clerk)
    requires Shape(s) && 0 <= j < |s.clerks| && RouteOk(k)
    ensures Shape(SetClerk(s, j, k))
  {
  }

  function CustSignalled(c: Cust): Cust {
    c.(pt := match c.pt
             case CSignalCounter => CWaitClerk
             case CSignalQueue => CSignalReady
             case CSignalReady => CWaitFinished
             case _ => CDone)
  }

  lemma CustSignalIs(s: State, i: int, w: Proc)
    requires Enabled(s, PC(i), w) && CustSignals(s.custs[i].pt).On?
    ensures var sem, s1 := CustSignals(s.custs[i].pt).sem, SetCust(s, i, CustSignalled(s.custs[i]));
            && sem in s.count && (s.count[sem] + 1 <= 0 ==> BlockedOn(s1, w, sem))
            && CustStep(s, i, w) == Signal(s1, sem, w)
  {
    var sem, s1 := CustSignals(s.custs[i].pt).sem, SetCust(s, i, CustSignalled(s.custs[i]));
    hide Resume;
    assert s.count[sem] + 1 <= 0 ==> BlockedOn(s1, w, sem);
  }

  lemma CustCredited(s: State, i: int, w: Proc)
    requires Shape(s) && Accounts(s) && Enabled(s, PC(i), w) && CustSignals(s.custs[i].pt).On?
    ensures var sem, s1 := CustSignals(s.custs[i].pt).sem, SetCust(s, i, CustSignalled(s.custs[i]));
            Shape(s1) && Credited(s1, sem)
  {
    var c, sem := s.custs[i], CustSignals(s.custs[i].pt).sem;
    var s1 := SetCust(s, i, CustSignalled(c));
    hide Net;
    NetCust(s, i, CustSignalled(c));
    CustSignalWeights(c, CustSignalled(c).pt, sem);
    SetCustShape(s, i, CustSignalled(c));
    assert forall x :: Base(s1, x) == Base(s, x);
    hide WC, Shape, BlockedOn, Base, Enabled;
  }

  lemma CustSignalOk(s: State, i: int, w: Proc)
    requires Shape(s) && Accounts(s) && Enabled(s, PC(i), w) && CustSignals(s.custs[i].pt).On?
    ensures Accounts(CustStep(s, i, w))
  {
    assert 0 <= i < |s.custs|;
    hide Shape, Credited, Accounts, BlockedOn, Enabled, CustStep, Signal;
    CustSignalIs(s, i, w);
    CustCredited(s, i, w);
    SignalOk(SetCust(s, i, CustSignalled(s.custs[i])), CustSignals(s.custs[i].pt).sem, w);
  }

  /** What a clerk's signal also records: a customer finished, or a service completed. */
  function Recorded(s: State, k: Clerk): State {
    match k.pt
    case KSignalFinished => s.(finished := s.finished + {k.id})
    case KSignalClerk => s.(completed := s.completed + 1)
    case _ => s
  }

  lemma ClerkSignalIs(s: State, j: int, w: Proc)
    requires Enabled(s, PK(j), w) && ClerkSignals(s.clerks[j]).On?
    ensures var k := s.clerks[j];
            var sem, s1 := ClerkSignals(k).sem, SetClerk(Recorded(s, k), j, Signalled(k));
            && sem in s1.count && (s1.count[sem] + 1 <= 0 ==> BlockedOn(s1, w, sem))
            && ClerkStep(s, j, w) == Signal(s1, sem, w)
  {
  }

  lemma RecordedBase(s: State, k: Clerk, j: int, sem: Sem)
    requires 0 <= j < |s.clerks| && ClerkSignals(k) == On(sem) && (k.pt.KSignalFinished? ==> k.id !in s.finished)
    ensures var s1 := SetClerk(Recorded(s, k), j, Signalled(k));
            && (forall x :: Base(s1, x) == Base(s, x) + One(x == sem && (x.Finished? || x.ClerkSem?)))
            && s1.count == s.count && s1.counter == s.counter && s1.queueIn == s.queueIn && s1.queueOut == s.queueOut
            && s1.completed == s.completed + One(sem.ClerkSem?)
  {
  }

  lemma SignalledRoute(k: Clerk)
    requires RouteOk(k) && !k.blocked && ClerkSignals(k).On?
    ensures RouteOk(Signalled(k))
  {
  }

  lemma RecordedAccounts(s: State, s1: State, sem: Sem)
    requires Accounts(s) && sem in s.count && s1.count == s.count
    requires forall x :: Base(s1, x) == Base(s, x) + One(x == sem && (x.Finished? || x.ClerkSem?))
    requires s1.counter == s.counter && s1.queueIn == s.queueIn && s1.queueOut == s.queueOut
    requires s1.completed == s.completed + One(sem.ClerkSem?)
    requires forall x :: Net(s1, Tok(x)) == Net(s, Tok(x)) + One(x == sem && !x.Finished? && !x.ClerkSem?)
    requires forall x :: Net(s1, Blk(x)) == Net(s, Blk(x))
    requires Net(s1, Counted) == Net(s, Counted) && Net(s1, Queued) == Net(s, Queued)
    requires Net(s1, Serving) == Net(s, Serving) - One(sem.ClerkSem?)
    ensures Credited(s1, sem)
  {
    hide Net, Base;
  }

  lemma ClerkCredited(s: State, j: int, w: Proc)
    requires Shape(s) && Accounts(s) && Enabled(s, PK(j), w) && ClerkSignals(s.clerks[j]).On?
    requires s.clerks[j].pt.KSignalFinished? ==> s.clerks[j].id !in s.finished
    ensures var k := s.clerks[j];
            var sem, s1 := ClerkSignals(k).sem, SetClerk(Recorded(s, k), j, Signalled(k));
            Shape(s1) && Credited(s1, sem)
  {
    var k := s.clerks[j];
    var sem, s0 := ClerkSignals(k).sem, Recorded(s, k);
    var s1 := SetClerk(s0, j, Signalled(k));
    ShapeRoute(s, j);
    NetOther(s, s0);
    NetClerk(s0, j, Signalled(k));
    ClerkSignalWeights(k, sem);
    SignalledRoute(k);
    SetClerkShape(s0, j, Signalled(k));
    RecordedBase(s, k, j, sem);
    hide Net, WK, Shape, BlockedOn, Base, Enabled, RouteOk, Signalled, Accounts, Credited, Recorded;
    RecordedAccounts(s, s1, sem);
  }

  lemma ClerkSignalOk(s: State, j: int, w: Proc)
    requires Shape(s) && Accounts(s) && Enabled(s, PK(j), w) && ClerkSignals(s.clerks[j]).On?
    requires s.clerks[j].pt.KSignalFinished? ==> s.clerks[j].id !in s.finished
    ensures Accounts(ClerkStep(s, j, w))
  {
    assert 0 <= j < |s.clerks|;
    hide Shape, Credited, Accounts, BlockedOn, Enabled, ClerkStep, Signal;
    ClerkSignalIs(s, j, w);
    ClerkCredited(s, j, w);
    var k := s.clerks[j];
    SignalOk(SetClerk(Recorded(s, k), j, Signalled(k)), ClerkSignals(k).sem, w);
  }

  /** A customer's step on shared data. */
  lemma CustLocalOk(s: State, i: int, w: Proc)
    requires Shape(s) && Accounts(s) && Enabled(s, PC(i), w)
    requires CustSignals(s.custs[i].pt).None? && CustWait(s.custs[i]).None?
    ensures Accounts(CustStep(s, i, w))
  {
    var r := CustStep(s, i, w);
    var c, c' := s.custs[i], r.custs[i];
    NetCust(s, i, c');
    NetOther(SetCust(s, i, c'), r);
    assert forall x :: WC(Tok(x), c') == WC(Tok(x), c) && WC(Blk(x), c') == 0 == WC(Blk(x), c);
    hide Net;
    assert forall x :: Base(r, x) == Base(s, x);
    hide Shape, Base;
  }

  /** A clerk's step on shared data: only advancing queue_out shows in an account, and in that semaphore's base. */
  lemma ClerkLocalWeights(s: State, j: int, w: Proc)
    requires Shape(s) && Enabled(s, PK(j), w)
    requires ClerkSignals(s.clerks[j]).None? && ClerkWait(s.clerks[j]).None?
    requires s.clerks[j].pt.KSwitch? ==> 0 <= s.clerks[j].id < |s.flight|
    ensures var r := ClerkStep(s, j, w);
            var k, k' := s.clerks[j], r.clerks[j];
            && r.custs == s.custs && r.clerks == s.clerks[j := k'] && r.master == s.master && r.count == s.count
            && (forall x :: WK(Tok(x), k') == WK(Tok(x), k) + One(k.pt.KAdvance? && x.CustReady?))
            && (forall x :: WK(Blk(x), k') == 0 == WK(Blk(x), k))
            && WK(Counted, k') == WK(Counted, k) && WK(Queued, k') == WK(Queued, k)
            && WK(Serving, k') == WK(Serving, k) + One(k.pt.KAdvance?)
            && (forall x :: Base(r, x) == Base(s, x) - One(k.pt.KAdvance? && x.CustReady?))
            && r.counter == s.counter && r.queueIn == s.queueIn && r.completed == s.completed
            && r.queueOut == s.queueOut + One(k.pt.KAdvance?)
  {
    ShapeRoute(s, j);
    ClerkLocalIs(s, j, w);
    hide Shape, ClerkStep, Enabled;
    LocalWeights(s.clerks[j], ClerkStep(s, j, w).clerks[j]);
    hide WK;
  }

  /** Where a clerk's step on the shared data leads. */
  predicate LocalNext(k: Clerk, k': Clerk) {
    !k.blocked && !k'.blocked &&
    match k.pt
    case KLoad => k'.pt.KAdvance? && k'.flight == k.flight
    case KAdvance => k' == k.(pt := KSignalQueue)
    case KSwitch => k'.pt == if Needs1(k'.flight) then KWaitFlight1 else KWaitFlight2
    case KTest =>
      k'.flight == k.flight && if Needs1(k.flight) then k'.pt.KBook1? || k'.pt.KSignalFlight1?
        else k'.pt.KBook2? || k'.pt.KSignalFlight2?
    case KBook1 => k' == k.(pt := if Needs2(k.flight) then KBook2 else KSignalFlight1)
    case KBook2 => k' == k.(pt := if Needs1(k.flight) then KSignalFlight1 else KSignalFlight2)
    case _ => false
  }

  lemma ClerkLocalIs(s: State, j: int, w: Proc)
    requires Enabled(s, PK(j), w) && ClerkSignals(s.clerks[j]).None? && ClerkWait(s.clerks[j]).None?
    ensures var r := ClerkStep(s, j, w);
            var k, k' := s.clerks[j], r.clerks[j];
            && r.custs == s.custs && r.clerks == s.clerks[j := k'] && r.master == s.master && r.count == s.count
            && LocalNext(k, k') && r.finished == s.finished
            && r.counter == s.counter && r.queueIn == s.queueIn && r.completed == s.completed
            && r.queueOut == s.queueOut + One(k.pt.KAdvance?)
  {
  }

  lemma LocalWeights(k: Clerk, k': Clerk)
    requires LocalNext(k, k') && RouteOk(k)
    ensures forall x :: WK(Tok(x), k') == WK(Tok(x), k) + One(k.pt.KAdvance? && x.CustReady?)
    ensures forall x :: WK(Blk(x), k') == 0 == WK(Blk(x), k)
    ensures WK(Counted, k') == WK(Counted, k) && WK(Queued, k') == WK(Queued, k)
    ensures WK(Serving, k') == WK(Serving, k) + One(k.pt.KAdvance?)
  {
  }

  lemma ClerkLocalOk(s: State, j: int, w: Proc)
    requires Shape(s) && Accounts(s) && Enabled(s, PK(j), w)
    requires ClerkSignals(s.clerks[j]).None? && ClerkWait(s.clerks[j]).None?
    requires s.clerks[j].pt.KSwitch? ==> 0 <= s.clerks[j].id < |s.flight|
    ensures Accounts(ClerkStep(s, j, w))
  {
    var r := ClerkStep(s, j, w);
    ClerkLocalWeights(s, j, w);
    hide ClerkStep, Shape, WK, Base;
    NetClerk(s, j, r.clerks[j]);
    NetOther(SetClerk(s, j, r.clerks[j]), r);
    hide Net, Enabled;
  }
}
