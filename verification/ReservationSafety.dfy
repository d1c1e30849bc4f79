/** What every run of the reservation program keeps: mutual exclusion, the queue, the tickets. */
module ReservationSafety {
  import opened Reservation
  import opened ReservationBoard

  // ----- mutual exclusion from the accounts -----

  /** Holding or having blocked on a mutex, as a charge; blocked processes pay it back on the other account. */
  predicate ChargesC(sem: Sem, c: Cust) { WC(Tok(sem), c) + WC(Blk(sem), c) == -1 }
  predicate ChargesK(sem: Sem, k: Clerk) { WK(Tok(sem), k) + WK(Blk(sem), k) == -1 }

  predicate Mutex(sem: Sem) { sem.CounterCS? || sem.QueueCS? || sem.Flight1CS? || sem.Flight2CS? }

  lemma {:induction false} ChargeC(sem: Sem, cs: seq<Cust>)
    requires Mutex(sem)
    ensures SumC(Tok(sem), cs) + SumC(Blk(sem), cs) <= 0
    ensures forall i | 0 <= i < |cs| && ChargesC(sem, cs[i]) :: SumC(Tok(sem), cs) + SumC(Blk(sem), cs) <= -1
    ensures forall i, j | 0 <= i < j < |cs| && ChargesC(sem, cs[i]) && ChargesC(sem, cs[j]) ::
              SumC(Tok(sem), cs) + SumC(Blk(sem), cs) <= -2
  {
    if cs != [] {
      ChargeC(sem, cs[1..]);
      assert WC(Tok(sem), cs[0]) + WC(Blk(sem), cs[0]) <= 0;
      assert forall i | 1 <= i < |cs| :: cs[1..][i - 1] == cs[i];
      hide WC;
    }
  }

  lemma {:induction false} ChargeK(sem: Sem, ks: seq<Clerk>)
    requires (Mutex(sem) || sem.CustReady?) && forall j | 0 <= j < |ks| :: RouteOk(ks[j])
    ensures SumK(Tok(sem), ks) + SumK(Blk(sem), ks) <= 0
    ensures forall i | 0 <= i < |ks| && ChargesK(sem, ks[i]) :: SumK(Tok(sem), ks) + SumK(Blk(sem), ks) <= -1
    ensures forall i, j | 0 <= i < j < |ks| && ChargesK(sem, ks[i]) && ChargesK(sem, ks[j]) ::
              SumK(Tok(sem), ks) + SumK(Blk(sem), ks) <= -2
  {
    if ks != [] {
      ChargeK(sem, ks[1..]);
      assert WK(Tok(sem), ks[0]) + WK(Blk(sem), ks[0]) <= 0;
      assert forall i | 1 <= i < |ks| :: ks[1..][i - 1] == ks[i];
      hide WK, RouteOk;
    }
  }

  /** No two processes hold the same mutex. */
  lemma Exclusive(s: State, sem: Sem)
    requires Shape(s) && Accounts(s) && Mutex(sem)
    ensures forall i, j | 0 <= i < j < |s.custs| :: !(ChargesC(sem, s.custs[i]) && ChargesC(sem, s.custs[j]))
    ensures forall i, j | 0 <= i < j < |s.clerks| :: !(ChargesK(sem, s.clerks[i]) && ChargesK(sem, s.clerks[j]))
    ensures forall i, j | 0 <= i < |s.custs| && 0 <= j < |s.clerks| ::
            !(ChargesC(sem, s.custs[i]) && ChargesK(sem, s.clerks[j]))
  {
    assert sem in s.count && SemOk(s, sem);
    ChargeC(sem, s.custs);
    ChargeK(sem, s.clerks);
    hide SumC, SumK, WC, WK, Shape, Accounts;
    assert Base(s, sem) == 1 && WM(Tok(sem), s.master) == 0 && WM(Blk(sem), s.master) == 0;
    assert Net(s, Tok(sem)) + Net(s, Blk(sem)) >= -1;
  }

  // ----- bounds -----

  lemma {:induction false} SumUpTo(key: Key, cs: seq<Cust>)
    requires key.Counted? || key.Queued? || key == Tok(CustReady)
    ensures 0 <= SumC(key, cs) <= |cs|
    ensures forall i | 0 <= i < |cs| && WC(key, cs[i]) == 0 :: SumC(key, cs) <= |cs| - 1
    ensures SumC(Tok(CustReady), cs) <= SumC(Queued, cs) <= SumC(Counted, cs)
  {
    if cs != [] {
      SumUpTo(key, cs[1..]);
      assert forall i | 1 <= i < |cs| :: cs[1..][i - 1] == cs[i];
    }
  }

  lemma {:induction false} NoSums(cs: seq<Cust>, ks: seq<Clerk>)
    ensures SumK(Counted, ks) == 0 && SumK(Queued, ks) == 0 && SumC(Serving, cs) == 0 && SumC(Blk(CustReady), cs) == 0
    decreases |cs| + |ks|
  {
    if cs != [] {
      NoSums(cs[1..], ks);
    } else if ks != [] {
      NoSums(cs, ks[1..]);
    }
  }

  /** custCounter and queue_in stay below the number of customers while somebody is about to use them. */
  lemma Bounds(s: State)
    requires Shape(s) && Accounts(s)
    ensures 0 <= s.counter <= |s.custs| && 0 <= s.queueIn <= |s.custs|
    ensures forall i | 0 <= i < |s.custs| && CRank(s.custs[i].pt) < 3 :: s.counter < |s.custs|
    ensures forall i | 0 <= i < |s.custs| && CRank(s.custs[i].pt) < 8 :: s.queueIn < |s.custs|
  {
    SumUpTo(Counted, s.custs);
    SumUpTo(Queued, s.custs);
    NoSums(s.custs, s.clerks);
  }

  /** A clerk that got past cust_ready finds a written slot: queue_out is behind queue_in. */
  lemma SlotReady(s: State)
    requires Shape(s) && Accounts(s)
    ensures s.queueOut <= s.queueIn
    ensures forall j | 0 <= j < |s.clerks| && 1 <= KRank(s.clerks[j].pt) <= 3 :: s.queueOut < s.queueIn
  {
    assert SemOk(s, CustReady);
    SumUpTo(Tok(CustReady), s.custs);
    SumUpTo(Queued, s.custs);
    NoSums(s.custs, s.clerks);
    ChargeK(CustReady, s.clerks);
    assert forall j | 0 <= j < |s.clerks| && 1 <= KRank(s.clerks[j].pt) <= 3 :: ChargesK(CustReady, s.clerks[j]);
    hide SumC, SumK, WC, WK, Shape, Accounts;
    assert WM(Tok(CustReady), s.master) == 0 && WM(Blk(CustReady), s.master) == 0 && WM(Queued, s.master) == 0;
  }

  // ----- the program steps as the board moves -----

  datatype Effect = Stays | Makes(act: Act)

  function CustEffect(i: int, pt: CPoint): Effect {
    match pt
    case CRead => Makes(Read(i))
    case CWrite => Makes(Write(i))
    case CStore => Makes(Store(i))
    case CAdvance => Makes(Advance(i))
    case _ => Stays
  }

  function ClerkEffect(j: int, pt: KPoint): Effect {
    match pt
    case KLoad => Makes(Load(j))
    case KAdvance => Makes(Dequeue(j))
    case KSwitch => Makes(Switch(j))
    case KTest => Makes(Test(j))
    case KBook1 => Makes(Book1(j))
    case KBook2 => Makes(Book2(j))
    case KSignalFinished => Makes(Finish(j))
    case KSignalClerk => Makes(Release(j))
    case _ => Stays
  }

  /** What every reachable state satisfies. */
  ghost predicate Inv(s: State) {
    Shape(s) && Accounts(s) && Ok(View(s))
  }

  lemma SetCustView(s: State, i: int, c: Cust)
    requires 0 <= i < |s.custs|
    ensures View(SetCust(s, i, c)) == PutC(View(s), i, CLook(c))
    ensures CLook(c) == CLook(s.custs[i]) ==> View(SetCust(s, i, c)) == View(s)
  {
  }

  lemma SetClerkView(s: State, j: int, k: Clerk)
    requires 0 <= j < |s.clerks|
    ensures View(SetClerk(s, j, k)) == PutK(View(s), j, KLook(k))
    ensures KLook(k) == KLook(s.clerks[j]) ==> View(SetClerk(s, j, k)) == View(s)
  {
  }

  /** A woken process stands where it stood, as far as the board shows. */
  lemma SignalView(s: State, sem: Sem, w: Proc)
    requires sem in s.count && (s.count[sem] + 1 <= 0 ==> BlockedOn(s, w, sem))
    ensures View(Signal(s, sem, w)) == View(s)
  {
    var s1 := s.(count := s.count[sem := s.count[sem] + 1]);
    assert View(s1) == View(s);
    if s.count[sem] + 1 <= 0 {
      match w
      case PC(i) => SetCustView(s1, i, CustPassed(s.custs[i]));
      case PK(j) => SetClerkView(s1, j, ClerkPassed(s.clerks[j]));
      case PM =>
    }
  }

  lemma ReadAlone(s: State, i: int)
    requires Shape(s) && Accounts(s) && 0 <= i < |s.custs| && !s.custs[i].blocked
    ensures s.custs[i].pt.CRead? ==> forall n | 0 <= n < |s.custs| :: !s.custs[n].pt.CWrite?
    ensures s.custs[i].pt.CStore? ==> forall n | 0 <= n < |s.custs| :: !s.custs[n].pt.CAdvance?
  {
    Exclusive(s, CounterCS);
    Exclusive(s, QueueCS);
    forall n | 0 <= n < |s.custs| && s.custs[i].pt.CRead? ensures !s.custs[n].pt.CWrite? {
      assert ChargesC(CounterCS, s.custs[i]) && (s.custs[n].pt.CWrite? ==> ChargesC(CounterCS, s.custs[n]));
    }
    forall n | 0 <= n < |s.custs| && s.custs[i].pt.CStore? ensures !s.custs[n].pt.CAdvance? {
      assert ChargesC(QueueCS, s.custs[i]) && (s.custs[n].pt.CAdvance? ==> ChargesC(QueueCS, s.custs[n]));
    }
  }

  lemma BookAlone(s: State, j: int)
    requires Shape(s) && Accounts(s) && 0 <= j < |s.clerks| && !s.clerks[j].blocked
    ensures s.clerks[j].pt.KLoad? ==> forall n | 0 <= n < |s.clerks| :: !s.clerks[n].pt.KAdvance?
    ensures s.clerks[j].pt.KBook1? ==> forall n | 0 <= n < |s.clerks| && n != j :: !s.clerks[n].pt.KBook1?
    ensures s.clerks[j].pt.KBook2? ==> forall n | 0 <= n < |s.clerks| && n != j ::
              !s.clerks[n].pt.KBook2? && (s.clerks[n].pt.KBook1? ==> !Needs2(s.clerks[n].flight))
  {
    Exclusive(s, QueueCS);
    Exclusive(s, Flight1CS);
    Exclusive(s, Flight2CS);
    forall n | 0 <= n < |s.clerks| && n != j
      ensures s.clerks[j].pt.KLoad? ==> !s.clerks[n].pt.KAdvance?
      ensures s.clerks[j].pt.KBook1? ==> !s.clerks[n].pt.KBook1?
      ensures s.clerks[j].pt.KBook2? ==>
              !s.clerks[n].pt.KBook2? && (s.clerks[n].pt.KBook1? ==> !Needs2(s.clerks[n].flight))
    {
      ShapeRoute(s, j);
      ShapeRoute(s, n);
      hide Shape, Accounts;
      HolderCharges(s.clerks[j]);
      HolderCharges(s.clerks[n]);
      hide RouteOk, ChargesK;
    }
  }

  lemma HolderCharges(k: Clerk)
    requires RouteOk(k)
    ensures k.pt.KLoad? || k.pt.KAdvance? ==> ChargesK(QueueCS, k)
    ensures k.pt.KBook1? ==> ChargesK(Flight1CS, k)
    ensures k.pt.KBook2? || (k.pt.KBook1? && Needs2(k.flight)) ==> ChargesK(Flight2CS, k)
  {
  }

  /** What the board shows of a customer that is at, or behind, a step on shared data. */
  lemma StageAt(pt: CPoint)
    ensures pt.CRead? ==> CStage(pt) == 0
    ensures pt.CStore? ==> CStage(pt) == 3
    ensures CStage(pt) == 2 <==> pt.CWrite?
    ensures CStage(pt) == 7 <==> pt.CAdvance?
  {
  }

  /** A customer that reads or stores is alone with the counter or with the queue. */
  lemma CustAlone(s: State, i: int)
    requires Shape(s) && Accounts(s) && 0 <= i < |s.custs| && !s.custs[i].blocked
    ensures s.custs[i].pt.CRead? ==> forall n | 0 <= n < |s.custs| :: View(s).cs[n].stage != 2
    ensures s.custs[i].pt.CStore? ==> forall n | 0 <= n < |s.custs| :: View(s).cs[n].stage != 7
  {
    ReadAlone(s, i);
    hide Shape, Accounts, CStage;
    forall n | 0 <= n < |s.custs| ensures View(s).cs[n].stage == CStage(s.custs[n].pt) {}
    forall n | 0 <= n < |s.custs| { StageAt(s.custs[n].pt); }
  }

  /** A customer makes its move only where the board allows it. */
  lemma CustCan(s: State, i: int)
    requires Inv(s) && 0 <= i < |s.custs| && !s.custs[i].blocked && CustEffect(i, s.custs[i].pt).Makes?
    ensures Can(View(s), CustEffect(i, s.custs[i].pt).act)
  {
    CustAlone(s, i);
    Bounds(s);
    StageAt(s.custs[i].pt);
    assert |s.queue| == |s.custs|;
    hide Inv, CStage;
  }

  /** A dequeued customer is one of those that took an id. */
  lemma HeldId(b: Board, x: int, n: int)
    requires QueueOk(b) && Holds(b.queue, n, x) && n <= b.queueIn
    ensures 0 <= x < b.counter && IsQueued(b.cs, x)
  {
    hide Loading;
  }

  lemma ServedId(b: Board, j: int)
    requires Ok(b) && 0 <= j < |b.ks| && b.ks[j].stage >= 4
    ensures 0 <= b.ks[j].id < b.counter <= |b.flight|
  {
    hide Bookings, TicketsOk;
    HeldId(b, b.ks[j].id, b.queueOut);
  }

  /** The slot a clerk reads next has been written. */
  lemma NextSlot(b: Board)
    requires Ok(b) && b.queueOut < b.queueIn
    ensures 0 <= b.queueOut && b.queueIn <= |b.queue| && b.queue[b.queueOut].Id?
  {
    hide ServiceOk, TicketsOk, Bookings;
  }

  lemma ClerkCan(s: State, j: int)
    requires Inv(s) && 0 <= j < |s.clerks| && !s.clerks[j].blocked && ClerkEffect(j, s.clerks[j].pt).Makes?
    ensures Can(View(s), ClerkEffect(j, s.clerks[j].pt).act)
  {
    hide Accounts, Ok, Shape, RouteOk;
    var b, k := View(s), s.clerks[j];
    BookAlone(s, j);
    match k.pt {
      case KLoad =>
        SlotReady(s);
        NextSlot(b);
      case KSwitch => ServedId(b, j);
      case KTest => assert TypeOk(k.flight) by { ShapeRoute(s, j); TestRoute(k); }
      case _ =>
    }
  }

  lemma TestRoute(k: Clerk)
    requires RouteOk(k) && k.pt.KTest?
    ensures TypeOk(k.flight)
  {
  }

  lemma CustSignalView(s: State, i: int, w: Proc)
    requires Enabled(s, PC(i), w) && CustSignals(s.custs[i].pt).On?
    ensures View(CustStep(s, i, w)) == View(s)
  {
    var c := s.custs[i];
    CustSignalIs(s, i, w);
    assert CLook(CustSignalled(c)) == CLook(c);
    hide Enabled, CustStep, Signal, CLook;
    SetCustView(s, i, CustSignalled(c));
    SignalView(SetCust(s, i, CustSignalled(c)), CustSignals(c.pt).sem, w);
  }

  lemma CustWaitView(s: State, i: int, w: Proc)
    requires Enabled(s, PC(i), w) && CustWait(s.custs[i]).On?
    ensures View(CustStep(s, i, w)) == View(s)
  {
    var c := s.custs[i];
    CustWaitIs(s, i, w);
    var s1 := Down(s, CustWait(c).sem);
    assert CLook(CustAfter(c, s.count[CustWait(c).sem])) == CLook(c);
    hide Enabled, CustStep, CLook;
    SetCustView(s1, i, CustAfter(c, s.count[CustWait(c).sem]));
    assert View(s1) == View(s);
  }

  lemma CustStepView(s: State, i: int, w: Proc)
    requires Enabled(s, PC(i), w)
    requires CustEffect(i, s.custs[i].pt).Makes? ==> Can(View(s), CustEffect(i, s.custs[i].pt).act)
    ensures var r, e := View(CustStep(s, i, w)), CustEffect(i, s.custs[i].pt);
            r == if e.Stays? then View(s) else Do(View(s), e.act)
  {
    var c := s.custs[i];
    if CustSignals(c.pt).On? {
      hide View, CustStep, Can, Do, Enabled;
      CustSignalView(s, i, w);
    } else if CustWait(c).On? {
      hide View, CustStep, Can, Do, Enabled;
      CustWaitView(s, i, w);
    } else {
      hide Can;
      SetCustView(s, i, CustStep(s, i, w).custs[i]);
    }
  }

  lemma ClerkStepView(s: State, j: int, w: Proc)
    requires Enabled(s, PK(j), w) && RouteOk(s.clerks[j])
    requires ClerkEffect(j, s.clerks[j].pt).Makes? ==> Can(View(s), ClerkEffect(j, s.clerks[j].pt).act)
    ensures var r, e := View(ClerkStep(s, j, w)), ClerkEffect(j, s.clerks[j].pt);
            r == if e.Stays? then View(s) else Do(View(s), e.act)
  {
    var k := s.clerks[j];
    if ClerkSignals(k).On? {
      ClerkSignalView(s, j, w);
    } else if ClerkWait(k).On? {
      hide Can;
      ClerkWaitIs(s, j, w);
      var s1 := Down(s, ClerkWait(k).sem);
      hide Enabled;
      SetClerkView(s1, j, ClerkAfter(k, s.count[ClerkWait(k).sem]));
      assert View(s1) == View(s);
    } else {
      ClerkLocalView(s, j, w);
    }
  }

  lemma ClerkSignalView(s: State, j: int, w: Proc)
    requires Enabled(s, PK(j), w) && ClerkSignals(s.clerks[j]).On?
    requires ClerkEffect(j, s.clerks[j].pt).Makes? ==> Can(View(s), ClerkEffect(j, s.clerks[j].pt).act)
    ensures var r, e := View(ClerkStep(s, j, w)), ClerkEffect(j, s.clerks[j].pt);
            r == if e.Stays? then View(s) else Do(View(s), e.act)
  {
    var k := s.clerks[j];
    ClerkSignalIs(s, j, w);
    hide Can, Enabled, ClerkStep, Signal;
    SetClerkView(Recorded(s, k), j, Signalled(k));
    SignalView(SetClerk(Recorded(s, k), j, Signalled(k)), ClerkSignals(k).sem, w);
  }

  lemma ClerkLocalView(s: State, j: int, w: Proc)
    requires Enabled(s, PK(j), w) && ClerkSignals(s.clerks[j]).None? && ClerkWait(s.clerks[j]).None?
             && RouteOk(s.clerks[j])
    requires ClerkEffect(j, s.clerks[j].pt).Makes? && Can(View(s), ClerkEffect(j, s.clerks[j].pt).act)
    ensures View(ClerkStep(s, j, w)) == Do(View(s), ClerkEffect(j, s.clerks[j].pt).act)
  {
    assert 0 <= j < |s.clerks|;
    hide Can, Do, Enabled, ClerkStep, View, RouteOk;
    match s.clerks[j].pt {
      case KLoad | KAdvance | KSwitch => ClerkServeView(s, j, w);
      case KTest => ClerkTestView(s, j, w);
      case _ => ClerkBookView(s, j, w);
    }
  }

  lemma ClerkServeView(s: State, j: int, w: Proc)
    requires Enabled(s, PK(j), w) && ClerkSignals(s.clerks[j]).None? && ClerkWait(s.clerks[j]).None?
             && RouteOk(s.clerks[j])
    requires ClerkEffect(j, s.clerks[j].pt).Makes? && Can(View(s), ClerkEffect(j, s.clerks[j].pt).act)
    requires s.clerks[j].pt.KLoad? || s.clerks[j].pt.KAdvance? || s.clerks[j].pt.KSwitch?
    ensures View(ClerkStep(s, j, w)) == Do(View(s), ClerkEffect(j, s.clerks[j].pt).act)
  {
    var r, b := ClerkStep(s, j, w), View(s);
    assert s.clerks[j].pt.KLoad? ==> 0 <= b.queueOut < |b.queue| && b.queue[b.queueOut].Id?;
    assert s.clerks[j].pt.KSwitch? ==> 0 <= s.clerks[j].id < |s.flight|;
    hide Can, Enabled;
    SetClerkView(s, j, r.clerks[j]);
  }

  lemma ClerkTestView(s: State, j: int, w: Proc)
    requires Enabled(s, PK(j), w) && ClerkEffect(j, s.clerks[j].pt).Makes? && RouteOk(s.clerks[j])
    requires Can(View(s), ClerkEffect(j, s.clerks[j].pt).act) && s.clerks[j].pt.KTest?
    ensures View(ClerkStep(s, j, w)) == Do(View(s), ClerkEffect(j, s.clerks[j].pt).act)
  {
    var k' := ClerkStep(s, j, w).clerks[j];
    assert 0 <= j < |s.clerks|;
    hide Can, Enabled;
    SetClerkView(s, j, k');
  }

  lemma ClerkBookView(s: State, j: int, w: Proc)
    requires Enabled(s, PK(j), w) && ClerkEffect(j, s.clerks[j].pt).Makes? && RouteOk(s.clerks[j])
    requires Can(View(s), ClerkEffect(j, s.clerks[j].pt).act)
    requires s.clerks[j].pt.KBook1? || s.clerks[j].pt.KBook2?
    ensures View(ClerkStep(s, j, w)) == Do(View(s), ClerkEffect(j, s.clerks[j].pt).act)
  {
    var k' := ClerkStep(s, j, w).clerks[j];
    assert 0 <= j < |s.clerks|;
    hide Can, Enabled;
    SetClerkView(s, j, k');
  }

  // ----- the invariant -----

  lemma ResumeShape(s: State, w: Proc, sem: Sem)
    requires Shape(s) && BlockedOn(s, w, sem)
    ensures Shape(Resume(s, w))
  {
    match w
    case PC(i) => SetCustShape(s, i, CustPassed(s.custs[i]));
    case PK(j) =>
      PassedRoute(s.clerks[j]);
      SetClerkShape(s, j, ClerkPassed(s.clerks[j]));
    case PM =>
  }

  lemma PassedRoute(k: Clerk)
    requires RouteOk(k) && ClerkWait(k).On?
    ensures RouteOk(ClerkPassed(k)) && RouteOk(k.(blocked := true))
  {
  }

  lemma CountShape(s: State, sem: Sem, n: int)
    requires Shape(s) && sem in s.count
    ensures Shape(s.(count := s.count[sem := n]))
  {
  }

  lemma SignalShape(s: State, sem: Sem, w: Proc)
    requires Shape(s) && sem in s.count && (s.count[sem] + 1 <= 0 ==> BlockedOn(s, w, sem))
    ensures Shape(Signal(s, sem, w))
  {
    CountShape(s, sem, s.count[sem] + 1);
    var s1 := s.(count := s.count[sem := s.count[sem] + 1]);
    if s.count[sem] + 1 <= 0 {
      assert BlockedOn(s1, w, sem);
      hide Shape, Resume, BlockedOn;
      ResumeShape(s1, w, sem);
    }
  }

  lemma CustStepShape(s: State, i: int, w: Proc)
    requires Shape(s) && Enabled(s, PC(i), w)
    ensures Shape(CustStep(s, i, w))
  {
    var c := s.custs[i];
    if CustSignals(c.pt).On? {
      CustSignalIs(s, i, w);
      SetCustShape(s, i, CustSignalled(c));
      SignalShape(SetCust(s, i, CustSignalled(c)), CustSignals(c.pt).sem, w);
    } else if CustWait(c).On? {
      CustWaitIs(s, i, w);
      CountShape(s, CustWait(c).sem, s.count[CustWait(c).sem] - 1);
      SetCustShape(Down(s, CustWait(c).sem), i, CustAfter(c, s.count[CustWait(c).sem]));
    } else {
      SetCustShape(s, i, CustStep(s, i, w).custs[i]);
    }
  }

  lemma ClerkLocalShape(s: State, j: int, w: Proc)
    requires Shape(s) && Enabled(s, PK(j), w) && ClerkSignals(s.clerks[j]).None? && ClerkWait(s.clerks[j]).None?
    ensures Shape(ClerkStep(s, j, w))
  {
    var k' := ClerkStep(s, j, w).clerks[j];
    ShapeRoute(s, j);
    assert s.clerks[j].pt.KSwitch? && 0 <= s.clerks[j].id < |s.flight| ==> TypeOk(s.flight[s.clerks[j].id]);
    assert RouteOk(k') by { hide Shape; }
    SetClerkShape(s, j, k');
    hide RouteOk;
  }

  lemma ClerkStepShape(s: State, j: int, w: Proc)
    requires Shape(s) && Enabled(s, PK(j), w)
    ensures Shape(ClerkStep(s, j, w))
  {
    var k := s.clerks[j];
    ShapeRoute(s, j);
    if ClerkSignals(k).On? {
      ClerkSignalIs(s, j, w);
      SignalledRoute(k);
      assert Shape(Recorded(s, k));
      hide Shape, ClerkStep, Signal, RouteOk, BlockedOn;
      SetClerkShape(Recorded(s, k), j, Signalled(k));
      SignalShape(SetClerk(Recorded(s, k), j, Signalled(k)), ClerkSignals(k).sem, w);
    } else if ClerkWait(k).On? {
      ClerkWaitIs(s, j, w);
      hide Shape, ClerkStep, RouteOk;
      CountShape(s, ClerkWait(k).sem, s.count[ClerkWait(k).sem] - 1);
      PassedRoute(k);
      SetClerkShape(Down(s, ClerkWait(k).sem), j, ClerkAfter(k, s.count[ClerkWait(k).sem]));
    } else {
      ClerkLocalShape(s, j, w);
    }
  }

  lemma CustInv(s: State, i: int, w: Proc)
    requires Inv(s) && Enabled(s, PC(i), w)
    ensures Inv(CustStep(s, i, w))
  {
    assert 0 <= i < |s.custs| && !s.custs[i].blocked;
    hide Shape, Accounts, Ok, View, CustStep, Do, Can, Enabled;
    var e := CustEffect(i, s.custs[i].pt);
    if e.Makes? {
      CustCan(s, i);
      MoveOk(View(s), e.act);
    }
    CustStepView(s, i, w);
    CustStepShape(s, i, w);
    if CustSignals(s.custs[i].pt).On? {
      CustSignalOk(s, i, w);
    } else if CustWait(s.custs[i]).On? {
      CustWaitOk(s, i, w);
    } else {
      CustLocalOk(s, i, w);
    }
  }

  /** The clerk's customer is one of those that took an id, and is not finished before the clerk says so. */
  lemma ClerkFacts(s: State, j: int)
    requires Inv(s) && 0 <= j < |s.clerks|
    ensures s.clerks[j].pt.KSignalFinished? ==> s.clerks[j].id !in s.finished
    ensures KRank(s.clerks[j].pt) >= 4 ==> 0 <= s.clerks[j].id < |s.custs| == |s.flight|
  {
    hide Accounts, Bookings, TicketsOk, QueueOk, RouteOk;
    var b := View(s);
    assert b.ks[j] == KLook(s.clerks[j]);
    assert Service(b.ks, b.queue, b.queueOut, b.finished);
    if KRank(s.clerks[j].pt) >= 4 { ServedId(b, j); }
    assert b.ks[j].stage == 11 ==> b.ks[j].id !in b.finished;
  }

  lemma ClerkAccounts(s: State, j: int, w: Proc)
    requires Inv(s) && Enabled(s, PK(j), w)
    ensures Accounts(ClerkStep(s, j, w))
  {
    assert 0 <= j < |s.clerks| && !s.clerks[j].blocked;
    ClerkFacts(s, j);
    hide Shape, Accounts, Ok, View, ClerkStep, Enabled;
    if ClerkSignals(s.clerks[j]).On? {
      ClerkSignalOk(s, j, w);
    } else if ClerkWait(s.clerks[j]).On? {
      ClerkWaitOk(s, j, w);
    } else {
      ClerkLocalOk(s, j, w);
    }
  }

  lemma ClerkInv(s: State, j: int, w: Proc)
    requires Inv(s) && Enabled(s, PK(j), w)
    ensures Inv(ClerkStep(s, j, w))
  {
    assert 0 <= j < |s.clerks| && !s.clerks[j].blocked;
    ShapeRoute(s, j);
    ClerkAccounts(s, j, w);
    hide Shape, Accounts, Ok, View, ClerkStep, Do, Can, Enabled, RouteOk;
    var e := ClerkEffect(j, s.clerks[j].pt);
    if e.Makes? {
      ClerkCan(s, j);
      MoveOk(View(s), e.act);
    }
    ClerkStepView(s, j, w);
    ClerkStepShape(s, j, w);
  }

  lemma InvStep(s: State, p: Proc, w: Proc)
    requires Inv(s) && Enabled(s, p, w)
    ensures Inv(Step(s, p, w))
  {
    match p
    case PC(i) => hide Enabled, Inv, CustStep; CustInv(s, i, w);
    case PK(j) => hide Enabled, Inv, ClerkStep; ClerkInv(s, j, w);
    case PM => hide Inv, MasterStep; MasterInv(s);
  }

  lemma MasterInv(s: State)
    requires Inv(s) && Enabled(s, PM, PM)
    ensures Inv(MasterStep(s))
  {
    MasterOk(s);
    CountShape(s, Terminated, s.count[Terminated] - 1);
    hide Accounts, Ok;
    assert View(MasterStep(s)) == View(s);
  }
}
