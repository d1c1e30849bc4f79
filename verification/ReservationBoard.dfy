/** The reservation program seen without its semaphores: who serves whom, the queue, the tickets and the bookings. */
module ReservationBoard {
  import opened Counting
  import opened Reservation

  /** 0: no id yet; 2: id read; 3: counted; 7: stored in the queue; 8: queued. */
  datatype CView = CV(stage: nat, id: int)

  /** 0: idle; 3: slot read; 4: dequeued; 6: flight known; 9, 10: booking; 11: decided; 14: finished. */
  datatype KView = KV(stage: nat, id: int, flight: int)

  datatype Board = Board(
    flight: seq<int>, tickets1: nat, tickets2: nat, cs: seq<CView>, ks: seq<KView>,
    counter: int, queueIn: int, queueOut: int, queue: seq<Slot>,
    left1: int, left2: int, booked1: seq<int>, booked2: seq<int>, finished: set<int>, denied: set<int>)

  function CStage(pt: CPoint): nat {
    var r := CRank(pt);
    if r < 2 then 0 else if r == 2 then 2 else if r < 7 then 3 else if r == 7 then 7 else 8
  }

  function KStage(pt: KPoint): nat {
    var r := KRank(pt);
    if r < 3 then 0 else if r == 3 then 3 else if r < 6 then 4 else if r < 9 then 6
    else if r < 11 then r else if r < 14 then 11 else 14
  }

  function CLook(c: Cust): CView { CV(CStage(c.pt), c.id) }
  function KLook(k: Clerk): KView { KV(KStage(k.pt), k.id, k.flight) }

  function View(s: State): Board {
    Board(s.flight, s.tickets1, s.tickets2, seq(|s.custs|, i requires 0 <= i < |s.custs| => CLook(s.custs[i])),
          seq(|s.clerks|, j requires 0 <= j < |s.clerks| => KLook(s.clerks[j])), s.counter, s.queueIn, s.queueOut,
            s.queue,
          s.left1, s.left2, s.booked1, s.booked2, s.finished, s.denied)
  }

  // ----- the moves -----

  datatype Act = Read(i: int) | Write(i: int) | Store(i: int) | Advance(i: int)
    | Load(j: int) | Dequeue(j: int) | Switch(j: int) | Test(j: int) | Book1(j: int) | Book2(j: int)
    | Finish(j: int) | Release(j: int)

  predicate IsCust(b: Board, i: int, stage: nat) { 0 <= i < |b.cs| && b.cs[i].stage == stage }
  predicate IsClerk(b: Board, j: int, stage: nat) { 0 <= j < |b.ks| && b.ks[j].stage == stage }

  /** Where a move may be made; the semaphores of the program see to the exclusion and to the bounds. */
  ghost predicate Can(b: Board, act: Act) {
    match act
    case Read(i) => IsCust(b, i, 0) && forall n | 0 <= n < |b.cs| :: b.cs[n].stage != 2
    case Write(i) => IsCust(b, i, 2) && b.counter < |b.cs|
    case Store(i) => IsCust(b, i, 3) && 0 <= b.queueIn < |b.queue| && forall n | 0 <= n < |b.cs| :: b.cs[n].stage != 7
    case Advance(i) => IsCust(b, i, 7)
    case Load(j) =>
      IsClerk(b, j, 0) && 0 <= b.queueOut < b.queueIn <= |b.queue| && b.queue[b.queueOut].Id?
      && forall n | 0 <= n < |b.ks| :: b.ks[n].stage != 3
    case Dequeue(j) => IsClerk(b, j, 3)
    case Switch(j) => IsClerk(b, j, 4) && 0 <= b.ks[j].id < |b.flight|
    case Test(j) => IsClerk(b, j, 6) && TypeOk(b.ks[j].flight)
    case Book1(j) => IsClerk(b, j, 9) && forall n | 0 <= n < |b.ks| && n != j :: b.ks[n].stage != 9
    case Book2(j) => IsClerk(b, j, 10) &&
      forall n | 0 <= n < |b.ks| && n != j :: b.ks[n].stage != 10 && (b.ks[n].stage == 9 ==> !Needs2(b.ks[n].flight))
    case Finish(j) => IsClerk(b, j, 11)
    case Release(j) => IsClerk(b, j, 14)
  }

  function PutC(b: Board, i: int, c: CView): Board
    requires 0 <= i < |b.cs|
  {
    b.(cs := b.cs[i := c])
  }

  function PutK(b: Board, j: int, k: KView): Board
    requires 0 <= j < |b.ks|
  {
    b.(ks := b.ks[j := k])
  }

  function Do(b: Board, act: Act): Board
    requires Can(b, act)
  {
    match act
    case Read(i) => PutC(b, i, CV(2, b.counter))
    case Write(i) => PutC(b, i, b.cs[i].(stage := 3)).(counter := b.counter + 1)
    case Store(i) => PutC(b, i, b.cs[i].(stage := 7)).(queue := b.queue[b.queueIn := Id(b.cs[i].id)])
    case Advance(i) => PutC(b, i, b.cs[i].(stage := 8)).(queueIn := b.queueIn + 1)
    case Load(j) => PutK(b, j, b.ks[j].(stage := 3, id := b.queue[b.queueOut].id))
    case Dequeue(j) => PutK(b, j, b.ks[j].(stage := 4)).(queueOut := b.queueOut + 1)
    case Switch(j) => PutK(b, j, b.ks[j].(stage := 6, flight := b.flight[b.ks[j].id]))
    case Test(j) =>
      var f := b.ks[j].flight;
      if Room(f, b.left1, b.left2) then PutK(b, j, b.ks[j].(stage := if Needs1(f) then 9 else 10))
      else PutK(b, j, b.ks[j].(stage := 11)).(denied := b.denied + {b.ks[j].id})
    case Book1(j) =>
      PutK(b, j, b.ks[j].(stage := if Needs2(b.ks[j].flight) then 10 else 11))
      .(left1 := b.left1 - 1, booked1 := b.booked1 + [b.ks[j].id])
    case Book2(j) => PutK(b, j, b.ks[j].(stage := 11)).(left2 := b.left2 - 1, booked2 := b.booked2 + [b.ks[j].id])
    case Finish(j) => PutK(b, j, b.ks[j].(stage := 14)).(finished := b.finished + {b.ks[j].id})
    case Release(j) => PutK(b, j, b.ks[j].(stage := 0))
  }

  // ----- what every move keeps -----

  /** Ids are handed out in order, each to one customer. */
  ghost predicate Ids(cs: seq<CView>, counter: int) {
    && 0 <= counter <= |cs|
    && (forall i | 0 <= i < |cs| ::
       (cs[i].stage == 2 ==> cs[i].id == counter) && (cs[i].stage >= 3 ==> 0 <= cs[i].id < counter))
    && (forall i, n | 0 <= i < n < |cs| && cs[i].stage >= 2 && cs[n].stage >= 2 :: cs[i].id != cs[n].id)
  }

  ghost predicate IsQueued(cs: seq<CView>, x: int) {
    exists i | 0 <= i < |cs| :: cs[i].stage == 8 && cs[i].id == x
  }

  /** The first `n` slots hold customer `x`. */
  ghost predicate Holds(queue: seq<Slot>, n: int, x: int) {
    exists k | 0 <= k < n && k < |queue| :: queue[k] == Id(x)
  }

  /** The queue holds the customers that entered it, each once. */
  ghost predicate Slots(cs: seq<CView>, queue: seq<Slot>, queueIn: int) {
    && 0 <= queueIn <= |queue|
    && (forall k | 0 <= k < queueIn :: queue[k].Id? && IsQueued(cs, queue[k].id))
    && (forall k, l | 0 <= k < l < queueIn :: queue[k] != queue[l])
    && (forall i | 0 <= i < |cs| && cs[i].stage == 8 :: Holds(queue, queueIn, cs[i].id))
    && (forall i | 0 <= i < |cs| && cs[i].stage == 7 :: queueIn < |queue| && queue[queueIn] == Id(cs[i].id))
  }

  /** A clerk about to dequeue has read the slot it dequeues. */
  ghost predicate Loading(ks: seq<KView>, queue: seq<Slot>, queueOut: int, queueIn: int) {
    && 0 <= queueOut <= queueIn <= |queue|
    && (forall j | 0 <= j < |ks| && ks[j].stage == 3 :: queueOut < queueIn && queue[queueOut] == Id(ks[j].id))
    && (forall j, n | 0 <= j < n < |ks| :: !(ks[j].stage == 3 && ks[n].stage == 3))
  }

  /** A clerk at a stage from `lo` on serves `x`. */
  ghost predicate Served(ks: seq<KView>, x: int, lo: nat) {
    exists j | 0 <= j < |ks| :: ks[j].stage >= lo && ks[j].id == x
  }

  /** No two clerks serve the same customer. */
  ghost predicate Apart(ks: seq<KView>) {
    forall j, n | 0 <= j < n < |ks| && ks[j].stage >= 4 && ks[n].stage >= 4 :: ks[j].id != ks[n].id
  }

  /**
   * The dequeued customers are the finished ones and those with a clerk; a clerk's customer is finished only at the
   * end.
   */
  ghost predicate Service(ks: seq<KView>, queue: seq<Slot>, queueOut: int, finished: set<int>) {
    && (forall j | 0 <= j < |ks| && ks[j].stage >= 4 :: Holds(queue, queueOut, ks[j].id))
    && (forall j | 0 <= j < |ks| && ks[j].stage >= 4 :: ks[j].id in finished <==> ks[j].stage >= 14)
    && (forall x | x in finished :: Holds(queue, queueOut, x))
    && (forall k | 0 <= k < queueOut && k < |queue| && queue[k].Id? ::
       queue[k].id in finished || Served(ks, queue[k].id, 4))
  }

  ghost predicate Knows(ks: seq<KView>, flight: seq<int>) {
    forall j | 0 <= j < |ks| && 6 <= ks[j].stage :: 0 <= ks[j].id < |flight| && ks[j].flight == flight[ks[j].id]
  }

  /** Tickets are neither lost nor oversold: a clerk about to book finds one. */
  ghost predicate Tickets(ks: seq<KView>, left1: int, left2: int) {
    && 0 <= left1 && 0 <= left2
    && (forall j | 0 <= j < |ks| && ks[j].stage == 9 ::
          left1 > 0 && Needs1(ks[j].flight) && (Needs2(ks[j].flight) ==> left2 > 0))
    && (forall j | 0 <= j < |ks| && ks[j].stage == 10 :: left2 > 0 && Needs2(ks[j].flight))
  }

  ghost predicate Through(ks: seq<KView>, finished: set<int>, x: int, lo: nat) {
    x in finished || Served(ks, x, lo)
  }

  predicate Room(flight: int, left1: int, left2: int) {
    (Needs1(flight) ==> left1 > 0) && (Needs2(flight) ==> left2 > 0)
  }

  /** Only customers that wanted the flight are booked on it, each once. */
  ghost predicate Booked1Ok(b: Board) {
    Distinct(b.booked1) && forall x | x in b.booked1 ::
      0 <= x < |b.flight| && Needs1(b.flight[x]) && Through(b.ks, b.finished, x, 10)
  }

  ghost predicate Booked2Ok(b: Board) {
    Distinct(b.booked2) && forall x | x in b.booked2 ::
      0 <= x < |b.flight| && Needs2(b.flight[x]) && Through(b.ks, b.finished, x, 11)
  }

  /** Whoever was denied wanted a flight that is sold out, and is on none. */
  ghost predicate DeniedOk(b: Board) {
    forall x | x in b.denied :: 0 <= x < |b.flight| && !Room(b.flight[x], b.left1, b.left2)
      && x !in b.booked1 && x !in b.booked2 && Through(b.ks, b.finished, x, 11)
  }

  /** A decided customer has every booking it needs, or was denied. */
  ghost predicate Decided(b: Board, x: int) {
    && 0 <= x < |b.flight|
    && (x in b.denied || ((Needs1(b.flight[x]) ==> x in b.booked1) && (Needs2(b.flight[x]) ==> x in b.booked2)))
  }

  ghost predicate DecidedOk(b: Board) {
    && (forall j | 0 <= j < |b.ks| && b.ks[j].stage == 10 && Needs1(b.ks[j].flight) :: b.ks[j].id in b.booked1)
    && (forall j | 0 <= j < |b.ks| && b.ks[j].stage >= 11 :: Decided(b, b.ks[j].id))
    && (forall x | x in b.finished :: Decided(b, x))
  }

  ghost predicate Bookings(b: Board) {
    Booked1Ok(b) && Booked2Ok(b) && DeniedOk(b) && DecidedOk(b)
  }

  ghost predicate QueueOk(b: Board) {
    && |b.cs| == |b.flight| == |b.queue| && (forall x | 0 <= x < |b.flight| :: TypeOk(b.flight[x]))
    && Ids(b.cs, b.counter) && Slots(b.cs, b.queue, b.queueIn) && Loading(b.ks, b.queue, b.queueOut, b.queueIn)
  }

  ghost predicate ServiceOk(b: Board) {
    Apart(b.ks) && Service(b.ks, b.queue, b.queueOut, b.finished) && Knows(b.ks, b.flight)
  }

  ghost predicate TicketsOk(b: Board) {
    && Tickets(b.ks, b.left1, b.left2)
    && b.left1 + |b.booked1| == b.tickets1 && b.left2 + |b.booked2| == b.tickets2
  }

  ghost predicate Ok(b: Board) {
    QueueOk(b) && ServiceOk(b) && TicketsOk(b) && Bookings(b)
  }

  // ----- moves of customers -----

  lemma ReadOk(cs: seq<CView>, i: int, counter: int, queue: seq<Slot>, queueIn: int)
    requires Ids(cs, counter) && Slots(cs, queue, queueIn) && 0 <= i < |cs| && cs[i].stage == 0
    requires forall n | 0 <= n < |cs| :: cs[n].stage != 2
    ensures Ids(cs[i := CV(2, counter)], counter) && Slots(cs[i := CV(2, counter)], queue, queueIn)
  {
    QueuedStep(cs, i, CV(2, counter));
  }

  lemma QueuedStep(cs: seq<CView>, i: int, c: CView)
    requires 0 <= i < |cs| && (cs[i].stage == 8 ==> c == cs[i])
    ensures forall x :: IsQueued(cs, x) ==> IsQueued(cs[i := c], x)
  {
    forall x | IsQueued(cs, x) ensures IsQueued(cs[i := c], x) {
      var n :| 0 <= n < |cs| && cs[n].stage == 8 && cs[n].id == x;
      assert cs[i := c][n] == cs[n];
    }
  }

  lemma WriteOk(cs: seq<CView>, i: int, counter: int, queue: seq<Slot>, queueIn: int)
    requires Ids(cs, counter) && Slots(cs, queue, queueIn) && 0 <= i < |cs| && cs[i].stage == 2 && counter < |cs|
    ensures var cs' := cs[i := cs[i].(stage := 3)]; Ids(cs', counter + 1) && Slots(cs', queue, queueIn)
  {
    QueuedStep(cs, i, cs[i].(stage := 3));
  }

  lemma HoldsStep(queue: seq<Slot>, r: seq<Slot>, n: int, m: int)
    requires n <= m && |queue| == |r| && forall k | 0 <= k < n && k < |queue| :: r[k] == queue[k]
    ensures forall x :: Holds(queue, n, x) ==> Holds(r, m, x)
  {
    forall x | Holds(queue, n, x) ensures Holds(r, m, x) {
      var k :| 0 <= k < n && k < |queue| && queue[k] == Id(x);
      assert r[k] == Id(x);
    }
  }

  lemma StoreOk(cs: seq<CView>, i: int, counter: int, queue: seq<Slot>, queueIn: int)
    requires Ids(cs, counter) && Slots(cs, queue, queueIn) && 0 <= i < |cs| && cs[i].stage == 3
             && 0 <= queueIn < |queue|
    requires forall n | 0 <= n < |cs| :: cs[n].stage != 7
    ensures var cs' := cs[i := cs[i].(stage := 7)];
            Ids(cs', counter) && Slots(cs', queue[queueIn := Id(cs[i].id)], queueIn)
  {
    QueuedStep(cs, i, cs[i].(stage := 7));
    HoldsStep(queue, queue[queueIn := Id(cs[i].id)], queueIn, queueIn);
    hide IsQueued, Holds;
  }

  /** The customer that advances queue_in is not in the queue yet. */
  lemma NotQueued(cs: seq<CView>, i: int, counter: int, queue: seq<Slot>, queueIn: int)
    requires Ids(cs, counter) && Slots(cs, queue, queueIn) && 0 <= i < |cs| && cs[i].stage == 7
    ensures forall k | 0 <= k < queueIn :: queue[k] != queue[queueIn]
    ensures forall n | 0 <= n < |cs| && cs[n].stage == 7 :: n == i
  {
    forall k | 0 <= k < queueIn ensures queue[k] != queue[queueIn] {
      var n :| 0 <= n < |cs| && cs[n].stage == 8 && cs[n].id == queue[k].id;
      assert cs[i].id != cs[n].id;
    }
  }

  lemma AdvanceOk(cs: seq<CView>, i: int, counter: int, queue: seq<Slot>, queueIn: int)
    requires Ids(cs, counter) && Slots(cs, queue, queueIn) && 0 <= i < |cs| && cs[i].stage == 7
    ensures var cs' := cs[i := cs[i].(stage := 8)]; Ids(cs', counter) && Slots(cs', queue, queueIn + 1)
  {
    var cs' := cs[i := cs[i].(stage := 8)];
    NotQueued(cs, i, counter, queue, queueIn);
    QueuedStep(cs, i, cs[i].(stage := 8));
    HoldsStep(queue, queue, queueIn, queueIn + 1);
    assert IsQueued(cs', cs[i].id) by { assert cs'[i].stage == 8; }
    assert Holds(queue, queueIn + 1, cs[i].id) by { assert queue[queueIn] == Id(cs[i].id); }
    hide IsQueued, Holds;
    assert Ids(cs', counter);
    hide Ids;
  }

  lemma ServiceQueue(ks: seq<KView>, queue: seq<Slot>, r: seq<Slot>, queueOut: int, queueIn: int, toIn: int,
      finished: set<int>)
    requires Loading(ks, queue, queueOut, queueIn) && Service(ks, queue, queueOut, finished)
             && queueIn <= toIn <= |r| == |queue|
    requires forall k | 0 <= k < queueIn :: r[k] == queue[k]
    ensures Loading(ks, r, queueOut, toIn) && Service(ks, r, queueOut, finished)
  {
    HoldsStep(queue, r, queueOut, queueOut);
    hide Holds, Served;
  }

  lemma CustMoveQueue(b: Board, act: Act)
    requires QueueOk(b) && ServiceOk(b) && Can(b, act) && (act.Read? || act.Write? || act.Store? || act.Advance?)
    ensures QueueOk(Do(b, act)) && ServiceOk(Do(b, act))
  {
    var r := Do(b, act);
    CustMoveSame(b, act);
    hide Ids, Slots, Loading, Service, Apart, Knows;
    if act.Read? || act.Write? {
      CustMoveIds(b, act);
    } else {
      if act.Store? { StoreSlots(b, act.i); } else { AdvanceSlots(b, act.i); }
    }
  }

  lemma CustMoveIds(b: Board, act: Act)
    requires QueueOk(b) && Can(b, act) && (act.Read? || act.Write?)
    ensures QueueOk(Do(b, act)) && Do(b, act).queue == b.queue && Do(b, act).queueIn == b.queueIn
  {
    hide Ids, Slots, Loading;
    if act.Read? {
      ReadOk(b.cs, act.i, b.counter, b.queue, b.queueIn);
    } else {
      WriteOk(b.cs, act.i, b.counter, b.queue, b.queueIn);
    }
  }

  lemma StoreSlots(b: Board, i: int)
    requires QueueOk(b) && ServiceOk(b) && Can(b, Store(i))
    ensures QueueOk(Do(b, Store(i))) && ServiceOk(Do(b, Store(i)))
  {
    var r := Do(b, Store(i));
    hide Ids, Slots, Loading, Service, Apart, Knows;
    StoreOk(b.cs, i, b.counter, b.queue, b.queueIn);
    ServiceQueue(b.ks, b.queue, r.queue, b.queueOut, b.queueIn, b.queueIn, b.finished);
  }

  lemma AdvanceSlots(b: Board, i: int)
    requires QueueOk(b) && ServiceOk(b) && Can(b, Advance(i))
    ensures QueueOk(Do(b, Advance(i))) && ServiceOk(Do(b, Advance(i)))
  {
    hide Ids, Slots, Loading, Service, Apart, Knows;
    AdvanceOk(b.cs, i, b.counter, b.queue, b.queueIn);
    SlotsRoom(b.cs, i, b.queue, b.queueIn);
    ServiceQueue(b.ks, b.queue, b.queue, b.queueOut, b.queueIn, b.queueIn + 1, b.finished);
  }

  lemma CustMoveSame(b: Board, act: Act)
    requires Can(b, act) && (act.Read? || act.Write? || act.Store? || act.Advance?)
    ensures var r := Do(b, act);
            && r == b.(cs := r.cs, counter := r.counter, queue := r.queue, queueIn := r.queueIn)
            && |r.cs| == |b.cs| && |r.queue| == |b.queue|
  {
  }

  lemma CustMoveOk(b: Board, act: Act)
    requires Ok(b) && Can(b, act) && (act.Read? || act.Write? || act.Store? || act.Advance?)
    ensures Ok(Do(b, act))
  {
    CustMoveQueue(b, act);
    CustMoveSame(b, act);
    hide QueueOk, ServiceOk, Tickets, Bookings, Do, Can;
    SameBookings(b, Do(b, act));
  }

  lemma SlotsRoom(cs: seq<CView>, i: int, queue: seq<Slot>, queueIn: int)
    requires Slots(cs, queue, queueIn) && 0 <= i < |cs| && cs[i].stage == 7
    ensures queueIn < |queue|
  {
  }

  lemma SameBookings(b: Board, r: Board)
    requires Bookings(b) && r.ks == b.ks && r.finished == b.finished && r.denied == b.denied && r.flight == b.flight
    requires r.booked1 == b.booked1 && r.booked2 == b.booked2 && r.left1 == b.left1 && r.left2 == b.left2
    ensures Bookings(r)
  {
    assert forall x :: Decided(b, x) ==> Decided(r, x);
    hide Decided, Distinct, Through;
  }

  // ----- moves of clerks -----

  /** A clerk that goes on with the same customer stays a server. */
  lemma ServedStep(ks: seq<KView>, j: int, k: KView, lo: nat)
    requires 0 <= j < |ks| && (ks[j].stage >= lo ==> k.stage >= lo && k.id == ks[j].id)
    ensures forall x :: Served(ks, x, lo) ==> Served(ks[j := k], x, lo)
  {
    forall x | Served(ks, x, lo) ensures Served(ks[j := k], x, lo) {
      var n :| 0 <= n < |ks| && ks[n].stage >= lo && ks[n].id == x;
      assert ks[j := k][n].stage >= lo && ks[j := k][n].id == x;
    }
  }

  lemma LoadOk(ks: seq<KView>, j: int, k: KView, queue: seq<Slot>, queueOut: int, queueIn: int, finished: set<int>,
      flight: seq<int>)
    requires Loading(ks, queue, queueOut, queueIn) && Service(ks, queue, queueOut, finished) && Apart(ks)
             && Knows(ks, flight)
    requires 0 <= j < |ks| && ks[j].stage == 0 && queueOut < queueIn && k.stage == 3 && queue[queueOut] == Id(k.id)
    requires forall n | 0 <= n < |ks| :: ks[n].stage != 3
    ensures var r := ks[j := k];
            Loading(r, queue, queueOut, queueIn) && Service(r, queue, queueOut, finished) && Apart(r)
            && Knows(r, flight)
  {
    ServedStep(ks, j, k, 4);
    hide Holds, Served;
  }

  lemma DequeueOk(ks: seq<KView>, j: int, cs: seq<CView>, queue: seq<Slot>, queueOut: int, queueIn: int,
      finished: set<int>, flight: seq<int>)
    requires Loading(ks, queue, queueOut, queueIn) && Service(ks, queue, queueOut, finished) && Apart(ks)
             && Knows(ks, flight)
    requires Slots(cs, queue, queueIn) && 0 <= j < |ks| && ks[j].stage == 3
    ensures var r := ks[j := ks[j].(stage := 4)];
            Loading(r, queue, queueOut + 1, queueIn) && Service(r, queue, queueOut + 1, finished) && Apart(r)
            && Knows(r, flight)
  {
    var k := ks[j].(stage := 4);
    var r := ks[j := k];
    ServedStep(ks, j, k, 4);
    HoldsStep(queue, queue, queueOut, queueOut + 1);
    NotYet(cs, queue, queueOut, queueIn, k.id);
    assert Holds(queue, queueOut + 1, k.id) by { assert queue[queueOut] == Id(k.id); }
    assert Served(r, k.id, 4) by { assert r[j].stage >= 4; }
    hide Holds, Served, Slots;
    assert forall n | 0 <= n < |ks| :: n != j ==> r[n] == ks[n];
  }

  lemma NotYet(cs: seq<CView>, queue: seq<Slot>, queueOut: int, queueIn: int, x: int)
    requires Slots(cs, queue, queueIn) && 0 <= queueOut < queueIn && queue[queueOut] == Id(x)
    ensures !Holds(queue, queueOut, x)
  {
  }

  /** A clerk goes on with its customer and does not finish it yet. */
  lemma OnwardOk(ks: seq<KView>, j: int, k: KView, queue: seq<Slot>, queueOut: int, queueIn: int, finished: set<int>)
    requires Loading(ks, queue, queueOut, queueIn) && Service(ks, queue, queueOut, finished) && Apart(ks)
    requires 0 <= j < |ks| && 4 <= ks[j].stage < 14 && 4 <= k.stage < 14 && k.id == ks[j].id
    ensures var r := ks[j := k];
            Loading(r, queue, queueOut, queueIn) && Service(r, queue, queueOut, finished) && Apart(r)
  {
    ServedStep(ks, j, k, 4);
    hide Holds, Served;
  }

  lemma FinishOk(ks: seq<KView>, j: int, queue: seq<Slot>, queueOut: int, queueIn: int, finished: set<int>,
      flight: seq<int>)
    requires Loading(ks, queue, queueOut, queueIn) && Service(ks, queue, queueOut, finished) && Apart(ks)
             && Knows(ks, flight)
    requires 0 <= j < |ks| && ks[j].stage == 11
    ensures var r := ks[j := ks[j].(stage := 14)];
            Loading(r, queue, queueOut, queueIn) && Service(r, queue, queueOut, finished + {ks[j].id}) && Apart(r)
            && Knows(r, flight)
  {
    ServedStep(ks, j, ks[j].(stage := 14), 4);
    hide Holds, Served;
  }

  lemma ReleaseOk(ks: seq<KView>, j: int, queue: seq<Slot>, queueOut: int, queueIn: int, finished: set<int>,
      flight: seq<int>)
    requires Loading(ks, queue, queueOut, queueIn) && Service(ks, queue, queueOut, finished) && Apart(ks)
             && Knows(ks, flight)
    requires 0 <= j < |ks| && ks[j].stage == 14
    ensures var r := ks[j := ks[j].(stage := 0)];
            Loading(r, queue, queueOut, queueIn) && Service(r, queue, queueOut, finished) && Apart(r)
            && Knows(r, flight)
  {
    var r := ks[j := ks[j].(stage := 0)];
    forall x | Served(ks, x, 4) ensures x in finished || Served(r, x, 4) {
      var n :| 0 <= n < |ks| && ks[n].stage >= 4 && ks[n].id == x;
      if n != j { assert r[n].stage >= 4; }
    }
    hide Holds, Served;
  }

  /** A move that books and denies nobody. */
  lemma BookingsStep(b: Board, r: Board, j: int)
    requires Bookings(b) && 0 <= j < |b.ks| == |r.ks| && r.ks == b.ks[j := r.ks[j]] && r.denied == b.denied
             && r.flight == b.flight
    requires r.booked1 == b.booked1 && r.booked2 == b.booked2 && r.left1 == b.left1 && r.left2 == b.left2
    requires forall x, lo: nat | 10 <= lo <= 11 && Through(b.ks, b.finished, x, lo) :: Through(r.ks, r.finished, x, lo)
    requires r.ks[j].stage == 10 ==> !Needs1(r.ks[j].flight)
    requires r.ks[j].stage >= 11 ==> b.ks[j].stage >= 11 && r.ks[j].id == b.ks[j].id
    requires forall x | x in r.finished && x !in b.finished :: Decided(b, x)
    ensures Bookings(r)
  {
    assert forall x :: Decided(b, x) ==> Decided(r, x);
    hide Decided, Distinct, Through;
  }

  lemma ThroughStep(b: Board, r: Board, j: int)
    requires 0 <= j < |b.ks| == |r.ks| && r.ks == b.ks[j := r.ks[j]] && b.finished <= r.finished
    requires b.ks[j].stage >= 10 ==>
             b.ks[j].id in r.finished || (r.ks[j].stage >= b.ks[j].stage && r.ks[j].id == b.ks[j].id)
    ensures forall x, lo: nat | 10 <= lo <= 11 && Through(b.ks, b.finished, x, lo) :: Through(r.ks, r.finished, x, lo)
  {
    forall x, lo: nat | 10 <= lo <= 11 && Through(b.ks, b.finished, x, lo) ensures Through(r.ks, r.finished, x, lo) {
      if x !in b.finished {
        var n :| 0 <= n < |b.ks| && b.ks[n].stage >= lo && b.ks[n].id == x;
        assert x in r.finished || (r.ks[n].stage >= lo && r.ks[n].id == x);
      }
    }
  }

  lemma ServeMoveQueue(b: Board, act: Act)
    requires QueueOk(b) && ServiceOk(b) && Can(b, act)
             && (act.Load? || act.Dequeue? || act.Switch? || act.Finish? || act.Release?)
    ensures QueueOk(Do(b, act)) && ServiceOk(Do(b, act))
  {
    var r, j := Do(b, act), act.j;
    hide Ids, Slots, Service, Apart, Holds, Served;
    match act {
      case Load(_) =>
        LoadOk(b.ks, j, r.ks[j], b.queue, b.queueOut, b.queueIn, b.finished, b.flight);
      case Dequeue(_) => DequeueOk(b.ks, j, b.cs, b.queue, b.queueOut, b.queueIn, b.finished, b.flight);
      case Switch(_) => OnwardOk(b.ks, j, r.ks[j], b.queue, b.queueOut, b.queueIn, b.finished);
      case Finish(_) => FinishOk(b.ks, j, b.queue, b.queueOut, b.queueIn, b.finished, b.flight);
      case Release(_) => ReleaseOk(b.ks, j, b.queue, b.queueOut, b.queueIn, b.finished, b.flight);
    }
  }

  lemma ServeMoveOk(b: Board, act: Act)
    requires Ok(b) && Can(b, act) && (act.Load? || act.Dequeue? || act.Switch? || act.Finish? || act.Release?)
    ensures Ok(Do(b, act))
  {
    hide QueueOk, ServiceOk, Tickets, Bookings;
    ServeMoveSame(b, act);
    hide Do;
    ServeMoveQueue(b, act);
    ServeMoveTickets(b, act);
    ServeMoveBookings(b, act);
  }

  lemma ServeMoveSame(b: Board, act: Act)
    requires Can(b, act) && (act.Load? || act.Dequeue? || act.Switch? || act.Finish? || act.Release?)
    ensures var r := Do(b, act); r == b.(ks := r.ks, queueOut := r.queueOut, finished := r.finished)
  {
  }

  lemma ServeMoveTickets(b: Board, act: Act)
    requires Tickets(b.ks, b.left1, b.left2) && Can(b, act)
             && (act.Load? || act.Dequeue? || act.Switch? || act.Finish? || act.Release?)
    ensures var r := Do(b, act); Tickets(r.ks, r.left1, r.left2)
  {
  }

  lemma ServeMoveBookings(b: Board, act: Act)
    requires Ok(b) && Can(b, act) && (act.Load? || act.Dequeue? || act.Switch? || act.Finish? || act.Release?)
    ensures Bookings(Do(b, act))
  {
    var r, j := Do(b, act), act.j;
    assert act.Release? ==> b.ks[j].id in b.finished;
    assert act.Finish? ==> Decided(b, b.ks[j].id);
    hide QueueOk, ServiceOk, TicketsOk, Decided;
    ThroughStep(b, r, j);
    hide Bookings, Through;
    BookingsStep(b, r, j);
  }

  /** A clerk's customer has not got as far as `lo` while the clerk has not. */
  lemma NotThrough(b: Board, j: int, lo: nat)
    requires ServiceOk(b) && 0 <= j < |b.ks| && 4 <= b.ks[j].stage < lo <= 14
    ensures !Through(b.ks, b.finished, b.ks[j].id, lo)
  {
    forall n | 0 <= n < |b.ks| && b.ks[n].stage >= lo ensures b.ks[n].id != b.ks[j].id {
      assert n < j || j < n;
    }
  }

  lemma ClerkKnows(b: Board, j: int)
    requires ServiceOk(b) && 0 <= j < |b.ks| && 6 <= b.ks[j].stage
    ensures 0 <= b.ks[j].id < |b.flight| && b.ks[j].flight == b.flight[b.ks[j].id]
  {
  }

  /** A clerk that goes on serving its customer disturbs neither the queue nor the service. */
  lemma OnwardQueue(b: Board, r: Board, j: int)
    requires QueueOk(b) && ServiceOk(b) && 0 <= j < |b.ks| == |r.ks| && r.ks == b.ks[j := r.ks[j]]
    requires 6 <= b.ks[j].stage < 14 && 6 <= r.ks[j].stage < 14 && r.ks[j].id == b.ks[j].id
             && r.ks[j].flight == b.ks[j].flight
    requires r == b.(ks := r.ks, left1 := r.left1, left2 := r.left2, booked1 := r.booked1, booked2 := r.booked2,
                     denied := r.denied)
    ensures QueueOk(r) && ServiceOk(r)
  {
    hide Ids, Slots, Service, Apart, Holds, Served;
    OnwardOk(b.ks, j, r.ks[j], b.queue, b.queueOut, b.queueIn, b.finished);
  }

  /** Bookings only grow, and whoever was denied stays denied a full flight. */
  ghost predicate Grown(b: Board, r: Board) {
    && r.flight == b.flight && r.finished == b.finished && r.left1 <= b.left1 && r.left2 <= b.left2
       && b.denied <= r.denied
    && (forall x | x in b.booked1 :: x in r.booked1) && (forall x | x in b.booked2 :: x in r.booked2)
  }

  lemma DecidedStep(b: Board, r: Board)
    requires Grown(b, r)
    ensures forall x :: Decided(b, x) ==> Decided(r, x)
  {
  }

  lemma DistinctAppend(q: seq<int>, x: int)
    requires Distinct(q) && x !in q
    ensures Distinct(q + [x])
    ensures forall y :: y in q + [x] <==> y in q || y == x
  {
  }

  lemma AcceptOk(b: Board, j: int)
    requires Ok(b) && Can(b, Test(j)) && Room(b.ks[j].flight, b.left1, b.left2)
    ensures Ok(Do(b, Test(j)))
  {
    var r := Do(b, Test(j));
    OnwardQueue(b, r, j);
    assert Tickets(r.ks, r.left1, r.left2);
    hide QueueOk, ServiceOk, Tickets;
    ThroughStep(b, r, j);
    hide Bookings, Through;
    BookingsStep(b, r, j);
  }

  lemma DenyOk(b: Board, j: int)
    requires Ok(b) && Can(b, Test(j)) && !Room(b.ks[j].flight, b.left1, b.left2)
    ensures Ok(Do(b, Test(j)))
  {
    DenyTickets(b, j);
    DenyBookings(b, j);
    hide Can, Do, QueueOk, ServiceOk, TicketsOk, Bookings;
  }

  lemma DenyTickets(b: Board, j: int)
    requires Ok(b) && Can(b, Test(j)) && !Room(b.ks[j].flight, b.left1, b.left2)
    ensures var r := Do(b, Test(j)); QueueOk(r) && ServiceOk(r) && TicketsOk(r)
  {
    var r := Do(b, Test(j));
    hide Bookings;
    OnwardQueue(b, r, j);
    assert Tickets(r.ks, r.left1, r.left2);
    hide QueueOk, ServiceOk, Tickets;
  }

  lemma DenyBookings(b: Board, j: int)
    requires Ok(b) && Can(b, Test(j)) && !Room(b.ks[j].flight, b.left1, b.left2)
    ensures Bookings(Do(b, Test(j)))
  {
    var r := Do(b, Test(j));
    NotThrough(b, j, 10);
    NotThrough(b, j, 11);
    ClerkKnows(b, j);
    hide QueueOk, ServiceOk, TicketsOk;
    ThroughStep(b, r, j);
    DecidedStep(b, r);
    assert Through(r.ks, r.finished, b.ks[j].id, 11) by { assert r.ks[j].stage >= 11; }
    hide Through, Distinct, Decided;
    assert Decided(r, b.ks[j].id) by { DeniedIsDecided(r, b.ks[j].id); }
  }

  lemma DeniedIsDecided(b: Board, x: int)
    requires 0 <= x < |b.flight| && x in b.denied
    ensures Decided(b, x)
  {
  }

  /** A booking leaves the queue and the service alone and takes one ticket. */
  lemma BookTickets(b: Board, act: Act)
    requires Ok(b) && Can(b, act) && (act.Book1? || act.Book2?)
    ensures QueueOk(Do(b, act)) && ServiceOk(Do(b, act)) && TicketsOk(Do(b, act))
  {
    var r := Do(b, act);
    hide Bookings;
    OnwardQueue(b, r, act.j);
    assert Tickets(r.ks, r.left1, r.left2);
    hide QueueOk, ServiceOk, Tickets;
  }

  lemma Book1Listed(b: Board, j: int)
    requires Ok(b) && Can(b, Book1(j))
    ensures Booked1Ok(Do(b, Book1(j))) && Booked2Ok(Do(b, Book1(j)))
  {
    var r, x := Do(b, Book1(j)), b.ks[j].id;
    NotThrough(b, j, 10);
    ClerkKnows(b, j);
    assert Needs1(b.ks[j].flight);
    hide QueueOk, ServiceOk, TicketsOk;
    ThroughStep(b, r, j);
    DistinctAppend(b.booked1, x);
    assert Through(r.ks, r.finished, x, 10) by { assert r.ks[j].stage >= 10; }
    hide Through, Distinct, Decided, DeniedOk, DecidedOk;
  }

  lemma Book1Decides(b: Board, j: int)
    requires Ok(b) && Can(b, Book1(j))
    ensures DeniedOk(Do(b, Book1(j))) && DecidedOk(Do(b, Book1(j)))
  {
    var r, x := Do(b, Book1(j)), b.ks[j].id;
    NotThrough(b, j, 11);
    ClerkKnows(b, j);
    hide QueueOk, ServiceOk, TicketsOk;
    ThroughStep(b, r, j);
    DecidedStep(b, r);
    assert !Needs2(b.ks[j].flight) ==> Decided(r, x);
    hide Through, Booked1Ok, Booked2Ok, Decided;
  }

  lemma Book1Ok(b: Board, j: int)
    requires Ok(b) && Can(b, Book1(j))
    ensures Ok(Do(b, Book1(j)))
  {
    hide QueueOk, ServiceOk, TicketsOk, Booked1Ok, Booked2Ok, DeniedOk, DecidedOk, Can, Do;
    BookTickets(b, Book1(j));
    Book1Listed(b, j);
    Book1Decides(b, j);
  }

  lemma Book2Listed(b: Board, j: int)
    requires Ok(b) && Can(b, Book2(j))
    ensures Booked1Ok(Do(b, Book2(j))) && Booked2Ok(Do(b, Book2(j)))
  {
    var r, x := Do(b, Book2(j)), b.ks[j].id;
    NotThrough(b, j, 11);
    ClerkKnows(b, j);
    assert Needs2(b.ks[j].flight);
    hide QueueOk, ServiceOk, TicketsOk;
    ThroughStep(b, r, j);
    DistinctAppend(b.booked2, x);
    assert Through(r.ks, r.finished, x, 11) by { assert r.ks[j].stage >= 11; }
    hide Through, Distinct, Decided, DeniedOk, DecidedOk;
  }

  lemma Book2Decides(b: Board, j: int)
    requires Ok(b) && Can(b, Book2(j))
    ensures DeniedOk(Do(b, Book2(j))) && DecidedOk(Do(b, Book2(j)))
  {
    var r, x := Do(b, Book2(j)), b.ks[j].id;
    NotThrough(b, j, 11);
    ClerkKnows(b, j);
    hide QueueOk, ServiceOk, TicketsOk;
    ThroughStep(b, r, j);
    DecidedStep(b, r);
    assert Decided(r, x);
    hide Through, Booked1Ok, Booked2Ok, Decided;
  }

  lemma Book2Ok(b: Board, j: int)
    requires Ok(b) && Can(b, Book2(j))
    ensures Ok(Do(b, Book2(j)))
  {
    hide QueueOk, ServiceOk, TicketsOk, Booked1Ok, Booked2Ok, DeniedOk, DecidedOk, Can, Do;
    BookTickets(b, Book2(j));
    Book2Listed(b, j);
    Book2Decides(b, j);
  }

  /** Every move of the board keeps its invariant. */
  lemma MoveOk(b: Board, act: Act)
    requires Ok(b) && Can(b, act)
    ensures Ok(Do(b, act))
  {
    assert act.Test? ==> 0 <= act.j < |b.ks|;
    hide Ok, Can, Do;
    match act {
      case Read(_) | Write(_) | Store(_) | Advance(_) => CustMoveOk(b, act);
      case Test(j) =>
        if Room(b.ks[j].flight, b.left1, b.left2) { AcceptOk(b, j); } else { DenyOk(b, j); }
      case Book1(j) => Book1Ok(b, j);
      case Book2(j) => Book2Ok(b, j);
      case Load(_) | Dequeue(_) | Switch(_) | Finish(_) | Release(_) => ServeMoveOk(b, act);
    }
  }
}
