/** The sleep lock as a step machine: guard spin lock, queue lock, channel, and any number of processes. */
module SleepLock {

  type Pid = p: nat | p > 0 witness 1

  /** Where a process is; each value names the step it takes next. */
  datatype Pc =
    | Out                       // outside, not holding the lock
    | AcqGuard                  // acquire_sleeplock: acquire_spinlock(&lk->lk)
    | TestLocked                // while (lk->locked)
    | DropGuard                 // sleep: release_spinlock(lk)
    | TakeQueueLock             // sleep: acquire_spinlock(&qlock), with no lock held
    | Enqueue                   // sleep: block, join the channel, sched()
    | Asleep                    // in the channel
    | Woken                     // ready again, to be resumed with the queue lock
    | DropQueueLock             // sleep: release_spinlock(&qlock)
    | RetakeGuard               // sleep: acquire_spinlock(lk)
    | SetLocked                 // lk->locked = 1
    | SetPid                    // lk->pid = own id
    | AcqDone                   // release_spinlock(&lk->lk)
    | In                        // holding the lock
    | RelGuard                  // release_sleeplock: acquire_spinlock(&lk->lk)
    | RelQueueLock              // wakeup_all: acquire_spinlock(&qlock)
    | Drain                     // wakeup_all: empty the channel, release_spinlock(&qlock)
    | ClearLocked               // lk->locked = 0
    | ClearPid                  // lk->pid = 0
    | RelDone                   // release_spinlock(&lk->lk)
    | CheckGuard(inside: bool)  // holding_sleeplock: acquire_spinlock(&lk->lk)
    | Check(inside: bool)       // r = locked && pid == own id; release_spinlock(&lk->lk)

  datatype Owner = Nobody | By(pid: Pid)

  datatype State = State(pc: map<Pid, Pc>, guard: Owner, qlock: Owner, chan: seq<Pid>, locked: bool, pid: nat)

  /** What a process outside the lock code decides to do; inside it just continues. */
  datatype Move = Continue | Acquire | Release | AskHolding

  ghost predicate Enabled(s: State, p: Pid, move: Move) {
    && p in s.pc
    && match s.pc[p]
       case Out => move.Acquire? || move.AskHolding?
       case In => move.Release? || move.AskHolding?
       case AcqGuard => move.Continue? && s.guard.Nobody?
       case RetakeGuard => move.Continue? && s.guard.Nobody?
       case RelGuard => move.Continue? && s.guard.Nobody?
       case CheckGuard(_) => move.Continue? && s.guard.Nobody?
       case TakeQueueLock => move.Continue? && s.qlock.Nobody?
       case RelQueueLock => move.Continue? && s.qlock.Nobody?
       case Woken => move.Continue? && s.qlock.Nobody?
       case Asleep => false
       case _ => move.Continue?
  }

  function Goto(s: State, p: Pid, pc: Pc): State {
    s.(pc := s.pc[p := pc])
  }

  /** wakeup_all moves everybody in the channel to the ready queues. */
  function WakeAll(pc: map<Pid, Pc>, chan: seq<Pid>): map<Pid, Pc> {
    map q | q in pc :: if q in chan then Woken else pc[q]
  }

  ghost function Step(s: State, p: Pid, move: Move): State
    requires Enabled(s, p, move)
  {
    match s.pc[p]
    case Out => Goto(s, p, if move.Acquire? then AcqGuard else CheckGuard(false))
    case AcqGuard => Goto(s, p, TestLocked).(guard := By(p))
    case TestLocked => Goto(s, p, if s.locked then DropGuard else SetLocked)
    case DropGuard => Goto(s, p, TakeQueueLock).(guard := Nobody)
    case TakeQueueLock => Goto(s, p, Enqueue).(qlock := By(p))
    case Enqueue => Goto(s, p, Asleep).(chan := [p] + s.chan, qlock := Nobody)
    case Woken => Goto(s, p, DropQueueLock).(qlock := By(p))
    case DropQueueLock => Goto(s, p, RetakeGuard).(qlock := Nobody)
    case RetakeGuard => Goto(s, p, TestLocked).(guard := By(p))
    case SetLocked => Goto(s, p, SetPid).(locked := true)
    case SetPid => Goto(s, p, AcqDone).(pid := p)
    case AcqDone => Goto(s, p, In).(guard := Nobody)
    case In => Goto(s, p, if move.Release? then RelGuard else CheckGuard(true))
    case RelGuard => Goto(s, p, RelQueueLock).(guard := By(p))
    case RelQueueLock => Goto(s, p, Drain).(qlock := By(p))
    case Drain => State(WakeAll(s.pc, s.chan)[p := ClearLocked], s.guard, Nobody, [], s.locked, s.pid)
    case ClearLocked => Goto(s, p, ClearPid).(locked := false)
    case ClearPid => Goto(s, p, RelDone).(pid := 0)
    case RelDone => Goto(s, p, Out).(guard := Nobody)
    case CheckGuard(inside) => Goto(s, p, Check(inside)).(guard := By(p))
    case Check(inside) => Goto(s, p, if inside then In else Out).(guard := Nobody)
  }

  // ----- the invariant -----

  predicate HasGuard(pc: Pc) {
    pc.TestLocked? || pc.DropGuard? || pc.SetLocked? || pc.SetPid? || pc.AcqDone? || pc.RelQueueLock? || pc.Drain?
    || pc.ClearLocked? || pc.ClearPid? || pc.RelDone? || pc.Check?
  }

  predicate HasQueueLock(pc: Pc) {
    pc.Enqueue? || pc.DropQueueLock? || pc.Drain?
  }

  /** From setting `locked` to clearing it. */
  predicate Holds(pc: Pc) {
    pc.SetPid? || pc.AcqDone? || pc.In? || pc.RelGuard? || pc.RelQueueLock? || pc.Drain? || pc.ClearLocked?
    || pc == CheckGuard(true) || pc == Check(true)
  }

  /** The process that set `locked` last, as far as anybody did. */
  ghost predicate Holder(s: State, p: Pid) {
    p in s.pc && Holds(s.pc[p])
  }

  /** A spin lock is held by exactly the process whose step says so. */
  ghost predicate HeldBy(pc: map<Pid, Pc>, has: Pc -> bool, owner: Owner) {
    (forall q | q in pc :: has(pc[q]) <==> owner == By(q)) && (owner.By? ==> owner.pid in pc)
  }

  /** Both spin locks are held by exactly the processes whose step says so; the channel holds exactly the sleepers. */
  ghost predicate LocksInv(s: State) {
    && HeldBy(s.pc, HasGuard, s.guard) && HeldBy(s.pc, HasQueueLock, s.qlock)
    && (forall p | p in s.pc :: s.pc[p].Asleep? <==> p in s.chan)
    && (forall p | p in s.chan :: p in s.pc)
  }

  ghost predicate ClearingPid(s: State) {
    exists p :: p in s.pc && s.pc[p].ClearPid?
  }

  ghost predicate OneHolder(s: State) {
    && (forall p, q | Holder(s, p) && Holder(s, q) :: p == q)
    && (s.locked <==> exists p :: Holder(s, p))
  }

  /** At most one holder; `locked` says whether there is one and `pid` who it is, but for an update in progress. */
  ghost predicate HolderInv(s: State) {
    && OneHolder(s)
    && (forall p | p in s.pc && (s.pc[p].SetLocked? || s.pc[p].ClearPid?) :: !s.locked)
    && (forall p | Holder(s, p) :: s.pc[p].SetPid? || s.pid == p)
    && (!s.locked ==> s.pid == 0 || ClearingPid(s))
  }

  ghost predicate Inv(s: State) {
    LocksInv(s) && HolderInv(s)
  }

  ghost predicate Initial(s: State) {
    s.guard.Nobody? && s.qlock.Nobody? && s.chan == [] && !s.locked && s.pid == 0
    && forall p | p in s.pc :: s.pc[p].Out?
  }

  lemma InvInit(s: State)
    requires Initial(s)
    ensures Inv(s)
  {
  }

  /** A step of `p` changes nothing of what another process holds or is about to write. */
  lemma Others(s: State, p: Pid, move: Move)
    requires LocksInv(s) && Enabled(s, p, move)
    ensures var r := Step(s, p, move);
            && p in r.pc && r.pc.Keys == s.pc.Keys
            && forall q | q in s.pc && q != p ::
                 r.pc[q] == s.pc[q] || (s.pc[q].Asleep? && r.pc[q].Woken? && s.pc[p].Drain?)
  {
  }

  /** A step of `p` takes and drops a spin lock as its own place says, and takes only a free one. */
  ghost predicate OwnLock(before: Owner, after: Owner, had: bool, has: bool, p: Pid) {
    && after == (if has && !had then By(p) else if had && !has then Nobody else before)
    && (has && !had ==> before.Nobody?)
  }

  lemma OwnGuard(s: State, p: Pid, move: Move)
    requires Enabled(s, p, move)
    ensures var r := Step(s, p, move);
            p in r.pc && OwnLock(s.guard, r.guard, HasGuard(s.pc[p]), HasGuard(r.pc[p]), p)
  {
  }

  lemma OwnQueueLock(s: State, p: Pid, move: Move)
    requires Enabled(s, p, move)
    ensures var r := Step(s, p, move);
            p in r.pc && OwnLock(s.qlock, r.qlock, HasQueueLock(s.pc[p]), HasQueueLock(r.pc[p]), p)
  {
  }

  /** What it does to the channel. */
  lemma OwnChannel(s: State, p: Pid, move: Move)
    requires Enabled(s, p, move)
    ensures var r := Step(s, p, move);
            && p in r.pc
            && r.chan == (if s.pc[p].Enqueue? then [p] + s.chan else if s.pc[p].Drain? then [] else s.chan)
            && (r.pc[p].Asleep? <==> s.pc[p].Enqueue?) && !s.pc[p].Asleep?
            && (s.pc[p].Drain? ==> forall q | q in s.pc && q != p && q in s.chan :: r.pc[q].Woken?)
  {
  }

  lemma HeldStep(pc: map<Pid, Pc>, r: map<Pid, Pc>, has: Pc -> bool, before: Owner, after: Owner, p: Pid)
    requires HeldBy(pc, has, before) && p in pc && r.Keys == pc.Keys
    requires forall q | q in pc && q != p :: has(r[q]) == has(pc[q])
    requires OwnLock(before, after, has(pc[p]), has(r[p]), p)
    ensures HeldBy(r, has, after)
  {
  }

  lemma LocksStep(s: State, p: Pid, move: Move)
    requires LocksInv(s) && Enabled(s, p, move)
    ensures LocksInv(Step(s, p, move))
  {
    var r := Step(s, p, move);
    OwnGuard(s, p, move);
    OwnQueueLock(s, p, move);
    OwnChannel(s, p, move);
    Others(s, p, move);
    ChannelStep(s, r, p);
    assert forall q | q in s.pc && q != p ::
        HasGuard(r.pc[q]) == HasGuard(s.pc[q]) && HasQueueLock(r.pc[q]) == HasQueueLock(s.pc[q]);
    hide Step, Enabled, HasGuard, HasQueueLock;
    HeldStep(s.pc, r.pc, HasGuard, s.guard, r.guard, p);
    HeldStep(s.pc, r.pc, HasQueueLock, s.qlock, r.qlock, p);
  }

  /** The channel after a step of `p`. */
  lemma ChannelStep(s: State, r: State, p: Pid)
    requires LocksInv(s) && p in s.pc && !s.pc[p].Asleep? && p in r.pc && r.pc.Keys == s.pc.Keys
    requires r.chan == (if s.pc[p].Enqueue? then [p] + s.chan else if s.pc[p].Drain? then [] else s.chan)
    requires r.pc[p].Asleep? <==> s.pc[p].Enqueue?
    requires s.pc[p].Drain? ==> forall q | q in s.pc && q != p && q in s.chan :: r.pc[q].Woken?
    requires forall q | q in s.pc && q != p ::
             r.pc[q] == s.pc[q] || (s.pc[q].Asleep? && r.pc[q].Woken? && s.pc[p].Drain?)
    ensures forall q | q in r.pc :: r.pc[q].Asleep? <==> q in r.chan
    ensures forall q | q in r.chan :: q in r.pc
  {
    hide HasGuard, HasQueueLock;
  }

  /** What a step of `p` does to the sleep lock's fields. */
  lemma OwnEffect(s: State, p: Pid, move: Move)
    requires Enabled(s, p, move)
    ensures var r := Step(s, p, move);
            && p in r.pc
            && r.locked == (if s.pc[p].SetLocked? then true else if s.pc[p].ClearLocked? then false else s.locked)
            && r.pid == (if s.pc[p].SetPid? then p else if s.pc[p].ClearPid? then 0 else s.pid)
            && (Holds(r.pc[p])
                <==> if s.pc[p].SetLocked? then true else if s.pc[p].ClearLocked? then false else Holds(s.pc[p]))
            && (r.pc[p].SetLocked? ==> !s.locked && !s.pc[p].ClearPid?) && (r.pc[p].ClearPid? <==> s.pc[p].ClearLocked?)
            && (r.pc[p].SetPid? <==> s.pc[p].SetLocked?)
  {
  }

  /** Apart from `p` itself the holders are the same. */
  lemma OtherHolders(s: State, p: Pid, move: Move)
    requires LocksInv(s) && Enabled(s, p, move)
    ensures var r := Step(s, p, move);
            && r.pc.Keys == s.pc.Keys && (forall q | q != p :: Holder(r, q) <==> Holder(s, q))
            && (forall q | q in s.pc && q != p :: r.pc[q] == s.pc[q] || (s.pc[q].Asleep? && r.pc[q].Woken?))
            && (forall q | Holder(s, q) && q != p :: r.pc[q] == s.pc[q])
  {
    Others(s, p, move);
    hide Step, Enabled, LocksInv;
  }

  lemma OneHolderStep(s: State, p: Pid, move: Move)
    requires Inv(s) && Enabled(s, p, move)
    ensures OneHolder(Step(s, p, move))
  {
    var r := Step(s, p, move);
    OtherHolders(s, p, move);
    OwnEffect(s, p, move);
    hide Step, Enabled, Holds, LocksInv;
    if s.pc[p].SetLocked? {
      assert Holder(r, p) && forall q :: !Holder(s, q);
    } else if s.pc[p].ClearLocked? {
      assert Holder(s, p) && !Holder(r, p);
    } else {
      assert Holder(r, p) <==> Holder(s, p);
    }
  }

  /** While `p` is about to set `locked`, or to clear the fields, nobody else is. */
  lemma GuardAlone(s: State, p: Pid)
    requires LocksInv(s) && p in s.pc
    ensures HasGuard(s.pc[p]) ==> forall q | q in s.pc && q != p :: !HasGuard(s.pc[q])
  {
  }

  lemma HolderStep(s: State, p: Pid, move: Move)
    requires Inv(s) && Enabled(s, p, move)
    ensures HolderInv(Step(s, p, move))
  {
    var r := Step(s, p, move);
    OneHolderStep(s, p, move);
    GuardAlone(s, p);
    OtherHolders(s, p, move);
    OwnEffect(s, p, move);
    assert s.pc[p].SetPid? ==> Holder(s, p);
    assert (s.locked <==> exists q :: Holder(s, q)) && (r.locked <==> exists q :: Holder(r, q));
    hide Step, Enabled, Holds, LocksInv;
    if s.pc[p].ClearLocked? {
      assert ClearingPid(r) by { assert r.pc[p].ClearPid?; }
    } else if !s.pc[p].SetLocked? {
      assert r.locked == s.locked;
      if s.pc[p].ClearPid? {
        assert !s.locked;
      } else if ClearingPid(s) {
        var q :| q in s.pc && s.pc[q].ClearPid?;
        assert r.pc[q].ClearPid?;
      }
    }
  }

  lemma InvStep(s: State, p: Pid, move: Move)
    requires Inv(s) && Enabled(s, p, move)
    ensures Inv(Step(s, p, move))
  {
    LocksStep(s, p, move);
    HolderStep(s, p, move);
  }

  // ----- runs -----

  ghost predicate Run(s: State, moves: seq<(Pid, Move)>)
    decreases |moves|
  {
    moves == [] || (Enabled(s, moves[0].0, moves[0].1) && Run(Step(s, moves[0].0, moves[0].1), moves[1..]))
  }

  ghost function After(s: State, moves: seq<(Pid, Move)>): State
    requires Run(s, moves)
    decreases |moves|
  {
    if moves == [] then s else After(Step(s, moves[0].0, moves[0].1), moves[1..])
  }

  lemma {:induction false} InvRun(s: State, moves: seq<(Pid, Move)>)
    requires Inv(s) && Run(s, moves)
    ensures Inv(After(s, moves))
    decreases |moves|
  {
    if moves != [] {
      InvStep(s, moves[0].0, moves[0].1);
      hide Enabled, Step, Inv;
      InvRun(Step(s, moves[0].0, moves[0].1), moves[1..]);
    }
  }

  /**
   * Mutual exclusion in every run of any number of processes: at most one process holds the sleep lock, and
   * whenever the guard is free `locked` and `pid` say exactly whether there is a holder and which one.
   */
  lemma MutualExclusion(s0: State, moves: seq<(Pid, Move)>, p: Pid, q: Pid)
    requires Initial(s0) && Run(s0, moves)
    ensures var s := After(s0, moves);
            && (p in s.pc && q in s.pc && s.pc[p].In? && s.pc[q].In? ==> p == q)
            && (s.guard.Nobody? && p in s.pc ==> (Holds(s.pc[p]) <==> s.locked && s.pid == p))
            && (s.guard.Nobody? && !s.locked ==> s.pid == 0)
  {
    InvInit(s0);
    InvRun(s0, moves);
    var s := After(s0, moves);
    hide Run, After;
    if s.guard.Nobody? && p in s.pc && s.locked {
      var h :| Holder(s, h);
      assert Holder(s, p) ==> p == h;
    }
    assert Holder(s, p) <==> p in s.pc && Holds(s.pc[p]);
    assert Holder(s, q) <==> q in s.pc && Holds(s.pc[q]);
  }

  /** holding_sleeplock answers truthfully, at the moment it reads the fields under the guard. */
  lemma HoldingIsTruthful(s0: State, moves: seq<(Pid, Move)>, p: Pid)
    requires Initial(s0) && Run(s0, moves)
    ensures var s := After(s0, moves);
            p in s.pc && s.pc[p].Check? ==> (s.locked && s.pid == p <==> s.pc[p].inside)
  {
    InvInit(s0);
    InvRun(s0, moves);
    var s := After(s0, moves);
    hide Run, After;
    if p in s.pc && s.pc[p].Check? {
      if s.locked {
        var h :| Holder(s, h);
        assert s.pc[h].SetPid? ==> h == p;
        assert Holder(s, p) <==> s.pc[p].inside;
      } else {
        assert !Holder(s, p);
      }
    }
  }

  // ----- kept and lost wake-ups -----

  /** Found the lock taken and not woken since: on the way to sleep, or asleep. */
  predicate Committed(pc: Pc) {
    pc.DropGuard? || pc.TakeQueueLock? || pc.Enqueue? || pc.Asleep?
  }

  /** Holds the lock and has yet to empty the channel. */
  predicate Undrained(pc: Pc) {
    Holds(pc) && !pc.ClearLocked?
  }

  ghost predicate SomeUndrained(s: State) {
    exists h :: h in s.pc && Undrained(s.pc[h])
  }

  /** Whoever goes to sleep has somebody who will wake it. */
  ghost predicate Watched(s: State) {
    (exists q :: q in s.pc && Committed(s.pc[q])) ==> SomeUndrained(s)
  }

  /** Somebody stands between dropping the guard and taking the queue lock. */
  ghost predicate SomeoneLate(s: State) {
    exists q :: q in s.pc && s.pc[q].TakeQueueLock?
  }

  /** The lock is free and nobody is doing anything about it, yet `p` sleeps on the channel. */
  ghost predicate Stranded(s: State, p: Pid) {
    && p in s.pc && s.pc[p].Asleep? && !s.locked && s.guard.Nobody? && s.qlock.Nobody?
    && forall q | q in s.pc && q != p :: s.pc[q].Out? || s.pc[q].Asleep?
  }

  lemma WatchedNotStranded(s: State, q: Pid)
    requires Watched(s)
    ensures !Stranded(s, q)
  {
    if Stranded(s, q) {
      assert Committed(s.pc[q]);
    }
  }

  /** What a step of `p` does to its own commitment. */
  lemma OwnCommitment(s: State, p: Pid, move: Move)
    requires Enabled(s, p, move)
    ensures var r := Step(s, p, move);
            && p in r.pc
            && (Committed(r.pc[p]) ==> Committed(s.pc[p]) || (s.pc[p].TestLocked? && s.locked))
            && (Undrained(s.pc[p]) && !s.pc[p].Drain? ==> Undrained(r.pc[p]))
            && (s.pc[p].Drain? ==> r.pc[p].ClearLocked?)
  {
  }

  /** While `p` empties the channel nobody else holds a spin lock, so only the late are still to come. */
  lemma DrainAlone(s: State, p: Pid, q: Pid)
    requires LocksInv(s) && p in s.pc && s.pc[p].Drain? && q in s.pc && q != p && Committed(s.pc[q])
    ensures s.pc[q].TakeQueueLock? || s.pc[q].Asleep?
  {
    assert s.guard == By(p) && s.qlock == By(p);
    assert !HasGuard(s.pc[q]) && !HasQueueLock(s.pc[q]);
  }

  /** The channel is emptied without leaving anybody behind exactly if nobody is late. */
  lemma DrainKeepsIff(s: State, p: Pid)
    requires Inv(s) && p in s.pc && s.pc[p].Drain?
    ensures Enabled(s, p, Continue) && (Watched(Step(s, p, Continue)) <==> !SomeoneLate(s))
  {
    var r := Step(s, p, Continue);
    Others(s, p, Continue);
    OwnCommitment(s, p, Continue);
    hide Step, Enabled;
    assert Holder(s, p);
    forall h | h in r.pc ensures !Undrained(r.pc[h]) {
      assert h == p || !Holder(s, h);
    }
    if SomeoneLate(s) {
      var q :| q in s.pc && s.pc[q].TakeQueueLock?;
      assert q in r.pc && Committed(r.pc[q]);
    } else {
      forall q | q in r.pc && Committed(r.pc[q]) ensures false {
        assert q != p && r.pc[q] == s.pc[q];
        DrainAlone(s, p, q);
      }
    }
  }

  /** Every other step keeps a waker for the committed. */
  lemma WatchedStep(s: State, p: Pid, move: Move)
    requires Inv(s) && Watched(s) && Enabled(s, p, move) && (s.pc[p].Drain? ==> !SomeoneLate(s))
    ensures Watched(Step(s, p, move))
  {
    if s.pc[p].Drain? {
      DrainKeepsIff(s, p);
    } else {
      var r := Step(s, p, move);
      Others(s, p, move);
      OwnCommitment(s, p, move);
      hide Step, Enabled;
      if q :| q in r.pc && Committed(r.pc[q]) {
        if !Committed(s.pc[q]) {
          assert q == p && s.pc[p].TestLocked?;
          var h :| Holder(s, h);
          assert s.guard == By(p) && !HasGuard(s.pc[h]);
          assert Undrained(s.pc[h]);
        }
        var h :| h in s.pc && Undrained(s.pc[h]);
        assert h in r.pc && Undrained(r.pc[h]);
      }
    }
  }

  /** No channel was emptied in the run while somebody was late for it. */
  ghost predicate Punctual(s: State, moves: seq<(Pid, Move)>)
    requires Run(s, moves)
    decreases |moves|
  {
    moves == [] || ((s.pc[moves[0].0].Drain? ==> !SomeoneLate(s))
      && Punctual(Step(s, moves[0].0, moves[0].1), moves[1..]))
  }

  lemma {:induction false} PunctualRun(s: State, moves: seq<(Pid, Move)>)
    requires Inv(s) && Watched(s) && Run(s, moves) && Punctual(s, moves)
    ensures Watched(After(s, moves))
    decreases |moves|
  {
    if moves != [] {
      InvStep(s, moves[0].0, moves[0].1);
      WatchedStep(s, moves[0].0, moves[0].1);
      hide Enabled, Step, Inv, Watched;
      PunctualRun(Step(s, moves[0].0, moves[0].1), moves[1..]);
    }
  }

  /** A run in which nobody is late for an emptying of the channel never leaves anybody asleep on a free lock. */
  lemma WakeupsKept(s0: State, moves: seq<(Pid, Move)>, q: Pid)
    requires Initial(s0) && Run(s0, moves) && Punctual(s0, moves)
    ensures Watched(After(s0, moves)) && !Stranded(After(s0, moves), q)
  {
    InvInit(s0);
    PunctualRun(s0, moves);
    WatchedNotStranded(After(s0, moves), q);
  }

  lemma {:induction false} RunConcat(s: State, a: seq<(Pid, Move)>, b: seq<(Pid, Move)>)
    requires Run(s, a) && Run(After(s, a), b)
    ensures Run(s, a + b) && After(s, a + b) == After(After(s, a), b)
    decreases |a|
  {
    hide Enabled, Step;
    if a == [] {
      assert a + b == b;
    } else {
      RunConcat(Step(s, a[0].0, a[0].1), a[1..], b);
      assert (a + b)[1..] == a[1..] + b;
    }
  }

  /** Only `p` moves. */
  ghost predicate ByOne(moves: seq<(Pid, Move)>, p: Pid) {
    forall i | 0 <= i < |moves| :: moves[i].0 == p
  }

  /** One step as a run. */
  lemma OneMove(s: State, p: Pid, move: Move)
    requires Enabled(s, p, move)
    ensures Run(s, [(p, move)]) && After(s, [(p, move)]) == Step(s, p, move)
  {
    assert [(p, move)][1..] == [];
    assert Run(Step(s, p, move), []);
  }

  /** `p` takes one decision and then continues until it has made `n` steps. */
  lemma {:induction false} Solo(s: State, p: Pid, move: Move, path: seq<State>) returns (moves: seq<(Pid, Move)>)
    requires path != [] && path[0] == s && |path| > 1
    requires Enabled(s, p, move) && path[1] == Step(s, p, move)
    requires forall i | 1 <= i < |path| - 1 ::
             Enabled(path[i], p, Continue) && path[i + 1] == Step(path[i], p, Continue)
    ensures Run(s, moves) && After(s, moves) == path[|path| - 1]
    ensures ByOne(moves, p)
    decreases |path|
  {
    hide Enabled, Step;
    OneMove(s, p, move);
    moves := [(p, move)];
    if |path| > 2 {
      var rest := Solo(path[1], p, Continue, path[1..]);
      RunConcat(s, moves, rest);
      moves := moves + rest;
    }
  }

  /** `p` takes the free lock. */
  lemma TakesLock(s: State, p: Pid) returns (moves: seq<(Pid, Move)>)
    requires p in s.pc && s.pc[p].Out? && s.guard.Nobody? && !s.locked
    ensures Run(s, moves) && After(s, moves) == Goto(s, p, In).(locked := true, pid := p)
    ensures ByOne(moves, p)
  {
    var s1 := Step(s, p, Acquire);
    var s2 := Step(s1, p, Continue);
    var s3 := Step(s2, p, Continue);
    var s4 := Step(s3, p, Continue);
    var s5 := Step(s4, p, Continue);
    var s6 := Step(s5, p, Continue);
    moves := Solo(s, p, Acquire, [s, s1, s2, s3, s4, s5, s6]);
  }

  /** `p` finds the lock taken and releases the guard; it has not queued itself yet. */
  lemma FindsTaken(s: State, p: Pid) returns (moves: seq<(Pid, Move)>)
    requires p in s.pc && s.pc[p].Out? && s.guard.Nobody? && s.locked
    ensures Run(s, moves) && After(s, moves) == Goto(s, p, TakeQueueLock)
    ensures ByOne(moves, p)
  {
    var s1 := Step(s, p, Acquire);
    var s2 := Step(s1, p, Continue);
    var s3 := Step(s2, p, Continue);
    var s4 := Step(s3, p, Continue);
    moves := Solo(s, p, Acquire, [s, s1, s2, s3, s4]);
  }

  lemma TwoSteps(s: State, p: Pid, move: Move, r: State) returns (moves: seq<(Pid, Move)>)
    requires Enabled(s, p, move) && Enabled(Step(s, p, move), p, Continue)
    requires r == Step(Step(s, p, move), p, Continue)
    ensures Run(s, moves) && After(s, moves) == r
    ensures ByOne(moves, p)
  {
    hide Enabled, Step;
    moves := [(p, move)] + [(p, Continue)];
    OneMove(s, p, move);
    OneMove(Step(s, p, move), p, Continue);
    RunConcat(s, [(p, move)], [(p, Continue)]);
  }

  /** The holder begins to release the lock. */
  lemma TakesGuard(s: State, p: Pid) returns (moves: seq<(Pid, Move)>)
    requires p in s.pc && s.pc[p].In? && s.guard.Nobody?
    ensures Run(s, moves) && After(s, moves) == Goto(s, p, RelQueueLock).(guard := By(p))
    ensures ByOne(moves, p)
  {
    moves := TwoSteps(s, p, Release, Goto(s, p, RelQueueLock).(guard := By(p)));
  }

  /** It wakes everybody in the channel while nobody is queued there. */
  lemma DrainsNobody(s: State, p: Pid) returns (moves: seq<(Pid, Move)>)
    requires p in s.pc && s.pc[p].RelQueueLock? && s.qlock.Nobody? && s.chan == []
    ensures Run(s, moves) && After(s, moves) == Goto(s, p, ClearLocked)
    ensures ByOne(moves, p)
  {
    assert WakeAll(s.pc[p := Drain], [])[p := ClearLocked] == s.pc[p := ClearLocked];
    moves := TwoSteps(s, p, Continue, Goto(s, p, ClearLocked));
  }

  /** It clears the fields and drops the guard. */
  lemma ClearsFields(s: State, p: Pid) returns (moves: seq<(Pid, Move)>)
    requires p in s.pc && s.pc[p].ClearLocked?
    ensures Run(s, moves) && After(s, moves) == Goto(s, p, Out).(guard := Nobody, locked := false, pid := 0)
    ensures ByOne(moves, p)
  {
    var s1 := Step(s, p, Continue);
    OneMove(s, p, Continue);
    var b := TwoSteps(s1, p, Continue, Goto(s, p, Out).(guard := Nobody, locked := false, pid := 0));
    hide Enabled, Step, Run, After;
    RunConcat(s, [(p, Continue)], b);
    moves := [(p, Continue)] + b;
  }

  /** The holder releases the lock while nobody is queued. */
  lemma ReleasesLock(s: State, p: Pid) returns (moves: seq<(Pid, Move)>)
    requires p in s.pc && s.pc[p].In? && s.guard.Nobody? && s.qlock.Nobody? && s.chan == []
    ensures Run(s, moves) && After(s, moves) == Goto(s, p, Out).(locked := false, pid := 0)
    ensures ByOne(moves, p)
  {
    hide Enabled, Step, Run, After;
    var a := TakesGuard(s, p);
    var b := DrainsNobody(After(s, a), p);
    RunConcat(s, a, b);
    var c := ClearsFields(After(s, a + b), p);
    RunConcat(s, a + b, c);
    moves := a + b + c;
  }

  /** The emptier of the channel releases the lock. */
  lemma EmptiesAndGoes(s: State, p: Pid) returns (moves: seq<(Pid, Move)>)
    requires p in s.pc && s.pc[p].Drain?
    ensures Run(s, moves)
    ensures After(s, moves) == State(WakeAll(s.pc, s.chan)[p := Out], Nobody, Nobody, [], false, 0)
    ensures ByOne(moves, p)
  {
    var s1 := Step(s, p, Continue);
    OneMove(s, p, Continue);
    assert s1 == State(WakeAll(s.pc, s.chan)[p := ClearLocked], s.guard, Nobody, [], s.locked, s.pid);
    hide Enabled, Step, Run, After, WakeAll;
    var b := ClearsFields(s1, p);
    RunConcat(s, [(p, Continue)], b);
    moves := [(p, Continue)] + b;
  }

  /** The late one falls asleep. */
  lemma FallsAsleep(s: State, q: Pid) returns (moves: seq<(Pid, Move)>)
    requires q in s.pc && s.pc[q].TakeQueueLock? && s.qlock.Nobody?
    ensures Run(s, moves) && After(s, moves) == Goto(s, q, Asleep).(chan := [q] + s.chan)
    ensures ByOne(moves, q)
  {
    var s1 := Step(s, q, Continue);
    var s2 := Step(s1, q, Continue);
    moves := Solo(s, q, Continue, [s, s1, s2]);
    hide Run, After, Enabled;
    assert s2.pc == s.pc[q := Asleep];
  }

  /** And whoever is late can be lost: the emptier goes on to the end and the late one falls asleep on the free lock. */
  lemma LateIsLost(s: State, p: Pid, q: Pid) returns (moves: seq<(Pid, Move)>)
    requires Inv(s) && p in s.pc && s.pc[p].Drain? && q in s.pc && s.pc[q].TakeQueueLock?
    ensures Run(s, moves)
    ensures var r := After(s, moves);
            && p in r.pc && r.pc[p].Out? && q in r.pc && r.pc[q].Asleep? && !r.locked && r.guard.Nobody?
               && r.qlock.Nobody?
            && forall x | x in s.pc && x != p && x != q ::
                 x in r.pc && r.pc[x] == if s.pc[x].Asleep? then Woken else s.pc[x]
  {
    hide Run, After, Enabled, Step;
    var a := EmptiesAndGoes(s, p);
    assert q !in s.chan;
    var b := FallsAsleep(After(s, a), q);
    RunConcat(s, a, b);
    moves := a + b;
  }

  /** sleep releases the guard before it takes the queue lock: a release in between wakes nobody. */
  lemma LostWakeup(s0: State, p: Pid, q: Pid)
    requires Initial(s0) && p in s0.pc && q in s0.pc && p != q
    ensures exists moves :: Run(s0, moves) && Stranded(After(s0, moves), q)
  {
    var a := TakesLock(s0, p);
    var s1 := Goto(s0, p, In).(locked := true, pid := p as nat);
    var b := FindsTaken(s1, q);
    RunConcat(s0, a, b);
    var s2 := Goto(s1, q, TakeQueueLock);
    var c := ReleasesLock(s2, p);
    RunConcat(s0, a + b, c);
    var s3 := Goto(s2, p, Out).(locked := false, pid := 0);
    var d := FallsAsleep(s3, q);
    RunConcat(s0, a + b + c, d);
    assert Stranded(Goto(s3, q, Asleep).(chan := [q] + s3.chan), q);
  }

  /** `p` sleeps on a free lock, and the others are outside, asleep or asking. */
  ghost predicate Unheard(s: State, p: Pid) {
    && p in s.pc && s.pc[p].Asleep? && !s.locked
    && forall q | q in s.pc && q != p :: s.pc[q] in {Out, Asleep, CheckGuard(false), Check(false)}
  }

  /** From a stranded state nothing but an acquire wakes the sleeper, however long the others go on asking. */
  lemma {:induction false} SleepsUntilAcquired(s: State, moves: seq<(Pid, Move)>, p: Pid)
    requires Unheard(s, p) && Run(s, moves) && forall i | 0 <= i < |moves| :: !moves[i].1.Acquire?
    ensures Unheard(After(s, moves), p)
    decreases |moves|
  {
    if moves != [] {
      var r := Step(s, moves[0].0, moves[0].1);
      assert Unheard(r, p);
      hide Enabled, Step, Unheard;
      SleepsUntilAcquired(r, moves[1..], p);
    }
  }

  /** And whoever acquires and releases the lock next wakes it. */
  lemma NextUserWakes(s: State, p: Pid, q: Pid) returns (moves: seq<(Pid, Move)>)
    requires Inv(s) && Stranded(s, p) && q in s.pc && s.pc[q].Out?
    ensures Unheard(s, p) && Run(s, moves) && ByOne(moves, q)
    ensures var r := After(s, moves);
            p in r.pc && r.pc[p].Woken? && !r.locked && r.guard.Nobody? && r.qlock.Nobody?
  {
    var a := TakesLock(s, q);
    var s1 := Goto(s, q, In).(locked := true, pid := q as nat);
    var b := TakesGuard(s1, q);
    var s2 := Goto(s1, q, RelQueueLock).(guard := By(q));
    OneMove(s2, q, Continue);
    var s3 := Step(s2, q, Continue);
    assert s3.pc[q].Drain? && s3.chan == s.chan && p in s3.chan;
    hide Run, After, Enabled, Step;
    RunConcat(s, a, b);
    RunConcat(s, a + b, [(q, Continue)]);
    var c := EmptiesAndGoes(s3, q);
    RunConcat(s, a + b + [(q, Continue)], c);
    moves := a + b + [(q, Continue)] + c;
  }

  // ----- what acquire and release come to -----

  /** The state after the first `k` moves of a run. */
  ghost function StateAt(s: State, moves: seq<(Pid, Move)>, k: nat): State
    requires Run(s, moves) && k <= |moves|
    decreases |moves|
  {
    if k == 0 then s else StateAt(Step(s, moves[0].0, moves[0].1), moves[1..], k - 1)
  }

  lemma {:induction false} InvAt(s: State, moves: seq<(Pid, Move)>, k: nat)
    requires Inv(s) && Run(s, moves) && k <= |moves|
    ensures Inv(StateAt(s, moves, k)) && StateAt(s, moves, k).pc.Keys == s.pc.Keys
    decreases |moves|
  {
    if k > 0 {
      InvStep(s, moves[0].0, moves[0].1);
      Others(s, moves[0].0, moves[0].1);
      hide Enabled, Step, Inv;
      InvAt(Step(s, moves[0].0, moves[0].1), moves[1..], k - 1);
    }
  }

  lemma {:induction false} NextAt(s: State, moves: seq<(Pid, Move)>, k: nat)
    requires Run(s, moves) && k < |moves|
    ensures var t := StateAt(s, moves, k);
            Enabled(t, moves[k].0, moves[k].1) && StateAt(s, moves, k + 1) == Step(t, moves[k].0, moves[k].1)
    decreases |moves|
  {
    hide Enabled, Step;
    if k > 0 {
      NextAt(Step(s, moves[0].0, moves[0].1), moves[1..], k - 1);
    }
  }

  /** Between calling acquire_sleeplock and holding the lock. */
  predicate Acquiring(pc: Pc) {
    !(pc.Out? || pc.In? || pc.RelGuard? || pc.RelQueueLock? || pc.Drain? || pc.ClearLocked? || pc.ClearPid?
      || pc.RelDone? || pc.CheckGuard? || pc.Check?)
  }

  /** Between calling release_sleeplock and having released the lock. */
  predicate Releasing(pc: Pc) {
    pc.RelGuard? || pc.RelQueueLock? || pc.Drain? || pc.ClearLocked? || pc.ClearPid? || pc.RelDone?
  }

  lemma OwnCourse(s: State, p: Pid, move: Move)
    requires Enabled(s, p, move)
    ensures var r := Step(s, p, move);
            && p in r.pc
            && (Acquiring(s.pc[p]) ==> Acquiring(r.pc[p]) || r.pc[p].In?)
            && (Releasing(s.pc[p]) ==> Releasing(r.pc[p]) || r.pc[p].Out?)
            && (move.Acquire? ==> s.pc[p].Out? && Acquiring(r.pc[p]))
            && (move.Release? ==> s.pc[p].In? && Releasing(r.pc[p]))
  {
  }

  /** Whoever is acquiring goes on acquiring until it is inside, and whoever is releasing until it is outside. */
  lemma StaysOn(s: State, p: Pid, move: Move, x: Pid)
    requires LocksInv(s) && Enabled(s, p, move) && x in s.pc
    ensures var r := Step(s, p, move);
            && x in r.pc
            && (Acquiring(s.pc[x]) ==> Acquiring(r.pc[x]) || r.pc[x].In?)
            && (Releasing(s.pc[x]) ==> Releasing(r.pc[x]) || r.pc[x].Out?)
            && (p == x && move.Acquire? ==> s.pc[x].Out? && Acquiring(r.pc[x]))
            && (p == x && move.Release? ==> s.pc[x].In? && Releasing(r.pc[x]))
  {
    Others(s, p, move);
    OwnCourse(s, p, move);
    hide Step, Enabled, LocksInv;
  }

  /** `p` is inside, and the fields of the lock say so. */
  ghost predicate Inside(s: State, p: Pid) {
    p in s.pc && s.pc[p].In? && s.locked && s.pid == p
  }

  lemma IsInside(s: State, p: Pid)
    requires Inv(s) && p in s.pc && s.pc[p].In?
    ensures Inside(s, p)
  {
    assert Holder(s, p);
  }

  lemma LocksOf(s: State)
    requires Inv(s)
    ensures LocksInv(s)
  {
  }

  lemma EnabledLive(s: State, p: Pid, move: Move)
    requires Enabled(s, p, move)
    ensures p in s.pc
  {
  }

  /** A process that called acquire_sleeplock has left it only after a moment at which it held the lock. */
  lemma {:induction false} AcquireHolds(s: State, moves: seq<(Pid, Move)>, i: nat, j: nat, p: Pid)
    requires Inv(s) && Run(s, moves) && i < j <= |moves| && moves[i] == (p, Acquire)
    ensures p in StateAt(s, moves, j).pc
    ensures Acquiring(StateAt(s, moves, j).pc[p])
            || exists k | i < k <= j :: Inside(StateAt(s, moves, k), p)
    decreases j
  {
    hide Run, StateAt, Inv, LocksInv, Enabled, Step, Acquiring, Releasing, Inside;
    InvAt(s, moves, j - 1);
    InvAt(s, moves, j);
    NextAt(s, moves, j - 1);
    var before, after := StateAt(s, moves, j - 1), StateAt(s, moves, j);
    LocksOf(before);
    EnabledLive(before, moves[j - 1].0, moves[j - 1].1);
    if j - 1 == i {
      StaysOn(before, p, Acquire, p);
    } else {
      AcquireHolds(s, moves, i, j - 1, p);
      if Acquiring(before.pc[p]) {
        StaysOn(before, moves[j - 1].0, moves[j - 1].1, p);
        if after.pc[p].In? {
          IsInside(after, p);
        }
      }
    }
  }

  /** In every run: between a call of acquire_sleeplock and the moment its caller is outside again it held the lock. */
  lemma OutOnlyAfterIn(s0: State, moves: seq<(Pid, Move)>, i: nat, j: nat, p: Pid)
    requires Initial(s0) && Run(s0, moves) && i < j <= |moves| && moves[i] == (p, Acquire)
    requires p in StateAt(s0, moves, j).pc && StateAt(s0, moves, j).pc[p].Out?
    ensures exists k | i < k < j ::
              var t := StateAt(s0, moves, k); p in t.pc && t.pc[p].In? && t.locked && t.pid == p
  {
    InvInit(s0);
    AcquireHolds(s0, moves, i, j, p);
    hide StateAt, Run, Inv;
    var k :| i < k <= j && Inside(StateAt(s0, moves, k), p);
    assert k < j;
  }

  /** It takes the guard again and looks at the lock again. */
  lemma WokenTests(s: State, p: Pid) returns (moves: seq<(Pid, Move)>)
    requires p in s.pc && s.pc[p].Woken? && s.guard.Nobody? && s.qlock.Nobody?
    ensures Run(s, moves) && ByOne(moves, p)
    ensures After(s, moves) == Goto(s, p, TestLocked).(guard := By(p))
  {
    var s1 := Step(s, p, Continue);
    var s2 := Step(s1, p, Continue);
    var s3 := Step(s2, p, Continue);
    moves := Solo(s, p, Continue, [s, s1, s2, s3]);
  }

  /** A woken process that finds the lock free takes it before it returns. */
  lemma WokenTakes(s: State, p: Pid) returns (moves: seq<(Pid, Move)>)
    requires p in s.pc && s.pc[p].Woken? && s.guard.Nobody? && s.qlock.Nobody? && !s.locked
    ensures Run(s, moves) && ByOne(moves, p)
    ensures After(s, moves) == Goto(s, p, In).(locked := true, pid := p)
  {
    var a := WokenTests(s, p);
    var s1 := Goto(s, p, TestLocked).(guard := By(p));
    var s2 := Step(s1, p, Continue);
    var s3 := Step(s2, p, Continue);
    var s4 := Step(s3, p, Continue);
    var s5 := Step(s4, p, Continue);
    var b := Solo(s1, p, Continue, [s1, s2, s3, s4, s5]);
    hide Enabled, Step, Run, After;
    RunConcat(s, a, b);
    moves := a + b;
  }

  /** So the lost process gets the lock after all, once somebody has acquired and released it. */
  lemma LostTakesAfterAll(s: State, p: Pid, q: Pid) returns (moves: seq<(Pid, Move)>)
    requires Inv(s) && Stranded(s, p) && q in s.pc && s.pc[q].Out?
    ensures Run(s, moves) && Inside(After(s, moves), p)
  {
    hide Run, After, Inv, Stranded, Unheard, ByOne;
    var a := NextUserWakes(s, p, q);
    var b := WokenTakes(After(s, a), p);
    RunConcat(s, a, b);
    moves := a + b;
  }

  /** And one that finds it taken goes back to sleep. */
  lemma WokenSleepsAgain(s: State, p: Pid) returns (moves: seq<(Pid, Move)>)
    requires p in s.pc && s.pc[p].Woken? && s.guard.Nobody? && s.qlock.Nobody? && s.locked
    ensures Run(s, moves) && ByOne(moves, p)
    ensures After(s, moves) == Goto(s, p, Asleep).(chan := [p] + s.chan)
  {
    var a := WokenTests(s, p);
    var s1 := Goto(s, p, TestLocked).(guard := By(p));
    var b := TwoSteps(s1, p, Continue, Goto(s, p, TakeQueueLock));
    var c := FallsAsleep(Goto(s, p, TakeQueueLock), p);
    hide Enabled, Step, Run, After;
    RunConcat(s, a, b);
    RunConcat(s, a + b, c);
    moves := a + b + c;
  }
}
