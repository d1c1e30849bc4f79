/** Who moves, and where to, in each scheduler request; everybody else keeps record, place and turn. */
module SchedMoves {
  import opened Counting
  import opened SchedState

  /** The members of `q` with priority `p`, in the order of `q`. */
  function OfPriority(q: seq<Id>, envs: map<Id, Env>, p: int): seq<Id>
    requires forall id | id in q :: id in envs
  {
    if q == [] then []
    else (if envs[q[0]].priority == p then [q[0]] else []) + OfPriority(q[1..], envs, p)
  }

  lemma {:induction false} OfPriorityLast(q: seq<Id>, envs: map<Id, Env>, p: int)
    requires q != [] && forall id | id in q :: id in envs
    ensures OfPriority(q, envs, p)
            == OfPriority(Init(q), envs, p) + if envs[Last(q)].priority == p then [Last(q)] else []
  {
    if |q| > 1 {
      OfPriorityLast(q[1..], envs, p);
      assert Init(q)[1..] == Init(q[1..]) && Last(q) == Last(q[1..]);
    }
  }

  lemma {:induction false} OfPrioritySame(q: seq<Id>, envs: map<Id, Env>, envs': map<Id, Env>, p: int)
    requires forall id | id in q :: id in envs && id in envs' && envs'[id].priority == envs[id].priority
    ensures OfPriority(q, envs', p) == OfPriority(q, envs, p)
  {
    if q != [] {
      OfPrioritySame(q[1..], envs, envs', p);
    }
  }

  lemma Live(s: State, id: Id, place: Place)
    requires Valid(s) && id in At(s, place)
    ensures id in s.envs && Names(s, id, place) && 0 <= s.envs[id].priority < |s.ready|
  {
    PlacedNames(s, {}, id, place);
  }

  /** All of `q` became ready at once: each queued up behind everybody of its priority, in the order of `q`. */
  ghost predicate Queued(s: State, r: State, q: seq<Id>) {
    && (forall id | id in q :: id in s.envs)
    && r.envs.Keys == s.envs.Keys
    && (forall id | id in s.envs ::
          r.envs[id] == if id in q then s.envs[id].(status := Ready, arrival := s.ticks) else s.envs[id])
    && |r.ready| == |s.ready|
    && (forall p | 0 <= p < |s.ready| :: r.ready[p] == OfPriority(q, s.envs, p) + s.ready[p])
    && r.exitQ == s.exitQ && r.cur == s.cur && r.ticks == s.ticks && r.thresh == s.thresh
  }

  lemma QueuedNone(s: State)
    ensures Queued(s, s, [])
  {
  }

  /** The last of `q` became ready. */
  ghost predicate OneQueued(s: State, s1: State, q: seq<Id>) {
    && q != [] && Distinct(q) && (forall id | id in q :: id in s.envs && 0 <= s.envs[id].priority < |s.ready|)
    && var id := Last(q);
       var e := s.envs[id];
       && s1.envs == s.envs[id := e.(status := Ready, arrival := s.ticks)]
       && s1.ready == s.ready[e.priority := [id] + s.ready[e.priority]]
       && s1.ticks == s.ticks && s1.thresh == s.thresh && s1.exitQ == s.exitQ && s1.cur == s.cur
  }

  lemma ChannelLive(s: State, c: int)
    requires Valid(s) && 0 <= c < |s.chans|
    ensures Distinct(s.chans[c])
    ensures forall id | id in s.chans[c] :: id in s.envs && 0 <= s.envs[id].priority < |s.ready|
  {
    assert Distinct(At(s, InChan(c)));
    hide Placed;
    forall id | id in s.chans[c] ensures id in s.envs && 0 <= s.envs[id].priority < |s.ready| {
      Live(s, id, InChan(c));
    }
  }

  lemma Twice(envs: map<Id, Env>, id: Id, a: Env, b: Env)
    ensures envs[id := a][id := b] == envs[id := b]
  {
  }

  /** One wake-up: the longest sleeper joins its ready queue. */
  lemma WakeOneEffect(s: State, c: int)
    requires Valid(s) && 0 <= c < |s.chans| && s.chans[c] != []
    ensures OneQueued(s, WakeOne(s, c), s.chans[c])
    ensures WakeOne(s, c).newQ == s.newQ && WakeOne(s, c).chans == s.chans[c := Init(s.chans[c])]
  {
    ChannelLive(s, c);
    LastWithout(s.chans[c]);
    var id := Last(s.chans[c]);
    assert id in s.chans[c];
    hide Placed, At, Without, Distinct;
    var s1 := TakeChan(s, c, id);
    assert WakeOne(s, c) == InsertReady(s1, id);
    assert s1.chans == s.chans[c := Init(s.chans[c])] && s1.ready == s.ready;
    assert s1.envs == s.envs[id := s.envs[id].(status := Unknown)];
    Twice(s.envs, id, s1.envs[id], InsertReady(s1, id).envs[id]);
  }

  lemma WakeAllOnce(s: State, c: int) returns (s1: State)
    requires Valid(s) && 0 <= c < |s.chans| && s.chans[c] != []
    ensures Valid(s1) && |s1.chans| == |s.chans| && WakeAll(s, c) == WakeAll(s1, c)
    ensures s1.newQ == s.newQ && s1.chans[c] == Init(s.chans[c]) && s1.chans[c := []] == s.chans[c := []]
    ensures OneQueued(s, s1, s.chans[c])
  {
    hide Placed, At, OneQueued;
    WakeOneEffect(s, c);
    WakeAllUnfold(s, c);
    s1 := WakeOne(s, c);
    hide WakeAll, WakeOne, Valid, Init;
    assert s.chans[c := Init(s.chans[c])][c := []] == s.chans[c := []];
  }

  lemma WakeAllUnfold(s: State, c: int)
    requires Valid(s) && 0 <= c < |s.chans| && s.chans[c] != []
    ensures |WakeOne(s, c).chans| == |s.chans| && WakeAll(s, c) == WakeAll(WakeOne(s, c), c)
  {
    hide Placed, At;
    assert Last(s.chans[c]) in s.chans[c];
  }

  /** Waking empties the channel; the woken queue up behind everybody of their priority, longest sleeper first. */
  lemma {:induction false} WakeAllOrder(s: State, c: int)
    requires Valid(s) && 0 <= c < |s.chans|
    ensures Queued(s, WakeAll(s, c), s.chans[c])
    ensures WakeAll(s, c).chans == s.chans[c := []] && WakeAll(s, c).newQ == s.newQ
    decreases if 0 <= c < |s.chans| then |s.chans[c]| else 0
  {
    var q := s.chans[c];
    hide Placed, At, Queued;
    if q == [] {
      QueuedNone(s);
      assert s.chans == s.chans[c := []];
    } else {
      var s1 := WakeAllOnce(s, c);
      hide WakeAll, Valid, OfPriority, Init, Last;
      WakeAllOrder(s1, c);
      OrderStep(s, s1, WakeAll(s1, c), q);
    }
  }

  /** Readying the last of `q`, and then all the others, readies `q`. */
  lemma OrderStep(s: State, s1: State, r: State, q: seq<Id>)
    requires OneQueued(s, s1, q)
    requires Queued(s1, r, Init(q))
    ensures Queued(s, r, q)
  {
    assert q == Init(q) + [Last(q)] && Last(q) !in Init(q);
    forall p | 0 <= p < |s.ready| ensures r.ready[p] == OfPriority(q, s.envs, p) + s.ready[p] {
      OfPriorityLast(q, s.envs, p);
      OfPrioritySame(Init(q), s.envs, s1.envs, p);
    }
  }

  lemma NewLive(s: State)
    requires Valid(s)
    ensures Distinct(s.newQ)
    ensures forall id | id in s.newQ :: id in s.envs && 0 <= s.envs[id].priority < |s.ready|
  {
    assert Distinct(At(s, InNew));
    hide Placed;
    forall id | id in s.newQ ensures id in s.envs && 0 <= s.envs[id].priority < |s.ready| {
      Live(s, id, InNew);
    }
  }

  lemma RunNewestEffect(s: State)
    requires Valid(s) && s.newQ != []
    ensures OneQueued(s, RunEnv(s, Last(s.newQ)), s.newQ)
    ensures var r := RunEnv(s, Last(s.newQ)); r.newQ == Init(s.newQ) && r.chans == s.chans
  {
    NewLive(s);
    LastWithout(s.newQ);
    var id := Last(s.newQ);
    assert id in s.newQ;
    hide Placed, At, Without, Distinct;
    var s1 := RemoveNew(s, id);
    assert RunEnv(s, id) == InsertReady(s1, id);
    assert s1.newQ == Init(s.newQ) && s1.ready == s.ready;
    assert s1.envs == s.envs[id := s.envs[id].(status := Unknown)];
    Twice(s.envs, id, s1.envs[id], InsertReady(s1, id).envs[id]);
  }

  /** sched_run_all empties the new queue; the oldest of each priority will be dispatched first. */
  lemma {:induction false} RunAllOrder(s: State)
    requires Valid(s)
    ensures Queued(s, RunAll(s), s.newQ)
    ensures RunAll(s).newQ == [] && RunAll(s).chans == s.chans
    decreases |s.newQ|
  {
    var q := s.newQ;
    hide Placed, At, Queued;
    if q == [] {
      QueuedNone(s);
    } else {
      NewLive(s);
      RunNewestEffect(s);
      var s1 := RunEnv(s, Last(q));
      assert RunAll(s) == RunAll(s1);
      hide RunEnv, RunAll, Valid;
      RunAllOrder(s1);
      OrderStep(s, s1, RunAll(s1), q);
    }
  }

  lemma {:induction false} WithoutNone(q: seq<Id>, id: Id)
    requires id !in q
    ensures Without(q, id) == q
  {
    if q != [] {
      WithoutNone(q[1..], id);
    }
  }

  /** `id` is nowhere but in `place`. */
  ghost predicate Alone(s: State, id: Id, place: Place) {
    forall p | p != place :: Without(At(s, p), id) == At(s, p)
  }

  lemma AloneAt(s: State, id: Id, place: Place, p: Place)
    requires Alone(s, id, place) && p != place
    ensures Without(At(s, p), id) == At(s, p)
  {
  }

  /** The one place of a live environment. */
  lemma Where(s: State, id: Id) returns (place: Place)
    requires Valid(s) && id in s.envs
    ensures id in At(s, place) && Names(s, id, place) && Alone(s, id, place)
    ensures (place != InNew ==> id !in s.newQ) && (place != InExit ==> id !in s.exitQ)
            && (place != OnCpu ==> s.cur != Runs(id))
    ensures s.envs[id].status == StatusAt(place)
  {
    hide Placed, Without, Valid, Alone, PrioritiesOk;
    place := TheOne(s, id);
    NotElsewhere(s, id, place);
    hide At;
  }

  lemma NotElsewhere(s: State, id: Id, place: Place)
    requires forall p | p != place :: id !in At(s, p)
    ensures (place != InNew ==> id !in s.newQ) && (place != InExit ==> id !in s.exitQ)
            && (place != OnCpu ==> s.cur != Runs(id))
  {
    assert At(s, InNew) == s.newQ && At(s, InExit) == s.exitQ && (s.cur == Runs(id) ==> id in At(s, OnCpu));
  }

  lemma TheOne(s: State, id: Id) returns (place: Place)
    requires Valid(s) && id in s.envs
    ensures id in At(s, place) && Names(s, id, place) && Alone(s, id, place)
    ensures forall p | p != place :: id !in At(s, p)
  {
    hide At, Names;
    place :| id in At(s, place);
    forall p | p != place ensures id !in At(s, p) && Without(At(s, p), id) == At(s, p) {
      if id !in At(s, p) {
        WithoutNone(At(s, p), id);
      }
    }
  }

  lemma KillElsewhere(s: State, id: Id, place: Place)
    requires Valid(s) && id in s.envs && Names(s, id, place) && id in At(s, place)
    requires (place != InNew ==> id !in s.newQ) && (place != InExit ==> id !in s.exitQ)
             && (place != OnCpu ==> s.cur != Runs(id))
    ensures var r := KillEnv(s, id);
            if place.InChan? then r == s
            else && r.envs == s.envs - {id} && At(r, place) == Without(At(s, place), id)
                 && forall p | p != place :: At(r, p) == At(s, p)
  {
    hide Placed;
    match place
    case InNew =>
      assert KillEnv(s, id) == Freed(RemoveNew(s, id), id);
      hide Without, Valid, KillEnv;
    case InReady(p) =>
      assert KillEnv(s, id) == Freed(RemoveReady(s, id), id);
      hide Without, Valid, KillEnv;
    case InExit =>
      assert KillEnv(s, id) == Freed(RemoveExit(s, id), id);
      hide Without, Valid, KillEnv;
    case InChan(c) =>
      assert KillEnv(s, id) == s;
    case OnCpu =>
      assert KillEnv(s, id) == Freed(LeaveCpu(s), id);
      hide Valid, KillEnv;
  }

  /** A request to kill reaches everybody but a sleeper on a channel, and takes nobody else from any queue. */
  lemma KillReaches(s: State, id: Id)
    requires Valid(s) && id in s.envs
    ensures var r := KillEnv(s, id);
            && (id in r.envs <==> s.envs[id].status == Blocked)
            && (if s.envs[id].status == Blocked then r == s
                else r.envs == s.envs - {id} && forall p :: At(r, p) == Without(At(s, p), id))
  {
    var place := Where(s, id);
    hide Placed, Without, At, Names, Alone;
    KillElsewhere(s, id, place);
    var r := KillEnv(s, id);
    hide KillEnv, Valid;
    if !place.InChan? {
      forall p ensures At(r, p) == Without(At(s, p), id) {
        if p != place {
          AloneAt(s, id, place, p);
        }
      }
    }
  }

  /** `q`, with `id` at the back if it joins. */
  function Joined(joins: bool, id: Id, q: seq<Id>): seq<Id> {
    if joins then [id] + q else q
  }

  lemma ExitElsewhere(s: State, id: Id, place: Place)
    requires Valid(s) && id in s.envs && s.envs[id].status != New && Names(s, id, place) && id in At(s, place)
    requires place != OnCpu ==> s.cur != Runs(id)
    ensures var r := ExitEnv(s, id);
            if place.InReady? || place.OnCpu?
            then && r.envs == s.envs[id := s.envs[id].(status := Exit)]
                 && At(r, place) == Without(At(s, place), id) && At(r, InExit) == [id] + At(s, InExit)
                 && forall p | p != place && p != InExit :: At(r, p) == At(s, p)
            else r == s
  {
    hide Placed;
    match place
    case InReady(p) =>
      assert ExitEnv(s, id) == InsertExit(RemoveReady(s, id), id);
      hide Without, Valid, ExitEnv;
    case OnCpu =>
      assert ExitEnv(s, id) == InsertExit(LeaveCpu(s), id);
      hide Valid, ExitEnv;
    case _ =>
  }

  /** A request to exit reaches the waiting and the running, and takes nobody else from any queue. */
  lemma ExitReaches(s: State, id: Id)
    requires Valid(s) && id in s.envs && s.envs[id].status != New
    ensures var r := ExitEnv(s, id);
            if s.envs[id].status in {Ready, Running}
            then && r.envs == s.envs[id := s.envs[id].(status := Exit)]
                 && forall p :: At(r, p) == Joined(p.InExit?, id, Without(At(s, p), id))
            else r == s
  {
    var place := Where(s, id);
    hide Placed, Without, At, Names, Alone;
    ExitElsewhere(s, id, place);
    var r := ExitEnv(s, id);
    hide ExitEnv, Valid;
    if place.InReady? || place.OnCpu? {
      forall p ensures At(r, p) == Joined(p.InExit?, id, Without(At(s, p), id)) {
        if p != place {
          AloneAt(s, id, place, p);
        }
      }
    }
  }

  lemma PriorityHere(s: State, id: Id, priority: int)
    requires Valid(s) && id in s.envs && s.envs[id].status == Ready && 0 <= priority < |s.ready|
    requires priority != s.envs[id].priority
    ensures Without(s.ready[priority], id) == s.ready[priority]
  {
    var place := Where(s, id);
    AloneAt(s, id, place, InReady(priority));
  }

  lemma PriorityElsewhere(s: State, id: Id, priority: int, place: Place)
    requires Valid(s) && id in s.envs && 0 <= priority < |s.ready| && Names(s, id, place) && id in At(s, place)
    requires place.InReady?
    ensures var r := SetPriority(s, id, priority);
            && r.envs == s.envs[id := s.envs[id].(priority := priority, arrival := s.ticks)]
            && At(r, InReady(priority)) == [id] + Without(At(s, InReady(priority)), id)
            && (forall p | p != InReady(priority) && p != place :: At(r, p) == At(s, p))
            && (place != InReady(priority) ==> At(r, place) == Without(At(s, place), id))
  {
    PriorityQueues(s, id, priority);
    var r := SetPriority(s, id, priority);
    if priority != s.envs[id].priority {
      PriorityHere(s, id, priority);
    }
    hide Placed, Valid, SetPriority, Without, Names, At;
    Requeued(s, r, id, place.priority, priority);
  }

  lemma Requeued(s: State, r: State, id: Id, p: int, priority: int)
    requires 0 <= p < |s.ready| && 0 <= priority < |s.ready|
    requires var left := s.ready[p := Without(s.ready[p], id)]; r.ready == left[priority := [id] + left[priority]]
    requires r.newQ == s.newQ && r.exitQ == s.exitQ && r.chans == s.chans && r.cur == s.cur
    requires priority != p ==> Without(s.ready[priority], id) == s.ready[priority]
    ensures At(r, InReady(priority)) == [id] + Without(At(s, InReady(priority)), id)
    ensures forall q | q != InReady(priority) && q != InReady(p) :: At(r, q) == At(s, q)
    ensures p != priority ==> At(r, InReady(p)) == Without(At(s, InReady(p)), id)
  {
    hide Without;
  }

  lemma PriorityQueues(s: State, id: Id, priority: int)
    requires Valid(s) && id in s.envs && 0 <= priority < |s.ready| && s.envs[id].status == Ready
    ensures var r, e := SetPriority(s, id, priority), s.envs[id];
            && 0 <= e.priority < |s.ready|
            && var left := s.ready[e.priority := Without(s.ready[e.priority], id)];
               && r.envs == s.envs[id := e.(priority := priority, arrival := s.ticks)]
               && r.ready == left[priority := [id] + left[priority]]
               && r.newQ == s.newQ && r.exitQ == s.exitQ && r.chans == s.chans && r.cur == s.cur
  {
    hide Placed, Without;
    WaitingReady(s, id);
    var s1 := RemoveReady(s, id);
    assert SetPriority(s, id, priority) == InsertReady(SetEnv(s1, id, s1.envs[id].(priority := priority)), id);
    hide Valid, SetPriority;
  }

  lemma PriorityField(s: State, id: Id, priority: int)
    requires Valid(s) && id in s.envs && 0 <= priority < |s.ready| && s.envs[id].status != Ready
    ensures SetPriority(s, id, priority).envs == s.envs[id := s.envs[id].(priority := priority)]
    ensures forall p :: At(SetPriority(s, id, priority), p) == At(s, p)
  {
    hide Placed;
    assert SetPriority(s, id, priority) == SetEnv(s, id, s.envs[id].(priority := priority));
    hide SetPriority, Valid;
  }

  lemma PriorityQueued(s: State, id: Id, priority: int)
    requires Valid(s) && id in s.envs && 0 <= priority < |s.ready| && s.envs[id].status == Ready
    ensures var r := SetPriority(s, id, priority);
            && r.envs == s.envs[id := s.envs[id].(priority := priority, arrival := s.ticks)]
            && forall p :: At(r, p) == Joined(p == InReady(priority), id, Without(At(s, p), id))
  {
    var place := Where(s, id);
    hide Placed, Without, At, Names, Alone;
    PriorityElsewhere(s, id, priority, place);
    var r := SetPriority(s, id, priority);
    hide SetPriority, Valid;
    forall p ensures At(r, p) == Joined(p == InReady(priority), id, Without(At(s, p), id)) {
      if p != place {
        AloneAt(s, id, place, p);
      }
    }
  }

  /** A new priority: a waiting environment goes to the back of that queue, and nobody else moves. */
  lemma PriorityMoves(s: State, id: Id, priority: int)
    requires Valid(s) && id in s.envs && 0 <= priority < |s.ready|
    ensures var r, e := SetPriority(s, id, priority), s.envs[id].(priority := priority);
            && r.envs == s.envs[id := if e.status == Ready then e.(arrival := s.ticks) else e]
            && forall p :: At(r, p) == if e.status != Ready then At(s, p)
                                       else Joined(p == InReady(priority), id, Without(At(s, p), id))
  {
    hide Placed, Without, At, Names, Alone, SetPriority, Valid;
    if s.envs[id].status == Ready {
      PriorityQueued(s, id, priority);
    } else {
      PriorityField(s, id, priority);
    }
  }

  // ----- sleep, start and creation -----

  /** The running environment queues up on the channel it sleeps on, blocked; nobody else moves. */
  lemma SleepEffect(s: State, c: int)
    requires Valid(s) && s.cur.Runs? && 0 <= c < |s.chans|
    ensures var r, id := Sleep(s, c), s.cur.id;
            && id in s.envs && r.envs == s.envs[id := s.envs[id].(status := Blocked)]
            && r.cur == Idle && At(r, InChan(c)) == [id] + At(s, InChan(c))
            && (forall p | p != InChan(c) && p != OnCpu :: At(r, p) == At(s, p))
            && r.ticks == s.ticks && r.thresh == s.thresh
  {
    hide Placed;
    Live(s, s.cur.id, OnCpu);
  }

  lemma SleepChans(s: State, c: int)
    requires Valid(s) && s.cur.Runs? && 0 <= c < |s.chans|
    ensures var r, id := Sleep(s, c), s.cur.id;
            && id in s.envs && 0 <= s.envs[id].priority < |s.ready|
            && r.envs == s.envs[id := s.envs[id].(status := Blocked)]
            && r.chans == s.chans[c := [id] + s.chans[c]] && r.ready == s.ready && r.ticks == s.ticks && r.cur == Idle
  {
    hide Placed;
    Live(s, s.cur.id, OnCpu);
  }

  /** Alone on a channel, a sleeper is what the next wake-up there readies. */
  lemma SleepThenWake(s: State, c: int)
    requires Valid(s) && s.cur.Runs? && 0 <= c < |s.chans| && s.chans[c] == []
    ensures |Sleep(s, c).chans| == |s.chans|
    ensures var r, id := WakeOne(Sleep(s, c), c), s.cur.id;
            && id in s.envs && 0 <= s.envs[id].priority < |s.ready|
            && r.envs == s.envs[id := s.envs[id].(status := Ready, arrival := s.ticks)]
            && r.ready == s.ready[s.envs[id].priority := [id] + s.ready[s.envs[id].priority]]
            && r.chans == s.chans && r.cur == Idle
  {
    var s1, id := Sleep(s, c), s.cur.id;
    SleepChans(s, c);
    hide Placed, At, Sleep, Valid, OneQueued;
    EmptyAgain(s.chans, c, id);
    WakesAlone(s1, c, id);
    WokenAlone(s, s1, WakeOne(s1, c), id);
  }

  lemma EmptyAgain(chans: seq<seq<Id>>, c: int, id: Id)
    requires 0 <= c < |chans| && chans[c] == []
    ensures [id] + chans[c] == [id] && chans[c := [id]][c := []] == chans
  {
  }

  lemma WakesAlone(s: State, c: int, id: Id)
    requires Valid(s) && 0 <= c < |s.chans| && s.chans[c] == [id]
    ensures OneQueued(s, WakeOne(s, c), [id]) && WakeOne(s, c).chans == s.chans[c := []]
  {
    WakeOneEffect(s, c);
    hide Valid, WakeOne, OneQueued;
    assert Init([id]) == [];
  }

  lemma WokenAlone(s: State, s1: State, r: State, id: Id)
    requires id in s.envs && s1.envs == s.envs[id := s.envs[id].(status := Blocked)] && OneQueued(s1, r, [id])
    requires s1.ready == s.ready && s1.ticks == s.ticks && s1.cur == Idle
    ensures 0 <= s.envs[id].priority < |s.ready| && r.cur == Idle
    ensures r.envs == s.envs[id := s.envs[id].(status := Ready, arrival := s.ticks)]
    ensures r.ready == s.ready[s.envs[id].priority := [id] + s.ready[s.envs[id].priority]]
  {
    Twice(s.envs, id, s1.envs[id], s.envs[id].(status := Ready, arrival := s.ticks));
  }

  /** A wake-up on another channel leaves it asleep. */
  lemma SleepsThrough(s: State, c: int, d: int)
    requires Valid(s) && s.cur.Runs? && 0 <= c < |s.chans| && 0 <= d < |s.chans| && c != d
    ensures |Sleep(s, c).chans| == |s.chans|
    ensures var r, id := WakeOne(Sleep(s, c), d), s.cur.id;
            id in r.envs && r.envs[id].status == Blocked && r.chans[c] == [id] + s.chans[c]
  {
    var s1 := Sleep(s, c);
    SleepChans(s, c);
    hide Placed, At, Sleep;
    ChannelsApart(s1, c, d, s.cur.id);
    if s1.chans[d] != [] {
      WakeOneEffect(s1, d);
      assert Last(s1.chans[d]) in s1.chans[d];
    }
    hide Valid;
  }

  lemma ChannelsApart(s: State, c: int, d: int, id: Id)
    requires Valid(s) && 0 <= c < |s.chans| && 0 <= d < |s.chans| && c != d && id in s.chans[c]
    ensures id !in s.chans[d]
  {
    assert id in At(s, InChan(c)) && (id in s.chans[d] ==> id in At(s, InChan(d)));
  }

  lemma RunHere(s: State, id: Id)
    requires Valid(s) && id in s.newQ
    ensures id in s.envs && 0 <= s.envs[id].priority < |s.ready|
    ensures var r, p := RunEnv(s, id), s.envs[id].priority;
            && r.envs == s.envs[id := s.envs[id].(status := Ready, arrival := s.ticks)]
            && At(r, InNew) == Without(At(s, InNew), id) && At(r, InReady(p)) == [id] + At(s, InReady(p))
            && forall q | q != InNew && q != InReady(p) :: At(r, q) == At(s, q)
  {
    hide Placed, Without;
    NewLive(s);
    assert RunEnv(s, id) == InsertReady(RemoveNew(s, id), id);
    hide RunEnv, Valid;
  }

  /** A start reaches exactly the new; the environment queues up at its priority, and nobody else moves. */
  lemma RunMoves(s: State, id: Id)
    requires Valid(s)
    ensures var r := RunEnv(s, id);
            if id !in s.newQ then r == s
            else && id in s.envs
                 && r.envs == s.envs[id := s.envs[id].(status := Ready, arrival := s.ticks)]
                 && (forall p :: At(r, p) == Joined(p == InReady(s.envs[id].priority), id, Without(At(s, p), id)))
                 && r.ticks == s.ticks && r.thresh == s.thresh
  {
    if id in s.newQ {
      RunHere(s, id);
      var place := Where(s, id);
      var r := RunEnv(s, id);
      hide Placed, Without, At, Names, Alone;
      assert place == InNew && r.ticks == s.ticks && r.thresh == s.thresh;
      hide RunEnv, Valid;
      forall p ensures At(r, p) == Joined(p == InReady(s.envs[id].priority), id, Without(At(s, p), id)) {
        if p != place {
          AloneAt(s, id, place, p);
        }
      }
    }
  }

  /** A created environment waits in the new queue with the priority asked for. */
  lemma NewMoves(s: State, id: Id, priority: int)
    requires Valid(s) && id !in s.envs && 0 <= priority < |s.ready|
    ensures var r := NewEnv(s, id, priority);
            && r.envs == s.envs[id := Env(New, priority, 0)]
            && (forall p :: At(r, p) == Joined(p == InNew, id, At(s, p)))
            && r.ticks == s.ticks && r.thresh == s.thresh
  {
    hide Placed;
  }

  // ----- dispatch -----

  lemma DispatchPicks(s: State, p: nat)
    requires Valid(s) && s.cur.Idle? && p == FirstBusy(s.ready, 0) < |s.ready|
    ensures var id := Last(s.ready[p]);
            id in s.envs && s.envs[id].status == Ready && s.envs[id].priority == p && Dispatch(s).cur == Runs(id)
            && Dispatch(s).envs == s.envs[id := s.envs[id].(status := Running)]
  {
    InQueue(s, p, Last(s.ready[p]));
  }

  /** `d` has waited longest at the best priority of all that wait. */
  ghost predicate Best(s: State, d: Id) {
    && d in s.envs && s.envs[d].status == Ready && 0 <= s.envs[d].priority < |s.ready|
    && (forall x | x in s.envs && s.envs[x].status == Ready :: s.envs[d].priority <= s.envs[x].priority)
    && var q := s.ready[s.envs[d].priority]; q != [] && d == q[|q| - 1]
  }

  /** The dispatched one is the best; the CPU stays idle only if nobody waits. */
  lemma DispatchIsBest(s: State)
    requires Valid(s) && s.cur.Idle?
    ensures if forall x | x in s.envs :: s.envs[x].status != Ready then Dispatch(s) == s
            else Dispatch(s).cur.Runs? && Best(s, Dispatch(s).cur.id)
  {
    var p := FirstBusy(s.ready, 0);
    forall x | x in s.envs && s.envs[x].status == Ready
      ensures p <= s.envs[x].priority < |s.ready|
    {
      var i := s.envs[x].priority;
      InQueueIff(s, i, x);
      assert s.ready[i] != [];
    }
    if p < |s.ready| {
      DispatchPicks(s, p);
    }
  }

  /** It leaves its queue for the CPU, and nobody else moves. */
  lemma DispatchMoves(s: State)
    requires Valid(s) && s.cur.Idle? && Dispatch(s).cur.Runs?
    ensures var r, d := Dispatch(s), Dispatch(s).cur.id;
            && d in s.envs && r.envs == s.envs[d := s.envs[d].(status := Running)]
            && (forall p | p != OnCpu :: At(r, p) == Without(At(s, p), d))
            && r.ticks == s.ticks && r.thresh == s.thresh
  {
    var r, d, i := Dispatch(s), Dispatch(s).cur.id, FirstBusy(s.ready, 0);
    DispatchQueues(s, i);
    var place := Where(s, d);
    OneQueueLess(s, r, d, i);
    hide Placed, Without, Alone, Dispatch, Valid, At;
    assert place == InReady(i);
    forall p | p != OnCpu ensures At(r, p) == Without(At(s, p), d) {
      if p != place {
        AloneAt(s, d, place, p);
      }
    }
  }

  lemma OneQueueLess(s: State, r: State, d: Id, i: nat)
    requires i < |s.ready| && r == s.(envs := r.envs, cur := r.cur, ready := s.ready[i := Without(s.ready[i], d)])
    ensures At(r, InReady(i)) == Without(At(s, InReady(i)), d)
    ensures forall p | p != OnCpu && p != InReady(i) :: At(r, p) == At(s, p)
  {
  }

  lemma DispatchQueues(s: State, i: nat)
    requires Valid(s) && s.cur.Idle? && Dispatch(s).cur.Runs? && i == FirstBusy(s.ready, 0)
    ensures var r, d := Dispatch(s), Dispatch(s).cur.id;
            && d in s.envs && s.envs[d].status == Ready && s.envs[d].priority == i < |s.ready|
            && r == s.(envs := s.envs[d := s.envs[d].(status := Running)], cur := Runs(d),
                       ready := s.ready[i := Without(s.ready[i], d)])
  {
    hide Placed, At;
    if i < |s.ready| {
      DispatchPicks(s, i);
      ReadyNoDups(s, i);
      LastWithout(s.ready[i]);
    }
  }

  lemma PreemptedIs(s: State)
    requires Valid(s) && s.cur.Runs?
    ensures var c := s.cur.id;
            && c in s.envs && s.envs[c].status == Running && 0 <= s.envs[c].priority < |s.ready|
            && c !in s.ready[s.envs[c].priority]
  {
    var c := s.cur.id;
    assert c in At(s, OnCpu);
    Live(s, c, OnCpu);
    assert c !in At(s, InReady(s.envs[c].priority));
  }

  /** The preempted one is back in the queue of its priority, behind everybody, when the choice is made. */
  lemma Chosen(s: State) returns (s1: State, d: Id)
    requires Valid(s) && s.cur.Runs? && s.cur.id in s.envs && 0 <= s.envs[s.cur.id].priority < |s.ready|
    ensures var c := s.cur.id;
            var p := s.envs[c].priority;
            && s1.envs == s.envs[c := s.envs[c].(status := Ready, arrival := s.ticks)]
            && s1.ready == s.ready[p := [c] + s.ready[p]]
    ensures Best(s1, d) && Schedule(s).cur == Runs(d)
  {
    var c := s.cur.id;
    hide Placed, At, Dispatch, Best;
    LeaveCpuInv(s);
    InsertReadyInv(LeaveCpu(s), {c}, c);
    assert {c} - {c} == {};
    s1 := InsertReady(LeaveCpu(s), c);
    DispatchIsBest(s1);
    assert c in s1.envs && s1.envs[c].status == Ready;
    d := Dispatch(s1).cur.id;
  }

  /** Round robin: the preempted one goes on exactly if everybody that waits has a worse priority. */
  lemma RoundRobin(s: State)
    requires Valid(s) && s.cur.Runs?
    ensures s.cur.id in s.envs && Schedule(s).cur.Runs?
    ensures Schedule(s).cur == s.cur
            <==> forall x | x in s.envs && s.envs[x].status == Ready :: s.envs[s.cur.id].priority < s.envs[x].priority
  {
    PreemptedIs(s);
    forall x | x in s.envs && s.envs[x].status == Ready && s.envs[x].priority == s.envs[s.cur.id].priority
      ensures x in s.ready[s.envs[s.cur.id].priority]
    {
      InQueueIff(s, s.envs[x].priority, x);
    }
    var s1, d := Chosen(s);
    hide Schedule, Valid;
    Choice(s, s1, s.cur.id, d);
  }

  lemma Choice(s: State, s1: State, c: Id, d: Id)
    requires c in s.envs && s.envs[c].status == Running && 0 <= s.envs[c].priority < |s.ready|
    requires c !in s.ready[s.envs[c].priority]
    requires forall x | x in s.envs && s.envs[x].status == Ready && s.envs[x].priority == s.envs[c].priority ::
               x in s.ready[s.envs[c].priority]
    requires s1.envs == s.envs[c := s.envs[c].(status := Ready, arrival := s.ticks)]
    requires s1.ready == s.ready[s.envs[c].priority := [c] + s.ready[s.envs[c].priority]]
    requires Best(s1, d)
    ensures d == c <==> forall x | x in s.envs && s.envs[x].status == Ready :: s.envs[c].priority < s.envs[x].priority
  {
    var p := s.envs[c].priority;
    assert s.ready[p] != [] ==> Last([c] + s.ready[p]) in s.ready[p];
    if d == c {
      assert s.ready[p] == [];
      forall x | x in s.envs && s.envs[x].status == Ready ensures p < s.envs[x].priority {
        assert x in s1.envs && s1.envs[x] == s.envs[x];
      }
    } else {
      assert c in s1.envs && s1.envs[c].status == Ready;
      assert d in s.envs && s1.envs[d] == s.envs[d];
    }
  }
}
