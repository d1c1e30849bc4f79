/** Scheduler state as values: where every environment is, and what each scheduler operation does to it. */
module SchedState {
  import opened Counting

  type Id = nat

  datatype Status = Ready | Running | Blocked | New | Exit | Unknown

  datatype Env = Env(status: Status, priority: int, arrival: int)

  datatype Cpu = Idle | Runs(id: Id)

  /** Queues are listed head first: environments enter at index 0 and leave from the end. */
  datatype State = State(
    envs: map<Id, Env>, newQ: seq<Id>, ready: seq<seq<Id>>, exitQ: seq<Id>, chans: seq<seq<Id>>,
    cur: Cpu, ticks: int, thresh: int)

  datatype Place = InNew | InReady(priority: int) | InExit | InChan(c: int) | OnCpu

  // ----- queues -----

  /** LIST_REMOVE of `id`. */
  function Without(q: seq<Id>, id: Id): (r: seq<Id>)
    ensures |r| == if id in q then |q| - 1 else |q|
  {
    if q == [] then [] else if q[0] == id then q[1..] else [q[0]] + Without(q[1..], id)
  }

  lemma {:induction false} WithoutHas(q: seq<Id>, id: Id)
    requires Distinct(q)
    ensures Distinct(Without(q, id))
    ensures forall x :: x in Without(q, id) <==> x in q && x != id
  {
    if q != [] {
      assert q == [q[0]] + q[1..];
      assert q[0] !in q[1..];
      if q[0] != id {
        WithoutHas(q[1..], id);
        assert q[0] !in Without(q[1..], id);
      }
    }
  }

  lemma {:induction false} WithoutAt(q: seq<Id>, k: nat)
    requires Distinct(q) && k < |q|
    ensures Without(q, q[k]) == q[..k] + q[k + 1..]
  {
    if k > 0 {
      WithoutAt(q[1..], k - 1);
      assert q[..k] == [q[0]] + q[1..][..k - 1];
      assert q[1..][k..] == q[k + 1..] && Without(q, q[k]) == [q[0]] + Without(q[1..], q[k]);
      hide Without;
    }
  }

  // ----- places -----

  /** Who is at a place. */
  function At(s: State, place: Place): seq<Id> {
    match place
    case InNew => s.newQ
    case InReady(p) => if 0 <= p < |s.ready| then s.ready[p] else []
    case InExit => s.exitQ
    case InChan(c) => if 0 <= c < |s.chans| then s.chans[c] else []
    case OnCpu => if s.cur.Runs? then [s.cur.id] else []
  }

  function StatusAt(place: Place): Status {
    match place
    case InNew => New
    case InReady(_) => Ready
    case InExit => Exit
    case InChan(_) => Blocked
    case OnCpu => Running
  }

  /** The fields of `id` name `place`: its status, and in a ready queue its priority. */
  ghost predicate Names(s: State, id: Id, place: Place) {
    id in s.envs && s.envs[id].status == StatusAt(place)
    && (place.InReady? ==> s.envs[id].priority == place.priority)
  }

  /** Every live environment outside `transit` is in exactly one place, and its fields name that place. */
  ghost predicate Placed(s: State, transit: set<Id>) {
    && (forall place :: Distinct(At(s, place)))
    && (forall place, id | id in At(s, place) :: id !in transit && Names(s, id, place))
    && (forall a, b, id | id in At(s, a) && id in At(s, b) :: a == b)
    && (forall id | id in s.envs && id !in transit :: exists place :: id in At(s, place))
    && transit <= s.envs.Keys
  }

  /** `s'` is `s` with `id` taken out of `place`. */
  lemma TakeOut(s: State, s': State, transit: set<Id>, id: Id, place: Place)
    requires Placed(s, transit) && id in At(s, place)
    requires At(s', place) == Without(At(s, place), id)
    requires forall p | p != place :: At(s', p) == At(s, p)
    requires s'.envs.Keys == s.envs.Keys && forall x | x in s.envs && x != id :: s'.envs[x] == s.envs[x]
    ensures Placed(s', transit + {id}) && id in s.envs && id !in transit
  {
    hide At, Names, Without;
    TakeOutWhere(s, s', transit, id, place);
    forall p ensures Distinct(At(s', p)) {
      if p != place { assert At(s', p) == At(s, p); }
    }
    NamedIsLive(s, id, place);
    forall p, x | x in At(s', p) ensures x !in transit + {id} && Names(s', x, p) {
      NamedIsLive(s, x, p);
      NamesKept(s, s', x, p);
    }
    forall a, b, x | x in At(s', a) && x in At(s', b) ensures a == b {
      assert x in At(s, a) && x in At(s, b);
    }
    assert transit + {id} <= s'.envs.Keys;
  }

  lemma NamesKept(s: State, s': State, x: Id, p: Place)
    requires Names(s, x, p) && x in s'.envs && (x in s.envs ==> s'.envs[x] == s.envs[x])
    ensures Names(s', x, p)
  {
  }

  lemma NamedIsLive(s: State, id: Id, place: Place)
    requires Names(s, id, place)
    ensures id in s.envs
  {
  }

  lemma TakeOutWhere(s: State, s': State, transit: set<Id>, id: Id, place: Place)
    requires Placed(s, transit) && id in At(s, place)
    requires At(s', place) == Without(At(s, place), id)
    requires forall p | p != place :: At(s', p) == At(s, p)
    requires s'.envs.Keys == s.envs.Keys
    ensures Distinct(At(s', place))
    ensures forall p, x :: x in At(s', p) <==> x in At(s, p) && x != id
    ensures forall x | x in s'.envs && x !in transit + {id} :: exists p :: x in At(s', p)
  {
    hide At, Names, Without;
    WithoutHas(At(s, place), id);
    forall p, x ensures x in At(s', p) <==> x in At(s, p) && x != id {
      if p != place { assert At(s', p) == At(s, p); }
    }
    forall x | x in s'.envs && x !in transit + {id} ensures exists p :: x in At(s', p) {
      var p :| x in At(s, p);
      assert x in At(s', p);
    }
  }

  lemma PutInWhere(s: State, s': State, transit: set<Id>, id: Id, place: Place)
    requires Placed(s, transit) && id in transit
    requires At(s', place) == [id] + At(s, place)
    requires forall p | p != place :: At(s', p) == At(s, p)
    requires s'.envs.Keys == s.envs.Keys
    ensures forall p, x :: x in At(s', p) <==> x in At(s, p) || (x == id && p == place)
    ensures forall p :: id !in At(s, p)
    ensures forall x | x in s'.envs && x !in transit - {id} :: exists p :: x in At(s', p)
  {
    hide At, Names;
    forall p, x ensures x in At(s', p) <==> x in At(s, p) || (x == id && p == place) {
      if p == place { assert At(s', p) == [id] + At(s, p); }
    }
    forall x | x in s'.envs && x !in transit - {id} ensures exists p :: x in At(s', p) {
      if x == id {
        assert x in At(s', place);
      } else {
        var p :| x in At(s, p);
        assert x in At(s', p);
      }
    }
  }

  /** `s'` is `s` with `id` put into `place`, whose status it carries. */
  lemma PutIn(s: State, s': State, transit: set<Id>, id: Id, place: Place)
    requires Placed(s, transit) && id in transit
    requires At(s', place) == [id] + At(s, place) && Names(s', id, place)
    requires forall p | p != place :: At(s', p) == At(s, p)
    requires s'.envs.Keys == s.envs.Keys && forall x | x in s.envs && x != id :: s'.envs[x] == s.envs[x]
    ensures Placed(s', transit - {id})
  {
    hide At;
    PutInWhere(s, s', transit, id, place);
    forall p, x | x in At(s', p) ensures x !in transit - {id} && Names(s', x, p) {
      assert x == id || x in At(s, p);
    }
    forall p ensures Distinct(At(s', p)) {
      assert Distinct(At(s, p));
    }
  }

  /** Changing fields of an environment in transit disturbs no place. */
  lemma ChangeInTransit(s: State, s': State, transit: set<Id>, id: Id)
    requires Placed(s, transit) && id in transit
    requires forall p :: At(s', p) == At(s, p)
    requires s'.envs.Keys == s.envs.Keys && forall x | x in s.envs && x != id :: s'.envs[x] == s.envs[x]
    ensures Placed(s', transit)
  {
    hide At;
    forall x | x in s'.envs && x !in transit ensures exists p :: x in At(s', p) {
      var p :| x in At(s, p);
      assert x in At(s', p);
    }
    forall p, x | x in At(s', p) ensures x !in transit && Names(s', x, p) {
      assert x in At(s, p);
    }
    forall p ensures Distinct(At(s', p)) {
      assert Distinct(At(s, p));
    }
  }

  // ----- the invariant -----

  ghost predicate PrioritiesOk(s: State) {
    0 < |s.ready| && forall id | id in s.envs :: 0 <= s.envs[id].priority < |s.ready|
  }

  ghost predicate Inv(s: State, transit: set<Id>) {
    Placed(s, transit) && PrioritiesOk(s)
  }

  ghost predicate Valid(s: State) {
    Inv(s, {})
  }

  // ----- moves -----

  function SetEnv(s: State, id: Id, e: Env): State {
    s.(envs := s.envs[id := e])
  }

  /** sched_insert_ready. */
  function InsertReady(s: State, id: Id): State
    requires id in s.envs && 0 <= s.envs[id].priority < |s.ready|
  {
    var e := s.envs[id];
    SetEnv(s, id, e.(status := Ready, arrival := s.ticks)).(ready := s.ready[e.priority := [id] + s.ready[e.priority]])
  }

  /** sched_remove_ready, for an environment in the queue of its priority. */
  function RemoveReady(s: State, id: Id): State
    requires id in s.envs && 0 <= s.envs[id].priority < |s.ready|
  {
    var e := s.envs[id];
    SetEnv(s, id, e.(status := Unknown)).(ready := s.ready[e.priority := Without(s.ready[e.priority], id)])
  }

  function RemoveNew(s: State, id: Id): State
    requires id in s.envs
  {
    SetEnv(s, id, s.envs[id].(status := Unknown)).(newQ := Without(s.newQ, id))
  }

  function RemoveExit(s: State, id: Id): State
    requires id in s.envs
  {
    SetEnv(s, id, s.envs[id].(status := Unknown)).(exitQ := Without(s.exitQ, id))
  }

  function InsertExit(s: State, id: Id): State
    requires id in s.envs
  {
    SetEnv(s, id, s.envs[id].(status := Exit)).(exitQ := [id] + s.exitQ)
  }

  /** Moves of the running environment off the CPU; its status is set by whoever moves it. */
  function LeaveCpu(s: State): State {
    s.(cur := Idle)
  }

  lemma InsertReadyInv(s: State, transit: set<Id>, id: Id)
    requires Inv(s, transit) && id in transit
    ensures id in s.envs && Inv(InsertReady(s, id), transit - {id})
  {
    var s' := InsertReady(s, id);
    assert forall p | p != InReady(s.envs[id].priority) :: At(s', p) == At(s, p);
    hide At;
    PutIn(s, s', transit, id, InReady(s.envs[id].priority));
  }

  lemma RemoveReadyInv(s: State, transit: set<Id>, id: Id)
    requires Inv(s, transit) && id in s.envs && id in At(s, InReady(s.envs[id].priority))
    ensures Inv(RemoveReady(s, id), transit + {id}) && id !in transit
  {
    var s' := RemoveReady(s, id);
    assert forall p | p != InReady(s.envs[id].priority) :: At(s', p) == At(s, p);
    TakeOut(s, s', transit, id, InReady(s.envs[id].priority));
  }

  lemma RemoveNewInv(s: State, id: Id)
    requires Valid(s) && id in s.newQ
    ensures id in s.envs && Inv(RemoveNew(s, id), {id})
  {
    hide Placed, Without;
    assert id in At(s, InNew);
    PlacedNames(s, {}, id, InNew);
    var s' := RemoveNew(s, id);
    assert At(s', InNew) == Without(At(s, InNew), id) && forall p | p != InNew :: At(s', p) == At(s, p);
    hide At;
    TakeOut(s, s', {}, id, InNew);
    assert {} + {id} == {id};
  }

  lemma RemoveExitInv(s: State, id: Id)
    requires Valid(s) && id in s.exitQ
    ensures id in s.envs && Inv(RemoveExit(s, id), {id})
  {
    hide Placed, Without;
    assert id in At(s, InExit);
    PlacedNames(s, {}, id, InExit);
    var s' := RemoveExit(s, id);
    assert At(s', InExit) == Without(At(s, InExit), id) && forall p | p != InExit :: At(s', p) == At(s, p);
    hide At;
    TakeOut(s, s', {}, id, InExit);
    assert {} + {id} == {id};
  }

  lemma InsertExitInv(s: State, id: Id)
    requires Inv(s, {id})
    ensures id in s.envs && Inv(InsertExit(s, id), {})
  {
    PutIn(s, InsertExit(s, id), {id}, id, InExit);
    assert {id} - {id} == {};
  }

  lemma LeaveCpuInv(s: State)
    requires Valid(s) && s.cur.Runs?
    ensures s.cur.id in s.envs && Inv(LeaveCpu(s), {s.cur.id})
  {
    assert s.cur.id in At(s, OnCpu) && Names(s, s.cur.id, OnCpu);
    TakeOut(s, LeaveCpu(s), {}, s.cur.id, OnCpu);
  }

  lemma ChangeInv(s: State, id: Id, e: Env)
    requires Inv(s, {id}) && 0 <= e.priority < |s.ready|
    ensures Inv(SetEnv(s, id, e), {id})
  {
    ChangeInTransit(s, SetEnv(s, id, e), {id}, id);
  }

  // ----- operations -----

  /** First non-empty ready queue at or after `p`, in order of priority. */
  function FirstBusy(ready: seq<seq<Id>>, p: nat): (q: nat)
    requires p <= |ready|
    ensures p <= q <= |ready| && (q < |ready| ==> ready[q] != [])
    ensures forall i | p <= i < q :: ready[i] == []
    decreases |ready| - p
  {
    if p == |ready| || ready[p] != [] then p else FirstBusy(ready, p + 1)
  }

  function Last(q: seq<Id>): Id
    requires q != []
  {
    q[|q| - 1]
  }

  function Init(q: seq<Id>): seq<Id>
    requires q != []
  {
    q[..|q| - 1]
  }

  /** Dispatch of the oldest environment of the first non-empty ready queue. */
  function Dispatch(s: State): State
    requires s.cur.Idle?
  {
    var p := FirstBusy(s.ready, 0);
    if p == |s.ready| || Last(s.ready[p]) !in s.envs then s
    else
      var id := Last(s.ready[p]);
      SetEnv(s, id, s.envs[id].(status := Running)).(ready := s.ready[p := Init(s.ready[p])], cur := Runs(id))
  }

  /** fos_scheduler_PRIRR and the dispatch that follows: the current environment first goes back to its queue. */
  ghost function Schedule(s: State): (r: State)
    requires Valid(s)
    ensures Valid(r)
  {
    if s.cur.Runs? then
      LeaveCpuInv(s);
      InsertReadyInv(LeaveCpu(s), {s.cur.id}, s.cur.id);
      assert {s.cur.id} - {s.cur.id} == {};
      var s1 := InsertReady(LeaveCpu(s), s.cur.id);
      DispatchInv(s1);
      Dispatch(s1)
    else
      DispatchInv(s);
      Dispatch(s)
  }

  lemma EnterCpuInv(s: State, id: Id)
    requires Inv(s, {id}) && s.cur.Idle? && id in s.envs && s.envs[id].status == Running
    ensures Valid(s.(cur := Runs(id)))
  {
    assert {id} - {id} == {};
    PutIn(s, s.(cur := Runs(id)), {id}, id, OnCpu);
  }

  /** What holds of an environment found in a ready queue. */
  lemma InQueue(s: State, i: int, id: Id)
    requires Valid(s) && 0 <= i < |s.ready| && id in s.ready[i]
    ensures id in s.envs && s.envs[id].status == Ready && s.envs[id].priority == i && Distinct(s.ready[i])
    ensures id in At(s, InReady(i))
  {
    assert id in At(s, InReady(i)) && Names(s, id, InReady(i)) && Distinct(At(s, InReady(i)));
  }

  lemma ReadyNoDups(s: State, i: int)
    requires Valid(s) && 0 <= i < |s.ready|
    ensures Distinct(s.ready[i])
  {
    assert Distinct(At(s, InReady(i)));
  }

  lemma DispatchInv(s: State)
    requires Valid(s) && s.cur.Idle?
    ensures Valid(Dispatch(s))
  {
    hide Placed, At;
    var p := FirstBusy(s.ready, 0);
    if p < |s.ready| {
      var id := Last(s.ready[p]);
      InQueue(s, p, id);
      RemoveReadyInv(s, {}, id);
      LastWithout(s.ready[p]);
      var s1 := RemoveReady(s, id);
      assert {} + {id} == {id};
      ChangeInv(s1, id, s1.envs[id].(status := Running));
      EnterCpuInv(SetEnv(s1, id, s1.envs[id].(status := Running)), id);
      assert Dispatch(s) == SetEnv(s1, id, s1.envs[id].(status := Running)).(cur := Runs(id));
    }
  }

  lemma {:induction false} LastWithout(q: seq<Id>)
    requires q != [] && Distinct(q)
    ensures Without(q, Last(q)) == Init(q)
  {
    WithoutAt(q, |q| - 1);
  }

  /** One visit of the promotion pass: an environment that waited long enough goes up one level. */
  function Promote(s: State, id: Id): State
    requires id in s.envs && 0 <= s.envs[id].priority < |s.ready|
  {
    var e := s.envs[id];
    if e.priority > 0 && s.ticks - e.arrival >= s.thresh then
      InsertReady(SetEnv(RemoveReady(s, id), id, e.(status := Unknown, priority := e.priority - 1)), id)
    else s
  }

  /** `s'` differs from `s` only in the fields and queues of environments waiting to run. */
  ghost predicate SameRest(s: State, s': State) {
    && s'.newQ == s.newQ && s'.exitQ == s.exitQ && s'.chans == s.chans && s'.cur == s.cur
    && s'.ticks == s.ticks && s'.thresh == s.thresh && s'.envs.Keys == s.envs.Keys && |s'.ready| == |s.ready|
  }

  lemma PromoteInv(s: State, id: Id, i: int)
    requires Valid(s) && 0 < i < |s.ready| && id in s.ready[i]
    ensures id in s.envs && s.envs[id].priority == i
    ensures Valid(Promote(s, id)) && SameRest(s, Promote(s, id))
    ensures forall x | x in s.ready[i] && x != id :: x in Promote(s, id).ready[i]
  {
    hide Placed, At;
    InQueue(s, i, id);
    var e := s.envs[id];
    if s.ticks - e.arrival >= s.thresh {
      RemoveReadyInv(s, {}, id);
      assert {} + {id} == {id};
      ChangeInv(RemoveReady(s, id), id, e.(status := Unknown, priority := i - 1));
      InsertReadyInv(SetEnv(RemoveReady(s, id), id, e.(status := Unknown, priority := i - 1)), {id}, id);
      assert {id} - {id} == {};
      WithoutHas(s.ready[i], id);
    }
  }

  /** After a visit the rest of the list is still to be visited. */
  lemma VisitOk(s: State, q: seq<Id>, i: int)
    requires Valid(s) && 0 < i < |s.ready| && Distinct(q) && q != [] && forall id | id in q :: id in s.ready[i]
    ensures q[0] in s.envs && s.envs[q[0]].priority == i
    ensures Valid(Promote(s, q[0])) && SameRest(s, Promote(s, q[0])) && Distinct(q[1..])
    ensures forall id | id in q[1..] :: id in Promote(s, q[0]).ready[i]
  {
    hide Valid, Promote;
    PromoteInv(s, q[0], i);
    assert q[0] !in q[1..];
  }

  /** The inner loop over level `i`: every environment of the list `q`, in list order. */
  ghost function PromoteList(s: State, q: seq<Id>, i: int): (r: State)
    requires Valid(s) && 0 < i < |s.ready| && Distinct(q) && forall id | id in q :: id in s.ready[i]
    ensures Valid(r) && SameRest(s, r)
    decreases |q|
  {
    if q == [] then s
    else
      VisitOk(s, q, i);
      PromoteList(Promote(s, q[0]), q[1..], i)
  }

  /** The outer loop: levels `i` down to 1. */
  ghost function PromoteFrom(s: State, i: int): (r: State)
    requires Valid(s) && i < |s.ready|
    ensures Valid(r) && SameRest(s, r)
    decreases i
  {
    if i <= 0 then s
    else
      ReadyNoDups(s, i);
      PromoteFrom(PromoteList(s, s.ready[i], i), i - 1)
  }

  /** The places depend on the queues and the CPU only. */
  lemma SameAt(s: State, s': State)
    requires s'.newQ == s.newQ && s'.ready == s.ready && s'.exitQ == s.exitQ && s'.chans == s.chans && s'.cur == s.cur
    ensures forall p :: At(s', p) == At(s, p)
  {
  }

  lemma TickCountInv(s: State, t: int)
    requires Valid(s)
    ensures Valid(s.(ticks := t))
  {
    var s' := s.(ticks := t);
    SameAt(s, s');
    SamePlaces(s, s', {}, {});
  }

  /** A state with everybody in the same place and still carrying the fields that name it. */
  lemma SamePlaces(s: State, s': State, transit: set<Id>, transit': set<Id>)
    requires Placed(s, transit) && (forall p :: At(s', p) == At(s, p))
    requires s'.envs.Keys - transit' == s.envs.Keys - transit && transit' <= s'.envs.Keys
    requires forall p, x | x in At(s, p) :: Names(s', x, p)
    ensures Placed(s', transit')
  {
    hide At, Names;
    forall x | x in s'.envs && x !in transit' ensures exists p :: x in At(s', p) {
      assert x in s.envs.Keys - transit;
      var p :| x in At(s, p);
      assert x in At(s', p);
    }
    forall p, x | x in At(s', p) ensures x !in transit' && Names(s', x, p) {
      assert x in At(s, p) && Names(s, x, p);
      PlacedNames(s, transit, x, p);
      assert x in s.envs.Keys - transit;
    }
    forall p ensures Distinct(At(s', p)) {
      assert Distinct(At(s, p));
    }
  }

  lemma PlacedNames(s: State, transit: set<Id>, id: Id, place: Place)
    requires Placed(s, transit) && id in At(s, place)
    ensures id in s.envs && id !in transit && Names(s, id, place)
  {
  }

  /** clock_interrupt_handler: the promotion pass, the tick, and the yield of the running environment. */
  ghost function Tick(s: State): (r: State)
    requires Valid(s)
    ensures Valid(r)
  {
    var s1 := PromoteFrom(s, |s.ready| - 1);
    TickCountInv(s1, s.ticks + 1);
    var s2 := s1.(ticks := s.ticks + 1);
    if s.cur.Runs? then Schedule(s2) else s2
  }

  // ----- the promotion pass as a whole -----

  ghost predicate Starved(s: State, id: Id)
    requires id in s.envs
  {
    s.envs[id].status == Ready && s.envs[id].priority > 0 && s.ticks - s.envs[id].arrival >= s.thresh
  }

  /** A starved environment after one promotion. */
  function Raised(s: State, id: Id): Env
    requires id in s.envs
  {
    Env(Ready, s.envs[id].priority - 1, s.ticks)
  }

  /** `q` is a suffix of `r`: whoever was in the queue before is as close to its end as before. */
  ghost predicate Behind(q: seq<Id>, r: seq<Id>) {
    |q| <= |r| && r[|r| - |q|..] == q
  }

  /** The inner loop raises exactly the starved environments of its list, and they queue up behind the others. */
  lemma {:induction false} PromoteListEffect(s: State, q: seq<Id>, i: int)
    requires Valid(s) && 0 < i < |s.ready| && Distinct(q) && forall id | id in q :: id in s.ready[i]
    ensures var r := PromoteList(s, q, i);
            && (forall id | id in s.envs ::
                  r.envs[id] == if id in q && Starved(s, id) then Raised(s, id) else s.envs[id])
            && (forall j | 0 <= j < |s.ready| && j != i && j != i - 1 :: r.ready[j] == s.ready[j])
            && Behind(s.ready[i - 1], r.ready[i - 1])
    decreases |q|
  {
    hide Placed, At, Promote;
    if q != [] {
      InQueue(s, i, q[0]);
      PromoteInv(s, q[0], i);
      PromoteEffect(s, q[0], i);
      var s1 := Promote(s, q[0]);
      PromoteListEffect(s1, q[1..], i);
      var r := PromoteList(s1, q[1..], i);
      assert q[0] !in q[1..];
      BehindTrans(s.ready[i - 1], s1.ready[i - 1], r.ready[i - 1]);
      hide PromoteList, Behind;
      forall id | id in s.envs ensures r.envs[id] == if id in q && Starved(s, id) then Raised(s, id) else s.envs[id] {
        assert id in q <==> id == q[0] || id in q[1..];
      }
    }
  }

  /** One visit. */
  lemma PromoteEffect(s: State, id: Id, i: int)
    requires Valid(s) && 0 < i < |s.ready| && id in s.ready[i]
    ensures id in s.envs && s.envs[id].status == Ready && s.envs[id].priority == i
    ensures var r := Promote(s, id);
            && SameRest(s, r)
            && r.envs == s.envs[id := if Starved(s, id) then Raised(s, id) else s.envs[id]]
            && (forall j | 0 <= j < |s.ready| && j != i && j != i - 1 :: r.ready[j] == s.ready[j])
            && Behind(s.ready[i - 1], r.ready[i - 1])
  {
    hide Placed, At;
    InQueue(s, i, id);
  }

  lemma BehindTrans(a: seq<Id>, b: seq<Id>, c: seq<Id>)
    requires Behind(a, b) && Behind(b, c)
    ensures Behind(a, c)
  {
    assert c[|c| - |a|..] == c[|c| - |b|..][|b| - |a|..];
  }

  /** From `s` to `r` exactly the starved at levels up to `i` were raised, by one level. */
  ghost predicate RaisedUpTo(s: State, r: State, i: int) {
    && SameRest(s, r)
    && forall id | id in s.envs ::
         r.envs[id] == if Starved(s, id) && s.envs[id].priority <= i then Raised(s, id) else s.envs[id]
  }

  /** With a threshold of at least one tick, the pass from level `i` down raises the starved by one level, once. */
  lemma {:induction false} PromoteFromEffect(s: State, i: int)
    requires Valid(s) && i < |s.ready| && s.thresh >= 1
    ensures RaisedUpTo(s, PromoteFrom(s, i), i) && Behind(s.ready[0], PromoteFrom(s, i).ready[0])
    decreases i
  {
    hide Placed, At, Behind, RaisedUpTo;
    BehindRefl(s.ready[0]);
    if i > 0 {
      ReadyNoDups(s, i);
      PromoteListEffect(s, s.ready[i], i);
      var s1 := PromoteList(s, s.ready[i], i);
      PromoteFromEffect(s1, i - 1);
      LevelEffect(s, s1, PromoteFrom(s1, i - 1), i);
      BehindTrans(s.ready[0], s1.ready[0], PromoteFrom(s1, i - 1).ready[0]);
    } else {
      NoneRaised(s, i);
    }
  }

  lemma BehindRefl(q: seq<Id>)
    ensures Behind(q, q)
  {
  }

  lemma NoneRaised(s: State, i: int)
    requires i <= 0
    ensures RaisedUpTo(s, s, i)
  {
  }

  /** One level, then the levels below: nobody is raised twice because the wait of the raised starts again. */
  lemma LevelEffect(s: State, s1: State, r: State, i: int)
    requires Valid(s) && 0 < i < |s.ready| && s.thresh >= 1 && SameRest(s, s1) && RaisedUpTo(s1, r, i - 1)
    requires forall id | id in s.envs ::
               s1.envs[id] == if id in s.ready[i] && Starved(s, id) then Raised(s, id) else s.envs[id]
    ensures RaisedUpTo(s, r, i)
  {
    hide Placed, At;
    forall id | id in s.envs
      ensures r.envs[id] == if Starved(s, id) && s.envs[id].priority <= i then Raised(s, id) else s.envs[id]
    {
      InQueueIff(s, i, id);
    }
  }

  lemma InQueueIff(s: State, i: int, id: Id)
    requires Valid(s) && 0 <= i < |s.ready| && id in s.envs
    ensures id in s.ready[i] <==> s.envs[id].status == Ready && s.envs[id].priority == i
  {
    if id in s.ready[i] {
      InQueue(s, i, id);
    } else if s.envs[id].status == Ready {
      var p :| id in At(s, p);
      assert Names(s, id, p);
    }
  }

  /**
   * The whole pass: although it takes environments off the very queue it is walking, every starved environment
   * moves up exactly one level and its wait starts again; every other one stays as it was.
   */
  lemma PassRaisesTheStarved(s: State)
    requires Valid(s) && s.thresh >= 1
    ensures var r := PromoteFrom(s, |s.ready| - 1);
            forall id | id in s.envs :: r.envs[id] == if Starved(s, id) then Raised(s, id) else s.envs[id]
  {
    PromoteFromEffect(s, |s.ready| - 1);
  }

  /** Whoever waits began to wait at a tick that has come. */
  ghost predicate Timely(s: State) {
    forall id | id in s.envs && s.envs[id].status == Ready :: s.envs[id].arrival <= s.ticks
  }

  lemma PromoteTimely(s: State, id: Id)
    requires id in s.envs && 0 <= s.envs[id].priority < |s.ready| && Timely(s)
    ensures Timely(Promote(s, id))
  {
  }

  lemma {:induction false} ListTimely(s: State, q: seq<Id>, i: int)
    requires Valid(s) && 0 < i < |s.ready| && Distinct(q) && (forall id | id in q :: id in s.ready[i]) && Timely(s)
    ensures Timely(PromoteList(s, q, i))
    decreases |q|
  {
    hide Placed, At, Promote, Timely;
    if q != [] {
      PromoteInv(s, q[0], i);
      PromoteTimely(s, q[0]);
      ListTimely(Promote(s, q[0]), q[1..], i);
    }
  }

  lemma {:induction false} PassTimely(s: State, i: int)
    requires Valid(s) && i < |s.ready| && Timely(s)
    ensures Timely(PromoteFrom(s, i))
    decreases i
  {
    hide Placed, At, Timely;
    if i > 0 {
      ReadyNoDups(s, i);
      ListTimely(s, s.ready[i], i);
      PassTimely(PromoteList(s, s.ready[i], i), i - 1);
    }
  }

  /** From `s` to `r` everybody who is starved at a level up to `i` went to level 0. */
  ghost predicate CarriedUpTo(s: State, r: State, i: int) {
    && SameRest(s, r)
    && forall id | id in s.envs ::
         r.envs[id] == if Starved(s, id) && s.envs[id].priority <= i then Env(Ready, 0, s.ticks) else s.envs[id]
  }

  lemma LevelCarried(s: State, s1: State, r: State, i: int)
    requires Valid(s) && 0 < i < |s.ready| && s.thresh == 0 && SameRest(s, s1) && CarriedUpTo(s1, r, i - 1)
    requires forall id | id in s.envs ::
               s1.envs[id] == if id in s.ready[i] && Starved(s, id) then Raised(s, id) else s.envs[id]
    ensures CarriedUpTo(s, r, i)
  {
    hide Placed, At;
    forall id | id in s.envs
      ensures r.envs[id] == if Starved(s, id) && s.envs[id].priority <= i then Env(Ready, 0, s.ticks) else s.envs[id]
    {
      InQueueIff(s, i, id);
    }
  }

  lemma NoneCarried(s: State, i: int)
    requires i <= 0
    ensures CarriedUpTo(s, s, i)
  {
  }

  /** With threshold 0 the raised are starved again at once, so the pass carries everybody who waits to level 0. */
  lemma {:induction false} PassWithoutThreshold(s: State, i: int)
    requires Valid(s) && i < |s.ready| && s.thresh == 0 && Timely(s)
    ensures CarriedUpTo(s, PromoteFrom(s, i), i)
    decreases i
  {
    hide Placed, At, Timely, CarriedUpTo;
    if i > 0 {
      ReadyNoDups(s, i);
      ListTimely(s, s.ready[i], i);
      PromoteListEffect(s, s.ready[i], i);
      var s1 := PromoteList(s, s.ready[i], i);
      PassWithoutThreshold(s1, i - 1);
      LevelCarried(s, s1, PromoteFrom(s1, i - 1), i);
    } else {
      NoneCarried(s, i);
    }
  }

  /** "One level per tick" holds exactly when the threshold is positive or nobody waits below level 1. */
  lemma OneLevelExactly(s: State)
    requires Valid(s) && s.thresh >= 0
    requires Timely(s)
    ensures var r := PromoteFrom(s, |s.ready| - 1);
            (forall id | id in s.envs :: r.envs[id] == if Starved(s, id) then Raised(s, id) else s.envs[id])
            <==> s.thresh >= 1 || forall id | id in s.envs && s.envs[id].status == Ready :: s.envs[id].priority <= 1
  {
    hide Placed, At;
    var r := PromoteFrom(s, |s.ready| - 1);
    if s.thresh >= 1 {
      PassRaisesTheStarved(s);
    } else {
      PassWithoutThreshold(s, |s.ready| - 1);
      hide PromoteFrom, SameRest;
      if id :| id in s.envs && s.envs[id].status == Ready && s.envs[id].priority > 1 {
        assert r.envs[id] != Raised(s, id);
      }
    }
  }

  // ----- the other operations -----

  /** sched_run_env. */
  ghost function RunEnv(s: State, id: Id): (r: State)
    requires Valid(s)
    ensures Valid(r)
  {
    if id !in s.newQ then s
    else
      RemoveNewInv(s, id);
      InsertReadyInv(RemoveNew(s, id), {id}, id);
      assert {id} - {id} == {};
      InsertReady(RemoveNew(s, id), id)
  }

  /** sched_run_all: oldest first. */
  ghost function RunAll(s: State): (r: State)
    requires Valid(s)
    ensures Valid(r)
    decreases |s.newQ|
  {
    if s.newQ == [] then s
    else
      assert Last(s.newQ) in s.newQ;
      RunAll(RunEnv(s, Last(s.newQ)))
  }

  function TakeChan(s: State, c: int, id: Id): State
    requires id in s.envs && 0 <= c < |s.chans|
  {
    SetEnv(s, id, s.envs[id].(status := Unknown)).(chans := s.chans[c := Without(s.chans[c], id)])
  }

  lemma TakeChanInv(s: State, c: int, id: Id)
    requires Valid(s) && 0 <= c < |s.chans| && id in s.chans[c]
    ensures id in s.envs && Inv(TakeChan(s, c, id), {id})
  {
    hide Placed, Without;
    assert id in At(s, InChan(c));
    PlacedNames(s, {}, id, InChan(c));
    var s' := TakeChan(s, c, id);
    assert forall p | p != InChan(c) :: At(s', p) == At(s, p);
    assert At(s', InChan(c)) == Without(At(s, InChan(c)), id);
    hide At;
    TakeOut(s, s', {}, id, InChan(c));
    assert {} + {id} == {id};
  }

  /** sleep: the running environment blocks on channel `c` and leaves the CPU. */
  ghost function Sleep(s: State, c: int): (r: State)
    requires Valid(s) && s.cur.Runs? && 0 <= c < |s.chans|
    ensures Valid(r)
  {
    var id := s.cur.id;
    LeaveCpuInv(s);
    ChangeInv(LeaveCpu(s), id, s.envs[id].(status := Blocked));
    var s1 := SetEnv(LeaveCpu(s), id, s.envs[id].(status := Blocked));
    var s2 := s1.(chans := s1.chans[c := [id] + s1.chans[c]]);
    EnterChanInv(s1, c, id);
    s2
  }

  lemma EnterChanInv(s: State, c: int, id: Id)
    requires Inv(s, {id}) && 0 <= c < |s.chans| && id in s.envs && s.envs[id].status == Blocked
    ensures Valid(s.(chans := s.chans[c := [id] + s.chans[c]]))
  {
    var s' := s.(chans := s.chans[c := [id] + s.chans[c]]);
    assert forall p | p != InChan(c) :: At(s', p) == At(s, p);
    PutIn(s, s', {id}, id, InChan(c));
    assert {id} - {id} == {};
  }

  /** wakeup_one. */
  ghost function WakeOne(s: State, c: int): (r: State)
    requires Valid(s) && 0 <= c < |s.chans|
    ensures Valid(r)
  {
    if s.chans[c] == [] then s
    else
      var id := Last(s.chans[c]);
      assert id in s.chans[c];
      TakeChanInv(s, c, id);
      InsertReadyInv(TakeChan(s, c, id), {id}, id);
      assert {id} - {id} == {};
      InsertReady(TakeChan(s, c, id), id)
  }

  /** wakeup_all: oldest first, until the channel is empty. */
  ghost function WakeAll(s: State, c: int): (r: State)
    requires Valid(s) && 0 <= c < |s.chans|
    ensures Valid(r)
    decreases if 0 <= c < |s.chans| then |s.chans[c]| else 0
  {
    if s.chans[c] == [] then s
    else
      assert Last(s.chans[c]) in s.chans[c];
      WakeAll(WakeOne(s, c), c)
  }

  lemma WaitingReady(s: State, id: Id)
    requires Valid(s) && id in s.envs && s.envs[id].status == Ready
    ensures id in At(s, InReady(s.envs[id].priority)) && Inv(RemoveReady(s, id), {id})
  {
    InQueueIff(s, s.envs[id].priority, id);
    RemoveReadyInv(s, {}, id);
    assert {} + {id} == {id};
  }

  /** env_set_priority: a waiting environment changes queues, any other only its field. */
  ghost function SetPriority(s: State, id: Id, priority: int): (r: State)
    requires Valid(s) && id in s.envs && 0 <= priority < |s.ready|
    ensures Valid(r)
  {
    if s.envs[id].status == Ready then
      WaitingReady(s, id);
      var s1 := RemoveReady(s, id);
      ChangeInv(s1, id, s1.envs[id].(priority := priority));
      InsertReadyInv(SetEnv(s1, id, s1.envs[id].(priority := priority)), {id}, id);
      assert {id} - {id} == {};
      InsertReady(SetEnv(s1, id, s1.envs[id].(priority := priority)), id)
    else
      RepriorityInv(s, id, priority);
      SetEnv(s, id, s.envs[id].(priority := priority))
  }

  lemma RepriorityInv(s: State, id: Id, priority: int)
    requires Valid(s) && id in s.envs && s.envs[id].status != Ready && 0 <= priority < |s.ready|
    ensures Valid(SetEnv(s, id, s.envs[id].(priority := priority)))
  {
    var s' := SetEnv(s, id, s.envs[id].(priority := priority));
    SameAt(s, s');
    hide At, Placed;
    forall p, x | x in At(s, p) ensures Names(s', x, p) {
      PlacedNames(s, {}, x, p);
    }
    SamePlaces(s, s', {}, {});
  }

  function Freed(s: State, id: Id): State {
    s.(envs := s.envs - {id})
  }

  /** The environment in transit ceases to exist. */
  lemma FreeInv(s: State, id: Id)
    requires Inv(s, {id})
    ensures Valid(Freed(s, id))
  {
    var s' := Freed(s, id);
    SameAt(s, s');
    hide At;
    forall p, x | x in At(s, p) ensures Names(s', x, p) {
      PlacedNames(s, {id}, x, p);
    }
    SamePlaces(s, s', {id}, {});
  }

  /** sched_exit_env, for an environment that is not new: from a ready queue or from the CPU. */
  ghost function ExitEnv(s: State, id: Id): (r: State)
    requires Valid(s) && id in s.envs && s.envs[id].status != New
    ensures Valid(r)
  {
    if s.envs[id].status == Ready then
      WaitingReady(s, id);
      InsertExitInv(RemoveReady(s, id), id);
      InsertExit(RemoveReady(s, id), id)
    else if s.cur == Runs(id) then
      LeaveCpuInv(s);
      InsertExitInv(LeaveCpu(s), id);
      InsertExit(LeaveCpu(s), id)
    else s
  }

  /** sched_kill_env: from the new queue, a ready queue, the exit queue or the CPU, and then freed. */
  ghost function KillEnv(s: State, id: Id): (r: State)
    requires Valid(s) && id in s.envs
    ensures Valid(r)
  {
    if id in s.newQ then
      RemoveNewInv(s, id);
      FreeInv(RemoveNew(s, id), id);
      Freed(RemoveNew(s, id), id)
    else if s.envs[id].status == Ready then
      WaitingReady(s, id);
      FreeInv(RemoveReady(s, id), id);
      Freed(RemoveReady(s, id), id)
    else if id in s.exitQ then
      RemoveExitInv(s, id);
      FreeInv(RemoveExit(s, id), id);
      Freed(RemoveExit(s, id), id)
    else if s.cur == Runs(id) then
      LeaveCpuInv(s);
      FreeInv(LeaveCpu(s), id);
      Freed(LeaveCpu(s), id)
    else s
  }

  /** sched_new_env. */
  ghost function NewEnv(s: State, id: Id, priority: int): (r: State)
    requires Valid(s) && id !in s.envs && 0 <= priority < |s.ready|
    ensures Valid(r)
  {
    var s1 := SetEnv(s, id, Env(New, priority, 0));
    NewInv(s, s1, id);
    s1.(newQ := [id] + s.newQ)
  }

  lemma NewInv(s: State, s1: State, id: Id)
    requires Valid(s) && id !in s.envs
    requires exists p :: 0 <= p < |s.ready| && s1 == SetEnv(s, id, Env(New, p, 0))
    ensures Valid(s1.(newQ := [id] + s.newQ))
  {
    SameAt(s, s1);
    forall p, x | x in At(s, p) ensures Names(s1, x, p) {
      PlacedNames(s, {}, x, p);
    }
    SamePlaces(s, s1, {}, {id});
    PutIn(s1, s1.(newQ := [id] + s.newQ), {id}, id, InNew);
    assert {id} - {id} == {};
  }
}
