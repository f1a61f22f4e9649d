/** The lock manager itself: a map of active grants and a waiting queue changed in place.
    Each critical section is one method, and each is shown to be one step of ClaimsProtocol,
    so that every state the manager reaches is one the protocol's theorems speak about. */
module ClaimsManager {
  import opened Resources
  import opened ClaimsProtocol

  /** A parked request; `who` stands for the identity of its channel. */
  datatype Waiter = Waiter(who: nat, resources: Request)

  // ---- How the fields stand for a protocol state ----

  /** The waiting requests from one arrival on, in arrival order. */
  function Waiting(s: State, from: nat): seq<Waiter>
    requires |s.requests| == |s.phase| && from <= |s.phase|
    decreases |s.phase| - from
  {
    if from == |s.phase| then []
    else if s.phase[from].Queued? then [Waiter(from, s.requests[from])] + Waiting(s, from + 1)
    else Waiting(s, from + 1)
  }

  ghost predicate HeldBy(s: State, id: nat, i: nat) {
    i < |s.phase| && s.phase[i].Live() && s.phase[i].id == id
  }

  ghost function LiveIds(s: State): set<nat> {
    set i | 0 <= i < |s.phase| && s.phase[i].Live() :: s.phase[i].id
  }

  ghost function Holder(s: State, id: nat): (i: nat)
    requires id in LiveIds(s)
    ensures HeldBy(s, id, i)
  {
    var i: nat :| i < |s.phase| && s.phase[i].Live() && s.phase[i].id == id;
    i
  }

  /** The live grants by id. */
  ghost function LiveGrants(s: State): map<nat, Request>
    requires |s.requests| == |s.phase|
  {
    map id | id in LiveIds(s) :: s.requests[Holder(s, id)]
  }

  lemma LiveGrantsHas(s: State, i: nat)
    requires |s.requests| == |s.phase| && DistinctIds(s) && i < |s.phase| && s.phase[i].Live()
    ensures s.phase[i].id in LiveGrants(s) && Holder(s, s.phase[i].id) == i && LiveGrants(s)[s.phase[i].id] == s.requests[i]
  {
    assert s.phase[i].id in LiveIds(s);
  }

  /** The channels that hold a grant not taken yet. */
  function FullChannels(s: State): map<nat, nat> {
    map i: nat | i < |s.phase| && s.phase[i].Ready? :: s.phase[i].id
  }

  function Without<T>(q: seq<T>, index: nat): seq<T>
    requires index < |q|
  {
    q[..index] + q[index + 1..]
  }

  lemma {:induction false} WaitingInOrder(s: State, from: nat)
    requires s.Shaped() && from <= |s.phase|
    ensures forall w | w in Waiting(s, from) :: from <= w.who < |s.phase| && s.phase[w.who].Queued? && w.resources == s.requests[w.who]
    ensures forall j, k | 0 <= j < k < |Waiting(s, from)| :: Waiting(s, from)[j].who < Waiting(s, from)[k].who
    decreases |s.phase| - from
  {
    if from < |s.phase| {
      WaitingInOrder(s, from + 1);
    }
  }

  lemma {:induction false} WaitingHasAll(s: State, from: nat, i: nat)
    requires s.Shaped() && from <= i < |s.phase| && s.phase[i].Queued?
    ensures Waiter(i, s.requests[i]) in Waiting(s, from)
    decreases i - from
  {
    if from < i {
      WaitingHasAll(s, from + 1, i);
    }
  }

  lemma {:induction false} WaitingIgnores(s: State, from: nat, i: nat, p: Phase)
    requires s.Shaped() && from <= |s.phase| && i < |s.phase| && !p.Queued?
    requires i < from || !s.phase[i].Queued?
    ensures Waiting(SetPhase(s, i, p), from) == Waiting(s, from)
    decreases |s.phase| - from
  {
    if from < |s.phase| {
      WaitingIgnores(s, from + 1, i, p);
    }
  }

  lemma WithoutBehind<T>(head: T, rest: seq<T>, index: nat)
    requires index < |rest|
    ensures Without([head] + rest, index + 1) == [head] + Without(rest, index)
  {
    assert ([head] + rest)[..index + 1] == [head] + rest[..index];
    assert ([head] + rest)[index + 2..] == rest[index + 1..];
  }

  lemma {:induction false} WaitingRemoves(s: State, from: nat, index: nat, p: Phase)
    requires s.Shaped() && from <= |s.phase| && index < |Waiting(s, from)| && !p.Queued?
    ensures Waiting(s, from)[index].who < |s.phase|
    ensures Waiting(SetPhase(s, Waiting(s, from)[index].who, p), from) == Without(Waiting(s, from), index)
    decreases |s.phase| - from
  {
    WaitingInOrder(s, from);
    var who := Waiting(s, from)[index].who;
    var r := SetPhase(s, who, p);
    assert Waiting(s, from)[index] in Waiting(s, from);
    if from == who {
      WaitingIgnores(s, from + 1, from, p);
      assert Waiting(s, from)[0].who == from;
      assert Without(Waiting(s, from), 0) == Waiting(s, from + 1);
    } else if s.phase[from].Queued? {
      var rest := Waiting(s, from + 1);
      assert Waiting(s, from) == [Waiter(from, s.requests[from])] + rest;
      WaitingRemoves(s, from + 1, index - 1, p);
      assert Waiting(r, from) == [Waiter(from, s.requests[from])] + Waiting(r, from + 1);
      WithoutBehind(Waiter(from, s.requests[from]), rest, index - 1);
    } else {
      WaitingRemoves(s, from + 1, index, p);
    }
  }

  lemma {:induction false} WaitingAppends(s: State, from: nat, wanted: Request, p: Phase)
    requires s.Shaped() && from <= |s.phase|
    ensures Waiting(Arrive(s, wanted, p), from) ==
      Waiting(s, from) + if p.Queued? then [Waiter(|s.phase|, wanted)] else []
    decreases |s.phase| - from
  {
    if from < |s.phase| {
      WaitingAppends(s, from + 1, wanted, p);
    } else {
      assert Waiting(Arrive(s, wanted, p), from + 1) == [];
    }
  }

  /** A new grant id is none of the old ones. */
  lemma GrantIdIsNew(s: State, i: nat, p: Phase)
    requires DistinctIds(s) && i < |s.phase| && !s.phase[i].Granted() && p.Granted() && p.id == s.next + 1
    ensures DistinctIds(State(s.clash, s.requests, s.phase[i := p], s.next + 1))
  {
  }

  lemma SameIdStaysDistinct(s: State, i: nat, p: Phase)
    requires DistinctIds(s) && i < |s.phase|
    requires p.Granted() ==> s.phase[i].Granted() && p.id == s.phase[i].id
    ensures DistinctIds(SetPhase(s, i, p))
  {
  }

  // ---- How a change of phase shows in the fields ----

  lemma LiveGrantsAre(s: State, m: map<nat, Request>)
    requires |s.requests| == |s.phase| && DistinctIds(s)
    requires forall k | 0 <= k < |s.phase| && s.phase[k].Live() :: s.phase[k].id in m && m[s.phase[k].id] == s.requests[k]
    requires forall id | id in m :: exists k: nat :: HeldBy(s, id, k)
    ensures m == LiveGrants(s)
  {
    forall id | id in m
      ensures id in LiveIds(s) && m[id] == s.requests[Holder(s, id)]
    {
      var k: nat :| HeldBy(s, id, k);
      assert s.phase[k].id in LiveIds(s);
    }
    forall id | id in LiveIds(s)
      ensures id in m
    {
      var k := Holder(s, id);
    }
  }

  lemma GrantAddsLive(s: State, r: State, i: nat, p: Phase)
    requires |s.requests| == |s.phase| && DistinctIds(s) && i < |s.phase| && !s.phase[i].Granted() && p.Live() && p.id == s.next + 1
    requires r == State(s.clash, s.requests, s.phase[i := p], s.next + 1) && DistinctIds(r)
    ensures LiveGrants(r) == LiveGrants(s)[p.id := s.requests[i]]
  {
    var m := LiveGrants(s)[p.id := s.requests[i]];
    forall k | 0 <= k < |r.phase| && r.phase[k].Live()
      ensures r.phase[k].id in m && m[r.phase[k].id] == r.requests[k]
    {
      if k != i {
        LiveGrantsHas(s, k);
        assert s.phase[k].id <= s.next;
      }
    }
    forall id | id in m
      ensures exists k: nat :: HeldBy(r, id, k)
    {
      if id == p.id {
        assert HeldBy(r, id, i);
      } else {
        assert HeldBy(r, id, Holder(s, id));
      }
    }
    LiveGrantsAre(r, m);
  }

  lemma ReleaseDropsLive(s: State, i: nat)
    requires |s.requests| == |s.phase| && DistinctIds(s) && i < |s.phase| && s.phase[i].Live()
    requires DistinctIds(SetPhase(s, i, Released(s.phase[i].id)))
    ensures LiveGrants(SetPhase(s, i, Released(s.phase[i].id))) == LiveGrants(s) - {s.phase[i].id}
  {
    var r := SetPhase(s, i, Released(s.phase[i].id));
    var m := LiveGrants(s) - {s.phase[i].id};
    forall k | 0 <= k < |r.phase| && r.phase[k].Live()
      ensures r.phase[k].id in m && m[r.phase[k].id] == r.requests[k]
    {
      LiveGrantsHas(s, k);
    }
    forall id | id in m
      ensures exists k: nat :: HeldBy(r, id, k)
    {
      assert HeldBy(r, id, Holder(s, id));
    }
    LiveGrantsAre(r, m);
  }

  lemma GrantShows(s: State, i: nat, p: Phase)
    requires s.Shaped() && DistinctIds(s) && i < |s.phase| && !s.phase[i].Granted() && p.Live() && p.id == s.next + 1
    ensures var r := State(s.clash, s.requests, s.phase[i := p], s.next + 1);
      DistinctIds(r) && LiveGrants(r) == LiveGrants(s)[p.id := s.requests[i]] &&
      FullChannels(r) == if p.Ready? then FullChannels(s)[i := p.id] else FullChannels(s)
  {
    var r := State(s.clash, s.requests, s.phase[i := p], s.next + 1);
    GrantIdIsNew(s, i, p);
    GrantAddsLive(s, r, i, p);
  }

  lemma HandOverShows(s: State, i: nat, p: Phase)
    requires s.Shaped() && DistinctIds(s) && i < |s.phase| && s.phase[i].Ready? && (p.Holding? || p.Retiring?) && p.id == s.phase[i].id
    ensures var r := SetPhase(s, i, p);
      DistinctIds(r) && LiveGrants(r) == LiveGrants(s) && FullChannels(r) == FullChannels(s) - {i} && Waiting(r, 0) == Waiting(s, 0)
  {
    var r := SetPhase(s, i, p);
    SameIdStaysDistinct(s, i, p);
    WaitingIgnores(s, 0, i, p);
    HandsOver(s, i, p, r);
    SameLiveGrants(s, r);
  }

  lemma HandsOver(s: State, i: nat, p: Phase, r: State)
    requires s.Shaped() && i < |s.phase| && s.phase[i].Ready? && (p.Holding? || p.Retiring?) && p.id == s.phase[i].id
    requires r == SetPhase(s, i, p)
    ensures FullChannels(r) == FullChannels(s) - {i}
    ensures forall k | 0 <= k < |s.phase| :: SameHold(s, r, k)
  {
  }

  ghost predicate SameHold(s: State, r: State, k: nat)
    requires |s.requests| == |s.phase| && |r.requests| == |r.phase| && k < |s.phase| && k < |r.phase|
  {
    s.requests[k] == r.requests[k] && s.phase[k].Live() == r.phase[k].Live() &&
    (s.phase[k].Live() ==> s.phase[k].id == r.phase[k].id)
  }

  lemma SameLiveGrants(s: State, r: State)
    requires |s.requests| == |s.phase| <= |r.phase| == |r.requests| && DistinctIds(s) && DistinctIds(r)
    requires forall k | 0 <= k < |s.phase| :: SameHold(s, r, k)
    requires forall k | |s.phase| <= k < |r.phase| :: !r.phase[k].Live()
    ensures LiveGrants(s) == LiveGrants(r)
  {
    var m := LiveGrants(s);
    forall k | 0 <= k < |r.phase| && r.phase[k].Live()
      ensures r.phase[k].id in m && m[r.phase[k].id] == r.requests[k]
    {
      assert k < |s.phase| && SameHold(s, r, k);
      LiveGrantsHas(s, k);
    }
    forall id | id in m
      ensures exists k: nat :: HeldBy(r, id, k)
    {
      assert SameHold(s, r, Holder(s, id));
      assert HeldBy(r, id, Holder(s, id));
    }
    LiveGrantsAre(r, m);
  }

  lemma ReleaseShows(s: State, i: nat)
    requires s.Shaped() && DistinctIds(s) && i < |s.phase| && (s.phase[i].Holding? || s.phase[i].Retiring?)
    ensures var r := SetPhase(s, i, Released(s.phase[i].id));
      DistinctIds(r) && LiveGrants(r) == LiveGrants(s) - {s.phase[i].id} && FullChannels(r) == FullChannels(s) && Waiting(r, 0) == Waiting(s, 0)
  {
    SameIdStaysDistinct(s, i, Released(s.phase[i].id));
    WaitingIgnores(s, 0, i, Released(s.phase[i].id));
    ReleaseDropsLive(s, i);
  }

  /** A grant given back is under its id no more. */
  lemma ReleasedIsGone(s: State, i: nat)
    requires s.Shaped() && DistinctIds(s) && i < |s.phase| && s.phase[i].Released?
    ensures s.phase[i].id !in LiveGrants(s)
  {
  }

  lemma WaiterIsQueued(s: State, index: nat)
    requires s.Shaped() && index < |Waiting(s, 0)|
    ensures var w := Waiting(s, 0)[index];
      w.who < |s.phase| && s.phase[w.who].Queued? && w.resources == s.requests[w.who]
  {
    WaitingInOrder(s, 0);
    assert Waiting(s, 0)[index] in Waiting(s, 0);
  }

  /** The queue of any state in which just this waiter waits no more. */
  lemma WaitingShortens(s: State, index: nat, p: Phase, r: State)
    requires s.Shaped() && r.Shaped() && index < |Waiting(s, 0)| && Waiting(s, 0)[index].who < |s.phase| && !p.Queued?
    requires r.phase == s.phase[Waiting(s, 0)[index].who := p] && r.requests == s.requests
    ensures Waiting(r, 0) == Without(Waiting(s, 0), index)
  {
    WaitingRemoves(s, 0, index, p);
    SameWaiting(r, SetPhase(s, Waiting(s, 0)[index].who, p), 0);
  }

  lemma LeaveShows(s: State, index: nat)
    requires s.Shaped() && DistinctIds(s) && index < |Waiting(s, 0)|
    ensures var i := Waiting(s, 0)[index].who;
      i < |s.phase| && s.phase[i].Queued? &&
      var r := SetPhase(s, i, Cancelled);
      DistinctIds(r) && LiveGrants(r) == LiveGrants(s) && FullChannels(r) == FullChannels(s) && Waiting(r, 0) == Without(Waiting(s, 0), index)
  {
    WaiterIsQueued(s, index);
    var i := Waiting(s, 0)[index].who;
    var r := SetPhase(s, i, Cancelled);
    SameIdStaysDistinct(s, i, Cancelled);
    WaitingShortens(s, index, Cancelled, r);
    LeavesUngranted(s, i, r);
    SameLiveGrants(s, r);
  }

  lemma LeavesUngranted(s: State, i: nat, r: State)
    requires s.Shaped() && i < |s.phase| && s.phase[i].Queued? && r == SetPhase(s, i, Cancelled)
    ensures FullChannels(r) == FullChannels(s)
    ensures forall k | 0 <= k < |s.phase| :: SameHold(s, r, k)
  {
  }

  lemma DeliverShows(s: State, index: nat)
    requires s.Shaped() && DistinctIds(s) && index < |Waiting(s, 0)|
    ensures var w := Waiting(s, 0)[index];
      w.who < |s.phase| && s.phase[w.who].Queued? && w.resources == s.requests[w.who] &&
      var r := Deliver(s, w.who);
      DistinctIds(r) && LiveGrants(r) == LiveGrants(s)[s.next + 1 := w.resources] &&
      FullChannels(r) == FullChannels(s)[w.who := s.next + 1] && Waiting(r, 0) == Without(Waiting(s, 0), index)
  {
    WaiterIsQueued(s, index);
    var w, p := Waiting(s, 0)[index], Ready(s.next + 1);
    GrantShows(s, w.who, p);
    WaitingShortens(s, index, p, Deliver(s, w.who));
  }

  lemma {:induction false} SameWaiting(s: State, r: State, from: nat)
    requires s.Shaped() && r.Shaped() && from <= |s.phase| && s.phase == r.phase && s.requests == r.requests
    ensures Waiting(s, from) == Waiting(r, from)
    decreases |s.phase| - from
  {
    if from < |s.phase| {
      SameWaiting(s, r, from + 1);
    }
  }

  lemma ArriveQueuedShows(s: State, wanted: Request)
    requires s.Shaped() && DistinctIds(s)
    ensures var r := Arrive(s, wanted, Queued);
      DistinctIds(r) && FullChannels(r) == FullChannels(s) && LiveGrants(r) == LiveGrants(s) &&
      Waiting(r, 0) == Waiting(s, 0) + [Waiter(|s.phase|, wanted)]
  {
    WaitingAppends(s, 0, wanted, Queued);
    var r := Arrive(s, wanted, Queued);
    ArrivesUngranted(s, wanted, r);
    SameLiveGrants(s, r);
  }

  lemma ArrivesUngranted(s: State, wanted: Request, r: State)
    requires s.Shaped() && DistinctIds(s) && r == Arrive(s, wanted, Queued)
    ensures DistinctIds(r) && FullChannels(r) == FullChannels(s)
    ensures forall k | 0 <= k < |s.phase| :: SameHold(s, r, k)
    ensures forall k | |s.phase| <= k < |r.phase| :: !r.phase[k].Live()
  {
  }

  lemma ArriveGrantedShows(s: State, wanted: Request)
    requires s.Shaped() && DistinctIds(s)
    ensures var r := Arrive(s, wanted, Holding(s.next + 1));
      DistinctIds(r) && FullChannels(r) == FullChannels(s) && Waiting(r, 0) == Waiting(s, 0) &&
      LiveGrants(r) == LiveGrants(s)[s.next + 1 := wanted]
  {
    var q, p := Arrive(s, wanted, Queued), Holding(s.next + 1);
    ArriveQueuedShows(s, wanted);
    WaitingAppends(s, 0, wanted, p);
    assert Waiting(s, 0) + [] == Waiting(s, 0);
    GrantShows(q, |s.phase|, p);
    assert Arrive(s, wanted, p) == State(q.clash, q.requests, q.phase[|s.phase| := p], q.next + 1);
  }

  predicate ConflictsActive(clash: (Request, Request) -> bool, active: map<nat, Request>, requested: Request) {
    exists id | id in active :: clash(requested, active[id])
  }

  predicate ConflictsQueued(clash: (Request, Request) -> bool, queue: seq<Waiter>, requested: Request) {
    exists j | 0 <= j < |queue| :: clash(requested, queue[j].resources)
  }

  lemma ScansFindOnlyBlockers(s: State, index: nat, i: nat)
    requires s.Shaped() && DistinctIds(s) && i < |s.phase| && s.phase[i].Queued? && index <= |Waiting(s, 0)|
    requires forall j | 0 <= j < |Waiting(s, 0)| :: Waiting(s, 0)[j].who < i <==> j < index
    requires ConflictsActive(s.clash, LiveGrants(s), s.requests[i]) || ConflictsQueued(s.clash, Waiting(s, 0)[..index], s.requests[i])
    ensures Blocked(s, i)
  {
    var queue, active := Waiting(s, 0), LiveGrants(s);
    var k: nat;
    if ConflictsActive(s.clash, active, s.requests[i]) {
      var id :| id in active && s.clash(s.requests[i], active[id]);
      k := Holder(s, id);
    } else {
      var j :| 0 <= j < index && s.clash(s.requests[i], queue[..index][j].resources);
      WaitingInOrder(s, 0);
      assert queue[j] in queue;
      k := queue[j].who;
    }
    assert Blocks(s, k, i);
  }

  lemma ScansFindAllBlockers(s: State, index: nat, i: nat)
    requires s.Shaped() && DistinctIds(s) && i < |s.phase| && s.phase[i].Queued? && index <= |Waiting(s, 0)|
    requires forall j | 0 <= j < |Waiting(s, 0)| :: Waiting(s, 0)[j].who < i <==> j < index
    requires Blocked(s, i)
    ensures ConflictsActive(s.clash, LiveGrants(s), s.requests[i]) || ConflictsQueued(s.clash, Waiting(s, 0)[..index], s.requests[i])
  {
    var queue, active := Waiting(s, 0), LiveGrants(s);
    var k :| 0 <= k < |s.phase| && Blocks(s, k, i);
    if s.phase[k].Live() {
      LiveGrantsHas(s, k);
    } else {
      WaitingHasAll(s, 0, k);
      var j :| 0 <= j < |queue| && queue[j] == Waiter(k, s.requests[k]);
      assert queue[..index][j] == queue[j];
    }
  }

  /** What the two scans of the code find is exactly what blocks a request in the protocol. */
  lemma ScansFindBlockers(s: State, index: nat, i: nat)
    requires s.Shaped() && DistinctIds(s) && i < |s.phase| && s.phase[i].Queued? && index <= |Waiting(s, 0)|
    requires forall j | 0 <= j < |Waiting(s, 0)| :: Waiting(s, 0)[j].who < i <==> j < index
    ensures Blocked(s, i) ==
      (ConflictsActive(s.clash, LiveGrants(s), s.requests[i]) || ConflictsQueued(s.clash, Waiting(s, 0)[..index], s.requests[i]))
  {
    if Blocked(s, i) {
      ScansFindAllBlockers(s, index, i);
    } else if ConflictsActive(s.clash, LiveGrants(s), s.requests[i]) || ConflictsQueued(s.clash, Waiting(s, 0)[..index], s.requests[i]) {
      ScansFindOnlyBlockers(s, index, i);
    }
  }

  /** Waiters before index arrived before `at`, the others from `at` on. */
  ghost predicate Window(s: State, index: nat, at: nat)
    requires |s.requests| == |s.phase|
  {
    index <= |Waiting(s, 0)| && at <= |s.phase| &&
    forall j | 0 <= j < |Waiting(s, 0)| :: Waiting(s, 0)[j].who < at <==> j < index
  }

  predicate Busy(clash: (Request, Request) -> bool, active: map<nat, Request>, ahead: seq<Waiter>, wanted: Request) {
    ConflictsActive(clash, active, wanted) || ConflictsQueued(clash, ahead, wanted)
  }

  /** One turn of the dispatch loop is one turn of the protocol's pass. */
  lemma LoopTurn(s: State, index: nat, at: nat)
    requires s.Shaped() && DistinctIds(s) && Window(s, index, at) && index < |Waiting(s, 0)|
    ensures var w := Waiting(s, 0)[index];
      w.who < |s.phase| &&
      if Busy(s.clash, LiveGrants(s), Waiting(s, 0)[..index], w.resources) then
        Dispatch(s, at) == Dispatch(s, w.who + 1) && Window(s, index + 1, w.who + 1)
      else
        Dispatch(s, at) == Dispatch(Deliver(s, w.who), w.who + 1) && Window(Deliver(s, w.who), index, w.who + 1)
  {
    var w := Waiting(s, 0)[index];
    WaitingInOrder(s, 0);
    DeliverShows(s, index);
    NoneBetween(s, index, at);
    DispatchSkips(s, at, w.who);
    ScansFindBlockers(s, index, w.who);
    if !Blocked(s, w.who) {
      var shorter := Without(Waiting(s, 0), index);
      assert forall j | 0 <= j < |shorter| :: shorter[j] == Waiting(s, 0)[if j < index then j else j + 1];
    }
  }

  lemma LoopEnds(s: State, at: nat)
    requires s.Shaped() && Window(s, |Waiting(s, 0)|, at)
    ensures Dispatch(s, at) == s
  {
    NoneBetween(s, |Waiting(s, 0)|, at);
    DispatchSkips(s, at, |s.phase|);
  }

  lemma SubmitDecides(s: State, wanted: Request)
    requires s.Shaped() && DistinctIds(s)
    ensures Step(s, Submit(wanted)) ==
      if Busy(s.clash, LiveGrants(s), Waiting(s, 0), wanted) then Arrive(s, wanted, Queued)
      else Arrive(s, wanted, Holding(s.next + 1))
  {
    var arrived := Arrive(s, wanted, Queued);
    ArriveQueuedShows(s, wanted);
    WaitingInOrder(s, 0);
    assert forall j | 0 <= j < |Waiting(s, 0)| :: Waiting(s, 0)[j] in Waiting(s, 0);
    ScansFindBlockers(arrived, |Waiting(s, 0)|, |s.phase|);
    assert Waiting(arrived, 0)[..|Waiting(s, 0)|] == Waiting(s, 0);
  }

  lemma {:induction false} DispatchSkips(s: State, at: nat, to: nat)
    requires s.Shaped() && at <= to <= |s.phase|
    requires forall i | at <= i < to :: !s.phase[i].Queued?
    ensures Dispatch(s, at) == Dispatch(s, to)
    decreases |s.phase| - at
  {
    if at < to {
      DispatchSkips(s, at + 1, to);
    }
  }

  lemma {:induction false} DispatchKeepsDistinct(s: State, i: nat)
    requires s.Shaped() && DistinctIds(s) && i <= |s.phase|
    ensures DistinctIds(Dispatch(s, i))
    decreases |s.phase| - i
  {
    if i < |s.phase| {
      DispatchKeepsDistinct(if s.phase[i].Queued? && !Blocked(s, i) then Deliver(s, i) else s, i + 1);
    }
  }

  lemma {:induction false} RunAppends(s: State, events: seq<Event>, e: Event)
    requires s.Shaped()
    ensures Run(s, events + [e]) == Step(Run(s, events), e)
    decreases |events|
  {
    if events == [] {
      assert [e][1..] == [];
      assert Run(Step(s, e), []) == Step(s, e);
      assert events + [e] == [e];
    } else {
      RunAppends(Step(s, events[0]), events[1..], e);
      assert (events + [e])[1..] == events[1..] + [e];
    }
  }

  /** With every waiter before index arriving before `at`, nobody waits between `at` and the next one. */
  lemma NoneBetween(s: State, index: nat, at: nat)
    requires s.Shaped() && index <= |Waiting(s, 0)| && at <= |s.phase|
    requires forall j | 0 <= j < |Waiting(s, 0)| :: Waiting(s, 0)[j].who < at <==> j < index
    ensures var to := if index < |Waiting(s, 0)| then Waiting(s, 0)[index].who else |s.phase|;
      forall i | at <= i < to && i < |s.phase| :: !s.phase[i].Queued?
  {
    WaitingInOrder(s, 0);
    var w := Waiting(s, 0);
    var to := if index < |w| then w[index].who else |s.phase|;
    assert forall j | 0 <= j < |w| :: w[j].who < at || w[j].who >= to;
    forall i | at <= i < to && i < |s.phase|
      ensures !s.phase[i].Queued?
    {
      if s.phase[i].Queued? {
        WaitingHasAll(s, 0, i);
      }
    }
  }

  function Clashing(): (seq<Resource>, seq<Resource>) -> bool {
    (a, b) => Conflict(a, b)
  }

  lemma ClashingSymmetric()
    ensures forall a, b :: Clashing()(a, b) == Clashing()(b, a)
  {
    forall a, b
      ensures Clashing()(a, b) == Clashing()(b, a)
    {
      ConflictSymmetric(a, b);
    }
  }

  ghost function Start(): (s: State)
    ensures Initial(s)
  {
    ClashingSymmetric();
    State(Clashing(), [], [], 0)
  }

  /** In every reachable state no two live grants cover a common location with one of them
      writing, whatever the working directory, provided their paths are anchored alike. */
  lemma NoSharedWrite(events: seq<Event>, cwd: seq<string>, i: nat, j: nat, a: Resource, b: Resource, place: Location)
    requires var s := Run(Start(), events);
      i < |s.phase| && j < |s.phase| && i != j && s.phase[i].Live() && s.phase[j].Live() &&
      a in s.requests[i] && b in s.requests[j]
    requires IsPathKind(a.kind) && IsPathKind(b.kind) ==> SameAnchor(a.path, b.path)
    requires Covers(cwd, a, place) && Covers(cwd, b, place)
    ensures a.access == Read && b.access == Read
  {
    var s := Run(Start(), events);
    RunKeepsInv(Start(), events);
    OverlapIsSharedLocation(cwd, a, b);
    assert !Conflict(s.requests[i], s.requests[j]);
    var x :| 0 <= x < |s.requests[i]| && s.requests[i][x] == a;
    var y :| 0 <= y < |s.requests[j]| && s.requests[j][y] == b;
    assert !Clash(s.requests[i][x], s.requests[j][y]);
  }

  class Claims {
    var active: map<nat, seq<Resource>>
    var queue: seq<Waiter>
    var next: nat
    /** Grants sent to a waiter's channel and not yet taken out of it. */
    var channels: map<nat, nat>
    ghost var log: State
    ghost var history: seq<Event>

    ghost predicate Matching()
      reads this
    {
      log.Shaped() && DistinctIds(log) && log.clash == Clashing() &&
      queue == Waiting(log, 0) && active == LiveGrants(log) && channels == FullChannels(log) && next == log.next
    }

    /** The fields stand for a state the protocol reaches from the empty one. */
    ghost predicate Valid()
      reads this
    {
      Matching() && log == Run(Start(), history)
    }

    constructor ()
      ensures Valid() && history == []
    {
      active := map[];
      queue := [];
      next := 0;
      channels := map[];
      log := Start();
      history := [];
    }

    method ScanActive(requested: seq<Resource>) returns (conflict: bool)
      ensures conflict == ConflictsActive(Clashing(), active, requested)
    {
      var ids := active.Keys;
      while ids != {}
        invariant ids <= active.Keys
        invariant forall id | id in active && id !in ids :: !Conflict(requested, active[id])
        decreases |ids|
      {
        var id :| id in ids;
        var clash := SetsConflict(requested, active[id]);
        if clash {
          assert Clashing()(requested, active[id]);
          return true;
        }
        ids := ids - {id};
      }
      return false;
    }

    method ScanEarlierQueued(index: nat, requested: seq<Resource>) returns (conflict: bool)
      requires index <= |queue|
      ensures conflict == ConflictsQueued(Clashing(), queue[..index], requested)
    {
      for j := 0 to index
        invariant forall k | 0 <= k < j :: !Conflict(requested, queue[k].resources)
      {
        var clash := SetsConflict(requested, queue[j].resources);
        if clash {
          assert Clashing()(requested, queue[..index][j].resources);
          return true;
        }
      }
      return false;
    }

    /** Nothing granted or parked conflicts with what is wanted. */
    ghost predicate Free(wanted: seq<Resource>)
      reads this
    {
      (forall id | id in active :: !Conflict(wanted, active[id])) && forall w | w in queue :: !Conflict(wanted, w.resources)
    }

    /** Asking for resources, with a new channel: granted at once, or parked at the end of the queue. */
    method Submit(who: nat, resources: seq<Resource>) returns (granted: bool, id: nat)
      requires Valid() && who == |log.phase|
      modifies this
      ensures Valid() && history == old(history) + [Event.Submit(Normalize(resources))]
      ensures who < |log.phase| && log.phase[who] == if granted then Holding(id) else Queued
      ensures granted <==> old(Free(Normalize(resources)))
      ensures granted ==> id == old(next) + 1 && active == old(active)[id := Normalize(resources)] && queue == old(queue)
      ensures !granted ==> active == old(active) && queue == old(queue) + [Waiter(who, Normalize(resources))]
    {
      granted, id := Place(who, Normalize(resources));
    }

    method Place(who: nat, wanted: seq<Resource>) returns (granted: bool, id: nat)
      requires Valid() && who == |log.phase|
      modifies this
      ensures Valid() && history == old(history) + [Event.Submit(wanted)]
      ensures who < |log.phase| && log.phase[who] == if granted then Holding(id) else Queued
      ensures granted <==> old(Free(wanted))
      ensures granted ==> id == old(next) + 1 && active == old(active)[id := wanted] && queue == old(queue)
      ensures !granted ==> active == old(active) && queue == old(queue) + [Waiter(who, wanted)]
    {
      RunAppends(Start(), history, Event.Submit(wanted));
      SubmitDecides(log, wanted);
      history := history + [Event.Submit(wanted)];
      var busy := ScanActive(wanted);
      if !busy {
        busy := ScanEarlierQueued(|queue|, wanted);
        assert queue[..|queue|] == queue;
      }
      if busy {
        PutInQueue(who, wanted);
        return false, 0;
      }
      PutActive(wanted);
      return true, next;
    }

    method PutActive(wanted: seq<Resource>)
      requires Matching()
      modifies this`next, this`active, this`log
      ensures Matching() && next == old(next) + 1 && log == Arrive(old(log), wanted, Holding(next))
      ensures active == old(active)[next := wanted]
    {
      ArriveGrantedShows(log, wanted);
      next := next + 1;
      active := active[next := wanted];
      log := Arrive(log, wanted, Holding(next));
    }

    method PutInQueue(who: nat, wanted: seq<Resource>)
      requires Matching() && who == |log.phase|
      modifies this`queue, this`log
      ensures Matching() && log == Arrive(old(log), wanted, Queued) && queue == old(queue) + [Waiter(who, wanted)]
    {
      ArriveQueuedShows(log, wanted);
      queue := queue + [Waiter(who, wanted)];
      log := Arrive(log, wanted, Queued);
    }

    /** The single pass over the queue, removing granted waiters in place. */
    method DispatchQueue()
      requires Matching()
      modifies this`active, this`queue, this`next, this`channels, this`log
      ensures Matching() && log == Dispatch(old(log), 0)
    {
      var index: nat := 0;
      ghost var at: nat := 0;
      while index < |queue|
        invariant Matching() && Window(log, index, at)
        invariant Dispatch(log, at) == Dispatch(old(log), 0)
        decreases |queue| - index
      {
        index, at := Consider(index, at);
      }
      LoopEnds(log, at);
    }

    /** Grants the waiter at index if nothing stands in its way; gives the index to look at next. */
    method Consider(index: nat, ghost at: nat) returns (following: nat, ghost from: nat)
      requires Matching() && index < |queue| && Window(log, index, at)
      modifies this`active, this`queue, this`next, this`channels, this`log
      ensures Matching() && Window(log, following, from) && Dispatch(log, from) == Dispatch(old(log), at)
      ensures |queue| - following < old(|queue|) - index
    {
      var waiter := queue[index];
      LoopTurn(log, index, at);
      from := waiter.who + 1;
      var busy := ScanActive(waiter.resources);
      if !busy {
        busy := ScanEarlierQueued(index, waiter.resources);
      }
      if busy {
        following := index + 1;
      } else {
        ghost var granted := Deliver(log, waiter.who);
        assert Window(granted, index, from) && Dispatch(granted, from) == Dispatch(log, at);
        following := index;
        Grant(index);
        assert log == granted;
      }
    }

    /** Grants the waiter at index, takes it out of the queue and fills its channel. */
    method Grant(index: nat)
      requires Matching() && index < |queue| && queue[index].who < |log.phase|
      modifies this`active, this`queue, this`next, this`channels, this`log
      ensures Matching() && log == Deliver(old(log), old(queue)[index].who)
      ensures queue == Without(old(queue), index)
    {
      DeliverShows(log, index);
      var waiter := queue[index];
      next := next + 1;
      active := active[next := waiter.resources];
      queue := Without(queue, index);
      channels := channels[waiter.who := next];
      log := Deliver(log, waiter.who);
    }

    /** The caller takes its grant out of the channel. */
    method Receive(who: nat) returns (id: nat)
      requires Valid() && who in channels
      modifies this
      ensures Valid() && history == old(history) + [Event.Receive(who)]
      ensures who < |log.phase| && log.phase[who] == Holding(id)
      ensures id == old(channels)[who] && channels == old(channels) - {who} && active == old(active) && queue == old(queue)
    {
      RunAppends(Start(), history, Event.Receive(who));
      id := channels[who];
      HandOverShows(log, who, Holding(id));
      channels := channels - {who};
      log := SetPhase(log, who, Holding(id));
      history := history + [Event.Receive(who)];
    }

    /** The cancelled caller's critical section: leave the queue and dispatch, or find that the
        grant won the race; the grant is then taken from the channel and must be given back. */
    method Cancel(who: nat) returns (removed: bool, id: nat)
      requires Valid() && who < |log.phase| && (log.phase[who].Queued? || log.phase[who].Ready?)
      modifies this
      ensures Valid() && history == old(history) + [Event.Cancel(who)]
      ensures removed == old(log).phase[who].Queued?
      ensures !removed ==> who < |log.phase| && log.phase[who] == Retiring(id) && id in active
      ensures removed ==> who < |log.phase| && log.phase[who].Cancelled? && who !in channels && forall w | w in queue :: w.who != who
    {
      RunAppends(Start(), history, Event.Cancel(who));
      history := history + [Event.Cancel(who)];
      var index := 0;
      while index < |queue| && queue[index].who != who
        invariant index <= |queue| && forall j | 0 <= j < index :: queue[j].who != who
      {
        index := index + 1;
      }
      if index < |queue| {
        Leave(who, index);
        return true, 0;
      }
      if log.phase[who].Queued? {
        WaitingHasAll(log, 0, who);
      }
      id := Retire(who);
      return false, id;
    }

    method Retire(who: nat) returns (id: nat)
      requires Matching() && who < |log.phase| && log.phase[who].Ready?
      modifies this`channels, this`log
      ensures Matching() && log == Step(old(log), Event.Cancel(who)) && log.phase == old(log).phase[who := Retiring(id)] && id in active
    {
      LiveGrantsHas(log, who);
      id := channels[who];
      HandOverShows(log, who, Retiring(id));
      channels := channels - {who};
      log := SetPhase(log, who, Retiring(id));
    }

    method Leave(who: nat, index: nat)
      requires Matching() && index < |queue| && queue[index].who == who && who < |log.phase|
      modifies this`active, this`queue, this`next, this`channels, this`log
      ensures old(log).phase[who].Queued?
      ensures Matching() && log == Step(old(log), Event.Cancel(who))
      ensures who < |log.phase| && log.phase[who].Cancelled? && who !in channels && forall w | w in queue :: w.who != who
    {
      WaiterIsQueued(log, index);
      CancelEnds(log, who);
      LeaveShows(log, index);
      queue := Without(queue, index);
      log := SetPhase(log, who, Cancelled);
      DispatchQueue();
      WaitingInOrder(log, 0);
    }

    /** Giving a grant back by its id. A second call finds the id gone and does nothing. */
    method ReleaseId(id: nat, ghost who: nat)
      requires Valid() && who < |log.phase| && log.phase[who].Granted() && !log.phase[who].Ready? && log.phase[who].id == id
      modifies this
      ensures Valid() && history == old(history) + [Event.Release(who)]
      ensures old(log).phase[who].Released? ==> log == old(log) && active == old(active) && queue == old(queue)
      ensures id !in active && who < |log.phase| && log.phase[who] == Released(id)
    {
      if log.phase[who].Holding? || log.phase[who].Retiring? {
        ReleaseEnds(log, who, who);
      }
      RunAppends(Start(), history, Event.Release(who));
      history := history + [Event.Release(who)];
      if id in active {
        ReleaseShows(log, who);
        active := active - {id};
        log := SetPhase(log, who, Released(id));
        DispatchQueue();
      }
      ReleasedIsGone(log, who);
    }
  }
}
