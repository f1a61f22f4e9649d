/** The claim queue as a protocol, whatever the symmetric conflict relation: requests numbered by
    arrival, each in one phase, and the atomic steps a request and its caller can take. What
    holds over every run is proved here; Claims.dfy shows that the lock manager's map and queue
    follow these steps. */
module ClaimsProtocol {
  import Resources

  type Request = seq<Resources.Resource>

  /** Queued: in the waiting queue. Ready: granted, the grant still in the waiter's channel.
      Holding: the caller has its release function. Retiring: the caller was cancelled but lost
      the race with a grant, and has yet to give it back. */
  datatype Phase =
    | Queued
    | Ready(id: nat)
    | Holding(id: nat)
    | Retiring(id: nat)
    | Released(id: nat)
    | Cancelled
  {
    predicate Live() { Ready? || Holding? || Retiring? }
    predicate Granted() { Live() || Released? }
    predicate Ended() { Released? || Cancelled? }
  }

  /** Requests and their phases, both indexed by arrival; `next` is the last grant id given out. */
  datatype State = State(clash: (Request, Request) -> bool, requests: seq<Request>, phase: seq<Phase>, next: nat) {
    ghost predicate Shaped() {
      |requests| == |phase| && forall a, b :: clash(a, b) == clash(b, a)
    }
  }

  datatype Event =
    | Submit(request: Request)
    | Receive(who: nat)
    | Cancel(who: nat)
    | Release(who: nat)

  ghost predicate Blocks(s: State, k: nat, i: nat)
    requires s.Shaped() && k < |s.phase| && i < |s.phase|
  {
    k != i && s.clash(s.requests[k], s.requests[i]) &&
    (s.phase[k].Live() || (k < i && s.phase[k].Queued?))
  }

  ghost predicate Blocked(s: State, i: nat)
    requires s.Shaped() && i < |s.phase|
  {
    exists k | 0 <= k < |s.phase| :: Blocks(s, k, i)
  }

  ghost function Deliver(s: State, i: nat): State
    requires s.Shaped() && i < |s.phase|
  {
    s.(phase := s.phase[i := Ready(s.next + 1)], next := s.next + 1)
  }

  /** One pass over the queue in arrival order, granting what nothing blocks. */
  ghost function Dispatch(s: State, i: nat): (r: State)
    requires s.Shaped() && i <= |s.phase|
    ensures r.clash == s.clash && r.requests == s.requests && |r.phase| == |s.phase|
    decreases |s.phase| - i
  {
    if i == |s.phase| then s
    else if s.phase[i].Queued? && !Blocked(s, i) then Dispatch(Deliver(s, i), i + 1)
    else Dispatch(s, i + 1)
  }

  function Arrive(s: State, wanted: Request, p: Phase): State {
    State(s.clash, s.requests + [wanted], s.phase + [p], if p.Granted() then p.id else s.next)
  }

  function SetPhase(s: State, i: nat, p: Phase): State
    requires i < |s.phase|
  {
    s.(phase := s.phase[i := p])
  }

  ghost function Step(s: State, e: Event): (r: State)
    requires s.Shaped()
    ensures r.Shaped() && r.clash == s.clash && |s.requests| <= |r.requests|
  {
    match e
    case Submit(wanted) =>
      var arrived := Arrive(s, wanted, Queued);
      if Blocked(arrived, |s.phase|) then arrived
      else Arrive(s, wanted, Holding(s.next + 1))
    case Receive(i) =>
      if i < |s.phase| && s.phase[i].Ready? then SetPhase(s, i, Holding(s.phase[i].id)) else s
    case Cancel(i) =>
      if i < |s.phase| && s.phase[i].Queued? then Dispatch(SetPhase(s, i, Cancelled), 0)
      else if i < |s.phase| && s.phase[i].Ready? then SetPhase(s, i, Retiring(s.phase[i].id))
      else s
    case Release(i) =>
      if i < |s.phase| && (s.phase[i].Holding? || s.phase[i].Retiring?) then
        Dispatch(SetPhase(s, i, Released(s.phase[i].id)), 0)
      else s
  }

  ghost function Run(s: State, events: seq<Event>): (r: State)
    requires s.Shaped()
    ensures r.Shaped() && r.clash == s.clash && |s.requests| <= |r.requests|
    decreases |events|
  {
    if events == [] then s else Run(Step(s, events[0]), events[1..])
  }

  // ---- Safety ----

  ghost predicate Initial(s: State) {
    s.Shaped() && s.requests == [] && s.next == 0
  }

  ghost predicate Exclusive(s: State)
    requires s.Shaped()
  {
    forall i, j | 0 <= i < |s.phase| && 0 <= j < |s.phase| && i != j && s.phase[i].Live() && s.phase[j].Live() ::
      !s.clash(s.requests[i], s.requests[j])
  }

  /** Conflicting requests are granted in arrival order: a later one is granted only when the
      earlier one is no longer waiting, and then with the larger grant id. */
  ghost predicate Ordered(s: State)
    requires s.Shaped()
  {
    forall i, j | 0 <= i < j < |s.phase| && s.phase[j].Granted() && s.clash(s.requests[i], s.requests[j]) ::
      !s.phase[i].Queued? && (s.phase[i].Granted() ==> s.phase[i].id < s.phase[j].id)
  }

  predicate DistinctIds(s: State) {
    (forall i | 0 <= i < |s.phase| && s.phase[i].Granted() :: 1 <= s.phase[i].id <= s.next) &&
    (forall i, j | 0 <= i < |s.phase| && 0 <= j < |s.phase| && i != j && s.phase[i].Granted() && s.phase[j].Granted() ::
       s.phase[i].id != s.phase[j].id)
  }

  /** No wakeup is lost: whoever waits is blocked by a live grant or an earlier waiter. */
  ghost predicate Settled(s: State)
    requires s.Shaped()
  {
    forall i | 0 <= i < |s.phase| && s.phase[i].Queued? :: Blocked(s, i)
  }

  ghost predicate Safe(s: State) {
    s.Shaped() && Exclusive(s) && Ordered(s) && DistinctIds(s)
  }

  ghost predicate Inv(s: State) {
    Safe(s) && Settled(s)
  }

  lemma DeliverSafe(s: State, i: nat)
    requires Safe(s) && i < |s.phase| && s.phase[i].Queued? && !Blocked(s, i)
    ensures Safe(Deliver(s, i))
  {
    var r := Deliver(s, i);
    forall k | 0 <= k < |s.phase| && k != i
      ensures s.clash(s.requests[k], s.requests[i]) == s.clash(s.requests[i], s.requests[k])
      ensures s.clash(s.requests[k], s.requests[i]) ==>
        !s.phase[k].Live() && !(k < i && s.phase[k].Queued?)
    {
      assert !Blocks(s, k, i);
    }
    // A later conflicting request cannot have been granted while i was still queued.
    assert forall j | i < j < |s.phase| && s.phase[j].Granted() :: !s.clash(s.requests[i], s.requests[j]);
  }

  lemma DeliverKeepsBlocked(s: State, i: nat, k: nat)
    requires s.Shaped() && i < |s.phase| && s.phase[i].Queued? && k < i && Blocked(s, k)
    ensures Blocked(Deliver(s, i), k)
  {
    var m :| 0 <= m < |s.phase| && Blocks(s, m, k);
    assert Blocks(Deliver(s, i), m, k);
  }

  /** A dispatch pass started with everything before i blocked leaves every waiter blocked. */
  lemma {:induction false} DispatchSettles(s: State, i: nat)
    requires s.Shaped() && i <= |s.phase|
    requires forall k | 0 <= k < i && s.phase[k].Queued? :: Blocked(s, k)
    ensures Settled(Dispatch(s, i))
    decreases |s.phase| - i
  {
    if i < |s.phase| {
      if s.phase[i].Queued? && !Blocked(s, i) {
        forall k | 0 <= k < i && s.phase[k].Queued? {
          DeliverKeepsBlocked(s, i, k);
        }
        DispatchSettles(Deliver(s, i), i + 1);
      } else {
        DispatchSettles(s, i + 1);
      }
    }
  }

  lemma {:induction false} DispatchSafe(s: State, i: nat)
    requires Safe(s) && i <= |s.phase|
    ensures Safe(Dispatch(s, i))
    decreases |s.phase| - i
  {
    if i < |s.phase| {
      if s.phase[i].Queued? && !Blocked(s, i) {
        DeliverSafe(s, i);
        DispatchSafe(Deliver(s, i), i + 1);
      } else {
        DispatchSafe(s, i + 1);
      }
    }
  }

  lemma EndSafe(s: State, i: nat, p: Phase)
    requires Safe(s) && i < |s.phase|
    requires p.Granted() ==> s.phase[i].Granted() && p.id == s.phase[i].id
    requires p.Live() ==> s.phase[i].Live()
    requires !p.Queued?
    ensures Safe(SetPhase(s, i, p))
  {
  }

  lemma ArriveSettled(s: State, wanted: Request, p: Phase)
    requires s.Shaped() && Settled(s)
    requires p.Queued? ==> Blocked(Arrive(s, wanted, p), |s.phase|)
    ensures Settled(Arrive(s, wanted, p))
  {
    var r := Arrive(s, wanted, p);
    forall i | 0 <= i < |s.phase| && s.phase[i].Queued?
      ensures Blocked(r, i)
    {
      var k :| 0 <= k < |s.phase| && Blocks(s, k, i);
      assert Blocks(r, k, i);
    }
  }

  lemma ArriveQueuedSafe(s: State, wanted: Request)
    requires Safe(s)
    ensures Safe(Arrive(s, wanted, Queued))
  {
  }

  lemma ArriveGrantedSafe(s: State, wanted: Request)
    requires Safe(s) && !Blocked(Arrive(s, wanted, Queued), |s.phase|)
    ensures Safe(Arrive(s, wanted, Holding(s.next + 1)))
  {
    var n := |s.phase|;
    forall k | 0 <= k < n
      ensures s.clash(s.requests[k], wanted) ==> !s.phase[k].Live() && !s.phase[k].Queued?
    {
      assert !Blocks(Arrive(s, wanted, Queued), k, n);
    }
  }

  lemma ReadySettled(s: State, i: nat, p: Phase)
    requires Inv(s) && i < |s.phase| && s.phase[i].Live() && p.Live()
    ensures Settled(SetPhase(s, i, p))
  {
    var r := SetPhase(s, i, p);
    forall j | 0 <= j < |r.phase| && r.phase[j].Queued?
      ensures Blocked(r, j)
    {
      var k :| 0 <= k < |s.phase| && Blocks(s, k, j);
      assert Blocks(r, k, j);
    }
  }

  /** A request that ends hands the others a chance. */
  lemma EndKeepsInv(s: State, i: nat, p: Phase)
    requires Inv(s) && i < |s.phase| && !p.Queued? && !p.Live()
    requires p.Granted() ==> s.phase[i].Granted() && p.id == s.phase[i].id
    ensures Inv(Dispatch(SetPhase(s, i, p), 0))
  {
    EndSafe(s, i, p);
    DispatchSafe(SetPhase(s, i, p), 0);
    DispatchSettles(SetPhase(s, i, p), 0);
  }

  /** Every step keeps exclusion, arrival order among conflicting requests, distinct grant ids,
      and the absence of lost wakeups. */
  lemma StepKeepsInv(s: State, e: Event)
    requires Inv(s)
    ensures Inv(Step(s, e))
  {
    match e
    case Submit(wanted) =>
      if Blocked(Arrive(s, wanted, Queued), |s.phase|) {
        ArriveQueuedSafe(s, wanted);
        ArriveSettled(s, wanted, Queued);
      } else {
        ArriveGrantedSafe(s, wanted);
        ArriveSettled(s, wanted, Holding(s.next + 1));
      }
    case Receive(i) =>
      if i < |s.phase| && s.phase[i].Ready? {
        EndSafe(s, i, Holding(s.phase[i].id));
        ReadySettled(s, i, Holding(s.phase[i].id));
      }
    case Cancel(i) =>
      if i < |s.phase| && s.phase[i].Queued? {
        EndKeepsInv(s, i, Cancelled);
      } else if i < |s.phase| && s.phase[i].Ready? {
        EndSafe(s, i, Retiring(s.phase[i].id));
        ReadySettled(s, i, Retiring(s.phase[i].id));
      }
    case Release(i) =>
      if i < |s.phase| && (s.phase[i].Holding? || s.phase[i].Retiring?) {
        EndKeepsInv(s, i, Released(s.phase[i].id));
      }
  }

  lemma {:induction false} RunKeepsInv(s: State, events: seq<Event>)
    requires Inv(s)
    ensures Inv(Run(s, events))
    decreases |events|
  {
    if events != [] {
      StepKeepsInv(s, events[0]);
      RunKeepsInv(Step(s, events[0]), events[1..]);
    }
  }

  /** While anyone waits, someone holds a live grant. */
  lemma WaitersImplyLive(start: State, events: seq<Event>, i: nat)
    requires Initial(start)
    requires var s := Run(start, events); i < |s.phase| && s.phase[i].Queued?
    ensures var s := Run(start, events); exists k | 0 <= k < |s.phase| :: s.phase[k].Live()
  {
    RunKeepsInv(start, events);
    FirstWaiterHasLiveBlocker(Run(start, events), i);
  }

  lemma {:induction false} FirstWaiterHasLiveBlocker(s: State, i: nat)
    requires Inv(s) && i < |s.phase| && s.phase[i].Queued?
    ensures exists k | 0 <= k < |s.phase| :: s.phase[k].Live()
    decreases i
  {
    var k :| 0 <= k < |s.phase| && Blocks(s, k, i);
    if !s.phase[k].Live() {
      FirstWaiterHasLiveBlocker(s, k);
    }
  }

  // ---- Progress ----

  /** Nothing blocks i afterwards that did not block it before. */
  ghost predicate NoNewBlockers(s: State, r: State, i: nat)
    requires s.Shaped() && r.Shaped() && i < |s.phase| <= |r.phase|
  {
    forall k | 0 <= k < |r.phase| && Blocks(r, k, i) :: k < |s.phase| && Blocks(s, k, i)
  }

  lemma {:induction false} DispatchAddsNoBlockers(s: State, at: nat, i: nat)
    requires s.Shaped() && at <= |s.phase| && i < |s.phase|
    requires Dispatch(s, at).phase[i].Queued?
    ensures s.phase[i].Queued? && NoNewBlockers(s, Dispatch(s, at), i)
    decreases |s.phase| - at
  {
    if at < |s.phase| {
      if s.phase[at].Queued? && !Blocked(s, at) {
        var d := Deliver(s, at);
        DispatchAddsNoBlockers(d, at + 1, i);
        assert at != i;
        assert !Blocks(s, i, at);
        assert forall k | 0 <= k < |s.phase| && Blocks(d, k, i) :: Blocks(s, k, i);
      } else {
        DispatchAddsNoBlockers(s, at + 1, i);
      }
    }
  }

  /** A request that arrives never stands in the way of one that waits already. */
  lemma NewcomerBlocksNobody(s: State, wanted: Request, i: nat)
    requires s.Shaped() && i < |s.phase| && s.phase[i].Queued?
    ensures !Blocks(Step(s, Submit(wanted)), |s.phase|, i)
  {
    var arrived := Arrive(s, wanted, Queued);
    if !Blocked(arrived, |s.phase|) {
      assert !Blocks(arrived, i, |s.phase|);
    }
  }

  /** One step never adds to what a waiting request waits for, and never puts a request back in the queue. */
  lemma StepAddsNoBlockers(s: State, e: Event, i: nat)
    requires s.Shaped() && i < |s.phase| && Step(s, e).phase[i].Queued?
    ensures s.phase[i].Queued? && NoNewBlockers(s, Step(s, e), i)
  {
    var r := Step(s, e);
    match e
    case Submit(wanted) =>
      var n := |s.phase|;
      NewcomerBlocksNobody(s, wanted, i);
      assert forall k | 0 <= k < n && Blocks(r, k, i) :: Blocks(s, k, i);
    case Receive(k) =>
    case Cancel(k) =>
      if k < |s.phase| && s.phase[k].Queued? {
        DispatchAddsNoBlockers(SetPhase(s, k, Cancelled), 0, i);
      }
    case Release(k) =>
      if k < |s.phase| && (s.phase[k].Holding? || s.phase[k].Retiring?) {
        DispatchAddsNoBlockers(SetPhase(s, k, Released(s.phase[k].id)), 0, i);
      }
  }

  lemma {:induction false} RunAddsNoBlockers(s: State, events: seq<Event>, i: nat)
    requires s.Shaped() && i < |s.phase| && Run(s, events).phase[i].Queued?
    ensures s.phase[i].Queued? && NoNewBlockers(s, Run(s, events), i)
    decreases |events|
  {
    if events != [] {
      var m := Step(s, events[0]);
      RunAddsNoBlockers(m, events[1..], i);
      StepAddsNoBlockers(s, events[0], i);
      forall k | 0 <= k < |Run(s, events).phase| && Blocks(Run(s, events), k, i)
        ensures k < |s.phase| && Blocks(s, k, i)
      {
        assert k < |m.phase| && Blocks(m, k, i);
      }
    }
  }

  /** Starvation freedom: however many requests arrive later, once those that blocked a waiter at
      one moment have ended, it waits no longer. */
  lemma NoStarvation(start: State, before: seq<Event>, later: seq<Event>, i: nat)
    requires Initial(start)
    requires var s := Run(start, before); var t := Run(s, later);
      i < |s.phase| && forall k | 0 <= k < |s.phase| && Blocks(s, k, i) :: t.phase[k].Ended()
    ensures var t := Run(Run(start, before), later); !t.phase[i].Queued?
  {
    var s := Run(start, before);
    var t := Run(s, later);
    RunKeepsInv(start, before);
    RunKeepsInv(s, later);
    if t.phase[i].Queued? {
      RunAddsNoBlockers(s, later, i);
    }
  }

  /** What a request's own caller can do to its phase; grants come only from dispatch. */
  predicate Follows(p: Phase, q: Phase) {
    || q == p
    || (p.Queued? && (q.Ready? || q.Cancelled?))
    || (p.Ready? && (q.Holding? || q.Retiring?) && q.id == p.id)
    || ((p.Holding? || p.Retiring?) && q.Released? && q.id == p.id)
  }

  lemma {:induction false} DispatchOnlyDelivers(s: State, at: nat, i: nat)
    requires s.Shaped() && at <= |s.phase| && i < |s.phase|
    ensures var q := Dispatch(s, at).phase[i]; q == s.phase[i] || (s.phase[i].Queued? && q.Ready?)
    decreases |s.phase| - at
  {
    if at < |s.phase| {
      DispatchOnlyDelivers(if s.phase[at].Queued? && !Blocked(s, at) then Deliver(s, at) else s, at + 1, i);
    }
  }

  /** Conservation: a request only moves forward, keeps the grant id it was given, and ends once;
      a second release or a cancel after the end changes nothing at all. */
  lemma StepMovesForward(s: State, e: Event, i: nat)
    requires s.Shaped() && i < |s.phase|
    ensures Follows(s.phase[i], Step(s, e).phase[i])
    ensures Step(s, e).requests[i] == s.requests[i]
    ensures s.phase[i].Ended() && (e == Release(i) || e == Cancel(i)) ==> Step(s, e) == s
  {
    match e
    case Submit(_) =>
    case Receive(_) =>
    case Cancel(k) =>
      if k < |s.phase| && s.phase[k].Queued? {
        DispatchOnlyDelivers(SetPhase(s, k, Cancelled), 0, i);
      }
    case Release(k) =>
      if k < |s.phase| && (s.phase[k].Holding? || s.phase[k].Retiring?) {
        DispatchOnlyDelivers(SetPhase(s, k, Released(s.phase[k].id)), 0, i);
      }
  }

  // ---- What a caller's step does ----

  /** Nobody conflicting holds or waits. */
  ghost predicate NobodyInTheWay(s: State, wanted: Request)
    requires s.Shaped()
  {
    forall k | 0 <= k < |s.phase| && s.clash(s.requests[k], wanted) :: !s.phase[k].Live() && !s.phase[k].Queued?
  }

  /** Asking grants at once exactly when nobody conflicting holds or waits, and touches no other request. */
  lemma SubmitGrantsOrParks(s: State, wanted: Request)
    requires s.Shaped()
    ensures var r, n := Step(s, Submit(wanted)), |s.phase|;
      r.requests == s.requests + [wanted] && |r.phase| == n + 1 && r.phase[..n] == s.phase &&
      r.phase[n] == if NobodyInTheWay(s, wanted) then Holding(s.next + 1) else Queued
  {
    var arrived := Arrive(s, wanted, Queued);
    if Blocked(arrived, |s.phase|) {
      var k :| 0 <= k < |arrived.phase| && Blocks(arrived, k, |s.phase|);
      assert s.clash(s.requests[k], wanted);
    } else {
      forall k | 0 <= k < |s.phase| && s.clash(s.requests[k], wanted)
        ensures !s.phase[k].Live() && !s.phase[k].Queued?
      {
        assert !Blocks(arrived, k, |s.phase|);
      }
    }
  }

  /** Taking the grant makes the caller its holder. */
  lemma ReceiveHolds(s: State, i: nat)
    requires s.Shaped() && i < |s.phase| && s.phase[i].Ready?
    ensures Step(s, Receive(i)).phase == s.phase[i := Holding(s.phase[i].id)]
  {
  }

  /** Cancelling ends a waiter; one whose grant came first has it to give back. */
  lemma CancelEnds(s: State, i: nat)
    requires s.Shaped() && i < |s.phase|
    ensures s.phase[i].Queued? ==> Step(s, Cancel(i)).phase[i].Cancelled?
    ensures s.phase[i].Ready? ==> Step(s, Cancel(i)).phase == s.phase[i := Retiring(s.phase[i].id)]
  {
    if s.phase[i].Queued? {
      DispatchOnlyDelivers(SetPhase(s, i, Cancelled), 0, i);
    }
  }

  /** Releasing ends the grant, and leaves every other request as it is or grants it. */
  lemma ReleaseEnds(s: State, i: nat, k: nat)
    requires s.Shaped() && i < |s.phase| && (s.phase[i].Holding? || s.phase[i].Retiring?) && k < |s.phase|
    ensures var q := Step(s, Release(i)).phase;
      q[i] == Released(s.phase[i].id) && (k != i ==> q[k] == s.phase[k] || (s.phase[k].Queued? && q[k].Ready?))
  {
    DispatchOnlyDelivers(SetPhase(s, i, Released(s.phase[i].id)), 0, i);
    DispatchOnlyDelivers(SetPhase(s, i, Released(s.phase[i].id)), 0, k);
  }

  // ---- From end to end ----

  function Releases(who: seq<nat>): (events: seq<Event>)
    ensures |events| == |who| && forall j | 0 <= j < |events| :: events[j] == Release(who[j])
  {
    seq(|who|, j requires 0 <= j < |who| => Release(who[j]))
  }

  /** Releases end what they name, wake waiters, and do nothing else. */
  lemma {:induction false} ReleasesEnd(s: State, who: seq<nat>, k: nat)
    requires s.Shaped() && k < |s.phase| && forall i | i in who :: i < |s.phase|
    ensures var q := Run(s, Releases(who)).phase[k];
      if s.phase[k].Holding? || s.phase[k].Retiring? then q == (if k in who then Released(s.phase[k].id) else s.phase[k])
      else q == s.phase[k] || (s.phase[k].Queued? && q.Ready?)
    decreases |who|
  {
    if who != [] {
      assert who[0] in who && forall i | i in who[1..] :: i in who;
      var r := Step(s, Release(who[0]));
      assert Releases(who)[0] == Release(who[0]) && Releases(who)[1..] == Releases(who[1..]);
      ReleasesEnd(r, who[1..], k);
      if s.phase[who[0]].Holding? || s.phase[who[0]].Retiring? {
        ReleaseEnds(s, who[0], k);
      }
    }
  }

  /** Once the callers of all those that block a waiter have released, in whatever order, the waiter has
      its grant. */
  lemma ReleasingBlockersGrants(start: State, before: seq<Event>, who: seq<nat>, i: nat)
    requires Initial(start)
    requires var s := Run(start, before);
      i < |s.phase| && s.phase[i].Queued? && (forall k | k in who :: k < |s.phase|) &&
      forall k | 0 <= k < |s.phase| && Blocks(s, k, i) :: k in who && (s.phase[k].Holding? || s.phase[k].Retiring?)
    ensures Run(Run(start, before), Releases(who)).phase[i].Ready?
  {
    var s := Run(start, before);
    forall k | 0 <= k < |s.phase| && Blocks(s, k, i)
      ensures Run(s, Releases(who)).phase[k].Ended()
    {
      ReleasesEnd(s, who, k);
    }
    NoStarvation(start, before, Releases(who), i);
    ReleasesEnd(s, who, i);
  }

  /** How many steps the others have before them until they have all ended. */
  function Ahead(p: Phase): nat {
    match p
    case Queued => 3
    case Ready(_) => 2
    case Holding(_) => 1
    case Retiring(_) => 1
    case Released(_) => 0
    case Cancelled => 0
  }

  function StepsAhead(phase: seq<Phase>): nat {
    if phase == [] then 0 else StepsAhead(phase[..|phase| - 1]) + Ahead(phase[|phase| - 1])
  }

  lemma {:induction false} FewerStepsAhead(p: seq<Phase>, q: seq<Phase>, k: nat)
    requires |p| == |q| && k < |p| && Ahead(q[k]) < Ahead(p[k]) && forall j | 0 <= j < |p| :: Ahead(q[j]) <= Ahead(p[j])
    ensures StepsAhead(q) < StepsAhead(p)
    decreases |p|
  {
    var last := |p| - 1;
    if k == last {
      NoMoreStepsAhead(p[..last], q[..last]);
    } else {
      FewerStepsAhead(p[..last], q[..last], k);
    }
  }

  lemma {:induction false} NoMoreStepsAhead(p: seq<Phase>, q: seq<Phase>)
    requires |p| == |q| && forall j | 0 <= j < |p| :: Ahead(q[j]) <= Ahead(p[j])
    ensures StepsAhead(q) <= StepsAhead(p)
  {
    if p != [] {
      NoMoreStepsAhead(p[..|p| - 1], q[..|q| - 1]);
    }
  }

  /** A holder of a live grant always has a step to take, and it brings the end nearer. */
  lemma HolderGoesOn(s: State, k: nat) returns (e: Event)
    requires s.Shaped() && k < |s.phase| && s.phase[k].Live()
    ensures e == (if s.phase[k].Ready? then Receive(k) else Release(k))
    ensures |Step(s, e).phase| == |s.phase| && StepsAhead(Step(s, e).phase) < StepsAhead(s.phase)
    ensures forall j | 0 <= j < |s.phase| && s.phase[j].Queued? :: Step(s, e).phase[j].Queued? || Step(s, e).phase[j].Ready?
  {
    e := if s.phase[k].Ready? then Receive(k) else Release(k);
    var r := Step(s, e);
    if e.Release? {
      forall j | 0 <= j < |s.phase|
        ensures Ahead(r.phase[j]) <= Ahead(s.phase[j]) && (s.phase[j].Queued? ==> r.phase[j].Queued? || r.phase[j].Ready?)
      {
        ReleaseEnds(s, k, j);
      }
      ReleaseEnds(s, k, k);
    }
    FewerStepsAhead(s.phase, r.phase, k);
  }

  /** Steps of holders alone: taking grants and giving them back. */
  predicate OnlyHolders(events: seq<Event>) {
    forall e | e in events :: e.Receive? || e.Release?
  }

  /** Whoever waits is served as soon as the holders go on: in every state that can be reached they have
      a way to go on to where the waiter has its grant. */
  lemma {:induction false} WaitersAreServed(s: State, i: nat) returns (events: seq<Event>)
    requires Inv(s) && i < |s.phase| && s.phase[i].Queued?
    ensures OnlyHolders(events) && Run(s, events).phase[i].Ready?
    decreases StepsAhead(s.phase)
  {
    FirstWaiterHasLiveBlocker(s, i);
    var k :| 0 <= k < |s.phase| && s.phase[k].Live();
    var e := HolderGoesOn(s, k);
    var r := Step(s, e);
    if r.phase[i].Ready? {
      events := [e];
      assert Run(r, []) == r && [e][1..] == [];
    } else {
      StepKeepsInv(s, e);
      var rest := WaitersAreServed(r, i);
      events := [e] + rest;
      assert events[1..] == rest;
    }
  }
}
