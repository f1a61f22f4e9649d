/** A bounded number of leases granted in arrival order: the protocol over all runs, and the
    counter and queue that follow it. */
module ExecutionBudget {

  /** Waiting: in the queue. Ready: granted, the wakeup not yet seen. Holding: the caller has its
      release function. Retiring: cancelled, but the grant came first and must be given back. */
  datatype Phase = Waiting | Ready | Holding | Retiring | Released | Cancelled {
    predicate Live() { Ready? || Holding? || Retiring? }
    predicate Granted() { Live() || Released? }
    predicate Ended() { Released? || Cancelled? }
  }

  /** Requests for a lease, by arrival. */
  datatype State = State(capacity: nat, phase: seq<Phase>)

  datatype Event = Submit | Receive(who: nat) | Cancel(who: nat) | Release(who: nat)

  function LiveCount(phase: seq<Phase>): nat {
    if phase == [] then 0 else LiveCount(phase[..|phase| - 1]) + (if phase[|phase| - 1].Live() then 1 else 0)
  }

  /** The waiting requests from one arrival on, in arrival order. */
  function Queue(phase: seq<Phase>, from: nat): seq<nat>
    requires from <= |phase|
    decreases |phase| - from
  {
    if from == |phase| then []
    else (if phase[from].Waiting? then [from] else []) + Queue(phase, from + 1)
  }

  function SetPhase(s: State, i: nat, p: Phase): State
    requires i < |s.phase|
  {
    s.(phase := s.phase[i := p])
  }

  /** Leases go to waiting requests in arrival order while there is room. */
  function Fill(s: State, i: nat): (r: State)
    requires i <= |s.phase|
    ensures r.capacity == s.capacity && |r.phase| == |s.phase|
    decreases |s.phase| - i
  {
    if i == |s.phase| then s
    else if s.phase[i].Waiting? && LiveCount(s.phase) < s.capacity then Fill(SetPhase(s, i, Ready), i + 1)
    else Fill(s, i + 1)
  }

  function Step(s: State, e: Event): (r: State)
    ensures r.capacity == s.capacity && |s.phase| <= |r.phase|
  {
    match e
    case Submit =>
      var free := LiveCount(s.phase) < s.capacity && Queue(s.phase, 0) == [];
      s.(phase := s.phase + [if free then Holding else Waiting])
    case Receive(i) => if i < |s.phase| && s.phase[i].Ready? then SetPhase(s, i, Holding) else s
    case Cancel(i) =>
      if i < |s.phase| && s.phase[i].Waiting? then Fill(SetPhase(s, i, Cancelled), 0)
      else if i < |s.phase| && s.phase[i].Ready? then SetPhase(s, i, Retiring)
      else s
    case Release(i) =>
      if i < |s.phase| && (s.phase[i].Holding? || s.phase[i].Retiring?) then Fill(SetPhase(s, i, Released), 0)
      else s
  }

  function Run(s: State, events: seq<Event>): (r: State)
    ensures r.capacity == s.capacity && |s.phase| <= |r.phase|
    decreases |events|
  {
    if events == [] then s else Run(Step(s, events[0]), events[1..])
  }

  // ---- Counting and queueing ----

  lemma {:induction false} CountAfterSet(phase: seq<Phase>, i: nat, p: Phase)
    requires i < |phase|
    ensures LiveCount(phase[i := p]) == LiveCount(phase) - (if phase[i].Live() then 1 else 0) + (if p.Live() then 1 else 0)
    decreases |phase|
  {
    var last := |phase| - 1;
    var changed := phase[i := p];
    if i == last {
      assert changed[..last] == phase[..last];
    } else {
      CountAfterSet(phase[..last], i, p);
      assert changed[..last] == phase[..last][i := p];
    }
  }

  lemma CountAfterAppend(phase: seq<Phase>, p: Phase)
    ensures LiveCount(phase + [p]) == LiveCount(phase) + (if p.Live() then 1 else 0)
  {
    assert (phase + [p])[..|phase|] == phase;
  }

  lemma {:induction false} QueueIgnores(phase: seq<Phase>, from: nat, i: nat, p: Phase)
    requires from <= |phase| && i < |phase| && !p.Waiting? && (i < from || !phase[i].Waiting?)
    ensures Queue(phase[i := p], from) == Queue(phase, from)
    decreases |phase| - from
  {
    if from < |phase| {
      QueueIgnores(phase, from + 1, i, p);
    }
  }

  function Without(q: seq<nat>, i: nat): seq<nat> {
    if q == [] then [] else if q[0] == i then q[1..] else [q[0]] + Without(q[1..], i)
  }

  lemma {:induction false} WithoutCuts(q: seq<nat>, k: nat)
    requires k < |q| && forall j | 0 <= j < k :: q[j] != q[k]
    ensures Without(q, q[k]) == q[..k] + q[k + 1..]
    decreases k
  {
    if k > 0 {
      WithoutCuts(q[1..], k - 1);
      assert q[..k] == [q[0]] + q[1..][..k - 1];
    }
  }

  lemma {:induction false} QueueRemoves(phase: seq<Phase>, from: nat, i: nat, p: Phase)
    requires from <= i < |phase| && phase[i].Waiting? && !p.Waiting?
    ensures Queue(phase[i := p], from) == Without(Queue(phase, from), i)
    decreases i - from
  {
    var rest := Queue(phase, from + 1);
    if from == i {
      QueueIgnores(phase, from + 1, i, p);
      assert ([i] + rest)[1..] == rest;
    } else {
      QueueRemoves(phase, from + 1, i, p);
      var changed := phase[i := p];
      assert changed[from] == phase[from];
      if phase[from].Waiting? {
        assert Queue(changed, from) == [from] + Without(rest, i);
        assert ([from] + rest)[1..] == rest && Without([from] + rest, i) == [from] + Without(rest, i);
      } else {
        assert Queue(changed, from) == Without(rest, i) && Queue(phase, from) == rest;
      }
    }
  }

  lemma {:induction false} QueueAppends(phase: seq<Phase>, from: nat, p: Phase)
    requires from <= |phase|
    ensures Queue(phase + [p], from) == Queue(phase, from) + if p.Waiting? then [|phase|] else []
    decreases |phase| - from
  {
    if from < |phase| {
      QueueAppends(phase, from + 1, p);
    } else {
      assert Queue(phase + [p], from + 1) == [];
    }
  }

  lemma {:induction false} QueueHolds(phase: seq<Phase>, from: nat)
    requires from <= |phase|
    ensures forall i | from <= i < |phase| :: phase[i].Waiting? <==> i in Queue(phase, from)
    ensures forall i | i in Queue(phase, from) :: from <= i < |phase|
    ensures forall j, k | 0 <= j < k < |Queue(phase, from)| :: Queue(phase, from)[j] < Queue(phase, from)[k]
    decreases |phase| - from
  {
    if from < |phase| {
      QueueHolds(phase, from + 1);
      var rest := Queue(phase, from + 1);
      assert forall k | 0 <= k < |rest| :: rest[k] in rest;
    }
  }

  // ---- Safety over every run ----

  predicate Inv(s: State) {
    LiveCount(s.phase) <= s.capacity &&
    (Queue(s.phase, 0) != [] ==> LiveCount(s.phase) == s.capacity) &&
    forall i, j | 0 <= i < j < |s.phase| && s.phase[j].Granted() :: !s.phase[i].Waiting?
  }

  /** With room for nobody, filling does nothing. */
  lemma {:induction false} FillFull(s: State, i: nat)
    requires i <= |s.phase| && LiveCount(s.phase) >= s.capacity
    ensures Fill(s, i) == s
    decreases |s.phase| - i
  {
    if i < |s.phase| {
      FillFull(s, i + 1);
    }
  }

  lemma {:induction false} FillSkips(s: State, i: nat, to: nat)
    requires i <= to <= |s.phase| && forall k | i <= k < to :: !s.phase[k].Waiting?
    ensures Fill(s, i) == Fill(s, to)
    decreases |s.phase| - i
  {
    if i < to {
      FillSkips(s, i + 1, to);
    }
  }

  lemma HeadIsFirst(phase: seq<Phase>)
    requires Queue(phase, 0) != []
    ensures var head := Queue(phase, 0)[0];
      head < |phase| && phase[head].Waiting? && forall k | 0 <= k < head :: !phase[k].Waiting?
  {
    var q := Queue(phase, 0);
    QueueHolds(phase, 0);
    assert q[0] in q;
    assert forall x | x in q :: q[0] <= x;
  }

  lemma FillNobody(s: State)
    requires Queue(s.phase, 0) == []
    ensures Fill(s, 0) == s
  {
    QueueHolds(s.phase, 0);
    FillSkips(s, 0, |s.phase|);
  }

  /** Filling takes the head of the queue, then fills on. */
  lemma FillHead(s: State)
    requires Queue(s.phase, 0) != [] && LiveCount(s.phase) < s.capacity
    ensures var head := Queue(s.phase, 0)[0];
      head < |s.phase| && s.phase[head].Waiting? && (forall k | 0 <= k < head :: !s.phase[k].Waiting?) &&
      Fill(s, 0) == Fill(SetPhase(s, head, Ready), 0) &&
      Queue(SetPhase(s, head, Ready).phase, 0) == Queue(s.phase, 0)[1..] &&
      LiveCount(SetPhase(s, head, Ready).phase) == LiveCount(s.phase) + 1
  {
    HeadIsFirst(s.phase);
    var head := Queue(s.phase, 0)[0];
    var r := SetPhase(s, head, Ready);
    FillSkips(s, 0, head);
    FillSkips(r, 0, head + 1);
    CountAfterSet(s.phase, head, Ready);
    QueueHolds(s.phase, 0);
    QueueRemoves(s.phase, 0, head, Ready);
  }

  lemma FillKeepsInv(s: State)
    requires LiveCount(s.phase) <= s.capacity
    requires forall i, j | 0 <= i < j < |s.phase| && s.phase[j].Granted() :: !s.phase[i].Waiting?
    ensures Inv(Fill(s, 0))
    decreases s.capacity - LiveCount(s.phase)
  {
    if Queue(s.phase, 0) == [] {
      FillNobody(s);
    } else {
      if LiveCount(s.phase) < s.capacity {
        FillHead(s);
        FillKeepsInv(SetPhase(s, Queue(s.phase, 0)[0], Ready));
      } else {
        FillFull(s, 0);
      }
    }
  }

  lemma NobodyWaits(phase: seq<Phase>)
    requires Queue(phase, 0) == []
    ensures forall i | 0 <= i < |phase| :: !phase[i].Waiting?
  {
    QueueHolds(phase, 0);
  }

  lemma AppendKeepsOrder(phase: seq<Phase>, p: Phase, longer: seq<Phase>)
    requires forall i, j | 0 <= i < j < |phase| && phase[j].Granted() :: !phase[i].Waiting?
    requires longer == phase + [p] && (p.Granted() ==> forall i | 0 <= i < |phase| :: !phase[i].Waiting?)
    ensures forall i, j | 0 <= i < j < |longer| && longer[j].Granted() :: !longer[i].Waiting?
  {
  }

  lemma SubmitKeepsInv(s: State)
    requires Inv(s)
    ensures Inv(Step(s, Submit))
  {
    var free := LiveCount(s.phase) < s.capacity && Queue(s.phase, 0) == [];
    var p := if free then Holding else Waiting;
    CountAfterAppend(s.phase, p);
    QueueAppends(s.phase, 0, p);
    if free {
      NobodyWaits(s.phase);
    }
    AppendKeepsOrder(s.phase, p, s.phase + [p]);
  }

  lemma SwitchKeepsInv(s: State, i: nat, p: Phase)
    requires Inv(s) && i < |s.phase| && s.phase[i].Ready? && p.Live()
    ensures Inv(SetPhase(s, i, p))
  {
    CountAfterSet(s.phase, i, p);
    QueueIgnores(s.phase, 0, i, p);
  }

  lemma EndKeepsInv(s: State, i: nat, p: Phase)
    requires Inv(s) && i < |s.phase| && p.Ended() && !s.phase[i].Ended()
    requires p.Granted() ==> s.phase[i].Granted()
    ensures Inv(Fill(SetPhase(s, i, p), 0))
  {
    CountAfterSet(s.phase, i, p);
    FillKeepsInv(SetPhase(s, i, p));
  }

  lemma StepKeepsInv(s: State, e: Event)
    requires Inv(s)
    ensures Inv(Step(s, e))
  {
    match e
    case Submit => SubmitKeepsInv(s);
    case Receive(i) =>
      if i < |s.phase| && s.phase[i].Ready? {
        SwitchKeepsInv(s, i, Holding);
      }
    case Cancel(i) =>
      if i < |s.phase| && s.phase[i].Waiting? {
        EndKeepsInv(s, i, Cancelled);
      } else if i < |s.phase| && s.phase[i].Ready? {
        SwitchKeepsInv(s, i, Retiring);
      }
    case Release(i) =>
      if i < |s.phase| && (s.phase[i].Holding? || s.phase[i].Retiring?) {
        EndKeepsInv(s, i, Released);
      }
  }

  /** In every reachable state no more leases are out than the capacity, someone waits only when
      all are out, and nobody was granted a lease before an earlier request still waiting. */
  lemma {:induction false} RunKeepsInv(s: State, events: seq<Event>)
    requires Inv(s)
    ensures Inv(Run(s, events))
    decreases |events|
  {
    if events != [] {
      StepKeepsInv(s, events[0]);
      RunKeepsInv(Step(s, events[0]), events[1..]);
    }
  }

  /** Giving back a lease hands exactly one lease to the head of the queue, if there is one: the
      number of leases out then stays the same, and every other waiter moves up by one. */
  lemma ReleaseAdvances(s: State, i: nat)
    requires Inv(s) && i < |s.phase| && (s.phase[i].Holding? || s.phase[i].Retiring?) && Queue(s.phase, 0) != []
    ensures var r := Step(s, Release(i));
      var head := Queue(s.phase, 0)[0];
      head < |s.phase| && r.phase == s.phase[i := Released][head := Ready] &&
      LiveCount(r.phase) == LiveCount(s.phase) && Queue(r.phase, 0) == Queue(s.phase, 0)[1..]
  {
    var m := SetPhase(s, i, Released);
    CountAfterSet(s.phase, i, Released);
    QueueIgnores(s.phase, 0, i, Released);
    FillHead(m);
    FillFull(SetPhase(m, Queue(s.phase, 0)[0], Ready), 0);
  }

  /** A request's phase only moves forward; ending twice, or cancelling after the end, does nothing. */
  lemma StepMovesForward(s: State, e: Event, i: nat)
    requires i < |s.phase|
    ensures var p, q := s.phase[i], Step(s, e).phase[i];
      || q == p
      || (p.Waiting? && (q.Ready? || q.Cancelled?))
      || (p.Ready? && (q.Holding? || q.Retiring?))
      || ((p.Holding? || p.Retiring?) && q.Released?)
    ensures s.phase[i].Ended() && (e == Release(i) || e == Cancel(i)) ==> Step(s, e) == s
  {
    match e
    case Submit =>
    case Receive(_) =>
    case Cancel(k) =>
      if k < |s.phase| && s.phase[k].Waiting? {
        FillOnlyWakes(SetPhase(s, k, Cancelled), 0, i);
      }
    case Release(k) =>
      if k < |s.phase| && (s.phase[k].Holding? || s.phase[k].Retiring?) {
        FillOnlyWakes(SetPhase(s, k, Released), 0, i);
      }
  }

  lemma {:induction false} FillOnlyWakes(s: State, at: nat, i: nat)
    requires at <= |s.phase| && i < |s.phase|
    ensures var q := Fill(s, at).phase[i]; q == s.phase[i] || (s.phase[i].Waiting? && q.Ready?)
    decreases |s.phase| - at
  {
    if at < |s.phase| {
      FillOnlyWakes(if s.phase[at].Waiting? && LiveCount(s.phase) < s.capacity then SetPhase(s, at, Ready) else s, at + 1, i);
    }
  }

  // ---- What a caller's step does ----

  /** Asking leases at once exactly when one is free and nobody waits. */
  lemma SubmitLeasesOrParks(s: State)
    ensures Step(s, Submit).phase ==
      s.phase + [if LiveCount(s.phase) < s.capacity && (forall i | 0 <= i < |s.phase| :: !s.phase[i].Waiting?) then Holding else Waiting]
  {
    QueueHolds(s.phase, 0);
    if Queue(s.phase, 0) != [] {
      HeadIsFirst(s.phase);
    }
  }

  lemma ReceiveHolds(s: State, i: nat)
    requires i < |s.phase| && s.phase[i].Ready?
    ensures Step(s, Receive(i)).phase == s.phase[i := Holding]
  {
  }

  /** Cancelling ends a waiter; one whose lease came first has it to give back. */
  lemma CancelEnds(s: State, i: nat)
    requires i < |s.phase|
    ensures s.phase[i].Waiting? ==> Step(s, Cancel(i)).phase[i].Cancelled?
    ensures s.phase[i].Ready? ==> Step(s, Cancel(i)).phase == s.phase[i := Retiring]
  {
    if s.phase[i].Waiting? {
      FillOnlyWakes(SetPhase(s, i, Cancelled), 0, i);
    }
  }

  /** Giving a lease back ends it, and leaves every other request as it is or wakes it; with nobody
      waiting it only makes room. */
  lemma ReleaseEnds(s: State, i: nat, k: nat)
    requires i < |s.phase| && (s.phase[i].Holding? || s.phase[i].Retiring?) && k < |s.phase|
    ensures var q := Step(s, Release(i)).phase;
      q[i] == Released && (k != i ==> q[k] == s.phase[k] || (s.phase[k].Waiting? && q[k].Ready?))
    ensures Queue(s.phase, 0) == [] ==>
      Step(s, Release(i)).phase == s.phase[i := Released] && LiveCount(Step(s, Release(i)).phase) == LiveCount(s.phase) - 1
  {
    var m := SetPhase(s, i, Released);
    FillOnlyWakes(m, 0, i);
    FillOnlyWakes(m, 0, k);
    CountAfterSet(s.phase, i, Released);
    if Queue(s.phase, 0) == [] {
      QueueIgnores(s.phase, 0, i, Released);
      FillNobody(m);
    }
  }

  lemma {:induction false} LiveIsCounted(phase: seq<Phase>, i: nat)
    requires i < |phase| && phase[i].Live()
    ensures LiveCount(phase) > 0
    decreases |phase|
  {
    if i < |phase| - 1 {
      LiveIsCounted(phase[..|phase| - 1], i);
    }
  }

  lemma {:induction false} RunAppends(s: State, events: seq<Event>, e: Event)
    ensures Run(s, events + [e]) == Step(Run(s, events), e)
    decreases |events|
  {
    if events == [] {
      assert [e][1..] == [] && events + [e] == [e];
      assert Run(Step(s, e), []) == Step(s, e);
    } else {
      RunAppends(Step(s, events[0]), events[1..], e);
      assert (events + [e])[1..] == events[1..] + [e];
    }
  }

  // ---- The counter and the queue ----

  /** The queue and the count after the waiter at index has left. */
  lemma LeavesQueue(phase: seq<Phase>, who: nat, index: nat)
    requires who < |phase| && index < |Queue(phase, 0)| && Queue(phase, 0)[index] == who && phase[who].Waiting?
    ensures Queue(phase[who := Cancelled], 0) == Queue(phase, 0)[..index] + Queue(phase, 0)[index + 1..]
    ensures LiveCount(phase[who := Cancelled]) == LiveCount(phase)
  {
    QueueHolds(phase, 0);
    QueueRemoves(phase, 0, who, Cancelled);
    WithoutCuts(Queue(phase, 0), index);
    CountAfterSet(phase, who, Cancelled);
  }

  class Budget {
    var capacity: nat
    var active: nat
    var queue: seq<nat>
    ghost var log: State
    ghost var history: seq<Event>

    ghost predicate Matches()
      reads this
    {
      capacity >= 1 && log.capacity == capacity && active == LiveCount(log.phase) && queue == Queue(log.phase, 0)
    }

    /** The fields stand for a state reached from the empty one. */
    ghost predicate Valid()
      reads this
    {
      Matches() && log == Run(State(capacity, []), history)
    }

    constructor (wanted: int)
      ensures Valid() && history == [] && capacity == if wanted < 1 then 1 else wanted
    {
      capacity := if wanted < 1 then 1 else wanted;
      active := 0;
      queue := [];
      log := State(if wanted < 1 then 1 else wanted, []);
      history := [];
    }

    /** Asking for a lease; `who` is the new waiter's channel. */
    method Acquire(who: nat) returns (granted: bool)
      requires Valid() && who == |log.phase|
      modifies this
      ensures Valid() && capacity == old(capacity) && history == old(history) + [Submit]
      ensures who < |log.phase| && log.phase[who] == if granted then Holding else Waiting
      ensures granted <==> old(active) < capacity && old(queue) == []
      ensures active == old(active) + (if granted then 1 else 0) && queue == old(queue) + (if granted then [] else [who])
    {
      RunAppends(State(capacity, []), history, Submit);
      history := history + [Submit];
      granted := active < capacity && |queue| == 0;
      CountAfterAppend(log.phase, if granted then Holding else Waiting);
      QueueAppends(log.phase, 0, if granted then Holding else Waiting);
      log := Step(log, Submit);
      if granted {
        active := active + 1;
      } else {
        queue := queue + [who];
      }
    }

    /** The loop that hands out free leases. */
    method DispatchQueue()
      requires Matches()
      modifies this`active, this`queue, this`log
      ensures Matches() && log == Fill(old(log), 0)
    {
      while active < capacity && |queue| != 0
        invariant Matches() && Fill(log, 0) == Fill(old(log), 0)
        decreases |queue|
      {
        FillHead(log);
        log := SetPhase(log, queue[0], Ready);
        queue := queue[1..];
        active := active + 1;
      }
      if |queue| == 0 {
        FillNobody(log);
      } else {
        FillFull(log, 0);
      }
    }

    method Receive(who: nat)
      requires Valid() && who < |log.phase| && log.phase[who].Ready?
      modifies this`log, this`history
      ensures Valid() && history == old(history) + [Event.Receive(who)]
      ensures who < |log.phase| && log.phase[who] == Holding && active == old(active) && queue == old(queue)
    {
      RunAppends(State(capacity, []), history, Event.Receive(who));
      CountAfterSet(log.phase, who, Holding);
      QueueIgnores(log.phase, 0, who, Holding);
      history := history + [Event.Receive(who)];
      log := SetPhase(log, who, Holding);
    }

    /** The cancelled caller leaves the queue, or finds that its grant came first. */
    method Cancel(who: nat) returns (removed: bool)
      requires Valid() && who < |log.phase| && (log.phase[who].Waiting? || log.phase[who].Ready?)
      modifies this
      ensures Valid() && capacity == old(capacity) && history == old(history) + [Event.Cancel(who)]
      ensures removed == old(log).phase[who].Waiting?
      ensures who < |log.phase| && log.phase[who] == if removed then Cancelled else Retiring
    {
      CancelEnds(log, who);
      RunAppends(State(capacity, []), history, Event.Cancel(who));
      history := history + [Event.Cancel(who)];
      var index := FindWaiter(who);
      removed := index < |queue|;
      if removed {
        Withdraw(who, index);
        DispatchQueue();
      } else {
        CountAfterSet(log.phase, who, Retiring);
        QueueIgnores(log.phase, 0, who, Retiring);
        log := SetPhase(log, who, Retiring);
      }
    }

    method Withdraw(who: nat, index: nat)
      requires Matches() && who < |log.phase| && log.phase[who].Waiting? && index < |queue| && queue[index] == who
      modifies this`queue, this`log
      ensures Matches() && log == SetPhase(old(log), who, Cancelled)
    {
      LeavesQueue(log.phase, who, index);
      queue := queue[..index] + queue[index + 1..];
      log := SetPhase(log, who, Cancelled);
    }

    method FindWaiter(who: nat) returns (index: nat)
      requires queue == Queue(log.phase, 0) && who < |log.phase|
      ensures index <= |queue| && (index < |queue| ==> queue[index] == who) && (index < |queue| <==> log.phase[who].Waiting?)
    {
      QueueHolds(log.phase, 0);
      index := 0;
      while index < |queue| && queue[index] != who
        invariant index <= |queue| && forall j | 0 <= j < index :: queue[j] != who
      {
        index := index + 1;
      }
      assert index < |queue| ==> queue[index] in queue;
    }

    /** Giving a lease back, once per lease. The guard against counting below zero never fires. */
    method Release(who: nat)
      requires Valid() && who < |log.phase| && (log.phase[who].Holding? || log.phase[who].Retiring?)
      modifies this
      ensures Valid() && capacity == old(capacity) && history == old(history) + [Event.Release(who)]
      ensures who < |log.phase| && log.phase[who] == Released
      ensures old(queue) == [] ==> active == old(active) - 1 && queue == []
      ensures old(queue) != [] ==> active == old(active) && queue == old(queue)[1..]
    {
      ReleaseEnds(log, who, who);
      RunKeepsInv(State(capacity, []), history);
      if queue != [] {
        ReleaseAdvances(log, who);
      }
      RunAppends(State(capacity, []), history, Event.Release(who));
      history := history + [Event.Release(who)];
      LiveIsCounted(log.phase, who);
      CountAfterSet(log.phase, who, Released);
      QueueIgnores(log.phase, 0, who, Released);
      if active > 0 {
        active := active - 1;
      }
      log := SetPhase(log, who, Released);
      DispatchQueue();
    }
  }
}
