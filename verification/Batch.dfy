/** Running a planned batch: who runs when, and what becomes of the results. */
module Batch {
  import opened Wrappers
  import opened Utf8
  import opened ResultCache

  // ---- Dispatch ----

  datatype Event = Start(index: nat) | Finish(index: nat)

  /** `next` is the dispatcher's place in the batch; `history` records what happened. */
  datatype State = State(next: nat, running: set<nat>, done: set<nat>, history: seq<Event>)

  const IDLE := State(0, {}, {}, [])

  predicate Runs(slots: seq<Slot>, i: nat) {
    i < |slots| && !slots[i].skip
  }

  predicate IsSerial(slots: seq<Slot>, i: nat) {
    Runs(slots, i) && slots[i].policy == Serial
  }

  /** A serial call runs on the dispatcher itself, which meanwhile starts nothing. */
  predicate Busy(slots: seq<Slot>, s: State) {
    exists i | i in s.running :: IsSerial(slots, i)
  }

  predicate Step(slots: seq<Slot>, s: State, t: State) {
    || (s.next < |slots| && slots[s.next].skip && !Busy(slots, s) && t == s.(next := s.next + 1))
    || (Runs(slots, s.next) && !Busy(slots, s) && (IsSerial(slots, s.next) ==> s.running == {}) &&
        t == s.(next := s.next + 1, running := s.running + {s.next}, history := s.history + [Start(s.next)]))
    || (exists i | i in s.running ::
        t == s.(running := s.running - {i}, done := s.done + {i}, history := s.history + [Finish(i)]))
  }

  predicate Complete(slots: seq<Slot>, s: State) {
    s.next == |slots| && s.running == {}
  }

  predicate Precedes(history: seq<Event>, e: Event, f: Event) {
    forall p | 0 <= p < |history| && history[p] == f :: e in history[..p]
  }

  /** One of the two is serial, so the earlier call must be over before the later one starts. */
  predicate Separated(slots: seq<Slot>, i: nat, j: nat) {
    i < j && Runs(slots, i) && Runs(slots, j) && (IsSerial(slots, i) || IsSerial(slots, j))
  }

  ghost predicate Counted(slots: seq<Slot>, s: State) {
    s.next <= |slots| && s.running !! s.done &&
    (forall i: nat :: i in s.running + s.done <==> i < s.next && Runs(slots, i)) &&
    (forall i | i in s.running && IsSerial(slots, i) :: s.running == {i} && s.next == i + 1) &&
    (forall i: nat :: multiset(s.history)[Start(i)] == if i in s.running + s.done then 1 else 0) &&
    (forall i: nat :: multiset(s.history)[Finish(i)] == if i in s.done then 1 else 0)
  }

  ghost predicate Ordered(slots: seq<Slot>, s: State) {
    forall i, j | Separated(slots, i, j) :: Precedes(s.history, Finish(i), Start(j))
  }

  ghost predicate Inv(slots: seq<Slot>, s: State) {
    Counted(slots, s) && Ordered(slots, s)
  }

  lemma StillPrecedes(history: seq<Event>, e: Event, f: Event, g: Event)
    requires Precedes(history, e, f) && (g == f ==> e in history)
    ensures Precedes(history + [g], e, f)
  {
    forall p | 0 <= p < |history + [g]| && (history + [g])[p] == f
      ensures e in (history + [g])[..p]
    {
      assert (history + [g])[..p] == history[..p];
      assert history[..|history|] == history;
    }
  }

  lemma StepCounts(slots: seq<Slot>, s: State, t: State)
    requires Counted(slots, s) && Step(slots, s, t)
    ensures Counted(slots, t)
  {
    if t.history != s.history {
      var g := t.history[|s.history|];
      assert t.history == s.history + [g];
      assert multiset(t.history) == multiset(s.history) + multiset{g};
    }
  }

  lemma StepOrders(slots: seq<Slot>, s: State, t: State)
    requires Inv(slots, s) && Step(slots, s, t)
    ensures Ordered(slots, t)
  {
    if t.history != s.history {
      var g := t.history[|s.history|];
      forall i, j | Separated(slots, i, j)
        ensures Precedes(t.history, Finish(i), Start(j))
      {
        if g == Start(j) {
          assert i in s.running + s.done;
          assert i in s.done;
          assert multiset(s.history)[Finish(i)] == 1;
        }
        StillPrecedes(s.history, Finish(i), Start(j), g);
      }
    }
  }

  lemma StepKeepsInv(slots: seq<Slot>, s: State, t: State)
    requires Inv(slots, s) && Step(slots, s, t)
    ensures Inv(slots, t)
  {
    StepCounts(slots, s, t);
    StepOrders(slots, s, t);
  }

  ghost predicate Trace(slots: seq<Slot>, states: seq<State>) {
    states != [] && states[0] == IDLE && forall k | 0 <= k < |states| - 1 :: Step(slots, states[k], states[k + 1])
  }

  lemma {:induction false} RunKeepsInv(slots: seq<Slot>, states: seq<State>, k: nat)
    requires Trace(slots, states) && k < |states|
    ensures Inv(slots, states[k])
    decreases k
  {
    if k > 0 {
      RunKeepsInv(slots, states, k - 1);
      assert Step(slots, states[k - 1], states[k - 1 + 1]);
      StepKeepsInv(slots, states[k - 1], states[k]);
    }
  }

  /** At every point of every run a serial call runs alone, after every call before it and before
      every call after it. */
  lemma SerialCallsRunAlone(slots: seq<Slot>, states: seq<State>, k: nat, i: nat, j: nat)
    requires Trace(slots, states) && k < |states| && i < |slots| && j < |slots| && i != j
    requires !slots[i].skip && slots[i].policy == Serial && !slots[j].skip
    ensures i in states[k].running ==> states[k].running == {i}
    ensures if i < j then Precedes(states[k].history, Finish(i), Start(j)) else Precedes(states[k].history, Finish(j), Start(i))
  {
    RunKeepsInv(slots, states, k);
    assert Separated(slots, i, j) || Separated(slots, j, i);
  }

  /** Concurrent calls need not wait for one another: with nobody but concurrent calls running, the next such
      call can start. */
  lemma ConcurrentCallsOverlap(slots: seq<Slot>, states: seq<State>, k: nat)
    requires Trace(slots, states) && k < |states| && states[k].next < |slots|
    requires !slots[states[k].next].skip && slots[states[k].next].policy == Concurrent
    requires forall i | i in states[k].running && i < |slots| :: slots[i].policy == Concurrent
    ensures var s := states[k];
      Step(slots, s, s.(next := s.next + 1, running := s.running + {s.next}, history := s.history + [Start(s.next)]))
  {
    RunKeepsInv(slots, states, k);
    assert forall i: nat | i in states[k].running :: i in states[k].running + states[k].done;
  }

  /** When a batch is over every call that was to run has started and finished exactly once, and no
      other ever started. */
  lemma EachCallRunsOnce(slots: seq<Slot>, states: seq<State>, i: nat)
    requires Trace(slots, states) && Complete(slots, states[|states| - 1])
    ensures var h := multiset(states[|states| - 1].history);
      h[Start(i)] == h[Finish(i)] == if Runs(slots, i) then 1 else 0
  {
    RunKeepsInv(slots, states, |states| - 1);
    assert i in states[|states| - 1].running + states[|states| - 1].done <==> Runs(slots, i);
  }

  /** A batch that is not over can always go on. */
  lemma BatchesDoNotStick(slots: seq<Slot>, s: State) returns (t: State)
    requires Inv(slots, s) && !Complete(slots, s)
    ensures Step(slots, s, t)
  {
    if i :| i in s.running {
      t := s.(running := s.running - {i}, done := s.done + {i}, history := s.history + [Finish(i)]);
    } else if slots[s.next].skip {
      t := s.(next := s.next + 1);
    } else {
      t := s.(next := s.next + 1, running := s.running + {s.next}, history := s.history + [Start(s.next)]);
    }
  }

  // ---- What becomes of a result ----

  /** `rest`: what the metadata say once the failure is described in them. */
  datatype Failure = Failure(message: seq<byte>, rest: nat)

  /** What came of running a call, and what the turn made of an error. */
  datatype Attempt = Attempt(result: Result, error: Option<Failure>, recovered: Option<Result>, canceled: bool, abortNotice: seq<byte>)

  datatype Report = Report(result: Result, error: Option<Failure>)

  function ReportOf(a: Attempt): Report {
    if a.error.Some? && a.recovered.Some? then Report(a.recovered.value, None)
    else if a.error.Some? && a.canceled then Report(a.result.(content := a.abortNotice, isError := true), None)
    else Report(a.result, a.error)
  }

  function Reports(attempts: seq<Attempt>): (reports: seq<Report>)
    ensures |reports| == |attempts| && forall i | 0 <= i < |attempts| :: reports[i] == ReportOf(attempts[i])
  {
    seq(|attempts|, i requires 0 <= i < |attempts| => ReportOf(attempts[i]))
  }

  function Normalized(r: Result, e: Failure): Result {
    r.(isError := true, content := if r.content == [] then e.message else r.content, rest := e.rest)
  }

  /** The result of call i: its own, a replay, or a copy of its owner's as it was before errors were
      made visible. */
  function Final(calls: seq<Call>, slots: seq<Slot>, reports: seq<Report>, i: nat): Result
    requires |calls| == |slots| == |reports| && i < |calls| && (slots[i].owner.Some? ==> slots[i].owner.value < |calls|)
  {
    if slots[i].owner.Some? then CachedResult(reports[slots[i].owner.value].result, calls[slots[i].owner.value].id)
    else if slots[i].skip then slots[i].result
    else if reports[i].error.Some? then Normalized(reports[i].result, reports[i].error.value)
    else reports[i].result
  }

  /** Owners run, and only copies have one. */
  ghost predicate OwnersRun(slots: seq<Slot>) {
    forall i | 0 <= i < |slots| && slots[i].owner.Some? :: slots[i].skip && slots[i].owner.value < i && Runs(slots, slots[i].owner.value)
  }

  /** What stands at place k once every call has run. */
  function Own(slots: seq<Slot>, reports: seq<Report>, k: nat): Result
    requires |slots| == |reports| && k < |slots|
  {
    if Runs(slots, k) then reports[k].result else slots[k].result
  }

  /** What a call that ran is shown as: what the turn recovered, or that it was interrupted, or its failure
      made visible, or just what it brought. */
  predicate ShownAs(a: Attempt, r: Result) {
    if a.error.None? then r == a.result
    else if a.recovered.Some? then r == a.recovered.value
    else if a.canceled then r.content == a.abortNotice && r.isError && SameRest(a.result, r) && r.rest == a.result.rest
    else
      r.isError && r.rest == a.error.value.rest && SameRest(a.result, r) &&
      r.content == if a.result.content == [] then a.error.value.message else a.result.content
  }

  predicate SameRest(a: Result, b: Result) {
    b.retry == a.retry && b.planDelta == a.planDelta && b.replayedFrom == a.replayedFrom
  }

  /** It fails the batch. */
  predicate FailsBatch(a: Attempt) {
    a.error.Some? && a.recovered.None? && !a.canceled
  }

  /** Everything about the results of a batch, from what came of running its calls. */
  lemma FinalMeans(calls: seq<Call>, slots: seq<Slot>, attempts: seq<Attempt>, i: nat, failed: Option<nat>)
    requires |calls| == |slots| == |attempts| && OwnersRun(slots) && i < |calls|
    requires FirstFailure(slots, Reports(attempts), |calls|, failed)
    ensures var r := Final(calls, slots, Reports(attempts), i);
      if !slots[i].skip then ShownAs(attempts[i], r)
      else if slots[i].owner.None? then r == slots[i].result
      else
        var o := slots[i].owner.value;
        r.replayedFrom == Some(calls[o].id) &&
        if FailsBatch(attempts[o]) then r == attempts[o].result.(replayedFrom := r.replayedFrom)
        else exists shown :: ShownAs(attempts[o], shown) && r == shown.(replayedFrom := r.replayedFrom)
    ensures !slots[i].skip && FailsBatch(attempts[i]) ==> failed.Some? && failed.value <= i
    ensures failed.Some? ==> failed.value < |calls| && !slots[failed.value].skip && FailsBatch(attempts[failed.value])
  {
    if slots[i].owner.Some? {
      var o := slots[i].owner.value;
      assert FailsBatch(attempts[o]) || ShownAs(attempts[o], ReportOf(attempts[o]).result);
    }
  }

  method CollectReports(slots: seq<Slot>, attempts: seq<Attempt>) returns (results: seq<Result>,
                        errors: seq<Option<Failure>>)
    requires |slots| == |attempts|
    ensures |results| == |errors| == |slots|
    ensures forall k | 0 <= k < |slots| :: results[k] == Own(slots, Reports(attempts), k)
    ensures forall k | 0 <= k < |slots| :: errors[k] == if Runs(slots, k) then ReportOf(attempts[k]).error else None
  {
    var n := |slots|;
    results := seq(n, i requires 0 <= i < n => slots[i].result);
    errors := seq(n, i => None);
    for i := 0 to n
      invariant |results| == |errors| == n
      invariant forall k | 0 <= k < n :: results[k] == if k < i then Own(slots, Reports(attempts), k) else slots[k].result
      invariant forall k | 0 <= k < n :: errors[k] == if k < i && Runs(slots, k) then ReportOf(attempts[k]).error else None
    {
      if !slots[i].skip {
        var report := ReportOf(attempts[i]);
        results, errors := results[i := report.result], errors[i := report.error];
      }
    }
  }

  method CopyDuplicates(calls: seq<Call>, slots: seq<Slot>, ghost reports: seq<Report>,
                        raw: seq<Result>) returns (results: seq<Result>)
    requires |calls| == |slots| == |reports| == |raw| && OwnersRun(slots)
    requires forall k | 0 <= k < |slots| :: raw[k] == Own(slots, reports, k)
    ensures |results| == |slots|
    ensures forall k | 0 <= k < |slots| ::
      results[k] == if slots[k].owner.Some? then Final(calls, slots, reports, k) else Own(slots, reports, k)
  {
    results := raw;
    for i := 0 to |slots|
      invariant |results| == |slots|
      invariant forall k | 0 <= k < |slots| ::
        results[k] == if k < i && slots[k].owner.Some? then Final(calls, slots, reports, k) else Own(slots, reports, k)
    {
      if slots[i].owner.Some? {
        var o := slots[i].owner.value;
        assert Runs(slots, o) && slots[o].owner.None?;
        results := results[i := CachedResult(results[o], calls[o].id)];
      }
    }
  }

  /** Tells which call failed first, for the batch as a whole. */
  predicate FirstFailure(slots: seq<Slot>, reports: seq<Report>, n: nat, failed: Option<nat>)
    requires n <= |slots| == |reports|
  {
    (failed.Some? ==> failed.value < n && Runs(slots, failed.value) && reports[failed.value].error.Some?) &&
    forall k | 0 <= k < n && Runs(slots, k) && reports[k].error.Some? :: failed.Some? && failed.value <= k
  }

  method FinishBatch(calls: seq<Call>, slots: seq<Slot>, attempts: seq<Attempt>) returns (results: seq<Result>,
                     failed: Option<nat>)
    requires |calls| == |slots| == |attempts| && OwnersRun(slots)
    ensures |results| == |calls|
    ensures forall i | 0 <= i < |calls| :: results[i] == Final(calls, slots, Reports(attempts), i)
    ensures FirstFailure(slots, Reports(attempts), |calls|, failed)
  {
    var n := |calls|;
    ghost var reports := Reports(attempts);
    var raw, errors := CollectReports(slots, attempts);
    results := CopyDuplicates(calls, slots, reports, raw);
    failed := None;
    for i := 0 to n
      invariant |results| == n
      invariant forall k | 0 <= k < n ::
        results[k] == if k < i || slots[k].owner.Some? then Final(calls, slots, reports, k) else Own(slots, reports, k)
      invariant FirstFailure(slots, reports, i, failed)
    {
      if errors[i].Some? {
        if failed.None? {
          failed := Some(i);
        }
        results := results[i := Normalized(results[i], errors[i].value)];
      }
    }
  }
}
