/** Replay and deduplication against plain execution: what a turn shows with the cache, and what it
    would show if every call of every batch were run. */
module Replay {
  import opened Wrappers
  import opened Utf8
  import opened ResultCache
  import opened Batch
  import opened CacheAgreement
  import opened Permutations

  // ---- Tools ----

  /** What running a call shows and does in a state of the workspace, which calls always show the same
      in the same state, and what a result leads to, however short it was cut. Calls told apart by
      nothing but their id may still show different things. */
  datatype Tools = Tools(report: (Call, nat) -> Report, next: (Call, nat) -> nat, stable: Key -> bool, full: Result -> Result)

  function Shown(p: Report): Result {
    if p.error.Some? then Normalized(p.result, p.error.value) else p.result
  }

  function Seen(w: Tools, r: Result): Result {
    w.full(Bare(r))
  }

  function Gives(w: Tools, call: Call, s: nat): Result {
    Seen(w, Shown(w.report(call, s)))
  }

  predicate GivesUp(w: Tools, call: Call, s: nat) {
    NonRetryable(Shown(w.report(call, s)))
  }

  predicate SameCall(a: Call, b: Call) {
    a.arguments.Some? && b.arguments.Some? && KeyOf(a) == KeyOf(b)
  }

  /** Stable calls, and calls that fail in a way not worth retrying, show the same whoever makes them,
      and leave the state alone. */
  ghost predicate Lawful(w: Tools) {
    forall a, b, s | SameCall(a, b) && (w.stable(KeyOf(a)) || GivesUp(w, a, s)) :: Alike(w, a, b, s)
  }

  predicate Alike(w: Tools, a: Call, b: Call, s: nat) {
    Gives(w, a, s) == Gives(w, b, s) && w.next(a, s) == s && (GivesUp(w, a, s) ==> GivesUp(w, b, s))
  }

  /** What a descriptor does not rule out: a call moves the state. Access mode does not tell. */
  predicate MayMove(d: Descriptor) {
    !d.replay && (d.capability != CanRead || d.access == Write)
  }

  predicate Moves(resolve: Resolver, call: Call) {
    Resolved(resolve, call).Some? && MayMove(Resolved(resolve, call).value)
  }

  predicate MayReplay(resolve: Resolver, call: Call) {
    Resolved(resolve, call).Some? && Resolved(resolve, call).value.replay
  }

  /** The tools are what their descriptors say. */
  ghost predicate FitsCall(w: Tools, resolve: Resolver, call: Call) {
    (!Moves(resolve, call) ==> forall s :: w.next(call, s) == s) &&
    (call.arguments.Some? && MayReplay(resolve, call) ==> w.stable(KeyOf(call)))
  }

  // ---- A batch ----

  /** A batch with its plan, and the order in which its calls take effect. */
  datatype Job = Job(calls: seq<Call>, executed: map<string, Result>, resolve: Resolver, order: seq<nat>, slots: seq<Slot>)

  ghost predicate Scheduled(c: Cache, b: Job) {
    Planned(c, b.calls, b.executed, b.resolve, b.slots) && Permutes(b.order, |b.calls|) &&
    forall i | 0 <= i < |b.calls| && b.calls[i].arguments.Some? :: Clean(KeyOf(b.calls[i]))
  }

  ghost predicate Fits(w: Tools, b: Job) {
    forall i | 0 <= i < |b.calls| :: FitsCall(w, b.resolve, b.calls[i])
  }

  /** Plain execution runs every call that was not run before; with the cache those run that the plan
      does not skip. */
  predicate Goes(b: Job, plain: bool, i: nat) {
    if plain then i < |b.calls| && b.calls[i].id !in b.executed else i < |b.calls| && Runs(b.slots, i)
  }

  function StateAfter(w: Tools, b: Job, plain: bool, i: nat, s: nat): nat {
    if Goes(b, plain, i) then w.next(b.calls[i], s) else s
  }

  /** The state once the first q calls of the order have taken effect. */
  function State(w: Tools, b: Job, plain: bool, s: nat, q: nat): nat
    requires q <= |b.order|
  {
    if q == 0 then s else StateAfter(w, b, plain, b.order[q - 1], State(w, b, plain, s, q - 1))
  }

  function StateFor(w: Tools, b: Job, plain: bool, s: nat, i: nat): nat
    requires i in b.order
  {
    State(w, b, plain, s, Place(b.order, i))
  }

  function ReportAt(w: Tools, b: Job, s: nat, i: nat): Report
    requires i in b.order && i < |b.calls|
  {
    if Runs(b.slots, i) then w.report(b.calls[i], StateFor(w, b, false, s, i)) else Report(EMPTY, None)
  }

  function ReportsOf(w: Tools, b: Job, s: nat): (reports: seq<Report>)
    requires Permutes(b.order, |b.calls|)
    ensures |reports| == |b.calls| && forall i | 0 <= i < |b.calls| :: reports[i] == ReportAt(w, b, s, i)
  {
    seq(|b.calls|, i requires 0 <= i < |b.calls| => ReportAt(w, b, s, i))
  }

  /** What call i shows with the cache. */
  function ResultOf(w: Tools, b: Job, s: nat, i: nat): Result
    requires Permutes(b.order, |b.calls|) && |b.slots| == |b.calls| && OwnersRun(b.slots) && i < |b.calls|
  {
    Final(b.calls, b.slots, ReportsOf(w, b, s), i)
  }

  /** It is what the same call would show in plain execution from the same state. */
  ghost predicate Agrees(w: Tools, b: Job, s: nat, i: nat)
    requires Permutes(b.order, |b.calls|) && |b.slots| == |b.calls| && OwnersRun(b.slots) && i < |b.calls|
  {
    Seen(w, ResultOf(w, b, s, i)) == Gives(w, b.calls[i], StateFor(w, b, true, s, i))
  }

  ghost predicate AllAgree(w: Tools, b: Job, s: nat)
    requires Permutes(b.order, |b.calls|) && |b.slots| == |b.calls| && OwnersRun(b.slots)
  {
    (forall i | 0 <= i < |b.calls| && b.calls[i].id !in b.executed :: Agrees(w, b, s, i)) &&
    State(w, b, true, s, |b.order|) == State(w, b, false, s, |b.order|)
  }

  /** No call that others copy from ends in an error the turn did not recover from. */
  ghost predicate OwnersSucceed(w: Tools, b: Job, s: nat)
    requires Permutes(b.order, |b.calls|) && |b.slots| == |b.calls| && OwnersRun(b.slots)
  {
    forall i | 0 <= i < |b.slots| && b.slots[i].owner.Some? :: ReportsOf(w, b, s)[b.slots[i].owner.value].error.None?
  }

  // ---- The cache and the state ----

  /** What the entry says of the call it is filed under holds in the state. */
  ghost predicate Backs(w: Tools, c: Cache, s: nat, f: seq<byte>, k: Key)
    requires f in c.entries
  {
    Clean(k) && Fingerprint(k, c.revision) == f && (w.stable(k) || NonRetryable(c.entries[f].result)) &&
    forall a: Call | a.arguments.Some? && KeyOf(a) == k :: Holds(w, c.entries[f].result, a, s)
  }

  /** Running the call in the state would show what the entry holds and move nothing. */
  predicate Holds(w: Tools, r: Result, a: Call, s: nat) {
    Gives(w, a, s) == Seen(w, r) && w.next(a, s) == s && (NonRetryable(r) ==> GivesUp(w, a, s))
  }

  ghost predicate CacheSound(w: Tools, c: Cache, s: nat) {
    forall f | f in c.entries :: exists k :: Backs(w, c, s, f, k)
  }

  function PrintOf(c: Cache, call: Call): seq<byte>
    requires call.arguments.Some?
  {
    Fingerprint(KeyOf(call), c.revision)
  }

  predicate Known(c: Cache, call: Call) {
    call.arguments.Some? && PrintOf(c, call) in c.entries
  }

  lemma KnownCallsHold(w: Tools, c: Cache, s: nat, call: Call)
    requires CacheSound(w, c, s) && Known(c, call) && Clean(KeyOf(call))
    ensures Backs(w, c, s, PrintOf(c, call), KeyOf(call))
  {
    var f := PrintOf(c, call);
    var k :| Backs(w, c, s, f, k);
    FingerprintIsInjective(k, KeyOf(call), c.revision, c.revision);
  }

  // ---- What stands between a skipped call and what it shows ----

  /** A call that runs, may move the state, and of which the cache knows nothing. */
  predicate Disturbs(c: Cache, b: Job, j: nat) {
    j < |b.calls| && Runs(b.slots, j) && Moves(b.resolve, b.calls[j]) && !Known(c, b.calls[j])
  }

  /** Where the state was when what slot i shows was got: at the owner, or at the start. */
  predicate Between(b: Job, i: nat, p: nat)
    requires i in b.order && i < |b.slots| && (b.slots[i].owner.Some? ==> b.slots[i].owner.value in b.order)
  {
    var q := Place(b.order, i);
    if b.slots[i].owner.None? then p < q
    else
      var o := Place(b.order, b.slots[i].owner.value);
      o < p < q || q < p < o
  }

  /** A call that moves the state takes effect in between. */
  predicate Disturbed(c: Cache, b: Job, i: nat)
    requires Permutes(b.order, |b.calls|) && |b.slots| == |b.calls| && OwnersRun(b.slots) && i < |b.calls|
  {
    b.slots[i].skip && !b.slots[i].already && exists p | 0 <= p < |b.order| :: Between(b, i, p) && Disturbs(c, b, b.order[p])
  }

  ghost predicate Undisturbed(c: Cache, b: Job)
    requires Scheduled(c, b)
  {
    PlannedOwnersRun(c, b.calls, b.executed, b.resolve, b.slots);
    forall i | 0 <= i < |b.calls| :: !Disturbed(c, b, i)
  }

  // ---- Undisturbed, everything agrees ----

  ghost predicate Ready(w: Tools, c: Cache, b: Job, s: nat) {
    Lawful(w) && Scheduled(c, b) && Fits(w, b) && CacheSound(w, c, s) && OwnersRun(b.slots)
  }

  /** A call known to the cache that runs nonetheless leaves the state it is known in alone, and any
      state unless it is known to give up. */
  lemma KnownCallStays(w: Tools, c: Cache, b: Job, s: nat, j: nat, x: nat)
    requires Ready(w, c, b, s) && j < |b.calls| && Known(c, b.calls[j])
    requires x == s || !NonRetryable(c.entries[PrintOf(c, b.calls[j])].result)
    ensures w.next(b.calls[j], x) == x
  {
    KnownCallsHold(w, c, s, b.calls[j]);
    assert w.stable(KeyOf(b.calls[j])) ==> Alike(w, b.calls[j], b.calls[j], x);
  }

  lemma StableCallStays(w: Tools, c: Cache, b: Job, s: nat, j: nat, x: nat)
    requires Ready(w, c, b, s) && j < |b.calls| && b.calls[j].arguments.Some? && MayReplay(b.resolve, b.calls[j])
    ensures w.next(b.calls[j], x) == x
  {
    assert FitsCall(w, b.resolve, b.calls[j]);
    assert Alike(w, b.calls[j], b.calls[j], x);
  }

  lemma UnmovingCallStays(w: Tools, b: Job, j: nat, x: nat)
    requires Fits(w, b) && j < |b.calls| && !Moves(b.resolve, b.calls[j])
    ensures w.next(b.calls[j], x) == x
  {
    assert FitsCall(w, b.resolve, b.calls[j]);
  }

  /** As long as nothing disturbs, the state is that of the start. */
  lemma {:induction false} StaysAtStart(w: Tools, c: Cache, b: Job, s: nat, q: nat)
    requires Ready(w, c, b, s) && q <= |b.order| && forall p | 0 <= p < q :: !Disturbs(c, b, b.order[p])
    ensures State(w, b, false, s, q) == s
    decreases q
  {
    if q > 0 {
      StaysAtStart(w, c, b, s, q - 1);
      var j := b.order[q - 1];
      assert !Disturbs(c, b, b.order[q - 1]);
      if Goes(b, false, j) {
        if Moves(b.resolve, b.calls[j]) {
          KnownCallStays(w, c, b, s, j, s);
        } else {
          UnmovingCallStays(w, b, j, s);
        }
      }
    }
  }

  /** In a batch without write access, a call the cache knows to give up does not run. */
  lemma GivingUpIsSkipped(c: Cache, b: Job, j: nat)
    requires Scheduled(c, b) && j < |b.calls| && Runs(b.slots, j) && !OtherWrite(b.resolve, b.calls, j)
    requires Resolved(b.resolve, b.calls[j]).Some? && Known(c, b.calls[j])
    ensures !NonRetryable(c.entries[PrintOf(c, b.calls[j])].result)
  {
    assert Plans(c, b.calls, b.executed, b.resolve, b.slots, j);
  }

  /** With nothing in between that disturbs, the state stays from an owner to its copy. */
  lemma {:induction false} StaysBetween(w: Tools, c: Cache, b: Job, s: nat, p: nat, q: nat)
    requires Ready(w, c, b, s) && p <= q <= |b.order| && forall j | 0 <= j < |b.calls| :: !Writes(b.resolve, b.calls[j])
    requires forall k | p <= k < q :: !Disturbs(c, b, b.order[k])
    ensures State(w, b, false, s, p) == State(w, b, false, s, q)
    decreases q
  {
    if p < q {
      StaysBetween(w, c, b, s, p, q - 1);
      var j, x := b.order[q - 1], State(w, b, false, s, q - 1);
      assert !Disturbs(c, b, b.order[q - 1]);
      if Goes(b, false, j) {
        if Moves(b.resolve, b.calls[j]) {
          GivingUpIsSkipped(c, b, j);
          KnownCallStays(w, c, b, s, j, x);
        } else {
          UnmovingCallStays(w, b, j, x);
        }
      }
    }
  }

  lemma NoOneDisturbs(c: Cache, b: Job, i: nat)
    requires Scheduled(c, b) && OwnersRun(b.slots) && i < |b.calls| && b.slots[i].skip && !b.slots[i].already && !Disturbed(c, b, i)
    ensures forall p | 0 <= p < |b.order| && Between(b, i, p) :: !Disturbs(c, b, b.order[p])
  {
  }

  /** The state at a skipped call is that in which what it shows was got. */
  lemma SkippedFindsItsState(w: Tools, c: Cache, b: Job, s: nat, i: nat)
    requires Ready(w, c, b, s) && i < |b.calls| && b.slots[i].skip && !b.slots[i].already && !Disturbed(c, b, i)
    ensures StateFor(w, b, false, s, i) == if b.slots[i].owner.None? then s else StateFor(w, b, false, s, b.slots[i].owner.value)
  {
    NoOneDisturbs(c, b, i);
    var q := Place(b.order, i);
    if b.slots[i].owner.None? {
      assert forall p | 0 <= p < q :: Between(b, i, p);
      StaysAtStart(w, c, b, s, q);
    } else {
      var o := b.slots[i].owner.value;
      var k := Place(b.order, o);
      SkipsMeanNoOtherWrite(c, b.calls, b.executed, b.resolve, b.slots, i);
      CopiesMeanNoWrites(c, b.calls, b.executed, b.resolve, b.slots, i);
      OwnerDoesNotDisturb(c, b, o);
      OwnerDoesNotDisturb(c, b, i);
      assert forall p | (k < p < q) || (q < p < k) :: Between(b, i, p);
      if k <= q {
        StaysBetween(w, c, b, s, k, q);
      } else {
        StaysBetween(w, c, b, s, q, k);
      }
    }
  }

  lemma OwnerDoesNotDisturb(c: Cache, b: Job, o: nat)
    requires Scheduled(c, b) && o < |b.calls| && (b.slots[o].skip || b.slots[o].replay)
    ensures !Disturbs(c, b, o)
  {
    assert Plans(c, b.calls, b.executed, b.resolve, b.slots, o);
  }

  lemma SlotReplay(c: Cache, b: Job, i: nat)
    requires Scheduled(c, b) && i < |b.calls| && b.slots[i].replay
    ensures MayReplay(b.resolve, b.calls[i])
  {
    assert Plans(c, b.calls, b.executed, b.resolve, b.slots, i);
  }

  /** Running it there would show the same and move nothing. */
  lemma SkippedAgrees(w: Tools, c: Cache, b: Job, s: nat, i: nat)
    requires Ready(w, c, b, s) && OwnersSucceed(w, b, s)
    requires i < |b.calls| && b.slots[i].skip && !b.slots[i].already && !Disturbed(c, b, i)
    ensures Holds(w, ResultOf(w, b, s, i), b.calls[i], StateFor(w, b, false, s, i))
  {
    SkipsMeanNoOtherWrite(c, b.calls, b.executed, b.resolve, b.slots, i);
    SkippedFindsItsState(w, c, b, s, i);
    if b.slots[i].owner.None? {
      KnownCallsHold(w, c, s, b.calls[i]);
    } else {
      CopyGivesTheSame(w, c, b, s, i);
    }
  }

  lemma CopyGivesTheSame(w: Tools, c: Cache, b: Job, s: nat, i: nat)
    requires Ready(w, c, b, s) && OwnersSucceed(w, b, s) && i < |b.calls| && b.slots[i].owner.Some?
    requires StateFor(w, b, false, s, i) == StateFor(w, b, false, s, b.slots[i].owner.value)
    ensures Holds(w, ResultOf(w, b, s, i), b.calls[i], StateFor(w, b, false, s, i))
  {
    var x, o := StateFor(w, b, false, s, i), b.slots[i].owner.value;
    CopiesMeanNoWrites(c, b.calls, b.executed, b.resolve, b.slots, i);
    SkipsMeanNoOtherWrite(c, b.calls, b.executed, b.resolve, b.slots, i);
    SlotReplay(c, b, i);
    StableCallStays(w, c, b, s, i, x);
    assert FitsCall(w, b.resolve, b.calls[i]);
    PrintedKey(c, b.calls, b.executed, b.resolve, b.slots, o);
    assert SameCall(b.calls[i], b.calls[o]) && Alike(w, b.calls[i], b.calls[o], x);
    assert SameCall(b.calls[o], b.calls[i]) && w.stable(KeyOf(b.calls[o])) && Alike(w, b.calls[o], b.calls[i], x);
    assert ReportsOf(w, b, s)[o] == w.report(b.calls[o], x);
    assert Bare(ResultOf(w, b, s, i)) == Bare(Shown(w.report(b.calls[o], x)));
  }

  /** So plain execution goes through the same states. */
  lemma {:induction false} SameStates(w: Tools, c: Cache, b: Job, s: nat, q: nat)
    requires Ready(w, c, b, s) && OwnersSucceed(w, b, s) && Undisturbed(c, b) && q <= |b.order|
    ensures State(w, b, true, s, q) == State(w, b, false, s, q)
    decreases q
  {
    if q > 0 {
      SameStates(w, c, b, s, q - 1);
      var i := b.order[q - 1];
      PlaceIsOnly(b.order, |b.calls|, q - 1);
      assert Plans(c, b.calls, b.executed, b.resolve, b.slots, i);
      if Goes(b, true, i) && !Goes(b, false, i) {
        assert !Disturbed(c, b, i);
        SkippedAgrees(w, c, b, s, i);
      }
    }
  }

  lemma UndisturbedAgrees(w: Tools, c: Cache, b: Job, s: nat)
    requires Ready(w, c, b, s) && OwnersSucceed(w, b, s) && Undisturbed(c, b)
    ensures AllAgree(w, b, s)
  {
    forall i | 0 <= i < |b.calls| && b.calls[i].id !in b.executed
      ensures Agrees(w, b, s, i)
    {
      SameStates(w, c, b, s, Place(b.order, i));
      assert Plans(c, b.calls, b.executed, b.resolve, b.slots, i);
      if b.slots[i].skip {
        assert !Disturbed(c, b, i);
        SkippedAgrees(w, c, b, s, i);
      } else {
        assert b.slots[i].owner.None? && ReportsOf(w, b, s)[i] == w.report(b.calls[i], StateFor(w, b, false, s, i));
      }
    }
    SameStates(w, c, b, s, |b.order|);
  }

  // ---- Disturbed, something need not ----

  ghost predicate Filed(c: Cache) {
    forall f | f in c.entries :: exists k :: Clean(k) && Fingerprint(k, c.revision) == f
  }

  function Base(c: Cache, call: Call): Result {
    if Known(c, call) then Bare(c.entries[PrintOf(c, call)].result) else EMPTY
  }

  function Zeros(n: nat): (z: seq<byte>)
    ensures |z| == n
  {
    seq(n, i => 0)
  }

  function ShownAt(c: Cache, call: Call, n: nat): Result {
    Base(c, call).(content := Base(c, call).content + Zeros(n))
  }

  /** Tools of which one call moves the state, and every other shows how often it was moved. */
  function Moving(c: Cache, mover: Call): Tools {
    Tools((call: Call, n: nat) => Report(ShownAt(c, call, n), None),
          (call: Call, n: nat) => if call == mover then n + 1 else n,
          (k: Key) => !(mover.arguments.Some? && k == KeyOf(mover)),
          (r: Result) => r)
  }

  lemma MovingIsLawful(c: Cache, mover: Call)
    requires !Known(c, mover)
    ensures Lawful(Moving(c, mover))
  {
    var w := Moving(c, mover);
    forall a, b, s | SameCall(a, b) && (w.stable(KeyOf(a)) || GivesUp(w, a, s))
      ensures Alike(w, a, b, s)
    {
      assert PrintOf(c, a) == PrintOf(c, b);
    }
  }

  lemma MovingFits(c: Cache, b: Job, j: nat)
    requires Disturbs(c, b, j)
    ensures Fits(Moving(c, b.calls[j]), b)
  {
    forall i | 0 <= i < |b.calls|
      ensures FitsCall(Moving(c, b.calls[j]), b.resolve, b.calls[i])
    {
      if b.calls[i].arguments.Some? && b.calls[j].arguments.Some? && KeyOf(b.calls[i]) == KeyOf(b.calls[j]) {
        assert Resolved(b.resolve, b.calls[i]) == Resolved(b.resolve, b.calls[j]);
      }
    }
  }

  lemma MovingIsSound(c: Cache, mover: Call)
    requires Filed(c) && !Known(c, mover)
    ensures CacheSound(Moving(c, mover), c, 0)
  {
    var w := Moving(c, mover);
    forall f | f in c.entries
      ensures exists k :: Backs(w, c, 0, f, k)
    {
      var k :| Clean(k) && Fingerprint(k, c.revision) == f;
      forall a: Call | a.arguments.Some? && KeyOf(a) == k
        ensures Holds(w, c.entries[f].result, a, 0)
      {
        assert PrintOf(c, a) == f;
        assert Base(c, a).content + Zeros(0) == Base(c, a).content;
      }
      assert Backs(w, c, 0, f, k);
    }
  }

  /** A call like the mover runs whenever plain execution would run it. */
  lemma MoverRuns(c: Cache, b: Job, j: nat, i: nat)
    requires Scheduled(c, b) && Disturbs(c, b, j) && i < |b.calls| && b.calls[i] == b.calls[j]
    ensures Goes(b, true, i) == Goes(b, false, i)
    ensures Goes(b, true, j)
  {
    assert Plans(c, b.calls, b.executed, b.resolve, b.slots, i);
    assert Plans(c, b.calls, b.executed, b.resolve, b.slots, j);
  }

  lemma {:induction false} BothMoveAlike(c: Cache, b: Job, j: nat, s: nat, q: nat)
    requires Scheduled(c, b) && Disturbs(c, b, j) && q <= |b.order|
    ensures State(Moving(c, b.calls[j]), b, true, s, q) == State(Moving(c, b.calls[j]), b, false, s, q)
    decreases q
  {
    if q > 0 {
      BothMoveAlike(c, b, j, s, q - 1);
      if b.calls[b.order[q - 1]] == b.calls[j] {
        MoverRuns(c, b, j, b.order[q - 1]);
      }
    }
  }

  lemma {:induction false} MovesOnward(c: Cache, b: Job, j: nat, s: nat, p: nat, q: nat)
    requires Scheduled(c, b) && Disturbs(c, b, j) && p <= q <= |b.order|
    ensures var w := Moving(c, b.calls[j]);
      State(w, b, false, s, p) + (if exists k | p <= k < q :: b.order[k] == j then 1 else 0) <= State(w, b, false, s, q)
    decreases q
  {
    if p < q {
      MovesOnward(c, b, j, s, p, q - 1);
    }
  }

  /** Where a skipped call is disturbed, there are tools with which it does not agree. */
  lemma DisturbedCanDisagree(c: Cache, b: Job, i: nat, p: nat)
    requires Scheduled(c, b) && Filed(c) && OwnersRun(b.slots) && i < |b.calls| && b.slots[i].skip && !b.slots[i].already
    requires p < |b.order| && Between(b, i, p) && Disturbs(c, b, b.order[p])
    ensures var w := Moving(c, b.calls[b.order[p]]);
      Ready(w, c, b, 0) && OwnersSucceed(w, b, 0) && !Agrees(w, b, 0, i) && b.calls[i].id !in b.executed
  {
    var j := b.order[p];
    MovingIsReady(c, b, j);
    SkipsMeanNoOtherWrite(c, b.calls, b.executed, b.resolve, b.slots, i);
    if b.slots[i].owner.None? {
      ReplayIsLeftBehind(c, b, i, p);
    } else {
      CopyIsLeftBehind(c, b, i, p);
    }
    LeftBehindDisagrees(c, b, j, i);
  }

  lemma LeftBehindDisagrees(c: Cache, b: Job, j: nat, i: nat)
    requires Scheduled(c, b) && OwnersRun(b.slots) && i < |b.calls| && Disturbs(c, b, j)
    requires var w := Moving(c, b.calls[j]);
      |Seen(w, ResultOf(w, b, 0, i)).content| != |Base(c, b.calls[i]).content| + State(w, b, false, 0, Place(b.order, i))
    ensures !Agrees(Moving(c, b.calls[j]), b, 0, i)
  {
    var w, q := Moving(c, b.calls[j]), Place(b.order, i);
    BothMoveAlike(c, b, j, 0, q);
    assert Gives(w, b.calls[i], State(w, b, true, 0, q)).content == Base(c, b.calls[i]).content + Zeros(State(w, b, true, 0, q));
  }

  lemma MovingIsReady(c: Cache, b: Job, j: nat)
    requires Scheduled(c, b) && Filed(c) && OwnersRun(b.slots) && Disturbs(c, b, j)
    ensures Ready(Moving(c, b.calls[j]), c, b, 0) && OwnersSucceed(Moving(c, b.calls[j]), b, 0)
  {
    MovingIsLawful(c, b.calls[j]);
    MovingFits(c, b, j);
    MovingIsSound(c, b.calls[j]);
  }

  lemma ReplayIsLeftBehind(c: Cache, b: Job, i: nat, p: nat)
    requires Scheduled(c, b) && OwnersRun(b.slots) && i < |b.calls| && b.slots[i].skip && !b.slots[i].already && b.slots[i].owner.None?
    requires p < |b.order| && Between(b, i, p) && Disturbs(c, b, b.order[p])
    ensures var w := Moving(c, b.calls[b.order[p]]);
      |Seen(w, ResultOf(w, b, 0, i)).content| != |Base(c, b.calls[i]).content| + State(w, b, false, 0, Place(b.order, i))
  {
    SkipsMeanNoOtherWrite(c, b.calls, b.executed, b.resolve, b.slots, i);
    MovesOnward(c, b, b.order[p], 0, 0, Place(b.order, i));
    assert Known(c, b.calls[i]);
  }

  lemma CopyIsLeftBehind(c: Cache, b: Job, i: nat, p: nat)
    requires Scheduled(c, b) && OwnersRun(b.slots) && i < |b.calls| && b.slots[i].owner.Some?
    requires p < |b.order| && Between(b, i, p) && Disturbs(c, b, b.order[p])
    ensures var w := Moving(c, b.calls[b.order[p]]);
      |Seen(w, ResultOf(w, b, 0, i)).content| != |Base(c, b.calls[i]).content| + State(w, b, false, 0, Place(b.order, i))
  {
    var j, o, q := b.order[p], b.slots[i].owner.value, Place(b.order, i);
    var w, k := Moving(c, b.calls[j]), Place(b.order, o);
    CopiesMeanNoWrites(c, b.calls, b.executed, b.resolve, b.slots, i);
    SkipsMeanNoOtherWrite(c, b.calls, b.executed, b.resolve, b.slots, i);
    PrintedKey(c, b.calls, b.executed, b.resolve, b.slots, o);
    assert Base(c, b.calls[o]) == Base(c, b.calls[i]);
    assert ReportsOf(w, b, 0)[o] == w.report(b.calls[o], State(w, b, false, 0, k));
    if k < q {
      MovesOnward(c, b, j, 0, k, q);
    } else {
      MovesOnward(c, b, j, 0, q, k);
    }
  }

  /** Replay and deduplication agree with plain execution, for all tools that are what their descriptors
      say and whose owners do not fail, exactly when no call that may move the state, and of which the
      cache knows nothing, takes effect between a skipped call and where what it shows was got. */
  lemma AgreementIsUndisturbed(c: Cache, b: Job)
    requires Scheduled(c, b) && Filed(c)
    ensures Undisturbed(c, b) <==> forall w, s | Ready(w, c, b, s) && OwnersSucceed(w, b, s) :: AllAgree(w, b, s)
  {
    PlannedOwnersRun(c, b.calls, b.executed, b.resolve, b.slots);
    if Undisturbed(c, b) {
      forall w, s | Ready(w, c, b, s) && OwnersSucceed(w, b, s)
        ensures AllAgree(w, b, s)
      {
        UndisturbedAgrees(w, c, b, s);
      }
    } else {
      var i :| 0 <= i < |b.calls| && Disturbed(c, b, i);
      var p :| 0 <= p < |b.order| && Between(b, i, p) && Disturbs(c, b, b.order[p]);
      DisturbedCanDisagree(c, b, i, p);
    }
  }

  /** Whoever may move the state says so by asking for write access. */
  predicate Declared(b: Job) {
    forall j | 0 <= j < |b.calls| && Moves(b.resolve, b.calls[j]) :: Writes(b.resolve, b.calls[j])
  }

  /** Then nothing is disturbed, in whatever order the calls take effect. */
  lemma DeclaredIsUndisturbed(c: Cache, b: Job)
    requires Scheduled(c, b) && Declared(b)
    ensures Undisturbed(c, b)
  {
    PlannedOwnersRun(c, b.calls, b.executed, b.resolve, b.slots);
    forall i | 0 <= i < |b.calls|
      ensures !Disturbed(c, b, i)
    {
      if b.slots[i].skip && !b.slots[i].already {
        SkipsMeanNoOtherWrite(c, b.calls, b.executed, b.resolve, b.slots, i);
      }
    }
  }

  // ---- A whole turn ----

  /** A batch as it was run: what its results became when they were admitted, and whether a change was
      reported. */
  datatype Round = Round(job: Job, kept: seq<Result>, mutated: bool)

  /** Admission may cut a result, but what is left leads to the same. */
  predicate Admitted(w: Tools, r: Result, kept: Result) {
    Seen(w, kept) == Seen(w, r) && NonRetryable(kept) == NonRetryable(r)
  }

  ghost predicate RoundOf(w: Tools, c: Cache, s: nat, r: Round, d: Cache, t: nat) {
    var b := r.job;
    Scheduled(c, b) && |r.kept| == |b.calls| && t == State(w, b, false, s, |b.order|) &&
    (PlannedOwnersRun(c, b.calls, b.executed, b.resolve, b.slots);
     forall i | 0 <= i < |b.calls| :: Admitted(w, ResultOf(w, b, s, i), r.kept[i])) &&
    d.revision == Committed(c, b.calls, b.slots, r.kept, r.mutated).revision &&
    d.entries == Committed(c, b.calls, b.slots, r.kept, r.mutated).entries
  }

  /** A call that moves the state is reported, as a file change or a change of the plan. */
  ghost predicate Reported(w: Tools, s: nat, r: Round) {
    forall q | 0 <= q < |r.job.order| :: Told(w, s, r, q)
  }

  ghost predicate Told(w: Tools, s: nat, r: Round, q: nat)
    requires q < |r.job.order|
  {
    StateAfter(w, r.job, false, r.job.order[q], State(w, r.job, false, s, q)) != State(w, r.job, false, s, q) ==> Changed(r.kept, r.mutated)
  }

  lemma {:induction false} UntoldIsStill(w: Tools, s: nat, r: Round, q: nat)
    requires Reported(w, s, r) && !Changed(r.kept, r.mutated) && q <= |r.job.order|
    ensures State(w, r.job, false, s, q) == s
    decreases q
  {
    if q > 0 {
      UntoldIsStill(w, s, r, q - 1);
      assert Told(w, s, r, q - 1);
    }
  }

  /** What a batch shows and leaves the state alone holds in that state. */
  lemma ResultHolds(w: Tools, c: Cache, b: Job, s: nat, i: nat)
    requires Ready(w, c, b, s) && OwnersSucceed(w, b, s) && Undisturbed(c, b) && i < |b.calls|
    requires b.slots[i].fingerprint.Some? && StateFor(w, b, false, s, i) == s
    ensures Seen(w, ResultOf(w, b, s, i)) == Gives(w, b.calls[i], s)
    ensures NonRetryable(ResultOf(w, b, s, i)) ==> GivesUp(w, b.calls[i], s)
  {
    assert Plans(c, b.calls, b.executed, b.resolve, b.slots, i);
    if b.slots[i].skip {
      assert !Disturbed(c, b, i);
      SkippedAgrees(w, c, b, s, i);
    } else {
      assert b.slots[i].owner.None? && ReportsOf(w, b, s)[i] == w.report(b.calls[i], s);
    }
  }

  lemma KeptIsBacked(w: Tools, c: Cache, b: Job, s: nat, i: nat, kept: Result, d: Cache, f: seq<byte>)
    requires Ready(w, c, b, s) && OwnersSucceed(w, b, s) && Undisturbed(c, b)
    requires i < |b.calls| && Admitted(w, ResultOf(w, b, s, i), kept) && Keeps(b.slots[i], kept)
    requires StateFor(w, b, false, s, i) == s && d.revision == c.revision
    requires b.slots[i].fingerprint == Some(f) && f in d.entries && d.entries[f].result == kept
    ensures exists k :: Backs(w, d, s, f, k)
  {
    PrintedKey(c, b.calls, b.executed, b.resolve, b.slots, i);
    ResultHolds(w, c, b, s, i);
    if b.slots[i].replay {
      SlotReplay(c, b, i);
      assert FitsCall(w, b.resolve, b.calls[i]);
      StableBacks(w, d, s, f, b.calls[i]);
    } else {
      GivingUpBacks(w, d, s, f, b.calls[i]);
    }
  }

  lemma StableBacks(w: Tools, d: Cache, s: nat, f: seq<byte>, call: Call)
    requires Lawful(w) && call.arguments.Some? && w.stable(KeyOf(call)) && Clean(KeyOf(call)) && f == PrintOf(d, call)
    requires f in d.entries && Seen(w, d.entries[f].result) == Gives(w, call, s)
    requires NonRetryable(d.entries[f].result) ==> GivesUp(w, call, s)
    ensures Backs(w, d, s, f, KeyOf(call))
  {
    forall a: Call | a.arguments.Some? && KeyOf(a) == KeyOf(call)
      ensures Holds(w, d.entries[f].result, a, s)
    {
      assert SameCall(call, a) && SameCall(a, call) && Alike(w, call, a, s) && Alike(w, a, call, s);
    }
  }

  lemma GivingUpBacks(w: Tools, d: Cache, s: nat, f: seq<byte>, call: Call)
    requires Lawful(w) && call.arguments.Some? && GivesUp(w, call, s) && Clean(KeyOf(call)) && f == PrintOf(d, call)
    requires f in d.entries && Seen(w, d.entries[f].result) == Gives(w, call, s) && NonRetryable(d.entries[f].result)
    ensures Backs(w, d, s, f, KeyOf(call))
  {
    forall a: Call | a.arguments.Some? && KeyOf(a) == KeyOf(call)
      ensures Holds(w, d.entries[f].result, a, s)
    {
      assert SameCall(call, a) && SameCall(a, call) && Alike(w, call, a, s) && Alike(w, a, call, s);
    }
  }

  lemma EntryIsBacked(w: Tools, c: Cache, s: nat, r: Round, d: Cache, t: nat, f: seq<byte>)
    requires Ready(w, c, r.job, s) && OwnersSucceed(w, r.job, s) && Undisturbed(c, r.job)
    requires RoundOf(w, c, s, r, d, t) && Reported(w, s, r) && f in d.entries
    ensures exists k :: Backs(w, d, t, f, k)
  {
    var b := r.job;
    UntoldIsStill(w, s, r, |b.order|);
    KeptComesFrom(c.entries, b.calls, b.slots, r.kept, |b.calls|, f);
    if f in c.entries && d.entries[f] == c.entries[f] {
      var k :| Backs(w, c, s, f, k);
      assert Backs(w, d, s, f, k);
    } else {
      var i :| 0 <= i < |b.calls| && Keeps(b.slots[i], r.kept[i]) && b.slots[i].fingerprint == Some(f) &&
        d.entries[f] == Entry(b.calls[i].id, r.kept[i]);
      UntoldIsStill(w, s, r, Place(b.order, i));
      KeptIsBacked(w, c, b, s, i, r.kept[i], d, f);
    }
  }

  /** One round: everything it shows is what plain execution shows, the state ends up the same, and the
      cache is fit for the next round. */
  lemma RoundAgrees(w: Tools, c: Cache, s: nat, r: Round, d: Cache, t: nat)
    requires Ready(w, c, r.job, s) && OwnersSucceed(w, r.job, s) && Undisturbed(c, r.job)
    requires RoundOf(w, c, s, r, d, t) && Reported(w, s, r)
    ensures AllAgree(w, r.job, s) && t == State(w, r.job, true, s, |r.job.order|)
    ensures CacheSound(w, d, t)
  {
    UndisturbedAgrees(w, c, r.job, s);
    forall f | f in d.entries
      ensures exists k :: Backs(w, d, t, f, k)
    {
      EntryIsBacked(w, c, s, r, d, t, f);
    }
  }

  /** A turn: rounds one after the other, from an empty cache; `states` are those between them. */
  ghost predicate Rounds(w: Tools, caches: seq<Cache>, states: seq<nat>, rounds: seq<Round>) {
    |caches| == |states| == |rounds| + 1 && caches[0].entries == map[] && Lawful(w) &&
    forall j {:trigger rounds[j]} | 0 <= j < |rounds| ::
      RoundOf(w, caches[j], states[j], rounds[j], caches[j + 1], states[j + 1]) && Fits(w, rounds[j].job) &&
      Undisturbed(caches[j], rounds[j].job) && Reported(w, states[j], rounds[j]) && OwnersRun(rounds[j].job.slots) &&
      OwnersSucceed(w, rounds[j].job, states[j])
  }

  lemma {:induction false} RoundsKeepSound(w: Tools, caches: seq<Cache>, states: seq<nat>, rounds: seq<Round>, j: nat)
    requires Rounds(w, caches, states, rounds) && j <= |rounds|
    ensures CacheSound(w, caches[j], states[j])
    decreases j
  {
    if j > 0 {
      RoundsKeepSound(w, caches, states, rounds, j - 1);
      var r := rounds[j - 1];
      RoundAgrees(w, caches[j - 1], states[j - 1], r, caches[j], states[j]);
    }
  }

  /** Over any sequence of undisturbed rounds the cache refines plain execution: every call shows what it
      would show if every call were run, and every round leaves the state in which that would. */
  lemma CacheRefinesExecution(w: Tools, caches: seq<Cache>, states: seq<nat>, rounds: seq<Round>, j: nat)
    requires Rounds(w, caches, states, rounds) && j < |rounds|
    ensures AllAgree(w, rounds[j].job, states[j])
    ensures states[j + 1] == State(w, rounds[j].job, true, states[j], |rounds[j].job.order|)
  {
    RoundsKeepSound(w, caches, states, rounds, j);
    var r := rounds[j];
    RoundAgrees(w, caches[j], states[j], r, caches[j + 1], states[j + 1]);
  }

  // ---- A change between two reads ----

  const READ_A: Call := Call("first", [114], NOWHERE, Some([97]))
  const CHANGE_A: Call := Call("change", [112], NOWHERE, Some([97]))
  const READ_AGAIN: Call := READ_A.(id := "again")
  const FRESH := Cache(0, map[], 0)
  const WARM := Cache(0, map[Fingerprint(KeyOf(READ_A), 0) := Entry("first", EMPTY)], 0)

  /** Tools that change files under tree access, as applying a patch does, or under read access, as
      running a command does. */
  predicate Unannounced(d: Descriptor) {
    MayMove(d) && d.access != Write
  }

  function ReadOr(d: Descriptor): Resolver {
    (name: seq<byte>, binding: CatalogBinding) => if name == [112] then Some(d) else Some(READ)
  }

  ghost predicate PlannedJob(c: Cache, calls: seq<Call>, order: seq<nat>, d: Descriptor, b: Job) {
    b.calls == calls && b.executed == map[] && b.resolve == ReadOr(d) && b.order == order &&
    Planned(c, b.calls, b.executed, b.resolve, b.slots)
  }

  lemma KeysDiffer()
    ensures Fingerprint(KeyOf(CHANGE_A), 0) != Fingerprint(KeyOf(READ_A), 0)
  {
    if Fingerprint(KeyOf(CHANGE_A), 0) == Fingerprint(KeyOf(READ_A), 0) {
      FingerprintIsInjective(KeyOf(CHANGE_A), KeyOf(READ_A), 0, 0);
    }
  }

  lemma ChangedPlan(d: Descriptor, b: Job)
    requires Unannounced(d) && PlannedJob(FRESH, [READ_A, CHANGE_A, READ_AGAIN], [0, 1, 2], d, b)
    ensures Runs(b.slots, 1) && b.slots[2].skip && !b.slots[2].already && b.slots[2].owner == Some(0)
  {
    assert forall j | 0 <= j < 3 :: !Writes(b.resolve, b.calls[j]);
    assert Plans(FRESH, b.calls, b.executed, b.resolve, b.slots, 0);
    assert Plans(FRESH, b.calls, b.executed, b.resolve, b.slots, 1);
    assert Owns(b.resolve, b.calls, b.slots, 0, Fingerprint(KeyOf(READ_A), 0));
    assert Plans(FRESH, b.calls, b.executed, b.resolve, b.slots, 2);
    KeysDiffer();
  }

  /** An instance: the second of two reads is copied from the first across a change in between, and
      shows the file as it was; run, it would show it as it is. */
  lemma CopyAcrossAChange(d: Descriptor, b: Job)
    requires Unannounced(d) && PlannedJob(FRESH, [READ_A, CHANGE_A, READ_AGAIN], [0, 1, 2], d, b)
    ensures Scheduled(FRESH, b) && OwnersRun(b.slots) && b.slots[2].owner == Some(0)
    ensures var w := Moving(FRESH, CHANGE_A);
      Ready(w, FRESH, b, 0) && OwnersSucceed(w, b, 0) && !Agrees(w, b, 0, 2)
  {
    ChangedPlan(d, b);
    IdentityPermutes(b.order, 3);
    PlannedOwnersRun(FRESH, b.calls, b.executed, b.resolve, b.slots);
    PlaceIsOnly(b.order, 3, 0);
    PlaceIsOnly(b.order, 3, 2);
    assert Place(b.order, 0) == 0 && Place(b.order, 2) == 2;
    DisturbedCanDisagree(FRESH, b, 2, 1);
  }

  lemma ChangedReplay(d: Descriptor, b: Job)
    requires Unannounced(d) && PlannedJob(WARM, [CHANGE_A, READ_AGAIN], [0, 1], d, b)
    ensures Runs(b.slots, 0) && b.slots[1].skip && !b.slots[1].already && b.slots[1].owner.None? && !Known(WARM, CHANGE_A)
  {
    assert forall j | 0 <= j < 2 :: !Writes(b.resolve, b.calls[j]);
    KeysDiffer();
    assert Plans(WARM, b.calls, b.executed, b.resolve, b.slots, 0);
    assert Plans(WARM, b.calls, b.executed, b.resolve, b.slots, 1);
  }

  /** And one of a read replayed from the cache after a change in its own batch. */
  lemma ReplayAcrossAChange(d: Descriptor, b: Job)
    requires Unannounced(d) && PlannedJob(WARM, [CHANGE_A, READ_AGAIN], [0, 1], d, b)
    ensures Scheduled(WARM, b) && OwnersRun(b.slots) && b.slots[1].source == "first"
    ensures var w := Moving(WARM, CHANGE_A);
      Ready(w, WARM, b, 0) && OwnersSucceed(w, b, 0) && !Agrees(w, b, 0, 1)
  {
    ChangedReplay(d, b);
    IdentityPermutes(b.order, 2);
    PlannedOwnersRun(WARM, b.calls, b.executed, b.resolve, b.slots);
    PlaceIsOnly(b.order, 2, 1);
    assert Place(b.order, 1) == 1;
    assert Plans(WARM, b.calls, b.executed, b.resolve, b.slots, 1);
    DisturbedCanDisagree(WARM, b, 1, 0);
  }

  /** There are such plans. */
  lemma ChangesArePlanned(d: Descriptor) returns (b: Job, r: Job)
    requires Unannounced(d)
    ensures PlannedJob(FRESH, [READ_A, CHANGE_A, READ_AGAIN], [0, 1, 2], d, b)
    ensures PlannedJob(WARM, [CHANGE_A, READ_AGAIN], [0, 1], d, r)
  {
    b := CopyingJob(d);
    r := ReplayingJob(d);
  }

  function RunSlot(d: Descriptor, call: Call): Slot
    requires call.arguments.Some?
  {
    UNRESOLVED.(policy := d.policy, replay := d.replay, fingerprint := Some(Fingerprint(KeyOf(call), 0)))
  }

  lemma CopyingJob(d: Descriptor) returns (b: Job)
    requires Unannounced(d)
    ensures PlannedJob(FRESH, [READ_A, CHANGE_A, READ_AGAIN], [0, 1, 2], d, b)
  {
    var read := RunSlot(READ, READ_A);
    var slots := [read, RunSlot(d, CHANGE_A), read.(owner := Some(0), source := "first", skip := true)];
    b := Job([READ_A, CHANGE_A, READ_AGAIN], map[], ReadOr(d), [0, 1, 2], slots);
    KeysDiffer();
    assert forall j | 0 <= j < 3 :: !Writes(b.resolve, b.calls[j]);
    assert Plans(FRESH, b.calls, b.executed, b.resolve, slots, 0);
    assert Plans(FRESH, b.calls, b.executed, b.resolve, slots, 1);
    assert Owns(b.resolve, b.calls, slots, 0, Fingerprint(KeyOf(READ_A), 0));
    assert Plans(FRESH, b.calls, b.executed, b.resolve, slots, 2);
  }

  lemma ReplayingJob(d: Descriptor) returns (b: Job)
    requires Unannounced(d)
    ensures PlannedJob(WARM, [CHANGE_A, READ_AGAIN], [0, 1], d, b)
  {
    var slots := [RunSlot(d, CHANGE_A), RunSlot(READ, READ_A).(result := CachedResult(EMPTY, "first"), source := "first", skip := true)];
    b := Job([CHANGE_A, READ_AGAIN], map[], ReadOr(d), [0, 1], slots);
    KeysDiffer();
    assert forall j | 0 <= j < 2 :: !Writes(b.resolve, b.calls[j]);
    assert Plans(WARM, b.calls, b.executed, b.resolve, slots, 0);
    assert Plans(WARM, b.calls, b.executed, b.resolve, slots, 1);
  }
}
