/** What a plan replays and copies, and what becomes of the copies of a call that fails. */
module CacheAgreement {
  import opened Wrappers
  import opened Utf8
  import opened ResultCache
  import opened Batch

  // ---- What a plan replays or copies ----

  /** Replay and deduplication happen only when no other call of the batch has write access, which says
      nothing of calls that write under tree access. */
  lemma SkipsMeanNoOtherWrite(c: Cache, calls: seq<Call>, executed: map<string, Result>, resolve: Resolver,
                            slots: seq<Slot>, i: nat)
    requires Planned(c, calls, executed, resolve, slots) && i < |slots| && slots[i].skip && !slots[i].already
    ensures calls[i].arguments.Some? && calls[i].id !in executed && slots[i].fingerprint == Some(Fingerprint(KeyOf(calls[i]), c.revision))
    ensures !OtherWrite(resolve, calls, i) && NobodyElseWrites(resolve, calls, i)
    ensures slots[i].owner.None? ==> var f := slots[i].fingerprint.value;
      Replays(c, f, slots[i].replay) && slots[i].result == CachedResult(c.entries[f].result, c.entries[f].callId)
    ensures slots[i].owner.Some? ==> var o := slots[i].owner.value;
      o < i && !slots[o].skip && slots[o].fingerprint == slots[i].fingerprint && slots[o].replay && slots[i].replay &&
      !OtherWrite(resolve, calls, o)
  {
    assert Plans(c, calls, executed, resolve, slots, i);
    assert forall j | 0 <= j < |calls| && j != i :: !Writes(resolve, calls[j]);
  }

  lemma PrintedKey(c: Cache, calls: seq<Call>, executed: map<string, Result>, resolve: Resolver, slots: seq<Slot>,
                   i: nat)
    requires Planned(c, calls, executed, resolve, slots) && i < |slots| && slots[i].fingerprint.Some?
    ensures calls[i].arguments.Some? && slots[i].fingerprint == Some(Fingerprint(KeyOf(calls[i]), c.revision))
  {
    assert Plans(c, calls, executed, resolve, slots, i);
  }

  lemma CopiesMeanNoWrites(c: Cache, calls: seq<Call>, executed: map<string, Result>, resolve: Resolver,
                           slots: seq<Slot>, i: nat)
    requires Planned(c, calls, executed, resolve, slots) && i < |slots| && slots[i].owner.Some?
    requires forall j | 0 <= j < |calls| && calls[j].arguments.Some? :: Clean(KeyOf(calls[j]))
    ensures slots[i].skip && !slots[i].already && slots[i].owner.value < i
    ensures KeyIn(calls[i]) == KeyIn(calls[slots[i].owner.value])
    ensures forall j | 0 <= j < |calls| :: !Writes(resolve, calls[j])
  {
    assert Plans(c, calls, executed, resolve, slots, i);
    SkipsMeanNoOtherWrite(c, calls, executed, resolve, slots, i);
    var o := slots[i].owner.value;
    PrintedKey(c, calls, executed, resolve, slots, o);
    FingerprintIsInjective(KeyOf(calls[i]), KeyOf(calls[o]), c.revision, c.revision);
    assert Writes(resolve, calls[i]) == Writes(resolve, calls[o]);
  }

  function KeyIn(call: Call): Option<Key> {
    if call.arguments.Some? then Some(KeyOf(call)) else None
  }

  /** In a plan only calls that run are copied from. */
  lemma PlannedOwnersRun(c: Cache, calls: seq<Call>, executed: map<string, Result>, resolve: Resolver, slots: seq<Slot>)
    requires Planned(c, calls, executed, resolve, slots)
    ensures OwnersRun(slots)
  {
    forall i | 0 <= i < |slots| && slots[i].owner.Some?
      ensures slots[i].skip && slots[i].owner.value < i && Runs(slots, slots[i].owner.value)
    {
      assert Plans(c, calls, executed, resolve, slots, i);
    }
  }

  // ---- Owners that fail ----

  /** A copy agrees with what its owner is reported as exactly when the owner did not fail, or failed
      with a result that already said everything its error adds. */
  lemma CopyOfFailure(calls: seq<Call>, slots: seq<Slot>, reports: seq<Report>, i: nat)
    requires |calls| == |slots| == |reports| && OwnersRun(slots) && i < |calls| && slots[i].owner.Some?
    ensures var o := slots[i].owner.value;
      Bare(Final(calls, slots, reports, i)) == Bare(Final(calls, slots, reports, o)) <==>
      reports[o].error.None? || SaysFailure(reports[o].result, reports[o].error.value)
  {
    assert slots[slots[i].owner.value].owner.None?;
  }

  predicate SaysFailure(r: Result, e: Failure) {
    r.isError && r.rest == e.rest && (r.content == [] ==> e.message == [])
  }

  /** An instance, as it comes out of a plan: a read that may be replayed is called twice in one batch
      and fails. */
  const NOWHERE := CatalogBinding([], 1, 1, 1)
  const TWICE := [Call("first", [114], NOWHERE, Some([123, 125])), Call("second", [114], NOWHERE, Some([123, 125]))]
  const READ := Descriptor(CanRead, Read, Concurrent, true)
  const FAILED := [Report(EMPTY, Some(Failure([33], 1))), Report(EMPTY, None)]

  /** The agreement can fail: the copied call is shown as a success although its owner failed. */
  lemma FailedOwnerIsCopiedAsSuccess(slots: seq<Slot>)
    requires Planned(Cache(0, map[], 0), TWICE, map[], (name, binding) => Some(READ), slots)
    ensures OwnersRun(slots) && slots[1].owner == Some(0)
    ensures Final(TWICE, slots, FAILED, 0).isError && !Final(TWICE, slots, FAILED, 1).isError
  {
    var c, resolve := Cache(0, map[], 0), (name: seq<byte>, binding: CatalogBinding) => Some(READ);
    PlannedOwnersRun(c, TWICE, map[], resolve, slots);
    assert forall j | 0 <= j < 2 :: !Writes(resolve, TWICE[j]);
    assert Plans(c, TWICE, map[], resolve, slots, 0);
    assert Owns(resolve, TWICE, slots, 0, Fingerprint(KeyOf(TWICE[0]), 0));
    assert Plans(c, TWICE, map[], resolve, slots, 1);
  }

  /** And there is such a plan. */
  lemma TwiceIsPlanned() returns (slots: seq<Slot>)
    ensures Planned(Cache(0, map[], 0), TWICE, map[], (name, binding) => Some(READ), slots)
  {
    var c, resolve := Cache(0, map[], 0), (name: seq<byte>, binding: CatalogBinding) => Some(READ);
    var f := Fingerprint(KeyOf(TWICE[0]), 0);
    var run := UNRESOLVED.(policy := Concurrent, replay := true, fingerprint := Some(f));
    slots := [run, run.(owner := Some(0), source := "first", skip := true)];
    assert forall j | 0 <= j < 2 :: !Writes(resolve, TWICE[j]);
    assert Plans(c, TWICE, map[], resolve, slots, 0);
    assert Owns(resolve, TWICE, slots, 0, f);
    assert Plans(c, TWICE, map[], resolve, slots, 1);
  }
}
