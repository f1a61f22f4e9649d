/** The cache that replays results within a turn, and the plan it makes for a batch of calls. */
module ResultCache {
  import opened Wrappers
  import opened Utf8
  import opened Decimal

  datatype CatalogBinding = CatalogBinding(catalogId: seq<byte>, generation: nat, revision: nat, authority: nat)

  /** A call; `arguments` in canonical form, if they are one JSON value at all. */
  datatype Call = Call(id: string, name: seq<byte>, binding: CatalogBinding, arguments: Option<seq<byte>>)

  datatype Capability = CanRead | CanWrite | CanRun | CanConnect | CanReachOut
  datatype Access = Read | Write | Tree
  datatype Policy = Serial | Concurrent

  datatype Descriptor = Descriptor(capability: Capability, access: Access, policy: Policy, replay: bool)

  /** `retry`: whether the metadata says the original may be retried; `replayedFrom`: the stamp of a
      result that was not executed for its own call. */
  datatype Result = Result(content: seq<byte>, isError: bool, retry: Option<bool>, planDelta: bool, replayedFrom: Option<string>, rest: nat)

  const EMPTY := Result([], false, None, false, None, 0)

  /** The same result without the stamp. */
  function Bare(r: Result): Result {
    r.(replayedFrom := None)
  }

  function CachedResult(r: Result, source: string): Result {
    r.(replayedFrom := Some(source))
  }

  predicate NonRetryable(r: Result) {
    r.isError && r.retry == Some(false)
  }

  // ---- Fingerprints ----

  /** What a call does, whoever asks for it. */
  datatype Key = Key(name: seq<byte>, binding: CatalogBinding, arguments: seq<byte>)

  function KeyOf(call: Call): Key
    requires call.arguments.Some?
  {
    Key(call.name, call.binding, call.arguments.value)
  }

  const SEPARATOR: byte := 0

  function Fingerprint(k: Key, revision: nat): seq<byte> {
    k.name + [SEPARATOR] + (k.binding.catalogId + [SEPARATOR] + (Print(k.binding.generation) + [SEPARATOR] +
      (Print(k.binding.revision) + [SEPARATOR] + (Print(revision) + [SEPARATOR] + (Print(k.binding.authority) + [SEPARATOR] + k.arguments)))))
  }

  predicate Clean(k: Key) {
    SEPARATOR !in k.name && SEPARATOR !in k.binding.catalogId
  }

  lemma FieldsSplit(a: seq<byte>, b: seq<byte>, x: seq<byte>, y: seq<byte>)
    requires SEPARATOR !in a && SEPARATOR !in b && a + [SEPARATOR] + x == b + [SEPARATOR] + y
    ensures a == b && x == y
  {
    var s, t := a + [SEPARATOR] + x, b + [SEPARATOR] + y;
    assert s[|a|] == SEPARATOR && t[|b|] == SEPARATOR;
    assert forall i | 0 <= i < |a| :: s[i] == a[i] && a[i] in a;
    assert forall i | 0 <= i < |b| :: t[i] == b[i] && b[i] in b;
    assert a == s[..|a|] && b == t[..|b|] && x == s[|a| + 1..] && y == t[|b| + 1..];
  }

  lemma NumbersSplit(m: nat, n: nat, x: seq<byte>, y: seq<byte>)
    requires Print(m) + [SEPARATOR] + x == Print(n) + [SEPARATOR] + y
    ensures m == n && x == y
  {
    FieldsSplit(Print(m), Print(n), x, y);
    ParsePrint(m);
    ParsePrint(n);
  }

  /** Equal fingerprints mean the same call under the same cache revision. */
  lemma FingerprintIsInjective(k: Key, l: Key, i: nat, j: nat)
    requires Clean(k) && Clean(l) && Fingerprint(k, i) == Fingerprint(l, j)
    ensures k == l && i == j
  {
    var a, b := k.binding, l.binding;
    var ka, la := Print(a.authority) + [SEPARATOR] + k.arguments, Print(b.authority) + [SEPARATOR] + l.arguments;
    var ki, lj := Print(i) + [SEPARATOR] + ka, Print(j) + [SEPARATOR] + la;
    var kr, lr := Print(a.revision) + [SEPARATOR] + ki, Print(b.revision) + [SEPARATOR] + lj;
    var kg, lg := Print(a.generation) + [SEPARATOR] + kr, Print(b.generation) + [SEPARATOR] + lr;
    FieldsSplit(k.name, l.name, a.catalogId + [SEPARATOR] + kg, b.catalogId + [SEPARATOR] + lg);
    FieldsSplit(a.catalogId, b.catalogId, kg, lg);
    NumbersSplit(a.generation, b.generation, kr, lr);
    NumbersSplit(a.revision, b.revision, ki, lj);
    NumbersSplit(i, j, ka, la);
    NumbersSplit(a.authority, b.authority, k.arguments, l.arguments);
  }

  // ---- Plans ----

  datatype Slot = Slot(
    result: Result, skip: bool, already: bool, fingerprint: Option<seq<byte>>, source: string, policy: Policy,
    replay: bool, owner: Option<nat>)

  const UNRESOLVED := Slot(EMPTY, false, false, None, "", Serial, false, None)

  datatype Entry = Entry(callId: string, result: Result)

  datatype Cache = Cache(revision: nat, entries: map<seq<byte>, Entry>, suppressed: nat)

  /** How the registry resolves a name under a binding. */
  type Resolver = (seq<byte>, CatalogBinding) -> Option<Descriptor>

  function Resolved(resolve: Resolver, call: Call): Option<Descriptor> {
    resolve(call.name, call.binding)
  }

  predicate Writes(resolve: Resolver, call: Call) {
    Resolved(resolve, call).Some? && Resolved(resolve, call).value.access == Write
  }

  /** Another call of the batch may write. */
  predicate OtherWrite(resolve: Resolver, calls: seq<Call>, i: nat) {
    exists j | 0 <= j < |calls| && j != i :: Writes(resolve, calls[j])
  }

  function Printed(call: Call, revision: nat): Option<seq<byte>> {
    if call.arguments.Some? then Some(Fingerprint(KeyOf(call), revision)) else None
  }

  predicate Replays(c: Cache, f: seq<byte>, replay: bool) {
    f in c.entries && (replay || NonRetryable(c.entries[f].result))
  }

  /** Slot i runs its call and may hand its result to later calls of the batch. */
  predicate Owns(resolve: Resolver, calls: seq<Call>, slots: seq<Slot>, i: nat, f: seq<byte>)
    requires i < |slots|
  {
    !slots[i].skip && slots[i].fingerprint == Some(f) && slots[i].replay && !OtherWrite(resolve, calls, i)
  }

  predicate OwnedBefore(resolve: Resolver, calls: seq<Call>, slots: seq<Slot>, i: nat, f: seq<byte>)
    requires i <= |slots|
  {
    exists j | 0 <= j < i :: Owns(resolve, calls, slots, j, f)
  }

  /** What the plan for call i must be, given the slots before it. */
  ghost predicate Plans(c: Cache, calls: seq<Call>, executed: map<string, Result>, resolve: Resolver,
                        slots: seq<Slot>, i: nat)
    requires i < |calls| && i < |slots|
  {
    var call, slot := calls[i], slots[i];
    if call.id in executed then slot == UNRESOLVED.(result := executed[call.id], skip := true, already := true)
    else if Resolved(resolve, call).None? then slot == UNRESOLVED
    else
      var d := Resolved(resolve, call).value;
      var run := UNRESOLVED.(policy := d.policy, replay := d.replay, fingerprint := Printed(call, c.revision));
      if call.arguments.None? then slot == run
      else
        var f := Fingerprint(KeyOf(call), c.revision);
        if OtherWrite(resolve, calls, i) then slot == run
        else if Replays(c, f, d.replay) then
          slot == run.(result := CachedResult(c.entries[f].result, c.entries[f].callId), source := c.entries[f].callId, skip := true)
        else if d.replay && OwnedBefore(resolve, calls, slots, i, f) then
          slot.owner.Some? && slot.owner.value < i && Owns(resolve, calls, slots, slot.owner.value, f) &&
          slot == run.(owner := slot.owner, source := calls[slot.owner.value].id, skip := true)
        else slot == run
  }

  ghost predicate Planned(c: Cache, calls: seq<Call>, executed: map<string, Result>, resolve: Resolver,
                          slots: seq<Slot>) {
    |slots| == |calls| && forall i | 0 <= i < |calls| :: Plans(c, calls, executed, resolve, slots, i)
  }

  lemma PlansKept(c: Cache, calls: seq<Call>, executed: map<string, Result>, resolve: Resolver, slots: seq<Slot>,
                  longer: seq<Slot>, i: nat)
    requires i < |calls| && i < |slots| && slots <= longer && Plans(c, calls, executed, resolve, slots, i)
    ensures Plans(c, calls, executed, resolve, longer, i)
  {
    forall j, f | 0 <= j < |slots|
      ensures Owns(resolve, calls, slots, j, f) == Owns(resolve, calls, longer, j, f)
    {
    }
    forall f
      ensures OwnedBefore(resolve, calls, slots, i, f) == OwnedBefore(resolve, calls, longer, i, f)
    {
    }
  }

  function WriteCount(resolve: Resolver, calls: seq<Call>): nat {
    if calls == [] then 0
    else WriteCount(resolve, calls[..|calls| - 1]) + if Writes(resolve, calls[|calls| - 1]) then 1 else 0
  }

  lemma {:induction false} WriteCountZero(resolve: Resolver, calls: seq<Call>)
    ensures WriteCount(resolve, calls) == 0 <==> forall j | 0 <= j < |calls| :: !Writes(resolve, calls[j])
  {
    if calls != [] {
      var init := calls[..|calls| - 1];
      WriteCountZero(resolve, init);
      assert forall j | 0 <= j < |init| :: init[j] == calls[j];
    }
  }

  lemma OmitBehind(calls: seq<Call>, i: nat)
    requires i + 1 < |calls|
    ensures var last, others := |calls| - 1, calls[..i] + calls[i + 1..];
      others[|others| - 1] == calls[last] && others[..|others| - 1] == calls[..last][..i] + calls[..last][i + 1..]
  {
    var last, others := |calls| - 1, calls[..i] + calls[i + 1..];
    assert calls[..last][..i] == calls[..i] && calls[i + 1..][..last - i - 1] == calls[..last][i + 1..];
  }

  lemma {:induction false} WriteCountWithout(resolve: Resolver, calls: seq<Call>, i: nat)
    requires i < |calls|
    ensures WriteCount(resolve, calls) == WriteCount(resolve, calls[..i] + calls[i + 1..]) + if Writes(resolve, calls[i]) then 1 else 0
  {
    var last := |calls| - 1;
    if i == last {
      assert calls[..i] + calls[i + 1..] == calls[..last];
    } else {
      WriteCountWithout(resolve, calls[..last], i);
      OmitBehind(calls, i);
    }
  }

  lemma OthersStand(calls: seq<Call>, i: nat, others: seq<Call>)
    requires i < |calls| && others == calls[..i] + calls[i + 1..]
    ensures |others| == |calls| - 1 && forall j | 0 <= j < |others| :: others[j] == calls[OtherPlace(i, j)]
  {
  }

  lemma OthersWrite(resolve: Resolver, calls: seq<Call>, i: nat, others: seq<Call>)
    requires i < |calls| && |others| == |calls| - 1 && forall j | 0 <= j < |others| :: others[j] == calls[OtherPlace(i, j)]
    ensures OtherWrite(resolve, calls, i) <==> exists j | 0 <= j < |others| :: Writes(resolve, others[j])
  {
    if OtherWrite(resolve, calls, i) {
      var j :| 0 <= j < |calls| && j != i && Writes(resolve, calls[j]);
      var k := if j < i then j else j - 1;
      assert OtherPlace(i, k) == j && Writes(resolve, others[k]);
    }
    if k :| 0 <= k < |others| && Writes(resolve, others[k]) {
      assert Writes(resolve, calls[OtherPlace(i, k)]);
    }
  }

  /** Counting the writing calls tells whether another one writes. */
  lemma OtherWriteCounts(resolve: Resolver, calls: seq<Call>, i: nat)
    requires i < |calls|
    ensures OtherWrite(resolve, calls, i) <==> WriteCount(resolve, calls) > if Writes(resolve, calls[i]) then 1 else 0
  {
    var others := calls[..i] + calls[i + 1..];
    WriteCountWithout(resolve, calls, i);
    WriteCountZero(resolve, others);
    OthersStand(calls, i, others);
    OthersWrite(resolve, calls, i, others);
  }

  /** Where the j-th of the calls other than i stands. */
  function OtherPlace(i: nat, j: nat): nat {
    if j < i then j else j + 1
  }

  /** The map of owners holds, for each fingerprint, the slot that owns it. */
  ghost predicate OwnersAre(resolve: Resolver, calls: seq<Call>, slots: seq<Slot>, owners: map<seq<byte>, nat>) {
    (forall f | f in owners :: owners[f] < |slots| && Owns(resolve, calls, slots, owners[f], f)) &&
    (forall j, f | 0 <= j < |slots| && Owns(resolve, calls, slots, j, f) :: f in owners)
  }

  lemma ChosenPlans(c: Cache, calls: seq<Call>, executed: map<string, Result>, resolve: Resolver, slots: seq<Slot>,
                    longer: seq<Slot>,
                    otherWrite: bool, owners: map<seq<byte>, nat>)
    requires |slots| < |calls| && otherWrite == OtherWrite(resolve, calls, |slots|) && OwnersAre(resolve, calls, slots, owners)
    requires longer == slots + [Chosen(c, calls, executed, resolve, |slots|, otherWrite, owners)]
    ensures Plans(c, calls, executed, resolve, longer, |slots|)
  {
    forall j, f | 0 <= j < |slots|
      ensures Owns(resolve, calls, slots, j, f) == Owns(resolve, calls, longer, j, f)
    {
    }
    forall f
      ensures OwnedBefore(resolve, calls, longer, |slots|, f) <==> f in owners
    {
      if f in owners {
        assert Owns(resolve, calls, longer, owners[f], f);
      }
    }
  }

  lemma OwnersGrow(resolve: Resolver, calls: seq<Call>, slots: seq<Slot>, slot: Slot, owners: map<seq<byte>, nat>)
    requires |slots| < |calls| && OwnersAre(resolve, calls, slots, owners)
    ensures var eligible := !slot.skip && slot.fingerprint.Some? && slot.replay && !OtherWrite(resolve, calls, |slots|);
      OwnersAre(resolve, calls, slots + [slot], if eligible then owners[slot.fingerprint.value := |slots|] else owners)
  {
    var longer := slots + [slot];
    forall j, f | 0 <= j < |slots|
      ensures Owns(resolve, calls, slots, j, f) == Owns(resolve, calls, longer, j, f)
    {
    }
  }

  /** A failure not worth retrying was replayed instead of being run into again. */
  predicate Suppresses(slot: Slot) {
    slot.skip && !slot.already && slot.owner.None? && NonRetryable(slot.result)
  }

  function SuppressedIn(slots: seq<Slot>): nat {
    if slots == [] then 0 else SuppressedIn(slots[..|slots| - 1]) + if Suppresses(slots[|slots| - 1]) then 1 else 0
  }

  /** It is the number of replayed failures. */
  lemma {:induction false} SuppressedAreCounted(slots: seq<Slot>)
    ensures SuppressedIn(slots) == |set i | 0 <= i < |slots| && ShowsFailureAgain(slots[i])|
  {
    if slots != [] {
      var n := |slots| - 1;
      var init := slots[..n];
      SuppressedAreCounted(init);
      var few, all := set i | 0 <= i < n && ShowsFailureAgain(init[i]), set i | 0 <= i < |slots| && ShowsFailureAgain(slots[i]);
      assert all == if ShowsFailureAgain(slots[n]) then few + {n} else few;
    }
  }

  predicate ShowsFailureAgain(slot: Slot) {
    slot.skip && !slot.already && slot.owner.None? && slot.result.isError && slot.result.retry == Some(false)
  }

  class ResultCache {
    var revision: nat
    var entries: map<seq<byte>, Entry>
    var suppressedNonRetryableCalls: nat

    function View(): Cache
      reads this
    {
      Cache(revision, entries, suppressedNonRetryableCalls)
    }

    constructor ()
      ensures View() == Cache(0, map[], 0)
    {
      revision, entries, suppressedNonRetryableCalls := 0, map[], 0;
    }

    /** Decides for each call of a batch whether to run it, replay it, or copy it from another. */
    method Plan(calls: seq<Call>, executed: map<string, Result>, resolve: Resolver) returns (slots: seq<Slot>)
      modifies this`suppressedNonRetryableCalls
      ensures Planned(old(View()), calls, executed, resolve, slots)
      ensures suppressedNonRetryableCalls == old(suppressedNonRetryableCalls) + SuppressedIn(slots)
    {
      ghost var c := View();
      var writeCalls := 0;
      for i := 0 to |calls|
        invariant writeCalls == WriteCount(resolve, calls[..i])
      {
        assert calls[..i + 1][..i] == calls[..i];
        if Writes(resolve, calls[i]) {
          writeCalls := writeCalls + 1;
        }
      }
      assert calls[..|calls|] == calls;
      slots := [];
      var batchOwners: map<seq<byte>, nat> := map[];
      for i := 0 to |calls|
        invariant |slots| == i && forall k | 0 <= k < i :: Plans(c, calls, executed, resolve, slots, k)
        invariant OwnersAre(resolve, calls, slots, batchOwners)
        invariant revision == c.revision && entries == c.entries && suppressedNonRetryableCalls == c.suppressed + SuppressedIn(slots)
      {
        OtherWriteCounts(resolve, calls, i);
        var otherWrite := writeCalls > if Writes(resolve, calls[i]) then 1 else 0;
        var slot := PlanOne(calls, executed, resolve, i, otherWrite, batchOwners);
        var longer := slots + [slot];
        assert longer[..i] == slots;
        forall k | 0 <= k < i
          ensures Plans(c, calls, executed, resolve, longer, k)
        {
          PlansKept(c, calls, executed, resolve, slots, longer, k);
        }
        ChosenPlans(c, calls, executed, resolve, slots, longer, otherWrite, batchOwners);
        OwnersGrow(resolve, calls, slots, slot, batchOwners);
        if !slot.skip && slot.fingerprint.Some? && slot.replay && !otherWrite {
          batchOwners := batchOwners[slot.fingerprint.value := i];
        }
        slots := longer;
      }
    }

    method PlanOne(calls: seq<Call>, executed: map<string, Result>, resolve: Resolver, i: nat, otherWrite: bool,
                   owners: map<seq<byte>, nat>)
      returns (slot: Slot)
      requires i < |calls| && forall f | f in owners :: owners[f] < i
      modifies this`suppressedNonRetryableCalls
      ensures slot == Chosen(old(View()), calls, executed, resolve, i, otherWrite, owners)
      ensures suppressedNonRetryableCalls == old(suppressedNonRetryableCalls) + if Suppresses(slot) then 1 else 0
    {
      var call := calls[i];
      if call.id in executed {
        return UNRESOLVED.(result := executed[call.id], skip := true, already := true);
      }
      var d := Resolved(resolve, call);
      if d.None? {
        return UNRESOLVED;
      }
      slot := UNRESOLVED.(policy := d.value.policy, replay := d.value.replay);
      if call.arguments.None? {
        return;
      }
      var f := Fingerprint(KeyOf(call), revision);
      slot := slot.(fingerprint := Some(f));
      if f in entries && (d.value.replay || NonRetryable(entries[f].result)) && !otherWrite {
        var cached := entries[f];
        if NonRetryable(cached.result) {
          suppressedNonRetryableCalls := suppressedNonRetryableCalls + 1;
        }
        return slot.(result := CachedResult(cached.result, cached.callId), source := cached.callId, skip := true);
      }
      if !d.value.replay || otherWrite {
        return;
      }
      if f in owners {
        return slot.(owner := Some(owners[f]), source := calls[owners[f]].id, skip := true);
      }
    }

    /** Keeps what a batch found out, or forgets everything when something may have changed. */
    method Commit(calls: seq<Call>, slots: seq<Slot>, results: seq<Result>, mutated: bool)
      requires |calls| == |slots| == |results|
      modifies this
      ensures View() == Committed(old(View()), calls, slots, results, mutated)
      ensures NothingChanged(results, mutated) ==> Remembers(old(View()), View(), calls, slots, results)
      ensures !NothingChanged(results, mutated) ==> View() == Cache(old(revision) + 1, map[], old(suppressedNonRetryableCalls))
    {
      CommittedRemembers(View(), calls, slots, results, mutated);
      if mutated {
        revision, entries := revision + 1, map[];
        return;
      }
      for i := 0 to |slots|
        invariant revision == old(revision) && suppressedNonRetryableCalls == old(suppressedNonRetryableCalls)
        invariant entries == Kept(old(entries), calls, slots, results, i)
        invariant forall k | 0 <= k < i :: !results[k].planDelta
      {
        if results[i].planDelta {
          revision, entries := revision + 1, map[];
          return;
        }
        if Keeps(slots[i], results[i]) {
          entries := entries[slots[i].fingerprint.value := Entry(calls[i].id, results[i])];
        }
      }
    }
  }

  function Chosen(c: Cache, calls: seq<Call>, executed: map<string, Result>, resolve: Resolver, i: nat,
                  otherWrite: bool, owners: map<seq<byte>, nat>): Slot
    requires i < |calls| && forall f | f in owners :: owners[f] < i
  {
    var call := calls[i];
    if call.id in executed then UNRESOLVED.(result := executed[call.id], skip := true, already := true)
    else if Resolved(resolve, call).None? then UNRESOLVED
    else
      var d := Resolved(resolve, call).value;
      var run := UNRESOLVED.(policy := d.policy, replay := d.replay, fingerprint := Printed(call, c.revision));
      if call.arguments.None? then run
      else
        var f := Fingerprint(KeyOf(call), c.revision);
        if otherWrite then run
        else if Replays(c, f, d.replay) then
          run.(result := CachedResult(c.entries[f].result, c.entries[f].callId), source := c.entries[f].callId, skip := true)
        else if d.replay && f in owners then run.(owner := Some(owners[f]), source := calls[owners[f]].id, skip := true)
        else run
  }

  /** Only what was run, and is worth replaying, is kept. */
  predicate Keeps(slot: Slot, result: Result) {
    slot.fingerprint.Some? && slot.source == "" && (slot.replay || NonRetryable(result))
  }

  function Kept(entries: map<seq<byte>, Entry>, calls: seq<Call>, slots: seq<Slot>, results: seq<Result>,
                n: nat): map<seq<byte>, Entry>
    requires |calls| == |slots| == |results| && n <= |calls|
  {
    if n == 0 then entries
    else
      var before := Kept(entries, calls, slots, results, n - 1);
      if Keeps(slots[n - 1], results[n - 1]) then before[slots[n - 1].fingerprint.value := Entry(calls[n - 1].id, results[n - 1])]
      else before
  }

  ghost predicate Changed(results: seq<Result>, mutated: bool) {
    mutated || exists i | 0 <= i < |results| :: results[i].planDelta
  }

  ghost function Committed(c: Cache, calls: seq<Call>, slots: seq<Slot>, results: seq<Result>, mutated: bool): Cache
    requires |calls| == |slots| == |results|
  {
    if Changed(results, mutated) then Cache(c.revision + 1, map[], c.suppressed)
    else c.(entries := Kept(c.entries, calls, slots, results, |calls|))
  }

  /** No call of the batch wrote anything, and none changed the plan the turn follows. */
  predicate NothingChanged(results: seq<Result>, mutated: bool) {
    !mutated && forall i | 0 <= i < |results| :: !results[i].planDelta
  }

  /** Slot i ran its call, and what came of it may be shown again: by the descriptor, or because it failed
      in a way not worth retrying. */
  predicate WorthKeeping(slots: seq<Slot>, results: seq<Result>, i: nat, f: seq<byte>)
    requires i < |slots| == |results|
  {
    slots[i].fingerprint == Some(f) && slots[i].source == "" &&
    (slots[i].replay || (results[i].isError && results[i].retry == Some(false)))
  }

  predicate LastWorthKeeping(slots: seq<Slot>, results: seq<Result>, i: nat, n: nat, f: seq<byte>)
    requires i < n <= |slots| == |results|
  {
    WorthKeeping(slots, results, i, f) && forall k | i < k < n :: !WorthKeeping(slots, results, k, f)
  }

  /** What was worth keeping is found under the fingerprint of its call, the last of its kind, and what
      was found before under any other is found still. */
  ghost predicate Remembers(c: Cache, d: Cache, calls: seq<Call>, slots: seq<Slot>, results: seq<Result>)
    requires |calls| == |slots| == |results|
  {
    d.revision == c.revision && d.suppressed == c.suppressed && FiledIn(c.entries, d.entries, calls, slots, results, |slots|)
  }

  ghost predicate FiledIn(before: map<seq<byte>, Entry>, after: map<seq<byte>, Entry>, calls: seq<Call>,
                        slots: seq<Slot>, results: seq<Result>, n: nat)
    requires |calls| == |slots| == |results| && n <= |slots|
  {
    (forall i, f | 0 <= i < n && LastWorthKeeping(slots, results, i, n, f) :: f in after && after[f] == Entry(calls[i].id, results[i])) &&
    forall f | (f in before || f in after) && (forall i | 0 <= i < n :: !WorthKeeping(slots, results, i, f)) ::
      f in before && f in after && after[f] == before[f]
  }

  lemma {:induction false} KeptHolds(before: map<seq<byte>, Entry>, calls: seq<Call>, slots: seq<Slot>,
                                     results: seq<Result>, n: nat)
    requires |calls| == |slots| == |results| && n <= |slots|
    ensures FiledIn(before, Kept(before, calls, slots, results, n), calls, slots, results, n)
  {
    if n > 0 {
      KeptHolds(before, calls, slots, results, n - 1);
      var mid, after := Kept(before, calls, slots, results, n - 1), Kept(before, calls, slots, results, n);
      forall i, f | 0 <= i < n && LastWorthKeeping(slots, results, i, n, f)
        ensures f in after && after[f] == Entry(calls[i].id, results[i])
      {
        if i < n - 1 {
          assert LastWorthKeeping(slots, results, i, n - 1, f);
          assert !WorthKeeping(slots, results, n - 1, f);
        }
      }
      forall f | (f in before || f in after) && (forall i | 0 <= i < n :: !WorthKeeping(slots, results, i, f))
        ensures f in before && f in after && after[f] == before[f]
      {
        assert !WorthKeeping(slots, results, n - 1, f);
      }
    }
  }

  lemma CommittedRemembers(c: Cache, calls: seq<Call>, slots: seq<Slot>, results: seq<Result>, mutated: bool)
    requires |calls| == |slots| == |results|
    ensures var d := Committed(c, calls, slots, results, mutated);
      if NothingChanged(results, mutated) then Remembers(c, d, calls, slots, results)
      else d == Cache(c.revision + 1, map[], c.suppressed)
  {
    KeptHolds(c.entries, calls, slots, results, |slots|);
  }

  /** The call is alone in having write access, or nobody has it. */
  predicate NobodyElseWrites(resolve: Resolver, calls: seq<Call>, i: nat) {
    forall j | 0 <= j < |calls| && j != i ::
      resolve(calls[j].name, calls[j].binding).Some? ==> resolve(calls[j].name, calls[j].binding).value.access != Write
  }

  /** A planned call that was not run before runs, unless it is shown something else; its slot says what its
      descriptor says. */
  lemma RunsAreForeseen(c: Cache, calls: seq<Call>, executed: map<string, Result>, resolve: Resolver,
                        slots: seq<Slot>, i: nat)
    requires Planned(c, calls, executed, resolve, slots) && i < |slots| && !slots[i].skip
    ensures calls[i].id !in executed && slots[i].source == "" && slots[i].owner.None?
    ensures var d := resolve(calls[i].name, calls[i].binding);
      if d.None? then slots[i].policy == Serial && !slots[i].replay && slots[i].fingerprint.None?
      else
        slots[i].policy == d.value.policy && slots[i].replay == d.value.replay &&
        (calls[i].arguments.Some? <==> slots[i].fingerprint.Some?) &&
        (calls[i].arguments.Some? ==> slots[i].fingerprint == Some(Fingerprint(KeyOf(calls[i]), c.revision)))
  {
    assert Plans(c, calls, executed, resolve, slots, i);
  }

  /** What one batch found out the next does not run again: a call that may be replayed, or failed in a way
      not worth retrying, ran and was the last of its kind, nothing changed, and the same call in a later
      batch, with nobody else writing, is shown the same result under the id it was got by. */
  lemma FoundOutIsReplayed(c: Cache, calls: seq<Call>, executed: map<string, Result>, resolve: Resolver,
                           slots: seq<Slot>, results: seq<Result>, i: nat, d: Cache, later: seq<Call>,
                           before: map<string, Result>, resolver: Resolver, plan: seq<Slot>, j: nat)
    requires Planned(c, calls, executed, resolve, slots) && |results| == |calls| && i < |slots|
    requires !slots[i].skip && calls[i].arguments.Some? && resolve(calls[i].name, calls[i].binding).Some?
    requires forall k | i < k < |slots| :: slots[k].fingerprint != slots[i].fingerprint
    requires Remembers(c, d, calls, slots, results) && Planned(d, later, before, resolver, plan) && j < |plan|
    requires later[j].arguments == calls[i].arguments && later[j].name == calls[i].name && later[j].binding == calls[i].binding
    requires resolver(later[j].name, later[j].binding).Some?
    requires (resolve(calls[i].name, calls[i].binding).value.replay && resolver(later[j].name, later[j].binding).value.replay) ||
      (results[i].isError && results[i].retry == Some(false))
    requires later[j].id !in before && NobodyElseWrites(resolver, later, j)
    ensures plan[j].skip && plan[j].owner.None? && !plan[j].already
    ensures plan[j].result == results[i].(replayedFrom := Some(calls[i].id))
  {
    RunsAreForeseen(c, calls, executed, resolve, slots, i);
    var f := Fingerprint(KeyOf(calls[i]), c.revision);
    assert LastWorthKeeping(slots, results, i, |slots|, f);
    assert Plans(d, later, before, resolver, plan, j);
    assert forall k | 0 <= k < |later| && k != j :: !Writes(resolver, later[k]);
  }

  /** A call made twice in one batch runs once: when it may be replayed and nobody else writes, the second is
      skipped and is shown what an earlier one brought. */
  lemma DuplicatesAreCopied(c: Cache, calls: seq<Call>, executed: map<string, Result>, resolve: Resolver,
                            slots: seq<Slot>, i: nat, j: nat)
    requires Planned(c, calls, executed, resolve, slots) && i < j < |slots| && !slots[i].skip && calls[j].id !in executed
    requires calls[i].arguments.Some? && calls[j].name == calls[i].name && calls[j].binding == calls[i].binding
    requires calls[j].arguments == calls[i].arguments && resolve(calls[i].name, calls[i].binding).Some?
    requires resolve(calls[i].name, calls[i].binding).value.replay && NobodyElseWrites(resolve, calls, i) && NobodyElseWrites(resolve, calls, j)
    ensures slots[j].skip && !slots[j].already && slots[j].owner.Some?
  {
    assert Plans(c, calls, executed, resolve, slots, i);
    assert Plans(c, calls, executed, resolve, slots, j);
    assert forall k | 0 <= k < |calls| && k != j :: !Writes(resolve, calls[k]);
    assert forall k | 0 <= k < |calls| && k != i :: !Writes(resolve, calls[k]);
    assert Owns(resolve, calls, slots, i, Fingerprint(KeyOf(calls[i]), c.revision));
  }

  /** After a change nothing is replayed: what is skipped was run before, or is run within the batch. */
  lemma ChangeForgets(c: Cache, calls: seq<Call>, executed: map<string, Result>, resolve: Resolver,
                      slots: seq<Slot>, i: nat)
    requires c.entries == map[] && Planned(c, calls, executed, resolve, slots) && i < |slots|
    ensures slots[i].skip <==> calls[i].id in executed || slots[i].owner.Some?
  {
    assert Plans(c, calls, executed, resolve, slots, i);
  }

  lemma {:induction false} KeptComesFrom(entries: map<seq<byte>, Entry>, calls: seq<Call>, slots: seq<Slot>,
                                         results: seq<Result>, n: nat, f: seq<byte>)
    requires |calls| == |slots| == |results| && n <= |calls| && f in Kept(entries, calls, slots, results, n)
    ensures (f in entries && Kept(entries, calls, slots, results, n)[f] == entries[f]) ||
      exists i | 0 <= i < n :: Keeps(slots[i], results[i]) && slots[i].fingerprint == Some(f) &&
        Kept(entries, calls, slots, results, n)[f] == Entry(calls[i].id, results[i])
    decreases n
  {
    if n > 0 && !(Keeps(slots[n - 1], results[n - 1]) && slots[n - 1].fingerprint == Some(f)) {
      KeptComesFrom(entries, calls, slots, results, n - 1, f);
    }
  }
}
