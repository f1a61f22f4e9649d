/** Every run of the catalog: registrations, reconciles, availability changes, and loaders that
    run outside the lock, interleaved in any order. */
module CatalogRuns {
  import opened Order
  import opened Catalog

  /** A loader running outside the lock, for the entry with this token. */
  datatype Flight = Flight(name: string, token: nat, descriptor: Descriptor)

  /** `pending`: tokens of entries that a Materialize call found deferred and went on to resolve.
      `cleared`: those of them that a resolve has handed out or a loader has loaded since, so that the
      last critical section of the call may come. */
  datatype World = World(cat: Catalog, flights: set<Flight>, pending: set<nat>, cleared: set<nat>)

  datatype Outcome = Failed(reason: string) | Nothing | Loaded(executor: nat, descriptor: Descriptor, bindings: set<nat>)

  datatype Event =
    | Register(source: string, registration: Registration)
    | Reconcile(source: string, expected: nat, desired: map<string, Registration>)
    | Observe(name: string, liveName: string, availability: Availability, reason: string)
    | BeginLoad(name: string)
    | EndLoad(flight: Flight, outcome: Outcome)
    | MaterializeNow(name: string)
    | MaterializeBegin(name: string)
    | MaterializeResolved(name: string)
    | MaterializeEnd(name: string, token: nat, expected: nat)
    | SetLimits(entries: nat, bytes: nat)

  // ---- Limits ----

  predicate Counts(item: Item) {
    item.state == Materialized || item.loading
  }

  function Counted(s: Catalog): set<string> {
    set n | n in s.tools && Counts(s.tools[n])
  }

  ghost predicate Room(s: Catalog, candidate: Item) {
    |Counted(s)| + 1 <= s.maxEntries && SumSizes(s.tools, Counted(s)) + candidate.descriptor.body.size <= s.maxBytes
  }

  /** There is room when one more than are materialized or loading stays within both limits. */
  lemma RoomMeans(s: Catalog, candidate: Item)
    ensures var held := set n | n in s.tools && (s.tools[n].state == Materialized || s.tools[n].loading);
      Room(s, candidate) <==> |held| < s.maxEntries && SumSizes(s.tools, held) + candidate.descriptor.body.size <= s.maxBytes
  {
    assert Counted(s) == set n | n in s.tools && (s.tools[n].state == Materialized || s.tools[n].loading);
  }

  ghost predicate WithinLimits(s: Catalog) {
    |Counted(s)| <= s.maxEntries && SumSizes(s.tools, Counted(s)) <= s.maxBytes
  }

  // ---- Loading ----

  /** What a loader returned is installed only if it is what was frozen at registration, up to
      availability. */
  predicate Acceptable(name: string, frozen: Descriptor, binding: nat, o: Outcome) {
    o.Loaded? && o.descriptor.name == name && o.bindings <= {binding} && ValidDescriptor(o.descriptor) &&
    o.descriptor == frozen.(availability := o.descriptor.availability, reason := o.descriptor.reason, lazy := o.descriptor.lazy)
  }

  predicate Installs(s: Catalog, f: Flight, o: Outcome) {
    f.name in s.tools && s.tools[f.name].token == f.token && Acceptable(f.name, f.descriptor, s.tools[f.name].binding, o)
  }

  function EndLoad'(s: Catalog, f: Flight, o: Outcome): Catalog {
    if f.name !in s.tools || s.tools[f.name].token != f.token then s
    else
      var item := s.tools[f.name].(loading := false);
      if o.Failed? then
        Bump(SetItem(s, f.name, item.(
          descriptor := f.descriptor.(availability := Unavailable, reason := o.reason, lazy := false),
          lazy := false, state := Broken, revision := item.revision + 1)))
      else if Acceptable(f.name, f.descriptor, item.binding, o) then
        Bump(SetItem(s, f.name, item.(
          descriptor := o.descriptor, executor := o.executor,
          lazy := false, state := Materialized, revision := item.revision + 1)))
      else SetItem(s, f.name, item)
  }

  /** A loader brought a descriptor fit for use that differs from the one frozen at registration at most
      in how available it is, and no trusted binding but the one frozen with it. */
  predicate BringsWhatWasFrozen(f: Flight, binding: nat, o: Outcome) {
    o.Loaded? &&
    var d := o.descriptor;
    d.name == f.name == f.descriptor.name && d.aliases == f.descriptor.aliases && d.body == f.descriptor.body &&
    (o.bindings == {} || o.bindings == {binding}) && ValidNames(d) && (d.availability == Unavailable ==> d.reason != "")
  }

  predicate SameBut(s: Catalog, r: Catalog, n: string) {
    r.aliases == s.aliases && r.tombstones == s.tombstones && r.nextToken == s.nextToken && r.maxEntries == s.maxEntries &&
    r.maxBytes == s.maxBytes && r.tools.Keys == s.tools.Keys && forall m | m in s.tools && m != n :: r.tools[m] == s.tools[m]
  }

  /** The same entry with another descriptor under the next revision, no longer deferred. */
  predicate Landed(a: Item, b: Item, d: Descriptor, executor: nat, state: EntryState) {
    b.descriptor == d && b.executor == executor && b.state == state && !b.lazy && !b.loading && b.revision == a.revision + 1 &&
    b.token == a.token && b.binding == a.binding && b.external == a.external && b.source == a.source
  }

  /** What a landing does to the entry it set out from: what was loaded is installed exactly when it is
      what was frozen, a failure takes the entry out of service, and anything else only ends the load. */
  lemma LandingInstalls(s: Catalog, f: Flight, o: Outcome)
    requires f.name in s.tools && s.tools[f.name].token == f.token
    ensures var a, r := s.tools[f.name], EndLoad'(s, f, o);
      SameBut(s, r, f.name) &&
      if BringsWhatWasFrozen(f, a.binding, o) then
        Landed(a, r.tools[f.name], o.descriptor, o.executor, Materialized) && r.generation == s.generation + 1
      else if o.Failed? then
        Landed(a, r.tools[f.name], f.descriptor.(availability := Unavailable, reason := o.reason, lazy := false), a.executor, Broken) &&
        r.generation == s.generation + 1
      else r.tools[f.name] == a.(loading := false) && r.generation == s.generation
    ensures BringsWhatWasFrozen(f, s.tools[f.name].binding, o) <==> Acceptable(f.name, f.descriptor, s.tools[f.name].binding, o)
  {
  }

  /** What an entry that has an executor takes from it when asked: how available it is, and nothing else. */
  lemma RefreshBelieves(s: Catalog, n: string, liveName: string, availability: Availability, reason: string)
    requires n in s.tools
    ensures var a, r := s.tools[n], Refresh(s, n, liveName, availability, reason);
      SameBut(s, r, n) && var b := r.tools[n];
      if !a.lazy && liveName == n && ValidNames(a.descriptor) && (availability == Unavailable ==> reason != "") then
        b.descriptor.availability == availability && b.descriptor.reason == reason &&
        b == a.(descriptor := b.descriptor, external := b.external, state := b.state, revision := b.revision) &&
        b.descriptor == a.descriptor.(availability := availability, reason := reason) &&
        if b.descriptor == a.descriptor then r == s
        else
          b.revision == a.revision + 1 && r.generation == s.generation + 1 &&
          b.external == a.external.(availability := availability, reason := reason) &&
          (b.state == Broken <==> availability == Unavailable) &&
          (b.state == Materialized <==> a.state == Materialized && availability != Unavailable)
      else r == s
  {
  }

  // ---- Steps ----

  ghost predicate Step(w: World, e: Event, v: World) {
    var s, r := w.cat, v.cat;
    match e
    case Register(source, registration) =>
      Normal(registration) && v == w.(cat := RegisterOne(s, source, registration))
    case Reconcile(source, expected, desired) =>
      AllNormal(desired) && v == w.(cat := r) &&
      if expected != 0 && expected != s.generation then r == s
      else Reconciled(s, source, desired, r) || Untouched(s, r)
    case Observe(name, liveName, availability, reason) =>
      v == w.(cat := Refresh(s, name, liveName, availability, reason))
    case BeginLoad(name) =>
      name in s.tools && s.tools[name].lazy && !s.tools[name].loading && Room(s, s.tools[name]) &&
      v == w.(cat := SetItem(s, name, s.tools[name].(loading := true)),
              flights := w.flights + {Flight(name, s.tools[name].token, s.tools[name].descriptor)})
    case EndLoad(f, o) =>
      f in w.flights &&
      v == w.(cat := EndLoad'(s, f, o), flights := w.flights - {f},
              cleared := if Installs(s, f, o) && f.token in w.pending then w.cleared + {f.token} else w.cleared)
    case MaterializeNow(name) =>
      name in s.tools && !s.tools[name].lazy && s.tools[name].state != Materialized && Room(s, s.tools[name]) &&
      v == w.(cat := Bump(SetItem(s, name, s.tools[name].(state := Materialized))))
    case MaterializeBegin(name) =>
      name in s.tools && s.tools[name].lazy && v == w.(pending := w.pending + {s.tools[name].token})
    case MaterializeResolved(name) =>
      name in s.tools && !s.tools[name].lazy && s.tools[name].token in w.pending &&
      s.tools[name].descriptor.availability != Unavailable && v == w.(cleared := w.cleared + {s.tools[name].token})
    case MaterializeEnd(name, token, expected) =>
      token in w.cleared &&
      if name in s.tools && s.tools[name].token == token && s.tools[name].revision >= expected && s.tools[name].state != Materialized then
        v == w.(cat := Bump(SetItem(s, name, s.tools[name].(state := Materialized, revision := s.tools[name].revision + 1))))
      else v == w
    case SetLimits(entries, bytes) =>
      v == w.(cat := s.(maxEntries := entries, maxBytes := bytes))
  }

  ghost predicate Trace(worlds: seq<World>, events: seq<Event>) {
    |worlds| == |events| + 1 && forall i | 0 <= i < |events| :: StepAt(worlds, events, i)
  }

  ghost predicate StepAt(worlds: seq<World>, events: seq<Event>, i: nat)
    requires i < |events| && i + 1 < |worlds|
  {
    Step(worlds[i], events[i], worlds[i + 1])
  }

  // ---- Invariants ----

  /** At most one loader runs per entry: flights have distinct tokens, and an entry is marked as
      loading exactly while its flight is out. */
  ghost predicate OneLoader(w: World) {
    (forall f, g | f in w.flights && g in w.flights && f.token == g.token :: f == g) &&
    (forall f | f in w.flights :: 1 <= f.token <= w.cat.nextToken) &&
    (forall n | n in w.cat.tools && w.cat.tools[n].loading ::
       Flight(n, w.cat.tools[n].token, w.cat.tools[n].descriptor) in w.flights) &&
    (forall n, f | n in w.cat.tools && f in w.flights && f.token == w.cat.tools[n].token ::
       w.cat.tools[n].loading && f.name == n)
  }

  ghost predicate TokensDealt(w: World) {
    (forall t | t in w.pending :: t <= w.cat.nextToken) && w.cleared <= w.pending &&
    (forall n | n in w.cat.tools && w.cat.tools[n].token in w.cleared :: !w.cat.tools[n].lazy)
  }

  ghost predicate WorldInv(w: World) {
    Inv(w.cat) && OneLoader(w) && TokensDealt(w)
  }

  /** One and the same incarnation of an entry, seen earlier and later: everything but its
      availability is frozen, the descriptor is a function of the revision, and an entry once loaded
      is never deferred again. */
  predicate SameIncarnation(a: Item, b: Item) {
    a.token == b.token && a.source == b.source && a.binding == b.binding && a.revision <= b.revision && (b.lazy ==> a.lazy) &&
    a.descriptor.name == b.descriptor.name && a.descriptor.aliases == b.descriptor.aliases && a.descriptor.body == b.descriptor.body &&
    (a.revision == b.revision ==> a.descriptor == b.descriptor)
  }

  predicate SameUpToLoading(s: Catalog, t: Catalog) {
    s.aliases == t.aliases && s.tombstones == t.tombstones && s.tools.Keys == t.tools.Keys &&
    forall n | n in s.tools :: s.tools[n].(loading := false) == t.tools[n].(loading := false)
  }

  /** What cannot be undone, whatever happens between two states of one catalog. */
  ghost predicate Later(s: Catalog, t: Catalog) {
    s.generation <= t.generation && s.nextToken <= t.nextToken &&
    (forall n | n in t.tools && t.tools[n].token <= s.nextToken :: n in s.tools && SameIncarnation(s.tools[n], t.tools[n])) &&
    (forall x | Known(s, x) :: Known(t, x)) &&
    (s.generation == t.generation ==> SameUpToLoading(s, t))
  }

  lemma LaterTransitive(s: Catalog, t: Catalog, u: Catalog)
    requires Later(s, t) && Later(t, u)
    ensures Later(s, u)
  {
    forall n | n in u.tools && u.tools[n].token <= s.nextToken
      ensures n in s.tools && SameIncarnation(s.tools[n], u.tools[n])
    {
      assert n in t.tools && SameIncarnation(t.tools[n], u.tools[n]);
    }
    forall x | Known(s, x)
      ensures Known(u, x)
    {
      assert Known(t, x);
    }
  }

  lemma LaterReflexive(s: Catalog)
    ensures Later(s, s)
  {
  }

  // ---- Single-entry steps ----

  /** Replacing one entry by a later form of itself. */
  predicate EntryStep(s: Catalog, n: string, item: Item, r: Catalog) {
    n in s.tools && SameIncarnation(s.tools[n], item) &&
    (item.lazy <==> item.state == Lazy) && (item.loading ==> item.lazy) &&
    r.tools == s.tools[n := item] && r.aliases == s.aliases && r.tombstones == s.tombstones && r.nextToken == s.nextToken &&
    (r.generation == s.generation + 1 || (r.generation == s.generation && item.(loading := false) == s.tools[n].(loading := false)))
  }

  lemma SameNamesStayIntact(s: Catalog, r: Catalog)
    requires NamesIntact(s) && r.tools.Keys == s.tools.Keys && r.aliases == s.aliases && r.tombstones == s.tombstones
    requires forall n | n in s.tools :: r.tools[n].descriptor.aliases == s.tools[n].descriptor.aliases
    ensures NamesIntact(r)
  {
    assert forall a, n :: OwnedBy(r.tools, a, n) <==> OwnedBy(s.tools, a, n);
    assert AliasesOf(r.tools, r.aliases);
    assert AliasesAgree(r.tools);
    assert forall x :: Live(r, x) <==> Live(s, x);
  }

  lemma EntryStepKeepsInv(s: Catalog, n: string, item: Item, r: Catalog)
    requires Inv(s) && EntryStep(s, n, item, r)
    ensures Inv(r)
  {
    SameNamesStayIntact(s, r);
    forall m | m in r.tools
      ensures GoodItem(r, m)
    {
      assert GoodItem(s, m);
    }
  }

  lemma EntryStepIsLater(s: Catalog, n: string, item: Item, r: Catalog)
    requires EntryStep(s, n, item, r)
    ensures Later(s, r)
  {
  }

  // ---- Registering one entry ----

  lemma {:induction false} AddAliasesAdds(aliases: map<string, string>, names: seq<string>, canonical: string)
    ensures forall a :: a in AddAliases(aliases, names, canonical) <==> a in names || a in aliases
    ensures forall a | a in names :: AddAliases(aliases, names, canonical)[a] == canonical
    ensures forall a | a in aliases && a !in names :: AddAliases(aliases, names, canonical)[a] == aliases[a]
  {
    if names != [] {
      var last := |names| - 1;
      AddAliasesAdds(aliases, names[..last], canonical);
      assert names == names[..last] + [names[last]];
    }
  }

  /** The owners of aliases once an entry has joined under names that were not live. */
  ghost predicate Joins(s: Catalog, d: Descriptor, r: Catalog) {
    NamesIntact(s) && ValidNames(d) && Registrable(s, d) && r.tools.Keys == s.tools.Keys + {d.name} &&
    forall a, n :: OwnedBy(r.tools, a, n) <==> OwnedBy(s.tools, a, n) || (n == d.name && a in d.aliases)
  }

  lemma JoinedAliases(s: Catalog, d: Descriptor, r: Catalog)
    requires Joins(s, d, r)
    requires forall a :: a in r.aliases <==> a in d.aliases || a in s.aliases
    requires forall a | a in r.aliases :: r.aliases[a] == if a in d.aliases then d.name else s.aliases[a]
    ensures AliasesOf(r.tools, r.aliases)
  {
    forall a, n | OwnedBy(r.tools, a, n)
      ensures a in r.aliases && r.aliases[a] == n
    {
      if OwnedBy(s.tools, a, n) {
        assert a in s.aliases && s.aliases[a] == n && Live(s, a);
      }
    }
  }

  lemma JoinedAgree(s: Catalog, d: Descriptor, r: Catalog)
    requires Joins(s, d, r)
    ensures AliasesAgree(r.tools)
  {
    forall a, n | OwnedBy(r.tools, a, n)
      ensures a !in r.tools
    {
      if OwnedBy(s.tools, a, n) {
        assert Live(s, a) && !Live(s, d.name);
      } else {
        assert !Live(s, a) && a != d.name;
      }
    }
    forall a, n, m | OwnedBy(r.tools, a, n) && OwnedBy(r.tools, a, m)
      ensures n == m
    {
      assert OwnedBy(s.tools, a, n) ==> Live(s, a);
      assert OwnedBy(s.tools, a, m) ==> Live(s, a);
    }
  }

  lemma RegisterNames(s: Catalog, source: string, registration: Registration)
    requires Inv(s) && Normal(registration) && Registrable(s, registration.descriptor)
    ensures NamesIntact(RegisterOne(s, source, registration))
    ensures forall x | Known(s, x) :: Known(RegisterOne(s, source, registration), x)
  {
    var d := registration.descriptor;
    var r := RegisterOne(s, source, registration);
    AddAliasesAdds(s.aliases, d.aliases, d.name);
    RegisterJoins(s, source, registration, r);
    JoinedAliases(s, d, r);
    JoinedAgree(s, d, r);
    assert forall x | x in r.tombstones :: x in s.tombstones && x != d.name && x !in d.aliases;
  }

  lemma RegisterJoins(s: Catalog, source: string, registration: Registration, r: Catalog)
    requires NamesIntact(s) && ValidNames(registration.descriptor) && Registrable(s, registration.descriptor)
    requires r.tools == s.tools[registration.descriptor.name := NewItem(source, registration, 1, s.nextToken + 1)]
    ensures Joins(s, registration.descriptor, r)
  {
  }

  lemma RegisterKeepsInv(s: Catalog, source: string, registration: Registration)
    requires Inv(s) && Normal(registration)
    ensures Inv(RegisterOne(s, source, registration)) && Later(s, RegisterOne(s, source, registration))
  {
    var d := registration.descriptor;
    var r := RegisterOne(s, source, registration);
    if Registrable(s, d) {
      RegisterNames(s, source, registration);
      forall n | n in r.tools
        ensures GoodItem(r, n)
        ensures n != d.name ==> n in s.tools && r.tools[n] == s.tools[n] && r.tools[n].token <= s.nextToken
      {
        if n != d.name {
          assert GoodItem(s, n);
        }
      }
    }
  }

  // ---- Reconciling a source ----

  lemma ReconciledNames(s: Catalog, source: string, desired: map<string, Registration>, r: Catalog)
    requires NamesIntact(s) && Reconciled(s, source, desired, r)
    ensures NamesIntact(r)
  {
    if Changes(s, source, desired) {
      TombstonesAreDead(s, source, r);
    }
  }

  lemma TombstonesAreDead(s: Catalog, source: string, r: Catalog)
    requires NextTombstones(s, source, r.tools, r.aliases, r.tombstones)
    ensures forall x | x in r.tombstones :: !Live(r, x)
  {
  }

  lemma TombstonesRemember(s: Catalog, source: string, r: Catalog, x: string)
    requires NextTombstones(s, source, r.tools, r.aliases, r.tombstones) && Known(s, x)
    ensures Known(r, x)
  {
    if !(x in r.tools || x in r.aliases) {
      assert Live(s, x) ==> x in r.tombstones;
    }
  }

  /** An entry after a reconcile is an old one untouched, or new with a token never dealt before. */
  lemma ReconciledItem(s: Catalog, source: string, desired: map<string, Registration>, r: Catalog, n: string)
    requires Inv(s) && AllNormal(desired) && Reconciled(s, source, desired, r) && n in r.tools
    ensures GoodItem(r, n) && s.nextToken <= r.nextToken
    ensures (n in s.tools && r.tools[n] == s.tools[n] && r.tools[n].token <= s.nextToken) ||
      (Changes(s, source, desired) && Fresh(s, source, desired, n) && s.nextToken < r.tools[n].token)
  {
    if Changes(s, source, desired) {
      if Fresh(s, source, desired, n) {
        assert Normal(desired[n]) && desired[n].descriptor.name == n;
      } else {
        if n in desired {
          assert Kept(s, source, desired, n);
        }
        assert GoodItem(s, n);
      }
    } else {
      assert GoodItem(s, n);
    }
  }

  lemma ReconciledTokensDistinct(s: Catalog, source: string, desired: map<string, Registration>, r: Catalog,
                                 n: string, m: string)
    requires Inv(s) && AllNormal(desired) && Reconciled(s, source, desired, r) && n in r.tools && m in r.tools && n != m
    ensures r.tools[n].token != r.tools[m].token
  {
    ReconciledItem(s, source, desired, r, n);
    ReconciledItem(s, source, desired, r, m);
  }

  lemma ReconciledKeepsInv(s: Catalog, source: string, desired: map<string, Registration>, r: Catalog)
    requires Inv(s) && AllNormal(desired) && Reconciled(s, source, desired, r)
    ensures Inv(r)
  {
    ReconciledNames(s, source, desired, r);
    forall n | n in r.tools {
      ReconciledItem(s, source, desired, r, n);
    }
    forall n, m | n in r.tools && m in r.tools && n != m {
      ReconciledTokensDistinct(s, source, desired, r, n, m);
    }
  }

  lemma ReconciledIsLater(s: Catalog, source: string, desired: map<string, Registration>, r: Catalog)
    requires Inv(s) && AllNormal(desired) && Reconciled(s, source, desired, r)
    ensures Later(s, r)
  {
    forall n | n in r.tools && r.tools[n].token <= s.nextToken
      ensures n in s.tools && SameIncarnation(s.tools[n], r.tools[n])
    {
      ReconciledItem(s, source, desired, r, n);
    }
    if Changes(s, source, desired) {
      forall x | Known(s, x) {
        TombstonesRemember(s, source, r, x);
      }
    }
  }

  lemma NothingButCounters(s: Catalog, r: Catalog)
    requires Inv(s) && r == s.(nextToken := r.nextToken, maxEntries := r.maxEntries, maxBytes := r.maxBytes) && s.nextToken <= r.nextToken
    ensures Inv(r) && Later(s, r)
  {
    SameNamesStayIntact(s, r);
    forall n | n in r.tools
      ensures GoodItem(r, n)
    {
      assert GoodItem(s, n);
    }
    assert forall x :: Known(s, x) <==> Known(r, x);
  }

  lemma OneEntryStep(s: Catalog, n: string, r: Catalog)
    requires Inv(s) && n in r.tools && EntryStep(s, n, r.tools[n], r)
    ensures Inv(r) && Later(s, r)
  {
    EntryStepKeepsInv(s, n, r.tools[n], r);
    EntryStepIsLater(s, n, r.tools[n], r);
  }

  /** A flight whose entry is still there finds it loading, with the descriptor it left with; one
      whose entry was replaced or revoked meanwhile installs nothing. */
  lemma LandingFindsItsEntry(w: World, f: Flight, o: Outcome)
    requires WorldInv(w) && f in w.flights
    ensures EndLoad'(w.cat, f, o) == w.cat ||
      (f.name in w.cat.tools && f == Flight(f.name, w.cat.tools[f.name].token, w.cat.tools[f.name].descriptor) &&
       w.cat.tools[f.name].loading && f.name in EndLoad'(w.cat, f, o).tools &&
       EntryStep(w.cat, f.name, EndLoad'(w.cat, f, o).tools[f.name], EndLoad'(w.cat, f, o)))
  {
    var s := w.cat;
    if f.name in s.tools && s.tools[f.name].token == f.token {
      assert GoodItem(s, f.name);
      assert s.tools[f.name].loading;
      assert Flight(f.name, s.tools[f.name].token, s.tools[f.name].descriptor) in w.flights;
    }
  }

  // ---- Every step ----

  lemma StepKeepsCatalog(w: World, e: Event, v: World)
    requires WorldInv(w) && Step(w, e, v)
    ensures Inv(v.cat) && Later(w.cat, v.cat)
  {
    var s, r := w.cat, v.cat;
    match e
    case Register(source, registration) => RegisterKeepsInv(s, source, registration);
    case Reconcile(source, expected, desired) =>
      if Reconciled(s, source, desired, r) {
        ReconciledKeepsInv(s, source, desired, r);
        ReconciledIsLater(s, source, desired, r);
      } else {
        NothingButCounters(s, r);
      }
    case Observe(name, liveName, availability, reason) =>
      if r != s {
        assert GoodItem(s, name);
        OneEntryStep(s, name, r);
      }
    case BeginLoad(name) =>
      assert GoodItem(s, name);
      OneEntryStep(s, name, r);
    case EndLoad(f, o) =>
      if r != s {
        LandingFindsItsEntry(w, f, o);
        OneEntryStep(s, f.name, r);
      }
    case MaterializeNow(name) =>
      assert GoodItem(s, name);
      OneEntryStep(s, name, r);
    case MaterializeBegin(name) =>
    case MaterializeResolved(name) =>
    case MaterializeEnd(name, token, expected) =>
      if r != s {
        assert GoodItem(s, name);
        OneEntryStep(s, name, r);
      }
    case SetLimits(entries, bytes) => NothingButCounters(s, r);
  }

  lemma FlightJoins(w: World, name: string, f: Flight, v: World)
    requires OneLoader(w) && name in w.cat.tools && !w.cat.tools[name].loading && v.flights == w.flights + {f}
    requires f == Flight(name, w.cat.tools[name].token, w.cat.tools[name].descriptor) && 1 <= f.token <= w.cat.nextToken == v.cat.nextToken
    requires v.cat.tools == w.cat.tools[name := w.cat.tools[name].(loading := true)]
    requires forall n | n in w.cat.tools && n != name :: w.cat.tools[n].token != f.token
    ensures OneLoader(v)
  {
    assert forall g | g in w.flights :: g.token != f.token;
  }

  lemma BeginKeepsOneLoader(w: World, name: string, v: World)
    requires WorldInv(w) && Step(w, BeginLoad(name), v)
    ensures OneLoader(v)
  {
    assert GoodItem(w.cat, name);
    FlightJoins(w, name, Flight(name, w.cat.tools[name].token, w.cat.tools[name].descriptor), v);
  }

  lemma EndKeepsOneLoader(w: World, f: Flight, o: Outcome, v: World)
    requires WorldInv(w) && Step(w, EndLoad(f, o), v)
    ensures OneLoader(v)
  {
    LandingFindsItsEntry(w, f, o);
    if f.name in w.cat.tools && w.cat.tools[f.name].token == f.token {
      assert !v.cat.tools[f.name].loading;
      assert forall n | n in v.cat.tools && n != f.name :: v.cat.tools[n] == w.cat.tools[n] && v.cat.tools[n].token != f.token;
    } else {
      assert v.cat == w.cat;
      assert forall n | n in w.cat.tools && w.cat.tools[n].token == f.token :: n == f.name;
    }
  }

  lemma ReconcileKeepsOneLoader(w: World, e: Event, v: World)
    requires WorldInv(w) && Step(w, e, v) && e.Reconcile?
    ensures OneLoader(v)
  {
    var s, r := w.cat, v.cat;
    if Reconciled(s, e.source, e.desired, r) {
      forall n | n in r.tools
        ensures (n in s.tools && r.tools[n] == s.tools[n]) || (s.nextToken < r.tools[n].token && !r.tools[n].loading)
      {
        ReconciledItem(s, e.source, e.desired, r, n);
      }
    }
    ReconcileCounts(w, e, v);
    NewTokensHaveNoFlight(w, v);
  }

  /** An entry changed in place keeps its token and its flight. */
  lemma EntryKeepsOneLoader(w: World, n: string, v: World)
    requires WorldInv(w) && n in w.cat.tools && n in v.cat.tools && v == w.(cat := v.cat) && v.cat.nextToken == w.cat.nextToken
    requires v.cat.tools == w.cat.tools[n := v.cat.tools[n]] && !w.cat.tools[n].loading && !v.cat.tools[n].loading
    requires v.cat.tools[n].token == w.cat.tools[n].token
    ensures OneLoader(v)
  {
    NewTokensHaveNoFlight(w, v);
  }

  lemma StepKeepsOneLoader(w: World, e: Event, v: World)
    requires WorldInv(w) && Step(w, e, v)
    ensures OneLoader(v)
  {
    match e
    case Register(source, registration) => NewTokensHaveNoFlight(w, v);
    case Reconcile(_, _, _) => ReconcileKeepsOneLoader(w, e, v);
    case Observe(name, _, _, _) =>
      if v.cat != w.cat {
        assert GoodItem(w.cat, name);
        EntryKeepsOneLoader(w, name, v);
      }
    case BeginLoad(name) => BeginKeepsOneLoader(w, name, v);
    case EndLoad(f, o) => EndKeepsOneLoader(w, f, o, v);
    case MaterializeNow(name) =>
      assert GoodItem(w.cat, name);
      EntryKeepsOneLoader(w, name, v);
    case MaterializeBegin(_) =>
    case MaterializeResolved(_) =>
    case MaterializeEnd(name, _, _) =>
      if v.cat != w.cat {
        assert GoodItem(w.cat, name);
        EntryKeepsOneLoader(w, name, v);
      }
    case SetLimits(_, _) => NewTokensHaveNoFlight(w, v);
  }

  lemma ReconcileCounts(w: World, e: Event, v: World)
    requires WorldInv(w) && Step(w, e, v) && e.Reconcile?
    ensures w.cat.nextToken <= v.cat.nextToken
  {
    if Reconciled(w.cat, e.source, e.desired, v.cat) {
      ReconciledIsLater(w.cat, e.source, e.desired, v.cat);
    }
  }

  lemma NewTokensHaveNoFlight(w: World, v: World)
    requires WorldInv(w) && v.flights == w.flights && w.cat.nextToken <= v.cat.nextToken
    requires forall n | n in v.cat.tools ::
      (n in w.cat.tools && v.cat.tools[n].token == w.cat.tools[n].token && v.cat.tools[n].loading == w.cat.tools[n].loading &&
       (w.cat.tools[n].loading ==> v.cat.tools[n].descriptor == w.cat.tools[n].descriptor)) ||
      (w.cat.nextToken < v.cat.tools[n].token && !v.cat.tools[n].loading)
    ensures OneLoader(v)
  {
  }

  lemma StepKeepsTokensDealt(w: World, e: Event, v: World)
    requires WorldInv(w) && Step(w, e, v)
    ensures TokensDealt(v)
  {
    StepKeepsCatalog(w, e, v);
    forall n | n in v.cat.tools && v.cat.tools[n].token in v.cleared
      ensures !v.cat.tools[n].lazy
    {
      ClearedIsLoaded(w, e, v, n);
    }
    if e.MaterializeBegin? {
      assert GoodItem(w.cat, e.name);
    }
  }

  lemma ClearedIsLoaded(w: World, e: Event, v: World, n: string)
    requires WorldInv(w) && Step(w, e, v) && Inv(v.cat) && Later(w.cat, v.cat)
    requires n in v.cat.tools && v.cat.tools[n].token in v.cleared
    ensures !v.cat.tools[n].lazy
  {
    var item := v.cat.tools[n];
    if e.EndLoad? && item.token !in w.cleared {
      LoadedIsLoaded(w, e.flight, e.outcome, v, n);
    } else {
      assert item.token <= w.cat.nextToken ==> n in w.cat.tools && SameIncarnation(w.cat.tools[n], item);
    }
  }

  lemma LoadedIsLoaded(w: World, f: Flight, o: Outcome, v: World, n: string)
    requires Inv(v.cat) && Installs(w.cat, f, o) && v.cat == EndLoad'(w.cat, f, o) && n in v.cat.tools && v.cat.tools[n].token == f.token
    ensures !v.cat.tools[n].lazy
  {
    assert v.cat.tools[f.name].token == f.token;
  }

  lemma StepKeepsInv(w: World, e: Event, v: World)
    requires WorldInv(w) && Step(w, e, v)
    ensures WorldInv(v) && Later(w.cat, v.cat)
  {
    StepKeepsCatalog(w, e, v);
    StepKeepsOneLoader(w, e, v);
    StepKeepsTokensDealt(w, e, v);
  }

  lemma TraceStep(worlds: seq<World>, events: seq<Event>, j: nat)
    requires Trace(worlds, events) && 0 < j < |worlds|
    ensures Step(worlds[j - 1], events[j - 1], worlds[j])
  {
    assert StepAt(worlds, events, j - 1);
  }

  /** The invariants hold at every point of every run. */
  lemma {:induction false} RunKeepsInv(worlds: seq<World>, events: seq<Event>, j: nat)
    requires Trace(worlds, events) && WorldInv(worlds[0]) && j < |worlds|
    ensures WorldInv(worlds[j])
    decreases j
  {
    if j > 0 {
      RunKeepsInv(worlds, events, j - 1);
      TraceStep(worlds, events, j);
      StepKeepsInv(worlds[j - 1], events[j - 1], worlds[j]);
    }
  }

  lemma TraceStepIsLater(worlds: seq<World>, events: seq<Event>, j: nat)
    requires Trace(worlds, events) && WorldInv(worlds[0]) && 0 < j < |worlds|
    ensures Later(worlds[j - 1].cat, worlds[j].cat)
  {
    RunKeepsInv(worlds, events, j - 1);
    TraceStep(worlds, events, j);
    StepKeepsInv(worlds[j - 1], events[j - 1], worlds[j]);
  }

  /** Every later point of a run is Later than every earlier one. */
  lemma {:induction false} RunIsLater(worlds: seq<World>, events: seq<Event>, i: nat, j: nat)
    requires Trace(worlds, events) && WorldInv(worlds[0]) && i <= j < |worlds|
    ensures Later(worlds[i].cat, worlds[j].cat)
    decreases j - i
  {
    if i == j {
      LaterReflexive(worlds[j].cat);
    } else {
      RunIsLater(worlds, events, i, j - 1);
      TraceStepIsLater(worlds, events, j);
      LaterTransitive(worlds[i].cat, worlds[j - 1].cat, worlds[j].cat);
    }
  }

  /** A run goes on with any step from where it is. */
  lemma TraceGoesOn(worlds: seq<World>, events: seq<Event>, e: Event, v: World)
    requires Trace(worlds, events) && Step(worlds[|events|], e, v)
    ensures Trace(worlds + [v], events + [e])
  {
    forall i | 0 <= i < |events + [e]|
      ensures StepAt(worlds + [v], events + [e], i)
    {
      assert i < |events| ==> StepAt(worlds, events, i);
    }
  }

  // ---- What follows for callers ----

  /** The binding a snapshot hands out for an entry. */
  function Sample(s: Catalog, n: string): Binding
    requires n in s.tools
  {
    Binding(s.tools[n].revision, s.tools[n].token)
  }

  /** Frozen authority: a sampled binding validates, at any later time and through any name, only
      against the entry it was sampled from, with the same source, trusted binding and descriptor. */
  lemma SampleNamesOneEntry(worlds: seq<World>, events: seq<Event>, i: nat, j: nat, n: string, m: string)
    requires Trace(worlds, events) && WorldInv(worlds[0]) && i <= j < |worlds|
    requires n in worlds[i].cat.tools && m in worlds[j].cat.tools
    requires Valid(worlds[j].cat.tools[m], Sample(worlds[i].cat, n))
    ensures m == n
    ensures var a, b := worlds[i].cat.tools[n], worlds[j].cat.tools[m];
      a.descriptor == b.descriptor && a.binding == b.binding && a.source == b.source
  {
    RunKeepsInv(worlds, events, i);
    RunIsLater(worlds, events, i, j);
    var s, t := worlds[i].cat, worlds[j].cat;
    assert GoodItem(s, n);
    assert SameIncarnation(s.tools[m], t.tools[m]);
  }

  /** A sample is good for as long as the generation stands. */
  lemma SampleStaysGood(worlds: seq<World>, events: seq<Event>, i: nat, j: nat, n: string)
    requires Trace(worlds, events) && WorldInv(worlds[0]) && i <= j < |worlds|
    requires n in worlds[i].cat.tools && worlds[i].cat.generation == worlds[j].cat.generation
    ensures n in worlds[j].cat.tools && Valid(worlds[j].cat.tools[n], Sample(worlds[i].cat, n))
  {
    RunKeepsInv(worlds, events, i);
    RunIsLater(worlds, events, i, j);
    assert GoodItem(worlds[i].cat, n);
    var a, b := worlds[i].cat.tools[n], worlds[j].cat.tools[n];
    assert a.(loading := false) == b.(loading := false);
  }

  /** A binding that named an entry at one time never names the revision after the one the entry has at
      a later time: what a load still to come will bring about was not yet there to be sampled. */
  lemma NextRevisionIsUnsampled(worlds: seq<World>, events: seq<Event>, i: nat, j: nat, n: string, b: Binding)
    requires Trace(worlds, events) && WorldInv(worlds[0]) && i <= j < |worlds|
    requires n in worlds[i].cat.tools && n in worlds[j].cat.tools && Valid(worlds[i].cat.tools[n], b)
    requires worlds[i].cat.tools[n].token == worlds[j].cat.tools[n].token
    ensures b.revision <= worlds[j].cat.tools[n].revision
  {
    RunKeepsInv(worlds, events, i);
    RunIsLater(worlds, events, i, j);
    assert GoodItem(worlds[i].cat, n);
    assert SameIncarnation(worlds[i].cat.tools[n], worlds[j].cat.tools[n]);
  }

  datatype Found = Entry(name: string) | Gone | Unknown

  function Find(s: Catalog, x: string): Found {
    var n := Canonical(s, x);
    if n in s.tools then Entry(n) else if n in s.tombstones then Gone else Unknown
  }

  /** A name or alias that was ever live is found or known to be gone for ever after. */
  lemma NamesAreNeverForgotten(worlds: seq<World>, events: seq<Event>, i: nat, j: nat, x: string)
    requires Trace(worlds, events) && WorldInv(worlds[0]) && i <= j < |worlds| && Find(worlds[i].cat, x) != Unknown
    ensures Find(worlds[j].cat, x) != Unknown
  {
    RunKeepsInv(worlds, events, i);
    RunKeepsInv(worlds, events, j);
    RunIsLater(worlds, events, i, j);
    FindKnows(worlds[i].cat, x);
    FindKnows(worlds[j].cat, x);
  }

  lemma FindKnows(s: Catalog, x: string)
    requires NamesIntact(s)
    ensures match Find(s, x)
      case Entry(n) => n in s.tools && (x == n || x in s.tools[n].descriptor.aliases)
      case _ => x !in s.tools && forall n | n in s.tools :: x !in s.tools[n].descriptor.aliases
    ensures Find(s, x) != Unknown <==> Known(s, x)
    ensures Find(s, x).Entry? <==> Live(s, x)
    ensures Find(s, x) == Gone <==> x in s.tombstones
  {
    if x in s.aliases {
      assert OwnedBy(s.tools, x, s.aliases[x]);
      assert Live(s, s.aliases[x]);
    } else {
      forall n | n in s.tools
        ensures x !in s.tools[n].descriptor.aliases
      {
        assert !OwnedBy(s.tools, x, n);
      }
    }
  }

  /** A reconcile that names the generation it was computed from commits only if nothing but
      loader flags changed in between: Replace and Revoke lose no interleaved update. */
  lemma SampledReconcileLosesNothing(worlds: seq<World>, events: seq<Event>, i: nat, j: nat, e: Event)
    requires Trace(worlds, events) && WorldInv(worlds[0]) && i <= j < |events|
    requires e == events[j] && e.Reconcile? && e.expected == worlds[i].cat.generation
    requires worlds[j + 1].cat != worlds[j].cat && !Untouched(worlds[j].cat, worlds[j + 1].cat)
    ensures SameUpToLoading(worlds[i].cat, worlds[j].cat)
    ensures Reconciled(worlds[j].cat, e.source, e.desired, worlds[j + 1].cat)
  {
    RunKeepsInv(worlds, events, i);
    RunIsLater(worlds, events, i, j);
    TraceStep(worlds, events, j + 1);
  }

  /** At most one loader runs per entry, and one that ends after its entry was replaced or revoked
      changes nothing in the catalog. */
  lemma LoadersAreSolitary(worlds: seq<World>, events: seq<Event>, j: nat, f: Flight, g: Flight, o: Outcome)
    requires Trace(worlds, events) && WorldInv(worlds[0]) && j < |worlds| && f in worlds[j].flights && g in worlds[j].flights
    ensures f.token == g.token ==> f == g
    ensures var s := worlds[j].cat;
      EndLoad'(s, f, o) != s ==> f.name in s.tools && s.tools[f.name].token == f.token && s.tools[f.name].loading
  {
    RunKeepsInv(worlds, events, j);
    LandingFindsItsEntry(worlds[j], f, o);
  }
}
