/** The registry object: maps changed in place under one lock, shown to follow the catalog steps. */
module Registry {
  import opened Wrappers
  import opened Order
  import opened Catalog
  import opened CatalogDiff
  import opened CatalogReconcile
  import opened CatalogRuns
  import opened CatalogLimits

  datatype Verdict = NoSource | Unfit | Stale | Refused | Done(changes: ChangeSet)

  /** What an executor says of itself when asked. */
  datatype Report = Report(name: string, availability: Availability, reason: string)

  /** How a critical section of resolve ends. */
  datatype Answer =
    | NotKnown
    | IsRevoked
    | IsStale
    | Misnamed
    | OutOfService(reason: string)
    | OverLimit
    | Entered(name: string, token: nat)
    | Loads(flight: Flight)
    | LoadRejected
    | Ready(executor: nat)

  /** How a critical section of Materialize ends; Lazily names the entry it goes on to resolve. */
  datatype Pin = NoEntry(revoked: bool) | OldRevision | NoRoom | Pinned(change: Change) | Lazily(name: string, token: nat)

  predicate Binds(item: Item, binding: Option<Binding>) {
    binding.Some? ==> Valid(item, binding.value)
  }

  predicate Credible(item: Item, name: string, live: Report) {
    var d := item.descriptor;
    item.lazy || (live.name == name &&
      ((live.availability == d.availability && live.reason == d.reason) ||
       ValidDescriptor(d.(availability := live.availability, reason := live.reason))))
  }

  predicate Serves(item: Item, binding: Option<Binding>, executor: nat) {
    !item.lazy && item.executor == executor && item.descriptor.availability != Unavailable && Binds(item, binding)
  }

  /** What resolve makes of an entry before it answers: still there, as the caller sampled it, and
      credible, also after its executor was asked how available it is. */
  predicate Passes(s: Catalog, name: string, token: nat, binding: Option<Binding>, live: Report) {
    Here(s, name, token) && Binds(s.tools[name], binding) && Credible(s.tools[name], name, live) &&
    Binds(Refreshed(s, name, live), binding)
  }

  predicate Here(s: Catalog, name: string, token: nat) {
    name in s.tools && s.tools[name].token == token
  }

  function Refreshed(s: Catalog, name: string, live: Report): (item: Item)
    requires name in s.tools
  {
    Refresh(s, name, live.name, live.availability, live.reason).tools[name]
  }

  predicate InService(s: Catalog, name: string, token: nat, binding: Option<Binding>, live: Report) {
    Passes(s, name, token, binding, live) && Refreshed(s, name, live).descriptor.availability != Unavailable
  }

  /** When the middle of resolve gives which answer. */
  ghost predicate Proceeds(s: Catalog, name: string, token: nat, binding: Option<Binding>, live: Report, a: Answer) {
    var here, fit := Here(s, name, token), InService(s, name, token, binding, live);
    (a.IsRevoked? <==> !here && name in s.tombstones) &&
    (a.Misnamed? <==> here && Binds(s.tools[name], binding) && !Credible(s.tools[name], name, live)) &&
    (a.OutOfService? <==> Passes(s, name, token, binding, live) && !fit) &&
    (a.Ready? <==> fit && !s.tools[name].lazy) &&
    (a.Loads? <==> fit && s.tools[name].lazy && Room(s, s.tools[name])) &&
    (a.OverLimit? <==> fit && s.tools[name].lazy && !Room(s, s.tools[name])) &&
    !a.NotKnown? && !a.Entered? && !a.LoadRejected?
  }

  /** Asking its executor leaves an entry there, deferred or not as it was, and moves its revision if it
      moves anything. */
  lemma RefreshKeeps(s: Catalog, name: string, live: Report)
    requires name in s.tools
    ensures var t := Refresh(s, name, live.name, live.availability, live.reason);
      name in t.tools && t.tombstones == s.tombstones && t.tools[name].token == s.tools[name].token &&
      t.tools[name].lazy == s.tools[name].lazy && t.tools[name].loading == s.tools[name].loading &&
      t.tools[name].executor == s.tools[name].executor && (s.tools[name].lazy ==> t == s) &&
      (t == s || t.tools[name].revision == s.tools[name].revision + 1)
  {
  }

  function Served(item: Item, roomy: bool): Answer {
    if item.descriptor.availability == Unavailable then OutOfService(item.descriptor.reason)
    else if !item.lazy then Ready(item.executor)
    else if roomy then Loads(Flight(item.descriptor.name, item.token, item.descriptor))
    else OverLimit
  }

  lemma ServedProceeds(s: Catalog, t: Catalog, name: string, token: nat, binding: Option<Binding>, live: Report,
                       a: Answer)
    requires Here(s, name, token) && Binds(s.tools[name], binding) && Credible(s.tools[name], name, live)
    requires t == Refresh(s, name, live.name, live.availability, live.reason) && name in t.tools && Binds(t.tools[name], binding)
    requires a == Served(t.tools[name], Room(t, t.tools[name])) && GoodItem(s, name)
    ensures Proceeds(s, name, token, binding, live, a)
    ensures a.Loads? ==> a.flight == Flight(name, token, s.tools[name].descriptor)
    ensures binding.Some? ==> t == s
    ensures a.Ready? ==> Serves(t.tools[name], binding, a.executor) && a.executor == s.tools[name].executor
  {
    RefreshKeeps(s, name, live);
  }

  /** What Materialize makes of an entry: there, and at the revision it was asked for. */
  predicate Wanted(s: Catalog, n: string, expected: nat) {
    n in s.tools && (expected == 0 || s.tools[n].revision == expected)
  }

  ghost predicate MayLoad(s: Catalog, name: string, token: nat, binding: Option<Binding>, f: Flight)
    requires name in s.tools
  {
    var item := s.tools[name];
    item.token == token && item.lazy && !item.loading && Binds(item, binding) && Room(s, item) && f == Flight(name, token, item.descriptor)
  }

  /** Whether a landing hands out the executor: a bound caller must have guessed the revision that
      the load itself brings about. */
  predicate Lands(item: Item, f: Flight, o: Outcome, binding: Option<Binding>) {
    Acceptable(f.name, f.descriptor, item.binding, o) &&
    (binding.None? || (binding.value == Binding(item.revision + 1, f.token) && f.token != 0))
  }

  function RegistrationNames(registrations: seq<Registration>): (names: seq<string>)
    ensures |names| == |registrations| && forall i | 0 <= i < |names| :: names[i] == registrations[i].descriptor.name
  {
    seq(|registrations|, i requires 0 <= i < |registrations| => registrations[i].descriptor.name)
  }

  predicate IsSample(tools: map<string, Item>, n: string, r: Registration) {
    n in tools && r == Sampled(tools[n]) && r.descriptor.name == n
  }

  /** A source's registrations in name order, private tokens and all. */
  ghost predicate Samples(s: Catalog, source: string, registrations: seq<Registration>) {
    Lists(RegistrationNames(registrations), set n | n in s.tools && Own(s, source, n)) &&
    forall i | 0 <= i < |registrations| :: registrations[i].descriptor.name in s.tools &&
      registrations[i] == Sampled(s.tools[registrations[i].descriptor.name])
  }

  function Filtered(registrations: seq<Registration>, name: string): seq<Registration> {
    if registrations == [] then []
    else
      var last := registrations[|registrations| - 1];
      Filtered(registrations[..|registrations| - 1], name) + if last.descriptor.name == name then [] else [last]
  }

  /** Everything but what has the name; tells whether anything had. */
  method Omit(registrations: seq<Registration>, name: string) returns (found: bool, kept: seq<Registration>)
    ensures kept == Filtered(registrations, name)
    ensures found <==> exists k | 0 <= k < |registrations| :: IsNamed(registrations, k, name)
  {
    found, kept := false, [];
    for i := 0 to |registrations|
      invariant kept == Filtered(registrations[..i], name)
      invariant found <==> exists k | 0 <= k < i :: IsNamed(registrations, k, name)
    {
      assert registrations[..i + 1][..i] == registrations[..i];
      if registrations[i].descriptor.name == name {
        found := true;
        assert IsNamed(registrations, i, name);
      } else {
        kept := kept + [registrations[i]];
      }
    }
    assert registrations[..|registrations|] == registrations;
  }

  /** A loader set out at step i of a run, for a caller with this binding. */
  ghost predicate SetsOut(worlds: seq<World>, events: seq<Event>, i: nat, f: Flight, binding: Option<Binding>)
    requires |worlds| == |events| + 1
  {
    i < |events| && events[i] == BeginLoad(f.name) && f.name in worlds[i].cat.tools && MayLoad(worlds[i].cat, f.name, f.token, binding, f)
  }

  /** A landing hands out the executor exactly when nobody sampled a binding, the entry is still there
      and what was loaded may be installed: a binding good when the loader set out never names the
      revision that the load itself brings about. */
  lemma LoadServesTheUnbound(worlds: seq<World>, events: seq<Event>, i: nat, j: nat, f: Flight, o: Outcome,
                             binding: Option<Binding>)
    requires Trace(worlds, events) && WorldInv(worlds[0]) && i <= j < |worlds| && SetsOut(worlds, events, i, f, binding)
    ensures var s := worlds[j].cat;
      Here(s, f.name, f.token) && Lands(s.tools[f.name], f, o, binding) <==>
      binding.None? && Here(s, f.name, f.token) && Acceptable(f.name, f.descriptor, s.tools[f.name].binding, o)
  {
    var s := worlds[j].cat;
    if binding.Some? && Here(s, f.name, f.token) {
      NextRevisionIsUnsampled(worlds, events, i, j, f.name, binding.value);
    }
  }

  class Registry {
    var tools: map<string, Item>
    var aliases: map<string, string>
    var tombstones: map<string, Tombstone>
    var generation: nat
    var nextToken: nat
    var maxEntries: nat
    var maxBytes: nat
    /** The run that led here. */
    ghost var worlds: seq<World>
    ghost var events: seq<Event>

    function View(): Catalog
      reads this
    {
      Catalog(tools, aliases, tombstones, generation, nextToken, maxEntries, maxBytes)
    }

    ghost predicate Sound()
      reads this
    {
      Inv(View())
    }

    /** The fields are where a run from the first state has come to. */
    ghost predicate Valid()
      reads this
    {
      Sound() && Trace(worlds, events) && WorldInv(worlds[0]) && worlds[|events|].cat == View()
    }

    ghost function Now(): World
      requires |worlds| == |events| + 1
      reads this
    {
      worlds[|events|]
    }

    /** A new registry holds one built-in entry. */
    constructor (builtin: Registration)
      requires Normal(builtin) && builtin.state == Eager && builtin.descriptor.aliases == []
      ensures Valid() && events == [] && tools.Keys == {builtin.descriptor.name} && aliases == map[] && tombstones == map[]
      ensures var item := tools[builtin.descriptor.name];
        Carries(item, "builtin:result_get", builtin) && item.revision == 1 && item.token == nextToken == 1
      ensures generation == 1 && maxEntries == 32 && maxBytes == 65536
    {
      tools := map[builtin.descriptor.name := NewItem("builtin:result_get", builtin, 1, 1)];
      aliases := map[];
      tombstones := map[];
      generation := 1;
      nextToken := 1;
      maxEntries := 32;
      maxBytes := 65536;
      events := [];
      new;
      worlds := [World(View(), {}, {}, {})];
    }

    /** Takes down the step that a critical section was. */
    ghost method Log(e: Event, v: World)
      requires Trace(worlds, events) && WorldInv(worlds[0]) && Step(Now(), e, v) && v.cat == View()
      modifies this`worlds, this`events
      ensures Valid() && worlds == old(worlds) + [v] && events == old(events) + [e]
    {
      TraceGoesOn(worlds, events, e, v);
      worlds, events := worlds + [v], events + [e];
      RunKeepsInv(worlds, events, |events|);
    }

    /** The path of immutable startup sources: the entry is made of just what was registered. */
    method RegisterEntry(source: string, registration: Registration) returns (ok: bool)
      requires Valid() && Normal(registration)
      modifies this
      ensures Valid() && events == old(events) + [Event.Register(source, registration)] && old(worlds) <= worlds
      ensures View() == RegisterOne(old(View()), source, registration)
      ensures ok == Registrable(old(View()), registration.descriptor)
      ensures ok ==> var d := registration.descriptor;
        tools.Keys == old(tools.Keys) + {d.name} && Carries(tools[d.name], source, registration) &&
        tools[d.name].revision == 1 && tools[d.name].token == nextToken == old(nextToken) + 1 &&
        (forall n | n in old(tools) :: n in tools && tools[n] == old(tools)[n]) &&
        (forall a :: a in aliases <==> a in old(aliases) || a in d.aliases) &&
        (forall a | a in aliases :: aliases[a] == if a in d.aliases then d.name else old(aliases)[a]) &&
        (forall x :: x in tombstones <==> x in old(tombstones) && x != d.name && x !in d.aliases) &&
        (forall x | x in tombstones :: tombstones[x] == old(tombstones)[x]) && generation == old(generation) + 1
      ensures !ok ==> View() == old(View())
    {
      AddAliasesAdds(aliases, registration.descriptor.aliases, registration.descriptor.name);
      ok := AddEntry(source, registration);
      Log(Event.Register(source, registration), Now().(cat := View()));
    }

    method AddEntry(source: string, registration: Registration) returns (ok: bool)
      modifies this`tools, this`aliases, this`tombstones, this`generation, this`nextToken
      ensures View() == RegisterOne(old(View()), source, registration)
      ensures ok == Registrable(old(View()), registration.descriptor)
    {
      var d := registration.descriptor;
      if d.name in tools || d.name in aliases {
        return false;
      }
      for i := 0 to |d.aliases|
        invariant forall a | a in d.aliases[..i] :: !Live(View(), a)
      {
        if d.aliases[i] in tools || d.aliases[i] in aliases {
          assert d.aliases[i] in d.aliases;
          return false;
        }
        assert d.aliases[..i + 1] == d.aliases[..i] + [d.aliases[i]];
      }
      assert d.aliases[..|d.aliases|] == d.aliases;
      nextToken := nextToken + 1;
      tools := tools[d.name := NewItem(source, registration, 1, nextToken)];
      for i := 0 to |d.aliases|
        invariant aliases == AddAliases(old(aliases), d.aliases[..i], d.name)
        invariant tools == old(tools)[d.name := NewItem(source, registration, 1, nextToken)] && nextToken == old(nextToken) + 1
        invariant tombstones == old(tombstones) && generation == old(generation)
        invariant maxEntries == old(maxEntries) && maxBytes == old(maxBytes)
      {
        aliases := aliases[d.aliases[i] := d.name];
        assert d.aliases[..i + 1][..i] == d.aliases[..i];
      }
      tombstones := tombstones - ({d.name} + set a | a in d.aliases);
      generation := generation + 1;
      return true;
    }

    /** Builds the next tools in name order, dealing tokens and revisions as it goes. */
    method PlaceAll(source: string, desired: map<string, Registration>) returns (d: Draft, ghost gone: set<string>)
      requires NamesIntact(View()) && Claimable(View(), source, desired)
      modifies this`nextToken
      ensures nextToken == d.nextToken && nextToken >= old(nextToken) && Drafted(old(View()), source, desired, gone, d)
      ensures nextToken != old(nextToken) <==> SomeFresh(old(View()), source, desired)
    {
      ghost var s := View();
      d := Draft(map n | n in tools && tools[n].source != source :: tools[n], nextToken, tombstones, [], []);
      gone := {};
      var names := List(desired.Keys);
      ProgressStarts(s, source, desired, names, d);
      for i := 0 to |names|
        invariant nextToken == d.nextToken
        invariant Progress(s, source, desired, names, i, gone, d)
      {
        d, gone := PlaceNext(s, tools, source, desired, names, i, d, gone);
        nextToken := d.nextToken;
      }
      AllPlaced(s, source, desired, names, gone, d);
      TokensSpent(s, source, desired, d.tools, d.nextToken);
    }

    method Install(ghost s: Catalog, d: Draft, t: map<string, Tombstone>, nextAliases: map<string, string>)
      requires View() == s.(nextToken := d.nextToken)
      modifies this`tools, this`aliases, this`tombstones, this`generation
      ensures View() == Draw(s, d, t, nextAliases)
    {
      tools, aliases, tombstones := d.tools, nextAliases, t;
      generation := generation + 1;
    }

    /** Makes the registry hold exactly what the source wants, when the names allow it. */
    method Rebuild(source: string, desired: map<string, Registration>) returns (ok: bool, c: ChangeSet)
      requires Sound() && AllNormal(desired) && Claimable(View(), source, desired)
      modifies this`tools, this`aliases, this`tombstones, this`generation, this`nextToken
      ensures ok == NamesWouldAgree(old(View()), source, desired)
      ensures ok ==> Reconciled(old(View()), source, desired, View())
      ensures ok ==> ReportsChanges(old(View()), source, desired, c) && c.generation == generation
      ensures !ok ==> Untouched(old(View()), View())
      ensures !ok ==> (nextToken != old(nextToken) <==> SomeFresh(old(View()), source, desired))
    {
      ghost var s := View();
      var d, gone := PlaceAll(source, desired);
      ok, c := Commit(s, source, desired, d, gone);
    }

    /** The second half of a reconcile, once every wanted name has its place. */
    method Commit(ghost s: Catalog, source: string, desired: map<string, Registration>, d: Draft,
                  ghost gone: set<string>)
      returns (ok: bool, c: ChangeSet)
      requires Inv(s) && AllNormal(desired) && Claimable(s, source, desired) && Drafted(s, source, desired, gone, d)
      requires View() == s.(nextToken := d.nextToken)
      modifies this`tools, this`aliases, this`tombstones, this`generation
      ensures ok == NamesWouldAgree(s, source, desired)
      ensures ok ==> Reconciled(s, source, desired, View()) && ReportsChanges(s, source, desired, c) && c.generation == generation
      ensures !ok ==> View() == old(View())
    {
      var agree, t, nextAliases, changes := Finish(s, tools, generation, source, desired, gone, d);
      ghost var drawn := Draw(s, d, t, nextAliases);
      if agree && !NoChange(changes) {
        Install(s, d, t, nextAliases);
      }
      if agree {
        Ended(s, source, desired, changes, d.nextToken, drawn, View());
      }
      return agree, changes;
    }

    /** The registry after a reconcile holds what the source wants and remembers what it had, or is
        as it was but for the tokens that were dealt before the names were found to clash. `expected` is
        the generation the caller asked for, if any. */
    method ReconcileLocked(source: string, ghost expected: nat, registrations: seq<Registration>)
      returns (ok: bool, c: ChangeSet)
      requires Valid() && (expected == 0 || expected == generation) && forall r | r in registrations :: Normal(r)
      modifies this
      ensures Valid() && events == old(events) + [Event.Reconcile(source, expected, Desired(registrations))] && old(worlds) <= worlds
      ensures var s, desired := old(View()), Desired(registrations);
        ok <==> !Repeats(registrations) && Claimable(s, source, desired) && NamesWouldAgree(s, source, desired)
      ensures ok ==> Reconciled(old(View()), source, Desired(registrations), View())
      ensures ok ==> ReportsChanges(old(View()), source, Desired(registrations), c) && c.generation == generation
      ensures ok ==> Installed(old(View()), View(), source, registrations)
      ensures !ok ==> Untouched(old(View()), View())
      ensures !ok ==> var s, desired := old(View()), Desired(registrations);
        nextToken != old(nextToken) <==>
        !Repeats(registrations) && Claimable(s, source, desired) && SomeFresh(s, source, desired)
    {
      ghost var s := View();
      c := ChangeSet(generation, [], [], []);
      var claimed, desired := Claim(tools, source, registrations);
      if !Repeats(registrations) {
        ClaimMeans(s, source, registrations);
      }
      AllAreNormal(registrations);
      if !claimed {
        Log(Event.Reconcile(source, expected, Desired(registrations)), Now().(cat := View()));
        return false, c;
      }
      ok, c := Rebuild(source, desired);
      if ok {
        ReconciledIsInstalled(s, source, registrations, View());
      }
      Log(Event.Reconcile(source, expected, desired), Now().(cat := View()));
    }

    /** Reconcile with a compare-and-swap on the generation; zero asks for none. What is submitted is
        normalized first, also what was sampled from the catalog. */
    method Reconcile(source: string, expected: nat, registrations: seq<Registration>) returns (v: Verdict)
      requires Valid()
      modifies this
      ensures Valid() && old(worlds) <= worlds
      ensures v == NoSource <==> source == ""
      ensures v == Unfit <==> source != "" && !Submittable(registrations)
      ensures v == Stale <==> source != "" && Submittable(registrations) && expected != 0 && expected != old(generation)
      ensures v.NoSource? || v.Unfit? || v.Stale? ==> View() == old(View()) && events == old(events)
      ensures v.Refused? || v.Done? ==> events == old(events) + [Event.Reconcile(source, expected, Desired(NormalForms(registrations)))]
      ensures v.Refused? ==> Untouched(old(View()), View())
      ensures v.Refused? ==> var s, forms := old(View()), NormalForms(registrations);
        Repeats(forms) || !Claimable(s, source, Desired(forms)) || !NamesWouldAgree(s, source, Desired(forms))
      ensures v.Done? ==> !Repeats(NormalForms(registrations)) && Reconciled(old(View()), source, Desired(NormalForms(registrations)), View())
      ensures v.Done? ==> ReportsChanges(old(View()), source, Desired(NormalForms(registrations)), v.changes) && v.changes.generation == generation
      ensures v.Done? ==> Installed(old(View()), View(), source, NormalForms(registrations))
    {
      if source == "" {
        return NoSource;
      }
      var normalized := [];
      for i := 0 to |registrations|
        invariant |normalized| == i && forall k | 0 <= k < i :: Normalized(registrations[k]) == Some(normalized[k])
      {
        var form := Normalized(registrations[i]);
        if form.None? {
          assert registrations[i] in registrations;
          return Unfit;
        }
        normalized := normalized + [form.value];
      }
      assert normalized == NormalForms(registrations);
      if expected != 0 && expected != generation {
        return Stale;
      }
      FormsAreNormal(registrations);
      var ok, c := ReconcileLocked(source, expected, normalized);
      return if ok then Done(c) else Refused;
    }

    method SourceState(source: string) returns (at: nat, registrations: seq<Registration>)
      requires Sound()
      ensures at == generation && Samples(View(), source, registrations)
    {
      var names := List(set n | n in tools && tools[n].source == source);
      registrations := [];
      for i := 0 to |names|
        invariant |registrations| == i
        invariant forall k | 0 <= k < i :: IsSample(tools, names[k], registrations[k])
      {
        assert names[i] in names && GoodItem(View(), names[i]);
        registrations := registrations + [Sampled(tools[names[i]])];
      }
      assert RegistrationNames(registrations) == names;
      at := generation;
    }

    /** What Replace goes on to reconcile: everything the source has, with one registration put in. */
    method SampleForReplace(source: string, registration: Registration) returns (found: bool, at: nat,
                            registrations: seq<Registration>)
      requires Sound()
      ensures found <==> Own(View(), source, registration.descriptor.name)
      ensures found ==> at == generation && !Repeats(registrations) && Replacing(View(), source, registration, Desired(registrations))
    {
      at, registrations := SourceState(source);
      ghost var sampled := registrations;
      found := false;
      var i: nat := 0;
      while i < |registrations| && !found
        invariant i <= |registrations| && (!found ==> registrations == sampled)
        invariant !found ==> forall k | 0 <= k < i :: !IsNamed(sampled, k, registration.descriptor.name)
        invariant found ==> exists k: nat :: PutIn(sampled, k, registration, registrations)
      {
        if registrations[i].descriptor.name == registration.descriptor.name {
          registrations := registrations[i := registration];
          found := true;
          assert PutIn(sampled, i, registration, registrations);
        }
        i := i + 1;
      }
      ReplacedSample(View(), source, sampled, registration, found, registrations);
    }

    /** What Revoke goes on to reconcile: everything the source has but one entry, named by its name
        or an alias. */
    method SampleForRevoke(source: string, x: string) returns (found: bool, at: nat, registrations: seq<Registration>)
      requires Sound()
      ensures found <==> Own(View(), source, Canonical(View(), x))
      ensures found ==> at == generation && !Repeats(registrations) && Revoking(View(), source, Canonical(View(), x), Desired(registrations))
    {
      var name := if x in aliases then aliases[x] else x;
      var sampled;
      at, sampled := SourceState(source);
      found, registrations := Omit(sampled, name);
      RevokedSample(View(), source, sampled, name);
    }

    /** Whether one more entry may be materialized or loading. */
    method CheckLimit(candidate: Item) returns (fits: bool)
      ensures fits == Room(View(), candidate)
    {
      ghost var s := View();
      var items := tools;
      var count, bytes, rest := 0, 0, items.Keys;
      while rest != {}
        invariant rest <= items.Keys
        invariant count == |Counted(s) - rest| && bytes == SumSizes(items, Counted(s) - rest)
        decreases |rest|
      {
        var n :| n in rest;
        CountOne(s, rest, n);
        rest := rest - {n};
        if Counts(items[n]) {
          count, bytes := count + 1, bytes + items[n].descriptor.body.size;
        }
      }
      assert Counted(s) - rest == Counted(s);
      fits := count + 1 <= maxEntries && bytes + candidate.descriptor.body.size <= maxBytes;
    }

    /** The executor of an entry is asked how available it is; what else it says is not believed. */
    method RefreshAvailability(name: string, live: Report) returns (ok: bool)
      requires Valid() && name in tools
      modifies this
      ensures Valid() && events == old(events) + [Observe(name, live.name, live.availability, live.reason)]
      ensures worlds == old(worlds) + [old(Now()).(cat := View())]
      ensures View() == Refresh(old(View()), name, live.name, live.availability, live.reason)
      ensures ok <==> Credible(old(tools)[name], name, live)
    {
      ok := AskExecutor(name, live);
      Log(Observe(name, live.name, live.availability, live.reason), Now().(cat := View()));
    }

    method AskExecutor(name: string, live: Report) returns (ok: bool)
      requires name in tools
      modifies this`tools, this`generation
      ensures View() == Refresh(old(View()), name, live.name, live.availability, live.reason)
      ensures ok <==> Credible(old(tools)[name], name, live)
    {
      var item := tools[name];
      if item.lazy {
        return true;
      }
      if live.name != name {
        return false;
      }
      if live.availability == item.descriptor.availability && live.reason == item.descriptor.reason {
        return true;
      }
      var candidate := item.descriptor.(availability := live.availability, reason := live.reason);
      if !ValidDescriptor(candidate) {
        return false;
      }
      var state := if candidate.availability == Unavailable then Broken else if item.state == Materialized then Materialized else Eager;
      tools := tools[name := item.(
        descriptor := candidate, external := item.external.(availability := live.availability, reason := live.reason),
        state := state, revision := item.revision + 1)];
      generation := generation + 1;
      return true;
    }

    /** The start of resolve, before it waits for a loader that is running. */
    method ResolveEnter(x: string, binding: Option<Binding>) returns (a: Answer)
      requires Sound()
      ensures a == match Find(View(), x)
        case Unknown => NotKnown
        case Gone => IsRevoked
        case Entry(n) => if Binds(tools[n], binding) then Entered(n, tools[n].token) else IsStale
    {
      var name := if x in aliases then aliases[x] else x;
      if name !in tools {
        return if name in tombstones then IsRevoked else NotKnown;
      }
      if !Binds(tools[name], binding) {
        return IsStale;
      }
      return Entered(name, tools[name].token);
    }

    /** The middle of resolve, once no loader runs for the entry: it hands out the executor, sets out
        to load one with step `left`, or gives up. */
    method ResolveProceed(name: string, token: nat, binding: Option<Binding>, live: Report)
      returns (a: Answer, ghost left: nat)
      requires Valid() && (Here(View(), name, token) ==> !tools[name].loading)
      modifies this
      ensures Valid() && old(events) <= events && old(worlds) <= worlds && Now().pending == old(Now()).pending
      ensures var s := old(View());
        View() == if !Here(s, name, token) || !Binds(s.tools[name], binding) then s
          else if a.Loads? then SetItem(s, name, s.tools[name].(loading := true))
          else Refresh(s, name, live.name, live.availability, live.reason)
      ensures Proceeds(old(View()), name, token, binding, live, a)
      ensures a.Ready? ==> name in tools && tools[name].token == token && Serves(tools[name], binding, a.executor)
      ensures a.Ready? ==> a.executor == old(tools)[name].executor
      ensures a.Ready? && binding.Some? ==> View() == old(View())
      ensures a.Ready? && token in Now().pending ==> token in Now().cleared
      ensures a.Loads? ==> SetsOut(worlds, events, left, a.flight, binding) && a.flight in Now().flights
      ensures a.Loads? ==> a.flight == Flight(name, token, old(tools)[name].descriptor)
    {
      left := 0;
      ghost var s := View();
      a := Check(name, token, binding, live);
      ghost var t := View();
      if a.Entered? {
        assert GoodItem(s, name);
        a, left := Serve(name, binding);
        ServedProceeds(s, t, name, token, binding, live, a);
      }
    }

    /** Whether the entry is still what the caller sampled, also after its executor was asked. */
    method Check(name: string, token: nat, binding: Option<Binding>, live: Report) returns (a: Answer)
      requires Valid() && (Here(View(), name, token) ==> !tools[name].loading)
      modifies this
      ensures Valid() && old(events) <= events && old(worlds) <= worlds && Now().pending == old(Now()).pending
      ensures var s := old(View());
        View() == if !Here(s, name, token) || !Binds(s.tools[name], binding) then s
          else Refresh(s, name, live.name, live.availability, live.reason)
      ensures a.Entered? <==> Passes(old(View()), name, token, binding, live)
      ensures a.Entered? ==> name in tools && tools[name].token == token && !tools[name].loading && Binds(tools[name], binding)
      ensures !a.Entered? ==> (a.IsRevoked? || a.IsStale? || a.Misnamed?) && Proceeds(old(View()), name, token, binding, live, a)
    {
      if name !in tools || tools[name].token != token {
        return if name in tombstones then IsRevoked else IsStale;
      }
      if !Binds(tools[name], binding) {
        return IsStale;
      }
      RefreshKeeps(View(), name, live);
      var fine := RefreshAvailability(name, live);
      if !fine {
        return Misnamed;
      }
      if !Binds(tools[name], binding) {
        return IsStale;
      }
      return Entered(name, token);
    }

    /** Answers for an entry found fit to be resolved. */
    method Serve(name: string, ghost binding: Option<Binding>) returns (a: Answer, ghost left: nat)
      requires Valid() && name in tools && !tools[name].loading && Binds(tools[name], binding)
      modifies this
      ensures tools.Keys == old(tools.Keys) && tools[name].token == old(tools)[name].token
      ensures Valid() && old(events) <= events && old(worlds) <= worlds && Now().pending == old(Now()).pending
      ensures var item := old(tools)[name];
        a == Served(item, Room(old(View()), item))
      ensures View() == if a.Loads? then SetItem(old(View()), name, old(tools)[name].(loading := true)) else old(View())
      ensures a.Ready? && tools[name].token in Now().pending ==> tools[name].token in Now().cleared
      ensures a.Loads? ==> SetsOut(worlds, events, left, a.flight, binding) && a.flight in Now().flights
    {
      assert tools[name].descriptor.name == name by {
        assert GoodItem(View(), name);
      }
      var item := tools[name];
      if item.descriptor.availability == Unavailable {
        return OutOfService(item.descriptor.reason), 0;
      }
      if !item.lazy {
        HandOut(name);
        return Ready(item.executor), 0;
      }
      var fits := CheckLimit(item);
      if !fits {
        return OverLimit, 0;
      }
      var flight := StartLoading(name, binding);
      return Loads(flight), |events| - 1;
    }

    /** A Materialize call that waits for this entry may now finish. */
    ghost method HandOut(name: string)
      requires Valid() && name in tools && !tools[name].lazy && tools[name].descriptor.availability != Unavailable
      modifies this`worlds, this`events
      ensures Valid() && old(events) <= events && old(worlds) <= worlds && Now().pending == old(Now()).pending
      ensures tools[name].token in Now().pending ==> tools[name].token in Now().cleared
    {
      if tools[name].token in Now().pending {
        Log(MaterializeResolved(name), Now().(cleared := Now().cleared + {tools[name].token}));
      }
    }

    method StartLoading(name: string, ghost binding: Option<Binding>) returns (flight: Flight)
      requires Valid() && name in tools && MayLoad(View(), name, tools[name].token, binding, Flight(name, tools[name].token, tools[name].descriptor))
      modifies this
      ensures Valid() && events == old(events) + [BeginLoad(name)] && old(worlds) <= worlds
      ensures View() == SetItem(old(View()), name, old(tools)[name].(loading := true))
      ensures flight == Flight(name, old(tools)[name].token, old(tools)[name].descriptor)
      ensures flight in Now().flights && Now().pending == old(Now()).pending && SetsOut(worlds, events, |events| - 1, flight, binding)
    {
      flight := Flight(name, tools[name].token, tools[name].descriptor);
      tools := tools[name := tools[name].(loading := true)];
      Log(BeginLoad(name), Now().(cat := View(), flights := Now().flights + {flight}));
    }

    /** The end of resolve, when the loader that set out for the caller at step `left` has come back. A
        bound caller that had to load gets no executor: the load itself moved the revision on from the one
        it sampled. */
    method ResolveLand(f: Flight, o: Outcome, binding: Option<Binding>, ghost left: nat) returns (a: Answer)
      requires Valid() && f in Now().flights && SetsOut(worlds, events, left, f, binding)
      modifies this
      ensures Valid() && events == old(events) + [EndLoad(f, o)] && old(worlds) <= worlds
      ensures View() == EndLoad'(old(View()), f, o)
      ensures a.Ready? <==> binding.None? && Here(old(View()), f.name, f.token) && Acceptable(f.name, f.descriptor, old(tools)[f.name].binding, o)
      ensures a.Ready? ==> a.executor == o.executor && tools[f.name].state == Materialized
      ensures a.Ready? && f.token in Now().pending ==> f.token in Now().cleared
      ensures a.OutOfService? <==> Here(old(View()), f.name, f.token) && o.Failed?
      ensures a.LoadRejected? <==> Here(old(View()), f.name, f.token) && !o.Failed? && !Acceptable(f.name, f.descriptor, old(tools)[f.name].binding, o)
      ensures a.IsRevoked? <==> !Here(old(View()), f.name, f.token) && f.name in old(tombstones)
      ensures a.IsRevoked? || a.IsStale? || a.OutOfService? || a.LoadRejected? || a.Ready?
    {
      LoadServesTheUnbound(worlds, events, left, |events|, f, o, binding);
      ghost var s, w := View(), Now();
      a := Land(f, o, binding);
      Log(EndLoad(f, o), w.(cat := View(), flights := w.flights - {f},
        cleared := if Installs(s, f, o) && f.token in w.pending then w.cleared + {f.token} else w.cleared));
    }

    method Land(f: Flight, o: Outcome, binding: Option<Binding>) returns (a: Answer)
      modifies this`tools, this`generation
      ensures View() == EndLoad'(old(View()), f, o)
      ensures a.Ready? <==> Here(old(View()), f.name, f.token) && Lands(old(tools)[f.name], f, o, binding)
      ensures a.Ready? ==> a.executor == o.executor && tools[f.name].state == Materialized
      ensures a.OutOfService? <==> Here(old(View()), f.name, f.token) && o.Failed?
      ensures a.LoadRejected? <==> Here(old(View()), f.name, f.token) && !o.Failed? && !Acceptable(f.name, f.descriptor, old(tools)[f.name].binding, o)
      ensures a.IsRevoked? <==> !Here(old(View()), f.name, f.token) && f.name in old(tombstones)
      ensures a.IsRevoked? || a.IsStale? || a.OutOfService? || a.LoadRejected? || a.Ready?
    {
      if f.name !in tools || tools[f.name].token != f.token {
        return if f.name in tombstones then IsRevoked else IsStale;
      }
      var item := tools[f.name].(loading := false);
      if o.Failed? {
        tools := tools[f.name := item.(
          descriptor := f.descriptor.(availability := Unavailable, reason := o.reason, lazy := false),
          lazy := false, state := Broken, revision := item.revision + 1)];
        generation := generation + 1;
        return OutOfService(o.reason);
      }
      if !Acceptable(f.name, f.descriptor, item.binding, o) {
        tools := tools[f.name := item];
        return LoadRejected;
      }
      tools := tools[f.name := item.(
        descriptor := o.descriptor, executor := o.executor,
        lazy := false, state := Materialized, revision := item.revision + 1)];
      generation := generation + 1;
      return if Binds(tools[f.name], binding) then Ready(o.executor) else IsStale;
    }

    /** A whole resolve that nothing comes in between: `load` is what the loader would bring back. It
        hands out an executor exactly for an entry in service that was sampled as it is or not at all,
        and, if it first has to be loaded, only to a caller without a binding, when there is room and
        what is loaded was registered. */
    method ResolveAlone(x: string, binding: Option<Binding>, live: Report, load: Outcome) returns (a: Answer)
      requires Valid() && (Find(View(), x).Entry? ==> !tools[Canonical(View(), x)].loading)
      modifies this
      ensures Valid()
      ensures var s, n := old(View()), Canonical(old(View()), x);
        a.Ready? <==> (n in s.tools && InService(s, n, s.tools[n].token, binding, live) &&
          (s.tools[n].lazy ==> binding.None? && Room(s, s.tools[n]) && Acceptable(n, s.tools[n].descriptor, s.tools[n].binding, load)))
      ensures a.Ready? ==> var item := old(tools)[Canonical(old(View()), x)];
        a.executor == if item.lazy then load.executor else item.executor
    {
      a := ResolveEnter(x, binding);
      if a.Entered? {
        var name, token := a.name, a.token;
        ghost var left;
        ghost var s := View();
        a, left := ResolveProceed(name, token, binding, live);
        if a.Loads? {
          assert tools[name] == s.tools[name].(loading := true);
          a := ResolveLand(a.flight, load, binding, left);
        }
      }
    }

    /** The start of Materialize: pins an entry that needs no loader. */
    method MaterializeEnter(x: string, expected: nat) returns (p: Pin)
      requires Valid()
      modifies this
      ensures Valid() && old(events) <= events && old(worlds) <= worlds
      ensures p.NoEntry? <==> !Find(old(View()), x).Entry?
      ensures p.NoEntry? ==> p.revoked == (Find(old(View()), x) == Gone)
      ensures var n := Canonical(old(View()), x);
        p.OldRevision? <==> n in old(tools) && !Wanted(old(View()), n, expected)
      ensures var n := Canonical(old(View()), x);
        p.Lazily? <==> Wanted(old(View()), n, expected) && old(tools)[n].lazy
      ensures var n := Canonical(old(View()), x);
        p.NoRoom? <==> Wanted(old(View()), n, expected) && !old(tools)[n].lazy && old(tools)[n].state != Materialized && !Room(old(View()), old(tools)[n])
      ensures var n := Canonical(old(View()), x);
        p.Pinned? <==> Wanted(old(View()), n, expected) && !old(tools)[n].lazy && (old(tools)[n].state == Materialized || Room(old(View()), old(tools)[n]))
      ensures var n := Canonical(old(View()), x);
        View() == if p.Pinned? && old(tools)[n].state != Materialized then Bump(SetItem(old(View()), n, old(tools)[n].(state := Materialized)))
          else old(View())
      ensures p.Pinned? ==> var n := Canonical(old(View()), x);
        n in tools && tools[n].state == Materialized && p.change == Change(n, tools[n].source, tools[n].revision)
      ensures p.Lazily? ==> p.name == Canonical(View(), x) && Here(View(), p.name, p.token) && p.token in Now().pending
    {
      var n := if x in aliases then aliases[x] else x;
      if n !in tools {
        return NoEntry(n in tombstones);
      }
      assert GoodItem(View(), n);
      var item := tools[n];
      if expected != 0 && item.revision != expected {
        return OldRevision;
      }
      if item.state == Materialized {
        return Pinned(Change(n, item.source, item.revision));
      }
      if item.lazy {
        Log(MaterializeBegin(n), Now().(pending := Now().pending + {item.token}));
        return Lazily(n, item.token);
      }
      var fits := CheckLimit(item);
      if !fits {
        return NoRoom;
      }
      PinNow(n);
      return Pinned(Change(n, item.source, item.revision));
    }

    method PinNow(n: string)
      requires Valid() && n in tools && !tools[n].lazy && tools[n].state != Materialized && Room(View(), tools[n])
      modifies this
      ensures Valid() && events == old(events) + [MaterializeNow(n)] && old(worlds) <= worlds
      ensures View() == Bump(SetItem(old(View()), n, old(tools)[n].(state := Materialized)))
    {
      tools := tools[n := tools[n].(state := Materialized)];
      generation := generation + 1;
      Log(MaterializeNow(n), Now().(cat := View()));
    }

    /** The end of Materialize, when the entry it found deferred has been resolved. */
    method MaterializeFinish(name: string, token: nat, expected: nat) returns (p: Pin)
      requires Valid() && token in Now().cleared
      modifies this
      ensures Valid() && events == old(events) + [MaterializeEnd(name, token, expected)] && old(worlds) <= worlds
      ensures p.Pinned? <==> Here(old(View()), name, token) && old(tools)[name].revision >= expected
      ensures p.NoEntry? <==> name !in old(tools)
      ensures View() == if p.Pinned? && old(tools)[name].state != Materialized
        then Bump(SetItem(old(View()), name, old(tools)[name].(state := Materialized, revision := old(tools)[name].revision + 1)))
        else old(View())
      ensures p.Pinned? ==> name in tools && tools[name].state == Materialized && p.change == Change(name, tools[name].source, tools[name].revision)
      ensures p.Pinned? || p.NoEntry? || p.OldRevision?
    {
      if name !in tools {
        p := NoEntry(true);
      } else if tools[name].token != token || (expected != 0 && tools[name].revision < expected) {
        p := OldRevision;
      } else {
        if tools[name].state != Materialized {
          tools := tools[name := tools[name].(state := Materialized, revision := tools[name].revision + 1)];
          generation := generation + 1;
        }
        p := Pinned(Change(name, tools[name].source, tools[name].revision));
      }
      Log(MaterializeEnd(name, token, expected), Now().(cat := View()));
    }
  }

  lemma SamplesAreDistinct(s: Catalog, source: string, registrations: seq<Registration>)
    requires Samples(s, source, registrations)
    ensures !Repeats(registrations)
    ensures forall n :: Own(s, source, n) <==> exists i | 0 <= i < |registrations| :: IsNamed(registrations, i, n)
  {
    var names := RegistrationNames(registrations);
    forall i, j | 0 <= i < j < |registrations|
      ensures registrations[i].descriptor.name != registrations[j].descriptor.name
    {
      LessIsStrict(names[i], names[j]);
    }
    forall n
      ensures Own(s, source, n) <==> exists i | 0 <= i < |registrations| :: IsNamed(registrations, i, n)
    {
      if Own(s, source, n) {
        assert n in names;
        var i :| 0 <= i < |names| && names[i] == n;
        assert IsNamed(registrations, i, n);
      }
      if i :| 0 <= i < |registrations| && IsNamed(registrations, i, n) {
        assert names[i] in names;
      }
    }
  }

  predicate PutIn(sampled: seq<Registration>, k: nat, new': Registration, registrations: seq<Registration>) {
    k < |sampled| && IsNamed(sampled, k, new'.descriptor.name) && registrations == sampled[k := new']
  }

  lemma ReplacedSample(s: Catalog, source: string, sampled: seq<Registration>, new': Registration, found: bool,
                       registrations: seq<Registration>)
    requires Samples(s, source, sampled)
    requires found ==> exists k: nat :: PutIn(sampled, k, new', registrations)
    requires !found ==> forall k | 0 <= k < |sampled| :: !IsNamed(sampled, k, new'.descriptor.name)
    ensures found <==> Own(s, source, new'.descriptor.name)
    ensures found ==> !Repeats(registrations) && Replacing(s, source, new', Desired(registrations))
  {
    SamplesAreDistinct(s, source, sampled);
    if found {
      var k: nat :| PutIn(sampled, k, new', registrations);
      assert forall i | 0 <= i < |sampled| :: registrations[i].descriptor.name == sampled[i].descriptor.name;
      assert !Repeats(registrations);
      forall m {
        ReplacedAt(s, source, sampled, k, new', registrations, m);
      }
    }
  }

  lemma ReplacedAt(s: Catalog, source: string, sampled: seq<Registration>, k: nat, new': Registration,
                   registrations: seq<Registration>, m: string)
    requires Samples(s, source, sampled) && PutIn(sampled, k, new', registrations) && !Repeats(registrations) && !Repeats(sampled)
    requires Own(s, source, m) <==> exists i | 0 <= i < |sampled| :: IsNamed(sampled, i, m)
    ensures AsReplaced(s, source, new', Desired(registrations), m)
  {
    DesiredAt(registrations, m);
    assert forall i | 0 <= i < |sampled| :: IsNamed(registrations, i, m) <==> IsNamed(sampled, i, m);
    if i :| 0 <= i < |sampled| && IsNamed(sampled, i, m) {
      assert IsNamed(registrations, i, m);
    }
  }

  lemma {:induction false} FilteredIn(registrations: seq<Registration>, name: string, r: Registration)
    ensures r in Filtered(registrations, name) <==> r in registrations && r.descriptor.name != name
  {
    if registrations != [] {
      var init := registrations[..|registrations| - 1];
      FilteredIn(init, name, r);
      assert registrations == init + [registrations[|init|]];
    }
  }

  lemma {:induction false} FilteredIsDistinct(registrations: seq<Registration>, name: string)
    requires !Repeats(registrations)
    ensures !Repeats(Filtered(registrations, name))
  {
    if registrations != [] {
      var init, last := registrations[..|registrations| - 1], registrations[|registrations| - 1];
      assert forall j, k | 0 <= j < k < |init| :: init[j] == registrations[j] && init[k] == registrations[k];
      FilteredIsDistinct(init, name);
      var kept := Filtered(init, name);
      forall k | 0 <= k < |kept|
        ensures kept[k].descriptor.name != last.descriptor.name
      {
        FilteredIn(init, name, kept[k]);
        assert kept[k] in init;
        var j :| 0 <= j < |init| && init[j] == kept[k];
        assert registrations[j].descriptor.name != registrations[|init|].descriptor.name;
      }
    }
  }

  lemma FilteredHas(registrations: seq<Registration>, name: string)
    requires !Repeats(registrations)
    ensures !Repeats(Filtered(registrations, name))
    ensures forall r :: r in Filtered(registrations, name) <==> r in registrations && r.descriptor.name != name
  {
    FilteredIsDistinct(registrations, name);
    forall r
      ensures r in Filtered(registrations, name) <==> r in registrations && r.descriptor.name != name
    {
      FilteredIn(registrations, name, r);
    }
  }

  lemma RevokedSample(s: Catalog, source: string, sampled: seq<Registration>, name: string)
    requires Samples(s, source, sampled)
    ensures (exists k | 0 <= k < |sampled| :: IsNamed(sampled, k, name)) <==> Own(s, source, name)
    ensures !Repeats(Filtered(sampled, name))
    ensures Own(s, source, name) ==> Revoking(s, source, name, Desired(Filtered(sampled, name)))
  {
    SamplesAreDistinct(s, source, sampled);
    FilteredHas(sampled, name);
    forall m {
      RevokedAt(s, source, sampled, name, Filtered(sampled, name), m);
    }
  }

  lemma RevokedAt(s: Catalog, source: string, sampled: seq<Registration>, name: string, rest: seq<Registration>,
                  m: string)
    requires Samples(s, source, sampled) && !Repeats(rest)
    requires Own(s, source, m) <==> exists i | 0 <= i < |sampled| :: IsNamed(sampled, i, m)
    requires forall r :: r in rest <==> r in sampled && r.descriptor.name != name
    ensures AsRevoked(s, source, name, Desired(rest), m)
  {
    DesiredAt(rest, m);
    if Own(s, source, m) && m != name {
      var i :| 0 <= i < |sampled| && IsNamed(sampled, i, m);
      assert sampled[i] in rest;
      var j :| 0 <= j < |rest| && rest[j] == sampled[i];
      assert IsNamed(rest, j, m);
    }
    if j :| 0 <= j < |rest| && IsNamed(rest, j, m) {
      assert rest[j] in sampled;
      var i :| 0 <= i < |sampled| && sampled[i] == rest[j];
      assert IsNamed(sampled, i, m);
    }
  }

  lemma CountOne(s: Catalog, rest: set<string>, n: string)
    requires n in rest && rest <= s.tools.Keys
    ensures var before, after := Counted(s) - rest, Counted(s) - (rest - {n});
      if Counts(s.tools[n]) then
        |after| == |before| + 1 && SumSizes(s.tools, after) == SumSizes(s.tools, before) + s.tools[n].descriptor.body.size
      else after == before
  {
    var before, after := Counted(s) - rest, Counted(s) - (rest - {n});
    if Counts(s.tools[n]) {
      assert after == before + {n} && after - {n} == before;
      SumWithout(s.tools, after, n);
    }
  }

  /** An entry says and does just what a registration does. */
  predicate Carries(item: Item, source: string, r: Registration) {
    item.descriptor == r.descriptor && item.external == r.external && item.binding == r.binding && item.executor == r.executor &&
    item.lazy == r.lazy && item.state == r.state && item.source == source && !item.loading
  }

  /** The same, but for the executor and the running loader of an entry that is still deferred. */
  predicate CarriesOn(item: Item, source: string, r: Registration) {
    item.descriptor == r.descriptor && item.external == r.external && item.binding == r.binding &&
    item.lazy == r.lazy && item.state == r.state && item.source == source && (!r.lazy ==> item.executor == r.executor)
  }

  /** An entry already is what is asked for; of one still deferred only its own sample can say so. */
  predicate AlreadyIs(s: Catalog, source: string, r: Registration) {
    r.descriptor.name in s.tools && CarriesOn(s.tools[r.descriptor.name], source, r) &&
    (r.lazy ==> r.token != 0 && r.token == s.tools[r.descriptor.name].token)
  }

  /** What was asked for under a name stays if it already is so; else it is a new entry made of just that. */
  predicate IsInstalled(s: Catalog, t: Catalog, source: string, r: Registration) {
    var n := r.descriptor.name;
    n in t.tools &&
    if AlreadyIs(s, source, r) then t.tools[n] == s.tools[n] else IsNew(s, t, source, r)
  }

  /** Where a name that is not live starts: after what the source itself last had under it. */
  function After(s: Catalog, source: string, n: string): (revision: nat)
    ensures revision >= 1
  {
    if n in s.tombstones && s.tombstones[n].source == source then s.tombstones[n].revision + 1 else 1
  }

  predicate IsNew(s: Catalog, t: Catalog, source: string, r: Registration)
    requires r.descriptor.name in t.tools
  {
    var n := r.descriptor.name;
    Carries(t.tools[n], source, r) && t.tools[n].token > s.nextToken &&
    (n in s.tools ==> t.tools[n].revision == s.tools[n].revision + 1) &&
    (!Live(s, n) ==> t.tools[n].revision == After(s, source, n))
  }

  /** What a source is shown of its own entries says again just what they are. */
  lemma SampleIsThere(s: Catalog, n: string)
    requires n in s.tools && GoodItem(s, n)
    ensures AlreadyIs(s, s.tools[n].source, Sampled(s.tools[n])) && Sampled(s.tools[n]).executor == s.tools[n].executor
  {
  }

  /** What an entry that was registered with an executor answers: that executor, exactly when asked
      about itself it gives its own name and does not say it is out of service. */
  lemma CarriedServes(s: Catalog, source: string, r: Registration, live: Report)
    requires Normal(r) && !r.lazy && r.descriptor.name in s.tools && CarriesOn(s.tools[r.descriptor.name], source, r)
    ensures var n := r.descriptor.name;
      (InService(s, n, s.tools[n].token, None, live) <==> live.name == n && live.availability != Unavailable) &&
      !s.tools[n].lazy && s.tools[n].executor == r.executor
  {
  }

  /** From registration to use, by name or alias. */
  method RegisterThenResolve(registry: Registry, source: string, r: Registration, x: string, live: Report)
    returns (ok: bool, a: Answer)
    requires registry.Valid() && Normal(r) && !r.lazy && (x == r.descriptor.name || x in r.descriptor.aliases)
    modifies registry
    ensures registry.Valid() && ok == Registrable(old(registry.View()), r.descriptor)
    ensures ok && a.Ready? ==> a.executor == r.executor
    ensures ok ==> (a.Ready? <==> live.name == r.descriptor.name && live.availability != Unavailable)
  {
    ok := registry.RegisterEntry(source, r);
    a := NotKnown;
    if ok {
      assert Canonical(registry.View(), x) == r.descriptor.name;
      CarriedServes(registry.View(), source, r, live);
      a := registry.ResolveAlone(x, None, live, Nothing);
    }
  }

  /** From a reconcile to use: whether it kept what was there or put something new in its place. */
  method ReconcileThenResolve(registry: Registry, source: string, expected: nat, registrations: seq<Registration>,
                              r: Registration, live: Report)
    returns (v: Verdict, a: Answer)
    requires registry.Valid() && r in registrations && !r.lazy
    modifies registry
    ensures registry.Valid()
    ensures v.Done? && a.Ready? ==> a.executor == r.executor
    ensures v.Done? ==> (a.Ready? <==> live.name == r.descriptor.name && live.availability != Unavailable)
  {
    v := registry.Reconcile(source, expected, registrations);
    a := NotKnown;
    if v.Done? {
      ghost var i :| 0 <= i < |registrations| && registrations[i] == r;
      ghost var form := NormalForms(registrations)[i];
      NormalizedIsNormal(r);
      assert form in NormalForms(registrations);
      CarriedServes(registry.View(), source, form, live);
      a := registry.ResolveAlone(r.descriptor.name, None, live, Nothing);
    }
  }

  /** A name or alias that no longer leads anywhere is remembered with where it led, one revision on. */
  predicate IsRemembered(s: Catalog, t: Catalog, source: string, x: string) {
    var n := Canonical(s, x);
    n in s.tools && x in t.tombstones && t.tombstones[x] == Tombstone(source, n, s.tools[n].revision + 1)
  }

  /** The source has exactly what it asked for, what went is remembered, and nothing of other sources has
      moved. */
  ghost predicate Installed(s: Catalog, t: Catalog, source: string, registrations: seq<Registration>) {
    (forall r | r in registrations :: IsInstalled(s, t, source, r)) &&
    (forall n | n in t.tools && t.tools[n].source == source :: exists i | 0 <= i < |registrations| :: IsNamed(registrations, i, n)) &&
    (forall n :: Foreign(s, source, n) || Foreign(t, source, n) ==> n in s.tools && n in t.tools && t.tools[n] == s.tools[n]) &&
    forall x | Live(s, x) && !Live(t, x) :: IsRemembered(s, t, source, x)
  }

  predicate Foreign(s: Catalog, source: string, n: string) {
    n in s.tools && s.tools[n].source != source
  }

  lemma ReconciledIsInstalled(s: Catalog, source: string, registrations: seq<Registration>, t: Catalog)
    requires !Repeats(registrations) && Reconciled(s, source, Desired(registrations), t)
    ensures Installed(s, t, source, registrations)
  {
    var desired := Desired(registrations);
    forall r | r in registrations
      ensures IsInstalled(s, t, source, r)
    {
      var i :| 0 <= i < |registrations| && registrations[i] == r;
      DesiredIs(registrations, i);
      WantedIsInstalled(s, source, desired, t, r.descriptor.name);
    }
    forall n | n in t.tools && t.tools[n].source == source
      ensures exists i | 0 <= i < |registrations| :: IsNamed(registrations, i, n)
    {
      DesiredAt(registrations, n);
      OwnIsWanted(s, source, desired, t, n);
    }
    forall x | Live(s, x) && !Live(t, x)
      ensures IsRemembered(s, t, source, x)
    {
      GoneIsRemembered(s, source, desired, t, x);
    }
    forall n | Foreign(s, source, n) || Foreign(t, source, n)
      ensures n in s.tools && n in t.tools && t.tools[n] == s.tools[n]
    {
      ForeignStays(s, source, desired, t, n);
    }
  }

  lemma GoneIsRemembered(s: Catalog, source: string, desired: map<string, Registration>, t: Catalog, x: string)
    requires Reconciled(s, source, desired, t) && Live(s, x) && !Live(t, x)
    ensures IsRemembered(s, t, source, x)
  {
  }

  lemma ForeignStays(s: Catalog, source: string, desired: map<string, Registration>, t: Catalog, n: string)
    requires Reconciled(s, source, desired, t) && (Foreign(s, source, n) || Foreign(t, source, n))
    ensures n in s.tools && n in t.tools && t.tools[n] == s.tools[n]
  {
    assert n in desired ==> Kept(s, source, desired, n) || Fresh(s, source, desired, n);
  }

  lemma WantedIsInstalled(s: Catalog, source: string, desired: map<string, Registration>, t: Catalog, n: string)
    requires Reconciled(s, source, desired, t) && n in desired && desired[n].descriptor.name == n
    ensures IsInstalled(s, t, source, desired[n])
  {
    assert Kept(s, source, desired, n) || Fresh(s, source, desired, n);
    assert AlreadyIs(s, source, desired[n]) <==> Kept(s, source, desired, n);
  }

  lemma OwnIsWanted(s: Catalog, source: string, desired: map<string, Registration>, t: Catalog, n: string)
    requires Reconciled(s, source, desired, t) && n in t.tools && t.tools[n].source == source
    ensures n in desired
  {
    assert !Revoked(s, source, desired, n) || Changes(s, source, desired);
  }

  ghost predicate SomeFresh(s: Catalog, source: string, desired: map<string, Registration>) {
    exists n :: Fresh(s, source, desired, n)
  }

  /** Tokens are dealt exactly when some name needs one. */
  lemma TokensSpent(s: Catalog, source: string, desired: map<string, Registration>, tools: map<string, Item>,
                    nextToken: nat)
    requires NextTools(s, source, desired, tools, nextToken) && TokensSpared(s, source, desired, nextToken)
    ensures nextToken != s.nextToken <==> SomeFresh(s, source, desired)
  {
  }

  predicate Submittable(registrations: seq<Registration>) {
    forall r | r in registrations :: Normalized(r).Some?
  }

  function NormalForms(registrations: seq<Registration>): (forms: seq<Registration>)
    requires Submittable(registrations)
    ensures |forms| == |registrations| && forall i | 0 <= i < |forms| :: Normalized(registrations[i]) == Some(forms[i])
  {
    seq(|registrations|, i requires 0 <= i < |registrations| => Normalized(registrations[i]).value)
  }

  lemma FormsAreNormal(registrations: seq<Registration>)
    requires Submittable(registrations)
    ensures forall r | r in NormalForms(registrations) :: Normal(r)
  {
    var forms := NormalForms(registrations);
    forall i | 0 <= i < |forms|
      ensures Normal(forms[i])
    {
      NormalizedIsNormal(registrations[i]);
    }
  }

  /** What is submitted by name is the normal form of what was meant by that name. */
  lemma FormsAreSubmitted(registrations: seq<Registration>)
    requires Submittable(registrations) && !Repeats(registrations)
    ensures !Repeats(NormalForms(registrations)) && Submits(Desired(registrations), Desired(NormalForms(registrations)))
  {
    var forms := NormalForms(registrations);
    forall i | 0 <= i < |forms|
      ensures forms[i].descriptor.name == registrations[i].descriptor.name
    {
      NormalizedIsNormal(registrations[i]);
    }
    forall n
      ensures n in Desired(registrations) <==> n in Desired(forms)
      ensures n in Desired(registrations) ==> Normalized(Desired(registrations)[n]) == Some(Desired(forms)[n])
    {
      DesiredAt(registrations, n);
      DesiredAt(forms, n);
      assert forall i | 0 <= i < |forms| :: IsNamed(forms, i, n) <==> IsNamed(registrations, i, n);
      if i :| 0 <= i < |forms| && IsNamed(registrations, i, n) {
        assert IsNamed(forms, i, n);
      }
    }
  }

  lemma AllAreNormal(registrations: seq<Registration>)
    requires forall r | r in registrations :: Normal(r)
    ensures AllNormal(Desired(registrations))
  {
    DesiredHas(registrations);
  }
}
