/** The tool catalog as values: its entries, what one reconcile may do to them, and the small
    steps that change a single entry. */
module Catalog {
  import opened Wrappers
  import opened Order

  datatype Availability = Available | Unavailable | Deferred

  /** What a descriptor says besides its name, aliases and availability; `size` is the length of
      its encoded input schema. */
  datatype Body = Body(id: nat, size: nat)

  datatype Descriptor = Descriptor(
    name: string, aliases: seq<string>, body: Body, availability: Availability, reason: string, lazy: bool)

  /** The untrusted side of a descriptor, of which only availability ever changes. */
  datatype External = External(id: nat, availability: Availability, reason: string, lazy: bool)

  datatype EntryState = Eager | Lazy | Materialized | Broken

  /** A live entry. `token` is its incarnation; `loading` says that its loader is running. */
  datatype Item = Item(
    descriptor: Descriptor, external: External, binding: nat, executor: nat, lazy: bool,
    source: string, revision: nat, state: EntryState, token: nat, loading: bool)

  /** A normalized registration; `token` is kept by those sampled from the catalog, else 0. */
  datatype Registration = Registration(
    descriptor: Descriptor, external: External, binding: nat, executor: nat, lazy: bool,
    state: EntryState, token: nat)

  datatype Tombstone = Tombstone(source: string, canonical: string, revision: nat)

  datatype Catalog = Catalog(
    tools: map<string, Item>, aliases: map<string, string>, tombstones: map<string, Tombstone>,
    generation: nat, nextToken: nat, maxEntries: nat, maxBytes: nat)

  datatype Change = Change(name: string, source: string, revision: nat)

  datatype ChangeSet = ChangeSet(generation: nat, added: seq<Change>, replaced: seq<Change>, revoked: seq<Change>)

  // ---- Registrations ----

  predicate Distinct(xs: seq<string>) {
    forall i, j | 0 <= i < j < |xs| :: xs[i] != xs[j]
  }

  predicate ValidNames(d: Descriptor) {
    d.name != "" && Distinct(d.aliases) && "" !in d.aliases && d.name !in d.aliases
  }

  predicate ValidDescriptor(d: Descriptor) {
    ValidNames(d) && (d.availability == Unavailable ==> d.reason != "")
  }

  /** What normalization leaves: a loader makes a deferred entry, an executor never does. */
  predicate Normal(r: Registration) {
    ValidDescriptor(r.descriptor) &&
    (if r.lazy then r.state == Lazy && r.descriptor.availability == Deferred
     else r.state != Lazy && r.descriptor.availability != Deferred)
  }

  /** The descriptor as the untrusted side would have it now. */
  function Rebuilt(d: Descriptor, e: External): Descriptor {
    d.(availability := e.availability, reason := e.reason, lazy := e.lazy)
  }

  /** What normalization makes of a registration, each time it is submitted; nothing if it is refused.
      Unless it was materialized, its descriptor is built anew from the untrusted side. */
  function Normalized(r: Registration): Option<Registration> {
    if r.lazy then
      var d := r.descriptor.(availability := Deferred, lazy := true);
      if ValidDescriptor(d) then
        Some(r.(descriptor := d, external := r.external.(availability := Deferred, lazy := true), state := Lazy))
      else None
    else
      var d := if r.state == Materialized then r.descriptor else Rebuilt(r.descriptor, r.external);
      if d.availability == Deferred || !ValidDescriptor(d) then None
      else
        var state := if d.availability == Unavailable then Broken else if r.state == Materialized then Materialized else Eager;
        Some(r.(descriptor := d, state := state))
  }

  /** What is normalized keeps its names, what it runs and what it may do, and is deferred exactly when it
      comes with a loader. */
  lemma NormalizedIsNormal(r: Registration)
    requires Normalized(r).Some?
    ensures var n := Normalized(r).value;
      Normal(n) && n.descriptor.name == r.descriptor.name && n.descriptor.aliases == r.descriptor.aliases && n.token == r.token &&
      n.executor == r.executor && n.binding == r.binding && n.lazy == r.lazy && n.external.id == r.external.id &&
      n.descriptor.body == r.descriptor.body && (!r.lazy ==> n.external == r.external) &&
      (n.descriptor.availability == Deferred <==> r.lazy) && (n.state == Lazy <==> r.lazy)
    ensures var n := Normalized(r).value;
      if r.lazy then n.external.availability == Deferred && n.descriptor.lazy && n.external.lazy
      else
        (n.state == Broken <==> n.descriptor.availability == Unavailable) &&
        (n.state == Materialized <==> r.state == Materialized && n.descriptor.availability != Unavailable) &&
        if r.state == Materialized then n.descriptor == r.descriptor
        else n.descriptor.availability == r.external.availability && n.descriptor.reason == r.external.reason
  {
  }

  /** A name is missing or stands for two things. */
  predicate UnfitNames(name: string, aliases: seq<string>) {
    name == "" || name in aliases || "" in aliases || exists i, j | 0 <= i < j < |aliases| :: aliases[i] == aliases[j]
  }

  /** When a registration is refused: its names are unfit, or it has an executor and says that it is
      deferred, or out of service for no reason. */
  lemma UnfitIsRefused(r: Registration)
    ensures var says := if r.state == Materialized then (r.descriptor.availability, r.descriptor.reason)
        else (r.external.availability, r.external.reason);
      Normalized(r).None? <==>
      (UnfitNames(r.descriptor.name, r.descriptor.aliases) || (!r.lazy && (says.0 == Deferred || (says.0 == Unavailable && says.1 == ""))))
  {
  }

  predicate SameRegistered(current: Item, desired: Registration) {
    current.state == desired.state && current.descriptor == desired.descriptor &&
    current.external == desired.external && current.binding == desired.binding &&
    if current.lazy || desired.lazy then
      current.lazy && desired.lazy && desired.token != 0 && desired.token == current.token
    else current.executor == desired.executor
  }

  function NewItem(source: string, r: Registration, revision: nat, token: nat): Item {
    Item(r.descriptor, r.external, r.binding, r.executor, r.lazy, source, revision, r.state, token, false)
  }

  // ---- Names ----

  /** The live entry that answers to a name or alias. */
  predicate Live(s: Catalog, x: string) {
    x in s.tools || x in s.aliases
  }

  function Canonical(s: Catalog, x: string): string {
    if x in s.aliases then s.aliases[x] else x
  }

  predicate Known(s: Catalog, x: string) {
    Live(s, x) || x in s.tombstones
  }

  predicate OwnedBy(tools: map<string, Item>, alias: string, name: string) {
    name in tools && alias in tools[name].descriptor.aliases
  }

  /** The alias map is exactly the aliases of the live tools. */
  ghost predicate AliasesOf(tools: map<string, Item>, aliases: map<string, string>) {
    (forall a | a in aliases :: OwnedBy(tools, a, aliases[a])) &&
    (forall a, n | OwnedBy(tools, a, n) :: a in aliases && aliases[a] == n)
  }

  /** No alias is a tool's name or another tool's alias. */
  ghost predicate AliasesAgree(tools: map<string, Item>) {
    (forall a, n | OwnedBy(tools, a, n) :: a !in tools) &&
    (forall a, n, m | OwnedBy(tools, a, n) && OwnedBy(tools, a, m) :: n == m)
  }

  ghost predicate NamesIntact(s: Catalog) {
    AliasesOf(s.tools, s.aliases) && AliasesAgree(s.tools) &&
    (forall x | x in s.tombstones :: !Live(s, x))
  }

  predicate GoodItem(s: Catalog, n: string)
    requires n in s.tools
  {
    var item := s.tools[n];
    ValidNames(item.descriptor) && item.descriptor.name == n && 1 <= item.token <= s.nextToken && item.revision >= 1 &&
    (item.lazy <==> item.state == Lazy) && (item.loading ==> item.lazy)
  }

  ghost predicate Inv(s: Catalog) {
    NamesIntact(s) && s.generation >= 1 &&
    (forall n | n in s.tools :: GoodItem(s, n)) &&
    (forall n, m | n in s.tools && m in s.tools && n != m :: s.tools[n].token != s.tools[m].token)
  }

  // ---- Reconcile ----

  /** A name the source owns before the reconcile. */
  predicate Own(s: Catalog, source: string, n: string) {
    n in s.tools && s.tools[n].source == source
  }

  predicate Kept(s: Catalog, source: string, desired: map<string, Registration>, n: string) {
    n in desired && Own(s, source, n) && SameRegistered(s.tools[n], desired[n])
  }

  predicate Fresh(s: Catalog, source: string, desired: map<string, Registration>, n: string) {
    n in desired && !Kept(s, source, desired, n)
  }

  /** The revision a new entry starts at: after its predecessor's, else after the tombstone this
      source left for the name, also when an entry replaced just before it gave the name up as an
      alias. */
  function FreshRevision(s: Catalog, source: string, desired: map<string, Registration>, n: string): nat {
    var m := Canonical(s, n);
    if n in s.tools then s.tools[n].revision + 1
    else if Own(s, source, m) && Fresh(s, source, desired, m) && Less(m, n) then s.tools[m].revision + 2
    else if n in s.tombstones && s.tombstones[n].source == source then s.tombstones[n].revision + 1
    else 1
  }

  /** Names of other sources may not be claimed. */
  predicate Claimable(s: Catalog, source: string, desired: map<string, Registration>) {
    forall n | n in desired :: n in s.tools ==> s.tools[n].source == source
  }

  /** The tools after a reconcile. Only the order in which new tokens are dealt is left open. */
  ghost predicate NextTools(s: Catalog, source: string, desired: map<string, Registration>, tools: map<string, Item>,
                            nextToken: nat) {
    (forall n :: n in tools <==> n in desired || (n in s.tools && s.tools[n].source != source)) &&
    (forall n | n in tools && n !in desired :: tools[n] == s.tools[n]) &&
    (forall n | Kept(s, source, desired, n) :: tools[n] == s.tools[n]) &&
    (forall n | Fresh(s, source, desired, n) ::
       tools[n] == NewItem(source, desired[n], FreshRevision(s, source, desired, n), tools[n].token) &&
       s.nextToken < tools[n].token <= nextToken) &&
    (forall n, m | Fresh(s, source, desired, n) && Fresh(s, source, desired, m) && n != m :: tools[n].token != tools[m].token) &&
    s.nextToken <= nextToken
  }

  /** What was live and no longer is, is remembered at the revision after its last. */
  ghost predicate NextTombstones(s: Catalog, source: string, tools: map<string, Item>, aliases: map<string, string>,
                                 tombstones: map<string, Tombstone>) {
    forall x ::
      if x in tools || x in aliases then x !in tombstones
      else if Live(s, x) then
        x in tombstones && Canonical(s, x) in s.tools &&
        tombstones[x] == Tombstone(source, Canonical(s, x), s.tools[Canonical(s, x)].revision + 1)
      else (x in tombstones <==> x in s.tombstones) && (x in tombstones ==> tombstones[x] == s.tombstones[x])
  }

  predicate Added(s: Catalog, source: string, desired: map<string, Registration>, n: string) {
    Fresh(s, source, desired, n) && n !in s.tools
  }

  predicate Replaced(s: Catalog, source: string, desired: map<string, Registration>, n: string) {
    Fresh(s, source, desired, n) && n in s.tools
  }

  predicate Revoked(s: Catalog, source: string, desired: map<string, Registration>, n: string) {
    Own(s, source, n) && n !in desired
  }

  ghost predicate Changes(s: Catalog, source: string, desired: map<string, Registration>) {
    exists n :: Fresh(s, source, desired, n) || Revoked(s, source, desired, n)
  }

  function Names(changes: seq<Change>): (names: seq<string>)
    ensures |names| == |changes| && forall i | 0 <= i < |changes| :: names[i] == changes[i].name
  {
    seq(|changes|, i requires 0 <= i < |changes| => changes[i].name)
  }

  ghost predicate ReportsChanges(s: Catalog, source: string, desired: map<string, Registration>, c: ChangeSet) {
    Ascending(Names(c.added)) && Ascending(Names(c.replaced)) && Ascending(Names(c.revoked)) &&
    (forall n :: n in Names(c.added) <==> Added(s, source, desired, n)) &&
    (forall n :: n in Names(c.replaced) <==> Replaced(s, source, desired, n)) &&
    (forall n :: n in Names(c.revoked) <==> Revoked(s, source, desired, n)) &&
    (forall x | x in c.added :: x == Change(x.name, source, FreshRevision(s, source, desired, x.name))) &&
    (forall x | x in c.replaced :: x == Change(x.name, source, FreshRevision(s, source, desired, x.name))) &&
    (forall x | x in c.revoked :: x.name in s.tools && x == Change(x.name, source, s.tools[x.name].revision + 1))
  }

  /** A successful reconcile of what a source wants. */
  ghost predicate Reconciled(s: Catalog, source: string, desired: map<string, Registration>, r: Catalog) {
    Claimable(s, source, desired) && r.maxEntries == s.maxEntries && r.maxBytes == s.maxBytes &&
    if Changes(s, source, desired) then
      NextTools(s, source, desired, r.tools, r.nextToken) &&
      AliasesAgree(r.tools) && AliasesOf(r.tools, r.aliases) &&
      NextTombstones(s, source, r.tools, r.aliases, r.tombstones) &&
      r.generation == s.generation + 1
    else r == s
  }

  /** A refused reconcile may have used up tokens; nothing else moves. */
  predicate Untouched(s: Catalog, r: Catalog) {
    r == s.(nextToken := r.nextToken) && s.nextToken <= r.nextToken
  }

  ghost predicate AllNormal(desired: map<string, Registration>) {
    forall n | n in desired :: Normal(desired[n]) && desired[n].descriptor.name == n
  }

  // ---- Steps on one entry ----

  function SetItem(s: Catalog, n: string, item: Item): Catalog {
    s.(tools := s.tools[n := item])
  }

  function Bump(s: Catalog): Catalog {
    s.(generation := s.generation + 1)
  }

  predicate Registrable(s: Catalog, d: Descriptor) {
    !Live(s, d.name) && forall a | a in d.aliases :: !Live(s, a)
  }

  function AddAliases(aliases: map<string, string>, names: seq<string>, canonical: string): map<string, string> {
    if names == [] then aliases else AddAliases(aliases, names[..|names| - 1], canonical)[names[|names| - 1] := canonical]
  }

  /** One registration of its own, refused when any of its names is live. */
  function RegisterOne(s: Catalog, source: string, r: Registration): Catalog {
    if !Registrable(s, r.descriptor) then s
    else
      var d := r.descriptor;
      s.(tools := s.tools[d.name := NewItem(source, r, 1, s.nextToken + 1)],
         aliases := AddAliases(s.aliases, d.aliases, d.name),
         tombstones := s.tombstones - ({d.name} + set a | a in d.aliases),
         generation := s.generation + 1, nextToken := s.nextToken + 1)
  }

  /** An executor may report itself more or less available; nothing else of it is believed. */
  function Refresh(s: Catalog, n: string, liveName: string, availability: Availability, reason: string): Catalog {
    if n !in s.tools || s.tools[n].lazy || liveName != n then s
    else
      var item := s.tools[n];
      var d := item.descriptor.(availability := availability, reason := reason);
      if d == item.descriptor || !ValidDescriptor(d) then s
      else Bump(SetItem(s, n, item.(
        descriptor := d, external := item.external.(availability := availability, reason := reason),
        state := if availability == Unavailable then Broken else if item.state == Materialized then Materialized else Eager,
        revision := item.revision + 1)))
  }

  datatype Binding = Binding(revision: nat, authority: nat)

  predicate Valid(item: Item, b: Binding) {
    b.authority != 0 && item.token == b.authority && item.revision == b.revision
  }

  ghost function SumSizes(tools: map<string, Item>, names: set<string>): nat
    requires forall n | n in names :: n in tools
  {
    if names == {} then 0
    else
      var n :| n in names;
      tools[n].descriptor.body.size + SumSizes(tools, names - {n})
  }
}
