/** Snapshots of the catalog, the difference between two of them, and the registrations a source
    samples to change one entry and keep the rest. */
module CatalogDiff {
  import opened Wrappers
  import opened Order
  import opened Catalog
  import opened CatalogRuns

  datatype Row = Row(name: string, source: string, revision: nat, state: EntryState)

  function RowOf(s: Catalog, n: string): Row
    requires n in s.tools
  {
    Row(n, s.tools[n].source, s.tools[n].revision, s.tools[n].state)
  }

  function RowNames(entries: seq<Row>): (names: seq<string>)
    ensures |names| == |entries| && forall i | 0 <= i < |entries| :: names[i] == entries[i].name
  {
    seq(|entries|, i requires 0 <= i < |entries| => entries[i].name)
  }

  /** The entries of a catalog in name order. */
  ghost predicate Shows(entries: seq<Row>, s: Catalog) {
    Lists(RowNames(entries), s.tools.Keys) && forall e | e in entries :: e.name in s.tools && e == RowOf(s, e.name)
  }

  method Snapshot(s: Catalog) returns (entries: seq<Row>)
    ensures Shows(entries, s)
  {
    var names := List(s.tools.Keys);
    entries := seq(|names|, i requires 0 <= i < |names| && names[i] in s.tools => RowOf(s, names[i]));
    assert RowNames(entries) == names;
  }

  function Seen(s: Catalog, name: string): Option<Row> {
    if name in s.tools then Some(RowOf(s, name)) else None
  }

  /** Binary search by name. */
  method Lookup(entries: seq<Row>, name: string, ghost s: Catalog) returns (found: Option<Row>)
    requires Shows(entries, s)
    ensures found == Seen(s, name)
  {
    var at := Search(RowNames(entries), name);
    if at < |entries| && entries[at].name == name {
      assert entries[at] in entries;
      found := Some(entries[at]);
    } else {
      found := None;
    }
  }

  predicate Differ(s: Catalog, r: Catalog, n: string) {
    n in s.tools && n in r.tools && (s.tools[n].revision != r.tools[n].revision || s.tools[n].state != r.tools[n].state)
  }

  function ChangeOf(e: Row): Change {
    Change(e.name, e.source, e.revision)
  }

  /** What a diff lists: the names chosen, in order, each with its entry in `s`. */
  ghost predicate Picks(changes: seq<Change>, s: Catalog, done: seq<string>, chosen: string -> bool) {
    Ascending(Names(changes)) && (forall n :: n in Names(changes) <==> n in done && chosen(n)) &&
    (forall x | x in changes :: x.name in s.tools && x == ChangeOf(RowOf(s, x.name)))
  }

  lemma PickNext(changes: seq<Change>, s: Catalog, names: seq<string>, i: nat, chosen: string -> bool)
    requires Lists(names, s.tools.Keys) && i < |names| && Picks(changes, s, names[..i], chosen)
    ensures names[i] in s.tools && names[..i + 1] == names[..i] + [names[i]]
    ensures chosen(names[i]) ==> Picks(changes + [ChangeOf(RowOf(s, names[i]))], s, names[..i + 1], chosen)
    ensures !chosen(names[i]) ==> Picks(changes, s, names[..i + 1], chosen)
  {
    assert names[i] in names && names[..i + 1] == names[..i] + [names[i]];
    if chosen(names[i]) {
      var x := ChangeOf(RowOf(s, names[i]));
      assert Names(changes + [x]) == Names(changes) + [x.name];
      forall n | n in Names(changes)
        ensures Less(n, x.name)
      {
        var k :| 0 <= k < i && names[k] == n;
      }
      var longer := Names(changes + [x]);
      forall j, k | 0 <= j < k < |longer|
        ensures Less(longer[j], longer[k])
      {
        assert k == |changes| ==> longer[j] in Names(changes);
      }
    }
  }

  /** The change set between two snapshots. */
  method Diff(before: seq<Row>, after: seq<Row>, generation: nat, ghost s: Catalog,
              ghost r: Catalog) returns (c: ChangeSet)
    requires Shows(before, s) && Shows(after, r)
    ensures c.generation == generation
    ensures Picks(c.added, r, RowNames(after), n => n !in s.tools)
    ensures Picks(c.replaced, r, RowNames(after), n => Differ(s, r, n))
    ensures Picks(c.revoked, s, RowNames(before), n => n !in r.tools)
  {
    ghost var isNew := n => n !in s.tools;
    ghost var differs := n => Differ(s, r, n);
    ghost var isGone := n => n !in r.tools;
    var added, replaced, revoked := [], [], [];
    for i := 0 to |after|
      invariant Picks(added, r, RowNames(after)[..i], isNew)
      invariant Picks(replaced, r, RowNames(after)[..i], differs)
    {
      var entry := after[i];
      assert entry in after && entry == RowOf(r, entry.name);
      PickNext(added, r, RowNames(after), i, isNew);
      PickNext(replaced, r, RowNames(after), i, differs);
      var previous := Lookup(before, entry.name, s);
      if previous == None {
        added := added + [ChangeOf(entry)];
      } else if previous.value.revision != entry.revision || previous.value.state != entry.state {
        replaced := replaced + [ChangeOf(entry)];
      }
    }
    assert RowNames(after)[..|after|] == RowNames(after);
    for i := 0 to |before|
      invariant Picks(revoked, s, RowNames(before)[..i], isGone)
    {
      var entry := before[i];
      assert entry in before && entry == RowOf(s, entry.name);
      PickNext(revoked, s, RowNames(before), i, isGone);
      var still := Lookup(after, entry.name, r);
      if still == None {
        revoked := revoked + [ChangeOf(entry)];
      }
    }
    assert RowNames(before)[..|before|] == RowNames(before);
    c := ChangeSet(generation, added, replaced, revoked);
  }

  lemma ReconcileOutcome(s: Catalog, source: string, desired: map<string, Registration>, r: Catalog, n: string)
    requires Reconciled(s, source, desired, r)
    ensures n in r.tools && n !in s.tools <==> Added(s, source, desired, n)
    ensures Differ(s, r, n) <==> Replaced(s, source, desired, n)
    ensures n in s.tools && n !in r.tools <==> Revoked(s, source, desired, n)
    ensures Fresh(s, source, desired, n) ==> n in r.tools && r.tools[n].source == source && r.tools[n].revision == FreshRevision(s, source, desired, n)
  {
    if Changes(s, source, desired) {
      if n in desired && !Fresh(s, source, desired, n) {
        assert Kept(s, source, desired, n);
      }
    } else {
      assert !Fresh(s, source, desired, n) && !Revoked(s, source, desired, n);
    }
  }

  /** A reconcile reports just what a diff of the snapshots around it finds; only the revision it
      gives a revoked entry is one past the last one the entry had. */
  lemma ReconcileReportsTheDiff(s: Catalog, source: string, desired: map<string, Registration>, r: Catalog,
                                c: ChangeSet, d: ChangeSet,
                                before: seq<Row>, after: seq<Row>)
    requires Reconciled(s, source, desired, r) && ReportsChanges(s, source, desired, c) && Shows(before, s) && Shows(after, r)
    requires Picks(d.added, r, RowNames(after), n => n !in s.tools)
    requires Picks(d.replaced, r, RowNames(after), n => Differ(s, r, n))
    requires Picks(d.revoked, s, RowNames(before), n => n !in r.tools)
    ensures c.added == d.added && c.replaced == d.replaced && Names(c.revoked) == Names(d.revoked)
    ensures forall i | 0 <= i < |c.revoked| :: c.revoked[i] == d.revoked[i].(revision := d.revoked[i].revision + 1)
  {
    forall n
      ensures n in Names(c.added) <==> n in Names(d.added)
      ensures n in Names(c.replaced) <==> n in Names(d.replaced)
      ensures n in Names(c.revoked) <==> n in Names(d.revoked)
    {
      SameNames(s, source, desired, r, c, d, before, after, n);
    }
    forall x, y | (x in c.added || x in c.replaced) && (y in d.added || y in d.replaced) && x.name == y.name
      ensures x == y
    {
      SameChange(s, source, desired, r, c, x, y);
    }
    forall i | 0 <= i < |c.revoked|
      ensures WasOwn(s, source, c.revoked[i])
    {
      RevokedIsOwn(s, source, desired, c, i);
    }
    AllSame(s, source, c, d);
  }

  predicate WasOwn(s: Catalog, source: string, x: Change) {
    Own(s, source, x.name) && x == Change(x.name, source, s.tools[x.name].revision + 1)
  }

  /** Change sets that list the same names in order are the same up to what they say of each. */
  lemma AllSame(s: Catalog, source: string, c: ChangeSet, d: ChangeSet)
    requires Ascending(Names(c.added)) && Ascending(Names(c.replaced)) && Ascending(Names(c.revoked))
    requires Ascending(Names(d.added)) && Ascending(Names(d.replaced)) && Ascending(Names(d.revoked))
    requires forall n :: n in Names(c.added) <==> n in Names(d.added)
    requires forall n :: n in Names(c.replaced) <==> n in Names(d.replaced)
    requires forall n :: n in Names(c.revoked) <==> n in Names(d.revoked)
    requires forall x, y | (x in c.added || x in c.replaced) && (y in d.added || y in d.replaced) && x.name == y.name :: x == y
    requires forall i | 0 <= i < |c.revoked| :: WasOwn(s, source, c.revoked[i])
    requires forall x | x in d.revoked :: x.name in s.tools && x == ChangeOf(RowOf(s, x.name))
    ensures c.added == d.added && c.replaced == d.replaced && Names(c.revoked) == Names(d.revoked)
    ensures forall i | 0 <= i < |c.revoked| :: c.revoked[i] == d.revoked[i].(revision := d.revoked[i].revision + 1)
  {
    SameChanges(c.added, d.added);
    SameChanges(c.replaced, d.replaced);
    ListingIsUnique(Names(c.revoked), Names(d.revoked), set n | n in Names(c.revoked));
    forall i | 0 <= i < |c.revoked|
      ensures c.revoked[i] == d.revoked[i].(revision := d.revoked[i].revision + 1)
    {
      assert c.revoked[i] in c.revoked && d.revoked[i] in d.revoked && Names(d.revoked)[i] == Names(c.revoked)[i];
    }
  }

  lemma SameNames(s: Catalog, source: string, desired: map<string, Registration>, r: Catalog, c: ChangeSet,
                  d: ChangeSet,
                  before: seq<Row>, after: seq<Row>, n: string)
    requires Reconciled(s, source, desired, r) && ReportsChanges(s, source, desired, c) && Shows(before, s) && Shows(after, r)
    requires Picks(d.added, r, RowNames(after), n => n !in s.tools)
    requires Picks(d.replaced, r, RowNames(after), n => Differ(s, r, n))
    requires Picks(d.revoked, s, RowNames(before), n => n !in r.tools)
    ensures n in Names(c.added) <==> n in Names(d.added)
    ensures n in Names(c.replaced) <==> n in Names(d.replaced)
    ensures n in Names(c.revoked) <==> n in Names(d.revoked)
  {
    ReconcileOutcome(s, source, desired, r, n);
    assert n in RowNames(after) <==> n in r.tools;
    assert n in RowNames(before) <==> n in s.tools;
  }

  lemma SameChange(s: Catalog, source: string, desired: map<string, Registration>, r: Catalog, c: ChangeSet,
                   x: Change, y: Change)
    requires Reconciled(s, source, desired, r) && ReportsChanges(s, source, desired, c)
    requires (x in c.added || x in c.replaced) && x.name == y.name && y.name in r.tools && y == ChangeOf(RowOf(r, y.name))
    ensures x == y
  {
    if i :| 0 <= i < |c.added| && c.added[i] == x {
      assert Names(c.added)[i] in Names(c.added);
    } else {
      var i :| 0 <= i < |c.replaced| && c.replaced[i] == x;
      assert Names(c.replaced)[i] in Names(c.replaced);
    }
    ReconcileOutcome(s, source, desired, r, x.name);
  }

  lemma RevokedIsOwn(s: Catalog, source: string, desired: map<string, Registration>, c: ChangeSet, i: nat)
    requires ReportsChanges(s, source, desired, c) && i < |c.revoked|
    ensures WasOwn(s, source, c.revoked[i])
  {
    assert c.revoked[i] in c.revoked && Names(c.revoked)[i] in Names(c.revoked);
  }

  lemma SameChanges(xs: seq<Change>, ys: seq<Change>)
    requires Ascending(Names(xs)) && Ascending(Names(ys)) && forall n :: n in Names(xs) <==> n in Names(ys)
    requires forall x, y | x in xs && y in ys && x.name == y.name :: x == y
    ensures xs == ys
  {
    var names := set n | n in Names(xs);
    ListingIsUnique(Names(xs), Names(ys), names);
    forall i | 0 <= i < |xs|
      ensures xs[i] == ys[i]
    {
      assert xs[i] in xs && ys[i] in ys && Names(xs)[i] == Names(ys)[i];
    }
  }

  // ---- Changing one entry ----

  /** The registration a source samples of an entry of its own; it keeps the private token. */
  function Sampled(item: Item): Registration {
    Registration(item.descriptor, item.external, item.binding, item.executor, item.lazy, item.state, item.token)
  }

  /** What comes of a source's registrations when they are submitted. */
  ghost predicate Submits(raw: map<string, Registration>, desired: map<string, Registration>) {
    raw.Keys == desired.Keys && forall n | n in raw :: Normalized(raw[n]) == Some(desired[n])
  }

  /** An entry that its source can submit again as it is: one still deferred, one loaded or pinned and
      in service, or one that its untrusted side describes. */
  predicate Resubmits(item: Item) {
    var d, e := item.descriptor, item.external;
    ValidDescriptor(d) &&
    if item.lazy then d.availability == e.availability == Deferred && d.lazy && e.lazy && item.state == Lazy
    else if item.state == Materialized then d.availability == Available
    else Rebuilt(d, e) == d && d.availability != Deferred && item.state == (if d.availability == Unavailable then Broken else Eager)
  }

  lemma ResubmitsIsFixed(item: Item)
    ensures Resubmits(item) <==> Normalized(Sampled(item)) == Some(Sampled(item))
  {
  }

  predicate AsReplaced(s: Catalog, source: string, new': Registration, raw: map<string, Registration>, m: string) {
    (m in raw <==> Own(s, source, m)) &&
    (m in raw ==> raw[m] == if m == new'.descriptor.name then new' else Sampled(s.tools[m]))
  }

  /** What Replace asks for, seeing `s`: the source's own registrations with one put in. */
  ghost predicate Replacing(s: Catalog, source: string, new': Registration, raw: map<string, Registration>) {
    Own(s, source, new'.descriptor.name) && forall m :: AsReplaced(s, source, new', raw, m)
  }

  predicate AsRevoked(s: Catalog, source: string, n: string, raw: map<string, Registration>, m: string) {
    (m in raw <==> Own(s, source, m) && m != n) && (m in raw ==> raw[m] == Sampled(s.tools[m]))
  }

  /** What Revoke asks for: the source's own registrations with one left out. */
  ghost predicate Revoking(s: Catalog, source: string, n: string, raw: map<string, Registration>) {
    Own(s, source, n) && forall m :: AsRevoked(s, source, n, raw, m)
  }

  /** Submitted again, an entry is kept exactly when it resubmits as it is; otherwise it is replaced. */
  lemma KeptIfResubmitted(s: Catalog, t: Catalog, source: string, desired: map<string, Registration>, m: string)
    requires Inv(t) && SameUpToLoading(s, t) && m in s.tools && Own(s, source, m)
    requires m in desired && Normalized(Sampled(s.tools[m])) == Some(desired[m])
    ensures m in t.tools && Own(t, source, m) && (Kept(t, source, desired, m) <==> Resubmits(t.tools[m]))
    ensures Resubmits(s.tools[m]) == Resubmits(t.tools[m])
  {
    assert s.tools[m].(loading := false) == t.tools[m].(loading := false);
    assert GoodItem(t, m);
    ResubmitsIsFixed(s.tools[m]);
    NormalizedIsNormal(Sampled(s.tools[m]));
  }

  /** What a reconcile by a source does to an entry that was there before. */
  predicate CarriedOver(t: Catalog, r: Catalog, source: string, m: string) {
    m in t.tools && m in r.tools &&
    if t.tools[m].source != source || Resubmits(t.tools[m]) then r.tools[m] == t.tools[m]
    else
      r.tools[m].token > t.nextToken && Normalized(Sampled(t.tools[m])).Some? &&
      r.tools[m] == NewItem(source, Normalized(Sampled(t.tools[m])).value, t.tools[m].revision + 1, r.tools[m].token)
  }

  lemma SparesOrReplaces(s: Catalog, t: Catalog, source: string, desired: map<string, Registration>, r: Catalog,
                         m: string)
    requires Inv(t) && SameUpToLoading(s, t) && Reconciled(t, source, desired, r) && Changes(t, source, desired) && m in t.tools
    requires Own(s, source, m) ==> m in desired && Normalized(Sampled(s.tools[m])) == Some(desired[m])
    requires !Own(s, source, m) ==> m !in desired
    ensures CarriedOver(t, r, source, m)
  {
    assert s.tools[m].(loading := false) == t.tools[m].(loading := false);
    if Own(s, source, m) {
      KeptIfResubmitted(s, t, source, desired, m);
    }
  }

  /** Replace, however other calls interleave between its sample and its commit, gives the entry it names
      what it was given, and of the others changes exactly those of its source that do not resubmit as
      they are: they get a new token and revision. */
  lemma ReplaceSparesTheRest(worlds: seq<World>, events: seq<Event>, i: nat, j: nat, e: Event, new': Registration,
                             raw: map<string, Registration>)
    requires Trace(worlds, events) && WorldInv(worlds[0]) && i <= j < |events| && e == events[j] && e.Reconcile?
    requires e.expected == worlds[i].cat.generation && Replacing(worlds[i].cat, e.source, new', raw) && Submits(raw, e.desired)
    requires worlds[j + 1].cat != worlds[j].cat && !Untouched(worlds[j].cat, worlds[j + 1].cat)
    ensures Replaces(worlds[j].cat, worlds[j + 1].cat, e.source, new'.descriptor.name, new', e.desired)
  {
    SampledReconcileLosesNothing(worlds, events, i, j, e);
    RunKeepsInv(worlds, events, j);
    ReplaceCommits(worlds[i].cat, worlds[j].cat, e.source, new', raw, e.desired, worlds[j + 1].cat);
  }

  /** From t to r the source replaced n by what it submitted, as far as that is anything new. */
  predicate Replaces(t: Catalog, r: Catalog, source: string, n: string, new': Registration,
                     desired: map<string, Registration>) {
    r.tools.Keys == t.tools.Keys && (forall m | m in t.tools && m != n :: CarriedOver(t, r, source, m)) &&
    n in t.tools && n in desired && Normalized(new') == Some(desired[n]) && r.generation == t.generation + 1 &&
    if SameRegistered(t.tools[n], desired[n]) then r.tools[n] == t.tools[n]
    else r.tools[n] == NewItem(source, desired[n], t.tools[n].revision + 1, r.tools[n].token)
  }

  lemma ReplaceCommits(s: Catalog, t: Catalog, source: string, new': Registration, raw: map<string, Registration>,
                       desired: map<string, Registration>, r: Catalog)
    requires Inv(t) && SameUpToLoading(s, t) && Replacing(s, source, new', raw) && Submits(raw, desired)
    requires Reconciled(t, source, desired, r) && Changes(t, source, desired)
    ensures Replaces(t, r, source, new'.descriptor.name, new', desired)
  {
    ReplaceSpares(s, t, source, new', raw, desired, r);
    ReplaceKeepsNames(s, t, source, new', raw, desired, r);
    assert AsReplaced(s, source, new', raw, new'.descriptor.name);
    ReplacedIsNew(s, t, source, new', desired, r);
  }

  lemma ReplacedIsNew(s: Catalog, t: Catalog, source: string, new': Registration, desired: map<string, Registration>,
                      r: Catalog)
    requires SameUpToLoading(s, t) && Own(s, source, new'.descriptor.name)
    requires new'.descriptor.name in desired && Normalized(new') == Some(desired[new'.descriptor.name])
    requires NextTools(t, source, desired, r.tools, r.nextToken)
    ensures var n := new'.descriptor.name;
      n in t.tools && n in r.tools &&
      if SameRegistered(t.tools[n], desired[n]) then r.tools[n] == t.tools[n]
      else r.tools[n] == NewItem(source, desired[n], t.tools[n].revision + 1, r.tools[n].token)
  {
    var n := new'.descriptor.name;
    assert s.tools[n].(loading := false) == t.tools[n].(loading := false);
    assert Kept(t, source, desired, n) <==> SameRegistered(t.tools[n], desired[n]);
  }

  lemma ReplaceSpares(s: Catalog, t: Catalog, source: string, new': Registration, raw: map<string, Registration>,
                      desired: map<string, Registration>, r: Catalog)
    requires Inv(t) && SameUpToLoading(s, t) && Replacing(s, source, new', raw) && Submits(raw, desired)
    requires Reconciled(t, source, desired, r) && Changes(t, source, desired)
    ensures forall m | m in t.tools && m != new'.descriptor.name :: CarriedOver(t, r, source, m)
  {
    forall m | m in t.tools && m != new'.descriptor.name
      ensures CarriedOver(t, r, source, m)
    {
      assert AsReplaced(s, source, new', raw, m);
      SparesOrReplaces(s, t, source, desired, r, m);
    }
  }

  lemma ReplaceKeepsNames(s: Catalog, t: Catalog, source: string, new': Registration, raw: map<string, Registration>,
                          desired: map<string, Registration>, r: Catalog)
    requires SameUpToLoading(s, t) && Replacing(s, source, new', raw) && raw.Keys == desired.Keys
    requires NextTools(t, source, desired, r.tools, r.nextToken)
    ensures r.tools.Keys == t.tools.Keys
  {
    forall m
      ensures m in r.tools <==> m in t.tools
    {
      assert AsReplaced(s, source, new', raw, m);
      StillOwns(s, t, source, m);
    }
  }

  lemma StillOwns(s: Catalog, t: Catalog, source: string, m: string)
    requires SameUpToLoading(s, t)
    ensures (m in s.tools <==> m in t.tools) && (Own(s, source, m) <==> Own(t, source, m))
  {
    assert m in s.tools <==> m in s.tools.Keys;
    if m in s.tools {
      assert s.tools[m].(loading := false) == t.tools[m].(loading := false);
    }
  }

  /** Revoke removes the entry it names, leaves a tombstone, and of the others changes exactly those of
      its source that do not resubmit as they are. */
  lemma RevokeSparesTheRest(worlds: seq<World>, events: seq<Event>, i: nat, j: nat, e: Event, n: string,
                            raw: map<string, Registration>)
    requires Trace(worlds, events) && WorldInv(worlds[0]) && i <= j < |events| && e == events[j] && e.Reconcile?
    requires e.expected == worlds[i].cat.generation && Revoking(worlds[i].cat, e.source, n, raw) && Submits(raw, e.desired)
    requires worlds[j + 1].cat != worlds[j].cat && !Untouched(worlds[j].cat, worlds[j + 1].cat)
    ensures var t, r := worlds[j].cat, worlds[j + 1].cat;
      n in t.tools && r.tools.Keys == t.tools.Keys - {n} && (forall m | m in t.tools && m != n :: CarriedOver(t, r, e.source, m)) &&
      r.generation == t.generation + 1 && n in r.tombstones && r.tombstones[n] == Tombstone(e.source, n, t.tools[n].revision + 1)
  {
    SampledReconcileLosesNothing(worlds, events, i, j, e);
    RunKeepsInv(worlds, events, j);
    var s, t, r := worlds[i].cat, worlds[j].cat, worlds[j + 1].cat;
    RevokeKeepsNames(s, t, e.source, n, raw, e.desired, r);
    RevokeSpares(s, t, e.source, n, raw, e.desired, r);
    LeavesTombstone(t, e.source, r, n);
  }

  lemma RevokeSpares(s: Catalog, t: Catalog, source: string, n: string, raw: map<string, Registration>,
                     desired: map<string, Registration>, r: Catalog)
    requires Inv(t) && SameUpToLoading(s, t) && Revoking(s, source, n, raw) && Submits(raw, desired)
    requires Reconciled(t, source, desired, r) && Changes(t, source, desired)
    ensures forall m | m in t.tools && m != n :: CarriedOver(t, r, source, m)
  {
    forall m | m in t.tools && m != n
      ensures CarriedOver(t, r, source, m)
    {
      assert AsRevoked(s, source, n, raw, m);
      SparesOrReplaces(s, t, source, desired, r, m);
    }
  }

  lemma RevokeKeepsNames(s: Catalog, t: Catalog, source: string, n: string, raw: map<string, Registration>,
                         desired: map<string, Registration>, r: Catalog)
    requires SameUpToLoading(s, t) && Revoking(s, source, n, raw) && raw.Keys == desired.Keys
    requires NextTools(t, source, desired, r.tools, r.nextToken)
    ensures Own(t, source, n) && n !in desired && n in t.tools && r.tools.Keys == t.tools.Keys - {n}
  {
    assert AsRevoked(s, source, n, raw, n);
    StillOwns(s, t, source, n);
    forall m
      ensures m in r.tools <==> m in t.tools && m != n
    {
      assert AsRevoked(s, source, n, raw, m);
      StillOwns(s, t, source, m);
    }
  }

  /** A revoked name does not come back as somebody's alias. */
  lemma LeavesTombstone(t: Catalog, source: string, r: Catalog, n: string)
    requires NamesIntact(t) && AliasesOf(r.tools, r.aliases) && NextTombstones(t, source, r.tools, r.aliases, r.tombstones)
    requires Own(t, source, n) && r.tools.Keys == t.tools.Keys - {n} && forall m | m in t.tools && m != n :: CarriedOver(t, r, source, m)
    ensures n in r.tombstones && r.tombstones[n] == Tombstone(source, n, t.tools[n].revision + 1)
  {
    if n in r.aliases {
      assert OwnedBy(r.tools, n, r.aliases[n]);
      NamesAreNoAliases(t, r, source, n, r.aliases[n]);
    }
    OwnName(t, n);
  }

  lemma NamesAreNoAliases(t: Catalog, r: Catalog, source: string, n: string, m: string)
    requires AliasesAgree(t.tools) && n in t.tools && (m in r.tools ==> CarriedOver(t, r, source, m))
    ensures !OwnedBy(r.tools, n, m)
  {
    assert OwnedBy(r.tools, n, m) ==> OwnedBy(t.tools, n, m);
  }

  lemma OwnName(t: Catalog, n: string)
    requires NamesIntact(t) && n in t.tools
    ensures Canonical(t, n) == n
  {
    forall x | x in t.aliases
      ensures x !in t.tools
    {
      assert OwnedBy(t.tools, x, t.aliases[x]);
    }
  }
}
