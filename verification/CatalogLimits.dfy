/** How many entries may be materialized or loading at once, and what their schemas may weigh. */
module CatalogLimits {
  import opened Catalog
  import opened CatalogRuns

  lemma {:induction false} SumWithout(tools: map<string, Item>, names: set<string>, n: string)
    requires n in names && forall m | m in names :: m in tools
    ensures SumSizes(tools, names) == tools[n].descriptor.body.size + SumSizes(tools, names - {n})
    decreases |names|
  {
    var m :| m in names && SumSizes(tools, names) == tools[m].descriptor.body.size + SumSizes(tools, names - {m});
    if m != n {
      SumWithout(tools, names - {m}, n);
      SumWithout(tools, names - {n}, m);
      assert names - {m} - {n} == names - {n} - {m};
    }
  }

  /** Fewer entries of the same sizes weigh no more and are no more. */
  lemma {:induction false} SumOfFewer(tools: map<string, Item>, few: set<string>, others: map<string, Item>,
                                      many: set<string>)
    requires few <= many && (forall n | n in few :: n in tools) && (forall n | n in many :: n in others)
    requires forall n | n in few :: tools[n].descriptor.body.size == others[n].descriptor.body.size
    ensures SumSizes(tools, few) <= SumSizes(others, many) && |few| <= |many|
    decreases |many|
  {
    if n :| n in few {
      SumWithout(tools, few, n);
      SumWithout(others, many, n);
      SumOfFewer(tools, few - {n}, others, many - {n});
    } else {
      assert few == {};
    }
  }

  /** Nothing from outside gets in the way: limits stay, so does the availability of entries that a
      Materialize call is after, and no entry arrives already materialized. */
  ghost predicate Quiet(w: World, e: Event, v: World) {
    match e
    case Register(_, registration) => registration.state != Materialized
    case Reconcile(source, _, desired) =>
      forall n | n in desired && desired[n].state == Materialized :: Kept(w.cat, source, desired, n)
    case Observe(name, _, _, _) => v == w || (name in w.cat.tools && w.cat.tools[name].token !in w.pending)
    case SetLimits(_, _) => false
    case _ => true
  }

  /** Entries a Materialize call is after are deferred, done, or failed for good. */
  ghost predicate Settled(w: World) {
    forall n | n in w.cat.tools :: SettledAt(w, w.cat.tools[n])
  }

  predicate SettledAt(w: World, item: Item) {
    (item.token in w.pending ==>
       item.lazy || item.state == Materialized || (item.state == Broken && item.descriptor.availability == Unavailable)) &&
    (item.token in w.cleared ==> item.state == Materialized)
  }

  lemma NoMoreCounted(s: Catalog, r: Catalog)
    requires WithinLimits(s) && r.maxEntries == s.maxEntries && r.maxBytes == s.maxBytes
    requires forall n | n in Counted(r) :: n in Counted(s) && r.tools[n].descriptor.body == s.tools[n].descriptor.body
    ensures WithinLimits(r)
  {
    SumOfFewer(r.tools, Counted(r), s.tools, Counted(s));
  }

  lemma RegisterKeepsLimits(w: World, e: Event, v: World)
    requires WorldInv(w) && WithinLimits(w.cat) && Step(w, e, v) && Quiet(w, e, v) && e.Register?
    ensures WithinLimits(v.cat)
  {
    assert forall n | n in Counted(v.cat) :: n in Counted(w.cat) && v.cat.tools[n] == w.cat.tools[n];
    NoMoreCounted(w.cat, v.cat);
  }

  lemma EndLoadKeepsLimits(w: World, e: Event, v: World)
    requires WorldInv(w) && WithinLimits(w.cat) && Step(w, e, v) && e.EndLoad?
    ensures WithinLimits(v.cat)
  {
    LandingFindsItsEntry(w, e.flight, e.outcome);
    NoMoreCounted(w.cat, v.cat);
  }

  lemma ObserveKeepsLimits(w: World, e: Event, v: World)
    requires WorldInv(w) && WithinLimits(w.cat) && Step(w, e, v) && e.Observe?
    ensures WithinLimits(v.cat)
  {
    NoMoreCounted(w.cat, v.cat);
  }

  lemma StepKeepsLimits(w: World, e: Event, v: World)
    requires WorldInv(w) && Settled(w) && WithinLimits(w.cat) && Step(w, e, v) && Quiet(w, e, v)
    ensures WithinLimits(v.cat)
  {
    match e
    case Register(_, _) => RegisterKeepsLimits(w, e, v);
    case Reconcile(_, _, _) => ReconcileKeepsLimits(w, e, v);
    case Observe(_, _, _, _) => ObserveKeepsLimits(w, e, v);
    case BeginLoad(name) => CountOneMore(w.cat, name, v.cat);
    case EndLoad(_, _) => EndLoadKeepsLimits(w, e, v);
    case MaterializeNow(name) =>
      assert GoodItem(w.cat, name);
      CountOneMore(w.cat, name, v.cat);
    case MaterializeBegin(_) =>
    case MaterializeResolved(_) =>
    case MaterializeEnd(_, _, _) =>
    case SetLimits(_, _) =>
  }

  lemma CountOneMore(s: Catalog, n: string, r: Catalog)
    requires Inv(s) && n in s.tools && !Counts(s.tools[n]) && Room(s, s.tools[n])
    requires n in r.tools && Counts(r.tools[n]) && r.tools[n].descriptor == s.tools[n].descriptor
    requires r.tools == s.tools[n := r.tools[n]] && r.maxEntries == s.maxEntries && r.maxBytes == s.maxBytes
    ensures WithinLimits(r)
  {
    assert Counted(r) == Counted(s) + {n};
    SumWithout(r.tools, Counted(r), n);
    assert Counted(r) - {n} == Counted(s);
    SumOfFewer(r.tools, Counted(s), s.tools, Counted(s));
  }

  lemma ReconcileKeepsLimits(w: World, e: Event, v: World)
    requires WorldInv(w) && WithinLimits(w.cat) && Step(w, e, v) && Quiet(w, e, v) && e.Reconcile?
    ensures WithinLimits(v.cat)
  {
    var s, r := w.cat, v.cat;
    forall n | n in Counted(r)
      ensures n in Counted(s) && r.tools[n] == s.tools[n]
    {
      if Reconciled(s, e.source, e.desired, r) {
        ReconciledItem(s, e.source, e.desired, r, n);
      }
    }
    NoMoreCounted(s, r);
  }

  lemma StepKeepsSettled(w: World, e: Event, v: World)
    requires WorldInv(w) && Settled(w) && Step(w, e, v) && Quiet(w, e, v)
    ensures Settled(v)
  {
    StepKeepsInv(w, e, v);
    forall n | n in v.cat.tools
      ensures SettledAt(v, v.cat.tools[n])
    {
      if v.cat.tools[n].token <= w.cat.nextToken {
        assert n in w.cat.tools && SameIncarnation(w.cat.tools[n], v.cat.tools[n]);
        StepKeepsSettledAt(w, e, v, n);
      } else {
        assert GoodItem(v.cat, n);
      }
    }
  }

  lemma StepKeepsSettledAt(w: World, e: Event, v: World, n: string)
    requires WorldInv(w) && Settled(w) && Step(w, e, v) && Quiet(w, e, v)
    requires n in w.cat.tools && n in v.cat.tools && v.cat.tools[n].token == w.cat.tools[n].token
    ensures SettledAt(v, v.cat.tools[n])
  {
    assert GoodItem(w.cat, n);
    if e.Reconcile? && Reconciled(w.cat, e.source, e.desired, v.cat) {
      ReconciledItem(w.cat, e.source, e.desired, v.cat, n);
    }
    if e.EndLoad? {
      LandingSettlesAt(w, e, v, n);
    }
  }

  lemma LandingSettlesAt(w: World, e: Event, v: World, n: string)
    requires WorldInv(w) && Settled(w) && Step(w, e, v) && e.EndLoad?
    requires n in w.cat.tools && n in v.cat.tools && v.cat.tools[n].token == w.cat.tools[n].token
    ensures SettledAt(v, v.cat.tools[n])
  {
    assert SettledAt(w, w.cat.tools[n]);
    LandingFindsItsEntry(w, e.flight, e.outcome);
  }

  /** With limits fixed, nothing arriving already materialized, and the availability of an entry fixed
      while a Materialize call is after it, the entries materialized or loading stay within both limits,
      however loads and calls interleave. */
  lemma {:induction false} RunStaysWithinLimits(worlds: seq<World>, events: seq<Event>, j: nat)
    requires Trace(worlds, events) && WorldInv(worlds[0]) && Settled(worlds[0]) && WithinLimits(worlds[0].cat) && j < |worlds|
    requires forall i | 0 <= i < |events| :: Quiet(worlds[i], events[i], worlds[i + 1])
    ensures WithinLimits(worlds[j].cat) && Settled(worlds[j])
    decreases j
  {
    if j > 0 {
      RunStaysWithinLimits(worlds, events, j - 1);
      RunKeepsInv(worlds, events, j - 1);
      TraceStep(worlds, events, j);
      assert Quiet(worlds[j - 1], events[j - 1], worlds[j - 1 + 1]);
      StepKeepsLimits(worlds[j - 1], events[j - 1], worlds[j]);
      StepKeepsSettled(worlds[j - 1], events[j - 1], worlds[j]);
    }
  }
}
