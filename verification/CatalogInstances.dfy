/** Small catalogs in which the catalog does what one might not expect. */
module CatalogInstances {
  import opened Wrappers
  import opened Order
  import opened Catalog
  import opened CatalogRuns
  import opened CatalogLimits
  import opened CatalogDiff
  import opened CatalogReconcile
  import opened Registry

  const SCHEMA := Body(0, 2)
  const PLAIN := Descriptor("a", [], SCHEMA, Available, "", false)
  const DEFERRED := PLAIN.(availability := Deferred, lazy := true)
  const OUTSIDE := External(0, Available, "", false)
  const BUILTIN := Item(Descriptor("result_get", [], SCHEMA, Available, "", false), OUTSIDE, 0, 0, false, "builtin:result_get", 1, Eager, 1, false)
  const WAITING := Item(DEFERRED, External(0, Deferred, "", true), 0, 0, true, "one", 1, Lazy, 2, false)
  const LOADING := WAITING.(loading := true)
  const SENT := Flight("a", 2, DEFERRED)
  const BROUGHT := Loaded(7, PLAIN, {0})

  /** The built-in entry and one more, registered after it. */
  function Holding(item: Item): Catalog {
    Catalog(map["result_get" := BUILTIN, "a" := item], map[], map[], 2, 2, 32, 65536)
  }

  lemma HoldingIsSound(item: Item)
    requires item.descriptor == PLAIN || item.descriptor == DEFERRED
    requires item.token == 2 && item.revision >= 1 && (item.lazy <==> item.state == Lazy) && (item.loading ==> item.lazy)
    ensures Inv(Holding(item))
  {
    var s := Holding(item);
    assert s.tools.Keys == {"result_get", "a"};
    forall n | n in s.tools
      ensures GoodItem(s, n)
    {
    }
    assert forall a, n :: !OwnedBy(s.tools, a, n);
  }

  // ---- Tokens used up for nothing ----

  const OTHER := Registration(Descriptor("b", ["a"], SCHEMA, Available, "", false), OUTSIDE, 0, 0, false, Eager, 0)
  const STANDING := Item(PLAIN, OUTSIDE, 0, 0, false, "one", 1, Eager, 2, false)

  /** One source holds `a`, another wants `b` with `a` as an alias: it is refused, and a token is gone. */
  lemma RefusalSpendsTokens()
    ensures var s, desired := Holding(STANDING), Desired([OTHER]);
      Inv(s) && Normal(OTHER) && !Repeats([OTHER]) && Claimable(s, "two", desired) && !NamesWouldAgree(s, "two", desired) &&
      SomeFresh(s, "two", desired)
  {
    var s, desired := Holding(STANDING), Desired([OTHER]);
    HoldingIsSound(STANDING);
    assert [OTHER][..|[OTHER]| - 1] == [] && Desired([]) == map[];
    assert OTHER.descriptor.name == "b" && desired == map["b" := OTHER];
    assert WouldOwn(s, "two", desired, "a", "b") && Survives(s, "two", desired, "a");
    assert Fresh(s, "two", desired, "b");
  }

  // ---- A load in vain ----

  const SAMPLED := Binding(1, 2)

  /** An entry is sampled while it is deferred, its loader sets out for the caller and brings back just
      what was registered, and only a caller without a binding is served. */
  lemma BoundCallerLoadsInVain()
    ensures var w := World(Holding(WAITING), {}, {}, {});
      var v := World(Holding(LOADING), {SENT}, {}, {});
      WorldInv(w) && SetsOut([w, v], [BeginLoad("a")], 0, SENT, Some(SAMPLED)) && Trace([w, v], [BeginLoad("a")]) &&
      Acceptable("a", DEFERRED, 0, BROUGHT) &&
      Lands(v.cat.tools["a"], SENT, BROUGHT, None) && !Lands(v.cat.tools["a"], SENT, BROUGHT, Some(SAMPLED))
  {
    var w, v := World(Holding(WAITING), {}, {}, {}), World(Holding(LOADING), {SENT}, {}, {});
    HoldingIsSound(WAITING);
    NothingCountedHasRoom(w.cat, "a");
    assert v.cat == SetItem(w.cat, "a", LOADING);
    assert StepAt([w, v], [BeginLoad("a")], 0);
  }

  lemma NothingCountedHasRoom(s: Catalog, n: string)
    requires n in s.tools && forall m | m in s.tools :: !Counts(s.tools[m])
    requires s.tools[n].descriptor.body.size <= s.maxBytes && s.maxEntries > 0
    ensures Room(s, s.tools[n])
  {
    assert Counted(s) == {};
    assert SumSizes(s.tools, {}) == 0;
  }

  // ---- Entries that cannot be submitted again as they are ----

  /** A loaded entry can, until it is found to be out of service; one whose loader brought something out
      of service cannot. Submitted again, both become new entries, and the latter not even that a second
      time; one whose loader failed cannot be submitted at all. */
  lemma LoadedEntriesMayNotResubmit()
    ensures var s := Holding(LOADING);
      var loaded, lame, failed := EndLoad'(s, SENT, BROUGHT), EndLoad'(s, SENT, BROUGHT.(descriptor := PLAIN.(availability := Unavailable, reason := "down"))),
        EndLoad'(s, SENT, Failed("down"));
      var down := Refresh(loaded, "a", "a", Unavailable, "down");
      Resubmits(loaded.tools["a"]) && !Resubmits(down.tools["a"]) && !Resubmits(lame.tools["a"]) &&
      Normalized(Sampled(down.tools["a"])).Some? && Normalized(Sampled(lame.tools["a"])).Some? &&
      Normalized(Normalized(Sampled(lame.tools["a"])).value).None? &&
      Normalized(Sampled(failed.tools["a"])).None?
  {
  }

  // ---- A limit overrun ----

  const SECOND := Item(Descriptor("b", [], SCHEMA, Available, "", false), OUTSIDE, 0, 0, false, "one", 1, Eager, 3, false)
  const LOADED := Item(PLAIN, WAITING.external, 0, 7, false, "one", 2, Materialized, 2, false)
  const DOWN := LOADED.(descriptor := PLAIN.(availability := Unavailable, reason := "down"),
                        external := External(0, Unavailable, "down", true), state := Broken, revision := 3)

  /** Two entries where one may be materialized. */
  function Two(a: Item, b: EntryState, generation: nat): Catalog {
    Catalog(map["result_get" := BUILTIN, "a" := a, "b" := SECOND.(state := b)], map[], map[], generation, 3, 1, 65536)
  }

  const W0 := World(Two(WAITING, Eager, 3), {}, {}, {})
  const W1 := W0.(pending := {2})
  const W2 := World(Two(LOADING, Eager, 3), {SENT}, {2}, {})
  const W3 := World(Two(LOADED, Eager, 4), {}, {2}, {2})
  const W4 := World(Two(DOWN, Eager, 5), {}, {2}, {2})
  const W5 := World(Two(DOWN, Materialized, 6), {}, {2}, {2})
  const W6 := World(Two(DOWN.(state := Materialized, revision := 4), Materialized, 7), {}, {2}, {2})
  const PINNING := [MaterializeBegin("a"), BeginLoad("a"), EndLoad(SENT, BROUGHT), Observe("a", "a", Unavailable, "down"),
                    MaterializeNow("b"), MaterializeEnd("a", 2, 0)]

  lemma LoadsFirst()
    ensures Step(W0, PINNING[0], W1) && Step(W1, PINNING[1], W2) && Step(W2, PINNING[2], W3)
  {
    NothingCountedHasRoom(W1.cat, "a");
    assert W2.cat == SetItem(W1.cat, "a", LOADING);
    assert EndLoad'(W2.cat, SENT, BROUGHT) == W3.cat by {
      assert W2.cat.tools["a" := LOADED] == W3.cat.tools;
    }
    assert W2.flights - {SENT} == {} && {} + {2} == W3.cleared;
  }

  lemma PinsSecond()
    ensures Step(W3, PINNING[3], W4) && Step(W4, PINNING[4], W5) && Step(W5, PINNING[5], W6)
  {
    assert W3.cat.tools["a" := DOWN] == W4.cat.tools;
    NothingCountedHasRoom(W4.cat, "b");
    assert W4.cat.tools["b" := SECOND.(state := Materialized)] == W5.cat.tools;
    assert W5.cat.tools["a" := DOWN.(state := Materialized, revision := 4)] == W6.cat.tools;
  }

  const PINNED := [W0, W1, W2, W3, W4, W5, W6]

  lemma FirstSteps()
    ensures StepAt(PINNED, PINNING, 0) && StepAt(PINNED, PINNING, 1) && StepAt(PINNED, PINNING, 2)
  {
    LoadsFirst();
  }

  lemma LastSteps()
    ensures StepAt(PINNED, PINNING, 3) && StepAt(PINNED, PINNING, 4) && StepAt(PINNED, PINNING, 5)
  {
    PinsSecond();
  }

  lemma TwoArePinned()
    ensures |Counted(W6.cat)| == 2 && W6.cat.maxEntries == 1
  {
    assert Counted(W6.cat) == {"a", "b"};
  }

  lemma PinningIsARun()
    ensures Trace(PINNED, PINNING)
  {
    FirstSteps();
    LastSteps();
  }

  lemma PinningStartsWithin()
    ensures WorldInv(W0) && Settled(W0) && WithinLimits(W0.cat)
  {
    TwoIsSound();
    assert Counted(W0.cat) == {} && SumSizes(W0.cat.tools, {}) == 0;
  }

  /** An entry goes out of service while a Materialize call is after it, another takes its place, and the
      call's last section pins it without asking for room. */
  lemma LimitCanBeOverrun()
    ensures Trace(PINNED, PINNING)
    ensures WorldInv(W0) && Settled(W0) && WithinLimits(W0.cat) && !WithinLimits(W6.cat)
  {
    PinningIsARun();
    PinningStartsWithin();
    TwoArePinned();
  }

  lemma TwoIsSound()
    ensures Inv(W0.cat)
  {
    var s := W0.cat;
    assert s.tools.Keys == {"result_get", "a", "b"};
    forall n | n in s.tools
      ensures GoodItem(s, n)
    {
    }
    assert forall a, n :: !OwnedBy(s.tools, a, n);
  }
}
