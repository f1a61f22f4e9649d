/** How one reconcile builds the next tools, aliases, tombstones and change lists, name by name. */
module CatalogReconcile {
  import opened Wrappers
  import opened Order
  import opened Catalog

  // ---- Tombstones ----

  function Lookup<T>(m: map<string, T>, x: string): Option<T> {
    if x in m then Some(m[x]) else None
  }

  function Grave(s: Catalog, source: string, m: string): Option<Tombstone> {
    if m in s.tools then Some(Tombstone(source, m, s.tools[m].revision + 1)) else None
  }

  /** What is remembered of x once the entries in `replaced` have left their aliases behind, and
      those in `revoked` their names too. */
  function Remembered(s: Catalog, source: string, replaced: set<string>, revoked: set<string>,
                      x: string): Option<Tombstone> {
    if x in revoked then Grave(s, source, x)
    else if x in s.aliases && (s.aliases[x] in replaced || s.aliases[x] in revoked) then Grave(s, source, s.aliases[x])
    else Lookup(s.tombstones, x)
  }

  ghost predicate Remembers(s: Catalog, source: string, replaced: set<string>, revoked: set<string>,
                            tombstones: map<string, Tombstone>) {
    forall x :: Lookup(tombstones, x) == Remembered(s, source, replaced, revoked, x)
  }

  ghost predicate Marks(names: seq<string>, g: Tombstone, t: map<string, Tombstone>, r: map<string, Tombstone>) {
    forall x :: Lookup(r, x) == if x in names then Some(g) else Lookup(t, x)
  }

  /** An entry leaves a tombstone under each of its aliases. */
  ghost predicate LeavesMarks(s: Catalog, source: string, n: string, t: map<string, Tombstone>,
                              r: map<string, Tombstone>)
    requires n in s.tools
  {
    Marks(s.tools[n].descriptor.aliases, Tombstone(source, n, s.tools[n].revision + 1), t, r)
  }

  method MarkNames(tombstones: map<string, Tombstone>, names: seq<string>,
                   g: Tombstone) returns (r: map<string, Tombstone>)
    ensures Marks(names, g, tombstones, r)
  {
    r := tombstones;
    for j := 0 to |names|
      invariant Marks(names[..j], g, tombstones, r)
    {
      r := r[names[j] := g];
      assert names[..j + 1] == names[..j] + [names[j]];
    }
    assert names[..|names|] == names;
  }

  lemma AliasOwner(s: Catalog, m: string, x: string)
    requires NamesIntact(s) && m in s.tools
    ensures x in s.tools[m].descriptor.aliases <==> x in s.aliases && s.aliases[x] == m
    ensures x in s.aliases ==> x !in s.tools && s.aliases[x] in s.tools
  {
    if x in s.tools[m].descriptor.aliases {
      assert OwnedBy(s.tools, x, m);
    }
    if x in s.aliases {
      assert OwnedBy(s.tools, x, s.aliases[x]);
    }
  }

  lemma MarkReplaced(s: Catalog, source: string, replaced: set<string>, m: string, t: map<string, Tombstone>,
                     r: map<string, Tombstone>)
    requires NamesIntact(s) && m in s.tools && Remembers(s, source, replaced, {}, t)
    requires LeavesMarks(s, source, m, t, r)
    ensures Remembers(s, source, replaced + {m}, {}, r)
  {
    forall x
      ensures Lookup(r, x) == Remembered(s, source, replaced + {m}, {}, x)
    {
      AliasOwner(s, m, x);
      assert Lookup(t, x) == Remembered(s, source, replaced, {}, x);
    }
  }

  /** A revoked entry is remembered under its name and each of its aliases. */
  lemma MarkRevoked(s: Catalog, source: string, replaced: set<string>, revoked: set<string>, m: string,
                    t: map<string, Tombstone>, r: map<string, Tombstone>)
    requires NamesIntact(s) && m in s.tools && revoked <= s.tools.Keys && Remembers(s, source, replaced, revoked, t)
    requires Marks([m] + s.tools[m].descriptor.aliases, Tombstone(source, m, s.tools[m].revision + 1), t, r)
    ensures Remembers(s, source, replaced, revoked + {m}, r)
  {
    forall x
      ensures Lookup(r, x) == Remembered(s, source, replaced, revoked + {m}, x)
    {
      AliasOwner(s, m, x);
      assert Lookup(t, x) == Remembered(s, source, replaced, revoked, x);
      assert x in [m] + s.tools[m].descriptor.aliases <==> x == m || x in s.tools[m].descriptor.aliases;
    }
  }

  /** Remembering what went and sparing what is live gives exactly the next tombstones. */
  lemma RememberedAreNext(s: Catalog, source: string, desired: map<string, Registration>, tools: map<string, Item>,
                          nextToken: nat,
                          aliases: map<string, string>, replaced: set<string>, revoked: set<string>,
                          t: map<string, Tombstone>, r: map<string, Tombstone>)
    requires NamesIntact(s) && NextTools(s, source, desired, tools, nextToken) && AliasesOf(tools, aliases)
    requires forall n | n in s.tools :: n in replaced <==> Replaced(s, source, desired, n)
    requires forall n | n in s.tools :: n in revoked <==> Revoked(s, source, desired, n)
    requires revoked <= s.tools.Keys && Remembers(s, source, replaced, revoked, t)
    requires forall x :: Lookup(r, x) == if x in tools || x in aliases then None else Lookup(t, x)
    ensures NextTombstones(s, source, tools, aliases, r)
  {
    forall x
      ensures if x in tools || x in aliases then x !in r
        else if Live(s, x) then x in r && Grave(s, source, Canonical(s, x)) == Some(r[x])
        else Lookup(r, x) == Lookup(s.tombstones, x)
    {
      assert Lookup(r, x) == if x in tools || x in aliases then None else Lookup(t, x);
      assert Lookup(t, x) == Remembered(s, source, replaced, revoked, x);
      if !(x in tools || x in aliases) && Live(s, x) {
        WhatWent(s, source, desired, tools, nextToken, aliases, x);
      }
    }
  }

  /** Something live that is live no more belonged to an entry replaced or revoked. */
  lemma WhatWent(s: Catalog, source: string, desired: map<string, Registration>, tools: map<string, Item>,
                 nextToken: nat,
                 aliases: map<string, string>, x: string)
    requires NamesIntact(s) && NextTools(s, source, desired, tools, nextToken) && AliasesOf(tools, aliases)
    requires Live(s, x) && x !in tools && x !in aliases
    ensures Canonical(s, x) in s.tools
    ensures x in s.tools ==> Canonical(s, x) == x && Revoked(s, source, desired, x)
    ensures Replaced(s, source, desired, Canonical(s, x)) || Revoked(s, source, desired, Canonical(s, x))
  {
    var m := Canonical(s, x);
    if x in s.aliases {
      assert OwnedBy(s.tools, x, m);
      assert m in tools && tools[m] == s.tools[m] ==> OwnedBy(tools, x, m);
    }
    StaysOrGoes(s, source, desired, tools, nextToken, m);
  }

  lemma StaysOrGoes(s: Catalog, source: string, desired: map<string, Registration>, tools: map<string, Item>,
                    nextToken: nat, m: string)
    requires NextTools(s, source, desired, tools, nextToken) && m in s.tools
    ensures (m in tools && tools[m] == s.tools[m]) ||
      (Replaced(s, source, desired, m) && m in tools) || (Revoked(s, source, desired, m) && m !in tools)
  {
    if m in desired && !Fresh(s, source, desired, m) {
      assert Kept(s, source, desired, m);
    }
  }

  // ---- Aliases ----

  /** The part of the alias table that the first i names make up. */
  ghost predicate AliasesSoFar(tools: map<string, Item>, names: seq<string>, i: nat, aliases: map<string, string>)
    requires i <= |names| && forall n | n in names :: n in tools
  {
    (forall a | a in aliases :: OwnedBy(tools, a, aliases[a]) && aliases[a] in names[..i] && a !in tools) &&
    (forall n | n in names[..i] :: forall a | a in tools[n].descriptor.aliases :: a in aliases && aliases[a] == n)
  }

  /** Adds one tool's aliases, unless one of them is taken. */
  method AddOwn(tools: map<string, Item>, n: string, aliases: map<string, string>) returns (ok: bool,
                more: map<string, string>)
    requires n in tools && ValidNames(tools[n].descriptor) && forall a | a in aliases :: aliases[a] != n
    ensures ok <==> forall a | a in tools[n].descriptor.aliases :: a !in tools && a !in aliases
    ensures ok ==> forall a :: a in more <==> a in aliases || a in tools[n].descriptor.aliases
    ensures ok ==> forall a | a in more :: more[a] == if a in aliases then aliases[a] else n
  {
    more := aliases;
    var own := tools[n].descriptor.aliases;
    for j := 0 to |own|
      invariant forall a :: a in more <==> a in aliases || a in own[..j]
      invariant forall a | a in own[..j] :: a !in tools && a !in aliases
      invariant forall a | a in more :: more[a] == if a in aliases then aliases[a] else n
    {
      if own[j] in tools || own[j] in more {
        assert own[j] in own;
        return false, more;
      }
      assert own[..j + 1] == own[..j] + [own[j]];
      more := more[own[j] := n];
    }
    assert own[..|own|] == own;
    ok := true;
  }

  lemma AliasTaken(tools: map<string, Item>, names: seq<string>, i: nat, aliases: map<string, string>, a: string)
    requires i < |names| && (forall n | n in names :: n in tools) && AliasesSoFar(tools, names, i, aliases) && names[i] !in names[..i]
    requires a in tools[names[i]].descriptor.aliases && (a in tools || a in aliases)
    ensures !AliasesAgree(tools)
  {
    assert names[i] in names && OwnedBy(tools, a, names[i]);
    if a in aliases {
      assert OwnedBy(tools, a, aliases[a]) && aliases[a] != names[i];
    }
  }

  /** The alias table of a set of tools, built in name order; refused when two names clash. */
  method BuildAliases(tools: map<string, Item>) returns (ok: bool, aliases: map<string, string>)
    requires forall n | n in tools :: ValidNames(tools[n].descriptor)
    ensures ok <==> AliasesAgree(tools)
    ensures ok ==> AliasesOf(tools, aliases)
  {
    aliases := map[];
    var names := List(tools.Keys);
    for i := 0 to |names|
      invariant AliasesSoFar(tools, names, i, aliases)
    {
      NextPrefix(names, tools.Keys, i);
      var fine, more := AddOwn(tools, names[i], aliases);
      if !fine {
        var a :| a in tools[names[i]].descriptor.aliases && (a in tools || a in aliases);
        AliasTaken(tools, names, i, aliases, a);
        return false, aliases;
      }
      aliases := more;
    }
    AllAliases(tools, names, aliases);
    ok := true;
  }

  lemma AllAliases(tools: map<string, Item>, names: seq<string>, aliases: map<string, string>)
    requires Lists(names, tools.Keys) && AliasesSoFar(tools, names, |names|, aliases)
    ensures AliasesOf(tools, aliases) && AliasesAgree(tools)
  {
    assert names[..|names|] == names;
    forall a, n | OwnedBy(tools, a, n)
      ensures a in aliases && aliases[a] == n
    {
      assert n in names;
    }
  }

  // ---- The next tools, one name at a time ----

  ghost predicate Placed(s: Catalog, source: string, desired: map<string, Registration>, done: set<string>,
                         tools: map<string, Item>, nextToken: nat) {
    s.nextToken <= nextToken &&
    (forall n :: n in tools <==> n in done || (n in s.tools && s.tools[n].source != source)) &&
    (forall n | n in tools && n !in done :: tools[n] == s.tools[n]) &&
    (forall n | n in done && Kept(s, source, desired, n) :: tools[n] == s.tools[n]) &&
    (forall n | n in done && Fresh(s, source, desired, n) ::
       tools[n] == NewItem(source, desired[n], FreshRevision(s, source, desired, n), tools[n].token) &&
       s.nextToken < tools[n].token <= nextToken) &&
    (forall n, m | n in done && m in done && Fresh(s, source, desired, n) && Fresh(s, source, desired, m) && n != m ::
       tools[n].token != tools[m].token)
  }

  lemma PlaceKept(s: Catalog, source: string, desired: map<string, Registration>, done: set<string>, n: string,
                  tools: map<string, Item>, nextToken: nat)
    requires Placed(s, source, desired, done, tools, nextToken) && n !in done && Kept(s, source, desired, n)
    ensures Placed(s, source, desired, done + {n}, tools[n := s.tools[n]], nextToken)
  {
  }

  lemma PlaceFresh(s: Catalog, source: string, desired: map<string, Registration>, done: set<string>, n: string,
                   tools: map<string, Item>, nextToken: nat, next: map<string, Item>, done': set<string>)
    requires Placed(s, source, desired, done, tools, nextToken) && n !in done && Fresh(s, source, desired, n)
    requires next == tools[n := NewItem(source, desired[n], FreshRevision(s, source, desired, n), nextToken + 1)]
    requires done' == done + {n}
    ensures Placed(s, source, desired, done', next, nextToken + 1)
  {
  }

  lemma PlacedAll(s: Catalog, source: string, desired: map<string, Registration>, done: set<string>,
                  tools: map<string, Item>, nextToken: nat)
    requires Placed(s, source, desired, done, tools, nextToken) && forall n :: n in done <==> n in desired
    ensures NextTools(s, source, desired, tools, nextToken)
  {
    forall n, m | Fresh(s, source, desired, n) && Fresh(s, source, desired, m) && n != m
      ensures tools[n].token != tools[m].token
    {
      assert n in done && m in done;
    }
    forall n | Fresh(s, source, desired, n)
      ensures tools[n] == NewItem(source, desired[n], FreshRevision(s, source, desired, n), tools[n].token)
      ensures s.nextToken < tools[n].token <= nextToken
    {
      assert n in done;
    }
  }

  /** What the tombstones say of a name about to be added, mid-way through the names. */
  lemma RevisionOfAdded(s: Catalog, source: string, desired: map<string, Registration>, names: seq<string>, i: nat,
                        replaced: set<string>, t: map<string, Tombstone>)
    requires NamesIntact(s) && Lists(names, desired.Keys) && i < |names| && names[i] !in s.tools && Claimable(s, source, desired)
    requires forall n :: n in replaced <==> n in names[..i] && Replaced(s, source, desired, n)
    requires Remembers(s, source, replaced, {}, t)
    ensures FreshRevision(s, source, desired, names[i]) ==
      if names[i] in t && t[names[i]].source == source then t[names[i]].revision + 1 else 1
  {
    var n := names[i];
    assert Lookup(t, n) == Remembered(s, source, replaced, {}, n);
    if n in s.aliases {
      var m := s.aliases[n];
      AliasOwner(s, m, n);
      assert OwnedBy(s.tools, n, m);
      ListedBefore(names, desired.Keys, i, m);
    }
  }

  lemma ListedBefore(names: seq<string>, all: set<string>, i: nat, m: string)
    requires Lists(names, all) && i < |names|
    ensures m in names[..i] <==> m in all && Less(m, names[i])
  {
    if m in all {
      var k :| 0 <= k < |names| && names[k] == m;
      if k < i {
        assert names[..i][k] == m;
      } else {
        LessIsStrict(m, names[i]);
      }
    }
  }

  // ---- Change lists ----

  lemma AppendChange(changes: seq<Change>, x: Change)
    requires Ascending(Names(changes)) && forall n | n in Names(changes) :: Less(n, x.name)
    ensures Ascending(Names(changes + [x])) && Names(changes + [x]) == Names(changes) + [x.name]
  {
    var longer := Names(changes + [x]);
    assert longer == Names(changes) + [x.name];
    forall i, j | 0 <= i < j < |longer|
      ensures Less(longer[i], longer[j])
    {
      if j == |changes| {
        assert longer[i] in Names(changes);
      }
    }
  }

  function Prefix(names: seq<string>, i: nat): set<string>
    requires i <= |names|
  {
    set n | n in names[..i]
  }

  lemma NextPrefix(names: seq<string>, all: set<string>, i: nat)
    requires Lists(names, all) && i < |names|
    ensures names[i] in all && names[i] !in names[..i] && names[..i + 1] == names[..i] + [names[i]]
    ensures Prefix(names, i + 1) == Prefix(names, i) + {names[i]}
    ensures forall n | n in names[..i] :: Less(n, names[i])
  {
    assert names[i] in names;
    forall n | n in names[..i]
      ensures Less(n, names[i])
    {
      ListedBefore(names, all, i, n);
    }
    LessIsStrict(names[i], names[i]);
  }

  /** A reconcile half-way through its names: what has been built so far. */
  datatype Draft = Draft(tools: map<string, Item>, nextToken: nat, tombstones: map<string, Tombstone>,
                         added: seq<Change>, replaced: seq<Change>)

  ghost predicate Reports(s: Catalog, source: string, desired: map<string, Registration>, done: seq<string>,
                          added: seq<Change>, replaced: seq<Change>) {
    Ascending(Names(added)) && Ascending(Names(replaced)) &&
    (forall n :: n in Names(added) <==> n in done && Added(s, source, desired, n)) &&
    (forall n :: n in Names(replaced) <==> n in done && Replaced(s, source, desired, n)) &&
    (forall x | x in added :: x == Change(x.name, source, FreshRevision(s, source, desired, x.name))) &&
    (forall x | x in replaced :: x == Change(x.name, source, FreshRevision(s, source, desired, x.name)))
  }

  function Gone(s: Catalog, source: string, desired: map<string, Registration>, n: string,
                gone: set<string>): set<string> {
    if Replaced(s, source, desired, n) then gone + {n} else gone
  }

  ghost predicate GoneAre(s: Catalog, source: string, desired: map<string, Registration>, done: seq<string>,
                          gone: set<string>) {
    forall n :: n in gone <==> n in done && Replaced(s, source, desired, n)
  }

  ghost predicate TokensSpared(s: Catalog, source: string, desired: map<string, Registration>, nextToken: nat) {
    (forall n :: !Fresh(s, source, desired, n)) ==> nextToken == s.nextToken
  }

  ghost predicate Progress(s: Catalog, source: string, desired: map<string, Registration>, names: seq<string>, i: nat,
                           gone: set<string>, d: Draft)
    requires i <= |names|
  {
    Placed(s, source, desired, Prefix(names, i), d.tools, d.nextToken) &&
    GoneAre(s, source, desired, names[..i], gone) &&
    Remembers(s, source, gone, {}, d.tombstones) &&
    Reports(s, source, desired, names[..i], d.added, d.replaced) &&
    TokensSpared(s, source, desired, d.nextToken)
  }

  /** One turn of the loop over the desired names; `t` holds the tombstones as a replaced entry
      leaves them. */
  function Advance(tools: map<string, Item>, source: string, desired: map<string, Registration>, n: string, d: Draft,
                   t: map<string, Tombstone>): Draft
    requires n in desired
  {
    if n in tools && SameRegistered(tools[n], desired[n]) then d.(tools := d.tools[n := tools[n]])
    else if n in tools then
      var revision := tools[n].revision + 1;
      Draft(d.tools[n := NewItem(source, desired[n], revision, d.nextToken + 1)], d.nextToken + 1, t,
            d.added, d.replaced + [Change(n, source, revision)])
    else
      var revision := if n in d.tombstones && d.tombstones[n].source == source then d.tombstones[n].revision + 1 else 1;
      Draft(d.tools[n := NewItem(source, desired[n], revision, d.nextToken + 1)], d.nextToken + 1, d.tombstones,
            d.added + [Change(n, source, revision)], d.replaced)
  }

  lemma ProgressStarts(s: Catalog, source: string, desired: map<string, Registration>, names: seq<string>, d: Draft)
    requires d == Draft(map n | n in s.tools && s.tools[n].source != source :: s.tools[n], s.nextToken, s.tombstones, [], [])
    ensures Progress(s, source, desired, names, 0, {}, d)
  {
    assert Prefix(names, 0) == {};
  }

  lemma ReportsSame(s: Catalog, source: string, desired: map<string, Registration>, names: seq<string>, i: nat,
                    added: seq<Change>, replaced: seq<Change>)
    requires i < |names| && names[..i + 1] == names[..i] + [names[i]] && !Fresh(s, source, desired, names[i])
    requires Reports(s, source, desired, names[..i], added, replaced)
    ensures Reports(s, source, desired, names[..i + 1], added, replaced)
  {
  }

  lemma ProgressKept(s: Catalog, source: string, desired: map<string, Registration>, names: seq<string>, i: nat,
                     gone: set<string>,
                     d: Draft, r: Draft)
    requires Lists(names, desired.Keys) && i < |names| && Progress(s, source, desired, names, i, gone, d)
    requires Kept(s, source, desired, names[i]) && r == d.(tools := d.tools[names[i] := s.tools[names[i]]])
    ensures Progress(s, source, desired, names, i + 1, gone, r)
  {
    NextPrefix(names, desired.Keys, i);
    PlaceKept(s, source, desired, Prefix(names, i), names[i], d.tools, d.nextToken);
    ReportsSame(s, source, desired, names, i, d.added, d.replaced);
    assert GoneAre(s, source, desired, names[..i + 1], gone);
  }

  /** The next draft when names[i] gets a new entry at revision `revision`. */
  predicate PutsFresh(s: Catalog, source: string, desired: map<string, Registration>, n: string, revision: nat,
                      d: Draft, r: Draft) {
    n in desired && r.nextToken == d.nextToken + 1 &&
    r.tools == d.tools[n := NewItem(source, desired[n], revision, d.nextToken + 1)] &&
    if n in s.tools then r.added == d.added && r.replaced == d.replaced + [Change(n, source, revision)]
    else r.replaced == d.replaced && r.added == d.added + [Change(n, source, revision)]
  }

  lemma ReportFresh(s: Catalog, source: string, desired: map<string, Registration>, names: seq<string>, i: nat,
                    d: Draft, r: Draft)
    requires Lists(names, desired.Keys) && i < |names| && Reports(s, source, desired, names[..i], d.added, d.replaced)
    requires Fresh(s, source, desired, names[i])
    requires PutsFresh(s, source, desired, names[i], FreshRevision(s, source, desired, names[i]), d, r)
    ensures Reports(s, source, desired, names[..i + 1], r.added, r.replaced)
  {
    var x := Change(names[i], source, FreshRevision(s, source, desired, names[i]));
    NextPrefix(names, desired.Keys, i);
    if names[i] in s.tools {
      AppendChange(d.replaced, x);
    } else {
      AppendChange(d.added, x);
    }
  }

  lemma GoneGrows(s: Catalog, source: string, desired: map<string, Registration>, names: seq<string>, i: nat,
                  gone: set<string>)
    requires Lists(names, desired.Keys) && i < |names| && GoneAre(s, source, desired, names[..i], gone)
    ensures GoneAre(s, source, desired, names[..i + 1], Gone(s, source, desired, names[i], gone))
  {
    NextPrefix(names, desired.Keys, i);
  }

  lemma FreshPlaced(s: Catalog, source: string, desired: map<string, Registration>, names: seq<string>, i: nat,
                    d: Draft, r: Draft)
    requires Lists(names, desired.Keys) && i < |names| && Placed(s, source, desired, Prefix(names, i), d.tools, d.nextToken)
    requires Fresh(s, source, desired, names[i])
    requires PutsFresh(s, source, desired, names[i], FreshRevision(s, source, desired, names[i]), d, r)
    ensures Placed(s, source, desired, Prefix(names, i + 1), r.tools, r.nextToken)
  {
    NextPrefix(names, desired.Keys, i);
    PlaceFresh(s, source, desired, Prefix(names, i), names[i], d.tools, d.nextToken, r.tools, Prefix(names, i + 1));
  }

  lemma ProgressFresh(s: Catalog, source: string, desired: map<string, Registration>, names: seq<string>, i: nat,
                      gone: set<string>,
                      went: set<string>, d: Draft, r: Draft)
    requires Lists(names, desired.Keys) && i < |names| && Progress(s, source, desired, names, i, gone, d)
    requires Fresh(s, source, desired, names[i])
    requires PutsFresh(s, source, desired, names[i], FreshRevision(s, source, desired, names[i]), d, r)
    requires went == Gone(s, source, desired, names[i], gone) && Remembers(s, source, went, {}, r.tombstones)
    ensures Progress(s, source, desired, names, i + 1, went, r)
  {
    FreshPlaced(s, source, desired, names, i, d, r);
    ReportFresh(s, source, desired, names, i, d, r);
    GoneGrows(s, source, desired, names, i, gone);
    SpendsToken(s, source, desired, names[i], r.nextToken);
  }

  lemma SpendsToken(s: Catalog, source: string, desired: map<string, Registration>, n: string, nextToken: nat)
    requires Fresh(s, source, desired, n)
    ensures TokensSpared(s, source, desired, nextToken)
  {
  }

  lemma AdvancePuts(s: Catalog, source: string, desired: map<string, Registration>, names: seq<string>, i: nat,
                    gone: set<string>,
                    went: set<string>, d: Draft, t: map<string, Tombstone>, r: Draft)
    requires NamesIntact(s) && Claimable(s, source, desired)
    requires Lists(names, desired.Keys) && i < |names| && GoneAre(s, source, desired, names[..i], gone)
    requires Remembers(s, source, gone, {}, d.tombstones) && Fresh(s, source, desired, names[i])
    requires names[i] in s.tools ==> LeavesMarks(s, source, names[i], d.tombstones, t)
    requires went == Gone(s, source, desired, names[i], gone) && r == Advance(s.tools, source, desired, names[i], d, t)
    ensures PutsFresh(s, source, desired, names[i], FreshRevision(s, source, desired, names[i]), d, r)
    ensures Remembers(s, source, went, {}, r.tombstones)
  {
    if names[i] in s.tools {
      MarkReplaced(s, source, gone, names[i], d.tombstones, t);
    } else {
      RevisionOfAdded(s, source, desired, names, i, gone, d.tombstones);
    }
  }

  lemma ProgressAdvances(s: Catalog, source: string, desired: map<string, Registration>, names: seq<string>, i: nat,
                         gone: set<string>,
                         d: Draft, t: map<string, Tombstone>, r: Draft, went: set<string>)
    requires NamesIntact(s) && Claimable(s, source, desired)
    requires Lists(names, desired.Keys) && i < |names| && names[i] in desired && Progress(s, source, desired, names, i, gone, d)
    requires names[i] in s.tools ==> LeavesMarks(s, source, names[i], d.tombstones, t)
    requires went == Gone(s, source, desired, names[i], gone) && r == Advance(s.tools, source, desired, names[i], d, t)
    ensures Progress(s, source, desired, names, i + 1, went, r)
  {
    var n := names[i];
    if Kept(s, source, desired, n) {
      ProgressKept(s, source, desired, names, i, gone, d, r);
    } else {
      AdvancePuts(s, source, desired, names, i, gone, went, d, t, r);
      ProgressFresh(s, source, desired, names, i, gone, went, d, r);
    }
  }

  /** One turn of the loop over the desired names. */
  method PlaceNext(ghost s: Catalog, tools: map<string, Item>, source: string, desired: map<string, Registration>,
                   names: seq<string>, i: nat,
                   d: Draft, ghost gone: set<string>)
    returns (r: Draft, ghost went: set<string>)
    requires tools == s.tools && NamesIntact(s) && Claimable(s, source, desired)
    requires Lists(names, desired.Keys) && i < |names| && Progress(s, source, desired, names, i, gone, d)
    ensures Progress(s, source, desired, names, i + 1, went, r)
    ensures Placed(s, source, desired, Prefix(names, i + 1), r.tools, r.nextToken)
    ensures Reports(s, source, desired, names[..i + 1], r.added, r.replaced)
  {
    NextPrefix(names, desired.Keys, i);
    var n, marked := names[i], d.tombstones;
    if n in tools {
      marked := MarkNames(d.tombstones, tools[n].descriptor.aliases, Tombstone(source, n, tools[n].revision + 1));
    }
    r := Advance(tools, source, desired, n, d, marked);
    went := Gone(s, source, desired, n, gone);
    ProgressAdvances(s, source, desired, names, i, gone, d, marked, r, went);
  }

  function Desired(registrations: seq<Registration>): map<string, Registration> {
    if registrations == [] then map[]
    else
      var last := registrations[|registrations| - 1];
      Desired(registrations[..|registrations| - 1])[last.descriptor.name := last]
  }

  predicate Repeats(registrations: seq<Registration>) {
    exists i, j | 0 <= i < j < |registrations| :: registrations[i].descriptor.name == registrations[j].descriptor.name
  }

  lemma {:induction false} DesiredHas(registrations: seq<Registration>)
    ensures forall n :: n in Desired(registrations) <==> exists i | 0 <= i < |registrations| :: registrations[i].descriptor.name == n
    ensures forall n | n in Desired(registrations) :: Desired(registrations)[n] in registrations && Desired(registrations)[n].descriptor.name == n
  {
    if registrations != [] {
      var last := |registrations| - 1;
      var init := registrations[..last];
      DesiredHas(init);
      forall n
        ensures n in Desired(registrations) <==> exists i | 0 <= i < |registrations| :: registrations[i].descriptor.name == n
      {
        if i :| 0 <= i < |registrations| && registrations[i].descriptor.name == n {
          assert i < last ==> init[i] == registrations[i];
        }
        if n in Desired(init) {
          var i :| 0 <= i < |init| && init[i].descriptor.name == n;
          assert registrations[i].descriptor.name == n;
        }
        assert registrations[last].descriptor.name == n ==> n in Desired(registrations);
      }
    }
  }

  lemma {:induction false} DesiredIs(registrations: seq<Registration>, i: nat)
    requires !Repeats(registrations) && i < |registrations|
    ensures registrations[i].descriptor.name in Desired(registrations)
    ensures Desired(registrations)[registrations[i].descriptor.name] == registrations[i]
  {
    var last := |registrations| - 1;
    if i < last {
      assert forall j, k | 0 <= j < k < last :: registrations[..last][j].descriptor.name != registrations[..last][k].descriptor.name;
      DesiredIs(registrations[..last], i);
      assert registrations[i].descriptor.name != registrations[last].descriptor.name;
    }
  }

  predicate IsNamed(registrations: seq<Registration>, i: nat, n: string)
    requires i < |registrations|
  {
    registrations[i].descriptor.name == n
  }

  /** With distinct names, what is desired under a name is the registration of that name. */
  lemma DesiredAt(registrations: seq<Registration>, n: string)
    requires !Repeats(registrations)
    ensures n in Desired(registrations) <==> exists i | 0 <= i < |registrations| :: IsNamed(registrations, i, n)
    ensures forall i | 0 <= i < |registrations| && IsNamed(registrations, i, n) :: n in Desired(registrations) && Desired(registrations)[n] == registrations[i]
  {
    forall i | 0 <= i < |registrations| && IsNamed(registrations, i, n)
      ensures n in Desired(registrations) && Desired(registrations)[n] == registrations[i]
    {
      DesiredIs(registrations, i);
    }
    DesiredHas(registrations);
    if n in Desired(registrations) {
      var i :| 0 <= i < |registrations| && registrations[i].descriptor.name == n;
      assert IsNamed(registrations, i, n);
    }
  }

  predicate WouldClaim(tools: map<string, Item>, source: string, r: Registration) {
    r.descriptor.name in tools ==> tools[r.descriptor.name].source == source
  }

  /** What the source wants, by name; refused when it wants a name twice or another source's. */
  method Claim(tools: map<string, Item>, source: string, registrations: seq<Registration>)
    returns (ok: bool, desired: map<string, Registration>)
    ensures ok <==> !Repeats(registrations) && forall r | r in registrations :: WouldClaim(tools, source, r)
    ensures ok ==> desired == Desired(registrations)
  {
    desired := map[];
    for i := 0 to |registrations|
      invariant desired == Desired(registrations[..i]) && !Repeats(registrations[..i])
      invariant forall r | r in registrations[..i] :: WouldClaim(tools, source, r)
    {
      var r := registrations[i];
      var name := r.descriptor.name;
      DesiredHas(registrations[..i]);
      assert registrations[..i + 1] == registrations[..i] + [r];
      if name in desired {
        var j :| 0 <= j < i && registrations[..i][j].descriptor.name == name;
        assert registrations[j].descriptor.name == registrations[i].descriptor.name;
        return false, desired;
      }
      assert registrations[..i + 1][..i] == registrations[..i];
      if !WouldClaim(tools, source, r) {
        assert r in registrations;
        return false, desired;
      }
      desired := desired[name := r];
      ghost var next := registrations[..i + 1];
      forall j, k | 0 <= j < k < i + 1
        ensures next[j].descriptor.name != next[k].descriptor.name
      {
        assert registrations[..i][j].descriptor.name == registrations[j].descriptor.name;
        if k < i {
          assert registrations[..i][k].descriptor.name == registrations[k].descriptor.name;
        }
      }
    }
    assert registrations[..|registrations|] == registrations;
    ok := true;
  }

  lemma ClaimMeans(s: Catalog, source: string, registrations: seq<Registration>)
    requires !Repeats(registrations)
    ensures (forall r | r in registrations :: WouldClaim(s.tools, source, r)) <==> Claimable(s, source, Desired(registrations))
  {
    var desired := Desired(registrations);
    DesiredHas(registrations);
    if Claimable(s, source, desired) {
      forall r | r in registrations
        ensures WouldClaim(s.tools, source, r)
      {
        var i :| 0 <= i < |registrations| && registrations[i] == r;
        assert registrations[i].descriptor.name in desired;
      }
    } else {
      var n :| n in desired && n in s.tools && s.tools[n].source != source;
      assert desired[n] in registrations && !WouldClaim(s.tools, source, desired[n]);
    }
  }

  // ---- What the source no longer wants ----

  ghost predicate ReportsRevoked(s: Catalog, source: string, desired: map<string, Registration>, done: seq<string>,
                                 revoked: seq<Change>) {
    Ascending(Names(revoked)) &&
    (forall n :: n in Names(revoked) <==> n in done && Revoked(s, source, desired, n)) &&
    (forall x | x in revoked :: x.name in s.tools && x == Change(x.name, source, s.tools[x.name].revision + 1))
  }

  function Unwanted(tools: map<string, Item>, source: string, desired: map<string, Registration>): set<string> {
    set n | n in tools && tools[n].source == source && n !in desired
  }

  lemma ReportRevoked(s: Catalog, source: string, desired: map<string, Registration>, names: seq<string>, i: nat,
                      revoked: seq<Change>, r: seq<Change>)
    requires Lists(names, Unwanted(s.tools, source, desired)) && i < |names|
    requires ReportsRevoked(s, source, desired, names[..i], revoked) && names[i] in s.tools
    requires r == revoked + [Change(names[i], source, s.tools[names[i]].revision + 1)]
    ensures ReportsRevoked(s, source, desired, names[..i + 1], r)
  {
    NextPrefix(names, Unwanted(s.tools, source, desired), i);
    AppendChange(revoked, Change(names[i], source, s.tools[names[i]].revision + 1));
  }

  /** Revokes what the source owns and no longer wants. */
  method RevokeRest(ghost s: Catalog, tools: map<string, Item>, source: string, desired: map<string, Registration>,
                    tombstones: map<string, Tombstone>, ghost gone: set<string>)
    returns (t: map<string, Tombstone>, revoked: seq<Change>)
    requires tools == s.tools && NamesIntact(s) && Remembers(s, source, gone, {}, tombstones)
    ensures Remembers(s, source, gone, Unwanted(tools, source, desired), t)
    ensures RevokedAre(s, source, desired, revoked)
  {
    t, revoked := tombstones, [];
    var names := List(Unwanted(tools, source, desired));
    assert Prefix(names, 0) == {};
    for i := 0 to |names|
      invariant Prefix(names, i) <= s.tools.Keys
      invariant Remembers(s, source, gone, Prefix(names, i), t)
      invariant ReportsRevoked(s, source, desired, names[..i], revoked)
    {
      NextPrefix(names, Unwanted(s.tools, source, desired), i);
      var n := names[i];
      var revision := tools[n].revision + 1;
      var marked := MarkNames(t, [n] + tools[n].descriptor.aliases, Tombstone(source, n, revision));
      MarkRevoked(s, source, gone, Prefix(names, i), n, t, marked);
      ReportRevoked(s, source, desired, names, i, revoked, revoked + [Change(n, source, revision)]);
      t, revoked := marked, revoked + [Change(n, source, revision)];
    }
    assert names[..|names|] == names;
    assert Prefix(names, |names|) == Unwanted(tools, source, desired);
  }

  // ---- When a reconcile is refused ----

  predicate Survives(s: Catalog, source: string, desired: map<string, Registration>, n: string) {
    n in desired || (n in s.tools && s.tools[n].source != source)
  }

  predicate WouldOwn(s: Catalog, source: string, desired: map<string, Registration>, alias: string, n: string) {
    Survives(s, source, desired, n) &&
    alias in if n in desired then desired[n].descriptor.aliases else s.tools[n].descriptor.aliases
  }

  /** No alias that would be live is also a name or another entry's alias. */
  ghost predicate NamesWouldAgree(s: Catalog, source: string, desired: map<string, Registration>) {
    (forall a, n | WouldOwn(s, source, desired, a, n) :: !Survives(s, source, desired, a)) &&
    (forall a, n, m | WouldOwn(s, source, desired, a, n) && WouldOwn(s, source, desired, a, m) :: n == m)
  }

  lemma AgreementIsForeseen(s: Catalog, source: string, desired: map<string, Registration>, tools: map<string, Item>,
                            nextToken: nat)
    requires NextTools(s, source, desired, tools, nextToken)
    ensures AliasesAgree(tools) <==> NamesWouldAgree(s, source, desired)
  {
    forall a, n
      ensures OwnedBy(tools, a, n) <==> WouldOwn(s, source, desired, a, n)
    {
      if n in desired {
        assert Fresh(s, source, desired, n) || Kept(s, source, desired, n);
      }
    }
  }

  // ---- The reconcile as a whole ----

  ghost predicate RevokedAre(s: Catalog, source: string, desired: map<string, Registration>, revoked: seq<Change>) {
    Ascending(Names(revoked)) && (forall n :: n in Names(revoked) <==> Revoked(s, source, desired, n)) &&
    (forall x | x in revoked :: x.name in s.tools && x == Change(x.name, source, s.tools[x.name].revision + 1))
  }

  lemma AllReported(s: Catalog, source: string, desired: map<string, Registration>, names: seq<string>, d: Draft,
                    revoked: seq<Change>, c: ChangeSet)
    requires Lists(names, desired.Keys) && Reports(s, source, desired, names, d.added, d.replaced)
    requires RevokedAre(s, source, desired, revoked)
    requires c.added == d.added && c.replaced == d.replaced && c.revoked == revoked
    ensures ReportsChanges(s, source, desired, c)
  {
  }

  lemma NothingReported(s: Catalog, source: string, desired: map<string, Registration>, c: ChangeSet)
    requires ReportsChanges(s, source, desired, c)
    ensures NoChange(c) == !Changes(s, source, desired)
  {
    assert c.added != [] ==> Names(c.added)[0] in Names(c.added);
    assert c.replaced != [] ==> Names(c.replaced)[0] in Names(c.replaced);
    assert c.revoked != [] ==> Names(c.revoked)[0] in Names(c.revoked);
    if n :| Fresh(s, source, desired, n) || Revoked(s, source, desired, n) {
      assert n in Names(c.added) || n in Names(c.replaced) || n in Names(c.revoked);
    }
  }

  /** The catalog as a finished draft would leave it. */
  function Draw(s: Catalog, d: Draft, t: map<string, Tombstone>, aliases: map<string, string>): Catalog {
    s.(tools := d.tools, aliases := aliases, tombstones := t,
       generation := s.generation + 1, nextToken := d.nextToken)
  }

  lemma Committed(s: Catalog, source: string, desired: map<string, Registration>, gone: set<string>, d: Draft,
                  t: map<string, Tombstone>, aliases: map<string, string>, r: Catalog)
    requires NamesIntact(s) && Claimable(s, source, desired) && Changes(s, source, desired)
    requires NextTools(s, source, desired, d.tools, d.nextToken) && AliasesAgree(d.tools) && AliasesOf(d.tools, aliases)
    requires forall n :: n in gone <==> Replaced(s, source, desired, n)
    requires Remembers(s, source, gone, Unwanted(s.tools, source, desired), t)
    requires r == Draw(s, d, t - aliases.Keys - d.tools.Keys, aliases)
    ensures Reconciled(s, source, desired, r)
  {
    RememberedAreNext(s, source, desired, d.tools, d.nextToken, aliases, gone, Unwanted(s.tools, source, desired), t, r.tombstones);
  }

  lemma NextNamesAreValid(s: Catalog, source: string, desired: map<string, Registration>, tools: map<string, Item>,
                          nextToken: nat)
    requires (forall n | n in s.tools :: GoodItem(s, n)) && AllNormal(desired) && NextTools(s, source, desired, tools, nextToken)
    ensures forall n | n in tools :: ValidNames(tools[n].descriptor)
  {
    forall n | n in tools
      ensures ValidNames(tools[n].descriptor)
    {
      if n in desired {
        assert Fresh(s, source, desired, n) || Kept(s, source, desired, n);
      }
      if !Fresh(s, source, desired, n) {
        assert GoodItem(s, n);
      }
    }
  }

  predicate NoChange(c: ChangeSet) {
    c.added == [] && c.replaced == [] && c.revoked == []
  }

  lemma Spared(s: Catalog, source: string, desired: map<string, Registration>, nextToken: nat)
    requires Claimable(s, source, desired) && !Changes(s, source, desired) && TokensSpared(s, source, desired, nextToken)
    ensures Reconciled(s, source, desired, s) && nextToken == s.nextToken
  {
    assert forall n :: !Fresh(s, source, desired, n);
  }

  /** A draft with every wanted name placed. */
  ghost predicate Drafted(s: Catalog, source: string, desired: map<string, Registration>, gone: set<string>, d: Draft) {
    NextTools(s, source, desired, d.tools, d.nextToken) && TokensSpared(s, source, desired, d.nextToken) &&
    Remembers(s, source, gone, {}, d.tombstones) && (forall n :: n in gone <==> Replaced(s, source, desired, n)) &&
    (exists names | Lists(names, desired.Keys) :: Reports(s, source, desired, names, d.added, d.replaced))
  }

  lemma AllPlaced(s: Catalog, source: string, desired: map<string, Registration>, names: seq<string>,
                  gone: set<string>, d: Draft)
    requires Lists(names, desired.Keys) && Progress(s, source, desired, names, |names|, gone, d)
    ensures Drafted(s, source, desired, gone, d)
  {
    assert names[..|names|] == names;
    assert Prefix(names, |names|) == desired.Keys;
    PlacedAll(s, source, desired, desired.Keys, d.tools, d.nextToken);
  }

  /** How a reconcile ends once its names are known to agree. */
  ghost predicate Ends(s: Catalog, source: string, desired: map<string, Registration>, c: ChangeSet, nextToken: nat,
                       drawn: Catalog) {
    ReportsChanges(s, source, desired, c) &&
    if NoChange(c) then Reconciled(s, source, desired, s) && nextToken == s.nextToken && c.generation == s.generation
    else Reconciled(s, source, desired, drawn) && c.generation == s.generation + 1
  }

  lemma Ending(s: Catalog, source: string, desired: map<string, Registration>, gone: set<string>, d: Draft,
               t: map<string, Tombstone>, aliases: map<string, string>, c: ChangeSet, drawn: Catalog)
    requires NamesIntact(s) && Claimable(s, source, desired) && Drafted(s, source, desired, gone, d)
    requires Remembers(s, source, gone, Unwanted(s.tools, source, desired), t) && RevokedAre(s, source, desired, c.revoked)
    requires AliasesAgree(d.tools) && AliasesOf(d.tools, aliases) && drawn == Draw(s, d, t - aliases.Keys - d.tools.Keys, aliases)
    requires c.added == d.added && c.replaced == d.replaced
    requires c.generation == if NoChange(c) then s.generation else s.generation + 1
    ensures Ends(s, source, desired, c, d.nextToken, drawn)
  {
    var names :| Lists(names, desired.Keys) && Reports(s, source, desired, names, d.added, d.replaced);
    AllReported(s, source, desired, names, d, c.revoked, c);
    NothingReported(s, source, desired, c);
    if NoChange(c) {
      Spared(s, source, desired, d.nextToken);
    } else {
      Committed(s, source, desired, gone, d, t, aliases, drawn);
    }
  }

  lemma Ended(s: Catalog, source: string, desired: map<string, Registration>, c: ChangeSet, nextToken: nat,
              drawn: Catalog, r: Catalog)
    requires Ends(s, source, desired, c, nextToken, drawn)
    requires NoChange(c) ==> r == s.(nextToken := nextToken)
    requires !NoChange(c) ==> r == drawn
    requires drawn.generation == s.generation + 1
    ensures Reconciled(s, source, desired, r) && ReportsChanges(s, source, desired, c) && c.generation == r.generation
  {
    assert NoChange(c) ==> r == s;
  }

  /** The second half of a reconcile: revokes the rest, rebuilds the aliases, and tells what changed. */
  method Finish(ghost s: Catalog, tools: map<string, Item>, generation: nat, source: string,
                desired: map<string, Registration>,
                ghost gone: set<string>, d: Draft)
    returns (agree: bool, t: map<string, Tombstone>, aliases: map<string, string>, c: ChangeSet)
    requires tools == s.tools && generation == s.generation && NamesIntact(s) && Claimable(s, source, desired)
    requires Drafted(s, source, desired, gone, d) && AllNormal(desired) && forall n | n in s.tools :: GoodItem(s, n)
    ensures agree == NamesWouldAgree(s, source, desired)
    ensures agree ==> Ends(s, source, desired, c, d.nextToken, Draw(s, d, t, aliases))
  {
    NextNamesAreValid(s, source, desired, d.tools, d.nextToken);
    var revoked;
    t, revoked := RevokeRest(s, tools, source, desired, d.tombstones, gone);
    agree, aliases := BuildAliases(d.tools);
    AgreementIsForeseen(s, source, desired, d.tools, d.nextToken);
    c := ChangeSet(generation, d.added, d.replaced, revoked);
    if !NoChange(c) {
      c := c.(generation := generation + 1);
    }
    if agree {
      Ending(s, source, desired, gone, d, t, aliases, c, Draw(s, d, t - aliases.Keys - d.tools.Keys, aliases));
    }
    t := t - aliases.Keys - d.tools.Keys;
  }
}
