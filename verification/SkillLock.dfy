/** Lockfiles: the one written for a resolution, what a valid one is, and when two say the same. */
module SkillLock {
  import opened Wrappers
  import opened Order
  import opened Skills

  datatype LockEntry = LockEntry(name: string, version: string, source: Source, digest: string, dependencies: map<string, string>)

  datatype Lockfile = Lockfile(schemaVersion: int, runtimeVersion: string, skills: seq<LockEntry>)

  const LOCK_SCHEMA := 1

  // ---- Writing ----

  function EntryFor(item: Candidate): LockEntry
    requires item.manifest.Some?
  {
    LockEntry(item.name, item.manifest.value.version, item.source, item.digest, item.manifest.value.dependencies)
  }

  function GovernedNames(p: Problem, items: seq<string>): set<string> {
    set n | n in items && Governed(p, n)
  }

  /** A lockfile in name order, of the governed skills of a list. */
  ghost predicate IsLockFor(p: Problem, items: seq<string>, lock: Lockfile) {
    lock.schemaVersion == LOCK_SCHEMA && lock.runtimeVersion == Normalize(p.runtimeVersion) &&
    Lists(EntryNames(lock.skills), GovernedNames(p, items)) &&
    forall e | e in lock.skills :: e.name in p.entries && Pins(e, p.entries[e.name])
  }

  /** The entry says which version of the skill was found, where, and with what content and dependencies. */
  predicate Pins(e: LockEntry, item: Candidate) {
    item.manifest.Some? && e.name == item.name && e.source == item.source && e.digest == item.digest &&
    e.version == item.manifest.value.version && e.dependencies == item.manifest.value.dependencies
  }

  function EntryNames(entries: seq<LockEntry>): (names: seq<string>)
    ensures |names| == |entries| && forall i | 0 <= i < |entries| :: names[i] == entries[i].name
  {
    seq(|entries|, i requires 0 <= i < |entries| => entries[i].name)
  }

  /** Catalogued under their own names, with manifests that were accepted. */
  ghost predicate Catalogued(p: Problem) {
    Lawful(p.rules) && forall n | n in p.entries ::
      p.entries[n].name == n && p.rules.name(n) && p.rules.digest(p.entries[n].digest) && p.entries[n].source != Other &&
      (p.entries[n].manifest.Some? ==> ValidManifest(p.rules, n, p.entries[n].manifest.value))
  }

  predicate ValidManifest(rules: Rules, name: string, m: Manifest) {
    rules.strict(m.version) && rules.constraint(m.runtime) &&
    forall d | d in m.dependencies :: rules.name(d) && d != name && m.dependencies[d] != "" && rules.constraint(m.dependencies[d])
  }

  method LockfileFor(p: Problem, items: seq<string>) returns (lock: Lockfile)
    requires forall n | n in items :: n in p.entries && p.entries[n].name == n
    ensures IsLockFor(p, items, lock)
  {
    var names := List(GovernedNames(p, items));
    var skills := [];
    for i := 0 to |names|
      invariant |skills| == i && forall k | 0 <= k < i :: Governed(p, names[k]) && skills[k] == EntryFor(p.entries[names[k]]) && skills[k].name == names[k]
    {
      assert names[i] in names;
      skills := skills + [EntryFor(p.entries[names[i]])];
    }
    assert EntryNames(skills) == names;
    lock := Lockfile(LOCK_SCHEMA, Normalize(p.runtimeVersion), skills);
  }

  // ---- Validating ----

  predicate ValidEntry(rules: Rules, e: LockEntry) {
    rules.name(e.name) && rules.strict(e.version) && rules.digest(e.digest) && e.source != Other &&
    forall d | d in e.dependencies :: rules.name(d) && e.dependencies[d] != "" && rules.constraint(e.dependencies[d])
  }

  ghost predicate UniqueNames(skills: seq<LockEntry>) {
    forall i, j | 0 <= i < j < |skills| :: skills[i].name != skills[j].name
  }

  ghost predicate HasVersion(rules: Rules, skills: seq<LockEntry>, name: string, constraint: string) {
    exists e :: e in skills && e.name == name && CheckVersion(rules, constraint, e.version)
  }

  /** The skills of the file are valid and distinct, and what each depends on is in it, at a version
      that will do. */
  ghost predicate ValidLock(rules: Rules, lock: Lockfile) {
    lock.schemaVersion == LOCK_SCHEMA && Normalize(lock.runtimeVersion) == lock.runtimeVersion && rules.strict(lock.runtimeVersion) &&
    UniqueNames(lock.skills) && (forall e | e in lock.skills :: ValidEntry(rules, e)) &&
    Grounded(rules, lock.skills)
  }

  /** What a valid lockfile says: of each skill, once, what it is and where it came from; and of each that one
      depends on, a version that the dependent accepts. */
  lemma ValidLockMeans(rules: Rules, lock: Lockfile)
    ensures ValidLock(rules, lock) <==>
      lock.schemaVersion == 1 && rules.strict(lock.runtimeVersion) && Normalize(lock.runtimeVersion) == lock.runtimeVersion &&
      (forall i, j | 0 <= i < |lock.skills| && 0 <= j < |lock.skills| && lock.skills[i].name == lock.skills[j].name :: i == j) &&
      forall e | e in lock.skills :: SaysWhat(rules, e) && forall d | d in e.dependencies :: Provides(rules, lock, d, e.dependencies[d])
  {
    forall e | e in lock.skills
      ensures ValidEntry(rules, e) && (forall d | d in e.dependencies :: HasVersion(rules, lock.skills, d, e.dependencies[d])) <==>
        SaysWhat(rules, e) && forall d | d in e.dependencies :: Provides(rules, lock, d, e.dependencies[d])
    {
    }
  }

  predicate SaysWhat(rules: Rules, e: LockEntry) {
    rules.name(e.name) && rules.strict(e.version) && rules.digest(e.digest) &&
    (e.source == Workspace || e.source == Configured || e.source == User || e.source == Builtin) &&
    forall d | d in e.dependencies :: rules.name(d) && rules.constraint(e.dependencies[d]) && e.dependencies[d] != ""
  }

  ghost predicate Provides(rules: Rules, lock: Lockfile, name: string, constraint: string) {
    exists e :: e in lock.skills && e.name == name && CheckVersion(rules, constraint, e.version)
  }

  function Versions(skills: seq<LockEntry>): map<string, string> {
    if skills == [] then map[]
    else Versions(skills[..|skills| - 1])[skills[|skills| - 1].name := skills[|skills| - 1].version]
  }

  /** With distinct names, an entry is the last or has another name and comes before it. */
  lemma LastIsApart(skills: seq<LockEntry>)
    requires UniqueNames(skills) && skills != []
    ensures var init, last := skills[..|skills| - 1], skills[|skills| - 1];
      UniqueNames(init) && last in skills && (forall e :: e in skills <==> e in init || e == last) && forall e | e in init :: e.name != last.name
  {
    var init, last := skills[..|skills| - 1], skills[|skills| - 1];
    assert skills == init + [last];
    assert forall i | 0 <= i < |init| :: init[i] == skills[i] && skills[i].name != skills[|init|].name;
  }

  lemma {:induction false} VersionsAre(skills: seq<LockEntry>)
    requires UniqueNames(skills)
    ensures forall n :: n in Versions(skills) <==> exists e :: e in skills && e.name == n
    ensures forall e | e in skills :: Versions(skills)[e.name] == e.version
  {
    if skills != [] {
      LastIsApart(skills);
      VersionsAre(skills[..|skills| - 1]);
    }
  }

  predicate Demands(rules: Rules, versions: map<string, string>, e: LockEntry) {
    forall d | d in e.dependencies :: d in versions && CheckVersion(rules, e.dependencies[d], versions[d])
  }

  function NamesUpto(skills: seq<LockEntry>, i: nat): set<string>
    requires i <= |skills|
  {
    set k | 0 <= k < i :: skills[k].name
  }

  ghost predicate Apart(skills: seq<LockEntry>, i: nat)
    requires i <= |skills|
  {
    forall j, k | 0 <= j < k < i :: skills[j].name != skills[k].name
  }

  /** What one more entry does to the names and versions seen so far. */
  lemma OneMoreEntry(skills: seq<LockEntry>, i: nat)
    requires i < |skills| && Apart(skills, i)
    ensures if skills[i].name in NamesUpto(skills, i) then !UniqueNames(skills) else Apart(skills, i + 1)
    ensures NamesUpto(skills, i + 1) == NamesUpto(skills, i) + {skills[i].name}
    ensures Versions(skills[..i + 1]) == Versions(skills[..i])[skills[i].name := skills[i].version]
  {
    assert skills[..i + 1][..i] == skills[..i];
  }

  method ValidateLockfile(rules: Rules, lock: Lockfile) returns (ok: bool)
    ensures ok <==> ValidLock(rules, lock)
  {
    if lock.schemaVersion != LOCK_SCHEMA || Normalize(lock.runtimeVersion) != lock.runtimeVersion || !rules.strict(lock.runtimeVersion) {
      return false;
    }
    var versions;
    ok, versions := CheckEntries(rules, lock.skills);
    if ok {
      ok := CheckDemands(rules, lock.skills, versions);
    }
  }

  method CheckEntries(rules: Rules, skills: seq<LockEntry>) returns (ok: bool, versions: map<string, string>)
    ensures ok <==> UniqueNames(skills) && forall e | e in skills :: ValidEntry(rules, e)
    ensures ok ==> versions == Versions(skills)
  {
    var seen: set<string> := {};
    versions := map[];
    for i := 0 to |skills|
      invariant Apart(skills, i) && seen == NamesUpto(skills, i) && versions == Versions(skills[..i])
      invariant forall k | 0 <= k < i :: ValidEntry(rules, skills[k])
    {
      var e := skills[i];
      OneMoreEntry(skills, i);
      if e.name in seen || !ValidEntry(rules, e) {
        assert e in skills;
        return false, versions;
      }
      seen := seen + {e.name};
      versions := versions[e.name := e.version];
    }
    assert skills[..|skills|] == skills;
    ok := true;
  }

  ghost predicate Grounded(rules: Rules, skills: seq<LockEntry>) {
    forall e, d | e in skills && d in e.dependencies :: HasVersion(rules, skills, d, e.dependencies[d])
  }

  method CheckDemands(rules: Rules, skills: seq<LockEntry>, versions: map<string, string>) returns (ok: bool)
    requires UniqueNames(skills) && versions == Versions(skills)
    ensures ok <==> Grounded(rules, skills)
  {
    VersionsAre(skills);
    for i := 0 to |skills|
      invariant forall k | 0 <= k < i :: Demands(rules, versions, skills[k])
    {
      if !Demands(rules, versions, skills[i]) {
        UnmetDemand(rules, skills, i);
        return false;
      }
    }
    forall e, d | e in skills && d in e.dependencies
      ensures HasVersion(rules, skills, d, e.dependencies[d])
    {
      assert Demands(rules, versions, e);
      var w :| w in skills && w.name == d;
      assert versions[w.name] == w.version;
    }
    ok := true;
  }

  lemma UnmetDemand(rules: Rules, skills: seq<LockEntry>, i: nat)
    requires UniqueNames(skills) && i < |skills| && !Demands(rules, Versions(skills), skills[i])
    ensures exists e, d :: e in skills && d in e.dependencies && !HasVersion(rules, skills, d, e.dependencies[d])
  {
    VersionsAre(skills);
    var e := skills[i];
    var d :| d in e.dependencies && !(d in Versions(skills) && CheckVersion(rules, e.dependencies[d], Versions(skills)[d]));
    assert e in skills && !HasVersion(rules, skills, d, e.dependencies[d]);
  }

  /** The lockfile of a non-empty governed resolution is valid. */
  lemma ResolvedLockIsValid(p: Problem, items: seq<string>, lock: Lockfile)
    requires Catalogued(p) && p.governedOnly && items != [] && Resolves(p, items) && IsLockFor(p, items, lock)
    ensures ValidLock(p.rules, lock)
  {
    var skills := lock.skills;
    assert items[0] in items && Usable(p, items[0]);
    StrictIsNormal(p.rules, lock.runtimeVersion);
    forall i, j | 0 <= i < j < |skills|
      ensures skills[i].name != skills[j].name
    {
      LessIsStrict(EntryNames(skills)[i], EntryNames(skills)[j]);
    }
    forall e | e in skills
      ensures e.name in items && ValidEntry(p.rules, e)
      ensures forall d | d in e.dependencies :: HasVersion(p.rules, skills, d, e.dependencies[d])
    {
      EntryIsFine(p, items, lock, e);
    }
  }

  lemma EntryIsFine(p: Problem, items: seq<string>, lock: Lockfile, e: LockEntry)
    requires Catalogued(p) && Resolves(p, items) && IsLockFor(p, items, lock) && e in lock.skills
    ensures e.name in items && ValidEntry(p.rules, e)
    ensures forall d | d in e.dependencies :: HasVersion(p.rules, lock.skills, d, e.dependencies[d])
  {
    var i :| 0 <= i < |lock.skills| && lock.skills[i] == e;
    assert EntryNames(lock.skills)[i] in EntryNames(lock.skills);
    assert Usable(p, e.name);
    forall d | d in e.dependencies
      ensures HasVersion(p.rules, lock.skills, d, e.dependencies[d])
    {
      DependencyIsListed(p, items, lock, e.name, d);
    }
  }

  lemma DependencyIsListed(p: Problem, items: seq<string>, lock: Lockfile, n: string, d: string)
    requires Resolves(p, items) && IsLockFor(p, items, lock) && n in items && DependsOn(p, n, d) && Satisfied(p, n, d)
    ensures HasVersion(p.rules, lock.skills, d, p.entries[n].manifest.value.dependencies[d])
  {
    DependencyIsReachable(p, n, d);
    assert d in items && d in GovernedNames(p, items);
    assert d in EntryNames(lock.skills);
    var k :| 0 <= k < |lock.skills| && EntryNames(lock.skills)[k] == d;
    assert lock.skills[k] in lock.skills && lock.skills[k].name == d;
  }

  // ---- Comparing ----

  /** A name that is missing on the right reads as an empty constraint. */
  function Reads(m: map<string, string>, n: string): string {
    if n in m then m[n] else ""
  }

  predicate EqualDependencies(left: map<string, string>, right: map<string, string>) {
    |left| == |right| && forall n | n in left :: Reads(right, n) == left[n]
  }

  /** Counting and one inclusion amount to equality, except that a dependency without a constraint
      may be confused with one that is not there. */
  lemma EqualDependenciesMeans(left: map<string, string>, right: map<string, string>)
    ensures EqualDependencies(left, right) && (forall n | n in left && left[n] == "" :: n in right) <==> left == right
  {
    if EqualDependencies(left, right) && forall n | n in left && left[n] == "" :: n in right {
      assert forall n | n in left :: n in right && right[n] == left[n];
      SameSize(left.Keys, right.Keys);
    }
  }

  /** An instance: two maps that differ and are taken for equal. */
  lemma AbsentReadsAsEmpty()
    ensures var left, right := map["a" := ""], map["b" := "^1.0.0"];
      left != right && EqualDependencies(left, right)
  {
    var left, right := map["a" := ""], map["b" := "^1.0.0"];
    assert "a" in left && "a" !in right;
    assert left.Keys == {"a"} && right.Keys == {"b"};
  }

  lemma SameSize<T>(a: set<T>, b: set<T>)
    requires a <= b && |a| == |b|
    ensures a == b
  {
    if x :| x in b && x !in a {
      SubsetIsNoLarger(a, b - {x});
    }
  }

  function ByName(skills: seq<LockEntry>): map<string, LockEntry> {
    if skills == [] then map[] else ByName(skills[..|skills| - 1])[skills[|skills| - 1].name := skills[|skills| - 1]]
  }

  predicate SameEntry(wanted: LockEntry, got: LockEntry) {
    wanted.version == got.version && wanted.source == got.source && wanted.digest == got.digest &&
    EqualDependencies(wanted.dependencies, got.dependencies)
  }

  predicate FoundIn(byName: map<string, LockEntry>, wanted: LockEntry) {
    wanted.name in byName && SameEntry(wanted, byName[wanted.name])
  }

  /** Equal headers, equal counts, and every wanted entry found. */
  predicate Matches(expected: Lockfile, actual: Lockfile) {
    expected.schemaVersion == actual.schemaVersion && expected.runtimeVersion == actual.runtimeVersion &&
    |expected.skills| == |actual.skills| && forall e | e in expected.skills :: FoundIn(ByName(actual.skills), e)
  }

  ghost predicate SameLock(expected: Lockfile, actual: Lockfile) {
    expected.schemaVersion == actual.schemaVersion && expected.runtimeVersion == actual.runtimeVersion &&
    forall e :: e in expected.skills <==> e in actual.skills
  }

  method CompareLockfiles(expected: Lockfile, actual: Lockfile) returns (same: bool)
    ensures same <==> Matches(expected, actual)
  {
    if expected.schemaVersion != actual.schemaVersion || expected.runtimeVersion != actual.runtimeVersion ||
       |expected.skills| != |actual.skills| {
      return false;
    }
    var byName: map<string, LockEntry> := map[];
    for i := 0 to |actual.skills|
      invariant byName == ByName(actual.skills[..i])
    {
      assert actual.skills[..i + 1][..i] == actual.skills[..i];
      byName := byName[actual.skills[i].name := actual.skills[i]];
    }
    assert actual.skills[..|actual.skills|] == actual.skills;
    for i := 0 to |expected.skills|
      invariant forall k | 0 <= k < i :: FoundIn(byName, expected.skills[k])
    {
      if !FoundIn(byName, expected.skills[i]) {
        assert expected.skills[i] in expected.skills;
        return false;
      }
    }
    same := true;
  }

  lemma {:induction false} ByNameHas(skills: seq<LockEntry>, e: LockEntry)
    requires UniqueNames(skills)
    ensures e in skills <==> e.name in ByName(skills) && ByName(skills)[e.name] == e
    ensures forall n | n in ByName(skills) :: ByName(skills)[n].name == n
  {
    if skills != [] {
      LastIsApart(skills);
      ByNameHas(skills[..|skills| - 1], e);
    }
  }

  predicate Constrained(skills: seq<LockEntry>) {
    forall e | e in skills :: forall d | d in e.dependencies :: e.dependencies[d] != ""
  }

  /** For lockfiles that pass validation the comparison is equality of headers and of entries, in
      whatever order. */
  lemma ComparisonIsEquality(expected: Lockfile, actual: Lockfile)
    requires UniqueNames(expected.skills) && UniqueNames(actual.skills) && Constrained(expected.skills)
    ensures Matches(expected, actual) <==> SameLock(expected, actual)
  {
    forall e | e in expected.skills
      ensures FoundIn(ByName(actual.skills), e) <==> e in actual.skills
    {
      FoundMeansPresent(actual.skills, e);
    }
    EntriesCount(expected.skills);
    EntriesCount(actual.skills);
    var a, b := set e | e in expected.skills, set e | e in actual.skills;
    if Matches(expected, actual) {
      SameSize(a, b);
      forall e | e in actual.skills
        ensures e in expected.skills
      {
        assert e in b;
      }
    }
    if SameLock(expected, actual) {
      assert a == b;
    }
  }

  lemma FoundMeansPresent(skills: seq<LockEntry>, e: LockEntry)
    requires UniqueNames(skills) && forall d | d in e.dependencies :: e.dependencies[d] != ""
    ensures FoundIn(ByName(skills), e) <==> e in skills
  {
    ByNameHas(skills, e);
    if e.name in ByName(skills) {
      EqualDependenciesMeans(e.dependencies, ByName(skills)[e.name].dependencies);
    }
  }

  lemma {:induction false} EntriesCount(skills: seq<LockEntry>)
    requires UniqueNames(skills)
    ensures |set e | e in skills| == |skills|
  {
    if skills != [] {
      var init, last := skills[..|skills| - 1], skills[|skills| - 1];
      LastIsApart(skills);
      EntriesCount(init);
      assert (set e | e in skills) == (set e | e in init) + {last};
    }
  }
}
