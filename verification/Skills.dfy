/** Skills, their manifests, and what it means to resolve the dependencies of some of them. */
module Skills {
  import opened Wrappers
  import Trimming

  datatype Source = Workspace | Configured | User | Builtin | Other

  datatype Manifest = Manifest(version: string, runtime: string, dependencies: map<string, string>)

  datatype Candidate = Candidate(name: string, source: Source, digest: string, manifest: Option<Manifest>)

  /** The version library and the patterns, as far as they are not spelled out here. */
  datatype Rules = Rules(
    strict: string -> bool, constraint: string -> bool, satisfies: (string, string) -> bool,
    name: string -> bool, digest: string -> bool)

  const UNKNOWN_BUILD := "0.0.0-dev"

  predicate Blank(c: char) {
    c == ' ' || '\t' <= c <= '\r'
  }

  function Normalize(version: string): string {
    var v := Trimming.TrimBoth(Blank, if version != [] && version[0] == 'v' then version[1..] else version);
    if v == "" || v == "dev" || v == "unknown" then UNKNOWN_BUILD else v
  }

  /** Strict versions begin with a digit and have no blank at their end. */
  ghost predicate Lawful(rules: Rules) {
    forall v | rules.strict(v) :: v != [] && '0' <= v[0] <= '9' && !Blank(v[|v| - 1])
  }

  lemma StrictIsNormal(rules: Rules, version: string)
    requires Lawful(rules) && rules.strict(version)
    ensures Normalize(version) == version
  {
    assert "dev"[0] == 'd' && "unknown"[0] == 'u';
  }

  /** A version is read without a leading v and without the blanks around it; an unknown one stands for a
      build of no version. */
  lemma NormalizeMeans(version: string, left: string, kept: string, right: string)
    requires version[..] == left + kept + right || version == "v" + (left + kept + right)
    requires version != "v" + (left + kept + right) ==> version == "" || version[0] != 'v'
    requires Trimming.Trimmed(Blank, left + kept + right, left, kept, right)
    ensures Normalize(version) == if kept in {"", "dev", "unknown"} then "0.0.0-dev" else kept
  {
    Trimming.TrimIs(Blank, left + kept + right, left, kept, right);
    assert version == "v" + (left + kept + right) ==> version[1..] == left + kept + right;
  }

  /** Of a version as it should be written, with a v or without, the constraint is asked as it stands. */
  lemma CheckVersionMeans(rules: Rules, constraint: string, version: string)
    requires Lawful(rules) && rules.strict(version)
    ensures CheckVersion(rules, constraint, version) <==> rules.constraint(constraint) && rules.satisfies(constraint, version)
    ensures CheckVersion(rules, constraint, "v" + version) == CheckVersion(rules, constraint, version)
  {
    StrictIsNormal(rules, version);
    assert version[0] != 'v' && ("v" + version)[1..] == version;
    assert "dev"[0] == 'd' && "unknown"[0] == 'u';
  }

  predicate CheckVersion(rules: Rules, constraint: string, version: string) {
    rules.constraint(constraint) && rules.strict(Normalize(version)) && rules.satisfies(constraint, Normalize(version))
  }

  // ---- The graph ----

  /** What a resolution is asked about: the skills there are, which are enabled, and the limits. */
  datatype Problem = Problem(
    entries: map<string, Candidate>, disabled: set<string>, runtimeVersion: string, maxResolved: nat,
    governedOnly: bool, roots: seq<string>, rules: Rules)

  predicate Governed(p: Problem, n: string) {
    n in p.entries && p.entries[n].manifest.Some?
  }

  predicate DependsOn(p: Problem, n: string, d: string) {
    Governed(p, n) && d in p.entries[n].manifest.value.dependencies
  }

  /** n -> ... -> the last of the path, each on the next. */
  predicate IsPath(p: Problem, path: seq<string>) {
    path != [] && forall i | 0 <= i < |path| - 1 :: DependsOn(p, path[i], path[i + 1])
  }

  predicate Leads(p: Problem, path: seq<string>, n: string) {
    IsPath(p, path) && path[0] in p.roots && path[|path| - 1] == n
  }

  ghost predicate Reachable(p: Problem, n: string) {
    exists path :: Leads(p, path, n)
  }

  lemma RootIsReachable(p: Problem, n: string)
    requires n in p.roots
    ensures Reachable(p, n)
  {
    assert Leads(p, [n], n);
  }

  lemma DependencyIsReachable(p: Problem, n: string, d: string)
    requires Reachable(p, n) && DependsOn(p, n, d)
    ensures Reachable(p, d)
  {
    var path :| Leads(p, path, n);
    assert Leads(p, path + [d], d);
  }

  predicate IsCycle(p: Problem, path: seq<string>) {
    |path| >= 2 && IsPath(p, path) && path[0] == path[|path| - 1]
  }

  /** A dependency that is there, governed, and of a version that will do. */
  predicate Satisfied(p: Problem, n: string, d: string)
    requires DependsOn(p, n, d)
  {
    Governed(p, d) && CheckVersion(p.rules, p.entries[n].manifest.value.dependencies[d], p.entries[d].manifest.value.version)
  }

  predicate Fulfilled(p: Problem, n: string)
    requires Governed(p, n)
  {
    CheckVersion(p.rules, p.entries[n].manifest.value.runtime, p.runtimeVersion) &&
    forall d | d in p.entries[n].manifest.value.dependencies :: Satisfied(p, n, d)
  }

  /** A skill that may be in a resolution. */
  predicate Usable(p: Problem, n: string) {
    n in p.entries && n !in p.disabled &&
    if p.entries[n].manifest.None? then !p.governedOnly && n in p.roots else Fulfilled(p, n)
  }

  predicate Distinct(xs: seq<string>) {
    forall i, j | 0 <= i < j < |xs| :: xs[i] != xs[j]
  }

  /** Every dependency stands before its dependents. */
  ghost predicate DependenciesFirst(p: Problem, xs: seq<string>) {
    forall i, d | 0 <= i < |xs| && DependsOn(p, xs[i], d) :: d in xs[..i]
  }

  // ---- The limit ----

  /** The same question asked of the first k roots. */
  function Upto(p: Problem, k: nat): Problem
    requires k <= |p.roots|
  {
    p.(roots := p.roots[..k])
  }

  ghost predicate TooMany(p: Problem, xs: seq<string>) {
    Distinct(xs) && |xs| > p.maxResolved && forall n | n in xs :: Reachable(p, n)
  }

  /** No root before the last leads to it. */
  ghost predicate IsNew(p: Problem) {
    p.roots != [] && !Reachable(Upto(p, |p.roots| - 1), p.roots[|p.roots| - 1])
  }

  ghost predicate EntersLast(p: Problem) {
    IsNew(p) && Governed(p, p.roots[|p.roots| - 1])
  }

  /** Once a governed root is gone into, more skills can be reached than may be resolved. */
  ghost predicate Overruns(p: Problem, k: nat)
    requires k <= |p.roots|
  {
    EntersLast(Upto(p, k)) && exists xs :: TooMany(Upto(p, k), xs)
  }

  /** An ungoverned root is taken in when there is no room left. */
  ghost predicate Overlooked(p: Problem, k: nat)
    requires k < |p.roots|
  {
    !Governed(p, p.roots[k]) && p.roots[k] !in p.roots[..k] &&
    exists xs :: Distinct(xs) && |xs| >= p.maxResolved && forall n | n in xs :: Reachable(Upto(p, k), n)
  }

  /** What a resolution promises. */
  ghost predicate Resolves(p: Problem, xs: seq<string>) {
    Distinct(xs) && DependenciesFirst(p, xs) && (forall k | 0 <= k <= |p.roots| :: !Overruns(p, k)) &&
    (forall n :: n in xs <==> Reachable(p, n)) && (forall n | n in xs :: Usable(p, n))
  }

  /** In order, then: each skill of a resolution is there and enabled; it is one asked for, or one that a later
      one depends on; and what it depends on comes before it, at a version that will do. */
  lemma ResolvedIsSound(p: Problem, xs: seq<string>, i: nat)
    requires Resolves(p, xs) && i < |xs|
    ensures xs[i] in p.entries && xs[i] !in p.disabled
    ensures xs[i] in p.roots || exists j | 0 <= j < |xs| :: i < j && DependsOn(p, xs[j], xs[i])
    ensures match p.entries[xs[i]].manifest
      case None => !p.governedOnly && xs[i] in p.roots
      case Some(m) =>
        CheckVersion(p.rules, m.runtime, p.runtimeVersion) &&
        forall d | d in m.dependencies :: d in xs[..i] && d in p.entries && p.entries[d].manifest.Some? &&
          CheckVersion(p.rules, m.dependencies[d], p.entries[d].manifest.value.version)
    ensures forall n | n in p.roots :: n in xs
  {
    var n := xs[i];
    assert n in xs && Usable(p, n) && Reachable(p, n);
    var path :| Leads(p, path, n);
    var last := |path| - 1;
    if last > 0 {
      assert DependsOn(p, path[last - 1], path[last - 1 + 1]);
      assert Leads(p, path[..last], path[last - 1]);
      assert Reachable(p, path[last - 1]);
      var j :| 0 <= j < |xs| && xs[j] == path[last - 1];
      assert n in xs[..j];
      assert i < j;
    }
    if p.entries[n].manifest.Some? {
      forall d | d in p.entries[n].manifest.value.dependencies
        ensures d in xs[..i] && Satisfied(p, n, d)
      {
        assert DependsOn(p, n, d);
      }
    }
    forall r | r in p.roots
      ensures r in xs
    {
      RootIsReachable(p, r);
    }
  }

  lemma ReachableFromFewer(p: Problem, k: nat, n: string)
    requires k <= |p.roots| && Reachable(Upto(p, k), n)
    ensures Reachable(p, n)
  {
    var path :| Leads(Upto(p, k), path, n);
    assert Leads(p, path, n);
  }

  /** Among more roots, what is reached is reached from those before or from the last. */
  lemma {:induction false} LastPath(p: Problem, path: seq<string>, n: string)
    requires p.roots != [] && Leads(p, path, n) && !Reachable(Upto(p, |p.roots| - 1), n)
    ensures path[0] == p.roots[|p.roots| - 1]
  {
    if path[0] != p.roots[|p.roots| - 1] {
      assert Leads(Upto(p, |p.roots| - 1), path, n);
    }
  }

  /** A root that was reached before adds nothing. */
  lemma OldRootAddsNothing(p: Problem, n: string)
    requires p.roots != [] && Reachable(Upto(p, |p.roots| - 1), p.roots[|p.roots| - 1]) && Reachable(p, n)
    ensures Reachable(Upto(p, |p.roots| - 1), n)
  {
    var q, last := Upto(p, |p.roots| - 1), p.roots[|p.roots| - 1];
    if !Reachable(q, n) {
      var path :| Leads(p, path, n);
      LastPath(p, path, n);
      var before :| Leads(q, before, last);
      JoinPaths(q, before, path, n);
    }
  }

  lemma JoinPaths(p: Problem, a: seq<string>, b: seq<string>, n: string)
    requires a != [] && Leads(p, a, a[|a| - 1]) && IsPath(p, b) && b[0] == a[|a| - 1] && b[|b| - 1] == n
    ensures Reachable(p, n)
  {
    var path := a + b[1..];
    forall i | 0 <= i < |path| - 1
      ensures DependsOn(p, path[i], path[i + 1])
    {
      if i >= |a| - 1 {
        assert path[i] == b[i - (|a| - 1)] && path[i + 1] == b[i - (|a| - 1) + 1];
      } else {
        assert path[i] == a[i] && path[i + 1] == a[i + 1];
      }
    }
    assert Leads(p, path, n);
  }

  /** An ungoverned root adds itself and nothing else. */
  lemma UngovernedAddsItself(p: Problem, n: string)
    requires p.roots != [] && !Governed(p, p.roots[|p.roots| - 1]) && Reachable(p, n) && n != p.roots[|p.roots| - 1]
    ensures Reachable(Upto(p, |p.roots| - 1), n)
  {
    if !Reachable(Upto(p, |p.roots| - 1), n) {
      var path :| Leads(p, path, n);
      LastPath(p, path, n);
      OnlyGovernedLeadOn(p, path);
    }
  }

  lemma OnlyGovernedLeadOn(p: Problem, path: seq<string>)
    requires IsPath(p, path)
    ensures |path| == 1 || Governed(p, path[0])
  {
    if |path| > 1 {
      assert DependsOn(p, path[0], path[0 + 1]);
    }
  }

  predicate Without(xs: seq<string>, x: string, ys: seq<string>) {
    Distinct(ys) && |ys| + 1 == |xs| && x !in ys && forall y | y in ys :: y in xs
  }

  lemma TakeOut(xs: seq<string>, x: string) returns (ys: seq<string>)
    requires Distinct(xs) && x in xs
    ensures Without(xs, x, ys)
  {
    var i :| 0 <= i < |xs| && xs[i] == x;
    ys := xs[..i] + xs[i + 1..];
  }

  lemma NobodyReachedFromNothing(p: Problem, xs: seq<string>)
    requires p.roots == [] && xs != []
    ensures exists n | n in xs :: !Reachable(p, n)
  {
    assert xs[0] in xs;
  }

  /** With room for every ungoverned root and no overrun, the limit holds for any number of roots. */
  lemma {:induction false} LimitHolds(p: Problem, k: nat, xs: seq<string>)
    requires k <= |p.roots| && (forall j | 0 <= j <= k :: !Overruns(p, j)) && (forall j | 0 <= j < k :: !Overlooked(p, j))
    requires Distinct(xs) && forall n | n in xs :: Reachable(Upto(p, k), n)
    ensures |xs| <= p.maxResolved
    decreases k
  {
    var q := Upto(p, k);
    if k == 0 {
      if xs != [] {
        NobodyReachedFromNothing(q, xs);
      }
    } else {
      var root := p.roots[k - 1];
      assert q.roots[|q.roots| - 1] == root && Upto(q, k - 1) == Upto(p, k - 1);
      if Reachable(Upto(p, k - 1), root) {
        forall n | n in xs
          ensures Reachable(Upto(p, k - 1), n)
        {
          OldRootAddsNothing(q, n);
        }
        LimitHolds(p, k - 1, xs);
      } else if Governed(p, root) {
        assert EntersLast(q) && !Overruns(p, k);
        assert !TooMany(q, xs);
      } else {
        NewRootHasRoom(p, k, xs);
      }
    }
  }

  lemma NewRootHasRoom(p: Problem, k: nat, xs: seq<string>)
    requires 0 < k <= |p.roots| && !Governed(p, p.roots[k - 1]) && !Reachable(Upto(p, k - 1), p.roots[k - 1]) && !Overlooked(p, k - 1)
    requires Distinct(xs) && forall n | n in xs :: Reachable(Upto(p, k), n)
    ensures |xs| <= p.maxResolved
  {
    var q, root := Upto(p, k), p.roots[k - 1];
    assert q.roots[|q.roots| - 1] == root && Upto(q, k - 1) == Upto(p, k - 1);
    if root in p.roots[..k - 1] {
      RootIsReachable(Upto(p, k - 1), root);
    }
    var ys := xs;
    if root in xs {
      ys := TakeOut(xs, root);
    }
    forall n | n in ys
      ensures Reachable(Upto(p, k - 1), n)
    {
      UngovernedAddsItself(q, n);
    }
    assert |ys| < p.maxResolved;
  }

  /** A new ungoverned root was not reached before it: what depends on it could not be used. */
  lemma NewRootIsNew(p: Problem, xs: seq<string>, k: nat)
    requires Resolves(p, xs) && k < |p.roots| && !Governed(p, p.roots[k]) && p.roots[k] !in p.roots[..k]
    ensures !Reachable(Upto(p, k), p.roots[k])
  {
    var root := p.roots[k];
    if Reachable(Upto(p, k), root) {
      var path :| Leads(Upto(p, k), path, root);
      if |path| > 1 {
        LastIsGoverned(p, xs, Upto(p, k), path);
      }
    }
  }

  lemma LastIsGoverned(p: Problem, xs: seq<string>, q: Problem, path: seq<string>)
    requires Resolves(p, xs) && q == p.(roots := q.roots) && q.roots <= p.roots && |path| > 1 && Leads(q, path, path[|path| - 1])
    ensures Governed(p, path[|path| - 1])
  {
    var i := |path| - 2;
    assert DependsOn(p, path[i], path[i + 1]);
    assert Leads(p, path[..i + 1], path[i]);
    assert path[i] in xs;
    assert Satisfied(p, path[i], path[i + 1]);
  }

  /** A resolution has at most as many skills as allowed exactly when no ungoverned root was taken in
      without room: those are the only ones nobody counts. */
  lemma SizeIsLimited(p: Problem, xs: seq<string>)
    requires Resolves(p, xs)
    ensures |xs| <= p.maxResolved <==> forall k | 0 <= k < |p.roots| :: !Overlooked(p, k)
  {
    assert Upto(p, |p.roots|) == p;
    if forall k | 0 <= k < |p.roots| :: !Overlooked(p, k) {
      LimitHolds(p, |p.roots|, xs);
    }
    if k :| 0 <= k < |p.roots| && Overlooked(p, k) {
      var ys :| Distinct(ys) && |ys| >= p.maxResolved && forall n | n in ys :: Reachable(Upto(p, k), n);
      NewRootIsNew(p, xs, k);
      RootIsReachable(p, p.roots[k]);
      forall n | n in ys + [p.roots[k]]
        ensures n in xs
      {
        if n in ys {
          ReachableFromFewer(p, k, n);
        }
      }
      NoLongerThan(ys + [p.roots[k]], xs);
    }
  }

  /** So it has, whenever the roots are all governed, as for the lock, or there is one root, as for a
      skill read by name. */
  lemma GovernedRootsAreLimited(p: Problem, xs: seq<string>)
    requires Resolves(p, xs) && (p.governedOnly || |p.roots| == 1) && p.maxResolved > 0
    ensures |xs| <= p.maxResolved
  {
    SizeIsLimited(p, xs);
    forall k | 0 <= k < |p.roots|
      ensures !Overlooked(p, k)
    {
      RootIsReachable(p, p.roots[k]);
      assert Usable(p, p.roots[k]);
      if k == 0 {
        FirstRootHasRoom(p);
      }
    }
  }

  lemma FirstRootHasRoom(p: Problem)
    requires p.maxResolved > 0 && p.roots != []
    ensures !Overlooked(p, 0)
  {
    if Overlooked(p, 0) {
      var xs :| Distinct(xs) && |xs| >= p.maxResolved && forall n | n in xs :: Reachable(Upto(p, 0), n);
      NobodyReachedFromNothing(Upto(p, 0), xs);
    }
  }

  /** An instance of the other case: two skills of their own, where one is allowed. */
  const TWO_LOCAL := map["a" := Candidate("a", User, "", None), "b" := Candidate("b", User, "", None)]

  lemma LocalRootsAreNotCounted(rules: Rules)
    ensures Resolves(Problem(TWO_LOCAL, {}, "1.0.0", 1, false, ["a", "b"], rules), ["a", "b"])
  {
    var p := Problem(TWO_LOCAL, {}, "1.0.0", 1, false, ["a", "b"], rules);
    RootIsReachable(p, "a");
    RootIsReachable(p, "b");
    forall n | Reachable(p, n)
      ensures n in ["a", "b"]
    {
      var path :| Leads(p, path, n);
      OnlyGovernedLeadOn(p, path);
    }
    LocalRootsNeverOverrun(p);
  }

  lemma LocalRootsNeverOverrun(p: Problem)
    requires forall n | n in p.roots :: !Governed(p, n)
    ensures forall k | 0 <= k <= |p.roots| :: !Overruns(p, k)
  {
    forall k | 0 <= k <= |p.roots|
      ensures !Overruns(p, k)
    {
      assert k > 0 ==> Upto(p, k).roots[k - 1] in p.roots;
    }
  }

  /** Walking along a path in an ordered list only ever goes back. */
  lemma {:induction false} PathsGoBack(p: Problem, xs: seq<string>, path: seq<string>, i: nat, k: nat) returns (j: nat)
    requires Distinct(xs) && DependenciesFirst(p, xs) && IsPath(p, path) && k < |path| && i < |xs| && xs[i] == path[0]
    ensures j <= i && xs[j] == path[k] && (k > 0 ==> j < i)
    decreases k
  {
    if k == 0 {
      j := i;
    } else {
      var h := PathsGoBack(p, xs, path, i, k - 1);
      assert DependsOn(p, path[k - 1], path[k - 1 + 1]);
      assert path[k] in xs[..h];
      j :| 0 <= j < h && xs[..h][j] == path[k];
    }
  }

  /** Where a resolution exists no cycle can be reached. */
  lemma ResolvedHasNoCycle(p: Problem, xs: seq<string>, path: seq<string>)
    requires Resolves(p, xs) && IsPath(p, path) && Reachable(p, path[0])
    ensures !IsCycle(p, path)
  {
    if IsCycle(p, path) {
      assert path[0] in xs;
      var i :| 0 <= i < |xs| && xs[i] == path[0];
      var j := PathsGoBack(p, xs, path, i, |path| - 1);
    }
  }

  // ---- Failures ----

  datatype Failure =
    | Cycle(path: seq<string>)
    | Missing(name: string)
    | Disabled(name: string)
    | Unlocked(name: string)
    | Incompatible(name: string)
    | LimitExceeded
    | NoVersion(name: string, dependency: string)
    | Unsatisfied(name: string, dependency: string)

  /** What each failure truthfully says. */
  ghost predicate Truthful(p: Problem, f: Failure) {
    match f
    case Cycle(path) => IsCycle(p, path) && Reachable(p, path[0])
    case Missing(n) => Reachable(p, n) && n !in p.entries
    case Disabled(n) => Reachable(p, n) && n in p.entries && n in p.disabled
    case Unlocked(n) => Reachable(p, n) && n in p.entries && p.entries[n].manifest.None? && p.governedOnly
    case Incompatible(n) => Reachable(p, n) && Governed(p, n) && !CheckVersion(p.rules, p.entries[n].manifest.value.runtime, p.runtimeVersion)
    case LimitExceeded => exists k | 0 <= k <= |p.roots| :: Overruns(p, k)
    case NoVersion(n, d) => Reachable(p, n) && DependsOn(p, n, d) && !Governed(p, d)
    case Unsatisfied(n, d) => Reachable(p, n) && DependsOn(p, n, d) && !Satisfied(p, n, d)
  }

  /** A resolution and a truthful failure exclude each other. */
  lemma FailureMeansUnresolvable(p: Problem, f: Failure, xs: seq<string>)
    requires Truthful(p, f)
    ensures !Resolves(p, xs)
  {
    if Resolves(p, xs) {
      match f
      case Cycle(path) => ResolvedHasNoCycle(p, xs, path);
      case Missing(_) =>
      case Disabled(_) =>
      case Unlocked(_) =>
      case Incompatible(_) =>
      case LimitExceeded =>
      case NoVersion(_, _) =>
      case Unsatisfied(_, _) =>
    }
  }

  function Elements(xs: seq<string>): set<string> {
    set x | x in xs
  }

  lemma {:induction false} DistinctCount(xs: seq<string>)
    requires Distinct(xs)
    ensures |Elements(xs)| == |xs|
  {
    if xs != [] {
      var last := |xs| - 1;
      DistinctCount(xs[..last]);
      assert Elements(xs) == Elements(xs[..last]) + {xs[last]};
      assert xs[last] !in xs[..last];
    }
  }

  lemma SubsetIsNoLarger<T>(a: set<T>, b: set<T>)
    requires a <= b
    ensures |a| <= |b|
  {
    assert b == a + (b - a);
  }

  lemma NoLongerThan(ys: seq<string>, xs: seq<string>)
    requires Distinct(ys) && Distinct(xs) && forall y | y in ys :: y in xs
    ensures |ys| <= |xs|
  {
    DistinctCount(ys);
    DistinctCount(xs);
    SubsetIsNoLarger(Elements(ys), Elements(xs));
  }
}
