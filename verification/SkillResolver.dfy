/** The depth-first resolver: three colours, a stack, and the list built in the order skills are
    left. */
module SkillResolver {
  import opened Wrappers
  import opened Order
  import opened Skills

  datatype Color = Visiting | Visited

  datatype Outcome = Resolved | Failed(failure: Failure)

  /** A path of skills being visited, the first of them a root. */
  predicate IsStack(p: Problem, stack: seq<string>) {
    Skills.Distinct(stack) && (stack != [] ==> IsPath(p, stack) && stack[0] in p.roots) && forall n | n in stack :: Governed(p, n)
  }

  /** What is known of the skills already left. */
  ghost predicate IsPartial(p: Problem, result: seq<string>) {
    Skills.Distinct(result) && DependenciesFirst(p, result) && (forall n | n in result :: Usable(p, n) && Reachable(p, n)) &&
    (forall n, d | n in result && DependsOn(p, n, d) :: d in result)
  }

  ghost predicate Colored(colors: map<string, Color>, stack: seq<string>, result: seq<string>) {
    (forall n :: n in colors && colors[n] == Visiting <==> n in stack) &&
    (forall n :: n in colors && colors[n] == Visited <==> n in result)
  }

  /** Inside a governed root everything visited so far is within the limit. */
  ghost predicate Limited(p: Problem, stack: seq<string>, result: seq<string>) {
    stack != [] ==> |result| + |stack| <= p.maxResolved && EntersLast(p)
  }

  lemma StackIsReachable(p: Problem, stack: seq<string>, i: nat)
    requires IsStack(p, stack) && i < |stack|
    ensures Reachable(p, stack[i])
  {
    assert Leads(p, stack[..i + 1], stack[i]);
  }

  lemma CloseCycle(p: Problem, stack: seq<string>, start: nat, name: string)
    requires IsStack(p, stack) && start < |stack| && stack[start] == name && DependsOn(p, stack[|stack| - 1], name)
    ensures IsCycle(p, stack[start..] + [name]) && Reachable(p, name)
  {
    StackIsReachable(p, stack, start);
  }

  lemma PushIsStack(p: Problem, stack: seq<string>, name: string)
    requires IsStack(p, stack) && name !in stack && Governed(p, name)
    requires if stack == [] then name in p.roots else DependsOn(p, stack[|stack| - 1], name)
    ensures IsStack(p, stack + [name])
  {
  }

  lemma JoinDistinct(xs: seq<string>, ys: seq<string>)
    requires Skills.Distinct(xs) && Skills.Distinct(ys) && forall y | y in ys :: y !in xs
    ensures Skills.Distinct(xs + ys)
  {
    forall i, j | 0 <= i < j < |xs + ys|
      ensures (xs + ys)[i] != (xs + ys)[j]
    {
      if i < |xs| <= j {
        assert (xs + ys)[i] in xs && (xs + ys)[j] in ys;
      }
    }
  }

  lemma AllReached(p: Problem, stack: seq<string>, result: seq<string>, name: string)
    requires IsStack(p, stack) && IsPartial(p, result) && name !in stack && name !in result && Reachable(p, name)
    requires (forall n | n in stack :: n !in result) && |result| + |stack| >= p.maxResolved && EntersLast(p)
    ensures Truthful(p, LimitExceeded)
  {
    var xs := result + stack + [name];
    forall n | n in xs
      ensures Reachable(p, n)
    {
      if n in stack {
        var i :| 0 <= i < |stack| && stack[i] == n;
        StackIsReachable(p, stack, i);
      }
    }
    JoinDistinct(result, stack);
    JoinDistinct(result + stack, [name]);
    assert Upto(p, |p.roots|) == p;
    assert TooMany(p, xs);
    assert Overruns(p, |p.roots|);
  }

  lemma LeaveIsPartial(p: Problem, result: seq<string>, name: string)
    requires IsPartial(p, result) && name !in result && Usable(p, name) && Reachable(p, name)
    requires forall d | DependsOn(p, name, d) :: d in result
    ensures IsPartial(p, result + [name])
  {
    var next := result + [name];
    assert next[..|next| - 1] == result;
    forall i, d | 0 <= i < |next| && DependsOn(p, next[i], d)
      ensures d in next[..i]
    {
      if i < |result| {
        assert next[..i] == result[..i];
      } else {
        assert next[..i] == result;
      }
    }
  }

  ghost predicate Good(p: Problem, colors: map<string, Color>, stack: seq<string>, result: seq<string>) {
    IsStack(p, stack) && IsPartial(p, result) && Colored(colors, stack, result) && Limited(p, stack, result)
  }

  lemma EntersWell(p: Problem, colors: map<string, Color>, stack: seq<string>, result: seq<string>, name: string)
    requires Good(p, colors, stack, result) && Governed(p, name) && name !in stack && name !in result
    requires if stack == [] then name in p.roots else DependsOn(p, stack[|stack| - 1], name)
    requires |result| + |stack| < p.maxResolved && EntersLast(p)
    ensures Good(p, colors[name := Visiting], stack + [name], result)
  {
    PushIsStack(p, stack, name);
  }

  /** Leaving the skill on top of the stack. */
  lemma LeavesWell(p: Problem, colors: map<string, Color>, stack: seq<string>, below: seq<string>,
                   result: seq<string>, name: string)
    requires Good(p, colors, stack, result) && stack == below + [name] && Usable(p, name)
    requires forall d | DependsOn(p, name, d) :: d in result
    ensures Good(p, colors[name := Visited], below, result + [name])
  {
    assert stack[|below|] == name;
    StackIsReachable(p, stack, |below|);
    PopIsStack(p, stack, below, name);
    PopIsColored(colors, stack, below, result, name);
    LeaveIsPartial(p, result, name);
  }

  lemma PopIsColored(colors: map<string, Color>, stack: seq<string>, below: seq<string>, result: seq<string>,
                     name: string)
    requires Colored(colors, stack, result) && name in stack && forall n :: n in below <==> n in stack && n != name
    ensures name !in result && Colored(colors[name := Visited], below, result + [name])
  {
  }

  lemma PopIsStack(p: Problem, stack: seq<string>, below: seq<string>, name: string)
    requires IsStack(p, stack) && stack == below + [name]
    ensures IsStack(p, below) && name !in below && Governed(p, name)
    ensures forall n :: n in below <==> n in stack && n != name
  {
    assert forall i | 0 <= i < |below| :: below[i] == stack[i];
    assert stack[|below|] == name;
  }

  /** A skill of its own, without dependencies, never gets on the stack. */
  lemma PassesWell(p: Problem, colors: map<string, Color>, result: seq<string>, name: string)
    requires Good(p, colors, [], result) && Usable(p, name) && Reachable(p, name) && !Governed(p, name) && name !in result
    ensures Good(p, colors[name := Visited], [], result + [name])
  {
    LeaveIsPartial(p, result, name);
  }

  // ---- From root to root ----

  ghost predicate IsLast(p: Problem, name: string) {
    p.roots != [] && name == p.roots[|p.roots| - 1]
  }

  /** What is known stays so as the next root comes up. */
  lemma StaysPartial(p: Problem, k: nat, result: seq<string>)
    requires k < |p.roots| && IsPartial(Upto(p, k), result)
    ensures IsPartial(Upto(p, k + 1), result)
  {
    var q, r := Upto(p, k), Upto(p, k + 1);
    assert forall n, d :: DependsOn(q, n, d) == DependsOn(r, n, d);
    forall n | n in result
      ensures Usable(r, n) && Reachable(r, n)
    {
      StaysUsable(p, k, n);
    }
  }

  lemma StaysUsable(p: Problem, k: nat, n: string)
    requires k < |p.roots| && Usable(Upto(p, k), n) && Reachable(Upto(p, k), n)
    ensures Usable(Upto(p, k + 1), n) && Reachable(Upto(p, k + 1), n)
  {
    var q, r := Upto(p, k), Upto(p, k + 1);
    var path :| Leads(q, path, n);
    assert Leads(r, path, n);
    if Governed(q, n) {
      assert forall d | DependsOn(q, n, d) :: Satisfied(r, n, d) == Satisfied(q, n, d);
    }
  }

  lemma NextRoot(p: Problem, k: nat, colors: map<string, Color>, result: seq<string>) returns (q: Problem)
    requires k < |p.roots| && Good(Upto(p, k), colors, [], result) && forall n | n in p.roots[..k] :: n in result
    ensures q == Upto(p, k + 1) && Good(q, colors, [], result)
    ensures Reachable(q, p.roots[k]) && IsLast(q, p.roots[k])
    ensures p.roots[k] in result <==> !IsNew(q)
  {
    q := Upto(p, k + 1);
    StaysPartial(p, k, result);
    ClosureIsComplete(Upto(p, k), result);
    RootIsReachable(q, p.roots[k]);
    assert Upto(q, k) == Upto(p, k);
  }

  lemma RootIsIn(p: Problem, i: nat, result: seq<string>)
    requires i < |p.roots| && p.roots[i] in result && forall n | n in p.roots[..i] :: n in result
    ensures forall n | n in p.roots[..i + 1] :: n in result
  {
    assert p.roots[..i + 1] == p.roots[..i] + [p.roots[i]];
  }

  /** A failure among the first roots is one among them all. */
  lemma TruthfulOfMore(p: Problem, k: nat, f: Failure)
    requires k <= |p.roots| && Truthful(Upto(p, k), f)
    ensures Truthful(p, f)
  {
    var q := Upto(p, k);
    forall n | Reachable(q, n)
      ensures Reachable(p, n)
    {
      ReachableFromFewer(p, k, n);
    }
    match f
    case Cycle(path) => assert IsPath(p, path);
    case Missing(_) =>
    case Disabled(_) =>
    case Unlocked(_) =>
    case Incompatible(_) =>
    case LimitExceeded =>
      var j :| 0 <= j <= |q.roots| && Overruns(q, j);
      assert Upto(q, j) == Upto(p, j) && Overruns(p, j);
    case NoVersion(n, d) => assert DependsOn(p, n, d);
    case Unsatisfied(n, d) => assert DependsOn(p, n, d) && Satisfied(p, n, d) == Satisfied(q, n, d);
  }

  /** A root visited within the limit overruns nothing. */
  lemma NoOverrun(p: Problem, k: nat, result: seq<string>)
    requires k < |p.roots| && IsPartial(Upto(p, k + 1), result) && (forall n | n in p.roots[..k + 1] :: n in result)
    requires EntersLast(Upto(p, k + 1)) ==> |result| <= p.maxResolved
    ensures !Overruns(p, k + 1)
  {
    var q := Upto(p, k + 1);
    if Overruns(p, k + 1) {
      var xs :| TooMany(q, xs);
      ClosureIsComplete(q, result);
      NoLongerThan(xs, result);
    }
  }

  class Resolver {
    const p: Problem
    var colors: map<string, Color>
    var stack: seq<string>
    var result: seq<string>
    /** The question as far as roots have come up. */
    ghost var asked: Problem

    ghost predicate Valid()
      reads this
    {
      asked == p.(roots := asked.roots) && Good(asked, colors, stack, result)
    }

    constructor (p: Problem)
      ensures this.p == p && Valid() && asked == Upto(p, 0) && colors == map[] && stack == [] && result == []
    {
      this.p := p;
      colors, stack, result, asked := map[], [], [], Upto(p, 0);
    }

    /** Visits a skill that the one on top of the stack depends on, or the last root. */
    method Visit(name: string) returns (o: Outcome)
      requires Valid() && Reachable(asked, name)
      requires if stack == [] then IsLast(asked, name) && (name in result || IsNew(asked))
               else Governed(p, name) && DependsOn(p, stack[|stack| - 1], name)
      modifies this
      ensures asked == old(asked) && (o.Failed? ==> Truthful(asked, o.failure))
      ensures o.Resolved? ==> Valid() && stack == old(stack) && old(result) <= result && name in result
      ensures o.Resolved? && Governed(p, name) && name !in old(result) ==> |result| + |stack| <= p.maxResolved
      decreases p.maxResolved - |result| - |stack|, 1
    {
      if name in colors && colors[name] == Visiting {
        var start := 0;
        assert name in stack;
        while stack[start] != name
          invariant start < |stack| && forall i | 0 <= i < start :: stack[i] != name
          decreases |stack| - start
        {
          start := start + 1;
        }
        CloseCycle(asked, stack, start, name);
        return Failed(Cycle(stack[start..] + [name]));
      }
      if name in colors && colors[name] == Visited {
        return Resolved;
      }
      if name !in p.entries {
        return Failed(Missing(name));
      }
      if name in p.disabled {
        return Failed(Disabled(name));
      }
      var item := p.entries[name];
      if item.manifest.None? {
        if p.governedOnly || stack != [] {
          return Failed(Unlocked(name));
        }
        PassesWell(asked, colors, result, name);
        colors := colors[name := Visited];
        result := result + [name];
        return Resolved;
      }
      if !CheckVersion(p.rules, item.manifest.value.runtime, p.runtimeVersion) {
        return Failed(Incompatible(name));
      }
      if |result| + |stack| >= p.maxResolved {
        AllReached(asked, stack, result, name);
        return Failed(LimitExceeded);
      }
      o := Enter(name);
    }

    /** Goes into a governed skill and comes back out of it. */
    method Enter(name: string) returns (o: Outcome)
      requires Valid() && Reachable(asked, name) && Governed(p, name) && name !in stack && name !in result && name !in p.disabled
      requires if stack == [] then name in asked.roots else DependsOn(p, stack[|stack| - 1], name)
      requires CheckVersion(p.rules, p.entries[name].manifest.value.runtime, p.runtimeVersion)
      requires |result| + |stack| < p.maxResolved && EntersLast(asked)
      modifies this
      ensures asked == old(asked) && (o.Failed? ==> Truthful(asked, o.failure))
      ensures o.Resolved? ==> Valid() && stack == old(stack) && old(result) <= result && name in result
      ensures o.Resolved? ==> |result| + |stack| <= p.maxResolved
      decreases p.maxResolved - |result| - |stack|, 0
    {
      Push(name);
      o := VisitDependencies(name);
      if o.Resolved? {
        Pop(name, old(stack));
      }
    }

    method Push(name: string)
      requires Valid() && Reachable(asked, name) && Governed(p, name) && name !in stack && name !in result && |result| + |stack| < p.maxResolved && EntersLast(asked)
      requires if stack == [] then name in asked.roots else DependsOn(p, stack[|stack| - 1], name)
      modifies this`colors, this`stack
      ensures Valid() && stack == old(stack) + [name]
    {
      EntersWell(asked, colors, stack, result, name);
      colors := colors[name := Visiting];
      stack := stack + [name];
    }

    method Pop(name: string, ghost below: seq<string>)
      requires Valid() && stack == below + [name] && Governed(p, name) && name !in p.disabled
      requires CheckVersion(p.rules, p.entries[name].manifest.value.runtime, p.runtimeVersion)
      requires forall d | DependsOn(p, name, d) :: d in result && Satisfied(p, name, d)
      modifies this`colors, this`stack, this`result
      ensures Valid() && stack == below && result == old(result) + [name]
      ensures |result| + |stack| <= p.maxResolved
    {
      BecomesUsable(p, asked, name);
      LeavesWell(asked, colors, stack, below, result, name);
      stack := stack[..|stack| - 1];
      colors := colors[name := Visited];
      result := result + [name];
    }

    /** Visits what the skill on top of the stack depends on, in the order of names. */
    method VisitDependencies(name: string) returns (o: Outcome)
      requires Valid() && stack != [] && stack[|stack| - 1] == name && Governed(p, name)
      modifies this
      ensures asked == old(asked) && (o.Failed? ==> Truthful(asked, o.failure))
      ensures o.Resolved? ==> Valid() && stack == old(stack) && old(result) <= result
      ensures o.Resolved? ==> forall d | DependsOn(p, name, d) :: d in result && Satisfied(p, name, d)
      decreases p.maxResolved - |result| - |stack|, 3
    {
      var dependencies := p.entries[name].manifest.value.dependencies;
      var names := List(dependencies.Keys);
      for i := 0 to |names|
        invariant asked == old(asked) && Valid() && stack == old(stack) && old(result) <= result
        invariant forall k | 0 <= k < i :: names[k] in result && DependsOn(p, name, names[k]) && Satisfied(p, name, names[k])
      {
        assert names[i] in names;
        o := VisitDependency(name, names[i]);
        if o.Failed? {
          return;
        }
      }
      return Resolved;
    }

    method VisitDependency(name: string, d: string) returns (o: Outcome)
      requires Valid() && stack != [] && stack[|stack| - 1] == name && DependsOn(p, name, d)
      modifies this
      ensures asked == old(asked) && (o.Failed? ==> Truthful(asked, o.failure))
      ensures o.Resolved? ==> Valid() && stack == old(stack) && old(result) <= result
      ensures o.Resolved? ==> d in result && Satisfied(p, name, d)
      decreases p.maxResolved - |result| - |stack|, 2
    {
      StackIsReachable(asked, stack, |stack| - 1);
      if !Governed(p, d) {
        return Failed(NoVersion(name, d));
      }
      if !CheckVersion(p.rules, p.entries[name].manifest.value.dependencies[d], p.entries[d].manifest.value.version) {
        return Failed(Unsatisfied(name, d));
      }
      DependencyIsReachable(asked, name, d);
      o := Visit(d);
    }

    /** Takes up the next root. */
    method VisitRoot(i: nat) returns (o: Outcome)
      requires i < |p.roots| && asked == Upto(p, i) && Through(p, i, colors, stack, result)
      modifies this
      ensures asked == Upto(p, i + 1) && (o.Failed? ==> Truthful(p, o.failure))
      ensures o.Resolved? ==> Through(p, i + 1, colors, stack, result)
    {
      var name := p.roots[i];
      asked := NextRoot(p, i, colors, result);
      o := Visit(name);
      if o.Failed? {
        TruthfulOfMore(p, i + 1, o.failure);
      } else {
        ComesThrough(p, i, colors, stack, old(result), result);
      }
    }

    method VisitRoots() returns (o: Outcome)
      requires asked == Upto(p, 0) && colors == map[] && stack == [] && result == []
      modifies this
      ensures o.Resolved? ==> Resolves(p, result)
      ensures o.Failed? ==> Truthful(p, o.failure)
    {
      StartsWell(p);
      for i := 0 to |p.roots|
        invariant asked == Upto(p, i) && Through(p, i, colors, stack, result)
      {
        o := VisitRoot(i);
        if o.Failed? {
          return;
        }
      }
      EndsWell(p, colors, stack, result);
      return Resolved;
    }

    /** Resolves the roots, in their order; it succeeds exactly when there is a resolution. */
    method Resolve() returns (o: Outcome)
      requires asked == Upto(p, 0) && colors == map[] && stack == [] && result == []
      modifies this
      ensures o.Resolved? ==> Resolves(p, result)
      ensures o.Failed? ==> Truthful(p, o.failure)
      ensures o.Resolved? <==> exists xs :: Resolves(p, xs)
    {
      o := VisitRoots();
      if o.Failed? {
        forall xs
          ensures !Resolves(p, xs)
        {
          FailureMeansUnresolvable(p, o.failure, xs);
        }
      }
    }
  }

  /** The first i roots have been visited. */
  ghost predicate Through(p: Problem, i: nat, colors: map<string, Color>, stack: seq<string>, result: seq<string>) {
    i <= |p.roots| && stack == [] && Good(Upto(p, i), colors, stack, result) && (forall n | n in p.roots[..i] :: n in result) &&
    NoneOverruns(p, i)
  }

  ghost predicate NoneOverruns(p: Problem, i: nat)
    requires i <= |p.roots|
  {
    forall k | 0 <= k <= i :: !Overruns(p, k)
  }

  lemma ComesThrough(p: Problem, i: nat, colors: map<string, Color>, stack: seq<string>, before: seq<string>,
                     result: seq<string>)
    requires i < |p.roots| && stack == [] && Good(Upto(p, i + 1), colors, stack, result) && before <= result
    requires (forall n | n in p.roots[..i] :: n in before) && NoneOverruns(p, i) && p.roots[i] in result
    requires IsNew(Upto(p, i + 1)) ==> p.roots[i] !in before
    requires Governed(p, p.roots[i]) && p.roots[i] !in before ==> |result| + |stack| <= p.maxResolved
    ensures Through(p, i + 1, colors, stack, result)
  {
    RootIsIn(p, i, result);
    RootFits(p, i, before, result);
    assert NoneOverruns(p, i + 1);
  }

  lemma RootFits(p: Problem, i: nat, before: seq<string>, result: seq<string>)
    requires i < |p.roots| && IsPartial(Upto(p, i + 1), result) && forall n | n in p.roots[..i + 1] :: n in result
    requires IsNew(Upto(p, i + 1)) ==> p.roots[i] !in before
    requires Governed(p, p.roots[i]) && p.roots[i] !in before ==> |result| <= p.maxResolved
    ensures !Overruns(p, i + 1)
  {
    NoOverrun(p, i, result);
  }

  lemma StartsWell(p: Problem)
    ensures Through(p, 0, map[], [], [])
  {
  }

  lemma BecomesUsable(p: Problem, q: Problem, name: string)
    requires q == p.(roots := q.roots) && Governed(p, name) && name !in p.disabled
    requires CheckVersion(p.rules, p.entries[name].manifest.value.runtime, p.runtimeVersion)
    requires forall d | DependsOn(p, name, d) :: Satisfied(p, name, d)
    ensures Usable(q, name)
  {
    forall d | d in q.entries[name].manifest.value.dependencies
      ensures Satisfied(q, name, d)
    {
      assert DependsOn(p, name, d);
    }
  }

  lemma EndsWell(p: Problem, colors: map<string, Color>, stack: seq<string>, result: seq<string>)
    requires Through(p, |p.roots|, colors, stack, result)
    ensures Resolves(p, result)
  {
    assert Upto(p, |p.roots|) == p && p.roots[..|p.roots|] == p.roots;
    ClosureIsComplete(p, result);
  }

  lemma ClosureIsComplete(p: Problem, result: seq<string>)
    requires IsPartial(p, result) && forall n | n in p.roots :: n in result
    ensures forall n :: n in result <==> Reachable(p, n)
  {
    forall n | Reachable(p, n)
      ensures n in result
    {
      var path :| Leads(p, path, n);
      PathStaysIn(p, result, path, |path| - 1);
    }
  }

  lemma {:induction false} PathStaysIn(p: Problem, result: seq<string>, path: seq<string>, k: nat)
    requires IsPartial(p, result) && IsPath(p, path) && path[0] in result && k < |path|
    ensures path[k] in result
    decreases k
  {
    if k > 0 {
      PathStaysIn(p, result, path, k - 1);
      assert DependsOn(p, path[k - 1], path[k - 1 + 1]);
    }
  }
}
