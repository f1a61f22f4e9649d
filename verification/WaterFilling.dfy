/** Sharing a pool of tokens among the results of a batch, smallest first. */
module WaterFilling {

  function Max(a: nat, b: nat): nat {
    if a > b then a else b
  }

  function Min(a: nat, b: nat): nat {
    if a < b then a else b
  }

  function Sum(xs: seq<nat>): nat {
    if xs == [] then 0 else Sum(xs[..|xs| - 1]) + xs[|xs| - 1]
  }

  predicate Sorted(sizes: seq<nat>) {
    forall i, j | 0 <= i < j < |sizes| :: sizes[i] <= sizes[j]
  }

  /** The share of each undecided result, at least one token. */
  function Waterline(remaining: nat, undecided: nat): nat {
    Max(1, remaining / Max(1, undecided))
  }

  function Allocation(size: nat, waterline: nat, itemCap: nat): nat {
    Max(1, Min(Min(size, waterline), itemCap))
  }

  function Spend(remaining: nat, allocation: nat): nat {
    remaining - Min(remaining, allocation)
  }

  /** A result cut below both its size and the cap, by the waterline alone. */
  predicate Cut(size: nat, itemCap: nat, allocation: nat) {
    allocation < size && allocation < itemCap
  }

  lemma DivBound(remaining: nat, q: nat, n: nat)
    requires n > 0
    ensures q <= remaining / n <==> q * n <= remaining
  {
    if q <= remaining / n {
      assert remaining / n * n <= remaining;
      Times(q, remaining / n, n);
    } else {
      Times(remaining / n + 1, q, n);
      assert remaining < (remaining / n + 1) * n;
    }
  }

  lemma Times(a: nat, b: nat, n: nat)
    requires a <= b
    ensures a * n <= b * n
  {
  }

  lemma OneLess(q: nat, n: nat)
    requires n > 0
    ensures q * n == q * (n - 1) + q
  {
  }

  /** The waterline never falls. */
  lemma WaterlineRises(remaining: nat, undecided: nat, allocation: nat)
    requires undecided > 0 && allocation <= Waterline(remaining, undecided)
    ensures undecided > 1 ==> Waterline(remaining, undecided) <= Waterline(Spend(remaining, allocation), undecided - 1)
  {
    var q := remaining / undecided;
    if undecided > 1 && q >= 1 {
      DivBound(remaining, q, undecided);
      OneLess(q, undecided);
      DivBound(Spend(remaining, allocation), q, undecided - 1);
    }
  }

  /** While the pool holds a token for each undecided result it still does after one is decided,
      and nobody is given more than there is. */
  lemma PoolSuffices(remaining: nat, undecided: nat, allocation: nat)
    requires 0 < undecided <= remaining && allocation <= Waterline(remaining, undecided)
    ensures allocation <= remaining && undecided - 1 <= Spend(remaining, allocation)
  {
    var q := remaining / undecided;
    DivBound(remaining, 1, undecided);
    DivBound(remaining, q, undecided);
    OneLess(q, undecided);
    Times(1, q, undecided - 1);
  }

  /** After the first cut at level q the pool is q or q + 1 tokens for each undecided result. */
  predicate Level(q: nat, remaining: nat, undecided: nat) {
    q * undecided <= remaining <= (q + 1) * undecided
  }

  lemma LevelHolds(q: nat, remaining: nat, undecided: nat, allocation: nat)
    requires q >= 1 && undecided > 0 && Level(q, remaining, undecided)
    requires allocation == if remaining / undecided == q then q else q + 1
    ensures allocation <= remaining && Level(q, Spend(remaining, allocation), undecided - 1)
  {
    OneLess(q, undecided);
    OneLess(q + 1, undecided);
    Times(1, undecided, q);
    Times(q, q + 1, undecided - 1);
    DivBound(remaining, q, undecided);
    DivBound(remaining, q + 1, undecided);
    if remaining / undecided != q {
      assert remaining == (q + 1) * undecided;
    } else {
      assert remaining < (q + 1) * undecided;
    }
  }

  lemma LevelLine(q: nat, remaining: nat, undecided: nat)
    requires undecided > 0 && Level(q, remaining, undecided)
    ensures remaining / undecided == q || remaining / undecided == q + 1
  {
    DivBound(remaining, q, undecided);
    DivBound(remaining, q + 2, undecided);
    OneMore(q + 1, undecided);
  }

  lemma OneMore(q: nat, n: nat)
    ensures (q + 1) * n == q * n + n
  {
  }

  lemma LevelStarts(remaining: nat, undecided: nat)
    requires undecided > 0
    ensures Level(remaining / undecided, remaining, undecided)
  {
    DivBound(remaining, remaining / undecided, undecided);
    DivBound(remaining, remaining / undecided + 1, undecided);
  }

  // ---- A whole batch ----

  /** What the loop does: `pools[k]` is what is left before result k is decided. */
  ghost predicate Pours(sizes: seq<nat>, itemCap: nat, total: nat, shares: seq<nat>, pools: seq<nat>) {
    |shares| <= |sizes| && |pools| == |shares| + 1 && pools[0] == total &&
    forall k | 0 <= k < |shares| ::
      shares[k] == Allocation(sizes[k], Waterline(pools[k], |sizes| - k), itemCap) && pools[k + 1] == Spend(pools[k], shares[k])
  }

  function Line(sizes: seq<nat>, pools: seq<nat>, k: nat): nat
    requires k < |sizes| && k < |pools|
  {
    Waterline(pools[k], |sizes| - k)
  }

  lemma {:induction false} LinesRise(sizes: seq<nat>, itemCap: nat, total: nat, shares: seq<nat>, pools: seq<nat>,
                                     i: nat, j: nat)
    requires Pours(sizes, itemCap, total, shares, pools) && i <= j < |shares|
    ensures Line(sizes, pools, i) <= Line(sizes, pools, j)
    decreases j - i
  {
    if i < j {
      LinesRise(sizes, itemCap, total, shares, pools, i, j - 1);
      WaterlineRises(pools[j - 1], |sizes| - (j - 1), shares[j - 1]);
      assert pools[j - 1 + 1] == Spend(pools[j - 1], shares[j - 1]);
    }
  }

  lemma {:induction false} PoolDrains(sizes: seq<nat>, itemCap: nat, total: nat, shares: seq<nat>, pools: seq<nat>,
                                      k: nat)
    requires Pours(sizes, itemCap, total, shares, pools) && k <= |shares|
    ensures if total >= |sizes| then Sum(shares[..k]) + pools[k] == total && |sizes| - k <= pools[k]
            else Sum(shares[..k]) == k && pools[k] <= |sizes| - k
    decreases k
  {
    if k > 0 {
      PoolDrains(sizes, itemCap, total, shares, pools, k - 1);
      assert shares[..k][..k - 1] == shares[..k - 1];
      assert pools[k - 1 + 1] == Spend(pools[k - 1], shares[k - 1]);
      if total >= |sizes| {
        PoolSuffices(pools[k - 1], |sizes| - (k - 1), shares[k - 1]);
      } else {
        DivBound(pools[k - 1], 2, |sizes| - (k - 1));
      }
    }
  }

  /** One turn at the level: the share is the level or one more, and the level holds. */
  lemma LevelTurn(q: nat, remaining: nat, undecided: nat, size: nat, itemCap: nat, share: nat)
    requires q >= 1 && undecided > 0 && Level(q, remaining, undecided) && q < size && q < itemCap
    requires share == Allocation(size, Waterline(remaining, undecided), itemCap)
    ensures q <= share <= q + 1 && Level(q, Spend(remaining, share), undecided - 1)
  {
    LevelLine(q, remaining, undecided);
    LevelHolds(q, remaining, undecided, share);
  }

  lemma LevelBegins(remaining: nat, undecided: nat, size: nat, itemCap: nat, share: nat)
    requires 0 < undecided <= remaining && share == Allocation(size, Waterline(remaining, undecided), itemCap) && Cut(size, itemCap, share)
    ensures share >= 1 && Level(share, remaining, undecided)
  {
    DivBound(remaining, 1, undecided);
    LevelStarts(remaining, undecided);
  }

  lemma {:induction false} LevelStays(sizes: seq<nat>, itemCap: nat, total: nat, shares: seq<nat>, pools: seq<nat>,
                                      c: nat, k: nat)
    requires Pours(sizes, itemCap, total, shares, pools) && Sorted(sizes) && total >= |sizes|
    requires c <= k <= |shares| && c < |shares| && Cut(sizes[c], itemCap, shares[c])
    ensures shares[c] >= 1 && Level(shares[c], pools[k], |sizes| - k)
    ensures k < |shares| ==> shares[c] <= shares[k] <= shares[c] + 1
    decreases k - c
  {
    var q := shares[c];
    if k == c {
      PoolDrains(sizes, itemCap, total, shares, pools, c);
      LevelBegins(pools[c], |sizes| - c, sizes[c], itemCap, q);
    } else {
      LevelStays(sizes, itemCap, total, shares, pools, c, k - 1);
      assert pools[k - 1 + 1] == Spend(pools[k - 1], shares[k - 1]);
      assert sizes[c] <= sizes[k - 1];
      LevelTurn(q, pools[k - 1], |sizes| - (k - 1), sizes[k - 1], itemCap, shares[k - 1]);
      if k < |shares| {
        assert sizes[c] <= sizes[k];
        LevelTurn(q, pools[k], |sizes| - k, sizes[k], itemCap, shares[k]);
      }
    }
  }

  /** Shares the pool among results in ascending order of size. */
  method Share(sizes: seq<nat>, itemTokens: nat, total: nat) returns (shares: seq<nat>, ghost pools: seq<nat>)
    requires total > 0
    ensures |shares| == |sizes| && Pours(sizes, Max(1, itemTokens), total, shares, pools)
  {
    var remaining, undecided := total, |sizes|;
    var itemCap := Max(1, itemTokens);
    shares, pools := [], [total];
    for i := 0 to |sizes|
      invariant undecided == |sizes| - i && |shares| == i
      invariant Pours(sizes, itemCap, total, shares, pools) && remaining == pools[i]
    {
      var waterline := Max(1, remaining / Max(1, undecided));
      var allocation := Max(1, Min(Min(sizes[i], waterline), itemCap));
      shares := shares + [allocation];
      remaining := remaining - Min(remaining, allocation);
      undecided := undecided - 1;
      pools := pools + [remaining];
    }
  }

  /** The batch never takes more than the pool, or than one token for each result. */
  lemma PoolIsNotExceeded(sizes: seq<nat>, itemCap: nat, total: nat, shares: seq<nat>, pools: seq<nat>)
    requires Pours(sizes, itemCap, total, shares, pools) && |shares| == |sizes|
    ensures Sum(shares) <= Max(total, |sizes|)
  {
    PoolDrains(sizes, itemCap, total, shares, pools, |shares|);
    assert shares[..|shares|] == shares;
  }

  /** Every result gets at least what an equal split would give it, as far as it can use it. */
  lemma NoWorseThanEqualSplit(sizes: seq<nat>, itemCap: nat, total: nat, shares: seq<nat>, pools: seq<nat>, i: nat)
    requires Pours(sizes, itemCap, total, shares, pools) && i < |shares|
    ensures shares[i] >= Max(1, Min(Min(sizes[i], itemCap), total / |sizes|))
  {
    LinesRise(sizes, itemCap, total, shares, pools, 0, i);
  }

  /** Waterlines, and with them shares, never fall along the order of size. */
  lemma SharesRise(sizes: seq<nat>, itemCap: nat, total: nat, shares: seq<nat>, pools: seq<nat>, i: nat, j: nat)
    requires Pours(sizes, itemCap, total, shares, pools) && Sorted(sizes) && i <= j < |shares|
    ensures Line(sizes, pools, i) <= Line(sizes, pools, j) && shares[i] <= shares[j]
  {
    LinesRise(sizes, itemCap, total, shares, pools, i, j);
    assert i < j ==> sizes[i] <= sizes[j];
  }

  /** Once a result is cut the pool is spent to the last token, and everything decided from there on
      gets the same share, give or take one. */
  lemma CutsSpendThePool(sizes: seq<nat>, itemCap: nat, total: nat, shares: seq<nat>, pools: seq<nat>, c: nat)
    requires Pours(sizes, itemCap, total, shares, pools) && |shares| == |sizes| && Sorted(sizes) && total >= |sizes|
    requires c < |sizes| && Cut(sizes[c], itemCap, shares[c])
    ensures Sum(shares) == total
    ensures forall i, j | c <= i <= j < |sizes| :: shares[i] <= shares[j] <= shares[i] + 1
  {
    SpentToTheLast(sizes, itemCap, total, shares, pools, c);
    forall i, j | c <= i <= j < |sizes| {
      CutsLevel(sizes, itemCap, total, shares, pools, c, i, j);
    }
  }

  lemma SpentToTheLast(sizes: seq<nat>, itemCap: nat, total: nat, shares: seq<nat>, pools: seq<nat>, c: nat)
    requires Pours(sizes, itemCap, total, shares, pools) && |shares| == |sizes| && Sorted(sizes) && total >= |sizes|
    requires c < |sizes| && Cut(sizes[c], itemCap, shares[c])
    ensures Sum(shares) == total
  {
    var n := |sizes|;
    LevelStays(sizes, itemCap, total, shares, pools, c, n);
    PoolDrains(sizes, itemCap, total, shares, pools, n);
    assert shares[..n] == shares;
  }

  lemma CutsLevel(sizes: seq<nat>, itemCap: nat, total: nat, shares: seq<nat>, pools: seq<nat>, c: nat, i: nat, j: nat)
    requires Pours(sizes, itemCap, total, shares, pools) && Sorted(sizes) && total >= |sizes|
    requires c <= i <= j < |shares| && Cut(sizes[c], itemCap, shares[c])
    ensures shares[i] <= shares[j] <= shares[i] + 1
  {
    LevelStays(sizes, itemCap, total, shares, pools, c, i);
    LevelStays(sizes, itemCap, total, shares, pools, c, j);
    SharesRise(sizes, itemCap, total, shares, pools, i, j);
  }

  /** A result is cut only when the results together want more than the pool holds. */
  lemma CutsOnlyWhenShort(sizes: seq<nat>, itemCap: nat, total: nat, shares: seq<nat>, pools: seq<nat>, c: nat)
    requires Pours(sizes, itemCap, total, shares, pools) && |shares| == |sizes| && Sorted(sizes) && total >= |sizes|
    requires c < |sizes| && Cut(sizes[c], itemCap, shares[c])
    ensures total < Sum(Wants(sizes, itemCap))
  {
    CutsSpendThePool(sizes, itemCap, total, shares, pools, c);
    SumLess(shares, Wants(sizes, itemCap), c);
  }

  function Wants(sizes: seq<nat>, itemCap: nat): (wants: seq<nat>)
    ensures |wants| == |sizes| && forall i | 0 <= i < |sizes| :: wants[i] == Max(1, Min(sizes[i], itemCap))
  {
    seq(|sizes|, i requires 0 <= i < |sizes| => Max(1, Min(sizes[i], itemCap)))
  }

  lemma {:induction false} SumLess(xs: seq<nat>, ys: seq<nat>, c: nat)
    requires |xs| == |ys| && c < |xs| && xs[c] < ys[c] && forall i | 0 <= i < |xs| :: xs[i] <= ys[i]
    ensures Sum(xs) < Sum(ys)
    decreases |xs|
  {
    var last := |xs| - 1;
    if c == last {
      SumAtMost(xs[..last], ys[..last]);
    } else {
      SumLess(xs[..last], ys[..last], c);
    }
  }

  lemma {:induction false} SumAtMost(xs: seq<nat>, ys: seq<nat>)
    requires |xs| == |ys| && forall i | 0 <= i < |xs| :: xs[i] <= ys[i]
    ensures Sum(xs) <= Sum(ys)
  {
    if xs != [] {
      SumAtMost(xs[..|xs| - 1], ys[..|ys| - 1]);
    }
  }
}
