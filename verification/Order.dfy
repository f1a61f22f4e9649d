/** The order of names, and lists that hold a set of names in that order. */
module Order {

  predicate Less(a: string, b: string) {
    b != [] && (a == [] || a[0] < b[0] || (a[0] == b[0] && Less(a[1..], b[1..])))
  }

  /** One text comes before another when it is a shorter beginning of it, or smaller where they first differ. */
  lemma {:induction false} LessMeans(a: string, b: string)
    ensures Less(a, b) <==> exists k: nat :: DiffersAt(a, b, k)
  {
    forall k: nat | DiffersAt(a, b, k) && k > 0
      ensures a[0] == b[0]
    {
      assert a[..k][0] == b[..k][0];
    }
    if b != [] && a != [] && a[0] == b[0] {
      LessMeans(a[1..], b[1..]);
      if k: nat :| DiffersAt(a[1..], b[1..], k) {
        assert a[..k + 1] == [a[0]] + a[1..][..k] && b[..k + 1] == [b[0]] + b[1..][..k];
        assert DiffersAt(a, b, k + 1);
      }
      if k: nat :| DiffersAt(a, b, k) {
        assert k > 0 && a[1..][..k - 1] == a[..k][1..] && b[1..][..k - 1] == b[..k][1..];
        assert DiffersAt(a[1..], b[1..], k - 1);
      }
    } else if b != [] && (a == [] || a[0] < b[0]) {
      assert DiffersAt(a, b, 0);
    }
  }

  predicate DiffersAt(a: string, b: string, k: nat) {
    k <= |a| && k < |b| && a[..k] == b[..k] && (k == |a| || a[k] < b[k])
  }

  lemma {:induction false} LessTransitive(a: string, b: string, c: string)
    requires Less(a, b) && Less(b, c)
    ensures Less(a, c)
  {
    if a != [] && a[0] == b[0] && b[0] == c[0] {
      LessTransitive(a[1..], b[1..], c[1..]);
    }
  }

  lemma {:induction false} LessIsStrict(a: string, b: string)
    ensures !(Less(a, b) && Less(b, a)) && !Less(a, a)
  {
    if a != [] {
      LessIsStrict(a[1..], if b == [] then [] else b[1..]);
    }
  }

  lemma {:induction false} LessIsTotal(a: string, b: string)
    ensures Less(a, b) || Less(b, a) || a == b
  {
    if a != [] && b != [] {
      LessIsTotal(a[1..], b[1..]);
      assert a == [a[0]] + a[1..] && b == [b[0]] + b[1..];
    }
  }

  predicate Ascending(xs: seq<string>) {
    forall i, j | 0 <= i < j < |xs| :: Less(xs[i], xs[j])
  }

  /** The one list of a set of names in order, each name once. */
  predicate Lists(xs: seq<string>, names: set<string>) {
    Ascending(xs) && (forall x | x in xs :: x in names) && (forall x | x in names :: x in xs)
  }

  lemma {:induction false} ListingIsUnique(xs: seq<string>, ys: seq<string>, names: set<string>)
    requires Lists(xs, names) && Lists(ys, names)
    ensures xs == ys
    decreases |xs|
  {
    assert xs != [] ==> xs[0] in xs;
    assert ys != [] ==> ys[0] in ys;
    if xs != [] {
      var i :| 0 <= i < |ys| && ys[i] == xs[0];
      var j :| 0 <= j < |xs| && xs[j] == ys[0];
      LessIsStrict(xs[0], ys[0]);
      assert i == 0 && j == 0;
      TailLists(xs, names);
      TailLists(ys, names);
      ListingIsUnique(xs[1..], ys[1..], names - {xs[0]});
      assert xs == [xs[0]] + xs[1..] && ys == [ys[0]] + ys[1..];
    }
  }

  lemma TailLists(xs: seq<string>, names: set<string>)
    requires Lists(xs, names) && xs != []
    ensures Lists(xs[1..], names - {xs[0]})
  {
    forall x | x in xs[1..]
      ensures x in names - {xs[0]}
    {
      var i :| 0 <= i < |xs[1..]| && xs[1..][i] == x;
      assert xs[1 + i] == x;
      LessIsStrict(xs[0], x);
    }
    forall x | x in names - {xs[0]}
      ensures x in xs[1..]
    {
      var i :| 0 <= i < |xs| && xs[i] == x;
      assert xs[1..][i - 1] == x;
    }
  }

  /** Where a name belongs in an ascending list. */
  method Search(xs: seq<string>, name: string) returns (at: nat)
    requires Ascending(xs)
    ensures at <= |xs|
    ensures forall i | 0 <= i < at :: Less(xs[i], name)
    ensures forall i | at <= i < |xs| :: !Less(xs[i], name)
    ensures name in xs <==> at < |xs| && xs[at] == name
  {
    var low, high := 0, |xs|;
    while low < high
      invariant low <= high <= |xs|
      invariant forall i | 0 <= i < low :: Less(xs[i], name)
      invariant forall i | high <= i < |xs| :: !Less(xs[i], name)
    {
      var middle := (low + high) / 2;
      if Less(xs[middle], name) {
        forall i | 0 <= i < middle {
          LessTransitive(xs[i], xs[middle], name);
        }
        low := middle + 1;
      } else {
        forall i | middle < i < |xs|
          ensures !Less(xs[i], name)
        {
          if Less(xs[i], name) {
            LessTransitive(xs[middle], xs[i], name);
          }
        }
        high := middle;
      }
    }
    at := low;
    if i :| 0 <= i < |xs| && xs[i] == name {
      LessIsStrict(name, name);
      if at < i {
        LessIsTotal(xs[at], name);
      }
    }
  }

  method List(names: set<string>) returns (xs: seq<string>)
    ensures Lists(xs, names)
  {
    xs := [];
    var rest := names;
    while rest != {}
      invariant rest <= names && Lists(xs, names - rest)
      decreases |rest|
    {
      var name :| name in rest;
      var at := Search(xs, name);
      InsertLists(xs, name, at, names - rest);
      xs := xs[..at] + [name] + xs[at..];
      rest := rest - {name};
      assert names - rest == (names - (rest + {name})) + {name};
    }
    assert names - {} == names;
  }

  lemma InsertLists(xs: seq<string>, name: string, at: nat, names: set<string>)
    requires Lists(xs, names) && name !in names && at <= |xs|
    requires forall i | 0 <= i < at :: Less(xs[i], name)
    requires forall i | at <= i < |xs| :: !Less(xs[i], name)
    ensures Lists(xs[..at] + [name] + xs[at..], names + {name})
  {
    var ys := xs[..at] + [name] + xs[at..];
    forall i | at <= i < |xs|
      ensures Less(name, xs[i])
    {
      LessIsTotal(xs[i], name);
      assert xs[i] in xs;
    }
    forall i, j | 0 <= i < j < |ys|
      ensures Less(ys[i], ys[j])
    {
      assert ys[i] == (if i < at then xs[i] else if i == at then name else xs[i - 1]);
      assert ys[j] == (if j < at then xs[j] else if j == at then name else xs[j - 1]);
    }
    forall x | x in ys
      ensures x in names + {name}
    {
      var i :| 0 <= i < |ys| && ys[i] == x;
      assert x == (if i < at then xs[i] else if i == at then name else xs[i - 1]);
      if i != at {
        assert x in xs;
      }
    }
    forall x | x in names + {name}
      ensures x in ys
    {
      if x == name {
        assert ys[at] == x;
      } else {
        var i :| 0 <= i < |xs| && xs[i] == x;
        assert ys[if i < at then i else i + 1] == x;
      }
    }
  }
}
