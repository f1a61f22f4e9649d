/** Leaving out the white space around a field or a text. */
module Trimming {
  import opened Utf8

  const SPACE: byte := 32

  predicate Blank(b: byte) {
    b == SPACE || 9 <= b <= 13
  }

  function TrimLeft<T>(blank: T -> bool, s: seq<T>): seq<T> {
    if s != [] && blank(s[0]) then TrimLeft(blank, s[1..]) else s
  }

  function TrimRight<T>(blank: T -> bool, s: seq<T>): seq<T> {
    if s != [] && blank(s[|s| - 1]) then TrimRight(blank, s[..|s| - 1]) else s
  }

  function TrimBoth<T>(blank: T -> bool, s: seq<T>): seq<T> {
    TrimRight(blank, TrimLeft(blank, s))
  }

  predicate AllBlank<T>(blank: T -> bool, s: seq<T>) {
    forall i | 0 <= i < |s| :: blank(s[i])
  }

  predicate Trimmed<T(==)>(blank: T -> bool, s: seq<T>, left: seq<T>, kept: seq<T>, right: seq<T>) {
    s == left + kept + right && AllBlank(blank, left) && AllBlank(blank, right) &&
    (kept != [] ==> !blank(kept[0]) && !blank(kept[|kept| - 1]))
  }

  lemma {:induction false} TrimLeftMeans<T>(blank: T -> bool, s: seq<T>) returns (left: seq<T>)
    ensures s == left + TrimLeft(blank, s) && AllBlank(blank, left)
    ensures TrimLeft(blank, s) != [] ==> !blank(TrimLeft(blank, s)[0])
  {
    left := [];
    if s != [] && blank(s[0]) {
      var more := TrimLeftMeans(blank, s[1..]);
      left := [s[0]] + more;
    }
  }

  lemma {:induction false} TrimRightMeans<T>(blank: T -> bool, s: seq<T>) returns (right: seq<T>)
    ensures s == TrimRight(blank, s) + right && AllBlank(blank, right)
    ensures TrimRight(blank, s) != [] ==> !blank(TrimRight(blank, s)[|TrimRight(blank, s)| - 1])
  {
    right := [];
    if s != [] && blank(s[|s| - 1]) {
      var more := TrimRightMeans(blank, s[..|s| - 1]);
      right := more + [s[|s| - 1]];
    }
  }

  /** What is left out is blank, and what is kept neither begins nor ends with a blank. */
  lemma TrimMeans<T>(blank: T -> bool, s: seq<T>) returns (left: seq<T>, right: seq<T>)
    ensures Trimmed(blank, s, left, TrimBoth(blank, s), right)
  {
    left := TrimLeftMeans(blank, s);
    var mid := TrimLeft(blank, s);
    right := TrimRightMeans(blank, mid);
    var kept := TrimRight(blank, mid);
    assert kept != [] ==> kept[0] == mid[0];
    assert s == left + kept + right;
  }

  lemma {:induction false} TrimLeftSkips<T>(blank: T -> bool, a: seq<T>, s: seq<T>)
    requires AllBlank(blank, a)
    ensures TrimLeft(blank, a + s) == TrimLeft(blank, s)
  {
    if a == [] {
      assert a + s == s;
    } else {
      assert (a + s)[1..] == a[1..] + s;
      TrimLeftSkips(blank, a[1..], s);
    }
  }

  lemma {:induction false} TrimRightSkips<T>(blank: T -> bool, s: seq<T>, b: seq<T>)
    requires AllBlank(blank, b)
    ensures TrimRight(blank, s + b) == TrimRight(blank, s)
  {
    if b == [] {
      assert s + b == s;
    } else {
      var last := |b| - 1;
      assert (s + b)[..|s + b| - 1] == s + b[..last];
      TrimRightSkips(blank, s, b[..last]);
    }
  }

  /** There is only one way to trim a text. */
  lemma TrimIs<T>(blank: T -> bool, s: seq<T>, left: seq<T>, kept: seq<T>, right: seq<T>)
    requires Trimmed(blank, s, left, kept, right)
    ensures TrimBoth(blank, s) == kept
  {
    assert s == left + (kept + right);
    TrimLeftSkips(blank, left, kept + right);
    if kept == [] {
      assert kept + right == right && right + [] == right;
      TrimLeftSkips(blank, right, []);
    } else {
      TrimRightSkips(blank, kept, right);
    }
  }

  function Trim(s: seq<byte>): seq<byte> {
    TrimBoth(Blank, s)
  }

  lemma TrimKeeps(s: seq<byte>)
    requires s != [] && !Blank(s[0]) && !Blank(s[|s| - 1])
    ensures Trim(s) == s
  {
  }
}
