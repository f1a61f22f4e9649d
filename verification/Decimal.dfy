/** Numbers as decimal digits. */
module Decimal {
  import opened Utf8

  predicate Digit(b: byte) {
    0x30 <= b < 0x3A
  }

  function DigitOf(n: nat): byte
    requires n < 10
  {
    0x30 + n
  }

  /** The digits of n, with no leading zero. */
  function Print(n: nat): (s: seq<byte>)
    ensures s != [] && (forall b | b in s :: Digit(b)) && (|s| > 1 ==> s[0] != 0x30)
  {
    if n < 10 then [DigitOf(n)] else Print(n / 10) + [DigitOf(n % 10)]
  }

  datatype Parsed = Number(value: nat) | Malformed

  function Parse(s: seq<byte>): Parsed {
    if s == [] || !Digit(s[|s| - 1]) then Malformed
    else if |s| == 1 then Number(s[0] - 0x30)
    else
      match Parse(s[..|s| - 1])
      case Malformed => Malformed
      case Number(high) => Number(high * 10 + (s[|s| - 1] - 0x30))
  }

  lemma {:induction false} ParsePrint(n: nat)
    ensures Parse(Print(n)) == Number(n)
  {
    if n >= 10 {
      ParsePrint(n / 10);
      assert Print(n)[..|Print(n)| - 1] == Print(n / 10);
    }
  }

  /** What parses is one digit or more, and a leading zero counts for nothing. */
  lemma {:induction false} ParseMeans(s: seq<byte>)
    ensures Parse(s).Number? <==> s != [] && forall i | 0 <= i < |s| :: Digit(s[i])
  {
    if |s| > 1 {
      var init := s[..|s| - 1];
      ParseMeans(init);
      assert s == init + [s[|s| - 1]];
    }
  }

  lemma {:induction false} ParseAfterZero(s: seq<byte>)
    requires s != []
    ensures Parse([0x30] + s) == Parse(s)
  {
    var t := [0x30] + s;
    if |s| == 1 {
      assert t[..1] == [0x30];
    } else {
      ParseAfterZero(s[..|s| - 1]);
      assert t[..|t| - 1] == [0x30] + s[..|s| - 1];
    }
  }

  predicate Ascii(s: seq<byte>) {
    forall i | 0 <= i < |s| :: s[i] < 0x80
  }

  lemma {:induction false} AsciiIsValid(s: seq<byte>)
    requires Ascii(s)
    ensures Valid(s) && RuneCount(s) == |s|
  {
    if s != [] {
      AsciiIsValid(s[1..]);
    }
  }
}
