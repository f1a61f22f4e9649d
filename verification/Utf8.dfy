/** UTF-8 as bytes (RFC 3629, sections 3 and 4): where runes begin and end, what is valid, and how
    many runes a string counts. */
module Utf8 {

  type byte = x: int | 0 <= x < 256

  /** A text of ASCII characters as bytes. */
  function Bytes(text: string): (s: seq<byte>)
    requires forall i | 0 <= i < |text| :: text[i] as int < 0x80
    ensures |s| == |text| && forall i | 0 <= i < |s| :: s[i] == text[i] as int
  {
    seq(|text|, i requires 0 <= i < |text| => text[i] as int as byte)
  }

  predicate Continues(b: byte) {
    0x80 <= b < 0xC0
  }

  /** The length a first byte announces, 0 if no rune begins with it. */
  function Announced(b: byte): nat {
    if b < 0x80 then 1 else if 0xC2 <= b < 0xE0 then 2 else if 0xE0 <= b < 0xF0 then 3 else if 0xF0 <= b < 0xF5 then 4 else 0
  }

  /** What may follow a first byte: no overlong forms, no surrogates, nothing past U+10FFFF. */
  predicate Second(first: byte, b: byte) {
    Continues(b) &&
    (first == 0xE0 ==> b >= 0xA0) && (first == 0xED ==> b < 0xA0) && (first == 0xF0 ==> b >= 0x90) && (first == 0xF4 ==> b < 0x90)
  }

  /** The length of the rune a string begins with, 0 if it begins with none. */
  function RuneLen(s: seq<byte>): (w: nat)
    requires s != []
    ensures w <= 4 && w <= |s|
  {
    var w := Announced(s[0]);
    if w > |s| || (w > 1 && !Second(s[0], s[1])) || (w > 2 && !Continues(s[2])) || (w > 3 && !Continues(s[3])) then 0 else w
  }

  predicate Valid(s: seq<byte>) {
    s == [] || (RuneLen(s) > 0 && Valid(s[RuneLen(s)..]))
  }

  function Step(s: seq<byte>): (w: nat)
    requires s != []
    ensures 1 <= w <= |s|
  {
    if RuneLen(s) == 0 then 1 else RuneLen(s)
  }

  /** Every byte that begins no rune counts as one. */
  function RuneCount(s: seq<byte>): nat {
    if s == [] then 0 else 1 + RuneCount(s[Step(s)..])
  }

  // ---- Encoding ----

  predicate CodePoint(c: int) {
    0 <= c < 0xD800 || 0xE000 <= c < 0x110000
  }

  function Lead(mark: int, c: int): byte
    requires 0 <= c && 0 <= mark && mark + c < 256
  {
    mark + c
  }

  function Trail(c: int): byte
    requires 0 <= c
  {
    0x80 + c % 0x40
  }

  function Encode(c: int): (s: seq<byte>)
    requires CodePoint(c)
    ensures s != []
  {
    if c < 0x80 then [c]
    else if c < 0x800 then [Lead(0xC0, c / 0x40), Trail(c)]
    else if c < 0x10000 then [Lead(0xE0, c / 0x1000), Trail(c / 0x40), Trail(c)]
    else [Lead(0xF0, c / 0x40000), Trail(c / 0x1000), Trail(c / 0x40), Trail(c)]
  }

  function Bits(b: byte): int {
    b - 0x80
  }

  function Decode(s: seq<byte>): int
    requires s != [] && RuneLen(s) > 0
  {
    var lead: int := s[0];
    if RuneLen(s) == 1 then lead
    else if RuneLen(s) == 2 then (lead - 0xC0) * 0x40 + Bits(s[1])
    else if RuneLen(s) == 3 then (lead - 0xE0) * 0x1000 + Bits(s[1]) * 0x40 + Bits(s[2])
    else (lead - 0xF0) * 0x40000 + Bits(s[1]) * 0x1000 + Bits(s[2]) * 0x40 + Bits(s[3])
  }

  lemma ThreeBytes(c: int)
    requires 0x800 <= c < 0x10000 && CodePoint(c)
    ensures Announced(Lead(0xE0, c / 0x1000)) == 3 && Second(Lead(0xE0, c / 0x1000), Trail(c / 0x40))
  {
    assert c / 0x40 == c / 0x1000 * 0x40 + c / 0x40 % 0x40;
  }

  lemma FourBytes(c: int)
    requires 0x10000 <= c < 0x110000
    ensures Announced(Lead(0xF0, c / 0x40000)) == 4 && Second(Lead(0xF0, c / 0x40000), Trail(c / 0x1000))
  {
    assert c / 0x1000 == c / 0x40000 * 0x40 + c / 0x1000 % 0x40;
  }

  lemma BeginsRune(s: seq<byte>, t: seq<byte>)
    requires 1 <= |s| == Announced(s[0]) && (|s| > 1 ==> Second(s[0], s[1])) && forall i | 1 < i < |s| :: Continues(s[i])
    ensures RuneLen(s + t) == |s|
  {
  }

  lemma EncodeBeginsRune(c: int, t: seq<byte>)
    requires CodePoint(c)
    ensures RuneLen(Encode(c) + t) == |Encode(c)|
  {
    if 0x800 <= c < 0x10000 {
      ThreeBytes(c);
    } else if 0x10000 <= c {
      FourBytes(c);
    }
    BeginsRune(Encode(c), t);
  }

  /** Six bits at a time, the parts of a sum are read off again. */
  lemma SixBits(high: nat, low: nat)
    requires low < 0x40
    ensures (high * 0x40 + low) / 0x40 == high && (high * 0x40 + low) % 0x40 == low
  {
  }

  lemma DecodeThree(s: seq<byte>, c: int)
    requires |s| >= 3 && Announced(s[0]) == 3 && Second(s[0], s[1]) && Continues(s[2])
    requires c == ((s[0] as int - 0xE0) * 0x40 + Bits(s[1])) * 0x40 + Bits(s[2])
    ensures 0x800 <= c < 0x10000 && CodePoint(c) && Encode(c) == [s[0], s[1], s[2]]
  {
    var high := s[0] as int - 0xE0;
    SixBits(high * 0x40 + Bits(s[1]), Bits(s[2]));
    SixBits(high, Bits(s[1]));
    assert c / 0x1000 == high;
  }

  lemma DecodeFour(s: seq<byte>, c: int)
    requires |s| >= 4 && Announced(s[0]) == 4 && Second(s[0], s[1]) && Continues(s[2]) && Continues(s[3])
    requires c == (((s[0] as int - 0xF0) * 0x40 + Bits(s[1])) * 0x40 + Bits(s[2])) * 0x40 + Bits(s[3])
    ensures 0x10000 <= c < 0x110000 && Encode(c) == [s[0], s[1], s[2], s[3]]
  {
    var high := s[0] as int - 0xF0;
    SixBits((high * 0x40 + Bits(s[1])) * 0x40 + Bits(s[2]), Bits(s[3]));
    SixBits(high * 0x40 + Bits(s[1]), Bits(s[2]));
    SixBits(high, Bits(s[1]));
    assert c / 0x1000 == high * 0x40 + Bits(s[1]) && c / 0x40000 == high;
  }

  lemma DecodeEncodes(s: seq<byte>)
    requires s != [] && RuneLen(s) > 0
    ensures CodePoint(Decode(s)) && Encode(Decode(s)) == s[..RuneLen(s)]
  {
    var w, c := RuneLen(s), Decode(s);
    if w == 2 {
      SixBits(s[0] as int - 0xC0, Bits(s[1]));
    } else if w == 3 {
      DecodeThree(s, c);
    } else if w == 4 {
      DecodeFour(s, c);
    }
  }

  predicate Text(cs: seq<int>) {
    forall c | c in cs :: CodePoint(c)
  }

  function EncodeAll(cs: seq<int>): seq<byte>
    requires Text(cs)
  {
    if cs == [] then [] else Encode(cs[0]) + EncodeAll(cs[1..])
  }

  /** An encoded text is valid and counts its code points. */
  lemma {:induction false} EncodedIsValid(cs: seq<int>)
    requires Text(cs)
    ensures Valid(EncodeAll(cs)) && RuneCount(EncodeAll(cs)) == |cs|
  {
    if cs != [] {
      var tail := EncodeAll(cs[1..]);
      EncodedIsValid(cs[1..]);
      EncodeBeginsRune(cs[0], tail);
      assert (Encode(cs[0]) + tail)[|Encode(cs[0])|..] == tail;
    }
  }

  /** Every valid string is the encoding of a text. */
  lemma {:induction false} ValidIsEncoded(s: seq<byte>) returns (cs: seq<int>)
    requires Valid(s)
    ensures Text(cs) && EncodeAll(cs) == s
  {
    if s == [] {
      cs := [];
    } else {
      var rest := ValidIsEncoded(s[RuneLen(s)..]);
      DecodeEncodes(s);
      cs := [Decode(s)] + rest;
      assert cs[1..] == rest && s == s[..RuneLen(s)] + s[RuneLen(s)..];
    }
  }

  // ---- Cutting and joining ----

  lemma RuneLenGrows(a: seq<byte>, b: seq<byte>)
    requires a != [] && RuneLen(a) > 0
    ensures RuneLen(a + b) == RuneLen(a)
  {
  }

  lemma RuneLenShrinks(a: seq<byte>, b: seq<byte>)
    requires a != [] && RuneLen(a + b) <= |a|
    ensures RuneLen(a) == RuneLen(a + b)
  {
  }

  lemma Drop(a: seq<byte>, b: seq<byte>, w: nat)
    requires w <= |a|
    ensures (a + b)[w..] == a[w..] + b
  {
  }

  /** What a valid string is followed by neither makes nor breaks its runes. */
  lemma {:induction false} ValidJoin(a: seq<byte>, b: seq<byte>)
    requires Valid(a)
    ensures Valid(a + b) <==> Valid(b)
    ensures RuneCount(a + b) == RuneCount(a) + RuneCount(b)
  {
    if a == [] {
      assert a + b == b;
    } else {
      RuneLenGrows(a, b);
      Drop(a, b, RuneLen(a));
      ValidJoin(a[RuneLen(a)..], b);
    }
  }

  /** Counts add up wherever the second part does not begin inside a rune. */
  lemma {:induction false} CountJoin(a: seq<byte>, b: seq<byte>)
    requires b == [] || !Continues(b[0])
    ensures RuneCount(a + b) == RuneCount(a) + RuneCount(b)
    decreases |a|
  {
    if a == [] {
      assert a + b == b;
    } else {
      var w := RuneLen(a + b);
      RuneLenShrinks(a, b);
      Drop(a, b, Step(a));
      CountJoin(a[Step(a)..], b);
    }
  }

  predicate Boundary(s: seq<byte>, p: nat) {
    p == 0 || p == |s| || (p < |s| && !Continues(s[p]))
  }

  /** Nothing valid ends or begins inside a rune. */
  lemma InsideRune(s: seq<byte>, p: nat)
    requires s != [] && 0 < p < RuneLen(s)
    ensures Continues(s[p]) && !Valid(s[p..]) && !Valid(s[..p])
  {
    assert s[p..][0] == s[p];
    assert s[..p] + s[p..] == s;
    assert RuneLen(s[..p]) == 0;
  }

  lemma PastRune(s: seq<byte>, p: nat)
    requires s != [] && 0 < RuneLen(s) <= p <= |s|
    ensures s[RuneLen(s)..][p - RuneLen(s)..] == s[p..]
    ensures Valid(s[..p]) <==> Valid(s[RuneLen(s)..][..p - RuneLen(s)])
  {
    var w := RuneLen(s);
    assert s[..p][w..] == s[w..][..p - w] && s[..p] + s[p..] == s;
    RuneLenShrinks(s[..p], s[p..]);
  }

  /** In a valid string the boundaries between runes are told by one byte. */
  lemma {:induction false} BoundarySplits(s: seq<byte>, p: nat)
    requires Valid(s) && p <= |s|
    ensures Boundary(s, p) <==> Valid(s[p..])
    ensures Boundary(s, p) <==> Valid(s[..p])
    decreases |s|
  {
    if p == 0 {
      assert s[p..] == s && s[..p] == [];
    } else if p < RuneLen(s) {
      InsideRune(s, p);
    } else {
      var w := RuneLen(s);
      PastRune(s, p);
      BoundarySplits(s[w..], p - w);
      assert w < p < |s| ==> s[w..][p - w] == s[p];
      assert w == p < |s| ==> s[w..][0] == s[p];
    }
  }

  /** Of two valid prefixes the longer counts no fewer runes. */
  lemma LongerPrefixCountsMore(s: seq<byte>, i: nat, j: nat)
    requires i <= j <= |s| && Valid(s[..i]) && Valid(s[..j])
    ensures RuneCount(s[..i]) <= RuneCount(s[..j])
  {
    assert s[..j] == s[..i] + s[i..j];
    ValidJoin(s[..i], s[i..j]);
  }

  // ---- The widest rune ----

  function Widest(s: seq<byte>): nat {
    if s == [] then 0
    else
      var rest := Widest(s[Step(s)..]);
      if Step(s) > rest then Step(s) else rest
  }

  lemma {:induction false} WidestBounds(s: seq<byte>)
    ensures Widest(s) <= 4 && Widest(s) <= |s|
  {
    if s != [] {
      WidestBounds(s[Step(s)..]);
    }
  }

  lemma {:induction false} WidestJoin(a: seq<byte>, b: seq<byte>)
    requires Valid(a)
    ensures Widest(a + b) == if Widest(a) > Widest(b) then Widest(a) else Widest(b)
  {
    if a == [] {
      assert a + b == b;
    } else {
      RuneLenGrows(a, b);
      Drop(a, b, RuneLen(a));
      WidestJoin(a[RuneLen(a)..], b);
    }
  }

  // ---- What JSON makes of bytes that are no text ----

  /** U+FFFD. */
  const REPLACEMENT: seq<byte> := [0xEF, 0xBF, 0xBD]

  /** Every byte that begins no rune is replaced. */
  function Scrub(s: seq<byte>): seq<byte> {
    if s == [] then []
    else if RuneLen(s) == 0 then REPLACEMENT + Scrub(s[1..])
    else s[..RuneLen(s)] + Scrub(s[RuneLen(s)..])
  }

  lemma ReplacementIsRune(t: seq<byte>)
    ensures RuneLen(REPLACEMENT + t) == 3 && (REPLACEMENT + t)[3..] == t
  {
  }

  lemma KeptIsRune(s: seq<byte>, t: seq<byte>)
    requires s != [] && RuneLen(s) > 0
    ensures RuneLen(s[..RuneLen(s)] + t) == RuneLen(s) && (s[..RuneLen(s)] + t)[RuneLen(s)..] == t
  {
  }

  /** What comes back is valid, counts as many runes, and is no shorter. */
  lemma {:induction false} ScrubIsValid(s: seq<byte>)
    ensures Valid(Scrub(s)) && RuneCount(Scrub(s)) == RuneCount(s) && |Scrub(s)| >= |s|
  {
    if s != [] {
      var t := s[Step(s)..];
      ScrubIsValid(t);
      if RuneLen(s) == 0 {
        ReplacementIsRune(Scrub(t));
      } else {
        KeptIsRune(s, Scrub(t));
      }
    }
  }

  lemma {:induction false} ScrubKeepsValid(s: seq<byte>)
    requires Valid(s)
    ensures Scrub(s) == s
  {
    if s != [] {
      ScrubKeepsValid(s[RuneLen(s)..]);
    }
  }

  /** Exactly the valid strings come back as they are. */
  lemma ScrubIsIdentity(s: seq<byte>)
    ensures Scrub(s) == s <==> Valid(s)
  {
    ScrubIsValid(s);
    if Valid(s) {
      ScrubKeepsValid(s);
    }
  }

  // ---- How JSON tells a replaced byte from the rune that replaces it ----

  /** A byte as it is, or the escape written for one that begins no rune. */
  type sign = x: int | -1 <= x < 256

  const ESCAPE: sign := -1

  function Signs(s: seq<byte>): (signs: seq<sign>)
    ensures |signs| == |s| && forall i | 0 <= i < |s| :: signs[i] == s[i]
  {
    seq(|s|, i requires 0 <= i < |s| => s[i] as int as sign)
  }

  function Written(s: seq<byte>): seq<sign> {
    if s == [] then []
    else if RuneLen(s) == 0 then [ESCAPE] + Written(s[1..])
    else Signs(s[..RuneLen(s)]) + Written(s[RuneLen(s)..])
  }

  function ReadBack(signs: seq<sign>): seq<byte> {
    if signs == [] then []
    else (if signs[0] == ESCAPE then REPLACEMENT else [signs[0] as int as byte]) + ReadBack(signs[1..])
  }

  lemma FirstSign(a: seq<sign>, b: seq<sign>)
    requires a != []
    ensures (a + b)[0] == a[0] && (a + b)[1..] == a[1..] + b
  {
  }

  lemma Regroup(a: seq<byte>, b: seq<byte>, c: seq<byte>)
    ensures a + (b + c) == (a + b) + c
  {
  }

  lemma {:induction false} ReadBackJoins(a: seq<sign>, b: seq<sign>)
    ensures ReadBack(a + b) == ReadBack(a) + ReadBack(b)
  {
    if a == [] {
      assert a + b == b;
    } else {
      FirstSign(a, b);
      ReadBackJoins(a[1..], b);
      Regroup(if a[0] == ESCAPE then REPLACEMENT else [a[0] as int as byte], ReadBack(a[1..]), ReadBack(b));
    }
  }

  lemma {:induction false} SignsReadBack(s: seq<byte>)
    ensures ReadBack(Signs(s)) == s && ESCAPE !in Signs(s)
  {
    if s != [] {
      SignsReadBack(s[1..]);
      assert Signs(s)[1..] == Signs(s[1..]);
    }
  }

  /** What was written reads back scrubbed. */
  lemma {:induction false} WrittenReadsBack(s: seq<byte>)
    ensures ReadBack(Written(s)) == Scrub(s)
  {
    if s != [] {
      WrittenReadsBack(s[Step(s)..]);
      if RuneLen(s) == 0 {
        assert ([ESCAPE] + Written(s[1..]))[1..] == Written(s[1..]);
      } else {
        SignsReadBack(s[..RuneLen(s)]);
        ReadBackJoins(Signs(s[..RuneLen(s)]), Written(s[RuneLen(s)..]));
      }
    }
  }

  /** Something is escaped exactly when the text is not valid. */
  lemma {:induction false} EscapesTell(s: seq<byte>)
    ensures ESCAPE in Written(s) <==> !Valid(s)
  {
    if s != [] {
      EscapesTell(s[Step(s)..]);
      if RuneLen(s) > 0 {
        SignsReadBack(s[..RuneLen(s)]);
      }
    }
  }

  /** So what is read back is written as it was exactly when nothing was escaped. */
  lemma WrittenAgain(s: seq<byte>)
    ensures Written(Scrub(s)) == Written(s) <==> Valid(s)
  {
    ScrubIsValid(s);
    EscapesTell(s);
    EscapesTell(Scrub(s));
    ScrubIsIdentity(s);
  }
}
