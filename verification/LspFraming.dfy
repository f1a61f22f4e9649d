/** Content-Length framing of messages on a byte stream: what is written is what is read back. */
module LspFraming {
  import opened Utf8
  import opened Decimal
  import opened Trimming

  const COLON: byte := 58
  const CR: byte := 13
  const LF: byte := 10

  /** Content-Length. */
  const NAME: seq<byte> := [67, 111, 110, 116, 101, 110, 116, 45, 76, 101, 110, 103, 116, 104]

  const LIMIT := 0x100_0000

  // ---- Writing ----

  function HeaderLine(n: nat): seq<byte> {
    NAME + [COLON, SPACE] + Print(n) + [CR]
  }

  function Frame(body: seq<byte>): seq<byte> {
    HeaderLine(|body|) + [LF] + ([CR] + [LF] + body)
  }

  lemma WordsAreWritten()
    ensures NAME == Bytes("Content-Length") && NAME + [COLON, SPACE] == Bytes("Content-Length: ")
    ensures [CR] + [LF] + [CR] + [LF] == Bytes("\r\n\r\n")
  {
    assert NAME == Bytes("Content-Length");
    assert NAME + [COLON, SPACE] == Bytes("Content-Length: ");
  }

  lemma Regroups(a: seq<byte>, digits: seq<byte>, cr: seq<byte>, lf: seq<byte>, body: seq<byte>)
    ensures (a + digits + cr) + lf + (cr + lf + body) == a + digits + (cr + lf + cr + lf) + body
  {
    assert (a + digits + cr) + lf + (cr + lf + body) == a + digits + (cr + lf + cr + lf) + body;
  }

  /** What goes over the wire: the header, two line ends, and the body. */
  lemma FrameIsWritten(body: seq<byte>)
    ensures Frame(body) == Bytes("Content-Length: ") + Print(|body|) + Bytes("\r\n\r\n") + body
  {
    WordsAreWritten();
    Regroups(NAME + [COLON, SPACE], Print(|body|), [CR], [LF], body);
  }

  // ---- Lines and fields ----

  /** The position of the first b, |s| if there is none. */
  function Find(s: seq<byte>, b: byte): (i: nat)
    ensures i <= |s| && (i < |s| ==> s[i] == b) && forall k | 0 <= k < i :: s[k] != b
  {
    if s == [] || s[0] == b then 0 else 1 + Find(s[1..], b)
  }

  lemma {:induction false} FindSkips(a: seq<byte>, b: byte, t: seq<byte>)
    requires b !in a
    ensures Find(a + [b] + t, b) == |a|
  {
    var s := a + [b] + t;
    assert s[|a|] == b;
    assert forall k | 0 <= k < |a| :: s[k] == a[k] && a[k] in a;
  }

  function Lower(b: byte): byte {
    if 65 <= b <= 90 then b + 32 else b
  }

  predicate EqualFold(a: seq<byte>, b: seq<byte>) {
    |a| == |b| && forall i | 0 <= i < |a| :: Lower(a[i]) == Lower(b[i])
  }

  datatype Number = Value(n: int) | NotANumber

  const MAX_INT := 0x8000_0000_0000_0000

  /** Decimal digits with an optional sign, in the range of a 64-bit integer. */
  function Atoi(s: seq<byte>): Number {
    var signed := s != [] && (s[0] == 43 || s[0] == 45);
    match Parse(if signed then s[1..] else s)
    case Malformed => NotANumber
    case Number(n) =>
      var v: int := if signed && s[0] == 45 then -(n as int) else n;
      if -MAX_INT <= v < MAX_INT then Value(v) else NotANumber
  }

  datatype Field = LengthIs(value: Number) | OtherField

  /** What a header line that is not empty says. */
  function ReadField(line: seq<byte>): Field {
    var colon := Find(line, COLON);
    if colon < |line| && EqualFold(Trim(line[..colon]), NAME) then LengthIs(Atoi(Trim(line[colon + 1..]))) else OtherField
  }

  // ---- Reading ----

  datatype Headers = Ended(length: int, rest: seq<byte>) | Broken(rest: seq<byte>)

  /** Reads header lines up to the empty one; the last length wins. */
  function ReadHeaders(input: seq<byte>, length: int): Headers
    decreases |input|
  {
    var i := Find(input, LF);
    if i == |input| then Broken([])
    else
      var line, rest := Trim(input[..i + 1]), input[i + 1..];
      if line == [] then Ended(length, rest)
      else
        match ReadField(line)
        case OtherField => ReadHeaders(rest, length)
        case LengthIs(NotANumber) => Broken(rest)
        case LengthIs(Value(n)) => ReadHeaders(rest, n)
  }

  datatype Message = Body(body: seq<byte>) | Failed

  /** One message off the front of a stream, and what is left of the stream. */
  function ReadOne(input: seq<byte>): (Message, seq<byte>) {
    match ReadHeaders(input, -1)
    case Broken(rest) => (Failed, rest)
    case Ended(length, rest) =>
      if length < 0 || length > LIMIT then (Failed, rest)
      else if length > |rest| then (Failed, [])
      else (Body(rest[..length]), rest[length..])
  }

  class Reader {
    var input: seq<byte>

    constructor (input: seq<byte>)
      ensures this.input == input
    {
      this.input := input;
    }

    /** The next line with its newline, unless the stream ends first. */
    method ReadLine() returns (ok: bool, line: seq<byte>)
      modifies this
      ensures var i := Find(old(input), LF);
        if i == |old(input)| then !ok && input == []
        else ok && line == old(input)[..i + 1] && input == old(input)[i + 1..]
    {
      var i := 0;
      while i < |input| && input[i] != LF
        invariant i <= |input| && forall k | 0 <= k < i :: input[k] != LF
      {
        i := i + 1;
      }
      if i == |input| {
        ok, line, input := false, input, [];
      } else {
        ok, line, input := true, input[..i + 1], input[i + 1..];
      }
    }

    method ReadHeader() returns (ok: bool, length: int)
      modifies this
      ensures ReadHeaders(old(input), -1) == if ok then Ended(length, input) else Broken(input)
    {
      length := -1;
      while true
        invariant ReadHeaders(input, length) == ReadHeaders(old(input), -1)
        decreases |input|
      {
        var raw;
        ok, raw := ReadLine();
        if !ok {
          return;
        }
        var line := Trim(raw);
        if line == [] {
          return;
        }
        var field := ReadField(line);
        if field.LengthIs? {
          if field.value.NotANumber? {
            return false, length;
          }
          length := field.value.n;
        }
      }
    }

    method ReadMessage() returns (m: Message)
      modifies this
      ensures (m, input) == ReadOne(old(input))
    {
      var ok, length := ReadHeader();
      if !ok || length < 0 || length > LIMIT {
        return Failed;
      }
      if length > |input| {
        input := [];
        return Failed;
      }
      m := Body(input[..length]);
      input := input[length..];
    }
  }

  // ---- Round trips ----

  lemma DigitsAreNotBlank(n: nat)
    ensures forall i | 0 <= i < |Print(n)| :: Digit(Print(n)[i])
  {
    assert forall i | 0 <= i < |Print(n)| :: Print(n)[i] in Print(n);
  }

  lemma AtoiPrint(n: nat)
    requires n < MAX_INT
    ensures Atoi(Print(n)) == Value(n)
  {
    DigitsAreNotBlank(n);
    ParsePrint(n);
    assert Digit(Print(n)[0]);
  }

  /** A number is digits with a sign or none; a number too large for 64 bits is none. */
  lemma AtoiMeans(s: seq<byte>, n: nat)
    ensures Atoi(Print(n)) == Atoi([43] + Print(n)) == if n < MAX_INT then Value(n) else NotANumber
    ensures Atoi([45] + Print(n)) == if n <= MAX_INT then Value(-(n as int)) else NotANumber
    ensures (s == [] || exists i | 0 <= i < |s| :: !Digit(s[i])) ==>
      Atoi(s) == NotANumber || (|s| > 1 && (s[0] == 43 || s[0] == 45) && forall i | 1 <= i < |s| :: Digit(s[i]))
  {
    var digits := Print(n);
    DigitsAreNotBlank(n);
    ParsePrint(n);
    assert Digit(digits[0]) && ([43] + digits)[1..] == digits && ([45] + digits)[1..] == digits;
    ParseMeans(s);
    if s != [] {
      ParseMeans(s[1..]);
      assert forall i | 1 <= i < |s| :: s[i] == s[1..][i - 1];
    }
  }

  /** The two are the same byte, or a letter in both its cases. */
  predicate SameLetter(a: byte, b: byte) {
    a == b || (65 <= a <= 90 && b == a + 32) || (97 <= a <= 122 && a == b + 32)
  }

  lemma CaseIsIgnored(a: seq<byte>, b: seq<byte>)
    ensures EqualFold(a, b) <==> |a| == |b| && forall i | 0 <= i < |a| :: SameLetter(a[i], b[i])
  {
    assert forall x: byte, y: byte :: Lower(x) == Lower(y) <==> SameLetter(x, y);
  }

  lemma TrimEnd(s: seq<byte>)
    requires s != [] && !Blank(s[0]) && !Blank(s[|s| - 1])
    ensures Trim(s + [CR] + [LF]) == s
  {
    var t := s + [CR] + [LF];
    assert t[0] == s[0] && (s + [CR])[|s|] == CR;
    assert t[..|t| - 1] == s + [CR] && (s + [CR])[..|s|] == s;
    assert TrimRight(Blank, t) == TrimRight(Blank, s + [CR]) == TrimRight(Blank, s);
  }

  lemma TrimValue(digits: seq<byte>)
    requires digits != [] && !Blank(digits[0]) && !Blank(digits[|digits| - 1])
    ensures Trim([SPACE] + digits) == digits
  {
    assert ([SPACE] + digits)[1..] == digits;
    assert TrimLeft(Blank, [SPACE] + digits) == TrimLeft(Blank, digits);
  }

  lemma NameIsPlain()
    ensures COLON !in NAME && LF !in NAME && !Blank(NAME[0]) && !Blank(NAME[|NAME| - 1]) && EqualFold(NAME, NAME)
  {
  }

  lemma LengthField(n: nat)
    requires n < MAX_INT
    ensures Trim(HeaderLine(n) + [LF]) == NAME + [COLON] + ([SPACE] + Print(n))
    ensures ReadField(NAME + [COLON] + ([SPACE] + Print(n))) == LengthIs(Value(n))
  {
    var digits := Print(n);
    var line := NAME + [COLON] + ([SPACE] + digits);
    DigitsAreNotBlank(n);
    NameIsPlain();
    assert line[0] == NAME[0] && line[|line| - 1] == digits[|digits| - 1];
    assert HeaderLine(n) + [LF] == line + [CR] + [LF];
    TrimEnd(line);
    FindSkips(NAME, COLON, [SPACE] + digits);
    assert line[..|NAME|] == NAME && line[|NAME| + 1..] == [SPACE] + digits;
    TrimKeeps(NAME);
    TrimValue(digits);
    AtoiPrint(n);
  }

  lemma LineHasNoBreak(n: nat)
    ensures LF !in HeaderLine(n)
  {
    DigitsAreNotBlank(n);
    NameIsPlain();
    assert forall b | b in Print(n) :: Digit(b);
  }

  lemma HeadersOfFrame(body: seq<byte>, rest: seq<byte>, length: int)
    requires |body| < MAX_INT
    ensures ReadHeaders(Frame(body) + rest, length) == Ended(|body|, body + rest)
  {
    var n := |body|;
    var tail := [CR] + [LF] + (body + rest);
    var input := Frame(body) + rest;
    assert input == HeaderLine(n) + [LF] + tail;
    LineHasNoBreak(n);
    FindSkips(HeaderLine(n), LF, tail);
    assert input[..|HeaderLine(n)| + 1] == HeaderLine(n) + [LF] && input[|HeaderLine(n)| + 1..] == tail;
    LengthField(n);
    EmptyLineEnds(body + rest, n);
  }

  lemma EmptyLineEnds(rest: seq<byte>, length: int)
    ensures ReadHeaders([CR] + [LF] + rest, length) == Ended(length, rest)
  {
    var input := [CR] + [LF] + rest;
    FindSkips([CR], LF, rest);
    assert input[..2] == [CR, LF] && input[2..] == rest;
    assert [CR, LF][1..] == [LF] && [LF][1..] == [];
    assert TrimLeft(Blank, [CR, LF]) == TrimLeft(Blank, [LF]) == [];
  }

  /** Reading gets back a body that was written, whatever bytes it holds, and leaves what follows. */
  lemma ReadFrame(body: seq<byte>, rest: seq<byte>)
    requires |body| <= LIMIT
    ensures ReadOne(Frame(body) + rest) == (Body(body), rest)
  {
    HeadersOfFrame(body, rest, -1);
    assert (body + rest)[..|body|] == body && (body + rest)[|body|..] == rest;
  }

  /** A body over the limit is refused, so the limit is exact. */
  lemma LongFrameFails(body: seq<byte>, rest: seq<byte>)
    requires LIMIT < |body| < MAX_INT
    ensures ReadOne(Frame(body) + rest).0 == Failed
  {
    HeadersOfFrame(body, rest, -1);
  }

  function Frames(bodies: seq<seq<byte>>): seq<byte> {
    if bodies == [] then [] else Frame(bodies[0]) + Frames(bodies[1..])
  }

  /** The messages of a stream up to the first failure. */
  function ReadAll(input: seq<byte>, count: nat): seq<Message>
    decreases count
  {
    if count == 0 then [] else [ReadOne(input).0] + ReadAll(ReadOne(input).1, count - 1)
  }

  function Bodies(bodies: seq<seq<byte>>): (messages: seq<Message>)
    ensures |messages| == |bodies| && forall i | 0 <= i < |bodies| :: messages[i] == Body(bodies[i])
  {
    seq(|bodies|, i requires 0 <= i < |bodies| => Body(bodies[i]))
  }

  lemma ReadAllNext(frame: seq<byte>, body: seq<byte>, tail: seq<byte>, count: nat)
    requires ReadOne(frame + tail) == (Body(body), tail)
    ensures ReadAll(frame + tail, count + 1) == [Body(body)] + ReadAll(tail, count)
  {
  }

  /** A stream of written messages is read back as those messages, in order. */
  lemma {:induction false} StreamRoundTrips(bodies: seq<seq<byte>>)
    requires forall body | body in bodies :: |body| <= LIMIT
    ensures ReadAll(Frames(bodies), |bodies|) == Bodies(bodies)
  {
    if bodies != [] {
      var tail := Frames(bodies[1..]);
      ReadFrame(bodies[0], tail);
      StreamRoundTrips(bodies[1..]);
      ReadAllNext(Frame(bodies[0]), bodies[0], tail, |bodies| - 1);
      assert Bodies(bodies) == [Body(bodies[0])] + Bodies(bodies[1..]);
    }
  }

  /** A line that gives the length takes the place of one before it. */
  lemma LengthLineCounts(n: nat, rest: seq<byte>, length: int)
    requires n < MAX_INT
    ensures ReadHeaders(HeaderLine(n) + [LF] + rest, length) == ReadHeaders(rest, n)
  {
    var input := HeaderLine(n) + [LF] + rest;
    LineHasNoBreak(n);
    FindSkips(HeaderLine(n), LF, rest);
    assert input[..|HeaderLine(n)| + 1] == HeaderLine(n) + [LF] && input[|HeaderLine(n)| + 1..] == rest;
    LengthField(n);
  }

  lemma LastLengthWins(n: nat, body: seq<byte>, rest: seq<byte>)
    requires n < MAX_INT && |body| <= LIMIT
    ensures ReadOne(HeaderLine(n) + [LF] + (Frame(body) + rest)) == (Body(body), rest)
  {
    LengthLineCounts(n, Frame(body) + rest, -1);
    HeadersOfFrame(body, rest, n);
    assert (body + rest)[..|body|] == body && (body + rest)[|body|..] == rest;
  }

  /** A line that names the length in any case, with any blanks around the number, counts for that number. */
  lemma LengthLineIsRead(name: seq<byte>, value: seq<byte>, line: seq<byte>, rest: seq<byte>, length: int)
    requires COLON !in name && LF !in line && Trim(line + [LF]) == name + [COLON] + value && EqualFold(Trim(name), NAME)
    ensures ReadHeaders(line + [LF] + rest, length) ==
      match Atoi(Trim(value)) case Value(n) => ReadHeaders(rest, n) case NotANumber => Broken(rest)
  {
    var input, field := line + [LF] + rest, name + [COLON] + value;
    FindSkips(line, LF, rest);
    FindSkips(name, COLON, value);
    assert input[..|line| + 1] == line + [LF] && input[|line| + 1..] == rest;
    assert field[..|name|] == name && field[|name| + 1..] == value;
    assert field[|name|] == COLON;
  }

  /** Headers without a length are refused and leave what follows. */
  lemma LengthIsRequired(rest: seq<byte>)
    ensures ReadOne([CR] + [LF] + rest) == (Failed, rest)
  {
    EmptyLineEnds(rest, -1);
  }

  /** A stream that ends before the length says, or in the middle of a header line, is refused and nothing is
      left of it. */
  lemma EndedStreamIsRefused(n: nat, short: seq<byte>)
    requires |short| < n <= LIMIT
    ensures ReadOne(HeaderLine(n) + [LF] + ([CR] + [LF] + short)) == (Failed, [])
    ensures LF !in short ==> ReadOne(short) == (Failed, [])
  {
    LengthLineCounts(n, [CR] + [LF] + short, -1);
    EmptyLineEnds(short, n);
  }

  /** Whatever the headers come to, a length below zero or over sixteen megabytes is refused, and any other
      takes just so many bytes. */
  lemma LengthDecides(input: seq<byte>)
    ensures match ReadHeaders(input, -1)
      case Broken(rest) => ReadOne(input) == (Failed, rest)
      case Ended(length, rest) =>
        (ReadOne(input).0.Body? <==> 0 <= length <= 16 * 1024 * 1024 && length <= |rest|) &&
        (ReadOne(input).0.Body? ==> |ReadOne(input).0.body| == length && ReadOne(input).0.body + ReadOne(input).1 == rest) &&
        (length < 0 || length > 16 * 1024 * 1024 ==> ReadOne(input).1 == rest)
  {
  }

  lemma NamesOtherField(text: seq<byte>, name: seq<byte>, value: seq<byte>)
    requires COLON !in name && (text == name || (text == name + [COLON] + value && !EqualFold(Trim(name), NAME)))
    ensures ReadField(text) == OtherField
  {
    if text != name {
      FindSkips(name, COLON, value);
      assert text[|name|] == COLON && text[..|name|] == name;
    }
  }

  lemma LineIsSkipped(line: seq<byte>, tail: seq<byte>, length: int)
    requires LF !in line && Trim(line + [LF]) != [] && ReadField(Trim(line + [LF])) == OtherField
    ensures ReadHeaders(line + [LF] + tail, length) == ReadHeaders(tail, length)
  {
    var input := line + [LF] + tail;
    FindSkips(line, LF, tail);
    assert input[..|line| + 1] == line + [LF] && input[|line| + 1..] == tail;
  }

  /** Other header lines before the length change nothing: those without a colon, and those that name
      something else before it. */
  lemma OtherHeadersAreSkipped(line: seq<byte>, name: seq<byte>, value: seq<byte>, body: seq<byte>, rest: seq<byte>)
    requires LF !in line && COLON !in name && Trim(line + [LF]) != [] && |body| <= LIMIT
    requires Trim(line + [LF]) == name || (Trim(line + [LF]) == name + [COLON] + value && !EqualFold(Trim(name), NAME))
    ensures ReadOne(line + [LF] + (Frame(body) + rest)) == (Body(body), rest)
  {
    NamesOtherField(Trim(line + [LF]), name, value);
    LineIsSkipped(line, Frame(body) + rest, -1);
    HeadersOfFrame(body, rest, -1);
    assert (body + rest)[..|body|] == body && (body + rest)[|body|..] == rest;
  }
}
