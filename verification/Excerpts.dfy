/** Excerpts of a result that never cut a rune, and the longest excerpt a notice has room for. */
module Excerpts {
  import opened Utf8
  import opened Decimal

  function Clamp(offset: int, length: nat): nat {
    if offset < 0 then 0 else if offset > length then length else offset
  }

  /** The first boundary at or after p. */
  function Align(value: seq<byte>, p: nat): (q: nat)
    requires p <= |value|
    ensures p <= q <= |value| && Boundary(value, q)
    ensures forall k | p <= k < q :: !Boundary(value, k)
    decreases |value| - p
  {
    if Boundary(value, p) then p else Align(value, p + 1)
  }

  method ValidStart(value: seq<byte>, offset: int) returns (q: nat)
    ensures q == Align(value, Clamp(offset, |value|))
  {
    q := Clamp(offset, |value|);
    while q < |value| && q > 0 && Continues(value[q])
      invariant q <= |value| && Align(value, q) == Align(value, Clamp(offset, |value|))
    {
      q := q + 1;
    }
  }

  method ValidSuffix(value: seq<byte>, offset: int) returns (suffix: seq<byte>)
    ensures suffix == value[Align(value, Clamp(offset, |value|))..]
  {
    var start := ValidStart(value, offset);
    suffix := value[start..];
  }

  /** e is the length of the longest valid prefix of s within cap. */
  ghost predicate LongestValid(s: seq<byte>, cap: nat, e: nat) {
    e <= |s| && e <= cap && Valid(s[..e]) && forall k | e < k <= |s| && k <= cap :: !Valid(s[..k])
  }

  ghost predicate IsSlice(value: seq<byte>, offset: int, limit: nat, excerpt: seq<byte>, more: bool) {
    if offset >= |value| then excerpt == [] && !more
    else if limit == 0 then excerpt == [] && more
    else
      var o := Align(value, Clamp(offset, |value|));
      LongestValid(value[o..], limit, |excerpt|) && excerpt == value[o..][..|excerpt|] && more == (o + |excerpt| < |value|)
  }

  /** The longest valid excerpt at an offset; `more` says that something follows it. */
  method BoundedSlice(value: seq<byte>, offset: int, limit: nat) returns (excerpt: seq<byte>, more: bool)
    ensures IsSlice(value, offset, limit, excerpt, more)
  {
    if offset >= |value| || limit == 0 {
      return [], offset < |value|;
    }
    var start := ValidStart(value, offset);
    var end := if start + limit < |value| then start + limit else |value|;
    ghost var rest := value[start..];
    while end > start && !Valid(value[start..end])
      invariant start <= end <= |value| && end - start <= limit
      invariant forall k | end - start < k <= |rest| && k <= limit :: !Valid(rest[..k])
    {
      assert value[start..end] == rest[..end - start];
      end := end - 1;
    }
    excerpt, more := value[start..end], end < |value|;
    assert excerpt == rest[..end - start];
  }

  lemma SliceFromStart(value: seq<byte>, limit: nat, excerpt: seq<byte>, more: bool)
    requires IsSlice(value, 0, limit, excerpt, more)
    ensures LongestValid(value, limit, |excerpt|) && excerpt == value[..|excerpt|] && more == (|excerpt| < |value|)
  {
    assert value[0..] == value;
    assert limit == 0 || value == [] ==> value[..0] == [];
  }

  // ---- Notices ----

  function Tokens(s: seq<byte>): nat {
    (RuneCount(s) + 3) / 4
  }

  /** The fixed ASCII text of a notice, around the size and the quoted handle. */
  datatype Wording = Wording(opening: seq<byte>, sized: seq<byte>, beforeHandle: seq<byte>, afterHandle: seq<byte>, ending: seq<byte>)

  predicate Plain(w: Wording) {
    Ascii(w.opening) && Ascii(w.sized) && Ascii(w.beforeHandle) && Ascii(w.afterHandle) && Ascii(w.ending)
  }

  function Advice(w: Wording, quoted: seq<byte>): seq<byte> {
    if quoted == [] then [] else w.beforeHandle + quoted + w.afterHandle
  }

  /** What a notice says before the excerpt. `quoted` is the quoted handle, empty if there is none. */
  function Heading(w: Wording, originalBytes: nat, quoted: seq<byte>): seq<byte> {
    w.opening + Print(originalBytes) + w.sized + Advice(w, quoted) + w.ending
  }

  lemma HeadingIsValid(w: Wording, originalBytes: nat, quoted: seq<byte>)
    requires Plain(w) && Valid(quoted)
    ensures Valid(Heading(w, originalBytes, quoted))
  {
    var digits := Print(originalBytes);
    AsciiIsValid(w.opening);
    assert forall i | 0 <= i < |digits| :: digits[i] in digits;
    AsciiIsValid(digits);
    AsciiIsValid(w.sized);
    AsciiIsValid(w.beforeHandle);
    AsciiIsValid(w.afterHandle);
    AsciiIsValid(w.ending);
    ValidJoin(w.beforeHandle, quoted);
    ValidJoin(w.beforeHandle + quoted, w.afterHandle);
    ValidJoin(w.opening, digits);
    ValidJoin(w.opening + digits, w.sized);
    ValidJoin(w.opening + digits + w.sized, Advice(w, quoted));
    ValidJoin(w.opening + digits + w.sized + Advice(w, quoted), w.ending);
  }

  predicate Fits(head: seq<byte>, body: seq<byte>, tokenLimit: nat) {
    Tokens(head + body) <= tokenLimit
  }

  lemma ShorterPrefixFits(head: seq<byte>, s: seq<byte>, i: nat, j: nat, tokenLimit: nat)
    requires Valid(head) && i <= j <= |s| && Valid(s[..i]) && Valid(s[..j]) && Fits(head, s[..j], tokenLimit)
    ensures Fits(head, s[..i], tokenLimit)
  {
    ValidJoin(head, s[..i]);
    ValidJoin(head, s[..j]);
    LongerPrefixCountsMore(s, i, j);
  }

  lemma ShorterSuffixFits(head: seq<byte>, s: seq<byte>, p: nat, q: nat, tokenLimit: nat)
    requires Valid(head) && p <= q <= |s| && Boundary(s, q) && Fits(head, s[p..], tokenLimit)
    ensures Fits(head, s[q..], tokenLimit)
  {
    ValidJoin(head, s[p..]);
    ValidJoin(head, s[q..]);
    if p < q {
      assert s[p..] == s[p..q] + s[q..];
      CountJoin(s[p..q], s[q..]);
    }
  }

  lemma NoLongerFits(head: seq<byte>, s: seq<byte>, cap: nat, e: nat, tokenLimit: nat)
    requires Valid(head) && LongestValid(s, cap, e) && !Fits(head, s[..e], tokenLimit)
    ensures forall k | cap <= k <= |s| && Valid(s[..k]) :: !Fits(head, s[..k], tokenLimit)
  {
    forall k | cap <= k <= |s| && Valid(s[..k])
      ensures !Fits(head, s[..k], tokenLimit)
    {
      if Fits(head, s[..k], tokenLimit) {
        ShorterPrefixFits(head, s, e, k, tokenLimit);
      }
    }
  }

  lemma NoLongerTailFits(head: seq<byte>, s: seq<byte>, cap: nat, p: nat, tokenLimit: nat)
    requires Valid(head) && cap <= |s| && p == Align(s, |s| - cap) && !Fits(head, s[p..], tokenLimit)
    ensures forall q | 0 <= q <= |s| && Boundary(s, q) && cap <= |s| - q :: !Fits(head, s[q..], tokenLimit)
  {
    forall q | 0 <= q <= |s| && Boundary(s, q) && cap <= |s| - q
      ensures !Fits(head, s[q..], tokenLimit)
    {
      if Fits(head, s[q..], tokenLimit) {
        ShorterSuffixFits(head, s, q, p, tokenLimit);
      }
    }
  }

  /** e is the length of the longest valid prefix within the limit whose whole notice fits, 0 if
      none does. */
  ghost predicate LongestHead(head: seq<byte>, original: seq<byte>, limit: int, tokens: nat, e: nat)
    requires e <= |original|
  {
    Valid(original[..e]) && (e == 0 || (e <= limit && Fits(head, original[..e], tokens))) &&
    forall k | e < k <= |original| && k <= limit && Valid(original[..k]) :: !Fits(head, original[..k], tokens)
  }

  /** The same for suffixes that begin at a boundary. */
  ghost predicate LongestTail(head: seq<byte>, original: seq<byte>, limit: int, tokens: nat, start: nat)
    requires start <= |original|
  {
    Boundary(original, start) && (start == |original| || (|original| - start <= limit && Fits(head, original[start..], tokens))) &&
    forall q | 0 <= q < start && Boundary(original, q) && |original| - q <= limit :: !Fits(head, original[q..], tokens)
  }

  ghost predicate ShowsHead(head: seq<byte>, original: seq<byte>, limit: int, tokens: nat, content: seq<byte>) {
    exists e | 0 <= e <= |original| :: LongestHead(head, original, limit, tokens, e) && content == head + original[..e]
  }

  ghost predicate ShowsTail(head: seq<byte>, original: seq<byte>, limit: int, tokens: nat, content: seq<byte>) {
    exists start | 0 <= start <= |original| :: LongestTail(head, original, limit, tokens, start) && content == head + original[start..]
  }

  /** The notice carries the longest valid prefix within the byte limit whose whole notice fits the
      token limit, or nothing when none does. */
  method FitNotice(w: Wording, original: seq<byte>, quoted: seq<byte>, maxBodyBytes: int, tokenLimit: nat)
    returns (best: seq<byte>)
    requires Plain(w) && Valid(quoted)
    ensures ShowsHead(Heading(w, |original|, quoted), original, maxBodyBytes, tokenLimit, best)
  {
    HeadingIsValid(w, |original|, quoted);
    var head := Heading(w, |original|, quoted);
    var low, high := 0, if |original| < maxBodyBytes then |original| else maxBodyBytes;
    ghost var body := [];
    best := head + [];
    while low <= high
      invariant 0 <= low && high <= |original| && high <= maxBodyBytes
      invariant best == head + body && body <= original && Valid(body) && (body == [] || |body| <= maxBodyBytes)
      invariant body == [] || Fits(head, body, tokenLimit)
      invariant forall k | 0 <= k < low && k <= |original| && Valid(original[..k]) :: k <= |body|
      invariant forall k | 0 <= k && high < k <= |original| && k <= maxBodyBytes && Valid(original[..k]) :: !Fits(head, original[..k], tokenLimit)
    {
      var middle := low + (high - low) / 2;
      var candidate, more := BoundedSlice(original, 0, middle);
      SliceFromStart(original, middle, candidate, more);
      if Tokens(head + candidate) <= tokenLimit {
        best, body := head + candidate, candidate;
        low := middle + 1;
      } else {
        NoLongerFits(head, original, middle, |candidate|, tokenLimit);
        high := middle - 1;
      }
    }
    assert body == original[..|body|];
    assert LongestHead(head, original, maxBodyBytes, tokenLimit, |body|);
  }

  /** The same for the tail of a text: the longest suffix that begins at a boundary. */
  method FitTailNotice(w: Wording, original: seq<byte>, quoted: seq<byte>, maxBodyBytes: int, tokenLimit: nat)
    returns (best: seq<byte>)
    requires Plain(w) && Valid(quoted)
    ensures ShowsTail(Heading(w, |original|, quoted), original, maxBodyBytes, tokenLimit, best)
  {
    HeadingIsValid(w, |original|, quoted);
    var head := Heading(w, |original|, quoted);
    var low, high := 0, if |original| < maxBodyBytes then |original| else maxBodyBytes;
    ghost var start: nat := |original|;
    best := head + [];
    while low <= high
      invariant 0 <= low && high <= |original| && high <= maxBodyBytes
      invariant start <= |original| && Boundary(original, start) && best == head + original[start..]
      invariant start == |original| || (|original| - start <= maxBodyBytes && Fits(head, original[start..], tokenLimit))
      invariant forall q | 0 <= q <= |original| && Boundary(original, q) && |original| - q < low :: start <= q
      invariant forall q | 0 <= q <= |original| && Boundary(original, q) && high < |original| - q <= maxBodyBytes :: !Fits(head, original[q..], tokenLimit)
    {
      var middle := low + (high - low) / 2;
      var body := ValidSuffix(original, |original| - middle);
      ghost var p := Align(original, |original| - middle);
      // The suffix is never longer than asked for, so it is never cut.
      assert |body| <= middle;
      if Tokens(head + body) <= tokenLimit {
        best, start := head + body, p;
        low := middle + 1;
      } else {
        NoLongerTailFits(head, original, middle, p, tokenLimit);
        high := middle - 1;
      }
    }
    assert LongestTail(head, original, maxBodyBytes, tokenLimit, start);
  }

  /** On valid text the tail shown is the longest valid suffix that fits. */
  lemma TailIsLongestValid(head: seq<byte>, original: seq<byte>, limit: int, tokens: nat, start: nat)
    requires Valid(original) && start <= |original| && LongestTail(head, original, limit, tokens, start)
    ensures Valid(original[start..])
    ensures forall q | 0 <= q < start && Valid(original[q..]) && |original| - q <= limit :: !Fits(head, original[q..], tokens)
  {
    BoundarySplits(original, start);
    forall q | 0 <= q <= |original| && Valid(original[q..])
      ensures Boundary(original, q)
    {
      BoundarySplits(original, q);
    }
  }
}
