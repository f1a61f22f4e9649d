/** The store of tool results: what is shown inline, what is cut and kept, and how a batch of
    results shares one pool. */
module ResultStore {
  import opened Wrappers
  import opened Utf8
  import opened Decimal
  import opened Excerpts
  import opened Permutations
  import Paging
  import WaterFilling

  /** A full result; `rest` is everything but its text. */
  datatype Stored = Stored(content: seq<byte>, rest: nat)

  /** The JSON it is written as. */
  datatype Data = Data(text: seq<sign>, rest: nat)

  function Write(v: Stored): Data {
    Data(Written(v.content), v.rest)
  }

  function Read(d: Data): Stored {
    Stored(ReadBack(d.text), d.rest)
  }

  /** How it comes back. */
  function Kept(v: Stored): Stored {
    v.(content := Scrub(v.content))
  }

  lemma KeptIsRead(v: Stored)
    ensures Read(Write(v)) == Kept(v)
  {
    WrittenReadsBack(v.content);
  }

  datatype Receipt = Receipt(
    truncated: bool, handle: string, digest: seq<byte>, originalBytes: nat, retainedBytes: nat,
    originalTokens: nat, retainedTokens: nat, tokenLimit: nat)

  datatype Result = Result(content: seq<byte>, rest: nat, truncated: bool, handle: string, receipt: Option<Receipt>)

  /** Which tool produced the result, as far as admission cares. */
  datatype Use = Retrieval | TurnHistory | Ordinary

  /** What the surroundings supply: content-addressed handles, how they are quoted, and the fixed
      words of both notices. */
  datatype Setting = Setting(handleOf: Data -> string, quote: string -> seq<byte>, notice: Wording, tailNotice: Wording)

  ghost predicate Sane(c: Setting) {
    Plain(c.notice) && Plain(c.tailNotice) && (forall h :: Valid(c.quote(h))) && (forall v :: c.handleOf(v) != "") &&
    (forall v, w | c.handleOf(v) == c.handleOf(w) :: v == w)
  }

  // ---- Sizes ----

  /** The larger of the two accounts of a result, in tokens. */
  function Units(content: seq<byte>): nat {
    WaterFilling.Max(Tokens(content), (|content| + 3) / 4)
  }

  lemma {:induction false} RunesAreFewer(s: seq<byte>)
    ensures RuneCount(s) <= |s|
  {
    if s != [] {
      RunesAreFewer(s[Step(s)..]);
    }
  }

  /** A limit in tokens and its four bytes a token, checked one after the other, are the one account
      the pool is kept in; and of the two the bytes always decide. */
  lemma AccountsAgree(content: seq<byte>, tokens: nat, maxInline: nat)
    ensures Tokens(content) <= tokens && |content| <= ByteLimit(content, tokens, maxInline) <==> Units(content) <= tokens && |content| <= maxInline
    ensures Units(content) == (|content| + 3) / 4
  {
    RunesAreFewer(content);
  }

  function ByteLimit(content: seq<byte>, tokens: nat, maxInline: nat): nat {
    WaterFilling.Min(maxInline, WaterFilling.Min(|content|, tokens * 4))
  }

  // ---- Admission ----

  function Capacity(maxInline: nat): nat {
    (maxInline + 3) / 4
  }

  function TokenLimit(maxInline: nat, maxTokens: nat): nat {
    if maxTokens == 0 || maxTokens > Capacity(maxInline) then Capacity(maxInline) else maxTokens
  }

  predicate ValidAdmission(maxInline: nat, stored: map<string, Data>, r: Result) {
    r.receipt.Some? &&
    var p := r.receipt.value;
    0 < p.tokenLimit <= Capacity(maxInline) && p.retainedBytes == |r.content| && p.retainedTokens == Tokens(r.content) &&
    p.retainedTokens <= p.tokenLimit &&
    if !p.truncated then
      p.handle == "" && p.originalBytes == p.retainedBytes && p.originalTokens == p.retainedTokens && p.digest == r.content
    else
      p.handle != "" && r.handle == p.handle && p.handle in stored && p.digest == Read(stored[p.handle]).content &&
      p.originalBytes == |Read(stored[p.handle]).content| && p.originalTokens == Tokens(Read(stored[p.handle]).content)
  }

  /** Already admitted, and tightly enough. */
  predicate Settled(maxInline: nat, stored: map<string, Data>, r: Result, maxTokens: nat) {
    ValidAdmission(maxInline, stored, r) && (maxTokens == 0 || r.receipt.value.tokenLimit <= maxTokens)
  }

  /** What a result is an admission of: the stored original if it was cut before, else itself. */
  function Original(use: Use, stored: map<string, Data>, r: Result): Stored {
    if use != Retrieval && r.truncated && r.handle != "" && r.handle in stored then Read(stored[r.handle]) else Stored(r.content, r.rest)
  }

  /** Only a result of which some was cut, and which is no retrieval of it, stands for what is stored. */
  lemma OriginalMeans(use: Use, stored: map<string, Data>, r: Result)
    ensures var stands := r.truncated && use != Retrieval && r.handle != "" && r.handle in stored;
      Restored(use, stored, r) == stands &&
      if stands then Original(use, stored, r) == Stored(ReadBack(stored[r.handle].text), stored[r.handle].rest)
      else Original(use, stored, r) == Stored(r.content, r.rest)
  {
  }

  predicate Restored(use: Use, stored: map<string, Data>, r: Result) {
    use != Retrieval && r.truncated && r.handle != "" && r.handle in stored
  }

  predicate Inline(maxInline: nat, content: seq<byte>, tokens: nat) {
    Units(content) <= tokens && |content| <= maxInline
  }

  function InlineReceipt(content: seq<byte>, tokens: nat): Receipt {
    Receipt(false, "", content, |content|, |content|, Tokens(content), Tokens(content), tokens)
  }

  function CutReceipt(original: seq<byte>, content: seq<byte>, handle: string, tokens: nat): Receipt {
    Receipt(true, handle, original, |original|, |content|, Tokens(original), Tokens(content), tokens)
  }

  /** The longest excerpt of the original for which there is room, under its heading. */
  ghost predicate Shows(c: Setting, use: Use, original: seq<byte>, handle: string, maxInline: nat, tokens: nat,
                        content: seq<byte>) {
    var limit := ByteLimit(original, tokens, maxInline);
    if use == TurnHistory then ShowsTail(Heading(c.tailNotice, |original|, c.quote(handle)), original, limit, tokens, content)
    else ShowsHead(Heading(c.notice, |original|, c.quote(handle)), original, limit, tokens, content)
  }

  lemma LongestHeadIsUnique(head: seq<byte>, original: seq<byte>, limit: nat, tokens: nat, e: nat, f: nat)
    requires e <= |original| && f <= |original|
    requires LongestHead(head, original, limit, tokens, e) && LongestHead(head, original, limit, tokens, f)
    ensures e == f
  {
  }

  lemma LongestTailIsUnique(head: seq<byte>, original: seq<byte>, limit: nat, tokens: nat, e: nat, f: nat)
    requires e <= |original| && f <= |original|
    requires LongestTail(head, original, limit, tokens, e) && LongestTail(head, original, limit, tokens, f)
    ensures e == f
  {
  }

  lemma ShowsOneContent(c: Setting, use: Use, original: seq<byte>, handle: string, maxInline: nat, tokens: nat,
                        x: seq<byte>, y: seq<byte>)
    requires Shows(c, use, original, handle, maxInline, tokens, x) && Shows(c, use, original, handle, maxInline, tokens, y)
    ensures x == y
  {
    var limit := ByteLimit(original, tokens, maxInline);
    if use == TurnHistory {
      var head := Heading(c.tailNotice, |original|, c.quote(handle));
      var e :| 0 <= e <= |original| && LongestTail(head, original, limit, tokens, e) && x == head + original[e..];
      var f :| 0 <= f <= |original| && LongestTail(head, original, limit, tokens, f) && y == head + original[f..];
      LongestTailIsUnique(head, original, limit, tokens, e, f);
    } else {
      var head := Heading(c.notice, |original|, c.quote(handle));
      var e :| 0 <= e <= |original| && LongestHead(head, original, limit, tokens, e) && x == head + original[..e];
      var f :| 0 <= f <= |original| && LongestHead(head, original, limit, tokens, f) && y == head + original[..f];
      LongestHeadIsUnique(head, original, limit, tokens, e, f);
    }
  }

  /** Nothing has to be cut: the result was admitted before, or fits as it is. */
  predicate Whole(maxInline: nat, use: Use, maxTokens: nat, stored: map<string, Data>, r: Result) {
    Settled(maxInline, stored, r, maxTokens) ||
    Inline(maxInline, Original(use, stored, r).content, TokenLimit(maxInline, maxTokens))
  }

  /** One admission: from a result and the store before to a result and the store after. */
  ghost predicate Admits(c: Setting, maxInline: nat, use: Use, maxTokens: nat, stored: map<string, Data>, r: Result,
                         stored': map<string, Data>, a: Result) {
    if Settled(maxInline, stored, r, maxTokens) then stored' == stored && a == r
    else
      var original := Original(use, stored, r);
      var tokens := TokenLimit(maxInline, maxTokens);
      var was := Restored(use, stored, r);
      if Inline(maxInline, original.content, tokens) then
        stored' == stored &&
        a == Result(original.content, original.rest, !was && r.truncated, if was then "" else r.handle,
                    Some(InlineReceipt(original.content, tokens)))
      else
        var handle := c.handleOf(Write(original));
        stored' == stored[handle := Write(original)] &&
        a == Result(a.content, original.rest, true, handle, Some(CutReceipt(original.content, a.content, handle, tokens))) &&
        Shows(c, use, original.content, handle, maxInline, tokens, a.content)
  }

  /** A result that has to be cut when the store does not take its original: an excerpt within the
      byte limit under a heading without a handle. `rest` says so. */
  ghost predicate Fails(c: Setting, maxInline: nat, use: Use, maxTokens: nat, stored: map<string, Data>, r: Result,
                        rest: nat, a: Result) {
    IsFailure(c, maxInline, Original(use, stored, r).content, TokenLimit(maxInline, maxTokens), rest,
              if Restored(use, stored, r) then "" else r.handle, a)
  }

  ghost predicate IsFailure(c: Setting, maxInline: nat, original: seq<byte>, tokens: nat, rest: nat, handle: string,
                            a: Result) {
    exists excerpt, more :: IsSlice(original, 0, ByteLimit(original, tokens, maxInline), excerpt, more) &&
      a.content == Heading(c.notice, |original|, []) + excerpt &&
      a == Result(a.content, rest, true, handle, Some(CutReceipt(original, a.content, "", tokens)))
  }

  /** Entries are filed under what was written, and read back as text. */
  ghost predicate Addressed(c: Setting, stored: map<string, Data>) {
    forall h | h in stored :: c.handleOf(stored[h]) == h && Valid(Read(stored[h]).content)
  }

  /** A result that has to be cut keeps its original exactly when that is valid UTF-8; otherwise what
      JSON made of it takes its place. Nothing stored before is ever lost. */
  lemma AdmissionIsLossless(c: Setting, maxInline: nat, use: Use, maxTokens: nat, stored: map<string, Data>,
                            r: Result,
                            stored': map<string, Data>, a: Result)
    requires Sane(c) && Addressed(c, stored) && use != Retrieval && Admits(c, maxInline, use, maxTokens, stored, r, stored', a)
    ensures Original(use, stored', a) == Original(use, stored, r) <==>
      Valid(Original(use, stored, r).content) || Whole(maxInline, use, maxTokens, stored, r)
    ensures !Whole(maxInline, use, maxTokens, stored, r) ==> Original(use, stored', a) == Kept(Original(use, stored, r))
    ensures Addressed(c, stored') && forall h | h in stored :: h in stored' && stored'[h] == stored[h]
  {
    ScrubIsIdentity(Original(use, stored, r).content);
    AdmissionKeepsStore(c, maxInline, use, maxTokens, stored, r, stored', a);
    if Whole(maxInline, use, maxTokens, stored, r) {
      WholeKeepsOriginal(c, maxInline, use, maxTokens, stored, r, stored', a);
    } else {
      CutKeepsScrubbed(c, maxInline, use, maxTokens, stored, r, stored', a);
    }
  }

  lemma AdmissionKeepsStore(c: Setting, maxInline: nat, use: Use, maxTokens: nat, stored: map<string, Data>, r: Result,
                            stored': map<string, Data>, a: Result)
    requires Sane(c) && Addressed(c, stored) && Admits(c, maxInline, use, maxTokens, stored, r, stored', a)
    ensures Addressed(c, stored') && forall h | h in stored :: h in stored' && stored'[h] == stored[h]
  {
    if stored' != stored {
      Files(c, stored, Original(use, stored, r));
    }
  }

  /** Filing one more original takes nothing away. */
  lemma Files(c: Setting, stored: map<string, Data>, v: Stored)
    requires Sane(c) && Addressed(c, stored)
    ensures var stored' := stored[c.handleOf(Write(v)) := Write(v)];
      Addressed(c, stored') && forall h | h in stored :: stored'[h] == stored[h]
  {
    ScrubIsValid(v.content);
    KeptIsRead(v);
    var h := c.handleOf(Write(v));
    assert h in stored ==> c.handleOf(stored[h]) == h;
  }

  lemma WholeKeepsOriginal(c: Setting, maxInline: nat, use: Use, maxTokens: nat, stored: map<string, Data>, r: Result,
                           stored': map<string, Data>, a: Result)
    requires use != Retrieval && Whole(maxInline, use, maxTokens, stored, r) && Admits(c, maxInline, use, maxTokens, stored, r, stored', a)
    ensures Original(use, stored', a) == Original(use, stored, r)
  {
  }

  lemma CutKeepsScrubbed(c: Setting, maxInline: nat, use: Use, maxTokens: nat, stored: map<string, Data>, r: Result,
                         stored': map<string, Data>, a: Result)
    requires Sane(c) && use != Retrieval && !Whole(maxInline, use, maxTokens, stored, r)
    requires Admits(c, maxInline, use, maxTokens, stored, r, stored', a)
    ensures Original(use, stored', a) == Kept(Original(use, stored, r))
  {
    KeptIsRead(Original(use, stored, r));
  }

  /** What an admission comes to, whether or not the store takes the original. */
  ghost predicate Answers(c: Setting, maxInline: nat, use: Use, maxTokens: nat, stored: map<string, Data>, r: Result,
                          failure: Option<nat>, stored': map<string, Data>, a: Result) {
    if failure.None? || Whole(maxInline, use, maxTokens, stored, r) then Admits(c, maxInline, use, maxTokens, stored, r, stored', a)
    else stored' == stored && Fails(c, maxInline, use, maxTokens, stored, r, failure.value, a)
  }

  /** What is stored is text, so reading it page by page gives it back whenever its runes fit a page. */
  lemma StoredTextIsPaged(c: Setting, stored: map<string, Data>, handle: string, limit: nat)
    requires Addressed(c, stored) && handle in stored
    ensures var text := Read(stored[handle]).content;
      (exists pages :: Paging.Reading(text, 0, limit, pages) && Paging.Join(pages) == text) <==> Widest(text) <= limit
  {
    Paging.PagingIsLossless(Read(stored[handle]).content, limit);
  }

  lemma WholeStays(c: Setting, maxInline: nat, use: Use, maxTokens: nat, stored: map<string, Data>, r: Result,
                   stored': map<string, Data>, a: Result)
    requires maxInline > 0 && Admits(c, maxInline, use, maxTokens, stored, r, stored', a) && Whole(maxInline, use, maxTokens, stored, r)
    ensures stored' == stored && Settled(maxInline, stored', a, maxTokens)
  {
    var tokens := TokenLimit(maxInline, maxTokens);
    AccountsAgree(Original(use, stored, r).content, tokens, maxInline);
  }

  /** A result that was cut is cut again: what came back from the store is no shorter. */
  lemma CutAgain(c: Setting, maxInline: nat, use: Use, maxTokens: nat, stored: map<string, Data>, r: Result,
                 stored': map<string, Data>, a: Result, stored'': map<string, Data>, b: Result)
    requires Sane(c) && Addressed(c, stored) && use != Retrieval && !Whole(maxInline, use, maxTokens, stored, r)
    requires Admits(c, maxInline, use, maxTokens, stored, r, stored', a) && Admits(c, maxInline, use, maxTokens, stored', a, stored'', b)
    requires !Settled(maxInline, stored', a, maxTokens)
    ensures var original, tokens := Original(use, stored, r), TokenLimit(maxInline, maxTokens);
      var kept, handle := Kept(original), c.handleOf(Write(Kept(original)));
      stored'' == stored'[handle := Write(kept)] && Shows(c, use, kept.content, handle, maxInline, tokens, b.content) &&
      b == Result(b.content, original.rest, true, handle, Some(CutReceipt(kept.content, b.content, handle, tokens)))
  {
    AdmissionIsLossless(c, maxInline, use, maxTokens, stored, r, stored', a);
    var original, tokens := Original(use, stored, r), TokenLimit(maxInline, maxTokens);
    StaysTooLong(maxInline, original.content, tokens);
  }

  lemma StaysTooLong(maxInline: nat, content: seq<byte>, tokens: nat)
    requires !Inline(maxInline, content, tokens)
    ensures !Inline(maxInline, Scrub(content), tokens) && Scrub(Scrub(content)) == Scrub(content)
  {
    AccountsAgree(content, tokens, maxInline);
    AccountsAgree(Scrub(content), tokens, maxInline);
    ScrubIsValid(content);
    ScrubKeepsValid(Scrub(content));
  }

  lemma StoredAgain(c: Setting, stored: map<string, Data>, first: Data, again: Data)
    requires Sane(c) && Addressed(c, stored) && first != again
    ensures var stored' := stored[c.handleOf(first) := first];
      stored'[c.handleOf(again) := again] == stored' <==> c.handleOf(again) in stored
  {
    var stored', h := stored[c.handleOf(first) := first], c.handleOf(again);
    assert c.handleOf(first) != h;
    if h in stored {
      assert c.handleOf(stored[h]) == h && stored[h] == again;
      assert stored'[h := again] == stored';
    } else {
      assert h in stored'[h := again] && h !in stored';
    }
  }

  /** Admitting again under the same limit changes nothing exactly when the original is valid UTF-8 or
      was not cut. */
  lemma AdmissionIsIdempotent(c: Setting, maxInline: nat, use: Use, maxTokens: nat, stored: map<string, Data>,
                              r: Result,
                              stored': map<string, Data>, a: Result, stored'': map<string, Data>, b: Result)
    requires Sane(c) && Addressed(c, stored) && use != Retrieval && maxInline > 0
    requires Admits(c, maxInline, use, maxTokens, stored, r, stored', a) && Admits(c, maxInline, use, maxTokens, stored', a, stored'', b)
    ensures b == a <==> Valid(Original(use, stored, r).content) || Whole(maxInline, use, maxTokens, stored, r)
    ensures b == a ==> stored'' == stored'
    ensures b != a ==> var again := Write(Kept(Original(use, stored, r)));
      stored'' == stored'[c.handleOf(again) := again] && (stored'' == stored' <==> c.handleOf(again) in stored)
  {
    var original, tokens := Original(use, stored, r), TokenLimit(maxInline, maxTokens);
    ScrubIsIdentity(original.content);
    KeptIsRead(original);
    WrittenAgain(original.content);
    if Whole(maxInline, use, maxTokens, stored, r) {
      WholeStays(c, maxInline, use, maxTokens, stored, r, stored', a);
    } else if !Settled(maxInline, stored', a, maxTokens) {
      CutAgain(c, maxInline, use, maxTokens, stored, r, stored', a, stored'', b);
      if Valid(original.content) {
        ShowsOneContent(c, use, original.content, c.handleOf(Write(original)), maxInline, tokens, a.content, b.content);
      } else {
        StoredAgain(c, stored, Write(original), Write(Kept(original)));
      }
    } else {
      assert stored'[a.handle] == Write(original);
    }
  }

  /** Whatever the original, from the second time on admitting again changes nothing. */
  lemma AdmissionSettles(c: Setting, maxInline: nat, use: Use, maxTokens: nat, stored: map<string, Data>, r: Result,
                         stored': map<string, Data>, a: Result, stored'': map<string, Data>, b: Result,
                         stored''': map<string, Data>, d: Result)
    requires Sane(c) && Addressed(c, stored) && use != Retrieval && maxInline > 0
    requires Admits(c, maxInline, use, maxTokens, stored, r, stored', a) && Admits(c, maxInline, use, maxTokens, stored', a, stored'', b)
    requires Admits(c, maxInline, use, maxTokens, stored'', b, stored''', d)
    ensures d == b && stored''' == stored''
  {
    AdmissionIsLossless(c, maxInline, use, maxTokens, stored, r, stored', a);
    AdmissionIsIdempotent(c, maxInline, use, maxTokens, stored, r, stored', a, stored'', b);
    AdmissionIsIdempotent(c, maxInline, use, maxTokens, stored', a, stored'', b, stored''', d);
    if Whole(maxInline, use, maxTokens, stored, r) {
      WholeStays(c, maxInline, use, maxTokens, stored, r, stored', a);
    } else {
      ScrubIsValid(Original(use, stored, r).content);
    }
  }

  /** Two bytes that are no text, where one byte may be shown. */
  const NO_TEXT := Result([255, 255], 0, false, "", None)

  /** An instance: the original is lost for six other bytes, and admitting again rewrites the result and
      stores those as well. */
  lemma InvalidOriginalIsRewritten(c: Setting, stored': map<string, Data>, a: Result, stored'': map<string, Data>,
                                   b: Result)
    requires Sane(c) && Admits(c, 1, Ordinary, 0, map[], NO_TEXT, stored', a) && Admits(c, 1, Ordinary, 0, stored', a, stored'', b)
    ensures Original(Ordinary, stored', a).content == REPLACEMENT + REPLACEMENT
    ensures a.receipt.value.originalBytes == 2 && b.receipt.value.originalBytes == 6
    ensures b.handle != a.handle && stored''.Keys == {a.handle, b.handle}
  {
    var bytes: seq<byte> := [255, 255];
    assert bytes[1..] == [255] && bytes[1..][1..] == [];
    assert Scrub(bytes[1..]) == REPLACEMENT + [] == REPLACEMENT;
    AdmissionIsLossless(c, 1, Ordinary, 0, map[], NO_TEXT, stored', a);
    WrittenAgain(bytes);
    KeptIsRead(Stored(bytes, 0));
    assert !Settled(1, stored', a, 0);
    CutAgain(c, 1, Ordinary, 0, map[], NO_TEXT, stored', a, stored'', b);
  }

  /** A result whose original the store did not take is never settled: with the next admission the
      excerpt is all there is. */
  lemma FailureIsNotSettled(c: Setting, maxInline: nat, use: Use, maxTokens: nat, stored: map<string, Data>,
                            r: Result, rest: nat, a: Result, later: map<string, Data>, limit: nat)
    requires Fails(c, maxInline, use, maxTokens, stored, r, rest, a)
    ensures !Settled(maxInline, later, a, limit)
    ensures Restored(use, stored, r) || r.handle !in later ==> Original(use, later, a) == Stored(a.content, rest)
  {
  }

  // ---- What a reader is shown ----

  /** What may be asked for inline: the capacity of the store when none or more is asked for. */
  function Allowed(maxInline: nat, maxTokens: nat): (tokens: nat)
    ensures tokens <= (maxInline + 3) / 4 && (maxTokens != 0 ==> tokens <= maxTokens)
    ensures tokens == maxTokens || tokens == (maxInline + 3) / 4
  {
    if 0 < maxTokens <= (maxInline + 3) / 4 then maxTokens else (maxInline + 3) / 4
  }

  /** There is room for a notice and so much of the original under it. */
  predicate HasRoom(notice: seq<byte>, part: seq<byte>, maxInline: nat, tokens: nat) {
    |part| <= maxInline && |part| <= 4 * tokens && (RuneCount(notice + part) + 3) / 4 <= tokens
  }

  /** A notice that tells the size of the original and how to get the rest of it. */
  function Notice(w: Wording, size: nat, quoted: seq<byte>): (notice: seq<byte>)
    ensures quoted == [] ==> notice == w.opening + Print(size) + w.sized + w.ending
    ensures w.opening + Print(size) + w.sized <= notice
  {
    var told := w.opening + Print(size) + w.sized;
    if quoted == [] then told + w.ending else told + w.beforeHandle + quoted + w.afterHandle + w.ending
  }

  /** The first e bytes of the original under a notice: whole runes, and as many as there is room for. */
  ghost predicate ShowsFirst(notice: seq<byte>, original: seq<byte>, maxInline: nat, tokens: nat, content: seq<byte>,
                             e: nat)
    requires e <= |original|
  {
    content == notice + original[..e] && Valid(original[..e]) && (e > 0 ==> HasRoom(notice, original[..e], maxInline, tokens)) &&
    forall k | e < k <= |original| && Valid(original[..k]) :: !HasRoom(notice, original[..k], maxInline, tokens)
  }

  /** The same of its end, from a place where a rune may begin. */
  ghost predicate ShowsLast(notice: seq<byte>, original: seq<byte>, maxInline: nat, tokens: nat, content: seq<byte>,
                            q: nat)
    requires q <= |original|
  {
    content == notice + original[q..] && Boundary(original, q) &&
    (q < |original| ==> HasRoom(notice, original[q..], maxInline, tokens)) &&
    forall k | 0 <= k < q && Boundary(original, k) :: !HasRoom(notice, original[k..], maxInline, tokens)
  }

  /** The first e bytes under a notice without a handle: here only bytes are counted. */
  ghost predicate ShowsLost(notice: seq<byte>, original: seq<byte>, maxInline: nat, tokens: nat, content: seq<byte>,
                            e: nat)
    requires e <= |original|
  {
    content == notice + original[..e] && Valid(original[..e]) && e <= maxInline && e <= 4 * tokens &&
    forall k | e < k <= |original| && Valid(original[..k]) :: k > maxInline || k > 4 * tokens
  }

  ghost predicate ShowsPart(c: Setting, use: Use, original: seq<byte>, handle: string, maxInline: nat, tokens: nat,
                            content: seq<byte>) {
    if use == TurnHistory then
      exists q | 0 <= q <= |original| :: ShowsLast(Notice(c.tailNotice, |original|, c.quote(handle)), original, maxInline, tokens, content, q)
    else
      exists e | 0 <= e <= |original| :: ShowsFirst(Notice(c.notice, |original|, c.quote(handle)), original, maxInline, tokens, content, e)
  }

  lemma NoticeIsHeading(w: Wording, size: nat, quoted: seq<byte>)
    ensures Notice(w, size, quoted) == Heading(w, size, quoted)
  {
    var told := w.opening + Print(size) + w.sized;
    if quoted == [] {
      assert Heading(w, size, quoted) == told + [] + w.ending == told + w.ending;
    } else {
      assert told + (w.beforeHandle + quoted + w.afterHandle) + w.ending == told + w.beforeHandle + quoted + w.afterHandle + w.ending;
    }
  }

  lemma HeadShowsFirst(notice: seq<byte>, original: seq<byte>, maxInline: nat, tokens: nat, e: nat)
    requires e <= |original| && LongestHead(notice, original, ByteLimit(original, tokens, maxInline), tokens, e)
    ensures ShowsFirst(notice, original, maxInline, tokens, notice + original[..e], e)
  {
    forall k | e < k <= |original| && Valid(original[..k])
      ensures !HasRoom(notice, original[..k], maxInline, tokens)
    {
    }
  }

  lemma TailShowsLast(notice: seq<byte>, original: seq<byte>, maxInline: nat, tokens: nat, q: nat)
    requires q <= |original| && LongestTail(notice, original, ByteLimit(original, tokens, maxInline), tokens, q)
    ensures ShowsLast(notice, original, maxInline, tokens, notice + original[q..], q)
  {
    forall k | 0 <= k < q && Boundary(original, k)
      ensures !HasRoom(notice, original[k..], maxInline, tokens)
    {
    }
  }

  lemma ShowsIsPart(c: Setting, use: Use, original: seq<byte>, handle: string, maxInline: nat, tokens: nat,
                    content: seq<byte>)
    requires Shows(c, use, original, handle, maxInline, tokens, content)
    ensures ShowsPart(c, use, original, handle, maxInline, tokens, content)
  {
    var limit := ByteLimit(original, tokens, maxInline);
    if use == TurnHistory {
      NoticeIsHeading(c.tailNotice, |original|, c.quote(handle));
      var head := Heading(c.tailNotice, |original|, c.quote(handle));
      var q :| 0 <= q <= |original| && LongestTail(head, original, limit, tokens, q) && content == head + original[q..];
      TailShowsLast(head, original, maxInline, tokens, q);
    } else {
      NoticeIsHeading(c.notice, |original|, c.quote(handle));
      var head := Heading(c.notice, |original|, c.quote(handle));
      var e :| 0 <= e <= |original| && LongestHead(head, original, limit, tokens, e) && content == head + original[..e];
      HeadShowsFirst(head, original, maxInline, tokens, e);
    }
  }

  lemma FailureIsLost(c: Setting, maxInline: nat, original: seq<byte>, tokens: nat, rest: nat, handle: string, a: Result)
    requires IsFailure(c, maxInline, original, tokens, rest, handle, a)
    ensures exists e | 0 <= e <= |original| :: ShowsLost(Notice(c.notice, |original|, []), original, maxInline, tokens, a.content, e)
    ensures a.truncated && a.rest == rest && a.handle == handle && a.receipt.Some? && a.receipt.value.handle == ""
  {
    var limit := ByteLimit(original, tokens, maxInline);
    var excerpt, more :| IsSlice(original, 0, limit, excerpt, more) && a.content == Heading(c.notice, |original|, []) + excerpt;
    NoticeIsHeading(c.notice, |original|, []);
    SliceFromStart(original, limit, excerpt, more);
    forall k | |excerpt| < k <= |original| && Valid(original[..k])
      ensures k > maxInline || k > 4 * tokens
    {
    }
    assert ShowsLost(Notice(c.notice, |original|, []), original, maxInline, tokens, a.content, |excerpt|);
  }

  /** What the receipt of a result says of it is so, and it stays within what may be asked for. */
  predicate Truthful(maxInline: nat, stored: map<string, Data>, r: Result, maxTokens: nat) {
    r.receipt.Some? &&
    var p := r.receipt.value;
    p.retainedBytes == |r.content| && p.retainedTokens == (RuneCount(r.content) + 3) / 4 && p.retainedTokens <= p.tokenLimit &&
    0 < p.tokenLimit <= (maxInline + 3) / 4 && (maxTokens > 0 ==> p.tokenLimit <= maxTokens) &&
    if p.truncated then
      r.handle != "" && p.handle == r.handle && r.handle in stored && TellsOf(p, ReadBack(stored[r.handle].text))
    else p.handle == "" && TellsOf(p, r.content)
  }

  /** It gives the digest and both sizes of the original. */
  predicate TellsOf(p: Receipt, original: seq<byte>) {
    p.digest == original && p.originalBytes == |original| && p.originalTokens == (RuneCount(original) + 3) / 4
  }

  /** A result whose receipt tells the truth is left alone. */
  lemma TruthfulStays(c: Setting, maxInline: nat, use: Use, maxTokens: nat, stored: map<string, Data>, r: Result,
                      failure: Option<nat>, stored': map<string, Data>, a: Result)
    requires Truthful(maxInline, stored, r, maxTokens) && Answers(c, maxInline, use, maxTokens, stored, r, failure, stored', a)
    ensures a == r && stored' == stored
  {
  }

  /** What becomes of any other: shown whole exactly when its bytes fit the inline limit and its quarters
      of a byte count the tokens allowed; else its original is filed and the longest part of it there is
      room for is shown, or, if the store does not take it, all that is left of it. The receipt says so. */
  lemma AdmissionMeans(c: Setting, maxInline: nat, use: Use, maxTokens: nat, stored: map<string, Data>, r: Result,
                       failure: Option<nat>, stored': map<string, Data>, a: Result)
    requires maxInline > 0 && Answers(c, maxInline, use, maxTokens, stored, r, failure, stored', a)
    requires !Truthful(maxInline, stored, r, maxTokens)
    ensures var original, tokens := Original(use, stored, r), Allowed(maxInline, maxTokens);
      a.receipt.Some? && a.receipt.value.tokenLimit == tokens && TellsOf(a.receipt.value, original.content) &&
      a.receipt.value.retainedBytes == |a.content| && a.receipt.value.retainedTokens == (RuneCount(a.content) + 3) / 4 &&
      if |original.content| <= maxInline && |original.content| <= 4 * tokens then
        a.content == original.content && a.rest == original.rest && !a.receipt.value.truncated && a.receipt.value.handle == "" && stored' == stored &&
        (!r.truncated ==> !a.truncated && a.handle == r.handle)
      else
        a.truncated && a.receipt.value.truncated &&
        if failure.None? then
          var file := Data(Written(original.content), original.rest);
          a.rest == original.rest && a.handle == a.receipt.value.handle == c.handleOf(file) && stored' == stored[a.handle := file] &&
          ShowsPart(c, use, original.content, a.handle, maxInline, tokens, a.content)
        else
          a.rest == failure.value && a.receipt.value.handle == "" && stored' == stored &&
          exists e | 0 <= e <= |original.content| ::
            ShowsLost(Notice(c.notice, |original.content|, []), original.content, maxInline, tokens, a.content, e)
  {
    var original, tokens := Original(use, stored, r), TokenLimit(maxInline, maxTokens);
    assert tokens == Allowed(maxInline, maxTokens);
    AccountsAgree(original.content, tokens, maxInline);
    if !Inline(maxInline, original.content, tokens) {
      if failure.None? {
        ShowsIsPart(c, use, original.content, a.handle, maxInline, tokens, a.content);
      } else {
        FailureIsLost(c, maxInline, original.content, tokens, failure.value, if Restored(use, stored, r) then "" else r.handle, a);
      }
    }
  }

  /** Of a result just admitted the receipt tells the truth exactly when nothing was cut, or the store took
      an original that is text and there was room for the notice. */
  lemma AdmittedIsTruthful(c: Setting, maxInline: nat, use: Use, maxTokens: nat, stored: map<string, Data>, r: Result,
                           failure: Option<nat>, stored': map<string, Data>, a: Result)
    requires Sane(c) && maxInline > 0 && Answers(c, maxInline, use, maxTokens, stored, r, failure, stored', a)
    requires !Truthful(maxInline, stored, r, maxTokens)
    ensures Truthful(maxInline, stored', a, maxTokens) <==>
      !a.receipt.value.truncated ||
      (failure.None? && Valid(Original(use, stored, r).content) && (RuneCount(a.content) + 3) / 4 <= Allowed(maxInline, maxTokens))
  {
    var original := Original(use, stored, r);
    AdmissionMeans(c, maxInline, use, maxTokens, stored, r, failure, stored', a);
    RunesAreFewer(original.content);
    ScrubIsIdentity(original.content);
    WrittenReadsBack(original.content);
  }

  /** A result that fits its share of the pool stays whole. */
  lemma ShareKeepsWhole(maxInline: nat, content: seq<byte>, share: nat)
    requires Units(content) <= share && |content| <= maxInline && share > 0
    ensures Inline(maxInline, content, TokenLimit(maxInline, share))
  {
    AccountsAgree(content, share, maxInline);
  }

  class ResultStore {
    const c: Setting
    const maxInline: nat
    var stored: map<string, Data>

    ghost predicate Sound()
      reads this
    {
      Sane(c) && maxInline > 0 && Addressed(c, stored)
    }

    constructor (c: Setting, maxInline: int)
      requires Sane(c)
      ensures Sound() && stored == map[] && this.c == c && this.maxInline == if maxInline <= 0 then 32768 else maxInline
    {
      this.c := c;
      this.maxInline := if maxInline <= 0 then 32768 else maxInline;
      stored := map[];
    }

    method Project(use: Use, original: seq<byte>, handle: string, tokens: nat) returns (content: seq<byte>)
      requires Sane(c)
      ensures Shows(c, use, original, handle, maxInline, tokens, content)
    {
      var limit := ByteLimit(original, tokens, maxInline);
      if use == TurnHistory {
        content := FitTailNotice(c.tailNotice, original, c.quote(handle), limit, tokens);
      } else {
        content := FitNotice(c.notice, original, c.quote(handle), limit, tokens);
      }
    }

    /** Shows a result inline if it fits the limits, else keeps it and shows an excerpt. `failure` is
        what the store would answer to a write: nothing, or what the result then says of it. */
    method AdmitWithin(use: Use, r: Result, maxTokens: nat, failure: Option<nat>) returns (a: Result)
      requires Sound()
      modifies this
      ensures Sound() && Answers(c, maxInline, use, maxTokens, old(stored), r, failure, stored, a)
    {
      if Settled(maxInline, stored, r, maxTokens) {
        return r;
      }
      var result := r.(receipt := None);
      if Restored(use, stored, r) {
        result := Result(Read(stored[r.handle]).content, Read(stored[r.handle]).rest, false, "", None);
      }
      var original := Stored(result.content, result.rest);
      var tokens := TokenLimit(maxInline, maxTokens);
      var limit := ByteLimit(original.content, tokens, maxInline);
      AccountsAgree(original.content, tokens, maxInline);
      if Tokens(original.content) <= tokens && |original.content| <= limit {
        return result.(receipt := Some(InlineReceipt(original.content, tokens)));
      }
      if failure.Some? {
        a := Fail(original.content, failure.value, result.handle, tokens);
      } else {
        a := Cut(use, original, tokens);
      }
    }

    method Cut(use: Use, original: Stored, tokens: nat) returns (a: Result)
      requires Sound()
      modifies this
      ensures Sound()
      ensures var handle := c.handleOf(Write(original));
        stored == old(stored)[handle := Write(original)] && Shows(c, use, original.content, handle, maxInline, tokens, a.content) &&
        a == Result(a.content, original.rest, true, handle, Some(CutReceipt(original.content, a.content, handle, tokens)))
    {
      var handle := c.handleOf(Write(original));
      Files(c, stored, original);
      stored := stored[handle := Write(original)];
      var content := Project(use, original.content, handle, tokens);
      return Result(content, original.rest, true, handle, Some(CutReceipt(original.content, content, handle, tokens)));
    }

    method Fail(original: seq<byte>, rest: nat, handle: string, tokens: nat) returns (a: Result)
      ensures IsFailure(c, maxInline, original, tokens, rest, handle, a)
    {
      var excerpt, more := BoundedSlice(original, 0, ByteLimit(original, tokens, maxInline));
      var notice := Heading(c.notice, |original|, []) + excerpt;
      a := Result(notice, rest, true, handle, Some(CutReceipt(original, notice, "", tokens)));
    }

    method AdmitEach(uses: seq<Use>, results: seq<Result>, order: seq<nat>, limits: seq<nat>,
                     failures: seq<Option<nat>>)
      returns (out: seq<Result>, ghost run: Batch)
      requires Sound() && |uses| == |results| == |limits| == |failures| && Permutes(order, |results|)
      modifies this
      ensures Sound() && |out| == |results| && Follows(c, maxInline, uses, results, out, run)
      ensures run.order == order && run.limits == limits && run.failures == failures && run.stores[0] == old(stored) && run.stores[|results|] == stored
    {
      out := results;
      run := Batch(order, limits, failures, [stored]);
      for k := 0 to |order|
        invariant Sound() && |out| == |results| && |run.stores| == k + 1 && run.stores[k] == stored && run.stores[0] == old(stored)
        invariant run.order == order && run.limits == limits && run.failures == failures
        invariant AdmittedUpto(c, maxInline, uses, results, out, run, k)
      {
        var admitted := AdmitWithin(uses[order[k]], results[order[k]], limits[k], failures[k]);
        ghost var next := run.(stores := run.stores + [stored]);
        var filled := out[order[k] := admitted];
        OneMoreAdmitted(c, maxInline, uses, results, out, filled, run, next, k);
        out, run := filled, next;
      }
    }

    /** Admits a batch under a shared pool, smallest results first. A zero pool means none. */
    method AdmitBatchWithin(uses: seq<Use>, results: seq<Result>, itemTokens: nat, totalTokens: nat,
                            failures: seq<Option<nat>>)
      returns (out: seq<Result>, ghost run: Batch)
      requires Sound() && |uses| == |results| == |failures|
      modifies this
      ensures Sound() && |out| == |results| && Follows(c, maxInline, uses, results, out, run) && run.failures == failures
      ensures run.stores[0] == old(stored) && run.stores[|results|] == stored
      ensures totalTokens == 0 ==> forall k | 0 <= k < |results| :: run.order[k] == k && run.limits[k] == itemTokens
      ensures totalTokens > 0 ==> InSizeOrder(results, run.order)
      ensures totalTokens > 0 ==> SharesFairly(SizesInOrder(results, run.order), WaterFilling.Max(1, itemTokens), totalTokens, run.limits)
    {
      var order, limits;
      if totalTokens == 0 {
        order := seq(|results|, i => i);
        limits := seq(|results|, i => itemTokens);
        IdentityPermutes(order, |results|);
      } else {
        order := SortBySize(Sizes(results));
        ghost var pools;
        limits, pools := WaterFilling.Share(SizesInOrder(results, order), itemTokens, totalTokens);
        SizeOrderAscends(results, order);
        PouringIsFair(SizesInOrder(results, order), WaterFilling.Max(1, itemTokens), totalTokens, limits, pools);
      }
      out, run := AdmitEach(uses, results, order, limits, failures);
    }
  }

  // ---- A batch ----

  /** The order in which a batch was admitted, the limits it was given, what the store would answer to
      each write, and what it held after each. */
  datatype Batch = Batch(order: seq<nat>, limits: seq<nat>, failures: seq<Option<nat>>, stores: seq<map<string, Data>>)

  /** What holds of the shares of a pool, in order of size: they stay within the pool, nobody gets less
      than an equal split would give him, they never fall, and once one is cut the pool is spent to the
      last token, evenly, and is less than was wanted. */
  ghost predicate SharesFairly(sizes: seq<nat>, itemCap: nat, total: nat, shares: seq<nat>) {
    |shares| == |sizes| && WaterFilling.Sum(shares) <= WaterFilling.Max(total, |sizes|) &&
    (forall k | 0 <= k < |sizes| ::
       shares[k] >= WaterFilling.Max(1, WaterFilling.Min(WaterFilling.Min(sizes[k], itemCap), total / |sizes|))) &&
    (forall j, k | 0 <= j <= k < |sizes| :: shares[j] <= shares[k]) &&
    (forall k | 0 <= k < |sizes| && total >= |sizes| && WaterFilling.Cut(sizes[k], itemCap, shares[k]) ::
       SpendsThePool(sizes, itemCap, total, shares, k))
  }

  ghost predicate SpendsThePool(sizes: seq<nat>, itemCap: nat, total: nat, shares: seq<nat>, k: nat)
    requires |shares| == |sizes|
  {
    WaterFilling.Sum(shares) == total < WaterFilling.Sum(WaterFilling.Wants(sizes, itemCap)) &&
    forall i, j | k <= i <= j < |sizes| :: shares[j] <= shares[i] + 1
  }

  lemma CutSpends(sizes: seq<nat>, itemCap: nat, total: nat, shares: seq<nat>, pools: seq<nat>, k: nat)
    requires WaterFilling.Sorted(sizes) && |shares| == |sizes| && WaterFilling.Pours(sizes, itemCap, total, shares, pools)
    requires k < |sizes| && total >= |sizes| && WaterFilling.Cut(sizes[k], itemCap, shares[k])
    ensures SpendsThePool(sizes, itemCap, total, shares, k)
  {
    WaterFilling.CutsSpendThePool(sizes, itemCap, total, shares, pools, k);
    WaterFilling.CutsOnlyWhenShort(sizes, itemCap, total, shares, pools, k);
  }

  lemma PouringIsFair(sizes: seq<nat>, itemCap: nat, total: nat, shares: seq<nat>, pools: seq<nat>)
    requires WaterFilling.Sorted(sizes) && |shares| == |sizes| && WaterFilling.Pours(sizes, itemCap, total, shares, pools)
    ensures SharesFairly(sizes, itemCap, total, shares)
  {
    WaterFilling.PoolIsNotExceeded(sizes, itemCap, total, shares, pools);
    forall k | 0 <= k < |sizes| {
      WaterFilling.NoWorseThanEqualSplit(sizes, itemCap, total, shares, pools, k);
    }
    forall j, k | 0 <= j <= k < |sizes| {
      WaterFilling.SharesRise(sizes, itemCap, total, shares, pools, j, k);
    }
    forall k | 0 <= k < |sizes| && total >= |sizes| && WaterFilling.Cut(sizes[k], itemCap, shares[k]) {
      CutSpends(sizes, itemCap, total, shares, pools, k);
    }
  }

  ghost predicate AdmittedAt(c: Setting, maxInline: nat, uses: seq<Use>, results: seq<Result>, out: seq<Result>,
                             run: Batch, k: nat)
    requires |uses| == |results| == |out| && k < |run.order| && k < |run.limits| && k < |run.failures| && k + 1 < |run.stores| && run.order[k] < |results|
  {
    var i := run.order[k];
    Answers(c, maxInline, uses[i], run.limits[k], run.stores[k], results[i], run.failures[k], run.stores[k + 1], out[i])
  }

  lemma StillAdmitted(c: Setting, maxInline: nat, uses: seq<Use>, results: seq<Result>, out: seq<Result>,
                      out': seq<Result>,
                      run: Batch, run': Batch, k: nat)
    requires |uses| == |results| == |out| == |out'| && k < |run.order| && k < |run.limits| && k < |run.failures| && k + 1 < |run.stores| && run.order[k] < |results|
    requires AdmittedAt(c, maxInline, uses, results, out, run, k)
    requires run'.order == run.order && run'.limits == run.limits && run'.failures == run.failures && run.stores <= run'.stores && out'[run.order[k]] == out[run.order[k]]
    ensures AdmittedAt(c, maxInline, uses, results, out', run', k)
  {
  }

  /** The first k of a batch have been admitted. */
  ghost predicate AdmittedUpto(c: Setting, maxInline: nat, uses: seq<Use>, results: seq<Result>, out: seq<Result>,
                               run: Batch, k: nat) {
    |uses| == |results| == |out| && Permutes(run.order, |results|) && k <= |results| == |run.limits| == |run.failures| &&
    |run.stores| == k + 1 && forall j | 0 <= j < k :: AdmittedAt(c, maxInline, uses, results, out, run, j)
  }

  lemma OneMoreAdmitted(c: Setting, maxInline: nat, uses: seq<Use>, results: seq<Result>, out: seq<Result>,
                        out': seq<Result>, run: Batch, run': Batch, k: nat)
    requires AdmittedUpto(c, maxInline, uses, results, out, run, k) && k < |results|
    requires run' == run.(stores := run'.stores) && run.stores <= run'.stores && |run'.stores| == k + 2
    requires |out'| == |out| && out' == out[run.order[k] := out'[run.order[k]]]
    requires AdmittedAt(c, maxInline, uses, results, out', run', k)
    ensures AdmittedUpto(c, maxInline, uses, results, out', run', k + 1)
  {
    forall j | 0 <= j < k
      ensures AdmittedAt(c, maxInline, uses, results, out', run', j)
    {
      StillAdmitted(c, maxInline, uses, results, out, out', run, run', j);
    }
  }

  ghost predicate Follows(c: Setting, maxInline: nat, uses: seq<Use>, results: seq<Result>, out: seq<Result>,
                          run: Batch)
    requires |uses| == |results| == |out|
  {
    Permutes(run.order, |results|) && |run.limits| == |run.failures| == |results| && |run.stores| == |results| + 1 &&
    forall k | 0 <= k < |results| :: AdmittedAt(c, maxInline, uses, results, out, run, k)
  }

  function Sizes(results: seq<Result>): (sizes: seq<nat>)
    ensures |sizes| == |results| && forall i | 0 <= i < |sizes| :: sizes[i] == Units(results[i].content)
  {
    seq(|results|, i requires 0 <= i < |results| => Units(results[i].content))
  }

  function SizesInOrder(results: seq<Result>, order: seq<nat>): (sizes: seq<nat>)
    requires forall k | 0 <= k < |order| :: order[k] < |results|
    ensures |sizes| == |order| && forall k | 0 <= k < |order| :: sizes[k] == Units(results[order[k]].content)
  {
    seq(|order|, k requires 0 <= k < |order| => Units(results[order[k]].content))
  }

  predicate Before(sizes: seq<nat>, i: nat, j: nat)
    requires i < |sizes| && j < |sizes|
  {
    sizes[i] < sizes[j] || (sizes[i] == sizes[j] && i < j)
  }

  predicate Ordered(sizes: seq<nat>, order: seq<nat>)
    requires forall k | 0 <= k < |order| :: order[k] < |sizes|
  {
    forall j, k | 0 <= j < k < |order| :: Before(sizes, order[j], order[k])
  }

  predicate InSizeOrder(results: seq<Result>, order: seq<nat>) {
    Permutes(order, |results|) && Ordered(Sizes(results), order)
  }

  /** The results by size, and by position among those of one size. */
  method SortBySize(sizes: seq<nat>) returns (order: seq<nat>)
    ensures Permutes(order, |sizes|) && Ordered(sizes, order)
  {
    order := [];
    for i := 0 to |sizes|
      invariant Permutes(order, i) && Ordered(sizes, order)
    {
      var p := i;
      while p > 0 && sizes[order[p - 1]] > sizes[i]
        invariant p <= i && forall k | p <= k < i :: sizes[order[k]] > sizes[i]
      {
        p := p - 1;
      }
      InsertKeepsOrder(sizes, order, i, p);
      order := Insert(order, i, p);
    }
  }

  function Insert(order: seq<nat>, i: nat, p: nat): (next: seq<nat>)
    requires p <= |order|
    ensures |next| == |order| + 1 && next[p] == i
    ensures forall k | 0 <= k < p :: next[k] == order[k]
    ensures forall k | p < k <= |order| :: next[k] == order[k - 1]
  {
    order[..p] + [i] + order[p..]
  }

  lemma InsertPermutes(order: seq<nat>, i: nat, p: nat)
    requires p <= i && Permutes(order, i)
    ensures Permutes(Insert(order, i, p), i + 1)
  {
    var next := Insert(order, i, p);
    forall j | 0 <= j < i + 1
      ensures j in next
    {
      if j < i {
        assert j in order;
        var k :| 0 <= k < |order| && order[k] == j;
        assert next[if k < p then k else k + 1] == j;
      }
    }
  }

  lemma InsertKeepsOrder(sizes: seq<nat>, order: seq<nat>, i: nat, p: nat)
    requires i < |sizes| && p <= i && Permutes(order, i) && Ordered(sizes, order)
    requires (forall k | p <= k < i :: sizes[order[k]] > sizes[i]) && (p > 0 ==> sizes[order[p - 1]] <= sizes[i])
    ensures Permutes(Insert(order, i, p), i + 1) && Ordered(sizes, Insert(order, i, p))
  {
    InsertPermutes(order, i, p);
    forall k | 0 <= k < p
      ensures Before(sizes, order[k], i)
    {
      assert k < p - 1 ==> Before(sizes, order[k], order[p - 1]);
    }
  }

  /** In size order the sizes ascend, as the sharing of the pool needs. */
  lemma SizeOrderAscends(results: seq<Result>, order: seq<nat>)
    requires InSizeOrder(results, order)
    ensures WaterFilling.Sorted(SizesInOrder(results, order))
  {
    forall j, k | 0 <= j < k < |order|
      ensures SizesInOrder(results, order)[j] <= SizesInOrder(results, order)[k]
    {
      assert Before(Sizes(results), order[j], order[k]);
    }
  }

  lemma {:induction false} StoresGrow(c: Setting, maxInline: nat, uses: seq<Use>, results: seq<Result>,
                                      out: seq<Result>, run: Batch,
                                      h: string, j: nat, k: nat)
    requires Sane(c) && |uses| == |results| == |out| && Follows(c, maxInline, uses, results, out, run) && Addressed(c, run.stores[0])
    requires j <= k <= |results| && h in run.stores[j]
    ensures Addressed(c, run.stores[k]) && h in run.stores[k] && run.stores[k][h] == run.stores[j][h]
    decreases k
  {
    if k > 0 {
      var m := k - 1;
      if j <= m {
        StoresGrow(c, maxInline, uses, results, out, run, h, j, m);
      } else {
        StoresAddressed(c, maxInline, uses, results, out, run, m);
      }
      assert AdmittedAt(c, maxInline, uses, results, out, run, m);
      var i := run.order[m];
      StoreGrows(c, maxInline, uses[i], run.limits[m], run.stores[m], results[i], run.failures[m], run.stores[m + 1], out[i]);
    }
  }

  lemma StoreGrows(c: Setting, maxInline: nat, use: Use, maxTokens: nat, stored: map<string, Data>, r: Result,
                   failure: Option<nat>, stored': map<string, Data>, a: Result)
    requires Sane(c) && Addressed(c, stored) && Answers(c, maxInline, use, maxTokens, stored, r, failure, stored', a)
    ensures Addressed(c, stored') && forall h | h in stored :: h in stored' && stored'[h] == stored[h]
  {
    if failure.None? || Whole(maxInline, use, maxTokens, stored, r) {
      AdmissionKeepsStore(c, maxInline, use, maxTokens, stored, r, stored', a);
    }
  }

  lemma {:induction false} StoresAddressed(c: Setting, maxInline: nat, uses: seq<Use>, results: seq<Result>,
                                           out: seq<Result>, run: Batch, k: nat)
    requires Sane(c) && |uses| == |results| == |out| && Follows(c, maxInline, uses, results, out, run) && Addressed(c, run.stores[0])
    requires k <= |results|
    ensures Addressed(c, run.stores[k])
    decreases k
  {
    if k > 0 {
      StoresAddressed(c, maxInline, uses, results, out, run, k - 1);
      assert AdmittedAt(c, maxInline, uses, results, out, run, k - 1);
      var i := run.order[k - 1];
      StoreGrows(c, maxInline, uses[i], run.limits[k - 1], run.stores[k - 1], results[i], run.failures[k - 1], run.stores[k - 1 + 1], out[i]);
    }
  }

  /** A result's original as it was before the batch is what its turn found. */
  lemma OriginalWaits(c: Setting, maxInline: nat, uses: seq<Use>, results: seq<Result>, out: seq<Result>, run: Batch,
                      k: nat, i: nat)
    requires Sane(c) && |uses| == |results| == |out| && Follows(c, maxInline, uses, results, out, run) && Addressed(c, run.stores[0])
    requires k < |results| && i == run.order[k]
    requires results[i].truncated && results[i].handle != "" ==> results[i].handle in run.stores[0]
    ensures Addressed(c, run.stores[k]) && Original(uses[i], run.stores[k], results[i]) == Original(uses[i], run.stores[0], results[i])
    ensures results[i].truncated && results[i].handle != "" ==> results[i].handle in run.stores[k]
  {
    StoresAddressed(c, maxInline, uses, results, out, run, k);
    if results[i].truncated && results[i].handle != "" {
      StoresGrow(c, maxInline, uses, results, out, run, results[i].handle, 0, k);
    }
  }

  lemma CutIsStored(c: Setting, maxInline: nat, use: Use, maxTokens: nat, stored: map<string, Data>, r: Result,
                    stored': map<string, Data>, a: Result)
    requires Admits(c, maxInline, use, maxTokens, stored, r, stored', a) && (r.truncated && r.handle != "" ==> r.handle in stored)
    ensures a.truncated && a.handle != "" ==> a.handle in stored'
  {
  }

  /** After a whole batch a result the store took still leads to its original, however its share cut it,
      exactly when the original is valid UTF-8 or did not have to be cut. (A handle that leads
      nowhere has no original to lose.) */
  lemma BatchIsLossless(c: Setting, maxInline: nat, uses: seq<Use>, results: seq<Result>, out: seq<Result>,
                        run: Batch, k: nat, i: nat)
    requires Sane(c) && |uses| == |results| == |out| && Follows(c, maxInline, uses, results, out, run) && Addressed(c, run.stores[0])
    requires k < |results| && i == run.order[k] && uses[i] != Retrieval && run.failures[k].None?
    requires results[i].truncated && results[i].handle != "" ==> results[i].handle in run.stores[0]
    ensures Original(uses[i], run.stores[|results|], out[i]) == Original(uses[i], run.stores[0], results[i]) <==>
      Valid(Original(uses[i], run.stores[0], results[i]).content) || Whole(maxInline, uses[i], run.limits[k], run.stores[k], results[i])
  {
    assert AdmittedAt(c, maxInline, uses, results, out, run, k);
    OriginalWaits(c, maxInline, uses, results, out, run, k, i);
    AdmissionIsLossless(c, maxInline, uses[i], run.limits[k], run.stores[k], results[i], run.stores[k + 1], out[i]);
    CutIsStored(c, maxInline, uses[i], run.limits[k], run.stores[k], results[i], run.stores[k + 1], out[i]);
    OriginalLasts(c, maxInline, uses, results, out, run, k + 1, i);
  }

  lemma OriginalLasts(c: Setting, maxInline: nat, uses: seq<Use>, results: seq<Result>, out: seq<Result>, run: Batch,
                      k: nat, i: nat)
    requires Sane(c) && |uses| == |results| == |out| && Follows(c, maxInline, uses, results, out, run) && Addressed(c, run.stores[0])
    requires k <= |results| && i < |results| && (out[i].truncated && out[i].handle != "" ==> out[i].handle in run.stores[k])
    ensures Original(uses[i], run.stores[|results|], out[i]) == Original(uses[i], run.stores[k], out[i])
  {
    if out[i].truncated && out[i].handle != "" {
      StoresGrow(c, maxInline, uses, results, out, run, out[i].handle, k, |results|);
    }
  }

  /** A new result no larger than an equal share of the pool, and than the cap, comes out of a batch as
      it went in, whatever else is in the batch and whether or not the store takes anything. */
  lemma EqualShareStaysWhole(c: Setting, maxInline: nat, uses: seq<Use>, results: seq<Result>, out: seq<Result>,
                             run: Batch, itemCap: nat, total: nat, k: nat, i: nat)
    requires |uses| == |results| == |out| && Follows(c, maxInline, uses, results, out, run)
    requires SharesFairly(SizesInOrder(results, run.order), itemCap, total, run.limits)
    requires k < |results| && i == run.order[k] && results[i].receipt.None? && !results[i].truncated
    requires |results[i].content| <= maxInline &&
      Units(results[i].content) <= WaterFilling.Max(1, WaterFilling.Min(itemCap, total / |results|))
    ensures out[i].content == results[i].content && out[i].rest == results[i].rest && !out[i].truncated
    ensures out[i].receipt.Some? && !out[i].receipt.value.truncated
  {
    var sizes := SizesInOrder(results, run.order);
    assert AdmittedAt(c, maxInline, uses, results, out, run, k);
    assert sizes[k] == Units(results[i].content) <= run.limits[k];
    ShareKeepsWhole(maxInline, results[i].content, run.limits[k]);
  }
}
