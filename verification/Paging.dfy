/** Reading a stored result page by page, by bytes and by lines. */
module Paging {
  import opened Utf8
  import opened Excerpts

  function Join(pages: seq<seq<byte>>): seq<byte> {
    if pages == [] then [] else Join(pages[..|pages| - 1]) + pages[|pages| - 1]
  }

  lemma JoinNext(pages: seq<seq<byte>>, i: nat)
    requires i < |pages|
    ensures Join(pages[..i + 1]) == Join(pages[..i]) + pages[i]
  {
    assert pages[..i + 1][..i] == pages[..i];
  }

  lemma {:induction false} JoinParts(a: seq<seq<byte>>, b: seq<seq<byte>>)
    ensures Join(a + b) == Join(a) + Join(b)
    decreases |b|
  {
    if b == [] {
      assert a + b == a;
    } else {
      var last := |b| - 1;
      JoinParts(a, b[..last]);
      assert (a + b)[..|a + b| - 1] == a + b[..last];
    }
  }

  // ---- By bytes ----

  /** From page n on a reading follows next_offset: each page begins where those before it end, and
      only the last has nothing after it. */
  ghost predicate Reading(value: seq<byte>, n: nat, limit: nat, pages: seq<seq<byte>>) {
    n < |pages| && forall i | n <= i < |pages| :: IsSlice(value, |Join(pages[..i])|, limit, pages[i], i + 1 < |pages|)
  }

  /** Every page is valid and within the limit. */
  predicate Bounded(pages: seq<seq<byte>>, limit: nat) {
    forall page | page in pages :: Valid(page) && |page| <= limit
  }

  lemma SliceIsValid(value: seq<byte>, offset: int, limit: nat, page: seq<byte>, more: bool)
    requires IsSlice(value, offset, limit, page, more)
    ensures Valid(page) && |page| <= limit
  {
  }

  /** At a boundary a slice begins right there. */
  lemma SliceAt(value: seq<byte>, p: nat, limit: nat, page: seq<byte>, more: bool)
    requires p <= |value| && Boundary(value, p) && IsSlice(value, p, limit, page, more)
    ensures p + |page| <= |value| && page == value[p..p + |page|] && more == (p + |page| < |value|)
  {
    assert p < |value| && limit > 0 ==> page == value[p..][..|page|];
  }

  lemma Splits(value: seq<byte>, p: nat, q: nat)
    requires p <= q <= |value|
    ensures value[..q] == value[..p] + value[p..q]
  {
  }

  /** A valid stretch from a boundary ends at one. */
  lemma BoundaryMoves(value: seq<byte>, p: nat, q: nat)
    requires Valid(value) && p <= q <= |value| && Boundary(value, p) && Valid(value[p..q])
    ensures Boundary(value, q)
  {
    assert Valid(value[..q]) by {
      BoundarySplits(value, p);
      ValidJoin(value[..p], value[p..q]);
      Splits(value, p, q);
    }
    BoundarySplits(value, q);
  }

  lemma PageContinues(value: seq<byte>, p: nat, limit: nat, page: seq<byte>, more: bool)
    requires Valid(value) && p <= |value| && Boundary(value, p) && IsSlice(value, p, limit, page, more)
    ensures p + |page| <= |value| && page == value[p..p + |page|] && Boundary(value, p + |page|)
    ensures Valid(page) && |page| <= limit && more == (p + |page| < |value|)
  {
    SliceAt(value, p, limit, page, more);
    SliceIsValid(value, p, limit, page, more);
    BoundaryMoves(value, p, p + |page|);
  }

  /** What has been read is the text up to a boundary. */
  predicate IsRead(value: seq<byte>, read: seq<byte>) {
    |read| <= |value| && read == value[..|read|] && Boundary(value, |read|)
  }

  lemma PageAdvances(value: seq<byte>, read: seq<byte>, limit: nat, page: seq<byte>, more: bool)
    requires Valid(value) && IsRead(value, read) && IsSlice(value, |read|, limit, page, more)
    ensures IsRead(value, read + page) && more == (|read + page| < |value|)
  {
    PageContinues(value, |read|, limit, page, more);
    Reads(value, read, page, |read|, |read| + |page|);
  }

  lemma Reads(value: seq<byte>, read: seq<byte>, page: seq<byte>, p: nat, q: nat)
    requires p == |read| && q == p + |page| <= |value| && read == value[..p] && page == value[p..q] && Boundary(value, q)
    ensures IsRead(value, read + page)
  {
    Splits(value, p, q);
  }

  lemma ReadingIsBounded(value: seq<byte>, n: nat, limit: nat, pages: seq<seq<byte>>)
    requires Reading(value, n, limit, pages) && Bounded(pages[..n], limit)
    ensures Bounded(pages, limit)
  {
    forall i | 0 <= i < |pages|
      ensures Valid(pages[i]) && |pages[i]| <= limit
    {
      if i < n {
        assert pages[..n][i] == pages[i];
      } else {
        SliceIsValid(value, |Join(pages[..i])|, limit, pages[i], i + 1 < |pages|);
      }
    }
  }

  lemma AllPages(pages: seq<seq<byte>>)
    ensures pages[..|pages|] == pages
  {
  }

  lemma AllBytes(value: seq<byte>)
    ensures value[..|value|] == value
  {
  }

  // Readings are followed and put together page by page, whatever a page may be.

  type Slicing = (nat, seq<byte>, bool) -> bool

  ghost predicate Paged(slice: Slicing, n: nat, pages: seq<seq<byte>>, last: bool) {
    forall i | n <= i < |pages| :: slice(|Join(pages[..i])|, pages[i], last ==> i + 1 < |pages|)
  }

  ghost predicate Leads(slice: Slicing, got: seq<byte> -> bool, length: nat) {
    forall read, page, more | got(read) && slice(|read|, page, more) :: got(read + page) && more == (|read + page| < length)
  }

  lemma {:induction false} PagesLead(slice: Slicing, got: seq<byte> -> bool, length: nat, n: nat,
                                     pages: seq<seq<byte>>, i: nat)
    requires Leads(slice, got, length) && Paged(slice, n, pages, true) && n <= i <= |pages| && got(Join(pages[..n]))
    ensures got(Join(pages[..i]))
    ensures n < i == |pages| ==> |Join(pages[..i])| >= length
    decreases i
  {
    if n < i {
      PagesLead(slice, got, length, n, pages, i - 1);
      JoinNext(pages, i - 1);
      assert slice(|Join(pages[..i - 1])|, pages[i - 1], i < |pages|);
    }
  }

  ghost function SliceOf(value: seq<byte>, limit: nat): Slicing {
    (p: nat, page: seq<byte>, more: bool) => IsSlice(value, p, limit, page, more)
  }

  function ReadOf(value: seq<byte>): seq<byte> -> bool {
    (read: seq<byte>) => IsRead(value, read)
  }

  lemma SlicesLead(value: seq<byte>, limit: nat)
    requires Valid(value)
    ensures Leads(SliceOf(value, limit), ReadOf(value), |value|)
  {
    forall read, page, more | ReadOf(value)(read) && SliceOf(value, limit)(|read|, page, more)
      ensures ReadOf(value)(read + page) && more == (|read + page| < |value|)
    {
      PageAdvances(value, read, limit, page, more);
    }
  }

  lemma ReadingIsPaged(value: seq<byte>, n: nat, limit: nat, pages: seq<seq<byte>>)
    requires n < |pages|
    ensures Reading(value, n, limit, pages) <==> Paged(SliceOf(value, limit), n, pages, true)
  {
    forall i | n <= i < |pages|
      ensures IsSlice(value, |Join(pages[..i])|, limit, pages[i], i + 1 < |pages|) == SliceOf(value, limit)(|Join(pages[..i])|, pages[i], true ==> i + 1 < |pages|)
    {
    }
  }

  /** Every complete reading of valid text gives back the text, if the pages before it gave the text up
      to a boundary. */
  lemma ReadingReassembles(value: seq<byte>, n: nat, limit: nat, pages: seq<seq<byte>>)
    requires Valid(value) && Reading(value, n, limit, pages) && IsRead(value, Join(pages[..n]))
    ensures Join(pages) == value
  {
    AllPages(pages);
    AllBytes(value);
    SlicesLead(value, limit);
    ReadingIsPaged(value, n, limit, pages);
    assert ReadOf(value)(Join(pages[..n]));
    PagesLead(SliceOf(value, limit), ReadOf(value), |value|, n, pages, |pages|);
    assert ReadOf(value)(Join(pages[..|pages|]));
  }

  /** Read from the beginning, valid text comes back out of valid pages within the limit. */
  lemma ReadingIsFaithful(value: seq<byte>, limit: nat, pages: seq<seq<byte>>)
    requires Valid(value) && Reading(value, 0, limit, pages)
    ensures Join(pages) == value && Bounded(pages, limit)
  {
    assert pages[..0] == [] && value[..0] == [];
    ReadingReassembles(value, 0, limit, pages);
    ReadingIsBounded(value, 0, limit, pages);
  }

  lemma RuneIsPrefix(s: seq<byte>)
    requires s != [] && RuneLen(s) > 0
    ensures Valid(s[..RuneLen(s)])
  {
    assert s[..RuneLen(s)] + s[RuneLen(s)..] == s;
    RuneLenShrinks(s[..RuneLen(s)], s[RuneLen(s)..]);
  }

  lemma AfterPage(value: seq<byte>, p: nat, limit: nat, q: nat)
    requires Valid(value) && p <= q <= |value| && Boundary(value, p) && Widest(value[p..]) <= limit && Valid(value[p..q])
    ensures Boundary(value, q) && Widest(value[q..]) <= limit
  {
    BoundaryMoves(value, p, q);
    WidestOfRest(value, p, q);
  }

  lemma LongestMoves(rest: seq<byte>, limit: nat, e: nat)
    requires rest != [] && Valid(rest) && Widest(rest) <= limit && LongestValid(rest, limit, e)
    ensures 0 < e
  {
    RuneIsPrefix(rest);
  }

  lemma LongestIsSlice(value: seq<byte>, p: nat, limit: nat, page: seq<byte>, more: bool)
    requires p < |value| && Boundary(value, p) && limit > 0 && LongestValid(value[p..], limit, |page|)
    requires page == value[p..][..|page|] && more == (p + |page| < |value|)
    ensures IsSlice(value, p, limit, page, more)
  {
  }

  lemma WidestOfRest(value: seq<byte>, p: nat, q: nat)
    requires p <= q <= |value| && Valid(value[p..q])
    ensures Widest(value[q..]) <= Widest(value[p..])
  {
    assert value[p..] == value[p..q] + value[q..];
    WidestJoin(value[p..q], value[q..]);
  }

  lemma {:induction false} Longest(s: seq<byte>, cap: nat, k: nat) returns (e: nat)
    requires k <= |s| && k <= cap && forall j | k < j <= |s| && j <= cap :: !Valid(s[..j])
    ensures LongestValid(s, cap, e)
    decreases k
  {
    if Valid(s[..k]) {
      e := k;
    } else {
      e := Longest(s, cap, k - 1);
    }
  }

  ghost predicate NextPage(slice: Slicing, ahead: nat -> bool, length: nat, p: nat, page: seq<byte>, more: bool) {
    page != [] && p + |page| <= length && slice(p, page, more) && more == (p + |page| < length) && (more ==> ahead(p + |page|))
  }

  lemma JoinSnoc(read: seq<seq<byte>>, page: seq<byte>)
    ensures Join(read + [page]) == Join(read) + page
    ensures forall i | 0 <= i <= |read| :: (read + [page])[..i] == read[..i]
  {
    assert (read + [page])[..|read|] == read;
  }

  lemma PagedNext(slice: Slicing, n: nat, read: seq<seq<byte>>, p: nat, page: seq<byte>, more: bool,
                  pages: seq<seq<byte>>)
    requires Paged(slice, n, read, false) && p == |Join(read)| && slice(p, page, more) && pages == read + [page]
    ensures Paged(slice, n, pages, !more) && |Join(pages)| == p + |page|
  {
    JoinSnoc(read, page);
    assert read[..|read|] == read;
    forall i | n <= i < |pages|
      ensures slice(|Join(pages[..i])|, pages[i], !more ==> i + 1 < |pages|)
    {
      assert pages[..i] == read[..i];
    }
  }

  lemma {:induction false} PageOn(slice: Slicing, ahead: nat -> bool, length: nat, n: nat, read: seq<seq<byte>>,
                                  p: nat) returns (pages: seq<seq<byte>>)
    requires forall q: nat | q < length && ahead(q) :: exists page, more :: NextPage(slice, ahead, length, q, page, more)
    requires n <= |read| && p == |Join(read)| < length && ahead(p) && Paged(slice, n, read, false)
    ensures |read| < |pages| && read <= pages && Paged(slice, n, pages, true)
    decreases length - p
  {
    var page, more :| NextPage(slice, ahead, length, p, page, more);
    pages := read + [page];
    PagedNext(slice, n, read, p, page, more, pages);
    if more {
      pages := PageOn(slice, ahead, length, n, pages, p + |page|);
    }
  }

  /** Room for a page, and every rune still to come fits one. */
  ghost predicate Ahead(value: seq<byte>, limit: nat, p: nat) {
    p < |value| && Boundary(value, p) && Widest(value[p..]) <= limit
  }

  ghost function AheadOf(value: seq<byte>, limit: nat): nat -> bool {
    (p: nat) => Ahead(value, limit, p)
  }

  /** A page is never empty while a rune that fits is left. */
  lemma LongestPage(value: seq<byte>, p: nat, limit: nat) returns (e: nat)
    requires Valid(value) && Ahead(value, limit, p)
    ensures 0 < e && p + e <= |value| && LongestValid(value[p..], limit, e) && limit > 0 && Valid(value[p..p + e])
  {
    BoundarySplits(value, p);
    var rest := value[p..];
    e := Longest(rest, limit, if |rest| < limit then |rest| else limit);
    LongestMoves(rest, limit, e);
    SuffixSlice(value, p, e);
  }

  lemma FindPage(value: seq<byte>, p: nat, limit: nat) returns (page: seq<byte>, more: bool)
    requires Valid(value) && Ahead(value, limit, p)
    ensures page != [] && p + |page| <= |value| && SliceOf(value, limit)(p, page, more)
    ensures more == (p + |page| < |value|) && (more ==> Ahead(value, limit, p + |page|))
  {
    var e := LongestPage(value, p, limit);
    page, more := PageOf(value, p, limit, e);
    if more {
      AfterFound(value, p, limit, p + e);
    }
  }

  lemma PageOf(value: seq<byte>, p: nat, limit: nat, e: nat) returns (page: seq<byte>, more: bool)
    requires p + e <= |value| && p < |value| && Boundary(value, p) && limit > 0 && LongestValid(value[p..], limit, e)
    ensures |page| == e && more == (p + e < |value|) && SliceOf(value, limit)(p, page, more)
  {
    page, more := value[p..][..e], p + e < |value|;
    LongestIsSlice(value, p, limit, page, more);
  }

  lemma SuffixSlice(value: seq<byte>, p: nat, n: nat)
    requires p + n <= |value|
    ensures value[p..][..n] == value[p..p + n]
  {
  }

  lemma AfterFound(value: seq<byte>, p: nat, limit: nat, q: nat)
    requires Valid(value) && Ahead(value, limit, p) && p <= q < |value| && Valid(value[p..q])
    ensures Ahead(value, limit, q)
  {
    AfterPage(value, p, limit, q);
  }

  lemma NextPageExists(value: seq<byte>, limit: nat, p: nat) returns (page: seq<byte>, more: bool)
    requires Valid(value) && Ahead(value, limit, p)
    ensures NextPage(SliceOf(value, limit), AheadOf(value, limit), |value|, p, page, more)
  {
    page, more := FindPage(value, p, limit);
    MakesNext(SliceOf(value, limit), AheadOf(value, limit), |value|, p, page, more);
  }

  lemma MakesNext(slice: Slicing, ahead: nat -> bool, length: nat, p: nat, page: seq<byte>, more: bool)
    requires page != [] && p + |page| <= length && slice(p, page, more) && more == (p + |page| < length)
    requires p + |page| < length ==> ahead(p + |page|)
    ensures NextPage(slice, ahead, length, p, page, more)
  {
  }

  /** Whatever has been read, reading by bytes can go on from there to the end. */
  lemma ReadingGoesOn(value: seq<byte>, limit: nat, read: seq<seq<byte>>) returns (pages: seq<seq<byte>>)
    requires Valid(value) && Ahead(value, limit, |Join(read)|)
    ensures read <= pages && Reading(value, |read|, limit, pages)
  {
    var slice, ahead := SliceOf(value, limit), AheadOf(value, limit);
    forall q: nat | q < |value| && ahead(q)
      ensures exists page, more :: NextPage(slice, ahead, |value|, q, page, more)
    {
      var page, more := NextPageExists(value, limit, q);
    }
    assert Paged(slice, |read|, read, false);
    pages := PageOn(slice, ahead, |value|, |read|, read, |Join(read)|);
    ReadingIsPaged(value, |read|, limit, pages);
  }

  lemma {:induction false} JoinOfValid(pages: seq<seq<byte>>, limit: nat)
    requires Bounded(pages, limit)
    ensures Valid(Join(pages)) && Widest(Join(pages)) <= limit
  {
    if pages != [] {
      var last := |pages| - 1;
      JoinOfValid(pages[..last], limit);
      ValidJoin(Join(pages[..last]), pages[last]);
      WidestJoin(Join(pages[..last]), pages[last]);
      WidestBounds(pages[last]);
    }
  }

  /** Paging gives back exactly the text just when the text is valid UTF-8 and no rune of it is wider
      than a page. */
  lemma PagingIsLossless(value: seq<byte>, limit: nat)
    ensures (exists pages :: Reading(value, 0, limit, pages) && Join(pages) == value) <==> Valid(value) && Widest(value) <= limit
  {
    if pages :| Reading(value, 0, limit, pages) && Join(pages) == value {
      ReadingIsBounded(value, 0, limit, pages);
      JoinOfValid(pages, limit);
    }
    if Valid(value) && Widest(value) <= limit {
      if value == [] {
        assert Reading(value, 0, limit, [[]]) && Join([[]]) == value;
      } else {
        assert value[0..] == value && Join([]) == [];
        var pages := ReadingGoesOn(value, limit, []);
        ReadingIsFaithful(value, limit, pages);
      }
    }
  }

  /** Four bytes are enough for any text. */
  lemma FourByteLimitSuffices(value: seq<byte>, limit: nat)
    requires Valid(value) && limit >= 4
    ensures exists pages :: Reading(value, 0, limit, pages) && Join(pages) == value
  {
    WidestBounds(value);
    PagingIsLossless(value, limit);
  }

  /** A text of one rune of four bytes. */
  const WIDE: seq<byte> := [0xF0, 0x9F, 0x98, 0x80]

  /** Three bytes are not: before a rune of four the page is empty and promises more, so following
      next_offset stays where it is and no reading ever gives the text back. */
  lemma ThreeByteLimitCanStick()
    ensures Valid(WIDE)
    ensures forall page, more | IsSlice(WIDE, 0, 3, page, more) :: page == [] && more
    ensures !exists pages :: Reading(WIDE, 0, 3, pages) && Join(pages) == WIDE
  {
    assert RuneLen(WIDE) == 4 && WIDE[4..] == [];
    PagingIsLossless(WIDE, 3);
    forall page, more | IsSlice(WIDE, 0, 3, page, more)
      ensures page == [] && more
    {
      SliceFromStart(WIDE, 3, page, more);
      assert page != [] ==> RuneLen(page) == 0;
    }
  }

  // ---- By lines ----

  const NEWLINE: byte := 10

  /** The length of the first line, with its newline if it has one. */
  function FirstLine(value: seq<byte>): (n: nat)
    requires value != []
    ensures 1 <= n <= |value| && (n < |value| ==> value[n - 1] == NEWLINE)
    ensures forall i | 0 <= i < n - 1 :: value[i] != NEWLINE
  {
    if value[0] == NEWLINE || |value| == 1 then 1 else 1 + FirstLine(value[1..])
  }

  function Lines(value: seq<byte>): seq<seq<byte>> {
    if value == [] then [] else [value[..FirstLine(value)]] + Lines(value[FirstLine(value)..])
  }

  lemma {:induction false} LinesJoin(value: seq<byte>)
    ensures Join(Lines(value)) == value
  {
    if value != [] {
      var n := FirstLine(value);
      LinesJoin(value[n..]);
      JoinParts([value[..n]], Lines(value[n..]));
      assert Join([value[..n]]) == value[..n];
    }
  }

  function Newlines(value: seq<byte>): nat {
    if value == [] then 0 else (if value[0] == NEWLINE then 1 else 0) + Newlines(value[1..])
  }

  function CountLines(value: seq<byte>): nat {
    if value == [] then 0 else Newlines(value) + if value[|value| - 1] == NEWLINE then 0 else 1
  }

  lemma {:induction false} NewlinesAfter(value: seq<byte>, n: nat)
    requires n <= |value| && forall i | 0 <= i < n - 1 :: value[i] != NEWLINE
    ensures Newlines(value) == Newlines(value[n..]) + if n > 0 && value[n - 1] == NEWLINE then 1 else 0
    decreases n
  {
    if n > 0 {
      NewlinesAfter(value[1..], n - 1);
      assert value[1..][n - 1..] == value[n..];
    }
  }

  /** Counting newlines counts the lines. */
  lemma {:induction false} CountLinesCounts(value: seq<byte>)
    ensures CountLines(value) == |Lines(value)|
  {
    if value != [] {
      var n := FirstLine(value);
      var rest := value[n..];
      CountLinesCounts(rest);
      NewlinesAfter(value, n);
      assert n < |value| ==> value[|value| - 1] == rest[|rest| - 1];
      assert |Lines(value)| == 1 + |Lines(rest)|;
    }
  }

  /** Where a line begins; lines count from 1. */
  function LineStart(value: seq<byte>, line: nat): nat
    requires 1 <= line <= |Lines(value)| + 1
  {
    |Join(Lines(value)[..line - 1])|
  }

  lemma LineStartSplits(value: seq<byte>, line: nat, stop: nat)
    requires 1 <= line <= stop <= |Lines(value)| + 1
    ensures LineStart(value, line) <= LineStart(value, stop) <= |value|
    ensures Join(Lines(value)[line - 1..stop - 1]) == value[LineStart(value, line)..LineStart(value, stop)]
    ensures stop == |Lines(value)| + 1 ==> LineStart(value, stop) == |value|
  {
    var lines := Lines(value);
    LinesJoin(value);
    assert lines[..stop - 1] == lines[..line - 1] + lines[line - 1..stop - 1];
    JoinParts(lines[..line - 1], lines[line - 1..stop - 1]);
    assert lines == lines[..stop - 1] + lines[stop - 1..];
    JoinParts(lines[..stop - 1], lines[stop - 1..]);
  }

  /** The line after the last one asked for. */
  function LineStop(value: seq<byte>, startLine: nat, maxLines: nat): (stop: nat)
    requires 1 <= startLine <= |Lines(value)|
    ensures startLine < stop <= |Lines(value)| + 1
  {
    if maxLines > 0 && startLine + maxLines <= |Lines(value)| then startLine + maxLines else |Lines(value)| + 1
  }

  /** The lines asked for. */
  function Asked(value: seq<byte>, startLine: nat, maxLines: nat): seq<byte>
    requires 1 <= startLine <= |Lines(value)|
  {
    LineStartSplits(value, startLine, LineStop(value, startLine, maxLines));
    value[LineStart(value, startLine)..LineStart(value, LineStop(value, startLine, maxLines))]
  }

  /** As much of the lines asked for as fits: all of them, or the longest valid part within the limit. */
  ghost predicate ShowsLines(asked: seq<byte>, limit: nat, page: seq<byte>) {
    LongestValid(asked, limit, |page|) && page == asked[..|page|]
  }

  /** What selecting lines gives: whole lines and the number of the next, or as much as fits and the
      offset where that ends. */
  ghost predicate Selects(value: seq<byte>, startLine: nat, maxLines: nat, limit: nat, excerpt: seq<byte>, more: bool,
                          nextLine: nat, nextOffset: nat)
    requires 1 <= startLine <= |Lines(value)|
  {
    var asked, stop := Asked(value, startLine, maxLines), LineStop(value, startLine, maxLines);
    ShowsLines(asked, limit, excerpt) &&
    if excerpt == asked then
      nextOffset == 0 && nextLine == (if stop <= |Lines(value)| then stop else 0) && more == (nextLine > 0)
    else more && nextLine == 0 && nextOffset == LineStart(value, startLine) + |excerpt|
  }

  /** Lines are shown whole exactly when they are valid and fit. */
  lemma WholeWhenFits(asked: seq<byte>, limit: nat, page: seq<byte>)
    requires ShowsLines(asked, limit, page)
    ensures |page| <= limit && Valid(page) && |page| <= |asked|
    ensures page == asked <==> Valid(asked) && |asked| <= limit
    ensures page == asked <==> |page| == |asked|
  {
    assert asked[..|asked|] == asked;
  }

  method SelectLines(value: seq<byte>, startLine: nat, maxLines: nat, limit: nat)
    returns (excerpt: seq<byte>, more: bool, nextLine: nat, nextOffset: nat)
    requires startLine >= 1
    ensures |excerpt| <= limit && Valid(excerpt)
    ensures startLine > |Lines(value)| ==> excerpt == [] && !more && nextLine == 0 && nextOffset == 0
    ensures startLine <= |Lines(value)| ==> Selects(value, startLine, maxLines, limit, excerpt, more, nextLine, nextOffset)
  {
    var lines := Lines(value);
    if startLine > |lines| {
      return [], false, 0, 0;
    }
    var startOffset := OffsetOfLine(lines, startLine - 1);
    var rest := lines[startLine - 1..];
    var selectedLines := |rest|;
    if maxLines > 0 && |rest| > maxLines {
      rest := rest[..maxLines];
      selectedLines := maxLines;
    }
    assert rest == lines[startLine - 1..LineStop(value, startLine, maxLines) - 1];
    LineStartSplits(value, startLine, LineStop(value, startLine, maxLines));
    var selected := Join(rest);
    assert selected == Asked(value, startLine, maxLines);
    var byteMore;
    excerpt, byteMore := BoundedSlice(selected, 0, limit);
    SliceFromStart(selected, limit, excerpt, byteMore);
    WholeWhenFits(selected, limit, excerpt);
    if byteMore {
      return excerpt, true, 0, startOffset + |excerpt|;
    }
    nextLine := startLine + selectedLines;
    CountLinesCounts(value);
    if nextLine > CountLines(value) {
      nextLine := 0;
    }
    return excerpt, nextLine > 0, nextLine, 0;
  }

  method OffsetOfLine(lines: seq<seq<byte>>, n: nat) returns (offset: nat)
    requires n <= |lines|
    ensures offset == |Join(lines[..n])|
  {
    offset := 0;
    for i := 0 to n
      invariant offset == |Join(lines[..i])|
    {
      JoinNext(lines, i);
      offset := offset + |lines[i]|;
    }
  }

  lemma PrefixOfSlice(value: seq<byte>, from: nat, to: nat, n: nat)
    requires from <= to <= |value| && n <= to - from
    ensures value[from..to][..n] == value[from..from + n]
    ensures n == to - from ==> value[from..to][..n] == value[from..to]
  {
  }

  /** Reading by lines follows next_start_line from 1 while pages hold all their lines; `where` is how
      far it has come. */
  ghost predicate LineReading(value: seq<byte>, maxLines: nat, limit: nat, starts: seq<nat>, pages: seq<seq<byte>>,
                              where: nat) {
    |starts| == |pages| > 0 && starts[0] == 1 &&
    if value == [] then pages == [[]] && where == 0
    else
      LinesLead(value, maxLines, limit, starts, pages) &&
      where == LineStart(value, starts[|pages| - 1]) + |pages[|pages| - 1]|
  }

  /** Each page is what its line gives, and all but the last lead on to the next. */
  ghost predicate LinesLead(value: seq<byte>, maxLines: nat, limit: nat, starts: seq<nat>, pages: seq<seq<byte>>)
    requires |starts| == |pages|
  {
    (forall i | 0 <= i < |pages| :: LinePage(value, maxLines, limit, starts[i], pages[i])) &&
    (forall i | 0 <= i < |pages| - 1 :: LeadsOn(value, maxLines, starts[i], pages[i], starts[i + 1]))
  }

  ghost predicate LinePage(value: seq<byte>, maxLines: nat, limit: nat, start: nat, page: seq<byte>) {
    1 <= start <= |Lines(value)| && ShowsLines(Asked(value, start, maxLines), limit, page)
  }

  predicate HoldsAll(value: seq<byte>, maxLines: nat, start: nat, page: seq<byte>) {
    1 <= start <= |Lines(value)| && page == Asked(value, start, maxLines)
  }

  predicate LeadsOn(value: seq<byte>, maxLines: nat, start: nat, page: seq<byte>, next: nat) {
    HoldsAll(value, maxLines, start, page) && next == LineStop(value, start, maxLines)
  }

  /** The last page holds all its lines, and there are none after them. */
  predicate NothingLeft(value: seq<byte>, maxLines: nat, starts: seq<nat>, pages: seq<seq<byte>>)
    requires |starts| == |pages| > 0
  {
    var last := |pages| - 1;
    value == [] || (HoldsAll(value, maxLines, starts[last], pages[last]) && LineStop(value, starts[last], maxLines) == |Lines(value)| + 1)
  }

  lemma LinesMove(value: seq<byte>, maxLines: nat, limit: nat, start: nat, page: seq<byte>)
    returns (from: nat, end: nat, to: nat)
    requires LinePage(value, maxLines, limit, start, page)
    ensures from == LineStart(value, start) && to == LineStart(value, LineStop(value, start, maxLines))
    ensures from + |page| == end <= to <= |value| && page == value[from..end] && |page| <= limit && Valid(page)
    ensures HoldsAll(value, maxLines, start, page) <==> end == to
  {
    var asked := Asked(value, start, maxLines);
    from, to := LinesSpan(value, maxLines, start, asked);
    end := from + |page|;
    PartMoves(value, from, to, asked, limit, page);
  }

  lemma LinesSpan(value: seq<byte>, maxLines: nat, start: nat, asked: seq<byte>) returns (from: nat, to: nat)
    requires 1 <= start <= |Lines(value)| && asked == Asked(value, start, maxLines)
    ensures from == LineStart(value, start) && to == LineStart(value, LineStop(value, start, maxLines))
    ensures from <= to <= |value| && asked == value[from..to]
  {
    LineStartSplits(value, start, LineStop(value, start, maxLines));
    from, to := LineStart(value, start), LineStart(value, LineStop(value, start, maxLines));
  }

  lemma PartMoves(value: seq<byte>, from: nat, to: nat, part: seq<byte>, limit: nat, page: seq<byte>)
    requires from <= to <= |value| && part == value[from..to] && ShowsLines(part, limit, page)
    ensures from + |page| <= to && page == value[from..from + |page|] && |page| <= limit && Valid(page)
    ensures page == part <==> from + |page| == to
  {
    WholeWhenFits(part, limit, page);
    PrefixOfSlice(value, from, to, |page|);
  }

  lemma {:induction false} LinesSoFar(value: seq<byte>, maxLines: nat, limit: nat, starts: seq<nat>,
                                      pages: seq<seq<byte>>, where: nat, i: nat)
    requires value != [] && LineReading(value, maxLines, limit, starts, pages, where) && i < |pages|
    ensures 1 <= starts[i] <= |Lines(value)| && LineStart(value, starts[i]) <= |value|
    ensures Join(pages[..i]) == value[..LineStart(value, starts[i])]
    decreases i
  {
    assert LinePage(value, maxLines, limit, starts[i], pages[i]);
    LineStartSplits(value, starts[i], starts[i]);
    if i > 0 {
      LinesSoFar(value, maxLines, limit, starts, pages, where, i - 1);
      JoinNext(pages, i - 1);
      assert LeadsOn(value, maxLines, starts[i - 1], pages[i - 1], starts[i - 1 + 1]);
      LineStartSplits(value, starts[i - 1], starts[i]);
      Splits(value, LineStart(value, starts[i - 1]), LineStart(value, starts[i]));
    } else {
      assert Lines(value)[..0] == [] && value[..0] == [];
    }
  }

  /** What reading by lines has handed out is exactly the text up to where it has come, in valid pages
      within the limit; with nothing left it is the whole text, and where a page was cut reading by
      bytes can go on. */
  lemma LineReadingReassembles(value: seq<byte>, maxLines: nat, limit: nat, starts: seq<nat>, pages: seq<seq<byte>>,
                               where: nat)
    requires LineReading(value, maxLines, limit, starts, pages, where)
    ensures where <= |value| && Join(pages) == value[..where]
    ensures Bounded(pages, limit)
    ensures NothingLeft(value, maxLines, starts, pages) <==> where == |value|
    ensures where == |value| ==> Join(pages) == value
    ensures Valid(value) ==> Boundary(value, where)
  {
    if value == [] {
      assert Join([[]]) == [];
    } else {
      var last := |pages| - 1;
      assert LinePage(value, maxLines, limit, starts[last], pages[last]);
      LinesJoined(value, maxLines, limit, starts, pages, where);
      EveryLineCounts(value, LineStop(value, starts[last], maxLines));
      forall i | 0 <= i < |pages|
        ensures Valid(pages[i]) && |pages[i]| <= limit
      {
        assert LinePage(value, maxLines, limit, starts[i], pages[i]);
        var from, end, to := LinesMove(value, maxLines, limit, starts[i], pages[i]);
      }
      assert value[..|value|] == value;
    }
  }

  lemma LinesJoined(value: seq<byte>, maxLines: nat, limit: nat, starts: seq<nat>, pages: seq<seq<byte>>, where: nat)
    requires value != [] && LineReading(value, maxLines, limit, starts, pages, where)
    ensures where <= |value| && Join(pages) == value[..where] && (Valid(value) ==> Boundary(value, where))
    ensures var last := |pages| - 1;
      1 <= starts[last] <= |Lines(value)| &&
      (HoldsAll(value, maxLines, starts[last], pages[last]) <==> where == LineStart(value, LineStop(value, starts[last], maxLines))) &&
      where <= LineStart(value, LineStop(value, starts[last], maxLines)) <= |value|
  {
    var last := |pages| - 1;
    assert LinePage(value, maxLines, limit, starts[last], pages[last]);
    LinesSoFar(value, maxLines, limit, starts, pages, where, last);
    var from, end, to := LinesMove(value, maxLines, limit, starts[last], pages[last]);
    Splits(value, from, end);
    if Valid(value) {
      StopsAtBoundary(value, starts[last], from, end);
    }
  }

  lemma StopsAtBoundary(value: seq<byte>, start: nat, from: nat, to: nat)
    requires Valid(value) && 1 <= start <= |Lines(value)| && from == LineStart(value, start)
    requires from <= to <= |value| && Valid(value[from..to])
    ensures Boundary(value, to)
  {
    LineStartsAtBoundary(value, start);
    BoundaryMoves(value, from, to);
  }

  /** No line is empty: only past the last one is the text at its end. */
  lemma EveryLineCounts(value: seq<byte>, line: nat)
    requires 1 <= line <= |Lines(value)| + 1
    ensures LineStart(value, line) == |value| <==> line == |Lines(value)| + 1
  {
    LineStartSplits(value, line, |Lines(value)| + 1);
    if line <= |Lines(value)| {
      LinesAreLong(value, line - 1);
      JoinNext(Lines(value), line - 1);
      LineStartSplits(value, line + 1, |Lines(value)| + 1);
    }
  }

  lemma {:induction false} LinesAreLong(value: seq<byte>, i: nat)
    requires i < |Lines(value)|
    ensures Lines(value)[i] != []
  {
    if i > 0 {
      LinesAreLong(value[FirstLine(value)..], i - 1);
    }
  }

  /** Every page from a line on has room for all its lines. */
  predicate PagesFit(value: seq<byte>, maxLines: nat, limit: nat, start: nat)
    requires 1 <= start <= |Lines(value)| + 1
    decreases |Lines(value)| + 1 - start
  {
    start == |Lines(value)| + 1 ||
    (|Asked(value, start, maxLines)| <= limit && PagesFit(value, maxLines, limit, LineStop(value, start, maxLines)))
  }

  /** A page is what there is to be had from its line on. */
  lemma NextLinePage(value: seq<byte>, maxLines: nat, limit: nat, start: nat) returns (page: seq<byte>)
    requires 1 <= start <= |Lines(value)|
    ensures LinePage(value, maxLines, limit, start, page)
    ensures Valid(value) && PagesFit(value, maxLines, limit, start) ==> HoldsAll(value, maxLines, start, page)
  {
    var asked := Asked(value, start, maxLines);
    var n := Longest(asked, limit, if |asked| < limit then |asked| else limit);
    page := asked[..n];
    WholeWhenFits(asked, limit, page);
    if Valid(value) {
      AskedIsValid(value, maxLines, start);
    }
  }

  lemma AskedIsValid(value: seq<byte>, maxLines: nat, start: nat)
    requires Valid(value) && 1 <= start <= |Lines(value)|
    ensures Valid(Asked(value, start, maxLines))
  {
    var stop := LineStop(value, start, maxLines);
    LineStartSplits(value, start, stop);
    LinesAreValid(value);
    JoinValid(Lines(value)[start - 1..stop - 1]);
  }

  lemma LinesAppend(value: seq<byte>, maxLines: nat, limit: nat, starts: seq<nat>, pages: seq<seq<byte>>, start: nat,
                    page: seq<byte>, allStarts: seq<nat>, allPages: seq<seq<byte>>)
    requires |starts| == |pages| && LinesLead(value, maxLines, limit, starts, pages)
    requires starts != [] ==> LeadsOn(value, maxLines, starts[|starts| - 1], pages[|pages| - 1], start)
    requires LinePage(value, maxLines, limit, start, page) && allStarts == starts + [start] && allPages == pages + [page]
    ensures LinesLead(value, maxLines, limit, allStarts, allPages)
  {
    forall i | 0 <= i < |allPages| - 1
      ensures LeadsOn(value, maxLines, allStarts[i], allPages[i], allStarts[i + 1])
    {
      assert i < |pages| - 1 ==> LeadsOn(value, maxLines, starts[i], pages[i], starts[i + 1]);
    }
  }

  /** Following next_start_line always comes to an end: nothing is left, or a page was cut. */
  lemma {:induction false} LinesGoOn(value: seq<byte>, maxLines: nat, limit: nat, starts: seq<nat>,
                                     pages: seq<seq<byte>>, start: nat)
    returns (allStarts: seq<nat>, allPages: seq<seq<byte>>, where: nat)
    requires value != [] && |starts| == |pages| && 1 <= start <= |Lines(value)| && (if starts == [] then start == 1 else starts[0] == 1)
    requires LinesLead(value, maxLines, limit, starts, pages)
    requires starts != [] ==> LeadsOn(value, maxLines, starts[|starts| - 1], pages[|pages| - 1], start)
    ensures LineReading(value, maxLines, limit, allStarts, allPages, where)
    ensures NothingLeft(value, maxLines, allStarts, allPages) || !HoldsAll(value, maxLines, allStarts[|allPages| - 1], allPages[|allPages| - 1])
    ensures Valid(value) && PagesFit(value, maxLines, limit, start) ==> NothingLeft(value, maxLines, allStarts, allPages)
    decreases |Lines(value)| - start
  {
    var page := NextLinePage(value, maxLines, limit, start);
    allStarts, allPages, where := starts + [start], pages + [page], LineStart(value, start) + |page|;
    LinesAppend(value, maxLines, limit, starts, pages, start, page, allStarts, allPages);
    if HoldsAll(value, maxLines, start, page) && LineStop(value, start, maxLines) <= |Lines(value)| {
      allStarts, allPages, where := LinesGoOn(value, maxLines, limit, allStarts, allPages, LineStop(value, start, maxLines));
    }
  }

  lemma LineReadingEnds(value: seq<byte>, maxLines: nat, limit: nat)
    returns (starts: seq<nat>, pages: seq<seq<byte>>, where: nat)
    ensures LineReading(value, maxLines, limit, starts, pages, where)
    ensures where == |value| || !HoldsAll(value, maxLines, starts[|pages| - 1], pages[|pages| - 1])
    ensures Valid(value) && PagesFit(value, maxLines, limit, 1) ==> where == |value|
  {
    if value == [] {
      starts, pages, where := [1], [[]], 0;
    } else {
      assert |Lines(value)| >= 1;
      starts, pages, where := LinesGoOn(value, maxLines, limit, [], [], 1);
      LineReadingReassembles(value, maxLines, limit, starts, pages, where);
    }
  }

  lemma {:induction false} WholePagesFit(value: seq<byte>, maxLines: nat, limit: nat, starts: seq<nat>,
                                         pages: seq<seq<byte>>, i: nat)
    requires value != [] && LineReading(value, maxLines, limit, starts, pages, |value|) && i < |pages|
    requires NothingLeft(value, maxLines, starts, pages)
    ensures 1 <= starts[i] <= |Lines(value)| && PagesFit(value, maxLines, limit, starts[i])
    decreases |pages| - i
  {
    assert LinePage(value, maxLines, limit, starts[i], pages[i]);
    var from, end, to := LinesMove(value, maxLines, limit, starts[i], pages[i]);
    if i < |pages| - 1 {
      WholePagesFit(value, maxLines, limit, starts, pages, i + 1);
      assert LeadsOn(value, maxLines, starts[i], pages[i], starts[i + 1]);
    }
  }

  /** Paging by lines alone gives back the whole text just when the text is valid and each page has
      room for its lines. */
  lemma LinePagingIsLossless(value: seq<byte>, maxLines: nat, limit: nat)
    ensures (exists starts, pages :: LineReading(value, maxLines, limit, starts, pages, |value|)) <==>
      Valid(value) && PagesFit(value, maxLines, limit, 1)
  {
    if starts, pages :| LineReading(value, maxLines, limit, starts, pages, |value|) {
      LineReadingReassembles(value, maxLines, limit, starts, pages, |value|);
      JoinValid(pages);
      if value != [] {
        WholePagesFit(value, maxLines, limit, starts, pages, 0);
      }
    }
    var starts, pages, where := LineReadingEnds(value, maxLines, limit);
  }

  /** Whatever the limits, reading by lines and, where a page is cut, on by bytes from the offset
      handed out ends and gives back the whole text, when the text is valid and its runes fit a page. */
  lemma LinesThenBytesIsLossless(value: seq<byte>, maxLines: nat, limit: nat)
    returns (starts: seq<nat>, n: nat, pages: seq<seq<byte>>, where: nat)
    requires Valid(value) && Widest(value) <= limit
    ensures n <= |pages| && LineReading(value, maxLines, limit, starts, pages[..n], where)
    ensures where == |value| || !HoldsAll(value, maxLines, starts[n - 1], pages[n - 1])
    ensures if where == |value| then n == |pages| else |Join(pages[..n])| == where && Reading(value, n, limit, pages)
    ensures Join(pages) == value && Bounded(pages, limit)
  {
    var lines;
    starts, lines, where := LineReadingEnds(value, maxLines, limit);
    LineReadingReassembles(value, maxLines, limit, starts, lines, where);
    n := |lines|;
    pages := RestIsRead(value, limit, lines, where);
    assert pages[..n] == lines && pages[n - 1] == lines[n - 1];
  }

  lemma RestIsRead(value: seq<byte>, limit: nat, read: seq<seq<byte>>, where: nat) returns (pages: seq<seq<byte>>)
    requires Valid(value) && Widest(value) <= limit && IsRead(value, Join(read)) && where == |Join(read)| && Bounded(read, limit)
    ensures read <= pages && (if where == |value| then pages == read else Reading(value, |read|, limit, pages))
    ensures Join(pages) == value && Bounded(pages, limit)
  {
    if where == |value| {
      pages := read;
      AllBytes(value);
    } else {
      CutIsAhead(value, limit, where);
      pages := ReadingGoesOn(value, limit, read);
      assert pages[..|read|] == read;
      ReadingReassembles(value, |read|, limit, pages);
      ReadingIsBounded(value, |read|, limit, pages);
    }
  }

  lemma CutIsAhead(value: seq<byte>, limit: nat, where: nat)
    requires Valid(value) && Widest(value) <= limit && where < |value| && Boundary(value, where)
    ensures Ahead(value, limit, where)
  {
    BoundarySplits(value, where);
    assert value[0..where] == value[..where] && value[0..] == value;
    WidestOfRest(value, 0, where);
  }

  lemma {:induction false} LinesAreValid(value: seq<byte>)
    requires Valid(value)
    ensures forall line | line in Lines(value) :: Valid(line)
  {
    if value != [] {
      var n := FirstLine(value);
      AfterNewline(value, n);
      BoundarySplits(value, n);
      LinesAreValid(value[n..]);
    }
  }

  /** What follows a newline begins a rune. */
  lemma {:induction false} AfterNewline(value: seq<byte>, n: nat)
    requires Valid(value) && 0 < n <= |value| && (n < |value| ==> value[n - 1] == NEWLINE)
    ensures Boundary(value, n)
    decreases |value|
  {
    if n < |value| {
      BoundarySplits(value, n - 1);
      assert value[n - 1..][0] == NEWLINE && value[n - 1..][1..] == value[n..];
      BoundarySplits(value, n);
    }
  }

  lemma {:induction false} JoinValid(pages: seq<seq<byte>>)
    requires forall page | page in pages :: Valid(page)
    ensures Valid(Join(pages))
  {
    if pages != [] {
      JoinValid(pages[..|pages| - 1]);
      ValidJoin(Join(pages[..|pages| - 1]), pages[|pages| - 1]);
    }
  }

  lemma LineStartsValid(value: seq<byte>, line: nat)
    requires Valid(value) && 1 <= line <= |Lines(value)| + 1
    ensures LineStart(value, line) <= |value| && Valid(value[..LineStart(value, line)])
  {
    LinesAreValid(value);
    LineStartSplits(value, 1, line);
    JoinValid(Lines(value)[..line - 1]);
  }

  lemma LineStartsAtBoundary(value: seq<byte>, line: nat)
    requires Valid(value) && 1 <= line <= |Lines(value)| + 1
    ensures LineStart(value, line) <= |value| && Boundary(value, LineStart(value, line))
  {
    LineStartsValid(value, line);
    BoundarySplits(value, LineStart(value, line));
  }
}
