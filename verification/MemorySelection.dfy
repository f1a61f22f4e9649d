/** Choosing the records that go into a prompt, and the block they go into. */
module MemorySelection {
  import opened Wrappers
  import opened Order
  import opened Utf8
  import opened Trimming
  import opened MemoryStore

  // ---- Ranking ----

  datatype Rank = Rank(pinned: nat, scope: nat, score: nat, updated: nat, id: string)

  datatype Candidate = Candidate(record: Record, rank: Rank)

  /** By pin, then the narrower scope, the better match, the later change, and the smaller id. */
  predicate Ahead(a: Rank, b: Rank) {
    if a.pinned != b.pinned then a.pinned < b.pinned
    else if a.scope != b.scope then a.scope < b.scope
    else if a.score != b.score then a.score > b.score
    else if a.updated != b.updated then a.updated > b.updated
    else Less(a.id, b.id)
  }

  lemma AheadIsAnOrder(a: Rank, b: Rank, c: Rank)
    ensures Ahead(a, b) && Ahead(b, c) ==> Ahead(a, c)
    ensures Ahead(a, b) || Ahead(b, a) || a == b
    ensures !(Ahead(a, b) && Ahead(b, a))
  {
    LessIsTotal(a.id, b.id);
    LessIsStrict(a.id, b.id);
    if Less(a.id, b.id) && Less(b.id, c.id) {
      LessTransitive(a.id, b.id, c.id);
    }
  }

  predicate Ranked(candidates: seq<Candidate>) {
    forall i, j | 0 <= i < j < |candidates| :: !Ahead(candidates[j].rank, candidates[i].rank)
  }

  datatype Query = Query(
    scope: Scope, category: Category, workspaceId: string, repositoryId: string, pinned: seq<string>,
    maxCandidates: int, maxBytes: int, now: nat)

  /** What the store fills in when the query leaves it out. */
  datatype Defaults = Defaults(workspaceId: string, repositoryId: string, maxCandidates: nat, maxBytes: nat)

  function Filled(q: Query, d: Defaults): Query {
    q.(workspaceId := if q.workspaceId == "" then d.workspaceId else q.workspaceId,
       repositoryId := if q.repositoryId == "" then d.repositoryId else q.repositoryId,
       maxCandidates := if q.maxCandidates <= 0 then d.maxCandidates else q.maxCandidates,
       maxBytes := if q.maxBytes <= 0 then d.maxBytes else q.maxBytes)
  }

  predicate InScope(r: Record, q: Query) {
    match r.content.scope
    case WorkspaceScope => q.workspaceId != "" && r.content.scopeId == q.workspaceId
    case RepositoryScope => q.repositoryId != "" && r.content.scopeId == q.repositoryId
    case UserScope => true
    case _ => false
  }

  function ScopeRank(r: Record): nat {
    match r.content.scope
    case WorkspaceScope => 0
    case RepositoryScope => 1
    case _ => 2
  }

  predicate Eligible(r: Record, q: Query) {
    (r.content.expires.Some? ==> r.content.expires.value > q.now) &&
    (q.scope == NoScope || r.content.scope == q.scope) && (q.category == NoCategory || r.content.category == q.category) &&
    InScope(r, q)
  }

  function CountEligible(records: seq<Record>, q: Query): nat {
    if records == [] then 0
    else CountEligible(records[..|records| - 1], q) + if Eligible(records[|records| - 1], q) then 1 else 0
  }

  /** The last place an id is pinned at. */
  function PinOf(pinned: seq<string>, id: string): Option<nat> {
    if pinned == [] then None
    else if pinned[|pinned| - 1] == id then Some(|pinned| - 1)
    else PinOf(pinned[..|pinned| - 1], id)
  }

  function PinRank(pinned: seq<string>, id: string): nat {
    match PinOf(pinned, id)
    case Some(i) => i
    case None => |PinSet(pinned)| + 1
  }

  predicate PinnedOnce(pinned: seq<string>) {
    forall i, j | 0 <= i < j < |pinned| :: pinned[i] != pinned[j]
  }

  function PinSet(pinned: seq<string>): set<string> {
    set x | x in pinned
  }

  lemma {:induction false} PinIsThere(pinned: seq<string>, id: string)
    ensures PinOf(pinned, id).Some? <==> id in pinned
    ensures PinOf(pinned, id).Some? ==> var p := PinOf(pinned, id).value;
      p < |pinned| && pinned[p] == id && PinRank(pinned, id) == p && forall k | p < k < |pinned| :: pinned[k] != id
  {
    if pinned != [] {
      PinIsThere(pinned[..|pinned| - 1], id);
      assert pinned == pinned[..|pinned| - 1] + [pinned[|pinned| - 1]];
    }
  }

  lemma {:induction false} PinnedOnceCounts(pinned: seq<string>)
    requires PinnedOnce(pinned)
    ensures |PinSet(pinned)| == |pinned|
  {
    if pinned != [] {
      var init, last := pinned[..|pinned| - 1], pinned[|pinned| - 1];
      PinnedOnceCounts(init);
      assert PinSet(pinned) == PinSet(init) + {last};
      assert last !in init;
    }
  }

  /** A pinned record ranks before one that is not exactly when its last place among the pins is no
      later than the number of different pins; so always if none is repeated. */
  lemma PinnedComeFirst(pinned: seq<string>, id: string, other: string)
    requires id in pinned && other !in pinned
    ensures PinOf(pinned, id).Some?
    ensures PinRank(pinned, id) < PinRank(pinned, other) <==> PinOf(pinned, id).value <= |PinSet(pinned)|
    ensures PinnedOnce(pinned) ==> PinRank(pinned, id) < PinRank(pinned, other)
  {
    PinIsThere(pinned, id);
    PinIsThere(pinned, other);
    if PinnedOnce(pinned) {
      PinnedOnceCounts(pinned);
    }
  }

  /** An instance: behind four pins of one record another pinned one ranks after those not pinned. */
  lemma RepeatedPinsPushBack()
    ensures PinRank(["a", "a", "a", "a", "b"], "c") < PinRank(["a", "a", "a", "a", "b"], "b")
  {
    var pinned := ["a", "a", "a", "a", "b"];
    PinIsThere(pinned, "c");
    assert PinSet(pinned) == {"a", "b"};
  }

  function CandidateFor(r: Record, q: Query, score: Record -> nat): Candidate {
    Candidate(r, Rank(PinRank(q.pinned, r.id), ScopeRank(r), score(r), r.updated, r.id))
  }

  method RankCandidates(records: seq<Record>, q: Query, score: Record -> nat) returns (ranked: seq<Candidate>)
    ensures Ranked(ranked) && |ranked| == CountEligible(records, q)
    ensures forall c :: c in ranked <==> c.record in records && Eligible(c.record, q) && c == CandidateFor(c.record, q, score)
  {
    ranked := [];
    for i := 0 to |records|
      invariant Ranked(ranked) && |ranked| == CountEligible(records[..i], q)
      invariant forall c :: c in ranked <==> c.record in records[..i] && Eligible(c.record, q) && c == CandidateFor(c.record, q, score)
    {
      assert records[..i + 1] == records[..i] + [records[i]] && records[..i + 1][..i] == records[..i];
      if Eligible(records[i], q) {
        var c := CandidateFor(records[i], q, score);
        var p := PlaceRanked(ranked, c.rank);
        InsertStaysRanked(ranked, p, c);
        ranked := ranked[..p] + [c] + ranked[p..];
      }
    }
    assert records[..|records|] == records;
  }

  method PlaceRanked(ranked: seq<Candidate>, rank: Rank) returns (p: nat)
    requires Ranked(ranked)
    ensures p <= |ranked|
    ensures forall k | 0 <= k < p :: !Ahead(rank, ranked[k].rank)
    ensures forall k | p <= k < |ranked| :: Ahead(rank, ranked[k].rank)
  {
    p := |ranked|;
    while p > 0 && Ahead(rank, ranked[p - 1].rank)
      invariant p <= |ranked| && forall k | p <= k < |ranked| :: Ahead(rank, ranked[k].rank)
    {
      p := p - 1;
    }
    forall k | 0 <= k < p
      ensures !Ahead(rank, ranked[k].rank)
    {
      AheadIsAnOrder(rank, ranked[k].rank, ranked[p - 1].rank);
      AheadIsAnOrder(ranked[k].rank, ranked[p - 1].rank, rank);
    }
  }

  lemma InsertStaysRanked(ranked: seq<Candidate>, p: nat, c: Candidate)
    requires Ranked(ranked) && p <= |ranked|
    requires forall k | 0 <= k < p :: !Ahead(c.rank, ranked[k].rank)
    requires forall k | p <= k < |ranked| :: Ahead(c.rank, ranked[k].rank)
    ensures Ranked(ranked[..p] + [c] + ranked[p..])
    ensures forall x :: x in ranked[..p] + [c] + ranked[p..] <==> x in ranked || x == c
  {
    var next := ranked[..p] + [c] + ranked[p..];
    forall i, j | 0 <= i < j < |next|
      ensures !Ahead(next[j].rank, next[i].rank)
    {
      assert next[i] == (if i < p then ranked[i] else if i == p then c else ranked[i - 1]);
      assert next[j] == (if j < p then ranked[j] else if j == p then c else ranked[j - 1]);
      AheadIsAnOrder(next[i].rank, next[j].rank, next[i].rank);
    }
    assert ranked == ranked[..p] + ranked[p..];
  }

  // ---- Picking ----

  type Render = Record -> seq<byte>

  const LINE_FEED: byte := 10

  function Rendered(render: Render, records: seq<Record>): seq<byte> {
    if records == [] then []
    else if |records| == 1 then render(records[0])
    else Rendered(render, records[..|records| - 1]) + [LINE_FEED] + render(records[|records| - 1])
  }

  /** There is room for one more line. */
  predicate FitsIn(render: Render, picked: seq<Record>, r: Record, maxBytes: int) {
    |Rendered(render, picked)| + |render(r)| + (if picked == [] then 0 else 1) <= maxBytes
  }

  /** Greedily, in order of rank, whatever of the first n still fits. */
  function Pick(render: Render, ranked: seq<Candidate>, n: nat, maxCandidates: int, maxBytes: int): seq<Record>
    requires n <= |ranked|
  {
    if n == 0 then []
    else
      var before, r := Pick(render, ranked, n - 1, maxCandidates, maxBytes), ranked[n - 1].record;
      if |before| != maxCandidates && FitsIn(render, before, r, maxBytes) then before + [r] else before
  }

  lemma RenderedNext(render: Render, picked: seq<Record>, r: Record)
    ensures |Rendered(render, picked + [r])| == |Rendered(render, picked)| + |render(r)| + if picked == [] then 0 else 1
  {
    assert (picked + [r])[..|picked|] == picked;
  }

  lemma {:induction false} FullStaysFull(render: Render, ranked: seq<Candidate>, n: nat, maxCandidates: int,
                                         maxBytes: int, i: nat)
    requires i <= n <= |ranked| && |Pick(render, ranked, i, maxCandidates, maxBytes)| == maxCandidates
    ensures Pick(render, ranked, n, maxCandidates, maxBytes) == Pick(render, ranked, i, maxCandidates, maxBytes)
    decreases n
  {
    if i < n {
      FullStaysFull(render, ranked, n - 1, maxCandidates, maxBytes, i);
    }
  }

  lemma {:induction false} PickIsBounded(render: Render, ranked: seq<Candidate>, n: nat, maxCandidates: int,
                                         maxBytes: int)
    requires maxCandidates >= 0 && maxBytes >= 0 && n <= |ranked|
    ensures var picked := Pick(render, ranked, n, maxCandidates, maxBytes);
      |picked| <= maxCandidates && |picked| <= n && |Rendered(render, picked)| <= maxBytes
  {
    if n > 0 {
      PickIsBounded(render, ranked, n - 1, maxCandidates, maxBytes);
      RenderedNext(render, Pick(render, ranked, n - 1, maxCandidates, maxBytes), ranked[n - 1].record);
    }
  }

  /** The selection in the store's own loop: bytes are counted along, and `truncated` tells whether
      anything was left out. */
  method Select(render: Render, ranked: seq<Candidate>, maxCandidates: int,
                maxBytes: int) returns (result: seq<Record>, truncated: bool)
    requires maxCandidates > 0 && maxBytes > 0
    ensures result == Pick(render, ranked, |ranked|, maxCandidates, maxBytes)
    ensures truncated <==> |result| < |ranked|
  {
    result, truncated := [], false;
    var bytesUsed := 0;
    for i := 0 to |ranked|
      invariant result == Pick(render, ranked, i, maxCandidates, maxBytes) && bytesUsed == |Rendered(render, result)|
      invariant |result| <= i && (truncated <==> |result| < i)
    {
      if |result| == maxCandidates {
        FullStaysFull(render, ranked, |ranked|, maxCandidates, maxBytes, i);
        truncated := true;
        return;
      }
      var r := ranked[i].record;
      RenderedNext(render, result, r);
      var size := |render(r)|;
      if |result| != 0 {
        size := size + 1;
      }
      if bytesUsed + size > maxBytes {
        truncated := true;
      } else {
        result := result + [r];
        bytesUsed := bytesUsed + size;
      }
    }
  }

  /** The places, in ascending order, that a selection was taken from. */
  predicate TakenFrom(result: seq<Record>, ranked: seq<Candidate>, places: seq<nat>) {
    |places| == |result| && (forall i | 0 <= i < |places| :: places[i] < |ranked| && ranked[places[i]].record == result[i]) &&
    forall i, j | 0 <= i < j < |places| :: places[i] < places[j]
  }

  /** Whether the selection takes the n-th candidate. */
  predicate Takes(render: Render, ranked: seq<Candidate>, n: nat, maxCandidates: int, maxBytes: int)
    requires n < |ranked|
  {
    var before := Pick(render, ranked, n, maxCandidates, maxBytes);
    |before| != maxCandidates && FitsIn(render, before, ranked[n].record, maxBytes)
  }

  /** Where the selection is taken from. */
  function Places(render: Render, ranked: seq<Candidate>, n: nat, maxCandidates: int, maxBytes: int): seq<nat>
    requires n <= |ranked|
  {
    if n == 0 then []
    else
      Places(render, ranked, n - 1, maxCandidates, maxBytes) +
      if Takes(render, ranked, n - 1, maxCandidates, maxBytes) then [n - 1] else []
  }

  predicate AllBelow(places: seq<nat>, n: nat) {
    forall i | 0 <= i < |places| :: places[i] < n
  }

  lemma TakenNext(before: seq<Record>, ranked: seq<Candidate>, places: seq<nat>, m: nat)
    requires TakenFrom(before, ranked, places) && m < |ranked| && AllBelow(places, m)
    ensures TakenFrom(before + [ranked[m].record], ranked, places + [m]) && AllBelow(places + [m], m + 1)
  {
    var more, next := before + [ranked[m].record], places + [m];
    forall i | 0 <= i < |next|
      ensures next[i] < |ranked| && ranked[next[i]].record == more[i]
    {
      assert i < m || i >= |places| || next[i] == places[i];
    }
  }

  /** The selection is a subsequence of the ranked candidates. */
  lemma {:induction false} PickIsSubsequence(render: Render, ranked: seq<Candidate>, n: nat, maxCandidates: int,
                                             maxBytes: int)
    requires n <= |ranked|
    ensures TakenFrom(Pick(render, ranked, n, maxCandidates, maxBytes), ranked, Places(render, ranked, n, maxCandidates, maxBytes))
    ensures AllBelow(Places(render, ranked, n, maxCandidates, maxBytes), n)
  {
    if n > 0 {
      var m := n - 1;
      PickIsSubsequence(render, ranked, m, maxCandidates, maxBytes);
      var before, places := Pick(render, ranked, m, maxCandidates, maxBytes), Places(render, ranked, m, maxCandidates, maxBytes);
      if Takes(render, ranked, m, maxCandidates, maxBytes) {
        TakenNext(before, ranked, places, m);
      } else {
        assert places + [] == places;
      }
    }
  }

  /** What a selection has no room for, a longer one has no room for either. */
  lemma RoomShrinks(render: Render, picked: seq<Record>, next: Record, r: Record, maxBytes: int)
    requires !FitsIn(render, picked, r, maxBytes)
    ensures !FitsIn(render, picked + [next], r, maxBytes)
  {
    RenderedNext(render, picked, next);
  }

  /** The finished selection is maximal: it has reached the count, or no candidate passed over along
      the way would fit into it as it stands in the end. */
  lemma {:induction false} SelectionIsMaximal(render: Render, ranked: seq<Candidate>, n: nat, maxCandidates: int,
                                              maxBytes: int, i: nat)
    requires i < n <= |ranked| && i !in Places(render, ranked, n, maxCandidates, maxBytes)
    ensures var picked := Pick(render, ranked, n, maxCandidates, maxBytes);
      |picked| == maxCandidates || !FitsIn(render, picked, ranked[i].record, maxBytes)
    decreases n
  {
    var before := Pick(render, ranked, n - 1, maxCandidates, maxBytes);
    if i < n - 1 {
      SelectionIsMaximal(render, ranked, n - 1, maxCandidates, maxBytes, i);
      if |before| != maxCandidates {
        RoomShrinks(render, before, ranked[n - 1].record, ranked[i].record, maxBytes);
      }
    }
  }

  /** When all of them fit, all are picked. */
  lemma {:induction false} PickWhole(render: Render, ranked: seq<Candidate>, n: nat, maxCandidates: int, maxBytes: int)
    requires n <= |ranked|
    ensures var picked := Pick(render, ranked, n, maxCandidates, maxBytes);
      |picked| <= n && (|picked| == n ==> forall i | 0 <= i < n :: picked[i] == ranked[i].record)
  {
    if n > 0 {
      PickWhole(render, ranked, n - 1, maxCandidates, maxBytes);
    }
  }

  /** What a query may see: what is the user's own, or filed under the very workspace or repository asked
      from, has not expired, and is of the scope and the category asked for, if any. */
  predicate Concerns(r: Record, query: Query, d: Defaults) {
    var from := r.content.scopeId;
    (r.content.scope == UserScope ||
     (r.content.scope == WorkspaceScope && from != "" && from == if query.workspaceId != "" then query.workspaceId else d.workspaceId) ||
     (r.content.scope == RepositoryScope && from != "" && from == if query.repositoryId != "" then query.repositoryId else d.repositoryId)) &&
    (r.content.expires.None? || query.now < r.content.expires.value) &&
    (query.scope == NoScope || query.scope == r.content.scope) && (query.category == NoCategory || query.category == r.content.category)
  }

  /** Of records pinned alike the one of the narrower scope comes first, then the better match, then the one
      changed later, then the one with the smaller id. */
  predicate InTurn(a: Record, b: Record, pinned: seq<string>, score: Record -> nat) {
    PinRank(pinned, a.id) < PinRank(pinned, b.id) ||
    (PinRank(pinned, a.id) == PinRank(pinned, b.id) &&
     (Narrower(a.content.scope, b.content.scope) ||
      (a.content.scope == b.content.scope &&
       (score(a) > score(b) || (score(a) == score(b) && (a.updated > b.updated || (a.updated == b.updated && !Less(b.id, a.id))))))))
  }

  predicate Narrower(a: Scope, b: Scope) {
    (a == WorkspaceScope && b != WorkspaceScope) || (a == RepositoryScope && b == UserScope)
  }

  /** The places of the records of some kind. */
  function Where(records: seq<Record>, kind: Record -> bool): (places: set<nat>)
    ensures forall i: nat :: i in places <==> i < |records| && kind(records[i])
  {
    if records == [] then {}
    else
      var n := |records| - 1;
      Where(records[..n], kind) + if kind(records[n]) then {n} else {}
  }

  function Concerning(query: Query, d: Defaults): Record -> bool {
    (r: Record) => Concerns(r, query, d)
  }

  /** What a store may change is what a query without filters would see of it, expired or not. */
  lemma VisibleMeans(options: Options, r: Record)
    requires ValidContent(r.content)
    ensures var own := Query(NoScope, NoCategory, options.workspaceId, options.repositoryId, [], 0, 0, 0);
      Visible(options, r) <==> Concerns(r.(content := r.content.(expires := None)), own, Defaults("", "", 0, 0))
    ensures r.content.scope == WorkspaceScope ==> (Visible(options, r) <==> r.content.scopeId == options.workspaceId)
    ensures r.content.scope == RepositoryScope ==> (Visible(options, r) <==> r.content.scopeId == options.repositoryId)
  {
  }

  lemma {:induction false} CountWhere(records: seq<Record>, q: Query, kind: Record -> bool)
    requires forall r :: kind(r) == Eligible(r, q)
    ensures CountEligible(records, q) == |Where(records, kind)|
  {
    if records != [] {
      CountWhere(records[..|records| - 1], q, kind);
    }
  }

  lemma RankedInTurn(a: Record, b: Record, query: Query, d: Defaults, score: Record -> nat)
    requires Concerns(a, query, d) && Concerns(b, query, d)
    requires !Ahead(CandidateFor(b, Filled(query, d), score).rank, CandidateFor(a, Filled(query, d), score).rank)
    ensures InTurn(a, b, query.pinned, score)
  {
  }

  /** What is found: nothing a query may not see, everything it may unless the answer says that something
      was left out, and all in turn. */
  ghost predicate Answers(found: Found, records: seq<Record>, query: Query, d: Defaults, score: Record -> nat)
    requires found.Found?
  {
    (forall r | r in found.records :: r in records && Concerns(r, query, d)) &&
    (!found.truncated ==> forall r | r in records && Concerns(r, query, d) :: r in found.records) &&
    found.candidateCount == |Where(records, Concerning(query, d))| &&
    (found.truncated <==> |found.records| < found.candidateCount) &&
    forall i, j | 0 <= i < j < |found.records| :: InTurn(found.records[i], found.records[j], query.pinned, score)
  }

  /** The candidates are what the query may see, as they are ranked. */
  ghost predicate RanksAll(ranked: seq<Candidate>, records: seq<Record>, query: Query, d: Defaults, score: Record -> nat) {
    forall c :: c in ranked <==>
      c.record in records && Concerns(c.record, query, d) && c == CandidateFor(c.record, Filled(query, d), score)
  }

  lemma PickedConcern(render: Render, ranked: seq<Candidate>, picked: seq<Record>, places: seq<nat>,
                      records: seq<Record>, query: Query, d: Defaults, score: Record -> nat)
    requires RanksAll(ranked, records, query, d, score) && TakenFrom(picked, ranked, places)
    ensures forall r | r in picked :: r in records && Concerns(r, query, d)
  {
    forall i | 0 <= i < |picked|
      ensures picked[i] in records && Concerns(picked[i], query, d)
    {
      assert ranked[places[i]] in ranked;
    }
  }

  lemma PickedInTurn(ranked: seq<Candidate>, picked: seq<Record>, places: seq<nat>, records: seq<Record>, query: Query,
                     d: Defaults, score: Record -> nat, i: nat, j: nat)
    requires RanksAll(ranked, records, query, d, score) && TakenFrom(picked, ranked, places) && Ranked(ranked)
    requires i < j < |picked|
    ensures InTurn(picked[i], picked[j], query.pinned, score)
  {
    assert ranked[places[i]] in ranked && ranked[places[j]] in ranked && places[i] < places[j];
    RankedInTurn(picked[i], picked[j], query, d, score);
  }

  lemma AllArePicked(ranked: seq<Candidate>, picked: seq<Record>, records: seq<Record>, query: Query, d: Defaults,
                     score: Record -> nat)
    requires RanksAll(ranked, records, query, d, score) && |picked| == |ranked|
    requires forall i | 0 <= i < |ranked| :: picked[i] == ranked[i].record
    ensures forall r | r in records && Concerns(r, query, d) :: r in picked
  {
    forall r | r in records && Concerns(r, query, d)
      ensures r in picked
    {
      assert CandidateFor(r, Filled(query, d), score) in ranked;
    }
  }

  lemma FoundAnswers(render: Render, found: Found, ranked: seq<Candidate>, records: seq<Record>, query: Query,
                     d: Defaults, score: Record -> nat)
    requires found.Found? && Ranked(ranked) && |ranked| == found.candidateCount == CountEligible(records, Filled(query, d))
    requires var q := Filled(query, d);
      (forall c :: c in ranked <==> c.record in records && Eligible(c.record, q) && c == CandidateFor(c.record, q, score)) &&
      found.records == Pick(render, ranked, |ranked|, q.maxCandidates, q.maxBytes) && (found.truncated <==> |found.records| < |ranked|)
    ensures Answers(found, records, query, d, score)
  {
    var q := Filled(query, d);
    var places := Places(render, ranked, |ranked|, q.maxCandidates, q.maxBytes);
    assert forall r :: Eligible(r, q) <==> Concerns(r, query, d);
    assert RanksAll(ranked, records, query, d, score);
    PickIsSubsequence(render, ranked, |ranked|, q.maxCandidates, q.maxBytes);
    PickWhole(render, ranked, |ranked|, q.maxCandidates, q.maxBytes);
    CountWhere(records, q, Concerning(query, d));
    PickedConcern(render, ranked, found.records, places, records, query, d, score);
    if !found.truncated {
      AllArePicked(ranked, found.records, records, query, d, score);
    }
    forall i, j | 0 <= i < j < |found.records|
      ensures InTurn(found.records[i], found.records[j], query.pinned, score)
    {
      PickedInTurn(ranked, found.records, places, records, query, d, score, i, j);
    }
  }

  datatype Found = Found(records: seq<Record>, candidateCount: nat, truncated: bool) | BadQuery

  /** Searches the records of a file. */
  method Search(render: Render, records: seq<Record>, query: Query, d: Defaults, score: Record -> nat)
    returns (found: Found, ghost ranked: seq<Candidate>)
    requires d.maxCandidates > 0 && d.maxBytes > 0
    ensures found.BadQuery? <==> query.scope == BadScope || query.category == BadCategory
    ensures found.Found? ==> Ranked(ranked) && |ranked| == found.candidateCount == CountEligible(records, Filled(query, d))
    ensures found.Found? ==> var q := Filled(query, d);
      (forall c :: c in ranked <==> c.record in records && Eligible(c.record, q) && c == CandidateFor(c.record, q, score)) &&
      found.records == Pick(render, ranked, |ranked|, q.maxCandidates, q.maxBytes) && (found.truncated <==> |found.records| < |ranked|)
    ensures found.Found? ==> Answers(found, records, query, d, score)
    ensures found.Found? ==> |found.records| <= (if query.maxCandidates > 0 then query.maxCandidates else d.maxCandidates)
    ensures found.Found? ==> |Rendered(render, found.records)| <= (if query.maxBytes > 0 then query.maxBytes else d.maxBytes)
  {
    var q := Filled(query, d);
    if (q.scope != NoScope && !ValidScope(q.scope)) || (q.category != NoCategory && !ValidCategory(q.category)) {
      return BadQuery, [];
    }
    var candidates := RankCandidates(records, q, score);
    var result, truncated := Select(render, candidates, q.maxCandidates, q.maxBytes);
    found, ranked := Found(result, |candidates|, truncated), candidates;
    FoundAnswers(render, found, ranked, records, query, d, score);
    PickIsBounded(render, ranked, |ranked|, q.maxCandidates, q.maxBytes);
  }

  // ---- The block ----

  function Replace(s: seq<byte>, b: byte, text: seq<byte>): seq<byte> {
    if s == [] then [] else (if s[0] == b then text else [s[0]]) + Replace(s[1..], b, text)
  }

  const AMPERSAND: byte := 38
  const LESS_THAN: byte := 60
  const GREATER_THAN: byte := 62
  const AMP: seq<byte> := [38, 97, 109, 112, 59]
  const LT: seq<byte> := [38, 108, 116, 59]
  const GT: seq<byte> := [38, 103, 116, 59]

  /** One replacement after another, the ampersand first. */
  function Escape(s: seq<byte>): seq<byte> {
    Replace(Replace(Replace(s, AMPERSAND, AMP), LESS_THAN, LT), GREATER_THAN, GT)
  }

  function EscapeByte(b: byte): seq<byte> {
    if b == AMPERSAND then AMP else if b == LESS_THAN then LT else if b == GREATER_THAN then GT else [b]
  }

  function EscapeEach(s: seq<byte>): seq<byte> {
    if s == [] then [] else EscapeByte(s[0]) + EscapeEach(s[1..])
  }

  lemma {:induction false} ReplaceJoin(a: seq<byte>, c: seq<byte>, b: byte, text: seq<byte>)
    ensures Replace(a + c, b, text) == Replace(a, b, text) + Replace(c, b, text)
  {
    if a == [] {
      assert a + c == c;
    } else {
      assert (a + c)[1..] == a[1..] + c;
      ReplaceJoin(a[1..], c, b, text);
    }
  }

  lemma {:induction false} ReplaceNone(s: seq<byte>, b: byte, text: seq<byte>)
    requires b !in s
    ensures Replace(s, b, text) == s
  {
    if s != [] {
      ReplaceNone(s[1..], b, text);
    }
  }

  lemma EscapeOne(b: byte)
    ensures Escape([b]) == EscapeByte(b)
  {
    ReplaceOne(b, AMPERSAND, AMP);
    if b == AMPERSAND {
      ReplaceNone(AMP, LESS_THAN, LT);
      ReplaceNone(AMP, GREATER_THAN, GT);
    } else {
      ReplaceOne(b, LESS_THAN, LT);
      if b == LESS_THAN {
        ReplaceNone(LT, GREATER_THAN, GT);
      } else {
        ReplaceOne(b, GREATER_THAN, GT);
      }
    }
  }

  lemma ReplaceOne(c: byte, b: byte, text: seq<byte>)
    ensures Replace([c], b, text) == if c == b then text else [c]
  {
    assert [c][1..] == [];
  }

  lemma EscapeJoin(a: seq<byte>, b: seq<byte>)
    ensures Escape(a + b) == Escape(a) + Escape(b)
  {
    ReplaceJoin(a, b, AMPERSAND, AMP);
    ReplaceJoin(Replace(a, AMPERSAND, AMP), Replace(b, AMPERSAND, AMP), LESS_THAN, LT);
    ReplaceJoin(Replace(Replace(a, AMPERSAND, AMP), LESS_THAN, LT), Replace(Replace(b, AMPERSAND, AMP), LESS_THAN, LT), GREATER_THAN, GT);
  }

  /** The three replacements do not get in each other's way. */
  lemma {:induction false} EscapeIsBytewise(s: seq<byte>)
    ensures Escape(s) == EscapeEach(s)
  {
    if s != [] {
      assert s == [s[0]] + s[1..];
      EscapeJoin([s[0]], s[1..]);
      EscapeOne(s[0]);
      EscapeIsBytewise(s[1..]);
    }
  }

  /** Nothing escaped can open or close a tag. */
  lemma {:induction false} EscapedHasNoTags(s: seq<byte>)
    ensures LESS_THAN !in Escape(s) && GREATER_THAN !in Escape(s)
  {
    EscapeIsBytewise(s);
    if s != [] {
      EscapeIsBytewise(s[1..]);
      EscapedHasNoTags(s[1..]);
    }
  }

  function Unescape(s: seq<byte>): seq<byte> {
    if s == [] then []
    else if AMP <= s then [AMPERSAND] + Unescape(s[5..])
    else if LT <= s then [LESS_THAN] + Unescape(s[4..])
    else if GT <= s then [GREATER_THAN] + Unescape(s[4..])
    else [s[0]] + Unescape(s[1..])
  }

  lemma UnescapeOne(b: byte, tail: seq<byte>)
    ensures Unescape(EscapeByte(b) + tail) == [b] + Unescape(tail)
  {
    var head := EscapeByte(b);
    var s := head + tail;
    assert s[|head|..] == tail && s[..|head|] == head && s[0] == head[0];
    if b == LESS_THAN || b == GREATER_THAN {
      assert s[1] == head[1];
    }
  }

  /** Escaping loses nothing. */
  lemma {:induction false} UnescapeEscape(s: seq<byte>)
    ensures Unescape(Escape(s)) == s
  {
    EscapeIsBytewise(s);
    if s != [] {
      EscapeIsBytewise(s[1..]);
      UnescapeEscape(s[1..]);
      UnescapeOne(s[0], EscapeEach(s[1..]));
    }
  }

  /** How the three marks are written, and the tag that closes a block. */
  lemma MarksAreWritten()
    ensures Escape(Bytes("&")) == Bytes("&amp;") && Escape(Bytes("<")) == Bytes("&lt;") && Escape(Bytes(">")) == Bytes("&gt;")
    ensures FOOTER == Bytes("\n</user_memory>")
  {
    EscapeOne(AMPERSAND);
    EscapeOne(LESS_THAN);
    EscapeOne(GREATER_THAN);
    assert Bytes("&") == [AMPERSAND] && Bytes("<") == [LESS_THAN] && Bytes(">") == [GREATER_THAN];
    assert AMP == Bytes("&amp;") && LT == Bytes("&lt;") && GT == Bytes("&gt;");
  }

  predicate HoldsAt(s: seq<byte>, part: seq<byte>, i: nat) {
    i + |part| <= |s| && s[i..i + |part|] == part
  }

  predicate Holds(s: seq<byte>, part: seq<byte>) {
    exists i | 0 <= i <= |s| :: HoldsAt(s, part, i)
  }

  const FOOTER: seq<byte> := [10, 60, 47, 117, 115, 101, 114, 95, 109, 101, 109, 111, 114, 121, 62]

  const MAX_PROMPT_BYTES := 102400

  /** The last boundary at or before an index. */
  function PreviousBoundary(s: seq<byte>, index: int): (p: nat)
    ensures p <= |s| && (index >= 0 ==> p <= index)
    decreases index
  {
    if index >= |s| then |s| else if index <= 0 then 0 else if Continues(s[index]) then PreviousBoundary(s, index - 1) else index
  }

  /** So much of an escaped text as there is room for. */
  function Shown(payload: seq<byte>, room: nat): (shown: seq<byte>)
    ensures |shown| <= room
  {
    if |payload| > room then payload[..PreviousBoundary(payload, room)] else payload
  }

  type Rewriting = seq<byte> -> seq<byte>

  /** A text between a header and a footer, cut at a boundary to the limit. */
  function Framed(header: seq<byte>, footer: seq<byte>, rewrite: Rewriting, text: seq<byte>, limit: int): seq<byte> {
    var bound := if limit <= 0 || limit > MAX_PROMPT_BYTES then MAX_PROMPT_BYTES else limit;
    var available := bound - |header| - |footer|;
    if text == [] || available <= 0 then [] else header + Shown(rewrite(text), available) + footer
  }

  function Block(header: seq<byte>, content: seq<byte>, limit: int): seq<byte> {
    Framed(header, FOOTER, Escape, Trim(content), limit)
  }

  /** A block is never over its limit. */
  lemma BlockIsBounded(header: seq<byte>, footer: seq<byte>, rewrite: Rewriting, text: seq<byte>, limit: int)
    ensures |Framed(header, footer, rewrite, text, limit)| <= if limit <= 0 || limit > MAX_PROMPT_BYTES then MAX_PROMPT_BYTES else limit
  {
  }

  predicate Accepted(block: seq<byte>, body: seq<byte>, limit: int) {
    block != [] && |block| <= limit && Holds(block, Escape(body))
  }

  /** Shortens the selection until all of it is in the block. */
  method SelectBlock(render: Render, header: seq<byte>, found: seq<Record>, truncated: bool, maxBytes: int,
                     promptBytes: nat)
    returns (block: seq<byte>, selected: seq<Record>, cut: bool)
    ensures selected <= found && (cut <==> truncated || |selected| < |found|)
    ensures selected == [] ==> block == []
    ensures selected != [] ==> block == BlockOf(render, header, selected, Limit(maxBytes, promptBytes))
    ensures selected != [] ==> Accepted(block, Rendered(render, selected), Limit(maxBytes, promptBytes))
    ensures forall n | |selected| < n <= |found| :: Refused(render, header, found[..n], Limit(maxBytes, promptBytes))
    ensures |block| <= 102400 && (maxBytes > 0 ==> |block| <= maxBytes) && (maxBytes <= 0 < promptBytes ==> |block| <= promptBytes)
  {
    block, selected := Shorten(render, header, found, Limit(maxBytes, promptBytes));
    cut := truncated || |selected| < |found|;
  }

  /** No prefix of the selection longer than n goes into a block whole. */
  ghost predicate AllRefused(render: Render, header: seq<byte>, found: seq<Record>, n: nat, limit: int) {
    forall k | n < k <= |found| :: Refused(render, header, found[..k], limit)
  }

  predicate Fitting(render: Render, header: seq<byte>, records: seq<Record>, limit: int, block: seq<byte>) {
    block == BlockOf(render, header, records, limit) && Accepted(block, Rendered(render, records), limit)
  }

  lemma OneMoreRefused(render: Render, header: seq<byte>, found: seq<Record>, n: nat, limit: int)
    requires n < |found| && AllRefused(render, header, found, n + 1, limit) && Refused(render, header, found[..n + 1], limit)
    ensures AllRefused(render, header, found, n, limit)
  {
  }

  method Shorten(render: Render, header: seq<byte>, found: seq<Record>, limit: int)
    returns (block: seq<byte>, selected: seq<Record>)
    ensures selected <= found && (selected == [] ==> block == [])
    ensures selected != [] ==> Fitting(render, header, selected, limit, block)
    ensures AllRefused(render, header, found, |selected|, limit)
    ensures |block| <= MAX_PROMPT_BYTES && (limit > 0 ==> |block| <= limit)
  {
    var n := |found|;
    while n > 0
      invariant 0 <= n <= |found| && AllRefused(render, header, found, n, limit)
    {
      var fits;
      block, fits := TryBlock(render, header, found[..n], limit);
      if fits {
        return block, found[..n];
      }
      n := n - 1;
      OneMoreRefused(render, header, found, n, limit);
    }
    return [], [];
  }

  method TryBlock(render: Render, header: seq<byte>, records: seq<Record>, limit: int)
    returns (block: seq<byte>, fits: bool)
    ensures if fits then Fitting(render, header, records, limit, block) else Refused(render, header, records, limit)
    ensures |block| <= MAX_PROMPT_BYTES && (limit > 0 ==> |block| <= limit)
  {
    var body := Rendered(render, records);
    block := Block(header, body, limit);
    BlockIsBounded(header, FOOTER, Escape, Trim(body), limit);
    fits := Accepted(block, body, limit);
  }

  function Limit(maxBytes: int, promptBytes: nat): int {
    if maxBytes <= 0 then promptBytes else maxBytes
  }

  function BlockOf(render: Render, header: seq<byte>, records: seq<Record>, limit: int): seq<byte> {
    Block(header, Rendered(render, records), limit)
  }

  predicate Refused(render: Render, header: seq<byte>, records: seq<Record>, limit: int) {
    !Accepted(BlockOf(render, header, records, limit), Rendered(render, records), limit)
  }

  lemma {:induction false} RenderedHolds(render: Render, records: seq<Record>, i: nat)
    requires i < |records|
    ensures exists a, b :: Rendered(render, records) == a + render(records[i]) + b
  {
    var last := |records| - 1;
    if last == 0 {
      assert Rendered(render, records) == [] + render(records[0]) + [];
    } else if i == last {
      var a := Rendered(render, records[..last]) + [LINE_FEED];
      assert Rendered(render, records) == a + render(records[i]) + [];
    } else {
      RenderedHolds(render, records[..last], i);
      var a, b :| Rendered(render, records[..last]) == a + render(records[..last][i]) + b;
      assert Rendered(render, records) == a + render(records[i]) + (b + [LINE_FEED] + render(records[last]));
    }
  }

  /** Every selected record is in the block whole. */
  lemma BlockHoldsEachRecord(render: Render, records: seq<Record>, block: seq<byte>, limit: int, i: nat)
    requires i < |records| && Accepted(block, Rendered(render, records), limit)
    ensures Holds(block, Escape(render(records[i])))
  {
    RenderedHolds(render, records, i);
    var a, b :| Rendered(render, records) == a + render(records[i]) + b;
    EscapeJoin(a + render(records[i]), b);
    EscapeJoin(a, render(records[i]));
    var body := Escape(Rendered(render, records));
    assert body == Escape(a) + Escape(render(records[i])) + Escape(b);
    var k :| 0 <= k <= |block| && HoldsAt(block, body, k);
    PartOfPart(block, body, k, Escape(a), Escape(render(records[i])), Escape(b));
  }

  lemma PartOfPart(s: seq<byte>, part: seq<byte>, k: nat, a: seq<byte>, inner: seq<byte>, b: seq<byte>)
    requires HoldsAt(s, part, k) && part == a + inner + b
    ensures Holds(s, inner)
  {
    var i := k + |a|;
    forall j | 0 <= j < |inner|
      ensures s[i + j] == inner[j]
    {
      assert s[k..k + |part|][|a| + j] == part[|a| + j] == inner[j];
    }
    assert HoldsAt(s, inner, i);
  }

  /** The lines of a text. */
  function Lines(s: seq<byte>): (lines: seq<seq<byte>>)
    ensures lines != []
  {
    if s == [] then [[]]
    else
      var rest := Lines(s[1..]);
      if s[0] == LINE_FEED then [[]] + rest else [[s[0]] + rest[0]] + rest[1..]
  }

  lemma {:induction false} LinesJoin(a: seq<byte>, b: seq<byte>)
    requires LINE_FEED !in b
    ensures Lines(a + [LINE_FEED] + b) == Lines(a) + [b]
  {
    var s := a + [LINE_FEED] + b;
    if a == [] {
      OneLine(b);
      assert s[1..] == b;
    } else {
      assert s[1..] == a[1..] + [LINE_FEED] + b;
      LinesJoin(a[1..], b);
    }
  }

  lemma {:induction false} OneLine(b: seq<byte>)
    requires LINE_FEED !in b
    ensures Lines(b) == [b]
  {
    if b != [] {
      OneLine(b[1..]);
      assert [b[0]] + b[1..] == b;
    }
  }

  function LineOfEach(render: Render, records: seq<Record>): seq<seq<byte>> {
    seq(|records|, i requires 0 <= i < |records| => render(records[i]))
  }

  /** Records that take a line each can be told apart again, in order. */
  lemma {:induction false} RenderedInLines(render: Render, records: seq<Record>)
    requires records != [] && forall r | r in records :: LINE_FEED !in render(r)
    ensures Lines(Rendered(render, records)) == LineOfEach(render, records)
  {
    var last := |records| - 1;
    if last == 0 {
      OneLine(render(records[0]));
    } else {
      RenderedInLines(render, records[..last]);
      LinesJoin(Rendered(render, records[..last]), render(records[last]));
      assert LineOfEach(render, records) == LineOfEach(render, records[..last]) + [render(records[last])];
    }
  }

  predicate MayEnd(s: seq<byte>, p: nat) {
    p == 0 || p >= |s| || !Continues(s[p])
  }

  lemma {:induction false} PreviousBoundaryIsLast(s: seq<byte>, index: int)
    ensures var p := PreviousBoundary(s, index);
      MayEnd(s, p) && forall k: nat | p < k <= |s| && k <= index :: !MayEnd(s, k)
    decreases index
  {
    if 0 < index < |s| && Continues(s[index]) {
      PreviousBoundaryIsLast(s, index - 1);
    }
  }

  /** The longest beginning within the room that does not end inside a rune. */
  ghost predicate LongestEnd(s: seq<byte>, room: int, p: nat) {
    p <= |s| && p <= room && MayEnd(s, p) && forall k: nat | p < k <= |s| && k <= room :: !MayEnd(s, k)
  }

  /** A header, as much of a text as there is room for, and a footer. */
  ghost predicate IsBlock(block: seq<byte>, header: seq<byte>, footer: seq<byte>, payload: seq<byte>, room: int, p: nat) {
    LongestEnd(payload, room, p) && block == header + payload[..p] + footer
  }

  lemma FramedIsBlock(header: seq<byte>, footer: seq<byte>, payload: seq<byte>, room: nat) returns (p: nat)
    ensures IsBlock(header + Shown(payload, room) + footer, header, footer, payload, room, p)
  {
    PreviousBoundaryIsLast(payload, room);
    p := |Shown(payload, room)|;
    assert Shown(payload, room) == payload[..p];
  }

  /** A block is empty when there is nothing to say or no room to say anything; else it is the escaped text,
      or as much of it as there is room for, between its header and its footer. */
  lemma BlockMeans(header: seq<byte>, footer: seq<byte>, rewrite: Rewriting, text: seq<byte>, limit: int) returns (p: nat)
    ensures var room := (if 0 < limit <= 102400 then limit else 102400) - |header| - |footer|;
      if text == [] || room <= 0 then Framed(header, footer, rewrite, text, limit) == []
      else IsBlock(Framed(header, footer, rewrite, text, limit), header, footer, rewrite(text), room, p)
  {
    var room := (if 0 < limit <= 102400 then limit else 102400) - |header| - |footer|;
    p := 0;
    if text != [] && room > 0 {
      p := FramedIsBlock(header, footer, rewrite(text), room);
    }
  }

  /** When everything found fits, nothing found is dropped. */
  lemma WholeSelectionIsShown(render: Render, header: seq<byte>, found: seq<Record>, maxBytes: int, promptBytes: nat)
    requires found != [] && Rendered(render, found) != [] && Trim(Rendered(render, found)) == Rendered(render, found)
    requires var limit := if maxBytes > 0 then maxBytes else promptBytes;
      |header| + |Escape(Rendered(render, found))| + 15 <= limit <= 102400
    ensures !Refused(render, header, found, Limit(maxBytes, promptBytes))
  {
    WholeBlockIsAccepted(header, Rendered(render, found), Limit(maxBytes, promptBytes));
  }

  /** Nothing is dropped when everything fits. */
  lemma WholeBlockIsAccepted(header: seq<byte>, body: seq<byte>, limit: int)
    requires body != [] && Trim(body) == body && |header| + |Escape(body)| + |FOOTER| <= limit <= MAX_PROMPT_BYTES
    ensures Accepted(Block(header, body, limit), body, limit)
  {
    EscapeIsBytewise(body);
    var block := header + Escape(body) + FOOTER;
    assert Escape(body) != [];
    assert Block(header, body, limit) == block;
    assert HoldsAt(block, Escape(body), |header|);
  }
}
