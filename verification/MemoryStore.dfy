/** The memory of records: remembering, updating and forgetting, each written as one valid file. */
module MemoryStore {
  import opened Wrappers
  import opened Order

  datatype Scope = UserScope | WorkspaceScope | RepositoryScope | NoScope | BadScope
  datatype Category = Preference | Convention | Fact | NoCategory | BadCategory

  /** What the digest of a record covers. */
  datatype Content = Content(scope: Scope, scopeId: string, category: Category, text: string, source: string, expires: Option<nat>)

  /** Times count from the zero time. */
  datatype Record = Record(id: string, content: Content, created: nat, updated: nat, digest: string)

  datatype File = File(version: nat, generation: nat, records: seq<Record>, digest: string)

  /** Hashing, encoding and text normalization, which are not spelled out here. */
  datatype Rules = Rules(
    digestOf: Content -> string, idOf: (Content, string, nat) -> string, normalize: string -> Option<string>, trim: string -> string,
    fileDigest: (nat, nat, seq<Record>) -> string, tooLarge: File -> bool)

  ghost predicate Lawful(rules: Rules) {
    (forall c :: rules.digestOf(c) != "") && (forall c, d, t :: rules.idOf(c, d, t) != "") &&
    (forall s | rules.normalize(s).Some? :: rules.normalize(s).value != "") && (forall v, g, rs :: rules.fileDigest(v, g, rs) != "")
  }

  const SCHEMA := 1

  // ---- Validity ----

  predicate ValidScope(s: Scope) {
    s == UserScope || s == WorkspaceScope || s == RepositoryScope
  }

  predicate ValidCategory(c: Category) {
    c == Preference || c == Convention || c == Fact
  }

  predicate ValidContent(c: Content) {
    ValidScope(c.scope) && ValidCategory(c.category) && c.source != "" && c.text != "" && (c.scope == UserScope <==> c.scopeId == "")
  }

  predicate ValidRecord(rules: Rules, r: Record) {
    ValidContent(r.content) && r.id != "" && r.created != 0 && r.created <= r.updated && r.digest != "" && r.digest == rules.digestOf(r.content)
  }

  predicate Unique(records: seq<Record>) {
    forall i, j | 0 <= i < j < |records| :: records[i].id != records[j].id && records[i].digest != records[j].digest
  }

  predicate ValidFile(rules: Rules, f: File) {
    f.version == SCHEMA && f.digest != "" && f.digest == rules.fileDigest(f.version, f.generation, f.records) &&
    (f.generation == 0 ==> f.records == []) && (forall r | r in f.records :: ValidRecord(rules, r)) && Unique(f.records)
  }

  /** A record names its kind, who filed it, where it came from and when, and is sealed by its digest. */
  predicate Sealed(rules: Rules, r: Record) {
    r.id != "" && r.content.text != "" && r.content.source != "" && r.digest != "" && r.digest == rules.digestOf(r.content) &&
    0 < r.created <= r.updated && r.content.category != NoCategory && r.content.category != BadCategory &&
    if r.content.scopeId == "" then r.content.scope == UserScope
    else r.content.scope == WorkspaceScope || r.content.scope == RepositoryScope
  }

  /** What a valid file says of itself and of each record in it. */
  lemma ValidFileMeans(rules: Rules, f: File)
    ensures ValidFile(rules, f) <==>
      f.version == 1 && f.digest != "" && f.digest == rules.fileDigest(1, f.generation, f.records) && (f.generation > 0 || f.records == []) &&
      (forall i | 0 <= i < |f.records| :: Sealed(rules, f.records[i])) &&
      forall i, j | 0 <= i < |f.records| && 0 <= j < |f.records| && (f.records[i].id == f.records[j].id || f.records[i].digest == f.records[j].digest) :: i == j
  {
    assert forall r :: ValidRecord(rules, r) <==> Sealed(rules, r);
  }

  method Validate(rules: Rules, f: File) returns (ok: bool)
    ensures ok <==> ValidFile(rules, f)
  {
    if f.version != SCHEMA || f.digest == "" || f.digest != rules.fileDigest(f.version, f.generation, f.records) ||
       (f.generation == 0 && |f.records| != 0) {
      return false;
    }
    var ids: set<string>, digests: set<string> := {}, {};
    for i := 0 to |f.records|
      invariant forall x :: x in ids <==> exists k | 0 <= k < i :: f.records[k].id == x
      invariant forall x :: x in digests <==> exists k | 0 <= k < i :: f.records[k].digest == x
      invariant forall k | 0 <= k < i :: ValidRecord(rules, f.records[k])
      invariant forall j, k | 0 <= j < k < i :: f.records[j].id != f.records[k].id && f.records[j].digest != f.records[k].digest
    {
      var r := f.records[i];
      assert r in f.records;
      if !ValidRecord(rules, r) || r.id in ids || r.digest in digests {
        return false;
      }
      ids, digests := ids + {r.id}, digests + {r.digest};
    }
    ok := true;
  }

  // ---- Writing a file ----

  predicate ById(records: seq<Record>) {
    forall i, j | 0 <= i < j < |records| :: !Less(records[j].id, records[i].id)
  }

  /** The same records in another order; what repeats, repeats in both. */
  ghost predicate Rearranges(a: seq<Record>, b: seq<Record>) {
    (forall r :: r in a <==> r in b) && |a| == |b| && (Unique(a) <==> Unique(b))
  }

  predicate Clashes(records: seq<Record>, r: Record) {
    exists k | 0 <= k < |records| :: records[k].id == r.id || records[k].digest == r.digest
  }

  lemma UniqueInserts(records: seq<Record>, p: nat, r: Record)
    requires p <= |records|
    ensures Unique(records[..p] + [r] + records[p..]) <==> Unique(records) && !Clashes(records, r)
    ensures forall x :: x in records[..p] + [r] + records[p..] <==> x in records || x == r
  {
    var next := records[..p] + [r] + records[p..];
    assert forall k | 0 <= k < |records| :: next[if k < p then k else k + 1] == records[k];
    assert next[p] == r;
    if Unique(next) {
      forall i, j | 0 <= i < j < |records|
        ensures records[i].id != records[j].id && records[i].digest != records[j].digest
      {
        assert next[if i < p then i else i + 1] == records[i] && next[if j < p then j else j + 1] == records[j];
      }
    }
    forall x | x in records
      ensures x in next
    {
      var k :| 0 <= k < |records| && records[k] == x;
      assert next[if k < p then k else k + 1] == x;
    }
  }

  method SortById(records: seq<Record>) returns (sorted: seq<Record>)
    ensures ById(sorted) && Rearranges(records, sorted)
  {
    sorted := [];
    for i := 0 to |records|
      invariant ById(sorted) && Rearranges(records[..i], sorted)
    {
      var r := records[i];
      var p := Place(sorted, r.id);
      InsertIsRearranged(records, i, sorted, p);
      InsertStaysById(sorted, p, r);
      sorted := sorted[..p] + [r] + sorted[p..];
    }
    assert records[..|records|] == records;
  }

  method Place(sorted: seq<Record>, id: string) returns (p: nat)
    requires ById(sorted)
    ensures p <= |sorted| && (forall k | 0 <= k < p :: !Less(id, sorted[k].id)) && forall k | p <= k < |sorted| :: Less(id, sorted[k].id)
  {
    p := |sorted|;
    while p > 0 && Less(id, sorted[p - 1].id)
      invariant p <= |sorted| && forall k | p <= k < |sorted| :: Less(id, sorted[k].id)
    {
      p := p - 1;
    }
    forall k | 0 <= k < p
      ensures !Less(id, sorted[k].id)
    {
      if Less(id, sorted[k].id) && k < p - 1 {
        LessIsTotal(sorted[k].id, sorted[p - 1].id);
        if Less(sorted[k].id, sorted[p - 1].id) {
          LessTransitive(id, sorted[k].id, sorted[p - 1].id);
        }
      }
    }
  }

  lemma InsertStaysById(sorted: seq<Record>, p: nat, r: Record)
    requires ById(sorted) && p <= |sorted|
    requires (forall k | 0 <= k < p :: !Less(r.id, sorted[k].id)) && forall k | p <= k < |sorted| :: Less(r.id, sorted[k].id)
    ensures ById(sorted[..p] + [r] + sorted[p..])
  {
    var next := sorted[..p] + [r] + sorted[p..];
    forall i, j | 0 <= i < j < |next|
      ensures !Less(next[j].id, next[i].id)
    {
      assert next[i] == (if i < p then sorted[i] else if i == p then r else sorted[i - 1]);
      assert next[j] == (if j < p then sorted[j] else if j == p then r else sorted[j - 1]);
      if i == p {
        LessIsStrict(next[j].id, r.id);
      }
    }
  }

  lemma InsertIsRearranged(records: seq<Record>, i: nat, sorted: seq<Record>, p: nat)
    requires i < |records| && p <= |sorted| && Rearranges(records[..i], sorted)
    ensures Rearranges(records[..i + 1], sorted[..p] + [records[i]] + sorted[p..])
  {
    var r, a := records[i], records[..i];
    assert records[..i + 1] == a[..i] + [r] + a[i..];
    UniqueInserts(a, i, r);
    UniqueInserts(sorted, p, r);
    ClashesByMembers(a, sorted, r);
  }

  lemma ClashesByMembers(a: seq<Record>, b: seq<Record>, r: Record)
    requires forall x :: x in a <==> x in b
    ensures Clashes(a, r) <==> Clashes(b, r)
  {
    if k :| 0 <= k < |a| && (a[k].id == r.id || a[k].digest == r.digest) {
      assert a[k] in b;
    }
    if k :| 0 <= k < |b| && (b[k].id == r.id || b[k].digest == r.digest) {
      assert b[k] in a;
    }
  }

  /** A file as it is written: sorted, versioned and signed. */
  ghost predicate Written(rules: Rules, generation: nat, records: seq<Record>, f: File) {
    f.version == SCHEMA && f.generation == generation && ById(f.records) && Rearranges(records, f.records) &&
    f.digest == rules.fileDigest(SCHEMA, generation, f.records)
  }

  /** What is written is valid just when the records are, and are distinct. */
  lemma WrittenIsValid(rules: Rules, generation: nat, records: seq<Record>, f: File)
    requires Lawful(rules) && generation > 0 && Written(rules, generation, records, f)
    ensures ValidFile(rules, f) <==> (forall r | r in records :: ValidRecord(rules, r)) && Unique(records)
  {
  }

  // ---- Requests ----

  datatype Create = Create(scope: Scope, scopeId: string, category: Category, text: string, source: string, expires: Option<nat>)

  datatype Options = Options(workspaceId: string, repositoryId: string)

  predicate Identity(s: string) {
    s != "" && |s| <= 4096 && '\0' !in s
  }

  /** The scope a record is kept under, none if it is unavailable. */
  function ResolveScopeId(rules: Rules, options: Options, scope: Scope, explicit: string): Option<string> {
    var given := rules.trim(explicit);
    match scope
    case UserScope => if given != "" then None else Some("")
    case WorkspaceScope =>
      var id := if given == "" then options.workspaceId else given;
      if Identity(id) then Some(id) else None
    case RepositoryScope =>
      var id := if given == "" then options.repositoryId else given;
      if Identity(id) then Some(id) else None
    case _ => None
  }

  function NormalizeCreate(rules: Rules, options: Options, request: Create): Option<Content> {
    var scope := if request.scope == NoScope then UserScope else request.scope;
    var category := if request.category == NoCategory then Fact else request.category;
    var scopeId := ResolveScopeId(rules, options, scope, request.scopeId);
    var source := if rules.trim(request.source) == "" then "user" else rules.trim(request.source);
    if rules.normalize(request.text).None? || scopeId.None? || !ValidCategory(category) || |source| > 256 || '\0' in source then None
    else Some(Content(scope, scopeId.value, category, rules.normalize(request.text).value, source, request.expires))
  }

  lemma NormalizedIsValid(rules: Rules, options: Options, request: Create)
    requires Lawful(rules) && NormalizeCreate(rules, options, request).Some?
    ensures ValidContent(NormalizeCreate(rules, options, request).value)
  {
  }

  /** What becomes of a request: it is the user's unless it says otherwise, a fact unless it says otherwise,
      and filed under the place it names or, if it names none, under the one it comes from. */
  predicate FiledAs(rules: Rules, options: Options, request: Create, c: Content) {
    var given, source := rules.trim(request.scopeId), rules.trim(request.source);
    rules.normalize(request.text) == Some(c.text) && c.expires == request.expires && c.source == (if source == "" then "user" else source) &&
    c.category == (if request.category == NoCategory then Fact else request.category) &&
    match request.scope
    case NoScope => c.scope == UserScope && c.scopeId == given == ""
    case UserScope => c.scope == UserScope && c.scopeId == given == ""
    case WorkspaceScope => c.scope == WorkspaceScope && c.scopeId == if given != "" then given else options.workspaceId
    case RepositoryScope => c.scope == RepositoryScope && c.scopeId == if given != "" then given else options.repositoryId
    case BadScope => false
  }

  /** A request is filed exactly when there is a way to file it that is fit to be kept. */
  lemma NormalizedIsFiled(rules: Rules, options: Options, request: Create, c: Content)
    ensures NormalizeCreate(rules, options, request) == Some(c) <==>
      FiledAs(rules, options, request, c) && c.category != BadCategory && |c.source| <= 256 && '\0' !in c.source &&
      (c.scope != UserScope ==> 0 < |c.scopeId| <= 4096 && '\0' !in c.scopeId)
  {
  }

  predicate Visible(options: Options, r: Record) {
    match r.content.scope
    case UserScope => true
    case WorkspaceScope => options.workspaceId != "" && r.content.scopeId == options.workspaceId
    case RepositoryScope => options.repositoryId != "" && r.content.scopeId == options.repositoryId
    case _ => false
  }

  datatype Outcome = Rejected | TooLarge | NotThere | Unchanged(record: Record) | Saved(record: Record)

  predicate Repeats(rules: Rules, options: Options, request: Create, r: Record) {
    var content := NormalizeCreate(rules, options, request);
    content.Some? && r.digest == rules.digestOf(content.value)
  }

  predicate IsNew(rules: Rules, options: Options, request: Create, now: nat, r: Record) {
    var content := NormalizeCreate(rules, options, request);
    content.Some? && r.content == content.value && r.digest == rules.digestOf(r.content) && r.id == rules.idOf(r.content, r.digest, now) &&
    r.created == now && r.updated == now
  }

  predicate Named(options: Options, r: Record, id: string) {
    r.id == id && Visible(options, r)
  }

  predicate NoneNamed(options: Options, f: File, id: string) {
    forall r | r in f.records :: !Named(options, r, id)
  }

  predicate IsRevised(rules: Rules, r: Record, text: string, category: Category, expires: Option<Option<nat>>,
                      now: nat, s: Record) {
    s.id == r.id && s.created == r.created && s.updated == now && s.digest == rules.digestOf(s.content) &&
    rules.normalize(text) == Some(s.content.text) && s.content.scope == r.content.scope && s.content.scopeId == r.content.scopeId &&
    s.content.source == r.content.source &&
    s.content.category == (if category != NoCategory then category else r.content.category) &&
    match expires
    case None => s.content.expires == r.content.expires
    case Some(time) => s.content.expires == time
  }

  function Revised(rules: Rules, r: Record, text: string, category: Category, expires: Option<Option<nat>>,
                   now: nat): Record {
    var content := r.content.(text := text, category := if category == NoCategory then r.content.category else category,
                              expires := if expires.Some? then expires.value else r.content.expires);
    r.(content := content, updated := now, digest := rules.digestOf(content))
  }

  class Store {
    const rules: Rules
    const options: Options
    var file: File

    ghost predicate Sound()
      reads this
    {
      Lawful(rules) && ValidFile(rules, file)
    }

    constructor (rules: Rules, options: Options)
      requires Lawful(rules)
      ensures Sound() && file.records == [] && file.generation == 0 && this.rules == rules && this.options == options
    {
      this.rules, this.options := rules, options;
      file := File(SCHEMA, 0, [], rules.fileDigest(SCHEMA, 0, []));
    }

    method Save(generation: nat, records: seq<Record>) returns (ok: bool)
      modifies this
      ensures if ok then Written(rules, generation, records, file) else file == old(file)
    {
      var sorted := SortById(records);
      var next := File(SCHEMA, generation, sorted, rules.fileDigest(SCHEMA, generation, sorted));
      if rules.tooLarge(next) {
        return false;
      }
      file := next;
      return true;
    }

    /** Keeps a note, unless the same note is kept already. What is written is valid as long as the
        clock runs and the identifier is new. */
    method Remember(request: Create, now: nat) returns (o: Outcome)
      requires Sound()
      modifies this
      ensures o.Rejected? <==> NormalizeCreate(rules, options, request).None?
      ensures !o.Saved? ==> file == old(file)
      ensures o.Unchanged? ==> o.record in file.records && Repeats(rules, options, request, o.record)
      ensures o.Saved? ==> IsNew(rules, options, request, now, o.record)
      ensures o.Saved? ==> file.generation == old(file.generation) + 1 && forall r :: r in file.records <==> r in old(file.records) || r == o.record
      ensures o.Saved? ==> ById(file.records)
      ensures o.Saved? ==> (ValidFile(rules, file) <==> now > 0 && forall r | r in old(file.records) :: r.id != o.record.id)
    {
      var normalized := NormalizeCreate(rules, options, request);
      if normalized.None? {
        return Rejected;
      }
      var content := normalized.value;
      var digest := rules.digestOf(content);
      var records := file.records;
      for i := 0 to |records|
        invariant forall k | 0 <= k < i :: records[k].digest != digest
      {
        if records[i].digest == digest {
          return Unchanged(records[i]);
        }
      }
      NormalizedIsValid(rules, options, request);
      var record := Record(rules.idOf(content, digest, now), content, now, now, digest);
      var saved := Save(file.generation + 1, records + [record]);
      if !saved {
        return TooLarge;
      }
      Remembered(rules, old(file), file, record);
      return Saved(record);
    }

    /** Changes a visible record. What is written is valid as long as the clock has not gone back
        behind the record. */
    method Update(id: string, text: string, category: Category, expires: Option<Option<nat>>,
                  now: nat) returns (o: Outcome)
      requires Sound()
      modifies this
      ensures !o.Saved? ==> file == old(file)
      ensures o.NotThere? <==> rules.trim(id) != "" && rules.normalize(text).Some? && NoneNamed(options, old(file), rules.trim(id))
      ensures o.Saved? ==> exists r | r in old(file.records) && Named(options, r, rules.trim(id)) ::
        Updates(old(file), file, r, o.record) && IsRevised(rules, r, text, category, expires, now, o.record)
      ensures o.Saved? ==> file.generation == old(file.generation) + 1 && (ValidFile(rules, file) <==> o.record.created <= now)
      ensures o.Saved? ==> ById(file.records)
      ensures !o.Unchanged?
    {
      var wanted := rules.trim(id);
      var normalized := rules.normalize(text);
      if wanted == "" || normalized.None? {
        return Rejected;
      }
      var records := file.records;
      for i := 0 to |records|
        invariant forall k | 0 <= k < i :: !Named(options, records[k], wanted)
      {
        if Named(options, records[i], wanted) {
          assert records[i] in records;
          var revised := Revised(rules, records[i], normalized.value, category, expires, now);
          if !ValidCategory(revised.content.category) {
            return Rejected;
          }
          for j := 0 to |records|
            invariant forall k | 0 <= k < j && k != i :: records[k].digest != revised.digest
          {
            if j != i && records[j].digest == revised.digest {
              return Rejected;
            }
          }
          var saved := Save(file.generation + 1, records[i := revised]);
          if !saved {
            return TooLarge;
          }
          Updated(rules, old(file), file, i, revised);
          return Saved(revised);
        }
      }
      return NotThere;
    }

    /** Drops a visible record. */
    method Forget(id: string) returns (o: Outcome)
      requires Sound()
      modifies this
      ensures Sound() && !o.Unchanged?
      ensures !o.Saved? ==> file == old(file)
      ensures o.NotThere? <==> rules.trim(id) != "" && NoneNamed(options, old(file), rules.trim(id))
      ensures o.Saved? ==> o.record in old(file.records) && Named(options, o.record, rules.trim(id))
      ensures o.Saved? ==> file.generation == old(file.generation) + 1 && ById(file.records)
      ensures o.Saved? ==> forall r :: r in file.records <==> r in old(file.records) && r != o.record
    {
      var wanted := rules.trim(id);
      if wanted == "" {
        return Rejected;
      }
      var records := file.records;
      for i := 0 to |records|
        invariant forall k | 0 <= k < i :: !Named(options, records[k], wanted)
      {
        if Named(options, records[i], wanted) {
          assert records[i] in records;
          var saved := Save(file.generation + 1, records[..i] + records[i + 1..]);
          if !saved {
            return TooLarge;
          }
          Forgotten(rules, old(file), file, i);
          return Saved(records[i]);
        }
      }
      return NotThere;
    }
  }

  /** Exactly one record was replaced, by one with its identifier and birth. */
  ghost predicate Updates(before: File, after: File, r: Record, s: Record) {
    s.id == r.id && s.created == r.created && forall x :: x in after.records <==> x == s || (x in before.records && x != r)
  }

  lemma Remembered(rules: Rules, before: File, after: File, record: Record)
    requires Lawful(rules) && ValidFile(rules, before) && Written(rules, before.generation + 1, before.records + [record], after)
    requires ValidContent(record.content) && record.digest == rules.digestOf(record.content) && record.id != "" && record.created == record.updated
    requires forall r | r in before.records :: r.digest != record.digest
    ensures forall r :: r in after.records <==> r in before.records || r == record
    ensures ValidFile(rules, after) <==> record.created > 0 && forall r | r in before.records :: r.id != record.id
  {
    var records := before.records;
    assert records + [record] == records[..|records|] + [record] + records[|records|..];
    UniqueInserts(records, |records|, record);
    WrittenIsValid(rules, before.generation + 1, records + [record], after);
    assert Clashes(records, record) <==> exists r | r in records :: r.id == record.id by {
      if Clashes(records, record) {
        var k :| 0 <= k < |records| && (records[k].id == record.id || records[k].digest == record.digest);
        assert records[k] in records;
      }
    }
  }

  lemma Updated(rules: Rules, before: File, after: File, i: nat, record: Record)
    requires Lawful(rules) && ValidFile(rules, before) && i < |before.records|
    requires Written(rules, before.generation + 1, before.records[i := record], after)
    requires record.id == before.records[i].id && record.created == before.records[i].created
    requires ValidContent(record.content) && record.digest == rules.digestOf(record.content)
    requires forall k | 0 <= k < |before.records| && k != i :: before.records[k].digest != record.digest
    ensures Updates(before, after, before.records[i], record)
    ensures ValidFile(rules, after) <==> record.created <= record.updated
  {
    var records := before.records[i := record];
    forall x
      ensures x in records <==> x == record || (x in before.records && x != before.records[i])
    {
      if x in before.records && x != before.records[i] {
        var k :| 0 <= k < |before.records| && before.records[k] == x;
        assert records[k] == x;
      }
      assert records[i] == record;
    }
    assert Unique(records);
    WrittenIsValid(rules, before.generation + 1, records, after);
    assert before.records[i] in before.records && record in records;
  }

  lemma Forgotten(rules: Rules, before: File, after: File, i: nat)
    requires Lawful(rules) && ValidFile(rules, before) && i < |before.records|
    requires Written(rules, before.generation + 1, before.records[..i] + before.records[i + 1..], after)
    ensures ValidFile(rules, after) && forall x :: x in after.records <==> x in before.records && x != before.records[i]
  {
    var rest := before.records[..i] + before.records[i + 1..];
    assert before.records == rest[..i] + [before.records[i]] + rest[i..];
    UniqueInserts(rest, i, before.records[i]);
    WrittenIsValid(rules, before.generation + 1, rest, after);
    forall x | x in rest
      ensures x != before.records[i]
    {
      var k :| 0 <= k < |rest| && rest[k] == x;
      assert rest[k].id != before.records[i].id;
    }
  }
}
