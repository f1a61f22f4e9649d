/** What a tool call may claim, and when two claims clash: lexical path cleaning, the
    containment test behind tree claims, and the meaning of both as sets of locations. */
module Resources {

  datatype Access = Read | Write

  datatype Resource = Resource(kind: string, path: string, id: string, access: Access, tree: bool)

  // ---- Paths ----

  /** A path cut at its separators; the empty and "." parts are still there. */
  datatype Path = Path(rooted: bool, parts: seq<string>)

  /** A lexically clean path: `ups` leading ".." parts, then ordinary names. */
  datatype CleanPath = CleanPath(rooted: bool, ups: nat, names: seq<string>)

  function Split(s: string, separator: char): (parts: seq<string>)
    ensures |parts| > 0
  {
    if s == [] then [[]]
    else
      var rest := Split(s[1..], separator);
      if s[0] == separator then [[]] + rest else [[s[0]] + rest[0]] + rest[1..]
  }

  function Parse(path: string): Path {
    Path(path != [] && path[0] == '/', Split(path, '/'))
  }

  predicate Ordinary(name: string) {
    name != "" && name != "." && name != ".."
  }

  predicate AllOrdinary(names: seq<string>) {
    forall i | 0 <= i < |names| :: Ordinary(names[i])
  }

  /** One step of lexical cleaning: ".." eats a name, is kept where a relative path climbs,
      and is dropped at the root. */
  function CleanStep(done: CleanPath, part: string): CleanPath {
    if part == "" || part == "." then done
    else if part == ".." then
      if done.names != [] then done.(names := done.names[..|done.names| - 1])
      else if done.rooted then done
      else done.(ups := done.ups + 1)
    else done.(names := done.names + [part])
  }

  function CleanParts(done: CleanPath, parts: seq<string>): CleanPath
    decreases |parts|
  {
    if parts == [] then done else CleanParts(CleanStep(done, parts[0]), parts[1..])
  }

  function Clean(path: string): CleanPath {
    var parsed := Parse(path);
    CleanParts(CleanPath(parsed.rooted, 0, []), parsed.parts)
  }

  /** The parts of a clean path as they are printed. */
  function Elements(p: CleanPath): seq<string> {
    seq(p.ups, _ => "..") + p.names
  }

  datatype Relative = NotRelative | Relative(parts: seq<string>)

  function RelParts(base: seq<string>, target: seq<string>): Relative
    decreases |base|
  {
    if base != [] && target != [] && base[0] == target[0] then RelParts(base[1..], target[1..])
    else if base != [] && base[0] == ".." then NotRelative
    else Relative(seq(|base|, _ => "..") + target)
  }

  /** The path from base to target, computed on the text alone. */
  function Rel(base: CleanPath, target: CleanPath): Relative {
    if base.rooted != target.rooted then NotRelative else RelParts(Elements(base), Elements(target))
  }

  predicate PathContains(parent: CleanPath, child: CleanPath) {
    var r := Rel(parent, child);
    r.Relative? && (r.parts == [] || r.parts[0] != "..")
  }

  // ---- Identifiers ----

  function TrimSlash(id: string): string {
    if id != "" && id[|id| - 1] == '/' then id[..|id| - 1] else id
  }

  predicate IdContains(parent: string, child: string) {
    var root := TrimSlash(parent);
    child == root || root + "/" <= child
  }

  function IdOf(r: Resource): string {
    if r.id == "" then r.path else r.id
  }

  // ---- Overlap and conflict, as the lock manager decides them ----

  predicate IsPathKind(kind: string) {
    kind == "file" || kind == "directory" || kind == "repo" || kind == "workspace"
  }

  predicate Overlap(left: Resource, right: Resource) {
    if IsPathKind(left.kind) && IsPathKind(right.kind) then
      var l, r := Clean(left.path), Clean(right.path);
      l == r || (left.tree && PathContains(l, r)) || (right.tree && PathContains(r, l))
    else if left.kind != right.kind then false
    else
      var l, r := IdOf(left), IdOf(right);
      l == r || (left.tree && IdContains(l, r)) || (right.tree && IdContains(r, l))
  }

  predicate Clash(left: Resource, right: Resource) {
    Overlap(left, right) && (left.access == Write || right.access == Write)
  }

  predicate Conflict(left: seq<Resource>, right: seq<Resource>) {
    exists i, j | 0 <= i < |left| && 0 <= j < |right| :: Clash(left[i], right[j])
  }

  lemma ConflictSymmetric(left: seq<Resource>, right: seq<Resource>)
    ensures Conflict(left, right) == Conflict(right, left)
  {
    if Conflict(left, right) {
      var i, j :| 0 <= i < |left| && 0 <= j < |right| && Clash(left[i], right[j]);
      assert Clash(right[j], left[i]);
    }
    if Conflict(right, left) {
      var i, j :| 0 <= i < |right| && 0 <= j < |left| && Clash(right[i], left[j]);
      assert Clash(left[j], right[i]);
    }
  }

  /** Two claims contend: one of them may write, and they cover a common location, found by paths that are
      anchored alike if both are paths. */
  ghost predicate Contend(cwd: seq<string>, left: Resource, right: Resource) {
    (left.access == Write || right.access == Write) && Meet(cwd, left, right) &&
    (IsPathKind(left.kind) && IsPathKind(right.kind) ==> SameAnchor(left.path, right.path))
  }

  /** Two lists conflict exactly when a claim of one contends with a claim of the other; so readers never do. */
  lemma ConflictMeans(cwd: seq<string>, left: seq<Resource>, right: seq<Resource>)
    ensures Conflict(left, right) <==> exists i, j | 0 <= i < |left| && 0 <= j < |right| :: Contend(cwd, left[i], right[j])
    ensures (forall r | r in left + right :: r.access == Read) ==> !Conflict(left, right)
  {
    forall i, j | 0 <= i < |left| && 0 <= j < |right|
      ensures Clash(left[i], right[j]) <==> Contend(cwd, left[i], right[j])
    {
      OverlapIsSharedLocation(cwd, left[i], right[j]);
    }
    if i, j :| 0 <= i < |left| && 0 <= j < |right| && Clash(left[i], right[j]) {
      assert left[i] in left + right && right[j] in left + right;
    }
  }

  /** Files, directories, repositories and workspaces lie in one tree; things of any other kind are told
      apart by kind, and then by identifier, or by path if they have none. */
  lemma WriterClashes(left: Resource, right: Resource)
    requires left.access == Write
    ensures var paths := {"file", "directory", "repo", "workspace"};
      if left.kind in paths && right.kind in paths then
        left.path == right.path ==> Clash(left, right) && Clash(right, left)
      else if left.kind != right.kind then !Clash(left, right)
      else
        (left.id == right.id && (left.id != "" || left.path == right.path) ==> Clash(left, right)) &&
        (!left.tree && !right.tree && left.id != "" && right.id != "" && left.id != right.id ==> !Clash(left, right))
  {
  }

  /** The loop over both lists decides conflict. */
  method SetsConflict(left: seq<Resource>, right: seq<Resource>) returns (conflict: bool)
    ensures conflict == Conflict(left, right)
  {
    for i := 0 to |left|
      invariant forall a, b | 0 <= a < i && 0 <= b < |right| :: !Clash(left[a], right[b])
    {
      for j := 0 to |right|
        invariant forall b | 0 <= b < j :: !Clash(left[i], right[b])
      {
        if Clash(left[i], right[j]) {
          return true;
        }
      }
    }
    return false;
  }

  /** A request keeps each of its resources once and drops those without a kind. */
  function Normalize(resources: seq<Resource>): (kept: seq<Resource>)
    ensures forall r :: r in kept <==> r in resources && r.kind != ""
    ensures forall i, j | 0 <= i < j < |kept| :: kept[i] != kept[j]
  {
    if resources == [] then []
    else
      var rest := Normalize(resources[1..]);
      if resources[0].kind == "" || resources[0] in rest then rest else [resources[0]] + rest
  }

  // ---- What a claim covers ----

  /** A place in the file tree, or a named thing of some other kind. */
  datatype Location = Place(names: seq<string>) | Named(kind: string, id: string)

  function Walk(at: seq<string>, parts: seq<string>): seq<string>
    decreases |parts|
  {
    if parts == [] then at
    else
      var next :=
        if parts[0] == "" || parts[0] == "." then at
        else if parts[0] == ".." then (if at == [] then [] else at[..|at| - 1])
        else at + [parts[0]];
      Walk(next, parts[1..])
  }

  /** Where a path leads from a working directory, walking it one part at a time. */
  function Where(cwd: seq<string>, path: string): seq<string> {
    var parsed := Parse(path);
    Walk(if parsed.rooted then [] else cwd, parsed.parts)
  }

  predicate Covers(cwd: seq<string>, r: Resource, place: Location) {
    if IsPathKind(r.kind) then
      place.Place? &&
      (place.names == Where(cwd, r.path) || (r.tree && Where(cwd, r.path) <= place.names))
    else
      place.Named? && place.kind == r.kind &&
      (place.id == IdOf(r) || (r.tree && IdContains(IdOf(r), place.id)))
  }

  ghost predicate Meet(cwd: seq<string>, left: Resource, right: Resource) {
    exists place :: Covers(cwd, left, place) && Covers(cwd, right, place)
  }

  /** Where a clean path leads. */
  function Base(cwd: seq<string>, p: CleanPath): seq<string> {
    if p.rooted then [] else if p.ups >= |cwd| then [] else cwd[..|cwd| - p.ups]
  }

  function Target(cwd: seq<string>, p: CleanPath): seq<string> {
    Base(cwd, p) + p.names
  }

  predicate WellFormed(p: CleanPath) {
    AllOrdinary(p.names) && (p.rooted ==> p.ups == 0)
  }

  /** Cleaning keeps the meaning of a path from every working directory. */
  lemma {:induction false} CleanPartsKeepsTarget(cwd: seq<string>, done: CleanPath, parts: seq<string>)
    requires WellFormed(done)
    ensures WellFormed(CleanParts(done, parts))
    ensures CleanParts(done, parts).rooted == done.rooted
    ensures Target(cwd, CleanParts(done, parts)) == Walk(Target(cwd, done), parts)
    decreases |parts|
  {
    if parts != [] {
      var next := CleanStep(done, parts[0]);
      assert WellFormed(next);
      CleanPartsKeepsTarget(cwd, next, parts[1..]);
      assert Target(cwd, next) == Walk(Target(cwd, done), [parts[0]]) by {
        assert parts[0] != "" && parts[0] != "." && parts[0] != ".." ==>
          Base(cwd, done) + (done.names + [parts[0]]) == Target(cwd, done) + [parts[0]];
        assert Walk(Target(cwd, next), [parts[0]][1..]) == Target(cwd, next);
      }
    }
  }

  lemma CleanKeepsTarget(cwd: seq<string>, path: string)
    ensures WellFormed(Clean(path)) && Clean(path).rooted == Parse(path).rooted
    ensures Target(cwd, Clean(path)) == Where(cwd, path)
  {
    var parsed := Parse(path);
    var start := CleanPath(parsed.rooted, 0, []);
    CleanPartsKeepsTarget(cwd, start, parsed.parts);
    assert Target(cwd, start) == if parsed.rooted then [] else cwd;
  }

  /** Two paths are anchored alike when both are rooted or both climb equally far. */
  predicate SameAnchor(left: string, right: string) {
    Clean(left).rooted == Clean(right).rooted && Clean(left).ups == Clean(right).ups
  }

  lemma {:induction false} RelPartsStripsPrefix(base: seq<string>, target: seq<string>, shared: nat)
    ensures RelParts(seq(shared, _ => "..") + base, seq(shared, _ => "..") + target) == RelParts(base, target)
    decreases shared
  {
    var up: seq<string> := seq(shared, _ => "..");
    if shared == 0 {
      assert up + base == base && up + target == target;
    } else {
      var rest: seq<string> := seq(shared - 1, _ => "..");
      assert (up + base)[1..] == rest + base && (up + target)[1..] == rest + target;
      RelPartsStripsPrefix(base, target, shared - 1);
    }
  }

  lemma {:induction false} RelPartsIsPrefix(base: seq<string>, target: seq<string>)
    requires AllOrdinary(base) && AllOrdinary(target)
    ensures var r := RelParts(base, target);
      (r.Relative? && (r.parts == [] || r.parts[0] != "..")) == (base <= target)
  {
    if base != [] && target != [] && base[0] == target[0] {
      RelPartsIsPrefix(base[1..], target[1..]);
      assert base == [base[0]] + base[1..] && target == [target[0]] + target[1..];
      assert base <= target <==> base[1..] <= target[1..];
    } else if base == [] {
      assert seq(|base|, _ => "..") + target == target;
    }
  }

  lemma PrefixAfter<T>(b: seq<T>, x: seq<T>, y: seq<T>)
    ensures b + x <= b + y <==> x <= y
    ensures b + x == b + y <==> x == y
  {
    assert (b + x)[|b|..] == x && (b + y)[|b|..] == y;
    if x <= y {
      assert b + y == (b + x) + y[|x|..];
    }
    if b + x <= b + y {
      assert x == (b + y)[..|b| + |x|][|b|..] == y[..|x|];
    }
  }

  lemma ContainsIsPrefix(cwd: seq<string>, parent: CleanPath, child: CleanPath)
    requires WellFormed(parent) && WellFormed(child)
    requires parent.rooted == child.rooted && parent.ups == child.ups
    ensures PathContains(parent, child) == (Target(cwd, parent) <= Target(cwd, child))
    ensures (parent == child) == (Target(cwd, parent) == Target(cwd, child))
  {
    RelPartsStripsPrefix(parent.names, child.names, parent.ups);
    RelPartsIsPrefix(parent.names, child.names);
    PrefixAfter(Base(cwd, parent), parent.names, child.names);
  }

  lemma PrefixesOfOneAreNested<T>(a: seq<T>, b: seq<T>, whole: seq<T>)
    requires a <= whole && b <= whole
    ensures a <= b || b <= a
  {
    if |a| <= |b| {
      assert a == whole[..|a|] == whole[..|b|][..|a|];
    } else {
      assert b == whole[..|b|] == whole[..|a|][..|b|];
    }
  }

  function Joined(parts: seq<string>, separator: char): string {
    if parts == [] then "" else if |parts| == 1 then parts[0] else parts[0] + [separator] + Joined(parts[1..], separator)
  }

  /** Cutting a text at its separators loses nothing and leaves none. */
  lemma {:induction false} SplitJoins(s: string, separator: char)
    ensures Joined(Split(s, separator), separator) == s
    ensures forall part | part in Split(s, separator) :: separator !in part
  {
    if s != [] {
      var rest := Split(s[1..], separator);
      SplitJoins(s[1..], separator);
      if s[0] == separator {
        assert ([[]] + rest)[1..] == rest;
      } else {
        assert ([[s[0]] + rest[0]] + rest[1..])[1..] == rest[1..];
        assert s == [s[0]] + s[1..];
      }
    }
  }

  lemma {:induction false} SplitPrefix(a: string, b: string, separator: char)
    ensures Split(a, separator) <= Split(b, separator) <==> b == a || a + [separator] <= b
  {
    var x, y := Split(a, separator), Split(b, separator);
    assert x <= y ==> x[0] == y[0];
    if a == [] {
      assert x <= y <==> y[0] == [];
      assert a + [separator] == [separator];
    } else if b != [] && a[0] == b[0] {
      SplitPrefix(a[1..], b[1..], separator);
      var x', y' := Split(a[1..], separator), Split(b[1..], separator);
      assert a + [separator] == [a[0]] + (a[1..] + [separator]) && b == [b[0]] + b[1..] && a == [a[0]] + a[1..];
      assert a + [separator] <= b <==> a[1..] + [separator] <= b[1..];
      if a[0] == separator {
        assert x == [[]] + x' && y == [[]] + y';
      } else {
        assert x[0][1..] == x'[0] && y[0][1..] == y'[0] && x[1..] == x'[1..] && y[1..] == y'[1..];
        assert x <= y <==> x[0] == y[0] && x[1..] <= y[1..];
        assert x' <= y' <==> x'[0] == y'[0] && x'[1..] <= y'[1..];
      }
    } else {
      assert a[0] == separator ==> |x| > 1;
      assert b != [] ==> x[0] != y[0];
    }
  }

  /** An identifier holds itself and everything below it, told part by part; a slash at its end says
      nothing. */
  lemma IdContainsMeans(parent: string, child: string)
    ensures parent == "" || parent[|parent| - 1] != '/' ==>
      (IdContains(parent, child) <==> Split(parent, '/') <= Split(child, '/')) &&
      (IdContains(parent + "/", child) <==> IdContains(parent, child))
  {
    if parent == "" || parent[|parent| - 1] != '/' {
      SplitPrefix(parent, child, '/');
      assert TrimSlash(parent) == parent && TrimSlash(parent + "/") == parent && parent + "/" == parent + ['/'];
    }
  }

  lemma IdTreesNest(a: string, b: string, id: string)
    requires IdContains(a, id) && IdContains(b, id) && |TrimSlash(a)| <= |TrimSlash(b)|
    ensures IdContains(a, b)
  {
    var s, t := TrimSlash(a), TrimSlash(b);
    assert s <= id && t <= id;
    PrefixesOfOneAreNested(s, t, id);
    assert s <= t;
    if |s| == |t| {
      assert b == s || b == s + "/";
    } else {
      assert s + "/" <= id;
      PrefixesOfOneAreNested(s + "/", t, id);
      assert s + "/" <= t <= b;
    }
  }

  lemma IdInOwnTree(id: string)
    ensures IdContains(id, id)
  {
    assert id == TrimSlash(id) || id == TrimSlash(id) + "/";
  }

  lemma {:induction false} OtherAnchorIsOutside(base: CleanPath, target: CleanPath)
    requires WellFormed(base) && WellFormed(target)
    requires base.rooted != target.rooted || base.ups != target.ups
    ensures !PathContains(base, target)
  {
    if base.rooted == target.rooted {
      var shared := if base.ups <= target.ups then base.ups else target.ups;
      var up := seq(shared, _ => "..");
      var b, t := seq(base.ups - shared, _ => "..") + base.names, seq(target.ups - shared, _ => "..") + target.names;
      assert Elements(base) == up + b && Elements(target) == up + t;
      RelPartsStripsPrefix(b, t, shared);
    }
  }

  lemma PathOverlap(cwd: seq<string>, left: Resource, right: Resource)
    requires IsPathKind(left.kind) && IsPathKind(right.kind)
    ensures Overlap(left, right) <==> SameAnchor(left.path, right.path) && Meet(cwd, left, right)
  {
    CleanKeepsTarget(cwd, left.path);
    CleanKeepsTarget(cwd, right.path);
    if SameAnchor(left.path, right.path) {
      ContainsIsPrefix(cwd, Clean(left.path), Clean(right.path));
      ContainsIsPrefix(cwd, Clean(right.path), Clean(left.path));
      var l, r := Where(cwd, left.path), Where(cwd, right.path);
      if Overlap(left, right) {
        var place := Place(if left.tree && l <= r then r else l);
        assert Covers(cwd, left, place) && Covers(cwd, right, place);
      }
      if Meet(cwd, left, right) {
        var place :| Covers(cwd, left, place) && Covers(cwd, right, place);
        PrefixesOfOneAreNested(l, r, place.names);
      }
    } else {
      OtherAnchorIsOutside(Clean(left.path), Clean(right.path));
      OtherAnchorIsOutside(Clean(right.path), Clean(left.path));
    }
  }

  lemma IdOverlapIsSharedId(cwd: seq<string>, left: Resource, right: Resource)
    requires left.kind == right.kind && !IsPathKind(left.kind)
    ensures Overlap(left, right) <==> Meet(cwd, left, right)
  {
    var l, r := IdOf(left), IdOf(right);
    IdInOwnTree(l);
    IdInOwnTree(r);
    if Overlap(left, right) {
      var place := Named(left.kind, if left.tree && IdContains(l, r) then r else l);
      assert Covers(cwd, left, place) && Covers(cwd, right, place);
    }
    if Meet(cwd, left, right) {
      var place :| Covers(cwd, left, place) && Covers(cwd, right, place);
      if left.tree && right.tree {
        if |TrimSlash(l)| <= |TrimSlash(r)| {
          IdTreesNest(l, r, place.id);
        } else {
          IdTreesNest(r, l, place.id);
        }
      }
    }
  }

  /** The overlap test decides "some location is covered by both", for claims on any mix of kinds
      and from any working directory, exactly when two path claims are anchored alike or do not
      meet: paths anchored differently are never reported as overlapping. */
  lemma OverlapIsSharedLocation(cwd: seq<string>, left: Resource, right: Resource)
    ensures Overlap(left, right) <==>
      Meet(cwd, left, right) &&
      (IsPathKind(left.kind) && IsPathKind(right.kind) ==> SameAnchor(left.path, right.path))
  {
    if IsPathKind(left.kind) && IsPathKind(right.kind) {
      PathOverlap(cwd, left, right);
    } else if left.kind == right.kind {
      IdOverlapIsSharedId(cwd, left, right);
    }
  }

  lemma {:induction false} SplitAtFirst(first: string, separator: char, rest: string)
    requires separator !in first
    ensures Split(first, separator) == [first]
    ensures Split(first + [separator] + rest, separator) == [first] + Split(rest, separator)
  {
    var whole := first + [separator] + rest;
    if first == [] {
      assert whole[1..] == rest;
    } else {
      SplitAtFirst(first[1..], separator, rest);
      assert whole[1..] == first[1..] + [separator] + rest;
      assert first == [first[0]] + first[1..];
    }
  }

  /** The anchor condition cannot be dropped: "../.." taken as a tree holds "..", and the test misses it. */
  lemma DifferentAnchorsCanBeMissed()
    ensures var up := Resource("directory", "../..", "", Write, true);
      var parent := Resource("directory", "..", "", Write, false);
      !Overlap(up, parent) && Meet(["w", "x", "y"], up, parent)
  {
    var cwd := ["w", "x", "y"];
    var up := Resource("directory", "../..", "", Write, true);
    var parent := Resource("directory", "..", "", Write, false);
    SplitAtFirst("..", '/', "..");
    assert ".." + ['/'] + ".." == "../..";
    CleanKeepsTarget(cwd, up.path);
    CleanKeepsTarget(cwd, parent.path);
    assert ["..", ".."][1..] == [".."];
    assert Clean(up.path) == CleanPath(false, 2, []) && Clean(parent.path) == CleanPath(false, 1, []);
    PathOverlap(cwd, up, parent);
    assert Covers(cwd, parent, Place(["w", "x"])) && Covers(cwd, up, Place(["w", "x"]));
  }
}
