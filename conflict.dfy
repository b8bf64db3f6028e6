/**
 * Conflict detection over a second reading of the dependency descriptor
 * (src/srcconflict.rs): packages here are bare name/version pairs, comment
 * lines are skipped, a line whose package token is malformed is dropped
 * without error, and a conflict is two versions of one name that some
 * declared package pulls in together.
 */
module Conflict {
  import opened Wrappers
  import opened Text
  import opened Errors
  import opened Graph
  import opened LineReader
  import opened Tokens
  import opened Resource

  datatype Package = Package(name: string, version: string)

  type ConflictDeps = map<Package, seq<Package>>

  // ---------------------------------------------------------------- ordering

  datatype Ordering = Less | Equal | Greater

  /**
   * Rust's `String` order: bytewise over UTF-8, which is the order of the
   * code points, a proper prefix first.
   */
  function CompareText(a: string, b: string): Ordering {
    if a == [] && b == [] then Equal
    else if a == [] then Less
    else if b == [] then Greater
    else if a[0] < b[0] then Less
    else if a[0] > b[0] then Greater
    else CompareText(a[1..], b[1..])
  }

  lemma {:induction false} CompareTextEqual(a: string, b: string)
    ensures CompareText(a, b) == Equal <==> a == b
  {
    if a != [] && b != [] && a[0] == b[0] {
      CompareTextEqual(a[1..], b[1..]);
      assert a == [a[0]] + a[1..] && b == [b[0]] + b[1..];
    }
  }

  lemma {:induction false} CompareTextFlip(a: string, b: string)
    ensures CompareText(a, b) == Less <==> CompareText(b, a) == Greater
  {
    if a != [] && b != [] && a[0] == b[0] {
      CompareTextFlip(a[1..], b[1..]);
    }
  }

  lemma {:induction false} CompareTextTransitive(a: string, b: string, c: string)
    requires CompareText(a, b) == Less && CompareText(b, c) == Less
    ensures CompareText(a, c) == Less
  {
    if a != [] && b != [] && c != [] && a[0] == b[0] && b[0] == c[0] {
      CompareTextTransitive(a[1..], b[1..], c[1..]);
    }
  }

  /** `Ord for Package`: by name, and by version between equal names. */
  function Compare(p: Package, q: Package): Ordering {
    match CompareText(p.name, q.name)
    case Equal => CompareText(p.version, q.version)
    case other => other
  }

  predicate Below(p: Package, q: Package) {
    Compare(p, q) == Less
  }

  /** The order agrees with equality of both fields. */
  lemma CompareEqual(p: Package, q: Package)
    ensures Compare(p, q) == Equal <==> p == q
  {
    CompareTextEqual(p.name, q.name);
    CompareTextEqual(p.version, q.version);
  }

  /** Exactly one of below, equal and above holds, with the roles swapped for above. */
  lemma CompareFlip(p: Package, q: Package)
    ensures Compare(p, q) == Less <==> Compare(q, p) == Greater
  {
    CompareTextFlip(p.name, q.name);
    CompareTextFlip(p.version, q.version);
    CompareTextEqual(p.name, q.name);
    CompareTextEqual(q.name, p.name);
  }

  lemma CompareTransitive(p: Package, q: Package, r: Package)
    requires Below(p, q) && Below(q, r)
    ensures Below(p, r)
  {
    CompareTextEqual(p.name, q.name);
    CompareTextEqual(q.name, r.name);
    CompareTextEqual(p.name, r.name);
    if p.name == q.name && q.name == r.name {
      CompareTextTransitive(p.version, q.version, r.version);
    } else if p.name == q.name {
    } else if q.name == r.name {
    } else {
      CompareTextTransitive(p.name, q.name, r.name);
    }
  }

  /** Two different packages are ordered one way or the other. */
  lemma CompareTotal(p: Package, q: Package)
    requires p != q
    ensures Below(p, q) != Below(q, p)
  {
    CompareEqual(p, q);
    CompareFlip(p, q);
    CompareFlip(q, p);
  }

  // ---------------------------------------------------------------- the descriptor

  function DependencyFormatError(token: string): PaketYoneticisiHatasi {
    PaketYoneticisiHatasi.ParsingError("Geçersiz bağımlılık formatı: " + token)
  }

  function LineFormatError(line: string): PaketYoneticisiHatasi {
    PaketYoneticisiHatasi.ParsingError("Geçersiz satır formatı: " + line)
  }

  /** One comma-separated dependency: trimmed, it must split on '@' into two parts. */
  function ParseDependency(token: string): Result<Package, PaketYoneticisiHatasi> {
    var parts := Split(Trim(token), "@");
    if |parts| == 2 then Ok(Package(parts[0], parts[1]))
    else Err(DependencyFormatError(token))
  }

  /**
   * A dependency token parses exactly when, trimmed, it holds one '@'; the
   * package's name and version are then the two sides, and otherwise the
   * error quotes the token as written.
   */
  lemma ParseDependencySpec(token: string)
    ensures ParseDependency(token).Err? <==> Count(Trim(token), '@') != 1
    ensures ParseDependency(token).Err? ==> ParseDependency(token).error == DependencyFormatError(token)
    ensures ParseDependency(token).Ok? ==>
              ParseDependency(token).value.name + "@" + ParseDependency(token).value.version == Trim(token)
  {
    var parts := Split(Trim(token), "@");
    SplitCharCount(Trim(token), '@');
    JoinSplit(Trim(token), "@");
    if |parts| == 2 {
      assert Join(parts, "@") == parts[0] + "@" + Join(parts[1..], "@");
      assert parts[1..] == [parts[1]];
    }
  }

  /** The dependency tokens in order; the first malformed one is the error. */
  function ParseDependencies(tokens: seq<string>): Result<seq<Package>, PaketYoneticisiHatasi> {
    ParseEachFrom(tokens, ParseDependency, 0)
  }

  /**
   * The list fails exactly when some token is malformed, and then with the
   * error of the first such token; otherwise it holds every token's package in order.
   */
  lemma ParseDependenciesError(tokens: seq<string>)
    ensures ParseDependencies(tokens).Err? <==> exists k :: 0 <= k < |tokens| && ParseDependency(tokens[k]).Err?
    ensures ParseDependencies(tokens).Err? ==>
              exists k :: 0 <= k < |tokens| && ParseDependency(tokens[k]) == Err(ParseDependencies(tokens).error)
                          && forall j :: 0 <= j < k ==> ParseDependency(tokens[j]).Ok?
    ensures ParseDependencies(tokens).Ok? ==>
              |ParseDependencies(tokens).value| == |tokens| &&
              forall k :: 0 <= k < |tokens| ==> ParseDependency(tokens[k]) == Ok(ParseDependencies(tokens).value[k])
  {
    ParseEachError(tokens, ParseDependency);
  }

  /** A line that is blank or a `#` comment once trimmed. */
  predicate Skipped(t: string) {
    t == [] || StartsWith(t, "#")
  }

  /** What one descriptor line does to the map being built. */
  function LineEffect(line: string, deps: ConflictDeps): Result<ConflictDeps, PaketYoneticisiHatasi> {
    var t := Trim(line);
    if Skipped(t) then Ok(deps)
    else
      var parts := Split(t, " -> ");
      if |parts| != 2 then Err(LineFormatError(t))
      else
        var packageParts := Split(parts[0], "@");
        if |packageParts| != 2 then Ok(deps)
        else match ParseDependencies(Split(parts[1], ","))
          case Err(e) => Err(e)
          case Ok(ds) => Ok(deps[Package(packageParts[0], packageParts[1]) := ds])
  }

  /** Handling of one line, the inner `for dep_str in ...` loop included. */
  method ApplyLine(line: string, deps: ConflictDeps) returns (r: Result<ConflictDeps, PaketYoneticisiHatasi>)
    ensures r == LineEffect(line, deps)
  {
    var t := Trim(line);
    if t == [] || StartsWith(t, "#") {
      return Ok(deps);
    }
    var parts := Split(t, " -> ");
    if |parts| != 2 {
      return Err(LineFormatError(t));
    }
    var packageParts := Split(parts[0], "@");
    if |packageParts| != 2 {
      return Ok(deps);
    }
    var parsed := CollectDependencyList(Split(parts[1], ","));
    if parsed.Err? {
      return Err(parsed.error);
    }
    return Ok(deps[Package(packageParts[0], packageParts[1]) := parsed.value]);
  }

  /** The inner `for dep_str in dependencies_str.split(',')` loop. */
  method CollectDependencyList(tokens: seq<string>) returns (r: Result<seq<Package>, PaketYoneticisiHatasi>)
    ensures r == ParseDependencies(tokens)
  {
    r := ParseEach(tokens, ParseDependency);
  }

  /** The whole descriptor, line by line as `str::lines` yields them. */
  function ConflictStep(): (string, ConflictDeps) -> Result<ConflictDeps, PaketYoneticisiHatasi> {
    (line, deps) => LineEffect(line, deps)
  }

  function Descriptor(content: string): Result<ConflictDeps, PaketYoneticisiHatasi> {
    FoldLines(Lines(content), ConflictStep(), map[])
  }

  /** The line loop of `get_dependencies`, once the resource is text. */
  method ParseDescriptor(content: string) returns (r: Result<ConflictDeps, PaketYoneticisiHatasi>)
    ensures r == Descriptor(content)
  {
    r := FoldEach(Lines(content), ConflictStep(), map[]);
  }

  // ---------------------------------------------------------------- reading the resource

  function Utf8Error(id: string): PaketYoneticisiHatasi {
    GecersizParametre("Geçersiz UTF-8 Kaynak içeriği: " + id)
  }

  /**
   * `read_resource_to_string`: acquire `id` for reading, read until a read
   * returns no bytes, then decode; `decode` stands for `core::str::from_utf8`.
   */
  function ResourceText(id: string, access: Access, chunks: seq<Chunk<byte>>, decode: seq<byte> -> Option<string>)
    : Result<string, PaketYoneticisiHatasi>
  {
    match ReadToVec(access, chunks)
    case Err(e) => Err(FromSahneLocal(e))
    case Ok(bytes) => if decode(bytes).Some? then Ok(decode(bytes).value) else Err(Utf8Error(id))
  }

  method ReadResourceToString(id: string, access: Access, chunks: seq<Chunk<byte>>, decode: seq<byte> -> Option<string>)
    returns (r: Result<string, PaketYoneticisiHatasi>)
    ensures r == ResourceText(id, access, chunks, decode)
  {
    var read := ReadAll(access, chunks);
    match read
    case Err(e) =>
      return Err(FromSahneLocal(e));
    case Ok(bytes) =>
      var text := decode(bytes);
      if text.None? {
        return Err(Utf8Error(id));
      }
      return Ok(text.value);
  }

  /** `get_dependencies`: a resource that cannot be found means no dependencies; any other failure is returned. */
  function DependenciesOf(id: string, access: Access, chunks: seq<Chunk<byte>>, decode: seq<byte> -> Option<string>)
    : Result<ConflictDeps, PaketYoneticisiHatasi>
  {
    match ResourceText(id, access, chunks, decode)
    case Err(e) => if e == SahneApiHatasi(ResourceNotFound) then Ok(map[]) else Err(e)
    case Ok(content) => Descriptor(content)
  }

  method GetDependencies(id: string, access: Access, chunks: seq<Chunk<byte>>, decode: seq<byte> -> Option<string>)
    returns (r: Result<ConflictDeps, PaketYoneticisiHatasi>)
    ensures r == DependenciesOf(id, access, chunks, decode)
  {
    var content := ReadResourceToString(id, access, chunks, decode);
    if content.Err? {
      if content.error == SahneApiHatasi(ResourceNotFound) {
        return Ok(map[]);
      }
      return Err(content.error);
    }
    r := ParseDescriptor(content.value);
  }

  /**
   * A missing descriptor gives the empty map, whether `acquire` or a later
   * read reports it; any other refusal is returned as the kernel's error;
   * bytes that are not UTF-8 are an invalid-parameter error naming the
   * resource; text is parsed line by line.
   */
  lemma DependenciesRead(id: string, access: Access, chunks: seq<Chunk<byte>>, decode: seq<byte> -> Option<string>)
    ensures ReadToVec(access, chunks) == Err(ResourceNotFound) ==> DependenciesOf(id, access, chunks, decode) == Ok(map[])
    ensures access.Denied? && access.error != ResourceNotFound ==>
              DependenciesOf(id, access, chunks, decode) == Err(SahneApiHatasi(access.error))
    ensures access.Granted? && Drain(chunks).Err? && Drain(chunks).error != ResourceNotFound ==>
              DependenciesOf(id, access, chunks, decode) == Err(SahneApiHatasi(Drain(chunks).error))
    ensures access.Granted? && Drain(chunks).Ok? && decode(Drain(chunks).value).None? ==>
              DependenciesOf(id, access, chunks, decode) == Err(Utf8Error(id))
    ensures access.Granted? && Drain(chunks).Ok? && decode(Drain(chunks).value).Some? ==>
              DependenciesOf(id, access, chunks, decode) == Descriptor(decode(Drain(chunks).value).value)
  {
  }

  /** Blank and comment lines change nothing. */
  lemma SkippedLine(line: string, deps: ConflictDeps)
    requires Trim(line) == [] || StartsWith(Trim(line), "#")
    ensures LineEffect(line, deps) == Ok(deps)
  {
  }

  /**
   * A line that is neither blank nor a comment and does not split into two
   * parts on " -> " is an error naming the trimmed line.
   */
  lemma MalformedLine(line: string, deps: ConflictDeps)
    requires !Skipped(Trim(line))
    requires |Split(Trim(line), " -> ")| != 2
    ensures LineEffect(line, deps) == Err(LineFormatError(Trim(line)))
  {
  }

  /**
   * A package token without exactly one '@' drops the line silently: the map
   * is unchanged and the dependency tokens are not even looked at.
   */
  lemma MalformedPackageDropped(line: string, deps: ConflictDeps)
    requires !Skipped(Trim(line))
    requires |Split(Trim(line), " -> ")| == 2
    requires Count(Split(Trim(line), " -> ")[0], '@') != 1
    ensures LineEffect(line, deps) == Ok(deps)
  {
    SplitCharCount(Split(Trim(line), " -> ")[0], '@');
  }

  /**
   * Otherwise the line binds its package, replacing any earlier entry, to
   * the dependencies in the order written; it fails exactly when one of the
   * dependency tokens is malformed.
   */
  lemma WellFormedLine(line: string, deps: ConflictDeps, parts: seq<string>, tokens: seq<string>)
    requires !Skipped(Trim(line))
    requires parts == Split(Trim(line), " -> ") && |parts| == 2
    requires Count(parts[0], '@') == 1
    requires tokens == Split(parts[1], ",")
    ensures LineEffect(line, deps).Ok? <==> forall k :: 0 <= k < |tokens| ==> ParseDependency(tokens[k]).Ok?
    ensures LineEffect(line, deps).Ok? ==>
              exists p :: && p in LineEffect(line, deps).value
                          && LineEffect(line, deps).value == deps[p := LineEffect(line, deps).value[p]]
                          && p.name + "@" + p.version == parts[0]
                          && |LineEffect(line, deps).value[p]| == |tokens|
                          && forall k :: 0 <= k < |tokens| ==> ParseDependency(tokens[k]) == Ok(LineEffect(line, deps).value[p][k])
  {
    SplitCharCount(parts[0], '@');
    JoinSplit(parts[0], "@");
    var pp := Split(parts[0], "@");
    assert Join(pp, "@") == pp[0] + "@" + Join(pp[1..], "@");
    assert pp[1..] == [pp[1]];
    ParseDependenciesError(tokens);
    if LineEffect(line, deps).Ok? {
      var p := Package(pp[0], pp[1]);
      assert LineEffect(line, deps).value == deps[p := ParseDependencies(tokens).value];
    }
  }

  // ---------------------------------------------------------------- detection

  /** The names among a set of packages. */
  function Names(s: set<Package>): set<string> {
    set p | p in s :: p.name
  }

  /** `collected_packages`: the visited packages grouped by name. */
  function Group(s: set<Package>): map<string, set<Package>> {
    map n | n in Names(s) :: set p | p in s && p.name == n
  }

  lemma GroupInsert(s: set<Package>, p: Package)
    ensures Group(s + {p}) ==
            Group(s)[p.name := (if p.name in Group(s) then Group(s)[p.name] else {}) + {p}]
  {
    var left := Group(s + {p});
    var right := Group(s)[p.name := (if p.name in Group(s) then Group(s)[p.name] else {}) + {p}];
    assert left.Keys == right.Keys;
    forall n | n in left
      ensures left[n] == right[n]
    {
    }
  }

  /**
   * What a walk from `from` may add to the visited set: only nodes it
   * reaches, each with all of its dependencies visited by the end, except
   * possibly `from` itself while its own loop is still running.
   */
  ghost predicate AddedBy(g: ConflictDeps, from: Package, before: set<Package>, after: set<Package>, pending: bool) {
    && before <= after <= Nodes(g)
    && (forall x :: x in after && x !in before ==> Reachable(g, from, x))
    && (forall x, y :: x in after && x !in before && (x != from || !pending) && Edge(g, x, y) ==> y in after)
  }

  /** A finished walk from a dependency keeps the invariant of the walk that called it. */
  lemma AddedByStep(g: ConflictDeps, from: Package, d: Package,
                    before: set<Package>, mid: set<Package>, after: set<Package>)
    requires AddedBy(g, from, before, mid, true)
    requires Edge(g, from, d)
    requires AddedBy(g, d, mid, after, false)
    ensures AddedBy(g, from, before, after, true)
  {
    forall x | x in after && x !in before
      ensures Reachable(g, from, x)
    {
      if x !in mid {
        ReachablePrepend(g, from, d, x);
      }
    }
  }

  /** Once all dependencies of `from` are visited, its walk is finished. */
  lemma AddedByDone(g: ConflictDeps, from: Package, before: set<Package>, after: set<Package>)
    requires AddedBy(g, from, before, after, true)
    requires forall y :: Edge(g, from, y) ==> y in after
    ensures AddedBy(g, from, before, after, false)
  {
  }

  /** Marking a new package as visited starts its walk. */
  lemma AddedByStart(g: ConflictDeps, from: Package, before: set<Package>)
    requires before <= Nodes(g) && from in Nodes(g) && from !in before
    ensures AddedBy(g, from, before, before + {from}, true)
  {
    ReachableRefl(g, from);
  }

  /**
   * `collect_dependencies_recursive`: a depth-first walk that skips visited
   * packages and records each new one in `visited` and, under its name, in
   * `collected`. What it adds is reachable from `package`, and every added
   * package has all its dependencies visited when the call returns.
   */
  method CollectRecursive(package: Package, g: ConflictDeps, visited: set<Package>,
                          collected: map<string, set<Package>>)
    returns (visited': set<Package>, collected': map<string, set<Package>>)
    requires package in Nodes(g)
    requires visited <= Nodes(g)
    requires collected == Group(visited)
    decreases |Nodes(g) - visited|, 1
    ensures package in visited'
    ensures collected' == Group(visited')
    ensures AddedBy(g, package, visited, visited', false)
  {
    if package in visited {
      return visited, collected;
    }
    GroupInsert(visited, package);
    AddedByStart(g, package, visited);
    visited' := visited + {package};
    collected' := collected[package.name := (if package.name in collected then collected[package.name] else {}) + {package}];
    if package in g {
      visited', collected' := CollectEach(package, g[package], g, visited, visited', collected');
    }
    AddedByDone(g, package, visited, visited');
  }

  /** The `for dep in deps` loop of one visit: each dependency is walked in turn. */
  method CollectEach(package: Package, deps: seq<Package>, g: ConflictDeps, ghost start: set<Package>,
                     visited: set<Package>, collected: map<string, set<Package>>)
    returns (visited': set<Package>, collected': map<string, set<Package>>)
    requires package in Nodes(g) && package !in start
    requires package in g && deps == g[package]
    requires start + {package} <= visited
    requires collected == Group(visited)
    requires AddedBy(g, package, start, visited, true)
    decreases |Nodes(g) - start|, 0
    ensures start + {package} <= visited'
    ensures collected' == Group(visited')
    ensures AddedBy(g, package, start, visited', true)
    ensures forall y :: y in deps ==> y in visited'
  {
    visited', collected' := visited, collected;
    var k := 0;
    while k < |deps|
      invariant 0 <= k <= |deps|
      invariant start + {package} <= visited'
      invariant collected' == Group(visited')
      invariant AddedBy(g, package, start, visited', true)
      invariant forall j :: 0 <= j < k ==> deps[j] in visited'
    {
      ghost var before := visited';
      FewerLeft(Nodes(g), start, package, visited');
      visited', collected' := CollectRecursive(deps[k], g, visited', collected');
      AddedByStep(g, package, deps[k], start, before, visited');
      k := k + 1;
    }
  }

  /** The walk from a package started afresh visits exactly what it reaches. */
  lemma CollectedIsReachable(g: ConflictDeps, package: Package, visited: set<Package>)
    requires package in visited
    requires forall x :: x in visited ==> Reachable(g, package, x)
    requires forall x, y :: x in visited && Edge(g, x, y) ==> y in visited
    ensures forall x :: x in visited <==> Reachable(g, package, x)
  {
    forall x | Reachable(g, package, x)
      ensures x in visited
    {
      ClosedHoldsReachable(g, visited, package, x);
    }
  }

  /** The normalised pairs `(min, max)` of distinct packages within one group. */
  function Pairs(versions: set<Package>): set<(Package, Package)> {
    set p, q | p in versions && q in versions && Below(p, q) :: (p, q)
  }

  /** Two packages in conflict: same name, in order, both pulled in by one declared package. */
  ghost predicate Conflicting(g: ConflictDeps, a: Package, b: Package) {
    a.name == b.name && Below(a, b) && exists k :: k in g && Reachable(g, k, a) && Reachable(g, k, b)
  }

  /** Pairs of same-name packages of a set, each normalised. */
  ghost predicate SameNamePair(s: set<Package>, a: Package, b: Package) {
    a in s && b in s && a.name == b.name && Below(a, b)
  }

  /** A group of at most one package gives no pair: the `versions.len() > 1` guard loses nothing. */
  lemma SmallGroupNoPairs(versions: set<Package>)
    requires |versions| <= 1
    ensures Pairs(versions) == {}
  {
    if versions != {} {
      var v :| v in versions;
      assert |versions - {v}| == |versions| - 1 == 0;
      assert versions == {v};
      CompareEqual(v, v);
    }
  }

  /** The pairs of one name's group are the same-name pairs of that name. */
  lemma PairsOfGroup(visited: set<Package>, name: string)
    requires name in Group(visited)
    ensures forall a, b :: (a, b) in Pairs(Group(visited)[name]) <==> SameNamePair(visited, a, b) && a.name == name
  {
    var versions := Group(visited)[name];
    assert versions == set p | p in visited && p.name == name;
    forall a, b | SameNamePair(visited, a, b) && a.name == name
      ensures (a, b) in Pairs(versions)
    {
      assert a in versions && b in versions;
    }
  }

  /**
   * The loop over `collected_for_root`: every group of more than one version
   * adds its normalised pairs to `conflicts`.
   */
  method AddGroupConflicts(conflicts: set<(Package, Package)>, visited: set<Package>,
                           collected: map<string, set<Package>>)
    returns (r: set<(Package, Package)>)
    requires collected == Group(visited)
    ensures forall a, b :: (a, b) in r <==> (a, b) in conflicts || SameNamePair(visited, a, b)
  {
    r := conflicts;
    var names := collected.Keys;
    while names != {}
      invariant names <= collected.Keys
      invariant forall a, b :: (a, b) in r <==>
                  (a, b) in conflicts || (SameNamePair(visited, a, b) && a.name !in names)
      decreases |names|
    {
      var name :| name in names;
      var versions := collected[name];
      PairsOfGroup(visited, name);
      if |versions| > 1 {
        r := r + Pairs(versions);
      } else {
        SmallGroupNoPairs(versions);
      }
      names := names - {name};
    }
  }

  /**
   * `detect_conflicts`: every key of the graph is a root of its own walk;
   * the result is exactly the set of normalised same-name pairs that one
   * root reaches together.
   */
  method DetectConflicts(g: ConflictDeps) returns (conflicts: set<(Package, Package)>)
    ensures forall a, b :: (a, b) in conflicts <==> Conflicting(g, a, b)
  {
    conflicts := {};
    var remaining := g.Keys;
    while remaining != {}
      invariant remaining <= g.Keys
      invariant forall a, b :: (a, b) in conflicts <==>
                  a.name == b.name && Below(a, b) &&
                  exists k :: k in g && k !in remaining && Reachable(g, k, a) && Reachable(g, k, b)
      decreases |remaining|
    {
      var package :| package in remaining;
      var visited, collected := CollectRecursive(package, g, {}, map[]);
      CollectedIsReachable(g, package, visited);
      conflicts := AddGroupConflicts(conflicts, visited, collected);
      remaining := remaining - {package};
    }
  }

  /** Each reported pair names one package twice, in order, with different versions. */
  lemma ConflictPairNormalised(g: ConflictDeps, a: Package, b: Package)
    requires Conflicting(g, a, b)
    ensures a.name == b.name && a.version != b.version
    ensures Below(a, b) && !Below(b, a)
  {
    CompareEqual(a, b);
    CompareFlip(a, b);
  }

  /** `R -> A@1, A@2` in a graph of one key yields exactly the pair of the two `A`s. */
  lemma TwoVersionsConflict()
    ensures var root := Package("R", "1");
            var a1 := Package("A", "1");
            var a2 := Package("A", "2");
            var g := map[root := [a1, a2]];
            forall a, b :: Conflicting(g, a, b) <==> a == a1 && b == a2
  {
    var root := Package("R", "1");
    var a1 := Package("A", "1");
    var a2 := Package("A", "2");
    var g := map[root := [a1, a2]];
    var reach := {root, a1, a2};
    assert Closed(g, reach);
    ReachableRefl(g, root);
    ReachableStep(g, root, root, a1);
    ReachableStep(g, root, root, a2);
    assert Below(a1, a2);
    forall a, b | Conflicting(g, a, b)
      ensures a == a1 && b == a2
    {
      var k :| k in g && Reachable(g, k, a) && Reachable(g, k, b);
      ClosedHoldsReachable(g, reach, root, a);
      ClosedHoldsReachable(g, reach, root, b);
      CompareEqual(a, b);
      CompareFlip(a1, a2);
    }
  }

  /** `resolve_conflicts`: any conflict fails the whole graph; none returns it unchanged. */
  function ResolveConflicts(deps: ConflictDeps, conflicts: set<(Package, Package)>)
    : (r: Result<ConflictDeps, PaketYoneticisiHatasi>)
    ensures r.Err? <==> conflicts != {}
    ensures r.Err? ==> r.error == PaketKurulumHatasi("Bağımlılık çakışmaları çözülemedi")
    ensures r.Ok? ==> r.value == deps
  {
    if conflicts != {} then Err(PaketKurulumHatasi("Bağımlılık çakışmaları çözülemedi"))
    else Ok(deps)
  }

  /**
   * Detection followed by resolution keeps the graph exactly when no
   * declared package reaches two versions of one name.
   */
  lemma ResolveAfterDetect(g: ConflictDeps, conflicts: set<(Package, Package)>)
    requires forall a, b :: (a, b) in conflicts <==> Conflicting(g, a, b)
    ensures ResolveConflicts(g, conflicts) == Ok(g) <==> Unique(g)
  {
    if conflicts != {} {
      var pr :| pr in conflicts;
      ConflictBreaksUnique(g, pr.0, pr.1);
    }
    if !Unique(g) {
      var k, a, b :| k in g && Reachable(g, k, a) && Reachable(g, k, b) && a.name == b.name && a != b;
      DuplicateConflicts(g, conflicts, k, a, b);
    }
  }

  /** No declared package reaches two versions of one name. */
  ghost predicate Unique(g: ConflictDeps) {
    forall k, a, b :: k in g && Reachable(g, k, a) && Reachable(g, k, b) && a.name == b.name ==> a == b
  }

  lemma ConflictBreaksUnique(g: ConflictDeps, a: Package, b: Package)
    requires Conflicting(g, a, b)
    ensures !Unique(g)
  {
    var k :| k in g && Reachable(g, k, a) && Reachable(g, k, b);
    CompareEqual(a, b);
  }

  lemma DuplicateConflicts(g: ConflictDeps, conflicts: set<(Package, Package)>, k: Package, a: Package, b: Package)
    requires forall a, b :: (a, b) in conflicts <==> Conflicting(g, a, b)
    requires k in g && Reachable(g, k, a) && Reachable(g, k, b) && a.name == b.name && a != b
    ensures conflicts != {}
  {
    CompareTotal(a, b);
    if Below(a, b) {
      assert (a, b) in conflicts;
    } else {
      assert (b, a) in conflicts;
    }
  }
}
