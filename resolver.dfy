/**
 * src/srcresolver.rs: the `name@version -> dep@version, ...` descriptor
 * format, the reader that feeds it line by line from a resource, and the
 * explicit-stack resolver that collects every package reachable from a root.
 */
module Resolver {
  import opened Wrappers
  import opened Text
  import opened Resource
  import opened Errors
  import opened Package
  import opened LineReader
  import opened Graph
  import opened Tokens

  /** Package to the packages it depends on, in declaration order. */
  type Dependencies = map<Paket, seq<Paket>>

  // ---------------------------------------------------------------- package ids

  /** `name@version` with the other fields empty, or a ParsingError naming the token. */
  function ParsePackageId(s: string): (r: Result<Paket, PaketYoneticisiHatasi>)
    ensures r.Err? ==> r.error == PaketYoneticisiHatasi.ParsingError("Geçersiz paket ID formatı: " + s)
  {
    var parts := Split(s, "@");
    if |parts| == 2 then Ok(Bare(parts[0], parts[1]))
    else Err(PaketYoneticisiHatasi.ParsingError("Geçersiz paket ID formatı: " + s))
  }

  /** The text a package id is written as. */
  function IdText(p: Paket): string {
    p.ad + "@" + p.surum
  }

  /**
   * A token parses exactly when it holds one `@`; the package is then the
   * two sides of it and nothing else.
   */
  lemma {:induction false} ParsePackageIdSpec(s: string)
    ensures ParsePackageId(s).Ok? <==> Count(s, '@') == 1
    ensures ParsePackageId(s).Ok? ==>
              var p := ParsePackageId(s).value;
              p == Bare(p.ad, p.surum) && IdText(p) == s && NoChar(p.ad, '@') && NoChar(p.surum, '@')
  {
    SplitCharCount(s, '@');
    var parts := Split(s, "@");
    if |parts| == 2 {
      JoinSplit(s, "@");
      assert Join(parts, "@") == parts[0] + "@" + parts[1];
      assert s == parts[0] + ("@" + parts[1]);
      CountAppend(parts[0], "@" + parts[1], '@');
      CountAppend("@", parts[1], '@');
      assert "@"[1..] == [];
      assert Count("@", '@') == 1;
      CountZero(parts[0], '@');
      CountZero(parts[1], '@');
    }
  }

  /** Writing a package id and parsing it back gives the bare package. */
  lemma ParsePackageIdRoundTrip(ad: string, surum: string)
    requires NoChar(ad, '@') && NoChar(surum, '@')
    ensures ParsePackageId(ad + "@" + surum) == Ok(Bare(ad, surum))
  {
    SplitCharTwo(ad, surum, '@');
  }

  // ---------------------------------------------------------------- one line

  /** One dependency token: trimmed, then parsed. */
  function ParseToken(token: string): Result<Paket, PaketYoneticisiHatasi> {
    ParsePackageId(Trim(token))
  }

  /** The dependency tokens of one line from index `i` on, each trimmed and parsed. */
  function ParseDependenciesFrom(tokens: seq<string>, i: nat): Result<seq<Paket>, PaketYoneticisiHatasi>
    requires i <= |tokens|
  {
    ParseEachFrom(tokens, ParseToken, i)
  }

  function ParseDependencies(tokens: seq<string>): Result<seq<Paket>, PaketYoneticisiHatasi> {
    ParseDependenciesFrom(tokens, 0)
  }

  /** The `for dep_str in dependencies_str.split(',')` loop of `process_line`. */
  method CollectDependencies(dependencies: string) returns (r: Result<seq<Paket>, PaketYoneticisiHatasi>)
    ensures r == ParseDependencies(Split(dependencies, ","))
  {
    r := ParseEach(Split(dependencies, ","), ParseToken);
  }

  /**
   * What `process_line` does to the map once the bytes are text: blank
   * lines change nothing; otherwise the trimmed line must split into
   * exactly two parts on " -> ", the left part is the package (not
   * trimmed again), and the right part is its comma-separated dependency
   * list. A new entry replaces an earlier one for the same package.
   */
  function LineEffect(line: string, deps: Dependencies): Result<Dependencies, PaketYoneticisiHatasi> {
    var t := Trim(line);
    if t == [] then Ok(deps)
    else
      var parts := Split(t, " -> ");
      if |parts| != 2 then Err(PaketYoneticisiHatasi.ParsingError("Geçersiz satır formatı: " + t))
      else match ParsePackageId(parts[0])
        case Err(e) => Err(e)
        case Ok(p) =>
          match ParseDependencies(Split(parts[1], ","))
          case Err(e) => Err(e)
          case Ok(ds) => Ok(deps[p := ds])
  }

  /** `process_line` on raw bytes; bytes that are not UTF-8 are a ParsingError. */
  function ProcessLineSpec(bytes: seq<byte>, decode: seq<byte> -> Option<string>, deps: Dependencies)
    : Result<Dependencies, PaketYoneticisiHatasi>
  {
    match decode(bytes)
    case None => Err(PaketYoneticisiHatasi.ParsingError("Geçersiz UTF-8 karakteri"))
    case Some(line) => LineEffect(line, deps)
  }

  /** `process_line`. */
  method ProcessLine(bytes: seq<byte>, decode: seq<byte> -> Option<string>, deps: Dependencies)
    returns (r: Result<Dependencies, PaketYoneticisiHatasi>)
    ensures r == ProcessLineSpec(bytes, decode, deps)
  {
    var decoded := decode(bytes);
    if decoded.None? {
      return Err(PaketYoneticisiHatasi.ParsingError("Geçersiz UTF-8 karakteri"));
    }
    var line := Trim(decoded.value);
    if line == [] {
      return Ok(deps);
    }
    var parts := Split(line, " -> ");
    if |parts| == 2 {
      var package := ParsePackageId(parts[0]);
      if package.Err? {
        return Err(package.error);
      }
      var list := CollectDependencies(parts[1]);
      if list.Err? {
        return Err(list.error);
      }
      return Ok(deps[package.value := list.value]);
    } else {
      return Err(PaketYoneticisiHatasi.ParsingError("Geçersiz satır formatı: " + line));
    }
  }

  /** A line that is blank after trimming leaves the map as it was. */
  lemma BlankLineChangesNothing(line: string, deps: Dependencies)
    requires AllWhite(line)
    ensures LineEffect(line, deps) == Ok(deps)
  {
    TrimEmptyIff(line);
  }

  /**
   * A line that changes the map adds exactly one entry, whose dependency
   * list is never empty: the format cannot declare a package with no
   * dependencies. A failing line leaves nothing behind.
   */
  lemma LineEffectShape(line: string, deps: Dependencies)
    requires LineEffect(line, deps).Ok?
    requires !AllWhite(line)
    ensures |Split(Trim(line), " -> ")| == 2
    ensures exists p :: p in LineEffect(line, deps).value && LineEffect(line, deps).value[p] != [] &&
                        LineEffect(line, deps).value == deps[p := LineEffect(line, deps).value[p]]
  {
    TrimEmptyIff(line);
    var t := Trim(line);
    var parts := Split(t, " -> ");
    var p := ParsePackageId(parts[0]).value;
    var m := LineEffect(line, deps).value;
    assert m == deps[p := m[p]];
  }

  predicate PlainName(s: string) {
    NoChar(s, '@') && NoChar(s, ',') && !ContainsWhite(s)
  }

  predicate PlainPackage(p: Paket) {
    p == Bare(p.ad, p.surum) && PlainName(p.ad) && PlainName(p.surum)
  }

  /** The descriptor line for `p` and its dependencies: `p -> d1,d2,...`. */
  function FormatLine(p: Paket, ds: seq<Paket>): string {
    IdText(p) + " -> " + Join(IdTexts(ds), ",")
  }

  function IdTexts(ds: seq<Paket>): (r: seq<string>)
    ensures |r| == |ds| && forall k :: 0 <= k < |ds| ==> r[k] == IdText(ds[k])
  {
    if ds == [] then [] else [IdText(ds[0])] + IdTexts(ds[1..])
  }

  /**
   * Reading back a written line: the line for `p` and a non-empty list of
   * plain packages records exactly that list for `p`.
   */
  lemma {:induction false} FormatLineRoundTrip(p: Paket, ds: seq<Paket>, deps: Dependencies)
    requires PlainPackage(p)
    requires ds != [] && forall k :: 0 <= k < |ds| ==> PlainPackage(ds[k])
    ensures LineEffect(FormatLine(p, ds), deps) == Ok(deps[p := ds])
  {
    FormatLineSplits(p, ds);
    DependencyListRoundTrip(ds);
    ParsePackageIdRoundTrip(p.ad, p.surum);
    LineEffectOk(FormatLine(p, ds), IdText(p), Join(IdTexts(ds), ","), p, ds, deps);
  }

  /** A trimmed line whose two halves parse records the parsed list for the parsed package. */
  lemma LineEffectOk(line: string, left: string, right: string, p: Paket, ds: seq<Paket>, deps: Dependencies)
    requires line != [] && Trim(line) == line && Split(line, " -> ") == [left, right]
    requires ParsePackageId(left) == Ok(p) && ParseDependencies(Split(right, ",")) == Ok(ds)
    ensures LineEffect(line, deps) == Ok(deps[p := ds])
  {
  }

  /** A written line trims to itself and the arrow splits it into the package and the list. */
  lemma FormatLineSplits(p: Paket, ds: seq<Paket>)
    requires PlainPackage(p)
    requires ds != [] && forall k :: 0 <= k < |ds| ==> PlainPackage(ds[k])
    ensures Trim(FormatLine(p, ds)) == FormatLine(p, ds)
    ensures Split(FormatLine(p, ds), " -> ") == [IdText(p), Join(IdTexts(ds), ",")]
  {
    var ids := IdTexts(ds);
    var left := IdText(p);
    var right := Join(ids, ",");
    var line := FormatLine(p, ds);
    assert line == left + " -> " + right;
    // no id holds a comma, a space or any other white character
    forall k | 0 <= k < |ids| ensures NoChar(ids[k], ',') && NoChar(ids[k], ' ') && IdPlain(ids[k]) {
      IdTextPlain(ds[k]);
    }
    IdTextPlain(p);
    JoinAvoids(ids, ",", ' ');
    // the line has no white character at either end, so trimming keeps it
    var last := ids[|ids| - 1];
    JoinEndsWithLast(ids, ",");
    assert right[|right| - 1] == last[|last| - 1];
    assert line[|line| - 1] == right[|right| - 1];
    assert line[0] == left[0];
    TrimNoEnds(line);
    SplitHeadFree(left, " -> ", right);
  }

  /** The comma-joined ids of plain packages parse back to those packages. */
  lemma DependencyListRoundTrip(ds: seq<Paket>)
    requires ds != [] && forall k :: 0 <= k < |ds| ==> PlainPackage(ds[k])
    ensures ParseDependencies(Split(Join(IdTexts(ds), ","), ",")) == Ok(ds)
  {
    var ids := IdTexts(ds);
    forall k | 0 <= k < |ids| ensures NoChar(ids[k], ',') {
      IdTextPlain(ds[k]);
    }
    SplitJoinChar(ids, ',');
    forall k | 0 <= k < |ids| ensures ParseToken(ids[k]) == Ok(ds[k]) {
      IdTextPlain(ds[k]);
      TrimNoEnds(ids[k]);
      ParsePackageIdRoundTrip(ds[k].ad, ds[k].surum);
    }
    ParseDependenciesAllOk(ids, ds);
  }

  /** An id text is non-empty and has no comma and no white character. */
  predicate IdPlain(s: string) {
    s != [] && NoChar(s, ',') && forall k :: 0 <= k < |s| ==> !IsWhite(s[k])
  }

  lemma IdTextPlain(p: Paket)
    requires PlainName(p.ad) && PlainName(p.surum)
    ensures IdPlain(IdText(p)) && NoChar(IdText(p), ' ')
  {
    var t := IdText(p);
    forall j | 0 <= j < |t| ensures t[j] != ',' && !IsWhite(t[j]) {
      if j < |p.ad| {
        assert t[j] == p.ad[j];
      } else if j > |p.ad| {
        assert t[j] == p.surum[j - |p.ad| - 1];
      }
    }
  }

  lemma ParseDependenciesAllOk(tokens: seq<string>, ds: seq<Paket>)
    requires |tokens| == |ds|
    requires forall k :: 0 <= k < |tokens| ==> ParseToken(tokens[k]) == Ok(ds[k])
    ensures ParseDependencies(tokens) == Ok(ds)
  {
    ParseEachAllOk(tokens, ParseToken, ds);
  }

  // ---------------------------------------------------------------- reading a resource

  /** `process_line` as the step the line reader takes for each line. */
  function LineStep(decode: seq<byte> -> Option<string>): (seq<byte>, Dependencies) -> Result<Dependencies, PaketYoneticisiHatasi> {
    (bytes, deps) => ProcessLineSpec(bytes, decode, deps)
  }

  /**
   * `read_dependencies_from_resource`: a missing resource is an empty map;
   * another acquire error is returned. Otherwise every newline-terminated
   * line is processed as it arrives (so a bad line before a read error wins
   * over it), and at the end of the resource a non-empty unterminated last
   * line is processed too.
   */
  function ReadDependencies(access: Access, chunks: seq<Chunk<byte>>, decode: seq<byte> -> Option<string>)
    : Result<Dependencies, PaketYoneticisiHatasi>
  {
    match access
    case Denied(e) => if e == ResourceNotFound then Ok(map[]) else Err(FromSahne(e))
    case Granted => ReadLinesSpec(chunks, LineStep(decode), e => FromSahne(e), map[])
  }

  /** A missing dependency resource reads as no dependencies at all. */
  lemma MissingResourceIsEmpty(chunks: seq<Chunk<byte>>, decode: seq<byte> -> Option<string>)
    ensures ReadDependencies(Denied(ResourceNotFound), chunks, decode) == Ok(map[])
  {
  }

  method ReadDependenciesFromResource(access: Access, chunks: seq<Chunk<byte>>,
                                      decode: seq<byte> -> Option<string>)
    returns (r: Result<Dependencies, PaketYoneticisiHatasi>)
    ensures r == ReadDependencies(access, chunks, decode)
  {
    if access.Denied? {
      if access.error == ResourceNotFound {
        return Ok(map[]);
      }
      return Err(FromSahne(access.error));
    }
    r := ReadLines(chunks, LineStep(decode), e => FromSahne(e), map[]);
  }

  // ---------------------------------------------------------------- the demonstration cycle

  /** The two packages `get_dependencies_with_cycle` ties together. */
  const DemoC: Paket := Bare("C", "3.0.0")
  const DemoA: Paket := Bare("A", "1.0.0")

  /**
   * `get_dependencies_with_cycle` after a successful read: `C@3.0.0` gets
   * `A@1.0.0` appended to its list, or a list of just that package when it
   * had none. Every other entry stays as it was.
   */
  function AddDemoCycle(deps: Dependencies): (r: Dependencies)
    ensures r.Keys == deps.Keys + {DemoC}
    ensures DemoC in deps ==> r[DemoC] == deps[DemoC] + [DemoA]
    ensures DemoC !in deps ==> r[DemoC] == [DemoA]
    ensures forall p :: p in deps && p != DemoC ==> r[p] == deps[p]
  {
    if DemoC in deps then deps[DemoC := deps[DemoC] + [DemoA]]
    else deps[DemoC := [DemoA]]
  }

  /** A read error is passed on; otherwise the demonstration edge is added. */
  function GetDependenciesWithCycle(read: Result<Dependencies, PaketYoneticisiHatasi>)
    : (r: Result<Dependencies, PaketYoneticisiHatasi>)
    ensures read.Err? ==> r == read
    ensures read.Ok? ==> r.Ok? && r.value == AddDemoCycle(read.value)
  {
    match read
    case Err(e) => Err(e)
    case Ok(deps) => Ok(AddDemoCycle(deps))
  }

  /**
   * The added edge keeps every dependency already there and makes `A@1.0.0`
   * reachable from `C@3.0.0`; so when `A@1.0.0` already reached `C@3.0.0`,
   * each of them now reaches itself through the other.
   */
  lemma {:induction false} AddDemoCycleEdges(deps: Dependencies)
    ensures forall x, y :: Edge(deps, x, y) ==> Edge(AddDemoCycle(deps), x, y)
    ensures Edge(AddDemoCycle(deps), DemoC, DemoA)
    ensures Reachable(deps, DemoA, DemoC) ==> Reachable(AddDemoCycle(deps), DemoA, DemoC)
    ensures Reachable(AddDemoCycle(deps), DemoC, DemoA)
  {
    var r := AddDemoCycle(deps);
    forall x, y | Edge(deps, x, y)
      ensures Edge(r, x, y)
    {
      if x == DemoC {
        assert r[x] == deps[x] + [DemoA];
      }
    }
    assert DemoA in r[DemoC];
    if Reachable(deps, DemoA, DemoC) {
      ReachableMonotone(deps, r, DemoA, DemoC);
    }
    ReachableRefl(r, DemoC);
    ReachableStep(r, DemoC, DemoC, DemoA);
  }

  // ---------------------------------------------------------------- resolution

  /** The message for a root that is not a key of the graph. */
  function RootMissing(root: Paket): string {
    "Kök paket bağımlılık grafında bulunamadı: " + root.ad + "@" + root.surum
  }

  /** What the walk of `resolve_dependencies` keeps true at the top of its loop. */
  ghost predicate WalkState(g: Dependencies, root: Paket, resolved: set<Paket>, toResolve: seq<Paket>) {
    && resolved <= Nodes(g)
    && (forall q :: q in toResolve ==> q in Nodes(g) && Reachable(g, root, q))
    && (forall q :: q in resolved ==> Reachable(g, root, q))
    && (root in resolved || root in toResolve)
    && (forall a, b :: a in resolved && Edge(g, a, b) ==> b in resolved || b in toResolve)
  }

  /** The dependencies the walk pushes for a package: none for a leaf. */
  function Listed(g: Dependencies, p: Paket): (r: seq<Paket>)
    ensures forall q :: q in r <==> Edge(g, p, q)
  {
    if p in g then g[p] else []
  }

  lemma WalkStart(g: Dependencies, root: Paket)
    requires root in g
    ensures WalkState(g, root, {}, [root])
  {
    ReachableRefl(g, root);
  }

  /** Popping a package already resolved keeps the walk's state. */
  lemma WalkSkip(g: Dependencies, root: Paket, resolved: set<Paket>, toResolve: seq<Paket>)
    requires WalkState(g, root, resolved, toResolve)
    requires toResolve != [] && toResolve[|toResolve| - 1] in resolved
    ensures WalkState(g, root, resolved, toResolve[..|toResolve| - 1])
  {
    var front := toResolve[..|toResolve| - 1];
    assert toResolve == front + [toResolve[|toResolve| - 1]];
  }

  /** Resolving a popped package and pushing its dependencies keeps the walk's state. */
  lemma WalkVisit(g: Dependencies, root: Paket, resolved: set<Paket>, toResolve: seq<Paket>)
    requires WalkState(g, root, resolved, toResolve)
    requires toResolve != []
    ensures toResolve[|toResolve| - 1] in Nodes(g)
    ensures WalkState(g, root, resolved + {toResolve[|toResolve| - 1]},
                      toResolve[..|toResolve| - 1] + Listed(g, toResolve[|toResolve| - 1]))
  {
    var p := toResolve[|toResolve| - 1];
    var front := toResolve[..|toResolve| - 1];
    assert toResolve == front + [p];
    forall q | q in Listed(g, p)
      ensures Reachable(g, root, q)
    {
      ReachableStep(g, root, p, q);
    }
  }

  /** At the end of the walk the resolved set is exactly what the root reaches. */
  lemma WalkDone(g: Dependencies, root: Paket, resolved: set<Paket>)
    requires WalkState(g, root, resolved, [])
    ensures forall p :: p in resolved <==> Reachable(g, root, p)
  {
    forall p | Reachable(g, root, p)
      ensures p in resolved
    {
      ClosedHoldsReachable(g, resolved, root, p);
    }
  }

  /** The inner `for dep in deps` loop pushing each dependency in order. */
  method PushAll(toResolve: seq<Paket>, deps: seq<Paket>) returns (r: seq<Paket>)
    ensures r == toResolve + deps
  {
    r := toResolve;
    var k := 0;
    while k < |deps|
      invariant 0 <= k <= |deps|
      invariant r == toResolve + deps[..k]
    {
      r := r + [deps[k]];
      k := k + 1;
    }
    assert deps[..k] == deps;
  }

  /**
   * `resolve_dependencies`: an explicit-stack walk from the root. A root
   * that is not a key is an error; otherwise the result is exactly the set
   * of packages reachable from the root, dependencies that are not keys
   * included as leaves. The set `resolving_stack` is emptied again in every
   * iteration that fills it, so the cycle branch never runs and a cyclic
   * graph is walked like any other: `resolved` stops the revisits.
   */
  method ResolveDependencies(dependencies: Dependencies, root: Paket)
    returns (r: Result<set<Paket>, DependencyResolverError>)
    ensures r.Err? <==> root !in dependencies
    ensures r.Err? ==> r.error == PackageNotFound(RootMissing(root))
    ensures r.Ok? ==> forall p :: p in r.value <==> Reachable(dependencies, root, p)
  {
    if root !in dependencies {
      return Err(PackageNotFound(RootMissing(root)));
    }
    var resolved: set<Paket> := {};
    var toResolve: seq<Paket> := [root];
    var resolvingStack: set<Paket> := {};
    WalkStart(dependencies, root);
    while toResolve != []
      invariant resolvingStack == {}
      invariant WalkState(dependencies, root, resolved, toResolve)
      decreases |Nodes(dependencies) - resolved|, |toResolve|
    {
      var package := toResolve[|toResolve| - 1];
      if package in resolved {
        WalkSkip(dependencies, root, resolved, toResolve);
        toResolve := toResolve[..|toResolve| - 1];
        continue;
      }
      if package in resolvingStack {
        assert false;
        return Err(CycleDetected(IdText(package)));
      }
      WalkVisit(dependencies, root, resolved, toResolve);
      toResolve := toResolve[..|toResolve| - 1];
      resolvingStack := resolvingStack + {package};
      if package in dependencies {
        toResolve := PushAll(toResolve, dependencies[package]);
      }
      resolved := resolved + {package};
      resolvingStack := resolvingStack - {package};
    }
    WalkDone(dependencies, root, resolved);
    return Ok(resolved);
  }

  /** The resolved set holds the root and every dependency of each member. */
  lemma ResolvedSetClosed(dependencies: Dependencies, root: Paket, s: set<Paket>)
    requires forall p :: p in s <==> Reachable(dependencies, root, p)
    ensures root in s
    ensures Closed(dependencies, s)
  {
    ReachableRefl(dependencies, root);
    ReachableClosed(dependencies, root, s);
  }
}
