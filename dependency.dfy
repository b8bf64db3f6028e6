/**
 * The name-based resolver `BagimlilikYoneticisi::bagimliliklari_coz` of
 * src/srcdependency.rs: packages are looked up by name, the walk uses an
 * explicit stack and a visited set, and the visit order is reversed at the
 * end. The result lists the start package last; it is not a
 * dependency-before-dependent order (S -> [A, B] with A -> [B] yields
 * [A, B, S]).
 */
module Dependency {
  import opened Wrappers
  import opened Errors
  import opened Package
  import opened Graph

  /** `paket_haritasi`: name to package; of several packages with one name the last wins. */
  function NameMap(ps: seq<Paket>): map<string, Paket> {
    if ps == [] then map[]
    else NameMap(ps[..|ps| - 1])[ps[|ps| - 1].ad := ps[|ps| - 1]]
  }

  /** A name is known iff some package has it, and it maps to the last such package. */
  lemma NameMapSpec(ps: seq<Paket>, n: string)
    ensures n in NameMap(ps) <==> exists i :: 0 <= i < |ps| && ps[i].ad == n
    ensures n in NameMap(ps) ==>
              exists i :: 0 <= i < |ps| && NameMap(ps)[n] == ps[i] && ps[i].ad == n
                          && forall j :: i < j < |ps| ==> ps[j].ad != n
  {
    NameMapKnown(ps, n);
    NameMapLastWins(ps, n);
  }

  lemma {:induction false} NameMapKnown(ps: seq<Paket>, n: string)
    ensures n in NameMap(ps) <==> exists i :: 0 <= i < |ps| && ps[i].ad == n
  {
    if ps != [] {
      var front := ps[..|ps| - 1];
      NameMapKnown(front, n);
      if exists i :: 0 <= i < |ps| && ps[i].ad == n {
        var i :| 0 <= i < |ps| && ps[i].ad == n;
        if ps[|ps| - 1].ad != n {
          assert front[i] == ps[i];
        }
      }
      if n in NameMap(front) {
        var i :| 0 <= i < |front| && front[i].ad == n;
        assert ps[i] == front[i];
      }
    }
  }

  lemma {:induction false} NameMapLastWins(ps: seq<Paket>, n: string)
    ensures n in NameMap(ps) ==>
              exists i :: 0 <= i < |ps| && NameMap(ps)[n] == ps[i] && ps[i].ad == n
                          && forall j :: i < j < |ps| ==> ps[j].ad != n
  {
    if ps != [] && n in NameMap(ps) {
      var last := |ps| - 1;
      var front := ps[..last];
      if ps[last].ad != n {
        NameMapLastWins(front, n);
        var i :| 0 <= i < |front| && NameMap(front)[n] == front[i] && front[i].ad == n
                 && forall j :: i < j < |front| ==> front[j].ad != n;
        assert ps[i] == front[i];
      }
    }
  }

  /** The dependency graph over names that the walk follows. */
  function NameGraph(ps: seq<Paket>): (g: map<string, seq<string>>)
    ensures g.Keys == NameMap(ps).Keys
    ensures forall n :: n in g ==> g[n] == NameMap(ps)[n].bagimliliklar
  {
    map n | n in NameMap(ps) :: NameMap(ps)[n].bagimliliklar
  }

  /** An unknown name listed as a dependency of a package the start reaches. */
  ghost predicate UnknownDependency(ps: seq<Paket>, start: string, d: string) {
    d !in NameMap(ps) && exists n :: Reachable(NameGraph(ps), start, n) && Edge(NameGraph(ps), n, d)
  }

  predicate NoDuplicates(s: seq<string>) {
    forall i, j :: 0 <= i < j < |s| ==> s[i] != s[j]
  }

  /** `Vec::reverse`. */
  function Reversed(s: seq<string>): (r: seq<string>)
    ensures |r| == |s|
    ensures forall i :: 0 <= i < |s| ==> r[i] == s[|s| - 1 - i]
  {
    if s == [] then [] else [s[|s| - 1]] + Reversed(s[..|s| - 1])
  }

  lemma ReversedKeeps(s: seq<string>)
    ensures forall n :: n in Reversed(s) <==> n in s
    ensures NoDuplicates(s) ==> NoDuplicates(Reversed(s))
  {
    forall n | n in s
      ensures n in Reversed(s)
    {
      var i :| 0 <= i < |s| && s[i] == n;
      assert Reversed(s)[|s| - 1 - i] == n;
    }
  }

  /**
   * The walk's state at the top of its loop (`open` empty) and while the
   * dependencies of one popped package are pushed (`open` holds it):
   * everything stacked or visited is reachable from the start, every
   * finished package is known and has its dependencies known and visited
   * or stacked, and the output lists the finished packages once each,
   * the start first.
   */
  ghost predicate Walk(g: map<string, seq<string>>, start: string, visited: set<string>, stack: seq<string>,
                       output: seq<string>, open: set<string>) {
    && visited <= g.Keys + {start}
    && (forall q :: q in stack ==> q in g.Keys + {start} && Reachable(g, start, q))
    && (forall q :: q in visited ==> Reachable(g, start, q))
    && (start in visited || start in stack)
    && (forall a, b :: a in visited && a !in open && Edge(g, a, b) ==> b in g && (b in visited || b in stack))
    && (forall q :: q in visited && q !in open ==> q in g)
    && (forall n :: n in output <==> n in visited && n !in open)
    && NoDuplicates(output)
    && (output != [] ==> output[0] == start)
    && (visited == {} ==> stack == [start])
  }

  lemma WalkStart(g: map<string, seq<string>>, start: string)
    ensures Walk(g, start, {}, [start], [], {})
  {
    ReachableRefl(g, start);
  }

  /** Popping an already visited name keeps the state. */
  lemma WalkSkip(g: map<string, seq<string>>, start: string, visited: set<string>, stack: seq<string>,
                 output: seq<string>)
    requires Walk(g, start, visited, stack, output, {})
    requires stack != [] && stack[|stack| - 1] in visited
    ensures Walk(g, start, visited, stack[..|stack| - 1], output, {})
  {
    assert stack == stack[..|stack| - 1] + [stack[|stack| - 1]];
  }

  /** Popping a new name marks it visited and opens it. */
  lemma WalkOpen(g: map<string, seq<string>>, start: string, visited: set<string>, stack: seq<string>,
                 output: seq<string>)
    requires Walk(g, start, visited, stack, output, {})
    requires stack != [] && stack[|stack| - 1] !in visited
    ensures var name := stack[|stack| - 1];
            && Walk(g, start, visited + {name}, stack[..|stack| - 1], output, {name})
            && Reachable(g, start, name)
            && (name in g || name == start)
            && (output == [] ==> name == start)
  {
    var name := stack[|stack| - 1];
    var front := stack[..|stack| - 1];
    assert stack == front + [name];
  }

  /** Pushing a known dependency of the open name keeps the state. */
  lemma WalkPush(g: map<string, seq<string>>, start: string, visited: set<string>, stack: seq<string>,
                 output: seq<string>, name: string, dep: string)
    requires Walk(g, start, visited, stack, output, {name})
    requires name in visited
    requires Reachable(g, start, name) && Edge(g, name, dep) && dep in g
    ensures Walk(g, start, visited, stack + [dep], output, {name})
  {
    ReachableStep(g, start, name, dep);
  }

  /** Once every dependency of the open name is handled, it is finished and output. */
  lemma WalkClose(g: map<string, seq<string>>, start: string, visited: set<string>, stack: seq<string>,
                  output: seq<string>, name: string)
    requires Walk(g, start, visited, stack, output, {name})
    requires name in visited && name in g
    requires forall b :: Edge(g, name, b) ==> b in g && (b in visited || b in stack)
    requires output == [] ==> name == start
    ensures Walk(g, start, visited, stack, output + [name], {})
  {
    assert name !in output;
    var out := output + [name];
    forall i, j | 0 <= i < j < |out|
      ensures out[i] != out[j]
    {
      if j < |output| {
        assert out[i] == output[i] && out[j] == output[j];
      } else {
        assert out[i] == output[i];
      }
    }
  }

  /** At the end every name the start reaches is output, and all of their dependencies are known. */
  lemma WalkEnd(g: map<string, seq<string>>, start: string, visited: set<string>, output: seq<string>)
    requires Walk(g, start, visited, [], output, {})
    ensures forall n :: n in output <==> Reachable(g, start, n)
    ensures forall n, d :: Reachable(g, start, n) && Edge(g, n, d) ==> d in g
    ensures output != [] && output[0] == start
  {
    assert Closed(g, visited);
    forall n | Reachable(g, start, n)
      ensures n in visited
    {
      ClosedHoldsReachable(g, visited, start, n);
    }
  }

  /**
   * The `for bagimlilik_adi in &paket.bagimliliklar` loop: an unknown name
   * stops it and is returned; a known one not yet visited is pushed.
   */
  method PushDependencies(deps: seq<string>, paketHaritasi: map<string, Paket>, ghost g: map<string, seq<string>>,
                          ghost start: string, visited: set<string>, stack: seq<string>, ghost output: seq<string>,
                          ghost name: string)
    returns (missing: Option<string>, stack': seq<string>)
    requires paketHaritasi.Keys == g.Keys
    requires name in visited && name in g && deps == g[name] && Reachable(g, start, name)
    requires Walk(g, start, visited, stack, output, {name})
    ensures missing.Some? ==> Edge(g, name, missing.value) && missing.value !in g
    ensures missing.None? ==> Walk(g, start, visited, stack', output, {name})
    ensures missing.None? ==> forall b :: Edge(g, name, b) ==> b in g && (b in visited || b in stack')
  {
    stack' := stack;
    var k := 0;
    while k < |deps|
      invariant 0 <= k <= |deps|
      invariant Walk(g, start, visited, stack', output, {name})
      invariant forall j :: 0 <= j < k ==> deps[j] in g && (deps[j] in visited || deps[j] in stack')
    {
      var dep := deps[k];
      if dep !in paketHaritasi {
        return Some(dep), stack';
      }
      if dep !in visited {
        WalkPush(g, start, visited, stack', output, name, dep);
        stack' := stack' + [dep];
      }
      k := k + 1;
    }
    return None, stack';
  }

  /**
   * `bagimliliklari_coz`. An unknown start package, and only it, gives
   * PaketBulunamadi; a reachable package listing an unknown name gives
   * BagimlilikBulunamadi with that name; otherwise the result holds every
   * reachable name once, the start last.
   */
  method ResolveOrder(paketler: seq<Paket>, start: string) returns (r: Result<seq<string>, PaketYoneticisiHatasi>)
    ensures r.Err? && r.error.PaketBulunamadi? <==> start !in NameMap(paketler)
    ensures start !in NameMap(paketler) ==> r == Err(PaketBulunamadi(start))
    ensures r.Err? && !r.error.PaketBulunamadi? ==>
              r.error.BagimlilikBulunamadi? && UnknownDependency(paketler, start, r.error.detail)
    ensures r.Ok? <==> start in NameMap(paketler) && forall d :: !UnknownDependency(paketler, start, d)
    ensures r.Ok? ==> NoDuplicates(r.value)
    ensures r.Ok? ==> forall n :: n in r.value <==> Reachable(NameGraph(paketler), start, n)
    ensures r.Ok? ==> r.value != [] && r.value[|r.value| - 1] == start
  {
    var paketHaritasi := NameMap(paketler);
    ghost var g := NameGraph(paketler);
    var output: seq<string> := [];
    var visited: set<string> := {};
    var stack: seq<string> := [start];
    WalkStart(g, start);
    while stack != []
      invariant Walk(g, start, visited, stack, output, {})
      decreases |(g.Keys + {start}) - visited|, |stack|
    {
      var name := stack[|stack| - 1];
      if name in visited {
        WalkSkip(g, start, visited, stack, output);
        stack := stack[..|stack| - 1];
        continue;
      }
      WalkOpen(g, start, visited, stack, output);
      FewerLeft(g.Keys + {start}, visited, name, visited + {name});
      stack := stack[..|stack| - 1];
      visited := visited + {name};
      if name in paketHaritasi {
        var missing;
        ghost var pending := stack;
        missing, stack := PushDependencies(paketHaritasi[name].bagimliliklar, paketHaritasi, g, start,
                                           visited, stack, output, name);
        if missing.Some? {
          WalkMissing(paketler, start, visited, pending, output, name, missing.value);
          return Err(BagimlilikBulunamadi(missing.value));
        }
        WalkClose(g, start, visited, stack, output, name);
        output := output + [name];
      } else {
        return Err(PaketBulunamadi(name));
      }
    }
    WalkResolved(paketler, start, visited, output);
    r := Ok(Reversed(output));
  }

  /** A missing dependency of an opened package is an unknown dependency of a known start. */
  lemma WalkMissing(ps: seq<Paket>, start: string, visited: set<string>, stack: seq<string>,
                    output: seq<string>, name: string, missing: string)
    requires Walk(NameGraph(ps), start, visited, stack, output, {name})
    requires name in NameMap(ps) && Reachable(NameGraph(ps), start, name)
    requires output == [] ==> name == start
    requires Edge(NameGraph(ps), name, missing) && missing !in NameGraph(ps)
    ensures start in NameMap(ps) && UnknownDependency(ps, start, missing)
  {
  }

  /** A walk that ran out of names resolves: the reversed output is the answer. */
  lemma WalkResolved(ps: seq<Paket>, start: string, visited: set<string>, output: seq<string>)
    requires Walk(NameGraph(ps), start, visited, [], output, {})
    ensures start in NameMap(ps) && forall d :: !UnknownDependency(ps, start, d)
    ensures NoDuplicates(Reversed(output))
    ensures forall n :: n in Reversed(output) <==> Reachable(NameGraph(ps), start, n)
    ensures Reversed(output) != [] && Reversed(output)[|output| - 1] == start
  {
    WalkEnd(NameGraph(ps), start, visited, output);
    ReversedKeeps(output);
  }
}
