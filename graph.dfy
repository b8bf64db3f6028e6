/**
 * Dependency graphs as the package manager's resolvers see them: a map from
 * a node to the list of nodes it depends on. A dependency need not be a key
 * of the map; such a node is a leaf.
 */
module Graph {
  /** `b` is listed among the dependencies of `a`. */
  predicate Edge<T(!new)>(g: map<T, seq<T>>, a: T, b: T) {
    a in g && b in g[a]
  }

  /** A walk along dependency edges, possibly of a single node. */
  predicate IsPath<T(!new)>(g: map<T, seq<T>>, p: seq<T>) {
    |p| >= 1 && forall i :: 0 <= i < |p| - 1 ==> Edge(g, p[i], p[i + 1])
  }

  /** `b` can be reached from `a` by following dependencies (zero or more times). */
  ghost predicate Reachable<T(!new)>(g: map<T, seq<T>>, a: T, b: T) {
    exists p :: IsPath(g, p) && p[0] == a && p[|p| - 1] == b
  }

  /** Every node the graph mentions: its keys and everything they list. */
  function Nodes<T(!new)>(g: map<T, seq<T>>): (r: set<T>)
    ensures forall a :: a in g ==> a in r
    ensures forall a, b :: Edge(g, a, b) ==> b in r
  {
    g.Keys + set a, i | a in g && 0 <= i < |g[a]| :: g[a][i]
  }

  /** A set that contains every dependency of each of its members. */
  ghost predicate Closed<T(!new)>(g: map<T, seq<T>>, s: set<T>) {
    forall a, b :: a in s && Edge(g, a, b) ==> b in s
  }

  lemma ReachableRefl<T(!new)>(g: map<T, seq<T>>, a: T)
    ensures Reachable(g, a, a)
  {
    assert IsPath(g, [a]);
  }

  lemma ReachableStep<T(!new)>(g: map<T, seq<T>>, a: T, b: T, c: T)
    requires Reachable(g, a, b)
    requires Edge(g, b, c)
    ensures Reachable(g, a, c)
  {
    var p :| IsPath(g, p) && p[0] == a && p[|p| - 1] == b;
    var q := p + [c];
    assert forall i :: 0 <= i < |q| - 1 ==> Edge(g, q[i], q[i + 1]) by {
      forall i | 0 <= i < |q| - 1
        ensures Edge(g, q[i], q[i + 1])
      {
        if i < |p| - 1 {
          assert q[i] == p[i] && q[i + 1] == p[i + 1];
        }
      }
    }
    assert IsPath(g, q);
  }

  /** A closed set holding the start of a path holds the whole path. */
  lemma {:induction false} ClosedHoldsPath<T(!new)>(g: map<T, seq<T>>, s: set<T>, p: seq<T>)
    requires Closed(g, s)
    requires IsPath(g, p)
    requires p[0] in s
    decreases |p|
    ensures p[|p| - 1] in s
  {
    if |p| > 1 {
      var front := p[..|p| - 1];
      assert IsPath(g, front) by {
        forall i | 0 <= i < |front| - 1
          ensures Edge(g, front[i], front[i + 1])
        {
          assert front[i] == p[i] && front[i + 1] == p[i + 1];
        }
      }
      ClosedHoldsPath(g, s, front);
      assert Edge(g, p[|p| - 2], p[|p| - 1]);
    }
  }

  /** A closed set holding `a` holds everything reachable from `a`. */
  lemma ClosedHoldsReachable<T(!new)>(g: map<T, seq<T>>, s: set<T>, a: T, b: T)
    requires Closed(g, s)
    requires a in s
    requires Reachable(g, a, b)
    ensures b in s
  {
    var p :| IsPath(g, p) && p[0] == a && p[|p| - 1] == b;
    ClosedHoldsPath(g, s, p);
  }

  /** The set reachable from a node is closed under the dependency edges. */
  lemma ReachableClosed<T(!new)>(g: map<T, seq<T>>, a: T, s: set<T>)
    requires forall b :: b in s <==> Reachable(g, a, b)
    ensures Closed(g, s)
  {
    forall b, c | b in s && Edge(g, b, c)
      ensures c in s
    {
      ReachableStep(g, a, b, c);
    }
  }

  /** Adding edges only adds reachability: every edge of `g` is an edge of `h`. */
  lemma {:induction false} ReachableMonotone<T(!new)>(g: map<T, seq<T>>, h: map<T, seq<T>>, a: T, b: T)
    requires forall x, y :: Edge(g, x, y) ==> Edge(h, x, y)
    requires Reachable(g, a, b)
    ensures Reachable(h, a, b)
  {
    var p :| IsPath(g, p) && p[0] == a && p[|p| - 1] == b;
    assert IsPath(h, p);
  }

  lemma ReachablePrepend<T(!new)>(g: map<T, seq<T>>, a: T, b: T, c: T)
    requires Edge(g, a, b)
    requires Reachable(g, b, c)
    ensures Reachable(g, a, c)
  {
    var p :| IsPath(g, p) && p[0] == b && p[|p| - 1] == c;
    var q := [a] + p;
    assert forall i :: 0 <= i < |q| - 1 ==> Edge(g, q[i], q[i + 1]) by {
      forall i | 0 <= i < |q| - 1
        ensures Edge(g, q[i], q[i + 1])
      {
        if i > 0 {
          assert q[i] == p[i - 1] && q[i + 1] == p[i];
        }
      }
    }
    assert IsPath(g, q);
  }

  /** Without edges out of `a`, `a` reaches only itself. */
  lemma ReachableFromLeaf<T(!new)>(g: map<T, seq<T>>, a: T, b: T)
    requires forall c :: !Edge(g, a, c)
    requires Reachable(g, a, b)
    ensures b == a
  {
    ClosedHoldsReachable(g, {a}, a, b);
  }

  /** Marking one more element of a finite universe leaves fewer unmarked: a walk's termination measure. */
  lemma FewerLeft<T>(all: set<T>, before: set<T>, x: T, now: set<T>)
    requires x in all && x !in before
    requires before + {x} <= now
    ensures |all - now| < |all - before|
  {
    var smaller, larger := all - now, all - before;
    assert smaller <= larger - {x};
    assert |larger - {x}| == |larger| - 1;
    assert larger - {x} == smaller + ((larger - {x}) - smaller);
  }
}
