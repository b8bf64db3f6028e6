/**
 * The `for dep_str in dependencies_str.split(',')` loop of
 * src/srcconflict.rs: each token parsed in order, the first failure returned
 * at once.
 */
module Tokens {
  import opened Wrappers

  /**
   * Tokens from index `i` on, each parsed in order; the first token that
   * does not parse decides the error.
   */
  function ParseEachFrom<T(==), E(==)>(tokens: seq<string>, parse: string -> Result<T, E>, i: nat): (r: Result<seq<T>, E>)
    requires i <= |tokens|
    decreases |tokens| - i
    ensures r.Ok? ==> |r.value| == |tokens| - i
    ensures r.Ok? ==> forall k :: i <= k < |tokens| ==> parse(tokens[k]) == Ok(r.value[k - i])
    ensures r.Err? ==> exists k :: FirstFailure(tokens, parse, i, k, r.error)
  {
    if i == |tokens| then Ok([])
    else match parse(tokens[i])
      case Err(e) =>
        assert FirstFailure(tokens, parse, i, i, e);
        Err(e)
      case Ok(p) =>
        match ParseEachFrom(tokens, parse, i + 1)
        case Err(e) =>
          var k :| FirstFailure(tokens, parse, i + 1, k, e);
          assert FirstFailure(tokens, parse, i, k, e);
          Err(e)
        case Ok(ps) => Ok([p] + ps)
  }

  /** Token `k` is the first from `i` on that does not parse, and fails with `e`. */
  predicate FirstFailure<T(==), E(==)>(tokens: seq<string>, parse: string -> Result<T, E>, i: nat, k: nat, e: E) {
    i <= k < |tokens| && parse(tokens[k]) == Err(e) &&
    forall j :: i <= j < k ==> parse(tokens[j]).Ok?
  }

  /** The loop itself: parse each token in order, stop at the first that fails. */
  method ParseEach<T(==), E(==)>(tokens: seq<string>, parse: string -> Result<T, E>) returns (r: Result<seq<T>, E>)
    ensures r == ParseEachFrom(tokens, parse, 0)
  {
    var list: seq<T> := [];
    var i := 0;
    PrependNothing(ParseEachFrom(tokens, parse, 0));
    while i < |tokens|
      invariant 0 <= i <= |tokens|
      invariant ParseEachFrom(tokens, parse, 0) == Prepend(list, ParseEachFrom(tokens, parse, i))
    {
      var item := parse(tokens[i]);
      if item.Err? {
        return Err(item.error);
      }
      PrependTwice(list, [item.value], ParseEachFrom(tokens, parse, i + 1));
      list := list + [item.value];
      i := i + 1;
    }
    assert list + [] == list;
    return Ok(list);
  }

  function Prepend<T, E>(front: seq<T>, r: Result<seq<T>, E>): Result<seq<T>, E> {
    match r
    case Ok(v) => Ok(front + v)
    case Err(e) => Err(e)
  }

  lemma PrependNothing<T, E>(r: Result<seq<T>, E>)
    ensures Prepend([], r) == r
  {
    if r.Ok? {
      assert [] + r.value == r.value;
    }
  }

  lemma PrependTwice<T, E>(a: seq<T>, b: seq<T>, r: Result<seq<T>, E>)
    ensures Prepend(a, Prepend(b, r)) == Prepend(a + b, r)
  {
    if r.Ok? {
      assert a + (b + r.value) == (a + b) + r.value;
    }
  }

  /** When every token parses, the loop collects exactly the parsed values. */
  lemma {:induction false} ParseEachAllOk<T, E>(tokens: seq<string>, parse: string -> Result<T, E>, ds: seq<T>)
    requires |tokens| == |ds|
    requires forall k :: 0 <= k < |tokens| ==> parse(tokens[k]) == Ok(ds[k])
    ensures ParseEachFrom(tokens, parse, 0) == Ok(ds)
  {
    var i := |tokens|;
    assert ds[i..] == [];
    while i > 0
      invariant 0 <= i <= |tokens|
      invariant ParseEachFrom(tokens, parse, i) == Ok(ds[i..])
    {
      i := i - 1;
      assert ds[i..] == [ds[i]] + ds[i + 1..];
    }
  }

  /** The loop fails exactly when some token fails, and then with the first failure's error. */
  lemma ParseEachError<T, E>(tokens: seq<string>, parse: string -> Result<T, E>)
    ensures ParseEachFrom(tokens, parse, 0).Err? <==> exists k :: 0 <= k < |tokens| && parse(tokens[k]).Err?
    ensures ParseEachFrom(tokens, parse, 0).Err? ==>
              exists k :: 0 <= k < |tokens| && parse(tokens[k]) == Err(ParseEachFrom(tokens, parse, 0).error)
                          && forall j :: 0 <= j < k ==> parse(tokens[j]).Ok?
  {
    var r := ParseEachFrom(tokens, parse, 0);
    if r.Err? {
      var k :| FirstFailure(tokens, parse, 0, k, r.error);
    }
  }
}
