/**
 * The parts of Rust's `str` API the package manager relies on, written as
 * functions over `seq<char>`: `trim`, `split` (by a pattern or a character),
 * `lines`, `split_whitespace`, `replace`, `rfind`, `starts_with`,
 * `ends_with` and the ASCII part of `to_lowercase`.
 */
module Text {
  import opened Wrappers

  /** Unicode White_Space, the class `trim` and `split_whitespace` strip. */
  predicate IsWhite(c: char) {
    ('\U{9}' <= c <= '\U{D}') || c == ' ' || c == '\U{85}' || c == '\U{A0}' || c == '\U{1680}'
    || ('\U{2000}' <= c <= '\U{200A}') || c == '\U{2028}' || c == '\U{2029}' || c == '\U{202F}'
    || c == '\U{205F}' || c == '\U{3000}'
  }

  predicate AllWhite(s: string) {
    forall i :: 0 <= i < |s| ==> IsWhite(s[i])
  }

  predicate StartsWith(s: string, p: string) {
    |p| <= |s| && s[..|p|] == p
  }

  predicate EndsWith(s: string, p: string) {
    |p| <= |s| && s[|s| - |p|..] == p
  }

  // ---------------------------------------------------------------- trim

  /** `trim_start`: the suffix of `s` after its leading white space. */
  function TrimStart(s: string): (r: string)
    ensures |r| <= |s|
    ensures r == [] || !IsWhite(r[0])
    ensures forall i :: 0 <= i < |s| - |r| ==> IsWhite(s[i])
  {
    if s != [] && IsWhite(s[0]) then TrimStart(s[1..]) else s
  }

  /** `trim_end`: the prefix of `s` before its trailing white space. */
  function TrimEnd(s: string): (r: string)
    ensures |r| <= |s|
    ensures r == [] || !IsWhite(r[|r| - 1])
    ensures forall i :: |r| <= i < |s| ==> IsWhite(s[i])
  {
    if s != [] && IsWhite(s[|s| - 1]) then TrimEnd(s[..|s| - 1]) else s
  }

  /** What `trim_start` keeps is the tail of its input. */
  lemma {:induction false} TrimStartIsSuffix(s: string)
    ensures TrimStart(s) == s[|s| - |TrimStart(s)|..]
  {
    if s != [] && IsWhite(s[0]) {
      TrimStartIsSuffix(s[1..]);
    }
  }

  /** What `trim_end` keeps is the head of its input. */
  lemma {:induction false} TrimEndIsPrefix(s: string)
    ensures TrimEnd(s) == s[..|TrimEnd(s)|]
  {
    if s != [] && IsWhite(s[|s| - 1]) {
      TrimEndIsPrefix(s[..|s| - 1]);
    }
  }

  /** `trim`: both ends stripped. */
  function Trim(s: string): string {
    TrimEnd(TrimStart(s))
  }

  /** `trim` removes white space at both ends and nothing else. */
  lemma TrimSpec(s: string)
    ensures exists i, j :: 0 <= i <= j <= |s| && Trim(s) == s[i..j]
                           && AllWhite(s[..i]) && AllWhite(s[j..])
    ensures Trim(s) == [] || (!IsWhite(Trim(s)[0]) && !IsWhite(Trim(s)[|Trim(s)| - 1]))
  {
    var t := TrimStart(s);
    var i := |s| - |t|;
    var j := i + |TrimEnd(t)|;
    TrimSlices(s, t, i, j);
    TrimEndIsPrefix(t);
    assert Trim(s) != [] ==> Trim(s)[0] == t[0];
  }

  lemma TrimSlices(s: string, t: string, i: nat, j: nat)
    requires t == TrimStart(s) && i == |s| - |t| && j == i + |TrimEnd(t)|
    ensures i <= j <= |s| && Trim(s) == s[i..j] && AllWhite(s[..i]) && AllWhite(s[j..])
  {
    TrimSliceValue(s, t, i, j);
    LeadingWhite(s, t, i);
    TrailingWhite(t, j - i);
    TrimStartIsSuffix(s);
    assert s[j..] == t[j - i..];
  }

  lemma TrimSliceValue(s: string, t: string, i: nat, j: nat)
    requires t == TrimStart(s) && i == |s| - |t| && j == i + |TrimEnd(t)|
    ensures i <= j <= |s| && Trim(s) == s[i..j]
  {
    TrimStartIsSuffix(s);
    TrimEndIsPrefix(t);
    assert s[i..][..j - i] == s[i..j];
  }

  lemma LeadingWhite(s: string, t: string, i: nat)
    requires t == TrimStart(s) && i == |s| - |t|
    ensures AllWhite(s[..i])
  {
    forall k | 0 <= k < i
      ensures IsWhite(s[..i][k])
    {
      assert s[..i][k] == s[k];
    }
  }

  lemma TrailingWhite(t: string, n: nat)
    requires n == |TrimEnd(t)|
    ensures AllWhite(t[n..])
  {
    forall k | 0 <= k < |t| - n
      ensures IsWhite(t[n..][k])
    {
      assert t[n..][k] == t[n + k];
    }
  }

  /** A trimmed string is empty exactly when the input is all white space. */
  lemma TrimEmptyIff(s: string)
    ensures Trim(s) == [] <==> AllWhite(s)
  {
    var t := TrimStart(s);
    TrimStartIsSuffix(s);
    assert t != [] ==> t[0] == s[|s| - |t|];
  }

  /** A string with no white space at either end is its own trim. */
  lemma TrimNoEnds(s: string)
    requires s == [] || (!IsWhite(s[0]) && !IsWhite(s[|s| - 1]))
    ensures Trim(s) == s
  {
  }

  /** Trimming twice is trimming once. */
  lemma TrimIdempotent(s: string)
    ensures Trim(Trim(s)) == Trim(s)
  {
    TrimSpec(s);
    TrimNoEnds(Trim(s));
  }

  // ---------------------------------------------------------------- search

  predicate OccursAt(s: string, pat: string, i: nat) {
    i + |pat| <= |s| && s[i..i + |pat|] == pat
  }

  /** The leftmost occurrence of `pat` in `s` at or after `from`. */
  function FindFrom(s: string, pat: string, from: nat): (r: Option<nat>)
    decreases |s| - from
    ensures r.Some? ==> from <= r.value && OccursAt(s, pat, r.value)
    ensures r.Some? ==> forall j :: from <= j < r.value ==> !OccursAt(s, pat, j)
    ensures r.None? ==> forall j :: from <= j ==> !OccursAt(s, pat, j)
  {
    if from + |pat| > |s| then None
    else if OccursAt(s, pat, from) then Some(from)
    else FindFrom(s, pat, from + 1)
  }

  /** `find`: the leftmost occurrence of `pat`. */
  function Find(s: string, pat: string): Option<nat> {
    FindFrom(s, pat, 0)
  }

  /** `rfind(c)`: the index of the last `c` in `s`. */
  function RFind(s: string, c: char): (r: Option<nat>)
    ensures r.Some? ==> r.value < |s| && s[r.value] == c
    ensures r.Some? ==> forall k :: r.value < k < |s| ==> s[k] != c
    ensures r.None? ==> forall k :: 0 <= k < |s| ==> s[k] != c
  {
    RFindBefore(s, c, |s|)
  }

  /** The last `c` among the first `n` characters. */
  function RFindBefore(s: string, c: char, n: nat): (r: Option<nat>)
    requires n <= |s|
    ensures r.Some? ==> r.value < n && s[r.value] == c
    ensures r.Some? ==> forall k :: r.value < k < n ==> s[k] != c
    ensures r.None? ==> forall k :: 0 <= k < n ==> s[k] != c
  {
    if n == 0 then None
    else if s[n - 1] == c then Some(n - 1)
    else RFindBefore(s, c, n - 1)
  }

  /** Number of occurrences of the character `c`. */
  function Count(s: string, c: char): nat {
    if s == [] then 0 else (if s[0] == c then 1 else 0) + Count(s[1..], c)
  }

  lemma CountAppend(a: string, b: string, c: char)
    ensures Count(a + b, c) == Count(a, c) + Count(b, c)
  {
    if a == [] {
      assert a + b == b;
    } else {
      assert (a + b)[0] == a[0] && (a + b)[1..] == a[1..] + b;
      CountAppend(a[1..], b, c);
    }
  }

  lemma CountZero(s: string, c: char)
    ensures Count(s, c) == 0 <==> forall k :: 0 <= k < |s| ==> s[k] != c
  {
    if s != [] {
      CountZero(s[1..], c);
      assert forall k :: 1 <= k < |s| ==> s[k] == s[1..][k - 1];
    }
  }

  // ---------------------------------------------------------------- split

  /** `parts` joined with `sep` between neighbours (Rust's `join`). */
  function Join(parts: seq<string>, sep: string): string {
    if parts == [] then []
    else if |parts| == 1 then parts[0]
    else parts[0] + sep + Join(parts[1..], sep)
  }

  /**
   * `s.split(sep)`: cut at each leftmost non-overlapping occurrence of `sep`.
   * There is always at least one part.
   */
  function Split(s: string, sep: string): (r: seq<string>)
    requires |sep| > 0
    decreases |s|
    ensures |r| >= 1
  {
    match Find(s, sep)
    case None => [s]
    case Some(i) => [s[..i]] + Split(s[i + |sep|..], sep)
  }

  /** Joining the parts with the separator gives back the input. */
  lemma {:induction false} JoinSplit(s: string, sep: string)
    requires |sep| > 0
    decreases |s|
    ensures Join(Split(s, sep), sep) == s
  {
    match Find(s, sep)
    case None =>
    case Some(i) =>
      var rest := s[i + |sep|..];
      var tail := Split(rest, sep);
      JoinSplit(rest, sep);
      var parts := [s[..i]] + tail;
      assert Split(s, sep) == parts;
      assert |parts| >= 2 && parts[0] == s[..i] && parts[1..] == tail;
      assert Join(parts, sep) == s[..i] + sep + rest;
      assert s[i..i + |sep|] == sep;
      assert s == s[..i] + s[i..i + |sep|] + rest;
  }

  /** No part contains the separator. */
  lemma {:induction false} SplitPartsFree(s: string, sep: string)
    requires |sep| > 0
    decreases |s|
    ensures forall k :: 0 <= k < |Split(s, sep)| ==> Find(Split(s, sep)[k], sep).None?
  {
    match Find(s, sep)
    case None =>
    case Some(i) =>
      var rest := s[i + |sep|..];
      SplitPartsFree(rest, sep);
      var head := s[..i];
      forall j | 0 <= j ensures !OccursAt(head, sep, j) {
        if OccursAt(head, sep, j) {
          assert head[j..j + |sep|] == s[j..j + |sep|];
          assert OccursAt(s, sep, j);
        }
      }
      assert Find(head, sep).None?;
  }

  /** Splitting by a single character gives one more part than its occurrences. */
  lemma {:induction false} SplitCharCount(s: string, c: char)
    decreases |s|
    ensures |Split(s, [c])| == Count(s, c) + 1
  {
    match Find(s, [c])
    case None =>
      forall k: nat | k < |s| ensures s[k] != c {
        assert s[k..k + 1] == [s[k]];
        assert !OccursAt(s, [c], k);
      }
      CountZero(s, c);
    case Some(i) =>
      var rest := s[i + 1..];
      SplitCharCount(rest, c);
      forall k: nat | k < i ensures s[..i][k] != c {
        assert s[k..k + 1] == [s[k]];
        assert !OccursAt(s, [c], k);
      }
      CountZero(s[..i], c);
      assert s == s[..i] + ([c] + rest);
      CountAppend(s[..i], [c] + rest, c);
      assert ([c] + rest)[1..] == rest;
  }

  /** Splitting `a + [c] + b` on `c`, with `c` absent from `a` and `b`, gives exactly `[a, b]`. */
  lemma SplitCharTwo(a: string, b: string, c: char)
    requires forall k :: 0 <= k < |a| ==> a[k] != c
    requires forall k :: 0 <= k < |b| ==> b[k] != c
    ensures Split(a + [c] + b, [c]) == [a, b]
  {
    var s := a + [c] + b;
    FindCharFirst(a, [c] + b, c);
    assert s == a + ([c] + b);
    assert s[..|a|] == a;
    assert s[|a| + 1..] == b;
    FindCharNone(b, c);
  }

  /** The first `c` in `a + rest` is at `|a|` when `a` has none and `rest` starts with one. */
  lemma FindCharFirst(a: string, rest: string, c: char)
    requires forall k :: 0 <= k < |a| ==> a[k] != c
    requires rest != [] && rest[0] == c
    ensures Find(a + rest, [c]) == Some(|a|)
  {
    var s := a + rest;
    assert s[|a|..|a| + 1] == [c];
    assert OccursAt(s, [c], |a|);
    forall j | 0 <= j < |a| ensures !OccursAt(s, [c], j) {
      assert s[j..j + 1] == [a[j]];
    }
  }

  lemma FindCharNone(b: string, c: char)
    requires forall k :: 0 <= k < |b| ==> b[k] != c
    ensures Find(b, [c]) == None
  {
    forall j: nat ensures !OccursAt(b, [c], j) {
      if j < |b| {
        assert b[j..j + 1] == [b[j]];
      }
    }
  }

  /** `s` has no `c` in it. */
  predicate NoChar(s: string, c: char) {
    forall k :: 0 <= k < |s| ==> s[k] != c
  }

  /** A character found in no part and not in the separator is not in the join. */
  lemma {:induction false} JoinAvoids(parts: seq<string>, sep: string, c: char)
    requires forall k :: 0 <= k < |parts| ==> NoChar(parts[k], c)
    requires NoChar(sep, c)
    ensures NoChar(Join(parts, sep), c)
  {
    if |parts| > 1 {
      JoinAvoids(parts[1..], sep, c);
      var rest := Join(parts[1..], sep);
      var s := parts[0] + sep + rest;
      forall k | 0 <= k < |s| ensures s[k] != c {
        if k < |parts[0]| {
          assert s[k] == parts[0][k];
        } else if k < |parts[0]| + |sep| {
          assert s[k] == sep[k - |parts[0]|];
        } else {
          assert s[k] == rest[k - |parts[0]| - |sep|];
        }
      }
    }
  }

  /** The join of non-empty parts ends with the last part. */
  lemma {:induction false} JoinEndsWithLast(parts: seq<string>, sep: string)
    requires parts != []
    ensures EndsWith(Join(parts, sep), parts[|parts| - 1])
  {
    if |parts| > 1 {
      JoinEndsWithLast(parts[1..], sep);
      var rest := Join(parts[1..], sep);
      var last := parts[|parts| - 1];
      assert parts[1..][|parts| - 2] == last;
      var s := parts[0] + sep + rest;
      assert s[|s| - |last|..] == rest[|rest| - |last|..];
    }
  }

  /**
   * Splitting `a + sep + b` on `sep` gives exactly `[a, b]` when neither
   * side contains the separator's first character.
   */
  lemma SplitHeadFree(a: string, sep: string, b: string)
    requires |sep| > 0
    requires forall k :: 0 <= k < |a| ==> a[k] != sep[0]
    requires forall k :: 0 <= k < |b| ==> b[k] != sep[0]
    ensures Split(a + sep + b, sep) == [a, b]
  {
    var s := a + sep + b;
    assert s[|a|..|a| + |sep|] == sep;
    assert OccursAt(s, sep, |a|);
    forall j | 0 <= j < |a| ensures !OccursAt(s, sep, j) {
      assert s[j] == a[j];
    }
    assert Find(s, sep) == Some(|a|);
    assert s[..|a|] == a;
    assert s[|a| + |sep|..] == b;
    forall j: nat ensures !OccursAt(b, sep, j) {
      if j + |sep| <= |b| {
        assert b[j..j + |sep|][0] == b[j] != sep[0];
      }
    }
    assert Find(b, sep) == None;
  }

  /** Splitting a non-empty join on its one-character separator gives the parts back. */
  lemma {:induction false} SplitJoinChar(parts: seq<string>, c: char)
    requires parts != []
    requires forall k, j :: 0 <= k < |parts| && 0 <= j < |parts[k]| ==> parts[k][j] != c
    ensures Split(Join(parts, [c]), [c]) == parts
  {
    if |parts| == 1 {
      FindCharNone(parts[0], c);
    } else {
      var rest := Join(parts[1..], [c]);
      SplitJoinChar(parts[1..], c);
      var s := parts[0] + [c] + rest;
      assert Join(parts, [c]) == s;
      FindCharFirst(parts[0], [c] + rest, c);
      assert s == parts[0] + ([c] + rest);
      assert s[..|parts[0]|] == parts[0];
      assert s[|parts[0]| + 1..] == rest;
      assert Split(s, [c]) == [parts[0]] + parts[1..];
    }
  }

  // ---------------------------------------------------------------- lines

  /** Drop one trailing carriage return. */
  function StripCr(s: string): string {
    if s != [] && s[|s| - 1] == '\r' then s[..|s| - 1] else s
  }

  /**
   * `lines()`: split at each '\n', drop a '\r' just before it, and yield no
   * empty line after a final '\n'.
   */
  function Lines(s: string): seq<string>
    decreases |s|
  {
    if s == [] then []
    else match Find(s, "\n")
      case None => [s]
      case Some(i) => [StripCr(s[..i])] + Lines(s[i + 1..])
  }

  /** Each line followed by '\n', concatenated; the format every list resource uses. */
  function Unlines(xs: seq<string>): string {
    if xs == [] then [] else xs[0] + "\n" + Unlines(xs[1..])
  }

  predicate NoNewline(x: string) {
    forall k :: 0 <= k < |x| ==> x[k] != '\n'
  }

  predicate PlainLine(x: string) {
    NoNewline(x) && (x == [] || x[|x| - 1] != '\r')
  }

  lemma UnlinesAppend(xs: seq<string>, x: string)
    ensures Unlines(xs + [x]) == Unlines(xs) + x + "\n"
  {
    if xs != [] {
      assert (xs + [x])[1..] == xs[1..] + [x];
      UnlinesAppend(xs[1..], x);
    }
  }

  lemma FindNewlineAfter(x: string, rest: string)
    requires NoNewline(x)
    ensures Find(x + "\n" + rest, "\n") == Some(|x|)
  {
    var s := x + "\n" + rest;
    assert OccursAt(s, "\n", |x|);
    forall j | 0 <= j < |x| ensures !OccursAt(s, "\n", j) {
      assert s[j] == x[j];
    }
  }

  /** `lines()` undoes `Unlines` when no element holds a line break. */
  lemma {:induction false} LinesUnlines(xs: seq<string>)
    requires forall k :: 0 <= k < |xs| ==> PlainLine(xs[k])
    ensures Lines(Unlines(xs)) == xs
  {
    if xs != [] {
      var s := Unlines(xs);
      FindNewlineAfter(xs[0], Unlines(xs[1..]));
      assert s[..|xs[0]|] == xs[0];
      assert s[|xs[0]| + 1..] == Unlines(xs[1..]);
      LinesUnlines(xs[1..]);
    }
  }

  /** Appending a plain line to newline-terminated text adds exactly that line at the end. */
  lemma {:induction false} LinesAppendLine(s: string, x: string)
    requires s == [] || s[|s| - 1] == '\n'
    requires PlainLine(x)
    decreases |s|
    ensures Lines(s + x + "\n") == Lines(s) + [x]
  {
    if s == [] {
      var t := s + x + "\n";
      assert t == x + "\n" + [];
      FindNewlineAfter(x, []);
      LinesCons(t, |x|);
      assert t[..|x|] == x;
      assert t[|x| + 1..] == [];
    } else {
      assert OccursAt(s, "\n", |s| - 1);
      var i := Find(s, "\n").value;
      var rest := s[i + 1..];
      assert rest == [] || rest[|rest| - 1] == '\n';
      LinesAppendLine(rest, x);
      LinesAppendCons(s, x, i);
    }
  }

  /** One step of `LinesAppendLine`: the first line of `s` stays first. */
  lemma LinesAppendCons(s: string, x: string, i: nat)
    requires Find(s, "\n") == Some(i)
    requires Lines(s[i + 1..] + x + "\n") == Lines(s[i + 1..]) + [x]
    ensures Lines(s + x + "\n") == Lines(s) + [x]
  {
    var rest := s[i + 1..];
    var u := x + "\n";
    var t := s + x + "\n";
    FirstLineKept(s, u, i);
    assert t == s + u;
    assert rest + x + "\n" == rest + u;
    LinesCons(t, i);
    LinesCons(s, i);
    var first := StripCr(s[..i]);
    assert [first] + (Lines(rest) + [x]) == ([first] + Lines(rest)) + [x];
  }

  /** Text appended after the first line break leaves the first line and extends the rest. */
  lemma FirstLineKept(s: string, u: string, i: nat)
    requires Find(s, "\n") == Some(i)
    ensures Find(s + u, "\n") == Some(i) && i < |s|
    ensures (s + u)[..i] == s[..i] && (s + u)[i + 1..] == s[i + 1..] + u
  {
    FindExtend(s, u, "\n");
    assert (s + u)[i + 1..] == s[i + 1..] + u;
  }

  lemma LinesCons(s: string, i: nat)
    requires Find(s, "\n") == Some(i)
    ensures i < |s| && Lines(s) == [StripCr(s[..i])] + Lines(s[i + 1..])
  {
  }

  /** Appending text after the first occurrence does not move it. */
  lemma FindExtend(s: string, suffix: string, pat: string)
    requires Find(s, pat).Some?
    ensures Find(s + suffix, pat) == Find(s, pat)
  {
    var i := Find(s, pat).value;
    var t := s + suffix;
    assert t[i..i + |pat|] == s[i..i + |pat|];
    forall j: nat | j < i ensures !OccursAt(t, pat, j) {
      assert !OccursAt(s, pat, j);
      if j + |pat| <= |s| {
        assert t[j..j + |pat|] == s[j..j + |pat|];
      }
    }
    FindFirst(t, pat, i);
  }

  /** An occurrence with none before it is what `Find` returns. */
  lemma FindFirst(s: string, pat: string, i: nat)
    requires OccursAt(s, pat, i)
    requires forall j: nat :: j < i ==> !OccursAt(s, pat, j)
    ensures Find(s, pat) == Some(i)
  {

  }

  // ---------------------------------------------------------------- whitespace tokens

  /** Length of the leading run of non-white characters. */
  function WordLen(s: string): (n: nat)
    ensures n <= |s|
    ensures forall k :: 0 <= k < n ==> !IsWhite(s[k])
    ensures n == |s| || IsWhite(s[n])
  {
    if s == [] || IsWhite(s[0]) then 0 else 1 + WordLen(s[1..])
  }

  /** `split_whitespace()`: the maximal runs of non-white characters, in order. */
  function SplitWhitespace(s: string): (r: seq<string>)
    decreases |s|
    ensures forall k :: 0 <= k < |r| ==> r[k] != [] && !ContainsWhite(r[k])
  {
    var t := TrimStart(s);
    if t == [] then []
    else
      var n := WordLen(t);
      [t[..n]] + SplitWhitespace(t[n..])
  }

  predicate ContainsWhite(s: string) {
    exists k :: 0 <= k < |s| && IsWhite(s[k])
  }

  /** A line has no tokens exactly when it is all white space. */
  lemma SplitWhitespaceEmptyIff(s: string)
    ensures SplitWhitespace(s) == [] <==> AllWhite(s)
  {
    var t := TrimStart(s);
    TrimStartIsSuffix(s);
    assert t != [] ==> t[0] == s[|s| - |t|];
  }

  lemma TrimStartLeading(w: string, s: string)
    requires AllWhite(w)
    ensures TrimStart(w + s) == TrimStart(s)
  {
    if w != [] {
      assert IsWhite((w + s)[0]);
      calc {
        TrimStart(w + s);
        TrimStart((w + s)[1..]);
        { assert (w + s)[1..] == w[1..] + s; }
        TrimStart(w[1..] + s);
        { TrimStartLeading(w[1..], s); }
        TrimStart(s);
      }
    } else {
      assert w + s == s;
    }
  }

  lemma SplitWhitespaceLeading(w: string, s: string)
    requires AllWhite(w)
    ensures SplitWhitespace(w + s) == SplitWhitespace(s)
  {
    TrimStartLeading(w, s);
  }

  lemma WordLenPrefix(w: string, rest: string)
    requires !ContainsWhite(w)
    requires rest == [] || IsWhite(rest[0])
    ensures WordLen(w + rest) == |w|
  {
    if w != [] {
      assert (w + rest)[1..] == w[1..] + rest;
      assert !IsWhite(w[0]);
      WordLenPrefix(w[1..], rest);
    }
  }

  /** Splitting single-space-joined words gives the words back. */
  lemma {:induction false} SplitWhitespaceJoin(ws: seq<string>)
    requires forall k :: 0 <= k < |ws| ==> ws[k] != [] && !ContainsWhite(ws[k])
    ensures SplitWhitespace(Join(ws, " ")) == ws
  {
    if ws == [] {
    } else if |ws| == 1 {
      var w := ws[0];
      assert !IsWhite(w[0]);
      assert TrimStart(w) == w;
      WordLenPrefix(w, []);
      assert w == w + [];
      assert w[|w|..] == [];
    } else {
      var w := ws[0];
      var rest := Join(ws[1..], " ");
      var s := Join(ws, " ");
      assert s == w + (" " + rest);
      assert !IsWhite(w[0]);
      assert TrimStart(s) == s;
      WordLenPrefix(w, " " + rest);
      assert s[..|w|] == w;
      assert s[|w|..] == " " + rest;
      SplitWhitespaceLeading(" ", rest);
      SplitWhitespaceJoin(ws[1..]);
    }
  }

  // ---------------------------------------------------------------- replace, lowercase

  /** `replace(pat, rep)`: every leftmost non-overlapping occurrence replaced. */
  function Replace(s: string, pat: string, rep: string): string
    requires |pat| > 0
    decreases |s|
  {
    if StartsWith(s, pat) then rep + Replace(s[|pat|..], pat, rep)
    else if s == [] then []
    else [s[0]] + Replace(s[1..], pat, rep)
  }

  /**
   * `to_lowercase` as far as it can matter for comparing against ASCII
   * names: ASCII capitals and the KELVIN SIGN (whose lower case is 'k') are
   * folded; every other character is kept (its real lower case is never an
   * ASCII letter, so the comparison outcome is the same).
   */
  function LowerChar(c: char): char {
    if 'A' <= c <= 'Z' then (c as int + 32) as char
    else if c == '\U{212A}' then 'k'
    else c
  }

  function ToLower(s: string): (r: string)
    ensures |r| == |s| && forall k :: 0 <= k < |s| ==> r[k] == LowerChar(s[k])
  {
    if s == [] then [] else [LowerChar(s[0])] + ToLower(s[1..])
  }
}
