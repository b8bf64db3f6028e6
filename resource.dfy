/**
 * The Sahne64 `resource` calls as the package manager sees them. Every call
 * into the kernel is an outcome handed in from outside: whether `acquire`
 * granted a handle, what each `read` returned, what each `write` reported.
 * The two loops every file repeats -- read until a zero-length chunk, and
 * write until every byte is accepted -- are modelled once here.
 */
module Resource {
  import opened Wrappers

  newtype byte = x: int | 0 <= x < 256

  const NEWLINE: byte := 10

  /** The kernel's error type; the variants the package manager names. */
  datatype SahneError =
    | ResourceNotFound
    | PermissionDenied
    | InvalidHandle
    | InvalidOperation
    | ResourceBusy
    | ResourceAlreadyExists
    | ResourceNotEmpty
    | NamingError
    | NotSupported
    | UnknownSystemCall
    | NoMessage

  /** The derived `Debug` rendering of a `SahneError`: its variant name. */
  function DebugName(e: SahneError): string {
    match e
    case ResourceNotFound => "ResourceNotFound"
    case PermissionDenied => "PermissionDenied"
    case InvalidHandle => "InvalidHandle"
    case InvalidOperation => "InvalidOperation"
    case ResourceBusy => "ResourceBusy"
    case ResourceAlreadyExists => "ResourceAlreadyExists"
    case ResourceNotEmpty => "ResourceNotEmpty"
    case NamingError => "NamingError"
    case NotSupported => "NotSupported"
    case UnknownSystemCall => "UnknownSystemCall"
    case NoMessage => "NoMessage"
  }

  lemma DebugNameInjective(a: SahneError, b: SahneError)
    requires DebugName(a) == DebugName(b)
    ensures a == b
  {
  }

  /** Outcome of `resource::acquire`. */
  datatype Access = Granted | Denied(error: SahneError)

  /** Outcome of one `resource::read`: the bytes read (none at the end) or an error. */
  datatype Chunk<T> = Data(items: seq<T>) | ReadFailed(error: SahneError)

  /** Outcome of one `resource::write`: the count the kernel reports, or an error. */
  datatype WriteResult = Wrote(count: nat) | WriteFailed(error: SahneError)

  /** The bytes a single write call leaves in the resource: the first `count` of them, never more than offered. */
  function WrittenPrefix(data: seq<byte>, count: nat): (w: seq<byte>)
    ensures |w| <= |data| && w == data[..|w|]
    ensures count >= |data| ==> w == data
  {
    data[..if count <= |data| then count else |data|]
  }

  /** How a write-everything loop ended, with the number of bytes that reached the resource. */
  datatype WriteOutcome =
    | AllWritten
    | Stalled(written: nat)
    | WriteError(error: SahneError, written: nat)

  /** Bytes that reached the resource when the loop over `len` bytes ended with `o`. */
  function Delivered(o: WriteOutcome, len: nat): nat {
    match o
    case AllWritten => len
    case Stalled(w) => w
    case WriteError(_, w) => w
  }

  // ---------------------------------------------------------------- read loop

  /**
   * What reading until a zero-length chunk collects: the concatenated
   * chunks, or the first error. A chunk sequence that runs out also ends
   * the resource.
   */
  function Drain<T>(chunks: seq<Chunk<T>>): Result<seq<T>, SahneError> {
    if chunks == [] then Ok([])
    else match chunks[0]
      case ReadFailed(e) => Err(e)
      case Data(d) =>
        if d == [] then Ok([])
        else match Drain(chunks[1..])
          case Ok(rest) => Ok(d + rest)
          case Err(e) => Err(e)
  }

  /** `read_resource_to_vec`: acquire for reading, then drain. */
  function ReadToVec<T>(access: Access, chunks: seq<Chunk<T>>): Result<seq<T>, SahneError> {
    match access
    case Denied(e) => Err(e)
    case Granted => Drain(chunks)
  }

  /** A chunk sequence with no error and no empty chunk drains to the concatenation of all of it. */
  lemma {:induction false} DrainAllData<T>(chunks: seq<Chunk<T>>)
    requires forall k :: 0 <= k < |chunks| ==> chunks[k].Data? && chunks[k].items != []
    ensures Drain(chunks) == Ok(Flatten(chunks))
  {
    if chunks != [] {
      DrainAllData(chunks[1..]);
    }
  }

  function Flatten<T>(chunks: seq<Chunk<T>>): seq<T> {
    if chunks == [] then []
    else (if chunks[0].Data? then chunks[0].items else []) + Flatten(chunks[1..])
  }

  /** Whatever happens later, an error before any end-of-resource chunk is the result. */
  lemma {:induction false} DrainErrorFirst<T>(before: seq<Chunk<T>>, e: SahneError, after: seq<Chunk<T>>)
    requires forall k :: 0 <= k < |before| ==> before[k].Data? && before[k].items != []
    ensures Drain(before + [ReadFailed(e)] + after) == Err(e)
  {
    if before != [] {
      assert (before + [ReadFailed(e)] + after)[1..] == before[1..] + [ReadFailed(e)] + after;
      DrainErrorFirst(before[1..], e, after);
    }
  }

  /** `r` with `prefix` in front of its data. */
  function Prefixed<T>(prefix: seq<T>, r: Result<seq<T>, SahneError>): Result<seq<T>, SahneError> {
    match r
    case Ok(rest) => Ok(prefix + rest)
    case Err(e) => Err(e)
  }

  lemma PrefixedAssoc<T>(a: seq<T>, b: seq<T>, r: Result<seq<T>, SahneError>)
    ensures Prefixed(a, Prefixed(b, r)) == Prefixed(a + b, r)
  {
    if r.Ok? {
      assert a + (b + r.value) == (a + b) + r.value;
    }
  }

  lemma PrefixedEmpty<T>(r: Result<seq<T>, SahneError>)
    ensures Prefixed([], r) == r
  {
    if r.Ok? {
      assert [] + r.value == r.value;
    }
  }

  /** The loop itself. */
  method ReadAll<T>(access: Access, chunks: seq<Chunk<T>>) returns (r: Result<seq<T>, SahneError>)
    ensures r == ReadToVec(access, chunks)
  {
    if access.Denied? {
      return Err(access.error);
    }
    var buffer: seq<T> := [];
    var i := 0;
    assert chunks[0..] == chunks;
    PrefixedEmpty(Drain(chunks));
    while i < |chunks|
      invariant 0 <= i <= |chunks|
      invariant Drain(chunks) == Prefixed(buffer, Drain(chunks[i..]))
    {
      assert chunks[i..][1..] == chunks[i + 1..];
      assert chunks[i..][0] == chunks[i];
      match chunks[i]
      case ReadFailed(e) =>
        return Err(e);
      case Data(d) =>
        if d == [] {
          assert buffer + [] == buffer;
          return Ok(buffer);
        }
        assert Drain(chunks[i..]) == Prefixed(d, Drain(chunks[i + 1..]));
        PrefixedAssoc(buffer, d, Drain(chunks[i + 1..]));
        buffer := buffer + d;
      i := i + 1;
    }
    assert chunks[i..] == [];
    assert buffer + [] == buffer;
    return Ok(buffer);
  }

  // ---------------------------------------------------------------- write loop

  /**
   * The write-everything loop after `written` of `len` bytes, when call
   * number `call` returns `calls(call)`. A report larger than what is left is
   * read as "the rest was written". A report of zero stops the loop.
   */
  function WriteFrom(len: nat, written: nat, calls: nat -> WriteResult, call: nat): (o: WriteOutcome)
    requires written <= len
    decreases len - written
    ensures o.Stalled? ==> written <= o.written < len
    ensures o.WriteError? ==> written <= o.written < len
  {
    if written == len then AllWritten
    else match calls(call)
      case WriteFailed(e) => WriteError(e, written)
      case Wrote(n) =>
        if n == 0 then Stalled(written)
        else WriteFrom(len, if n >= len - written then len else written + n, calls, call + 1)
  }

  function WriteAllSpec(len: nat, calls: nat -> WriteResult): WriteOutcome {
    WriteFrom(len, 0, calls, 0)
  }

  /** A kernel that always accepts at least one byte lets the loop finish. */
  lemma {:induction false} WriteCompletes(len: nat, written: nat, calls: nat -> WriteResult, call: nat)
    requires written <= len
    requires forall k :: call <= k ==> calls(k).Wrote? && calls(k).count > 0
    decreases len - written
    ensures WriteFrom(len, written, calls, call) == AllWritten
  {
    if written < len {
      var n := calls(call).count;
      WriteCompletes(len, if n >= len - written then len else written + n, calls, call + 1);
    }
  }

  /** A zero-byte report on the first call with bytes left stops the loop with nothing written. */
  lemma WriteZeroStalls(len: nat, calls: nat -> WriteResult)
    requires len > 0 && calls(0) == Wrote(0)
    ensures WriteAllSpec(len, calls) == Stalled(0)
  {
  }

  /** An empty buffer needs no call at all. */
  lemma WriteNothing(calls: nat -> WriteResult)
    ensures WriteAllSpec(0, calls) == AllWritten
  {
  }

  /** `while written < len { match write(..) .. }` as the sources write it. */
  method WriteAll(len: nat, calls: nat -> WriteResult) returns (o: WriteOutcome)
    ensures o == WriteAllSpec(len, calls)
    ensures o.AllWritten? || Delivered(o, len) < len
  {
    var written: nat := 0;
    var call: nat := 0;
    while written < len
      invariant written <= len
      invariant WriteAllSpec(len, calls) == WriteFrom(len, written, calls, call)
      decreases len - written
    {
      match calls(call)
      case WriteFailed(e) =>
        return WriteError(e, written);
      case Wrote(n) =>
        if n == 0 {
          return Stalled(written);
        }
        written := if n >= len - written then len else written + n;
        call := call + 1;
    }
    return AllWritten;
  }
}
