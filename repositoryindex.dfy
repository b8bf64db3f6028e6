/**
 * The package index of src/srcrepositoryindex.rs: a map from package name
 * to the versions added for it, in the order they were added, plus the
 * resource id it is kept under and the outcomes of loading, creating and
 * saving it. postcard's encoding and decoding are parameters.
 */
module RepositoryIndex {
  import opened Wrappers
  import opened Text
  import opened Resource
  import Errors

  datatype IndexError =
    | Sahne64ResourceError(sahne: SahneError)
    | SerializationError(postcard: Errors.PostcardError)
    | DeserializationError(postcard: Errors.PostcardError)
    | InvalidResourceID(detail: string)
    | UnknownError(detail: string)

  type Packages = map<string, seq<string>>

  /** `add_package` on the map: the version goes to the end of the name's list, created empty if absent. */
  function Added(packages: Packages, name: string, version: string): Packages {
    packages[name := (if name in packages then packages[name] else []) + [version]]
  }

  class PackageIndex {
    var packages: Packages

    /** `PackageIndex::new`: no packages. */
    constructor()
      ensures packages == map[]
    {
      packages := map[];
    }

    /** `add_package`. */
    method AddPackage(name: string, version: string)
      modifies this
      ensures packages == Added(old(packages), name, version)
    {
      var versions := if name in packages then packages[name] else [];
      packages := packages[name := versions + [version]];
    }

    /** `has_package`. */
    predicate HasPackage(name: string)
      reads this
    {
      name in packages
    }

    /** `get_versions`. */
    function GetVersions(name: string): Option<seq<string>>
      reads this
    {
      if name in packages then Some(packages[name]) else None
    }
  }

  // ---------------------------------------------------------------- the index as a history of additions

  /** The index built by `new` followed by `add_package` on each (name, version) in turn. */
  function Indexed(adds: seq<(string, string)>): Packages {
    if adds == [] then map[]
    else Added(Indexed(adds[..|adds| - 1]), adds[|adds| - 1].0, adds[|adds| - 1].1)
  }

  /** The versions added under `name`, in the order they were added, duplicates kept. */
  function VersionsAdded(adds: seq<(string, string)>, name: string): seq<string> {
    if adds == [] then []
    else VersionsAdded(adds[..|adds| - 1], name) + (if adds[|adds| - 1].0 == name then [adds[|adds| - 1].1] else [])
  }

  /**
   * A name is in the index exactly when it was added at least once, and its
   * list is every version added under it, in order.
   */
  lemma {:induction false} IndexedSpec(adds: seq<(string, string)>, name: string)
    ensures name in Indexed(adds) <==> exists i :: 0 <= i < |adds| && adds[i].0 == name
    ensures name in Indexed(adds) ==> Indexed(adds)[name] == VersionsAdded(adds, name)
    ensures name !in Indexed(adds) ==> VersionsAdded(adds, name) == []
  {
    if adds != [] {
      var n := |adds| - 1;
      var front := adds[..n];
      IndexedSpec(front, name);
      if exists i :: 0 <= i < n && front[i].0 == name {
        var i :| 0 <= i < n && front[i].0 == name;
        assert adds[i].0 == name;
      }
      if exists i :: 0 <= i < |adds| && adds[i].0 == name {
        var i :| 0 <= i < |adds| && adds[i].0 == name;
        if i < n {
          assert front[i].0 == name;
        }
      }
    }
  }

  /** Adding leaves every other name's list as it was. */
  lemma AddedKeepsOthers(packages: Packages, name: string, version: string, other: string)
    requires other != name
    ensures other in Added(packages, name, version) <==> other in packages
    ensures other in packages ==> Added(packages, name, version)[other] == packages[other]
  {
  }

  /** After `add_package(n, v)`, `has_package(n)` holds and `get_versions(n)` ends with `v`. */
  lemma AddedThenFound(packages: Packages, name: string, version: string)
    ensures name in Added(packages, name, version)
    ensures var vs := Added(packages, name, version)[name];
            |vs| >= 1 && vs[|vs| - 1] == version
            && vs[..|vs| - 1] == (if name in packages then packages[name] else [])
  {
  }

  // ---------------------------------------------------------------- resource id, load, create, save

  /** `get_index_resource_id`. */
  function IndexResourceId(repo: string): string {
    repo + "/index.bin"
  }

  /** The index id keeps the repository id in front and `/index.bin` at the end, so distinct repositories get distinct ids. */
  lemma IndexResourceIdSpec(repo: string, other: string)
    ensures StartsWith(IndexResourceId(repo), repo)
    ensures EndsWith(IndexResourceId(repo), "/index.bin")
    ensures IndexResourceId(repo) == IndexResourceId(other) ==> repo == other
  {
    var id := IndexResourceId(repo);
    assert id[..|repo|] == repo;
    assert id[|id| - 10..] == "/index.bin";
    if IndexResourceId(repo) == IndexResourceId(other) {
      assert |repo| == |other|;
      assert repo == id[..|repo|] == IndexResourceId(other)[..|other|] == other;
    }
  }

  /**
   * `load_from_resource`: a failure of the read helper becomes
   * `Sahne64ResourceError`, a failure of postcard `DeserializationError`.
   */
  function Load(access: Access, chunks: seq<Chunk<byte>>, decode: seq<byte> -> Result<Packages, Errors.PostcardError>)
    : Result<Packages, IndexError>
  {
    match ReadToVec(access, chunks)
    case Err(e) => Err(Sahne64ResourceError(e))
    case Ok(bytes) =>
      match decode(bytes)
      case Err(e) => Err(DeserializationError(e))
      case Ok(index) => Ok(index)
  }

  /** `get_or_create_index` given the load outcome: a missing resource gives a new empty index. */
  function GetOrCreate(loaded: Result<Packages, IndexError>): Result<Packages, IndexError> {
    match loaded
    case Ok(index) => Ok(index)
    case Err(Sahne64ResourceError(ResourceNotFound)) => Ok(map[])
    case Err(e) => Err(e)
  }

  /**
   * `get_or_create_index` succeeds with the loaded index, or with an empty
   * one exactly when the resource was not found; every other error is passed
   * on unchanged.
   */
  lemma GetOrCreateSpec(loaded: Result<Packages, IndexError>)
    ensures GetOrCreate(loaded).Err? <==> loaded.Err? && loaded.error != Sahne64ResourceError(ResourceNotFound)
    ensures GetOrCreate(loaded).Err? ==> GetOrCreate(loaded) == loaded
    ensures loaded.Ok? ==> GetOrCreate(loaded) == loaded
    ensures loaded == Err(Sahne64ResourceError(ResourceNotFound)) ==> GetOrCreate(loaded) == Ok(map[])
  {
  }

  /** An index resource that cannot be acquired because it does not exist yields a new empty index. */
  lemma MissingIndexIsEmpty(chunks: seq<Chunk<byte>>, decode: seq<byte> -> Result<Packages, Errors.PostcardError>)
    ensures GetOrCreate(Load(Denied(ResourceNotFound), chunks, decode)) == Ok(map[])
  {
  }

  /** A decode failure is never turned into an empty index. */
  lemma CorruptIndexFails(access: Access, chunks: seq<Chunk<byte>>, decode: seq<byte> -> Result<Packages, Errors.PostcardError>)
    requires ReadToVec(access, chunks).Ok? && decode(ReadToVec(access, chunks).value).Err?
    ensures GetOrCreate(Load(access, chunks, decode)) == Err(DeserializationError(decode(ReadToVec(access, chunks).value).error))
  {
  }

  /**
   * `save_to_resource`: encode, acquire with create and truncate, then the
   * write loop; a zero-length write is reported as `InvalidOperation`.
   */
  function Save(encoded: Result<seq<byte>, Errors.PostcardError>, acquire: Access, calls: nat -> WriteResult)
    : Result<(), IndexError>
  {
    match encoded
    case Err(e) => Err(SerializationError(e))
    case Ok(bytes) =>
      match acquire
      case Denied(e) => Err(Sahne64ResourceError(e))
      case Granted =>
        match WriteAllSpec(|bytes|, calls)
        case AllWritten => Ok(())
        case Stalled(_) => Err(Sahne64ResourceError(InvalidOperation))
        case WriteError(e, _) => Err(Sahne64ResourceError(e))
  }

  /** Saving succeeds exactly when encoding, acquiring and every write succeed. */
  lemma SaveSpec(encoded: Result<seq<byte>, Errors.PostcardError>, acquire: Access, calls: nat -> WriteResult)
    ensures Save(encoded, acquire, calls).Ok? <==>
              encoded.Ok? && acquire.Granted? && WriteAllSpec(|encoded.value|, calls).AllWritten?
    ensures encoded.Ok? && |encoded.value| > 0 && acquire.Granted? && calls(0) == Wrote(0) ==>
              Save(encoded, acquire, calls) == Err(Sahne64ResourceError(InvalidOperation))
  {
    if encoded.Ok? && |encoded.value| > 0 && calls(0) == Wrote(0) {
      WriteZeroStalls(|encoded.value|, calls);
    }
  }
}
