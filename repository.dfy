/**
 * The package-list cache of src/srcrepository.rs: the list of packages a
 * repository offers is looked up in three tiers, the manager's memory, a
 * local copy and the remote repository, and a list fetched remotely is
 * written back to the local copy. Resource reads, postcard decoding and
 * encoding, and the kernel's answers to the write-back are passed in.
 */
module Repository {
  import opened Wrappers
  import opened Resource
  import opened Errors
  import opened Package

  /** What the kernel and the postcard codec answer while the list is fetched. */
  datatype Env = Env(
    access: string -> Access,
    chunks: string -> seq<Chunk<byte>>,
    decode: seq<byte> -> Result<seq<Paket>, PostcardError>,
    encode: seq<Paket> -> Result<seq<byte>, PostcardError>,
    create: string -> Access,
    write: string -> Access)

  /** The list resource below a base id. */
  function ListId(base: string): (id: string)
    ensures |id| == |base| + |"/paketler.bin"| && id[..|base|] == base
  {
    base + "/paketler.bin"
  }

  /** `read_resource_to_vec`: acquire for reading, drain, and convert the error with `From<SahneError>`. */
  function ReadVec(id: string, env: Env): (r: Result<seq<byte>, PaketYoneticisiHatasi>)
    ensures r.Err? ==> r.error.SahneApiError?
  {
    match ReadToVec(env.access(id), env.chunks(id))
    case Ok(data) => Ok(data)
    case Err(e) => Err(FromSahne(e))
  }

  method ReadResourceToVec(id: string, env: Env) returns (r: Result<seq<byte>, PaketYoneticisiHatasi>)
    ensures r == ReadVec(id, env)
  {
    var read := ReadAll(env.access(id), env.chunks(id));
    match read
    case Ok(data) => r := Ok(data);
    case Err(e) => r := Err(FromSahne(e));
  }

  /** The list the local copy yields, if it can be read and decoded; every failure is only logged. */
  function LocalList(localBase: string, env: Env): Option<seq<Paket>> {
    match ReadVec(ListId(localBase), env)
    case Err(_) => None
    case Ok(data) =>
      match env.decode(data)
      case Err(_) => None
      case Ok(ps) => Some(ps)
  }

  /**
   * The outcome of one `paket_listesini_al`: the result, the cache after
   * it, and the (resource, bytes) writes the kernel accepted.
   */
  datatype Fetch = Fetch(
    result: Result<seq<Paket>, PaketYoneticisiHatasi>,
    cache: Option<seq<Paket>>,
    writes: seq<(string, seq<byte>)>)

  /**
   * The write-back after a remote fetch, in src/srcrepository.rs: a failed
   * encoding is an error, but a refused acquire or write only loses the
   * local copy. The cache is set before any of it.
   */
  function WriteBack(ps: seq<Paket>, localBase: string, env: Env): (f: Fetch)
    ensures f.cache == Some(ps)
    ensures f.result.Ok? <==> env.encode(ps).Ok?
    ensures f.result.Ok? ==> f.result.value == ps
    ensures f.result.Err? ==> f.result.error == SerializationError(env.encode(ps).error)
  {
    var id := ListId(localBase);
    match env.encode(ps)
    case Err(e) => Fetch(Err(SerializationError(e)), Some(ps), [])
    case Ok(data) =>
      if env.create(id).Granted? && env.write(id).Granted? then Fetch(Ok(ps), Some(ps), [(id, data)])
      else Fetch(Ok(ps), Some(ps), [])
  }

  /** The remote tier: its read and decoding failures are errors and leave the cache empty. */
  function Remote(remoteBase: string, env: Env, writeBack: seq<Paket> -> Fetch): Fetch {
    match ReadVec(ListId(remoteBase), env)
    case Err(e) => Fetch(Err(e), None, [])
    case Ok(data) =>
      match env.decode(data)
      case Err(e) => Fetch(Err(DeserializationError(e)), None, [])
      case Ok(ps) => writeBack(ps)
  }

  /** The three tiers in order, the remote one finished by `writeBack`. */
  function Tiers(cache: Option<seq<Paket>>, localBase: string, remoteBase: string, env: Env,
                 writeBack: seq<Paket> -> Fetch): Fetch
  {
    if cache.Some? then Fetch(Ok(cache.value), cache, [])
    else match LocalList(localBase, env)
      case Some(ps) => Fetch(Ok(ps), Some(ps), [])
      case None => Remote(remoteBase, env, writeBack)
  }

  function Fetched(cache: Option<seq<Paket>>, localBase: string, remoteBase: string, env: Env): Fetch {
    Tiers(cache, localBase, remoteBase, env, ps => WriteBack(ps, localBase, env))
  }

  // ---------------------------------------------------------------- properties of the tiers

  /** A filled cache answers alone: no resource is read or written, whatever the kernel would say. */
  lemma CacheHit(ps: seq<Paket>, localBase: string, remoteBase: string, env: Env, other: Env)
    ensures Fetched(Some(ps), localBase, remoteBase, env) == Fetch(Ok(ps), Some(ps), [])
    ensures Fetched(Some(ps), localBase, remoteBase, env) == Fetched(Some(ps), localBase, remoteBase, other)
  {
  }

  /** A readable, decodable local copy fills the cache and is returned; the remote is not consulted. */
  lemma LocalHit(localBase: string, remoteBase: string, env: Env, other: Env)
    requires LocalList(localBase, env).Some?
    requires other.access == env.access && other.chunks == env.chunks && other.decode == env.decode
    ensures var ps := LocalList(localBase, env).value;
            Fetched(None, localBase, remoteBase, env) == Fetch(Ok(ps), Some(ps), [])
    ensures Fetched(None, localBase, remoteBase, env) == Fetched(None, localBase, remoteBase, other)
  {
  }

  /** Whatever goes wrong locally (missing, unreadable, undecodable), the remote tier decides. */
  lemma LocalMissFallsThrough(localBase: string, remoteBase: string, env: Env)
    requires ReadVec(ListId(localBase), env).Err? ||
             env.decode(ReadVec(ListId(localBase), env).value).Err?
    ensures Fetched(None, localBase, remoteBase, env) == Remote(remoteBase, env, ps => WriteBack(ps, localBase, env))
  {
  }

  /** Only a remote failure leaves the cache empty, and then the result is an error. */
  lemma {:induction false} CacheAfterFetch(cache: Option<seq<Paket>>, localBase: string, remoteBase: string, env: Env)
    ensures var f := Fetched(cache, localBase, remoteBase, env);
            f.result.Ok? ==> f.cache == Some(f.result.value)
    ensures var f := Fetched(cache, localBase, remoteBase, env);
            f.cache.None? ==> f.result.Err? && (f.result.error.SahneApiError? || f.result.error.DeserializationError?)
    ensures cache.Some? ==> Fetched(cache, localBase, remoteBase, env).cache == cache
  {
    var f := Fetched(cache, localBase, remoteBase, env);
    if cache.None? && LocalList(localBase, env).None? {
      var remote := ReadVec(ListId(remoteBase), env);
      if remote.Ok? && env.decode(remote.value).Ok? {
        var w := WriteBack(env.decode(remote.value).value, localBase, env);
        assert f == w;
      }
    }
  }

  /** Whatever filled the cache answers the next call, even when the call that filled it failed to encode. */
  lemma {:induction false} SecondFetchFromCache(cache: Option<seq<Paket>>, localBase: string, remoteBase: string, env: Env, later: Env)
    requires Fetched(cache, localBase, remoteBase, env).cache.Some?
    ensures var f := Fetched(cache, localBase, remoteBase, env);
            Fetched(f.cache, localBase, remoteBase, later) == Fetch(Ok(f.cache.value), f.cache, [])
    ensures var f := Fetched(cache, localBase, remoteBase, env);
            f.result.Ok? ==> Fetched(f.cache, localBase, remoteBase, later).result == f.result
  {
    var f := Fetched(cache, localBase, remoteBase, env);
    CacheAfterFetch(cache, localBase, remoteBase, env);
    CacheHit(f.cache.value, localBase, remoteBase, later, env);
  }

  /**
   * A remote fetch whose write-back was accepted leaves, at the local list
   * resource, bytes that decode to the returned list when the codec round-trips.
   */
  lemma WriteBackRestores(localBase: string, remoteBase: string, env: Env)
    requires forall ps :: env.encode(ps).Ok? ==> env.decode(env.encode(ps).value) == Ok(ps)
    ensures var f := Fetched(None, localBase, remoteBase, env);
            forall w :: w in f.writes ==>
              w.0 == ListId(localBase) && f.result.Ok? && env.decode(w.1) == Ok(f.result.value)
  {
  }

  // ---------------------------------------------------------------- search

  /** `Iterator::find` on `ad`: the first package with that name. */
  function Find(ps: seq<Paket>, name: string): (r: Option<Paket>)
    ensures r.None? <==> forall i :: 0 <= i < |ps| ==> ps[i].ad != name
    ensures r.Some? ==> exists i :: 0 <= i < |ps| && ps[i] == r.value && r.value.ad == name &&
                          forall j :: 0 <= j < i ==> ps[j].ad != name
  {
    if ps == [] then None
    else if ps[0].ad == name then Some(ps[0])
    else
      var r := Find(ps[1..], name);
      if r.Some? then
        var i :| 0 <= i < |ps[1..]| && ps[1..][i] == r.value && r.value.ad == name &&
                 forall j :: 0 <= j < i ==> ps[1..][j].ad != name;
        assert ps[i + 1] == r.value;
        assert forall j :: 0 <= j < i + 1 ==> ps[j].ad != name by {
          forall j | 0 <= j < i + 1 ensures ps[j].ad != name {
            if j > 0 { assert ps[j] == ps[1..][j - 1]; }
          }
        }
        r
      else
        assert forall i :: 1 <= i < |ps| ==> ps[i] == ps[1..][i - 1];
        r
  }

  /** `paket_ara` over the list a fetch produced: its error, or the first match. */
  function Searched(f: Fetch, name: string): Result<Option<Paket>, PaketYoneticisiHatasi> {
    match f.result
    case Err(e) => Err(e)
    case Ok(ps) => Ok(Find(ps, name))
  }

  // ---------------------------------------------------------------- updating the local copy

  /**
   * `yerel_depoyu_guncelle` after the list has been obtained: encode it and
   * write it to the local list resource; a refused acquire or write is an error.
   */
  function Update(ps: seq<Paket>, localBase: string, env: Env): (r: (Result<(), PaketYoneticisiHatasi>, seq<(string, seq<byte>)>))
    ensures r.0.Ok? <==> env.encode(ps).Ok? && env.create(ListId(localBase)).Granted? && env.write(ListId(localBase)).Granted?
    ensures r.0.Ok? ==> r.1 == [(ListId(localBase), env.encode(ps).value)]
    ensures r.0.Err? ==> r.1 == []
  {
    var id := ListId(localBase);
    match env.encode(ps)
    case Err(e) => (Err(SerializationError(e)), [])
    case Ok(data) =>
      match env.create(id)
      case Denied(e) => (Err(FromSahne(e)), [])
      case Granted =>
        match env.write(id)
        case Denied(e) => (Err(FromSahne(e)), [])
        case Granted => (Ok(()), [(id, data)])
  }

  /** The repository manager of src/srcrepository.rs. */
  class DepoYoneticisi {
    const depoBaseResourceId: string
    const yerelDepoBaseResourceId: string
    var paketListesiCache: Option<seq<Paket>>

    /** `DepoYoneticisi::yeni`: both bases, and an empty cache. */
    constructor (depoBaseResourceId: string, yerelDepoBaseResourceId: string)
      ensures this.depoBaseResourceId == depoBaseResourceId
      ensures this.yerelDepoBaseResourceId == yerelDepoBaseResourceId
      ensures paketListesiCache == None
    {
      this.depoBaseResourceId := depoBaseResourceId;
      this.yerelDepoBaseResourceId := yerelDepoBaseResourceId;
      paketListesiCache := None;
    }

    /** `paket_listesini_al`. */
    method PaketListesiniAl(env: Env) returns (r: Result<seq<Paket>, PaketYoneticisiHatasi>, writes: seq<(string, seq<byte>)>)
      modifies this
      ensures Fetch(r, paketListesiCache, writes) == Fetched(old(paketListesiCache), yerelDepoBaseResourceId, depoBaseResourceId, env)
    {
      if paketListesiCache.Some? {
        return Ok(paketListesiCache.value), [];
      }
      var localId := ListId(yerelDepoBaseResourceId);
      var local := ReadResourceToVec(localId, env);
      if local.Ok? {
        var decoded := env.decode(local.value);
        if decoded.Ok? {
          paketListesiCache := Some(decoded.value);
          return Ok(decoded.value), [];
        }
      }
      var remote := ReadResourceToVec(ListId(depoBaseResourceId), env);
      if remote.Err? {
        return Err(remote.error), [];
      }
      var decoded := env.decode(remote.value);
      if decoded.Err? {
        return Err(DeserializationError(decoded.error)), [];
      }
      var ps := decoded.value;
      paketListesiCache := Some(ps);
      var encoded := env.encode(ps);
      if encoded.Err? {
        return Err(SerializationError(encoded.error)), [];
      }
      writes := [];
      if env.create(localId).Granted? && env.write(localId).Granted? {
        writes := [(localId, encoded.value)];
      }
      r := Ok(ps);
    }

    /**
     * `yerel_depoyu_guncelle`: obtain the list through the tiers, then write
     * it to the local copy. `create` and `write` are the kernel's answers to
     * the update's own acquire and write, which need not repeat those the
     * write-back of the fetch received.
     */
    method YerelDepoyuGuncelle(env: Env, create: string -> Access, write: string -> Access)
      returns (r: Result<(), PaketYoneticisiHatasi>, writes: seq<(string, seq<byte>)>)
      modifies this
      ensures var f := Fetched(old(paketListesiCache), yerelDepoBaseResourceId, depoBaseResourceId, env);
              paketListesiCache == f.cache &&
              (f.result.Err? ==> r == Err(f.result.error) && writes == f.writes) &&
              (f.result.Ok? ==> var u := Update(f.result.value, yerelDepoBaseResourceId, env.(create := create, write := write));
                                 r == u.0 && writes == f.writes + u.1)
    {
      var list, fetchWrites := PaketListesiniAl(env);
      if list.Err? {
        return Err(list.error), fetchWrites;
      }
      var u := Update(list.value, yerelDepoBaseResourceId, env.(create := create, write := write));
      r := u.0;
      writes := fetchWrites + u.1;
    }

    /** `paket_ara`: the first package named `name` in the list the tiers give. */
    method PaketAra(name: string, env: Env) returns (r: Result<Option<Paket>, PaketYoneticisiHatasi>, writes: seq<(string, seq<byte>)>)
      modifies this
      ensures var f := Fetched(old(paketListesiCache), yerelDepoBaseResourceId, depoBaseResourceId, env);
              paketListesiCache == f.cache && writes == f.writes && r == Searched(f, name)
    {
      var list;
      list, writes := PaketListesiniAl(env);
      if list.Err? {
        return Err(list.error), writes;
      }
      r := Ok(Find(list.value, name));
    }
  }
}
