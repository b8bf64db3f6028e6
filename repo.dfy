/**
 * The variant of the repository manager in src/srcrepo.rs: the same three
 * tiers as src/srcrepository.rs, but a refused acquire of the local copy
 * during the write-back is an error, and an encoding failure goes through
 * `From<PostcardError>`.
 */
module Repo {
  import opened Wrappers
  import opened Resource
  import opened Errors
  import opened Package
  import opened Repository

  /**
   * The write-back of src/srcrepo.rs: the cache is already set; a failed
   * encoding or a refused acquire is an error, a refused write only logged.
   */
  function WriteBackRepo(ps: seq<Paket>, localBase: string, env: Env): (f: Fetch)
    ensures f.cache == Some(ps)
    ensures f.result.Ok? <==> env.encode(ps).Ok? && env.create(ListId(localBase)).Granted?
    ensures f.result.Ok? ==> f.result.value == ps
    ensures env.encode(ps).Err? ==> f.result == Err(FromPostcard(env.encode(ps).error))
    ensures env.encode(ps).Ok? && env.create(ListId(localBase)).Denied? ==>
              f.result == Err(FromSahne(env.create(ListId(localBase)).error))
  {
    var id := ListId(localBase);
    match env.encode(ps)
    case Err(e) => Fetch(Err(FromPostcard(e)), Some(ps), [])
    case Ok(data) =>
      match env.create(id)
      case Denied(e) => Fetch(Err(FromSahne(e)), Some(ps), [])
      case Granted =>
        if env.write(id).Granted? then Fetch(Ok(ps), Some(ps), [(id, data)])
        else Fetch(Ok(ps), Some(ps), [])
  }

  function FetchedRepo(cache: Option<seq<Paket>>, localBase: string, remoteBase: string, env: Env): Fetch {
    Tiers(cache, localBase, remoteBase, env, ps => WriteBackRepo(ps, localBase, env))
  }

  /**
   * The two variants agree except when the remote list was fetched and the
   * local acquire was refused: then src/srcrepository.rs returns the list
   * and src/srcrepo.rs an error, with the same cache.
   */
  lemma {:induction false} VariantsAgree(cache: Option<seq<Paket>>, localBase: string, remoteBase: string, env: Env)
    requires forall ps :: env.encode(ps).Err? ==> env.encode(ps).error.Serialize?
    ensures var a := Fetched(cache, localBase, remoteBase, env);
            var b := FetchedRepo(cache, localBase, remoteBase, env);
            a.cache == b.cache && a.writes == b.writes &&
            (a.result != b.result <==> a.result.Ok? && b.result.Err? && b.result.error.SahneApiError?)
  {
    if cache.None? && LocalList(localBase, env).None? {
      var remote := ReadVec(ListId(remoteBase), env);
      if remote.Ok? && env.decode(remote.value).Ok? {
        var ps := env.decode(remote.value).value;
        assert Fetched(cache, localBase, remoteBase, env) == WriteBack(ps, localBase, env);
        assert FetchedRepo(cache, localBase, remoteBase, env) == WriteBackRepo(ps, localBase, env);
      }
    }
  }

  /** After any successful fetch the cache holds the list returned; a remote failure leaves it empty. */
  lemma {:induction false} CacheAfterFetchRepo(cache: Option<seq<Paket>>, localBase: string, remoteBase: string, env: Env)
    ensures var f := FetchedRepo(cache, localBase, remoteBase, env);
            f.result.Ok? ==> f.cache == Some(f.result.value)
    ensures var f := FetchedRepo(cache, localBase, remoteBase, env);
            f.cache.None? ==> f.result.Err? && (f.result.error.SahneApiError? || f.result.error.DeserializationError?)
    ensures cache.Some? ==> FetchedRepo(cache, localBase, remoteBase, env) == Fetch(Ok(cache.value), cache, [])
  {
    var f := FetchedRepo(cache, localBase, remoteBase, env);
    if cache.None? && LocalList(localBase, env).None? {
      var remote := ReadVec(ListId(remoteBase), env);
      if remote.Ok? && env.decode(remote.value).Ok? {
        assert f == WriteBackRepo(env.decode(remote.value).value, localBase, env);
      }
    }
  }

  /** The repository manager of src/srcrepo.rs. */
  class DepoYoneticisi {
    const depoBaseResourceId: string
    const yerelDepoBaseResourceId: string
    var paketListesiCache: Option<seq<Paket>>

    /** `DepoYoneticisi::yeni`: both bases, and an empty cache. */
    constructor (depoBaseResourceId: string, yerelDepoBaseResourceId: string)
      ensures this.depoBaseResourceId == depoBaseResourceId
      ensures this.yerelDepoBaseResourceId == yerelDepoBaseResourceId
      ensures paketListesiCache == None
    {
      this.depoBaseResourceId := depoBaseResourceId;
      this.yerelDepoBaseResourceId := yerelDepoBaseResourceId;
      paketListesiCache := None;
    }

    /** `paket_listesini_al`. */
    method PaketListesiniAl(env: Env) returns (r: Result<seq<Paket>, PaketYoneticisiHatasi>, writes: seq<(string, seq<byte>)>)
      modifies this
      ensures Fetch(r, paketListesiCache, writes) == FetchedRepo(old(paketListesiCache), yerelDepoBaseResourceId, depoBaseResourceId, env)
    {
      if paketListesiCache.Some? {
        return Ok(paketListesiCache.value), [];
      }
      var localId := ListId(yerelDepoBaseResourceId);
      var local := ReadResourceToVec(localId, env);
      if local.Ok? {
        var decoded := env.decode(local.value);
        if decoded.Ok? {
          paketListesiCache := Some(decoded.value);
          return Ok(decoded.value), [];
        }
      }
      var remote := ReadResourceToVec(ListId(depoBaseResourceId), env);
      if remote.Err? {
        return Err(remote.error), [];
      }
      var decoded := env.decode(remote.value);
      if decoded.Err? {
        return Err(DeserializationError(decoded.error)), [];
      }
      var ps := decoded.value;
      paketListesiCache := Some(ps);
      var encoded := env.encode(ps);
      if encoded.Err? {
        return Err(FromPostcard(encoded.error)), [];
      }
      var acquired := env.create(localId);
      if acquired.Denied? {
        return Err(FromSahne(acquired.error)), [];
      }
      writes := [];
      if env.write(localId).Granted? {
        writes := [(localId, encoded.value)];
      }
      r := Ok(ps);
    }

    /**
     * `yerel_depoyu_guncelle`: obtain the list through the tiers, then write
     * it to the local copy. `create` and `write` are the kernel's answers to
     * the update's own acquire and write, which need not repeat those the
     * write-back of the fetch received.
     */
    method YerelDepoyuGuncelle(env: Env, create: string -> Access, write: string -> Access)
      returns (r: Result<(), PaketYoneticisiHatasi>, writes: seq<(string, seq<byte>)>)
      modifies this
      ensures var f := FetchedRepo(old(paketListesiCache), yerelDepoBaseResourceId, depoBaseResourceId, env);
              paketListesiCache == f.cache &&
              (f.result.Err? ==> r == Err(f.result.error) && writes == f.writes) &&
              (f.result.Ok? ==> var u := Update(f.result.value, yerelDepoBaseResourceId, env.(create := create, write := write));
                                 r == u.0 && writes == f.writes + u.1)
    {
      var list, fetchWrites := PaketListesiniAl(env);
      if list.Err? {
        return Err(list.error), fetchWrites;
      }
      var u := Update(list.value, yerelDepoBaseResourceId, env.(create := create, write := write));
      r := u.0;
      writes := fetchWrites + u.1;
    }

    /** `paket_ara`: the first package named `name` in the list the tiers give. */
    method PaketAra(name: string, env: Env) returns (r: Result<Option<Paket>, PaketYoneticisiHatasi>, writes: seq<(string, seq<byte>)>)
      modifies this
      ensures var f := FetchedRepo(old(paketListesiCache), yerelDepoBaseResourceId, depoBaseResourceId, env);
              paketListesiCache == f.cache && writes == f.writes && r == Searched(f, name)
    {
      var list;
      list, writes := PaketListesiniAl(env);
      if list.Err? {
        return Err(list.error), writes;
      }
      r := Ok(Find(list.value, name));
    }
  }
}
