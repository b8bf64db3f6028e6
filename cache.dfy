/**
 * The package cache of src/srccache.rs: every cached item is a resource
 * below a base resource id. The kernel is modelled twice over: as the
 * answers it gives (which `acquire` is granted, what each `read` returns),
 * and, for stating what saving and then loading achieves, as a store that
 * maps resource ids to their contents.
 */
module Cache {
  import opened Wrappers
  import opened Text
  import opened Resource
  import opened Errors

  /** `PaketOnbellek`: the base resource id is its only field, and nothing changes it. */
  datatype PaketOnbellek = PaketOnbellek(baseResourceId: string)

  /** `PaketOnbellek::yeni`: the base resource is acquired with MODE_CREATE, and released at once. */
  function Yeni(baseResourceId: string, create: string -> Access): (r: Result<PaketOnbellek, PaketYoneticisiHatasi>)
    ensures r.Ok? <==> create(baseResourceId).Granted?
    ensures r.Ok? ==> r.value.baseResourceId == baseResourceId
    ensures r.Err? ==> r.error == FromSahneLocal(create(baseResourceId).error)
  {
    match create(baseResourceId)
    case Granted => Ok(PaketOnbellek(baseResourceId))
    case Denied(e) => Err(FromSahneLocal(e))
  }

  // ---------------------------------------------------------------- resource ids

  /** `get_item_resource_id`: the key below the base, with exactly one '/' between them. */
  function ItemResourceId(c: PaketOnbellek, key: string): string {
    if EndsWith(c.baseResourceId, "/") then c.baseResourceId + key
    else c.baseResourceId + "/" + key
  }

  /** The item id starts with the base, ends with the key, and adds a '/' only when the base lacks one. */
  lemma ItemResourceIdShape(c: PaketOnbellek, key: string)
    ensures var id := ItemResourceId(c, key);
            StartsWith(id, c.baseResourceId) && EndsWith(id, key) &&
            |id| == |c.baseResourceId| + |key| + (if EndsWith(c.baseResourceId, "/") then 0 else 1) &&
            EndsWith(id[..|id| - |key|], "/")
  {
    var base := c.baseResourceId;
    var id := ItemResourceId(c, key);
    assert id[..|base|] == base;
    assert id[|id| - |key|..] == key;
    if EndsWith(base, "/") {
      assert id[..|id| - |key|] == base;
    } else {
      assert id[..|id| - |key|] == base + "/";
    }
  }

  /** Different keys never share a resource. */
  lemma ItemResourceIdInjective(c: PaketOnbellek, a: string, b: string)
    requires ItemResourceId(c, a) == ItemResourceId(c, b)
    ensures a == b
  {
    var n := if EndsWith(c.baseResourceId, "/") then |c.baseResourceId| else |c.baseResourceId| + 1;
    assert ItemResourceId(c, a)[n..] == a;
    assert ItemResourceId(c, b)[n..] == b;
  }

  /**
   * The parent that `sahne_create_resource_recursive` creates: the prefix
   * before the last '/', unless there is no '/' or that prefix is "" or "/".
   */
  function ParentToCreate(id: string): (r: Option<string>)
    ensures r.Some? ==> var p := r.value;
              p != [] && p != "/" && |p| < |id| && id[..|p|] == p && id[|p|] == '/' &&
              forall k :: |p| < k < |id| ==> id[k] != '/'
    ensures r.None? ==> forall k :: 0 <= k < |id| && id[k] == '/' ==>
                          (forall j :: k < j < |id| ==> id[j] != '/') ==> id[..k] == [] || id[..k] == "/"
  {
    match RFind(id, '/')
    case None => None
    case Some(i) => if id[..i] == [] || id[..i] == "/" then None else Some(id[..i])
  }

  /** Creating the parent: which resource was created, or the kernel's refusal. */
  function CreateParent(id: string, create: string -> Access): Result<Option<string>, PaketYoneticisiHatasi> {
    match ParentToCreate(id)
    case None => Ok(None)
    case Some(p) =>
      match create(p)
      case Granted => Ok(Some(p))
      case Denied(e) => Err(FromSahneLocal(e))
  }

  /** The base itself, as the parent of its items: the base with its trailing '/' (if any) removed. */
  function BaseParent(c: PaketOnbellek): string {
    if EndsWith(c.baseResourceId, "/") then c.baseResourceId[..|c.baseResourceId| - 1] else c.baseResourceId
  }

  /** The parent of an item whose key has no '/' is the cache's base. */
  lemma {:induction false} ItemParentIsBase(c: PaketOnbellek, key: string)
    requires NoChar(key, '/')
    ensures var p := BaseParent(c);
            ParentToCreate(ItemResourceId(c, key)) == if p == [] || p == "/" then None else Some(p)
  {
    var id := ItemResourceId(c, key);
    var p := BaseParent(c);
    ItemResourceIdShape(c, key);
    assert id[|p|] == '/';
    assert forall k :: |p| < k < |id| ==> id[k] == key[k - |p| - 1];
    assert id[..|p|] == p;
    var r := RFind(id, '/');
    assert r == Some(|p|);
  }

  // ---------------------------------------------------------------- reading

  /**
   * `paket_verisini_al`: a missing item is `None`; an item that can be read
   * is its whole contents; any other failure is an error. A failure to
   * release the handle afterwards is only logged.
   */
  function Fetched(c: PaketOnbellek, key: string, access: string -> Access,
                   chunks: string -> seq<Chunk<byte>>): Result<Option<seq<byte>>, PaketYoneticisiHatasi>
  {
    var id := ItemResourceId(c, key);
    match access(id)
    case Denied(e) => if e == ResourceNotFound then Ok(None) else Err(FromSahneLocal(e))
    case Granted =>
      match Drain(chunks(id))
      case Ok(data) => Ok(Some(data))
      case Err(e) => Err(FromSahneLocal(e))
  }

  method PaketVerisiniAl(c: PaketOnbellek, key: string, access: string -> Access,
                         chunks: string -> seq<Chunk<byte>>)
    returns (r: Result<Option<seq<byte>>, PaketYoneticisiHatasi>)
    ensures r == Fetched(c, key, access, chunks)
  {
    var id := ItemResourceId(c, key);
    var a := access(id);
    if a.Denied? && a.error == ResourceNotFound {
      return Ok(None);
    }
    var read := ReadAll(a, chunks(id));
    match read
    case Ok(data) => r := Ok(Some(data));
    case Err(e) => r := Err(FromSahneLocal(e));
  }

  /** A missing item is not an error: `Ok(None)`, and only a missing item gives it. */
  lemma FetchedNoneIffMissing(c: PaketOnbellek, key: string, access: string -> Access,
                              chunks: string -> seq<Chunk<byte>>)
    ensures Fetched(c, key, access, chunks) == Ok(None)
            <==> access(ItemResourceId(c, key)) == Denied(ResourceNotFound)
  {
  }

  // ---------------------------------------------------------------- writing

  /** The kernel's answers to the calls `paket_verisini_kaydet` makes, per resource id. */
  datatype Kernel = Kernel(create: string -> Access, open: string -> Access, write: string -> WriteResult)

  /** Resource contents, for stating what a save leaves behind. */
  type Store = map<string, seq<byte>>

  /**
   * `paket_verisini_kaydet`: create the parent, open the item with
   * MODE_WRITE | MODE_CREATE | MODE_TRUNCATE, write the data in one call.
   * The count that call reports is not looked at, so a short write still
   * returns `Ok(())`. A failure to release the handle is only logged.
   */
  function Kaydet(store: Store, c: PaketOnbellek, key: string, data: seq<byte>, k: Kernel)
    : (s: (Result<(), PaketYoneticisiHatasi>, Store))
    ensures var id := ItemResourceId(c, key);
            s.0.Ok? <==> CreateParent(id, k.create).Ok? && k.open(id).Granted? && k.write(id).Wrote?
    ensures var id := ItemResourceId(c, key);
            s.0.Ok? ==> id in s.1 && s.1[id] == WrittenPrefix(data, k.write(id).count)
    ensures var id := ItemResourceId(c, key);
            k.open(id).Denied? || k.write(id).WriteFailed? ==> s.0.Err?
  {
    var id := ItemResourceId(c, key);
    match CreateParent(id, k.create)
    case Err(e) => (Err(e), store)
    case Ok(parent) =>
      var created := if parent.Some? && parent.value !in store then store[parent.value := []] else store;
      match k.open(id)
      case Denied(e) => (Err(FromSahneLocal(e)), created)
      case Granted =>
        match k.write(id)
        case WriteFailed(e) => (Err(FromSahneLocal(e)), created[id := []])
        case Wrote(n) => (Ok(()), created[id := WrittenPrefix(data, n)])
  }

  /** How a kernel holding `store` answers `acquire(id, MODE_READ)` and the reads after it. */
  function StoreAccess(store: Store): string -> Access {
    id => if id in store then Granted else Denied(ResourceNotFound)
  }

  function StoreChunks(store: Store): string -> seq<Chunk<byte>> {
    id => if id in store && store[id] != [] then [Data(store[id])] else []
  }

  /** Fetching an item from a kernel holding `store` gives back what the store holds for it. */
  lemma FetchStored(store: Store, c: PaketOnbellek, key: string)
    requires ItemResourceId(c, key) in store
    ensures Fetched(c, key, StoreAccess(store), StoreChunks(store)) == Ok(Some(store[ItemResourceId(c, key)]))
  {
    var data := store[ItemResourceId(c, key)];
    if data != [] {
      assert Drain([Data(data)]) == Ok(data + []) by {
        assert [Data(data)][1..] == [];
      }
      assert data + [] == data;
    }
  }

  /**
   * A successful save leaves what the write call accepted: fetching the key
   * gives back a prefix of the data, and the whole data when that call wrote
   * every byte.
   */
  lemma SaveThenFetch(store: Store, c: PaketOnbellek, key: string, data: seq<byte>, k: Kernel)
    requires Kaydet(store, c, key, data, k).0.Ok?
    ensures var after := Kaydet(store, c, key, data, k).1;
            var f := Fetched(c, key, StoreAccess(after), StoreChunks(after));
            f.Ok? && f.value.Some? && |f.value.value| <= |data| && f.value.value == data[..|f.value.value|] &&
            (k.write(ItemResourceId(c, key)) == Wrote(|data|) ==> f.value.value == data)
  {
    FetchStored(Kaydet(store, c, key, data, k).1, c, key);
  }

  /**
   * A write call that accepts fewer bytes than offered still makes the save
   * succeed, and only those bytes are stored.
   */
  lemma ShortWriteSucceeds(store: Store, c: PaketOnbellek, key: string, data: seq<byte>, k: Kernel, n: nat)
    requires CreateParent(ItemResourceId(c, key), k.create).Ok?
    requires k.open(ItemResourceId(c, key)).Granted?
    requires k.write(ItemResourceId(c, key)) == Wrote(n) && n < |data|
    ensures var (r, after) := Kaydet(store, c, key, data, k);
            r == Ok(()) && Fetched(c, key, StoreAccess(after), StoreChunks(after)) == Ok(Some(data[..n])) &&
            data[..n] != data
  {
    FetchStored(Kaydet(store, c, key, data, k).1, c, key);
  }

  /** A save changes no other resource's contents, and only ever adds the parent as a new, empty resource. */
  lemma SaveKeepsOthers(store: Store, c: PaketOnbellek, key: string, data: seq<byte>, k: Kernel)
    ensures var after := Kaydet(store, c, key, data, k).1;
            forall id :: id in store && id != ItemResourceId(c, key) ==> id in after && after[id] == store[id]
    ensures var after := Kaydet(store, c, key, data, k).1;
            forall id :: id in after && id !in store ==>
              id == ItemResourceId(c, key) || CreateParent(ItemResourceId(c, key), k.create) == Ok(Some(id))
  {
  }

  /** A save that fails leaves the item's resource holding nothing new: its old contents, or nothing. */
  lemma SaveFailureKeepsNoData(store: Store, c: PaketOnbellek, key: string, data: seq<byte>, k: Kernel)
    requires Kaydet(store, c, key, data, k).0.Err?
    ensures var after := Kaydet(store, c, key, data, k).1;
            var id := ItemResourceId(c, key);
            (id in after && id in store && after[id] == store[id]) || (id in after ==> after[id] == [])
  {
  }

  // ---------------------------------------------------------------- unsupported and errors

  /** `onbellegi_temizle`: the kernel cannot list resources, so clearing always fails. */
  function OnbellegiTemizle(c: PaketOnbellek): (r: Result<(), PaketYoneticisiHatasi>)
    ensures r.Err? && r.error.SahneApiHatasi? && r.error.sahne == NotSupported
  {
    Err(SahneApiHatasi(NotSupported))
  }

  /** `From<ZipError>` of src/srccache.rs: an I/O error inside the zip crate is a cache error, the rest stay zip errors. */
  function FromZipCache(e: ZipError, zipDebug: ZipError -> string): (r: PaketYoneticisiHatasi)
    ensures r.OnbellekHatasi? <==> e.IoError?
    ensures r.OnbellekHatasi? ==> r.detail == "Zip IO Hatası: " + zipDebug(e)
    ensures !r.OnbellekHatasi? ==> r == ZipHatasi(e)
  {
    match e
    case IoError(_) => OnbellekHatasi("Zip IO Hatası: " + zipDebug(e))
    case _ => ZipHatasi(e)
  }
}
