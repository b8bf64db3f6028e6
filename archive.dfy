/**
 * Extraction of a package archive under a base resource id (srcarchive.rs):
 * how each zip entry name is cleaned, joined to the base and turned into
 * kernel calls, and how a kernel error becomes a package-manager error.
 * Decoding the zip format is outside the model: the archive arrives as the
 * sequence of entries `by_index` would hand out, each with the bytes (or the
 * error) its `read_to_end` would produce. The kernel's answers to `acquire`,
 * `write` and `release` are parameters, and every call the extraction makes
 * is recorded as an `Effect`.
 */
module Archive {
  import opened Wrappers
  import opened Text
  import opened Resource
  import opened Errors

  // ---------------------------------------------------------------- errors

  /** `from_sahne_error`: a missing resource or a refused permission is a file-system error, the rest API errors. */
  function FromSahneError(e: SahneError): (r: PaketYoneticisiHatasi)
    ensures r.DosyaSistemiHatasi? <==> e == ResourceNotFound || e == PermissionDenied
    ensures r.SahneApiHatasi? <==> !(e == ResourceNotFound || e == PermissionDenied)
    ensures r.sahne == e
  {
    match e
    case ResourceNotFound => DosyaSistemiHatasi(e)
    case PermissionDenied => DosyaSistemiHatasi(e)
    case _ => SahneApiHatasi(e)
  }

  // ---------------------------------------------------------------- entry names

  /** No two consecutive dots anywhere in `s`. */
  predicate NoDotDot(s: string) {
    forall k :: 0 <= k < |s| - 1 ==> s[k] != '.' || s[k + 1] != '.'
  }

  /** The cleaning applied to every entry name: `..` becomes `_`, then `//` becomes `/`. */
  function Sanitize(name: string): string {
    Replace(Replace(name, "..", "_"), "//", "/")
  }

  lemma NoDotDotConcat(a: string, b: string)
    requires NoDotDot(a) && NoDotDot(b)
    requires a == [] || b == [] || a[|a| - 1] != '.' || b[0] != '.'
    ensures NoDotDot(a + b)
  {
    var s := a + b;
    forall k | 0 <= k < |s| - 1
      ensures s[k] != '.' || s[k + 1] != '.'
    {
      if k + 1 < |a| {
        assert s[k] == a[k] && s[k + 1] == a[k + 1];
      } else if k >= |a| {
        assert s[k] == b[k - |a|] && s[k + 1] == b[k + 1 - |a|];
      } else {
        assert s[k] == a[|a| - 1] && s[k + 1] == b[0];
      }
    }
  }

  lemma StartsWithPair(s: string, a: char, b: char)
    ensures StartsWith(s, [a, b]) <==> |s| >= 2 && s[0] == a && s[1] == b
  {
    if |s| >= 2 && s[0] == a && s[1] == b {
      assert s[..2] == [a, b];
    }
  }

  /** The first character `replace("..", "_")` produces. */
  lemma ReplaceDotsHead(s: string)
    requires s != []
    ensures Replace(s, "..", "_") != []
    ensures Replace(s, "..", "_")[0] == if StartsWith(s, "..") then '_' else s[0]
  {
  }

  /** After `replace("..", "_")` no `..` is left. */
  lemma {:induction false} ReplaceDotsClean(s: string)
    ensures NoDotDot(Replace(s, "..", "_"))
    decreases |s|
  {
    if StartsWith(s, "..") {
      ReplaceDotsClean(s[2..]);
      NoDotDotConcat("_", Replace(s[2..], "..", "_"));
    } else if s != [] {
      var rest := s[1..];
      ReplaceDotsClean(rest);
      if rest != [] {
        ReplaceDotsHead(rest);
        StartsWithPair(s, '.', '.');
        assert s[1] == rest[0];
      }
      NoDotDotConcat([s[0]], Replace(rest, "..", "_"));
    }
  }

  /** The first character `replace("//", "/")` produces. */
  lemma ReplaceSlashesHead(s: string)
    requires s != []
    ensures Replace(s, "//", "/") != []
    ensures Replace(s, "//", "/")[0] == if StartsWith(s, "//") then '/' else s[0]
  {
  }

  /** `replace("//", "/")` never brings two dots together. */
  lemma {:induction false} ReplaceSlashesKeeps(s: string)
    requires NoDotDot(s)
    ensures NoDotDot(Replace(s, "//", "/"))
    decreases |s|
  {
    if StartsWith(s, "//") {
      assert NoDotDot(s[2..]);
      ReplaceSlashesKeeps(s[2..]);
      NoDotDotConcat("/", Replace(s[2..], "//", "/"));
    } else if s != [] {
      var rest := s[1..];
      assert NoDotDot(rest);
      ReplaceSlashesKeeps(rest);
      if rest != [] {
        ReplaceSlashesHead(rest);
        assert s[0] == '.' ==> rest[0] != '.' by {
          assert s[1] == rest[0];
        }
      }
      NoDotDotConcat([s[0]], Replace(rest, "//", "/"));
    }
  }

  /** A cleaned entry name never contains `..`, whatever the archive says. */
  lemma SanitizeNoDotDot(name: string)
    ensures NoDotDot(Sanitize(name))
  {
    ReplaceDotsClean(name);
    ReplaceSlashesKeeps(Replace(name, "..", "_"));
  }

  // ---------------------------------------------------------------- target ids

  /** The target as srcarchive.rs:205-218 builds it. */
  function TargetAsWritten(base: string, clean: string): string {
    if EndsWith(base, "/") || StartsWith(clean, "/") then
      base + (if StartsWith(clean, "/") then clean[1..] else clean)
    else
      base + "/" + clean
  }

  /** The prefix check of srcarchive.rs:223-231 can never reject a target built that way. */
  lemma TargetAsWrittenPassesCheck(base: string, clean: string)
    ensures StartsWith(TargetAsWritten(base, clean), base)
  {
    var t := TargetAsWritten(base, clean);
    assert t[..|base|] == base;
  }

  /**
   * With a base that does not end in '/' and a name that starts with '/',
   * the leading '/' is dropped and no separator put back: the entry lands
   * beside the base directory, and the prefix check still lets it through.
   */
  lemma TargetAsWrittenEscapes()
    ensures Sanitize("//bin") == "/bin"
    ensures TargetAsWritten("pkg", Sanitize("//bin")) == "pkgbin"
    ensures StartsWith("pkgbin", "pkg") && !StartsWith("pkgbin", "pkg/")
  {
    assert StartsWith("//bin", "//");
    assert !StartsWith("//bin", "..") && !StartsWith("/bin", "..") && !StartsWith("bin", "..");
    assert !StartsWith("in", "..") && !StartsWith("n", "..");
    assert !StartsWith("bin", "//") && !StartsWith("in", "//") && !StartsWith("n", "//");
    assert Replace("//bin", "..", "_") == "//bin";
    assert Replace("//bin", "//", "/") == "/" + Replace("bin", "//", "/");
    assert StartsWith("/bin", "/");
    assert "/bin"[1..] == "bin";
  }

  /** The directory the extraction fills: the base with one trailing '/'. */
  function Dir(base: string): (d: string)
    ensures EndsWith(d, "/") && StartsWith(d, base)
    ensures EndsWith(base, "/") ==> d == base
  {
    if EndsWith(base, "/") then base else base + "/"
  }

  /** The entry name relative to `Dir(base)`: one leading '/' dropped. */
  function Rel(clean: string): string {
    if StartsWith(clean, "/") then clean[1..] else clean
  }

  /** The target id, with the separator kept in every case. */
  function Target(base: string, clean: string): string {
    Dir(base) + Rel(clean)
  }

  /** `Target` and `TargetAsWritten` agree exactly when the base ends in '/' or the name does not start with '/'. */
  lemma TargetAgreesUnlessSlashJoin(base: string, clean: string)
    ensures Target(base, clean) == TargetAsWritten(base, clean)
            <==> EndsWith(base, "/") || !StartsWith(clean, "/")
  {
    if !EndsWith(base, "/") && StartsWith(clean, "/") {
      assert |Target(base, clean)| == |TargetAsWritten(base, clean)| + 1;
    }
  }

  /** With the corrected join the prefix check of srcarchive.rs:223-231 still never rejects. */
  lemma TargetPassesCheck(base: string, clean: string)
    ensures StartsWith(Target(base, clean), base)
    ensures ExtractEntryCorrected("", base, Entry(clean, Ok([])), Permissive(0)).error.None?
  {
    var t := Target(base, clean);
    assert t[..|base|] == base;
    var d := Sanitize(clean);
    var target := Target(base, d);
    assert StartsWith(target, base) by {
      assert target[..|base|] == base;
    }
    PermissiveTarget(base, d, target);
    assert ExtractEntryCorrected("", base, Entry(clean, Ok([])), Permissive(0)) ==
           ExtractTarget("", base, d, target, Ok([]), Permissive(0));
  }

  /** Under a kernel that grants everything, a target that passes the prefix check is extracted without error. */
  lemma PermissiveTarget(base: string, clean: string, target: string)
    requires StartsWith(target, base)
    ensures ExtractTarget("", base, clean, target, Ok([]), Permissive(0)).error.None?
  {
    if !EndsWith(clean, "/") {
      PermissiveFileEntry("", target, [], 0);
    }
  }

  /** `id` lies in the directory `root`, or is that directory itself named without its '/'. */
  predicate Within(root: string, id: string) {
    (StartsWith(id, root) && NoDotDot(id[|root|..])) || id + "/" == root
  }

  lemma NoDotDotPrefix(s: string, n: nat)
    requires NoDotDot(s) && n <= |s|
    ensures NoDotDot(s[..n])
  {
    assert forall k :: 0 <= k < n ==> s[..n][k] == s[k];
  }

  /** Every target of a cleaned name is inside `Dir(base)`. */
  lemma TargetWithin(base: string, name: string)
    ensures Within(Dir(base), Target(base, Sanitize(name)))
  {
    var clean := Sanitize(name);
    SanitizeNoDotDot(name);
    var t := Target(base, clean);
    assert t[|Dir(base)|..] == Rel(clean);
    if StartsWith(clean, "/") {
      assert forall k :: 0 <= k < |clean| - 1 ==> clean[1..][k] == clean[k + 1];
    }
  }

  // ---------------------------------------------------------------- kernel calls

  /** One kernel call made during extraction. */
  datatype Effect =
    | Created(id: string)             // `acquire(id, MODE_CREATE)` granted, the handle released at once
    | Opened(id: string)              // `acquire(id, MODE_WRITE | MODE_CREATE | MODE_TRUNCATE)` granted
    | Written(id: string, data: seq<byte>)
    | Released(id: string)

  /** The kernel's answers, per resource id. */
  datatype Kernel = Kernel(
    create: string -> Access,
    open: string -> Access,
    write: string -> WriteResult,
    release: string -> Access)

  /** An archive entry: its name and what reading its contents gives. */
  datatype Entry = Entry(name: string, data: Result<seq<byte>, ZipError>)

  /** The calls made so far and the error that stopped the extraction, if any. */
  datatype Step = Step(effects: seq<Effect>, error: Option<PaketYoneticisiHatasi>)

  /**
   * The parent logic of `sahne_create_resource_recursive`: the prefix before
   * the last '/' is created, unless there is no '/' or the prefix is empty.
   * The result names the resource created, if any.
   */
  function CreateParent(id: string, create: string -> Access): (r: Result<Option<string>, PaketYoneticisiHatasi>)
    ensures r.Ok? && r.value.Some? ==>
              r.value.value != [] && |r.value.value| < |id| && id[|r.value.value|] == '/' &&
              id[..|r.value.value|] == r.value.value && create(r.value.value).Granted? &&
              forall k :: |r.value.value| < k < |id| ==> id[k] != '/'
    ensures r.Ok? && r.value.None? ==> forall k :: 0 < k < |id| ==> id[k] != '/'
    ensures r.Err? ==> exists p :: p != [] && create(p).Denied? && r.error == FromSahneError(create(p).error)
  {
    match RFind(id, '/')
    case None => Ok(None)
    case Some(i) =>
      if i == 0 then Ok(None)
      else match create(id[..i])
        case Granted => Ok(Some(id[..i]))
        case Denied(e) => Err(FromSahneError(e))
  }

  /** A kernel that grants every call and reports `count` bytes for every write. */
  function Permissive(count: nat): Kernel {
    Kernel(_ => Granted, _ => Granted, _ => Wrote(count), _ => Granted)
  }

  /** Under a kernel that grants everything, a file entry with readable contents is written without error. */
  lemma PermissiveFileEntry(archiveId: string, target: string, data: seq<byte>, count: nat)
    ensures ExtractFileEntry(archiveId, target, Ok(data), Permissive(count)).error.None?
  {
    assert CreateParent(target, Permissive(count).create).Ok?;
  }

  const SECURITY_MESSAGE := "Güvenlik sebebiyle geçersiz çıkarma yolu"

  /**
   * Writing one file entry once its parent exists. The single write's
   * count is not checked: the resource keeps the bytes the kernel accepted.
   */
  function ExtractFile(archiveId: string, target: string, data: Result<seq<byte>, ZipError>, k: Kernel): (s: Step)
    ensures s.error.Some? ==> s.effects != [] && s.effects[|s.effects| - 1] == Released(archiveId)
    ensures s.error.None? ==> data.Ok? && k.write(target).Wrote? &&
                              Written(target, WrittenPrefix(data.value, k.write(target).count)) in s.effects
    ensures forall x :: x in s.effects ==> x.id == archiveId || x.id == target
  {
    match k.open(target)
    case Denied(e) => Step([Released(archiveId)], Some(FromSahneError(e)))
    case Granted =>
      match data
      case Err(z) => Step([Opened(target), Released(target), Released(archiveId)], Some(ZipHatasi(z)))
      case Ok(bytes) =>
        match k.write(target)
        case WriteFailed(e) => Step([Opened(target), Released(target), Released(archiveId)], Some(FromSahneError(e)))
        case Wrote(n) =>
          var kept := WrittenPrefix(bytes, n);
          match k.release(target)
          case Denied(e) =>
            Step([Opened(target), Written(target, kept), Released(target), Released(archiveId)], Some(FromSahneError(e)))
          case Granted => Step([Opened(target), Written(target, kept), Released(target)], None)
  }

  /** A file entry: its parent created if it has one, then the file written. */
  function ExtractFileEntry(archiveId: string, target: string, data: Result<seq<byte>, ZipError>, k: Kernel): (s: Step)
    ensures s.error.Some? ==> s.effects != [] && s.effects[|s.effects| - 1] == Released(archiveId)
    ensures s.error.None? ==> data.Ok? && k.write(target).Wrote? &&
                              Written(target, WrittenPrefix(data.value, k.write(target).count)) in s.effects
    ensures forall x :: x in s.effects ==>
              x.id == archiveId || x.id == target || CreateParent(target, k.create) == Ok(Some(x.id))
  {
    match CreateParent(target, k.create)
    case Err(e) => Step([Released(archiveId)], Some(e))
    case Ok(parent) =>
      var file := ExtractFile(archiveId, target, data, k);
      Step((if parent.Some? then [Created(parent.value)] else []) + file.effects, file.error)
  }

  /** A directory entry: created unless the cleaned name is "/" alone. */
  function ExtractDirectory(archiveId: string, clean: string, target: string, k: Kernel): (s: Step)
    ensures s.error.Some? ==> s.effects == [Released(archiveId)]
    ensures s.error.None? && |clean| > 1 ==> Created(target) in s.effects
    ensures forall x :: x in s.effects ==> x.id == archiveId || x.id == target
  {
    if |clean| > 1 then
      match k.create(target)
      case Granted => Step([Created(target)], None)
      case Denied(e) => Step([Released(archiveId)], Some(FromSahneError(e)))
    else Step([], None)
  }

  /** One iteration of the entry loop of `zip_ac`, the target joined as srcarchive.rs:205-218 joins it. */
  function ExtractEntry(archiveId: string, base: string, entry: Entry, k: Kernel): (s: Step)
    ensures s.error.Some? ==> s.effects != [] && s.effects[|s.effects| - 1] == Released(archiveId)
  {
    var clean := Sanitize(entry.name);
    ExtractTarget(archiveId, base, clean, TargetAsWritten(base, clean), entry.data, k)
  }

  /** The same iteration with the separator kept: the target is `Target`, inside `Dir(base)`. */
  function ExtractEntryCorrected(archiveId: string, base: string, entry: Entry, k: Kernel): (s: Step)
    ensures s.error.Some? ==> s.effects != [] && s.effects[|s.effects| - 1] == Released(archiveId)
  {
    var clean := Sanitize(entry.name);
    ExtractTarget(archiveId, base, clean, Target(base, clean), entry.data, k)
  }

  /** The body of the entry loop once the name is cleaned and joined to the base. */
  function ExtractTarget(archiveId: string, base: string, clean: string, target: string,
                         data: Result<seq<byte>, ZipError>, k: Kernel): (s: Step)
    ensures s.error.Some? ==> s.effects != [] && s.effects[|s.effects| - 1] == Released(archiveId)
  {
    if !StartsWith(target, base) then
      Step([Released(archiveId)], Some(ZipHatasi(InvalidPath(SECURITY_MESSAGE))))
    else if EndsWith(clean, "/") then ExtractDirectory(archiveId, clean, target, k)
    else ExtractFileEntry(archiveId, target, data, k)
  }

  /**
   * The entry loop over any per-entry step: entries in order, an entry
   * that cannot be decoded or a step that fails stops it.
   */
  function Run<E>(entries: seq<Result<E, ZipError>>, step: E -> Step): Step {
    if entries == [] then Step([], None)
    else
      var before := Run(entries[..|entries| - 1], step);
      if before.error.Some? then before
      else match entries[|entries| - 1]
        case Err(z) => Step(before.effects, Some(ZipHatasi(z)))
        case Ok(entry) =>
          var s := step(entry);
          Step(before.effects + s.effects, s.error)
  }

  /** The entry loop of `zip_ac`. */
  function ExtractAll(archiveId: string, base: string, entries: seq<Result<Entry, ZipError>>, k: Kernel): Step {
    Run(entries, e => ExtractEntry(archiveId, base, e, k))
  }

  /**
   * Open the archive, decode it, run `step` on every entry, release the
   * archive. A decoding failure returns at once, without releasing the archive.
   */
  function ZipAcWith(archiveId: string, archiveAccess: Access, archive: Result<seq<Result<Entry, ZipError>>, ZipError>,
                     step: Entry -> Step, archiveRelease: Access): (seq<Effect>, Result<(), PaketYoneticisiHatasi>)
  {
    match archiveAccess
    case Denied(e) => ([], Err(FromSahneError(e)))
    case Granted =>
      match archive
      case Err(z) => ([], Err(ZipHatasi(z)))
      case Ok(entries) =>
        var s := Run(entries, step);
        if s.error.Some? then (s.effects, Err(s.error.value))
        else (s.effects + [Released(archiveId)],
              if archiveRelease.Granted? then Ok(()) else Err(FromSahneError(archiveRelease.error)))
  }

  /** `zip_ac` as written. */
  function ZipAcSpec(archiveId: string, base: string, archiveAccess: Access,
                     archive: Result<seq<Result<Entry, ZipError>>, ZipError>, k: Kernel,
                     archiveRelease: Access): (seq<Effect>, Result<(), PaketYoneticisiHatasi>)
  {
    ZipAcWith(archiveId, archiveAccess, archive, e => ExtractEntry(archiveId, base, e, k), archiveRelease)
  }

  /** `zip_ac` with every entry joined by `Target`. */
  function ZipAcCorrected(archiveId: string, base: string, archiveAccess: Access,
                          archive: Result<seq<Result<Entry, ZipError>>, ZipError>, k: Kernel,
                          archiveRelease: Access): (seq<Effect>, Result<(), PaketYoneticisiHatasi>)
  {
    ZipAcWith(archiveId, archiveAccess, archive, e => ExtractEntryCorrected(archiveId, base, e, k), archiveRelease)
  }

  /** Once an error has stopped the loop, later entries change nothing. */
  lemma {:induction false} RunSticks<E>(entries: seq<Result<E, ZipError>>, n: nat, step: E -> Step)
    requires n <= |entries|
    requires Run(entries[..n], step).error.Some?
    ensures Run(entries, step) == Run(entries[..n], step)
    decreases |entries| - n
  {
    if n < |entries| {
      var m := |entries| - 1;
      assert entries[..m][..n] == entries[..n];
      RunSticks(entries[..m], n, step);
    } else {
      assert entries[..n] == entries;
    }
  }

  /** The entry loop itself, over any per-entry step. */
  method RunLoop<E>(entries: seq<Result<E, ZipError>>, step: E -> Step) returns (s: Step)
    ensures s == Run(entries, step)
  {
    var effects := [];
    var i := 0;
    while i < |entries|
      invariant 0 <= i <= |entries|
      invariant Run(entries[..i], step) == Step(effects, None)
    {
      assert entries[..i + 1][..i] == entries[..i];
      match entries[i]
      case Err(z) =>
        RunSticks(entries, i + 1, step);
        return Step(effects, Some(ZipHatasi(z)));
      case Ok(entry) =>
        var st := step(entry);
        effects := effects + st.effects;
        if st.error.Some? {
          RunSticks(entries, i + 1, step);
          return Step(effects, st.error);
        }
      i := i + 1;
    }
    assert entries[..i] == entries;
    s := Step(effects, None);
  }

  method ZipAc(archiveId: string, base: string, archiveAccess: Access,
               archive: Result<seq<Result<Entry, ZipError>>, ZipError>, k: Kernel, archiveRelease: Access)
    returns (effects: seq<Effect>, r: Result<(), PaketYoneticisiHatasi>)
    ensures (effects, r) == ZipAcSpec(archiveId, base, archiveAccess, archive, k, archiveRelease)
  {
    if archiveAccess.Denied? {
      return [], Err(FromSahneError(archiveAccess.error));
    }
    if archive.Err? {
      return [], Err(ZipHatasi(archive.error));
    }
    var s := RunLoop(archive.value, e => ExtractEntry(archiveId, base, e, k));
    if s.error.Some? {
      return s.effects, Err(s.error.value);
    }
    effects := s.effects + [Released(archiveId)];
    r := if archiveRelease.Granted? then Ok(()) else Err(FromSahneError(archiveRelease.error));
  }

  // ---------------------------------------------------------------- properties

  /** Every call touches the archive itself or a resource inside `Dir(base)`. */
  predicate Confined(root: string, archiveId: string, effects: seq<Effect>) {
    forall i :: 0 <= i < |effects| ==> effects[i].id == archiveId || Within(root, effects[i].id)
  }

  /** The parent of a target inside a directory `d` is inside it too. */
  lemma ParentWithinDir(d: string, t: string, parent: string)
    requires EndsWith(d, "/") && StartsWith(t, d) && NoDotDot(t[|d|..])
    requires parent != [] && |parent| < |t| && t[|parent|] == '/' && t[..|parent|] == parent
    requires forall k :: |parent| < k < |t| ==> t[k] != '/'
    ensures Within(d, parent)
  {
    assert t[|d| - 1] == '/';
    if |parent| == |d| - 1 {
      assert parent + "/" == d;
    } else {
      var rel := t[|d|..];
      assert parent[..|d|] == d;
      assert parent[|d|..] == rel[..|parent| - |d|];
      NoDotDotPrefix(rel, |parent| - |d|);
    }
  }

  /** The kernel effects of a file entry whose target, and whose parent if one is created, lie within `root`. */
  lemma FileEntryConfined(archiveId: string, root: string, target: string, data: Result<seq<byte>, ZipError>, k: Kernel)
    requires Within(root, target)
    requires var p := CreateParent(target, k.create); p.Ok? && p.value.Some? ==> Within(root, p.value.value)
    ensures Confined(root, archiveId, ExtractFileEntry(archiveId, target, data, k).effects)
  {
    var effects := ExtractFileEntry(archiveId, target, data, k).effects;
    forall i | 0 <= i < |effects|
      ensures effects[i].id == archiveId || Within(root, effects[i].id)
    {
      assert effects[i] in effects;
    }
  }

  lemma DirectoryConfined(archiveId: string, root: string, clean: string, target: string, k: Kernel)
    requires Within(root, target)
    ensures Confined(root, archiveId, ExtractDirectory(archiveId, clean, target, k).effects)
  {
    var effects := ExtractDirectory(archiveId, clean, target, k).effects;
    forall i | 0 <= i < |effects|
      ensures effects[i].id == archiveId || Within(root, effects[i].id)
    {
      assert effects[i] in effects;
    }
  }

  /** The corrected entry step touches only the archive and resources inside `Dir(base)`. */
  lemma ExtractEntryConfined(archiveId: string, base: string, entry: Entry, k: Kernel)
    ensures Confined(Dir(base), archiveId, ExtractEntryCorrected(archiveId, base, entry, k).effects)
  {
    var clean := Sanitize(entry.name);
    var target := Target(base, clean);
    var d := Dir(base);
    assert target[..|base|] == base;
    assert target[..|d|] == d;
    TargetWithin(base, entry.name);
    if EndsWith(clean, "/") {
      DirectoryConfined(archiveId, d, clean, target, k);
    } else {
      var p := CreateParent(target, k.create);
      if p.Ok? && p.value.Some? {
        ParentWithinDir(d, target, p.value.value);
      }
      FileEntryConfined(archiveId, d, target, entry.data, k);
    }
  }

  lemma ConfinedAppend(root: string, archiveId: string, a: seq<Effect>, b: seq<Effect>)
    requires Confined(root, archiveId, a) && Confined(root, archiveId, b)
    ensures Confined(root, archiveId, a + b)
  {
    assert forall i :: |a| <= i < |a + b| ==> (a + b)[i] == b[i - |a|];
  }

  /** A loop over confined steps is confined. */
  lemma {:induction false} RunConfined<E>(root: string, archiveId: string,
                                          entries: seq<Result<E, ZipError>>, step: E -> Step)
    requires forall e :: Confined(root, archiveId, step(e).effects)
    ensures Confined(root, archiveId, Run(entries, step).effects)
  {
    if entries != [] {
      var prefix := entries[..|entries| - 1];
      RunConfined(root, archiveId, prefix, step);
      var before := Run(prefix, step);
      if before.error.None? && entries[|entries| - 1].Ok? {
        ConfinedAppend(root, archiveId, before.effects, step(entries[|entries| - 1].value).effects);
      }
    }
  }

  /**
   * Whatever the entry names, the corrected extraction creates, opens,
   * writes and releases nothing but the archive and resources inside
   * `Dir(base)`, and none of their paths below `Dir(base)` holds `..`.
   */
  lemma ZipAcConfined(archiveId: string, base: string, archiveAccess: Access,
                      archive: Result<seq<Result<Entry, ZipError>>, ZipError>, k: Kernel, archiveRelease: Access)
    ensures Confined(Dir(base), archiveId, ZipAcCorrected(archiveId, base, archiveAccess, archive, k, archiveRelease).0)
  {
    if archiveAccess.Granted? && archive.Ok? {
      var step := e => ExtractEntryCorrected(archiveId, base, e, k);
      forall e
        ensures Confined(Dir(base), archiveId, step(e).effects)
      {
        ExtractEntryConfined(archiveId, base, e, k);
      }
      RunConfined(Dir(base), archiveId, archive.value, step);
      ConfinedAppend(Dir(base), archiveId, Run(archive.value, step).effects, [Released(archiveId)]);
    }
  }

  /** When no error stops the loop, every entry was decoded and every call its step made is in the result. */
  lemma {:induction false} RunComplete<E>(entries: seq<Result<E, ZipError>>, step: E -> Step)
    requires Run(entries, step).error.None?
    ensures forall i :: 0 <= i < |entries| ==>
              entries[i].Ok? && step(entries[i].value).error.None? &&
              forall x :: x in step(entries[i].value).effects ==> x in Run(entries, step).effects
  {
    if entries != [] {
      var n := |entries| - 1;
      var prefix := entries[..n];
      RunComplete(prefix, step);
      assert forall i :: 0 <= i < n ==> entries[i] == prefix[i];
    }
  }

  /**
   * What a successfully extracted entry leaves behind, at the target
   * `zip_ac` computes: its directory, or the part of its contents the
   * kernel accepted, which is all of it when the write reported every byte.
   */
  predicate Extracted(base: string, entry: Entry, k: Kernel, effects: seq<Effect>) {
    var clean := Sanitize(entry.name);
    var target := TargetAsWritten(base, clean);
    if EndsWith(clean, "/") then |clean| > 1 ==> Created(target) in effects
    else
      entry.data.Ok? && k.write(target).Wrote? &&
      exists kept :: Written(target, kept) in effects && kept == WrittenPrefix(entry.data.value, k.write(target).count) &&
                     (k.write(target).count >= |entry.data.value| ==> kept == entry.data.value)
  }

  /** An entry extracted without error: its directory created, or its file written with what the kernel accepted. */
  lemma ExtractEntryDone(archiveId: string, base: string, entry: Entry, k: Kernel)
    requires ExtractEntry(archiveId, base, entry, k).error.None?
    ensures Extracted(base, entry, k, ExtractEntry(archiveId, base, entry, k).effects)
  {
    TargetAsWrittenPassesCheck(base, Sanitize(entry.name));
  }

  /** A successful `zip_ac` extracted every entry and released the archive. */
  lemma ZipAcSuccess(archiveId: string, base: string, archiveAccess: Access,
                     archive: Result<seq<Result<Entry, ZipError>>, ZipError>, k: Kernel, archiveRelease: Access)
    requires ZipAcSpec(archiveId, base, archiveAccess, archive, k, archiveRelease).1.Ok?
    ensures archiveAccess.Granted? && archive.Ok? && archiveRelease.Granted?
    ensures var effects := ZipAcSpec(archiveId, base, archiveAccess, archive, k, archiveRelease).0;
            effects[|effects| - 1] == Released(archiveId) &&
            forall i :: 0 <= i < |archive.value| ==>
              archive.value[i].Ok? && Extracted(base, archive.value[i].value, k, effects)
  {
    var step := e => ExtractEntry(archiveId, base, e, k);
    var s := Run(archive.value, step);
    RunComplete(archive.value, step);
    var effects := s.effects + [Released(archiveId)];
    forall i | 0 <= i < |archive.value|
      ensures Extracted(base, archive.value[i].value, k, effects)
    {
      var entry := archive.value[i].value;
      ExtractEntryDone(archiveId, base, entry, k);
      ExtractedCarries(base, entry, k, step(entry).effects, effects);
    }
  }

  lemma ExtractedCarries(base: string, entry: Entry, k: Kernel, a: seq<Effect>, b: seq<Effect>)
    requires Extracted(base, entry, k, a)
    requires forall x :: x in a ==> x in b
    ensures Extracted(base, entry, k, b)
  {
  }

  /** An entry whose step fails has released the archive; an entry that cannot be decoded has not. */
  lemma RunReleasesOnError(archiveId: string, base: string, entries: seq<Result<Entry, ZipError>>, k: Kernel)
    requires entries != []
    requires ExtractAll(archiveId, base, entries[..|entries| - 1], k).error.None?
    requires ExtractAll(archiveId, base, entries, k).error.Some?
    ensures var effects := ExtractAll(archiveId, base, entries, k).effects;
            entries[|entries| - 1].Ok? <==>
              effects != [] && effects[|effects| - 1] == Released(archiveId) &&
              effects != ExtractAll(archiveId, base, entries[..|entries| - 1], k).effects
  {
  }

  /** Two per-entry steps that agree on every entry give the same loop. */
  lemma {:induction false} RunAgree<E>(entries: seq<Result<E, ZipError>>, step: E -> Step, other: E -> Step)
    requires forall e :: step(e) == other(e)
    ensures Run(entries, step) == Run(entries, other)
  {
    if entries != [] {
      RunAgree(entries[..|entries| - 1], step, other);
    }
  }

  /**
   * With a base that already ends in '/', `zip_ac` as written and the
   * corrected extraction make the same calls and return the same result,
   * so the confinement of `ZipAcConfined` holds for the code itself.
   */
  lemma ZipAcAgrees(archiveId: string, base: string, archiveAccess: Access,
                    archive: Result<seq<Result<Entry, ZipError>>, ZipError>, k: Kernel, archiveRelease: Access)
    requires EndsWith(base, "/")
    ensures ZipAcSpec(archiveId, base, archiveAccess, archive, k, archiveRelease) ==
            ZipAcCorrected(archiveId, base, archiveAccess, archive, k, archiveRelease)
    ensures Confined(Dir(base), archiveId, ZipAcSpec(archiveId, base, archiveAccess, archive, k, archiveRelease).0)
  {
    var step := e => ExtractEntry(archiveId, base, e, k);
    var other := e => ExtractEntryCorrected(archiveId, base, e, k);
    forall e
      ensures step(e) == other(e)
    {
      TargetAgreesUnlessSlashJoin(base, Sanitize(e.name));
    }
    if archiveAccess.Granted? && archive.Ok? {
      RunAgree(archive.value, step, other);
    }
    ZipAcConfined(archiveId, base, archiveAccess, archive, k, archiveRelease);
  }

  /** The entry "//bin" under base "pkg", as written: opened, written and released as "pkgbin". */
  lemma EscapingEntry(data: seq<byte>)
    ensures ExtractEntry("a.zip", "pkg", Entry("//bin", Ok(data)), Permissive(|data|)) ==
            Step([Opened("pkgbin"), Written("pkgbin", data), Released("pkgbin")], None)
  {
    TargetAsWrittenEscapes();
    assert !EndsWith("/bin", "/");
    assert forall k :: 0 <= k < |"pkgbin"| ==> "pkgbin"[k] != '/';
    assert CreateParent("pkgbin", Permissive(|data|).create) == Ok(None);
  }

  /** A loop over one decoded entry is that entry's step. */
  lemma RunSingle<E>(e: E, step: E -> Step)
    ensures Run([Ok(e)], step) == step(e)
  {
    var entries: seq<Result<E, ZipError>> := [Ok(e)];
    assert entries[..0] == [];
  }

  /** The effects of that extraction, which leave the base directory. */
  function EscapedEffects(data: seq<byte>): seq<Effect> {
    [Opened("pkgbin"), Written("pkgbin", data), Released("pkgbin"), Released("a.zip")]
  }

  lemma EscapedNotConfined(data: seq<byte>)
    ensures !Confined(Dir("pkg"), "a.zip", EscapedEffects(data))
  {
    assert !Within("pkg/", "pkgbin") by {
      assert "pkgbin"[3] != "pkg/"[3];
    }
    assert EscapedEffects(data)[0].id == "pkgbin";
  }

  /**
   * `zip_ac` as written, base "pkg" and one entry "//bin": the file is
   * opened and written as "pkgbin", outside "pkg/", and the call succeeds.
   */
  lemma ZipAcAsWrittenEscapes(data: seq<byte>)
    ensures var r := ZipAcSpec("a.zip", "pkg", Granted, Ok([Ok(Entry("//bin", Ok(data)))]), Permissive(|data|), Granted);
            r.1 == Ok(()) && Written("pkgbin", data) in r.0 && !Confined(Dir("pkg"), "a.zip", r.0)
  {
    var entry := Entry("//bin", Ok(data));
    var step := e => ExtractEntry("a.zip", "pkg", e, Permissive(|data|));
    EscapingEntry(data);
    RunSingle(entry, step);
    assert Run([Ok(entry)], step).effects + [Released("a.zip")] == EscapedEffects(data);
    EscapedNotConfined(data);
    assert EscapedEffects(data)[1] == Written("pkgbin", data);
  }
  /** The entry "f" under base "pkg/" when the kernel accepts only `n` of its bytes. */
  lemma ShortWriteEntry(data: seq<byte>, n: nat)
    requires n < |data|
    ensures ExtractEntry("a.zip", "pkg/", Entry("f", Ok(data)), Permissive(n)) ==
            Step([Created("pkg"), Opened("pkg/f"), Written("pkg/f", data[..n]), Released("pkg/f")], None)
  {
    assert !StartsWith("f", "..") && !StartsWith("f", "//");
    assert Replace("f", "..", "_") == "f";
    assert Replace("f", "//", "/") == "f";
    assert !StartsWith("f", "/") && !EndsWith("f", "/");
    assert TargetAsWritten("pkg/", "f") == "pkg/f";
    assert "pkg/f"[4] != '/' && "pkg/f"[3] == '/';
    assert RFindBefore("pkg/f", '/', 5) == Some(3);
    assert "pkg/f"[..3] == "pkg";
  }

  /**
   * `zip_ac` as written, when the kernel accepts only part of a file's
   * bytes: the unchecked count lets the extraction succeed with the file
   * holding a strict prefix of the entry's contents.
   */
  lemma ZipAcShortWriteSucceeds(data: seq<byte>, n: nat)
    requires n < |data|
    ensures var r := ZipAcSpec("a.zip", "pkg/", Granted, Ok([Ok(Entry("f", Ok(data)))]), Permissive(n), Granted);
            r.1 == Ok(()) && Written("pkg/f", data[..n]) in r.0 && data[..n] != data
  {
    var entry := Entry("f", Ok(data));
    var step := e => ExtractEntry("a.zip", "pkg/", e, Permissive(n));
    ShortWriteEntry(data, n);
    RunSingle(entry, step);
    assert |data[..n]| != |data|;
  }
}
