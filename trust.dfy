/**
 * The trust manager of src/srctrust.rs: two sets of trusted names
 * (publishers and packages), each backed by a list resource holding one
 * name per line. Loading reads a list; adding appends one line; removing
 * rewrites the whole list.
 *
 * Reads and writes are outcomes passed in. The text of each list resource,
 * as the manager's own writes leave it, is part of the manager's state, and
 * it is kept as characters, so write counts are counted in characters.
 */
module Trust {
  import opened Wrappers
  import opened Text
  import opened Resource
  import opened Errors

  type TrustFailure = Errors.TrustError

  function ResourceFailure(e: SahneError): TrustFailure {
    TrustFailure.Sahne64ResourceError(e)
  }

  /** `From<TrustError> for PaketYoneticisiHatasi`. */
  function FromTrust(e: TrustFailure): PaketYoneticisiHatasi {
    PaketYoneticisiHatasi.TrustError(e)
  }

  // ---------------------------------------------------------------- loading

  /** The names a list yields: every line trimmed, empty ones skipped. */
  function NamesOf(lines: seq<string>): set<string> {
    if lines == [] then {}
    else
      var t := Trim(lines[|lines| - 1]);
      NamesOf(lines[..|lines| - 1]) + (if t == [] then {} else {t})
  }

  /** A name is loaded exactly when it is the trimmed, non-empty form of some line. */
  lemma NamesOfSpec(lines: seq<string>, x: string)
    ensures x in NamesOf(lines) <==> x != [] && exists i :: 0 <= i < |lines| && Trim(lines[i]) == x
  {
    if x in NamesOf(lines) {
      NamesOfSound(lines, x);
    }
    if x != [] && exists i :: 0 <= i < |lines| && Trim(lines[i]) == x {
      var i :| 0 <= i < |lines| && Trim(lines[i]) == x;
      NamesOfComplete(lines, i);
    }
  }

  lemma {:induction false} NamesOfSound(lines: seq<string>, x: string)
    requires x in NamesOf(lines)
    ensures x != [] && exists i :: 0 <= i < |lines| && Trim(lines[i]) == x
  {
    var n := |lines| - 1;
    var front := lines[..n];
    if x in NamesOf(front) {
      NamesOfSound(front, x);
      var i :| 0 <= i < n && Trim(front[i]) == x;
      assert lines[i] == front[i];
    } else {
      assert Trim(lines[n]) == x;
    }
  }

  lemma {:induction false} NamesOfComplete(lines: seq<string>, i: nat)
    requires i < |lines| && Trim(lines[i]) != []
    ensures Trim(lines[i]) in NamesOf(lines)
  {
    var n := |lines| - 1;
    if i < n {
      var front := lines[..n];
      assert front[i] == lines[i];
      NamesOfComplete(front, i);
    }
  }

  /** The `for line in content.lines()` loop of `load_trusted_publishers` / `load_trusted_packages`. */
  method CollectNames(content: string) returns (names: set<string>)
    ensures names == NamesOf(Lines(content))
  {
    var lines := Lines(content);
    names := {};
    var i := 0;
    while i < |lines|
      invariant 0 <= i <= |lines|
      invariant names == NamesOf(lines[..i])
    {
      assert lines[..i + 1][..i] == lines[..i];
      var name := Trim(lines[i]);
      if name != [] {
        names := names + {name};
      }
      i := i + 1;
    }
    assert lines[..i] == lines;
  }

  /**
   * Loading one list: the set is cleared first; a missing resource leaves
   * it empty without error; any other read failure or invalid UTF-8 is an
   * error, with the set still empty.
   */
  function LoadOutcome(access: Access, chunks: seq<Chunk<byte>>, decode: seq<byte> -> Result<string, string>)
    : (Result<(), TrustFailure>, set<string>)
  {
    match ReadToVec(access, chunks)
    case Err(e) => (if e == ResourceNotFound then Ok(()) else Err(ResourceFailure(e)), {})
    case Ok(bytes) =>
      match decode(bytes)
      case Err(d) => (Err(TrustFailure.ParsingError("UTF-8 hatası: " + d)), {})
      case Ok(content) => (Ok(()), NamesOf(Lines(content)))
  }

  method LoadList(access: Access, chunks: seq<Chunk<byte>>, decode: seq<byte> -> Result<string, string>)
    returns (r: Result<(), TrustFailure>, names: set<string>)
    ensures (r, names) == LoadOutcome(access, chunks, decode)
  {
    names := {};
    var bytes := ReadAll(access, chunks);
    if bytes.Err? {
      if bytes.error == ResourceNotFound {
        return Ok(()), names;
      }
      return Err(ResourceFailure(bytes.error)), names;
    }
    var content := decode(bytes.value);
    if content.Err? {
      return Err(TrustFailure.ParsingError("UTF-8 hatası: " + content.error)), names;
    }
    names := CollectNames(content.value);
    r := Ok(());
  }

  /** A list resource that does not exist loads as the empty set, without error. */
  lemma MissingListIsEmpty(chunks: seq<Chunk<byte>>, decode: seq<byte> -> Result<string, string>)
    ensures LoadOutcome(Denied(ResourceNotFound), chunks, decode) == (Ok(()), {})
  {
  }

  // ---------------------------------------------------------------- writing

  /** How the write loop of both helpers ends; a zero-length write counts as `InvalidOperation`. */
  function WriteReport(o: WriteOutcome): Result<(), TrustFailure> {
    match o
    case AllWritten => Ok(())
    case Stalled(_) => Err(ResourceFailure(InvalidOperation))
    case WriteError(e, _) => Err(ResourceFailure(e))
  }

  /** `append_string_to_resource`: the text after appending `content`, as far as the writes got. */
  function Append(text: string, content: string, acquire: Access, calls: nat -> WriteResult)
    : (Result<(), TrustFailure>, string)
  {
    match acquire
    case Denied(e) => (Err(ResourceFailure(e)), text)
    case Granted =>
      var o := WriteAllSpec(|content|, calls);
      (WriteReport(o), text + content[..Delivered(o, |content|)])
  }

  /** `write_string_to_resource`: a granted acquire truncates; then as much of `content` as the writes got. */
  function Overwrite(text: string, content: string, acquire: Access, calls: nat -> WriteResult)
    : (Result<(), TrustFailure>, string)
  {
    match acquire
    case Denied(e) => (Err(ResourceFailure(e)), text)
    case Granted =>
      var o := WriteAllSpec(|content|, calls);
      (WriteReport(o), content[..Delivered(o, |content|)])
  }

  /** Each write helper succeeds exactly when every character is written, and then holds all of it. */
  lemma WriteHelpersComplete(text: string, content: string, acquire: Access, calls: nat -> WriteResult)
    ensures Append(text, content, acquire, calls).0.Ok? <==>
              acquire.Granted? && WriteAllSpec(|content|, calls).AllWritten?
    ensures Append(text, content, acquire, calls).0.Ok? ==> Append(text, content, acquire, calls).1 == text + content
    ensures Overwrite(text, content, acquire, calls).0 == Append(text, content, acquire, calls).0
    ensures Overwrite(text, content, acquire, calls).0.Ok? ==> Overwrite(text, content, acquire, calls).1 == content
    ensures text <= Append(text, content, acquire, calls).1
  {
    if acquire.Granted? {
      var o := WriteAllSpec(|content|, calls);
      assert (text + content[..Delivered(o, |content|)])[..|text|] == text;
      if o.AllWritten? {
        assert content[..|content|] == content;
      }
    }
  }

  /** A write call that reports zero characters is an error. */
  lemma ZeroWriteIsError(text: string, content: string, calls: nat -> WriteResult)
    requires content != [] && calls(0) == Wrote(0)
    ensures Append(text, content, Granted, calls).0 == Err(ResourceFailure(InvalidOperation))
    ensures Overwrite(text, content, Granted, calls).0 == Err(ResourceFailure(InvalidOperation))
  {
    WriteZeroStalls(|content|, calls);
  }

  /**
   * `add_trusted_*`: the name goes into the set first; only a name that was
   * not there yet is appended as one line, and a failed append is reported
   * with the name left in the set.
   */
  function Add(names: set<string>, text: string, name: string, acquire: Access, calls: nat -> WriteResult)
    : (Result<(), PaketYoneticisiHatasi>, set<string>, string)
  {
    if name in names then (Ok(()), names, text)
    else
      var (w, text') := Append(text, name + "\n", acquire, calls);
      (if w.Ok? then Ok(()) else Err(FromTrust(w.error)), names + {name}, text')
  }

  /** Every name once, in some order: the iteration of a `HashSet`. */
  ghost predicate Enumerates(order: seq<string>, names: set<string>) {
    (forall x :: x in order <==> x in names) && (forall i, j :: 0 <= i < j < |order| ==> order[i] != order[j])
  }

  /** The `push_str` loop of `persist_trusted_*`: every name followed by '\n', in the set's iteration order. */
  method ListContent(names: set<string>) returns (order: seq<string>, content: string)
    ensures Enumerates(order, names)
    ensures content == Unlines(order)
  {
    order := [];
    content := "";
    var rest := names;
    while rest != {}
      invariant rest <= names
      invariant forall x :: x in order <==> x in names - rest
      invariant forall i, j :: 0 <= i < j < |order| ==> order[i] != order[j]
      invariant content == Unlines(order)
      decreases |rest|
    {
      var x :| x in rest;
      assert x !in order;
      UnlinesAppend(order, x);
      content := content + (x + "\n");
      order := order + [x];
      rest := rest - {x};
    }
  }

  /** A name as loading produces it: non-empty, already trimmed, within one line. */
  predicate LoadableName(x: string) {
    x != [] && Trim(x) == x && NoNewline(x)
  }

  lemma LoadablePlain(x: string)
    requires LoadableName(x)
    ensures PlainLine(x)
  {
    TrimSpec(x);
    assert !IsWhite(x[|x| - 1]);
  }

  /** Lines that are all loadable names load as exactly those names. */
  lemma NamesOfLoadable(order: seq<string>, names: set<string>)
    requires Enumerates(order, names)
    requires forall x :: x in names ==> LoadableName(x)
    ensures NamesOf(order) == names
  {
    forall x
      ensures x in NamesOf(order) <==> x in names
    {
      NamesOfSpec(order, x);
      if x in names {
        var i :| 0 <= i < |order| && order[i] == x;
        assert Trim(order[i]) == x;
      }
      if x in NamesOf(order) {
        var i :| 0 <= i < |order| && Trim(order[i]) == x;
        assert order[i] in names;
      }
    }
  }

  /** Persisting a set of loadable names and loading the result gives the same set back. */
  lemma PersistThenLoad(order: seq<string>, names: set<string>)
    requires Enumerates(order, names)
    requires forall x :: x in names ==> LoadableName(x)
    ensures NamesOf(Lines(Unlines(order))) == names
  {
    forall k | 0 <= k < |order|
      ensures PlainLine(order[k])
    {
      assert order[k] in names;
      LoadablePlain(order[k]);
    }
    LinesUnlines(order);
    NamesOfLoadable(order, names);
  }

  /** Loading only ever produces loadable names. */
  lemma LoadedNamesLoadable(lines: seq<string>, x: string)
    requires forall k :: 0 <= k < |lines| ==> NoNewline(lines[k])
    requires x in NamesOf(lines)
    ensures LoadableName(x)
  {
    NamesOfSound(lines, x);
    var i :| 0 <= i < |lines| && Trim(lines[i]) == x;
    TrimmedLineLoadable(lines[i]);
  }

  /** The trimmed form of a line, when not empty, is a loadable name. */
  lemma TrimmedLineLoadable(line: string)
    requires NoNewline(line) && Trim(line) != []
    ensures LoadableName(Trim(line))
  {
    TrimIdempotent(line);
    TrimSpec(line);
    var x := Trim(line);
    var a, b :| 0 <= a <= b <= |line| && x == line[a..b];
    forall k | 0 <= k < |x| ensures x[k] != '\n' {
      assert x[k] == line[a + k];
    }
  }

  /**
   * `text` is what the list resource holds, as far as the kernel's answers
   * show it: the decoded bytes when they can be read and decoded, nothing
   * when the kernel reports the resource missing.
   */
  predicate TextOf(text: string, access: Access, chunks: seq<Chunk<byte>>, decode: seq<byte> -> Result<string, string>) {
    (ReadToVec(access, chunks) == Err(ResourceNotFound) ==> text == []) &&
    (ReadToVec(access, chunks).Ok? ==> decode(ReadToVec(access, chunks).value) == Ok(text) ||
                                       decode(ReadToVec(access, chunks).value).Err?)
  }

  class TrustManager {
    const publishersResourceId: string
    const packagesResourceId: string
    var trustedPublishers: set<string>
    var trustedPackages: set<string>
    /** The text of the publishers list resource, as this manager's writes leave it. */
    var publishersText: string
    /** The text of the packages list resource, as this manager's writes leave it. */
    var packagesText: string

    /**
     * `TrustManager::new`: load the publishers, then, if that succeeded, the
     * packages; a load error is only logged and leaves that set empty.
     */
    constructor(publishersResourceId: string, packagesResourceId: string,
                publishersText: string, packagesText: string,
                publishersAccess: Access, publishersChunks: seq<Chunk<byte>>,
                packagesAccess: Access, packagesChunks: seq<Chunk<byte>>,
                decode: seq<byte> -> Result<string, string>)
      requires TextOf(publishersText, publishersAccess, publishersChunks, decode)
      requires TextOf(packagesText, packagesAccess, packagesChunks, decode)
      ensures this.publishersResourceId == publishersResourceId && this.packagesResourceId == packagesResourceId
      ensures this.publishersText == publishersText && this.packagesText == packagesText
      ensures LoadOutcome(publishersAccess, publishersChunks, decode).0.Ok? ==>
                trustedPublishers == NamesOf(Lines(publishersText))
      ensures LoadOutcome(publishersAccess, publishersChunks, decode).0.Ok? &&
              LoadOutcome(packagesAccess, packagesChunks, decode).0.Ok? ==>
                trustedPackages == NamesOf(Lines(packagesText))
      ensures var (r, pubs) := LoadOutcome(publishersAccess, publishersChunks, decode);
              trustedPublishers == pubs
              && trustedPackages == (if r.Ok? then LoadOutcome(packagesAccess, packagesChunks, decode).1 else {})
    {
      this.publishersResourceId := publishersResourceId;
      this.packagesResourceId := packagesResourceId;
      this.publishersText := publishersText;
      this.packagesText := packagesText;
      var r, pubs := LoadList(publishersAccess, publishersChunks, decode);
      trustedPublishers := pubs;
      trustedPackages := {};
      if r.Ok? {
        var _, pkgs := LoadList(packagesAccess, packagesChunks, decode);
        trustedPackages := pkgs;
      }
    }

    /** `add_trusted_publisher`. */
    method AddTrustedPublisher(name: string, acquire: Access, calls: nat -> WriteResult)
      returns (r: Result<(), PaketYoneticisiHatasi>)
      modifies this
      ensures (r, trustedPublishers, publishersText) == Add(old(trustedPublishers), old(publishersText), name, acquire, calls)
      ensures trustedPackages == old(trustedPackages) && packagesText == old(packagesText)
    {
      if name in trustedPublishers {
        return Ok(());
      }
      trustedPublishers := trustedPublishers + {name};
      var w;
      w, publishersText := AppendLine(publishersText, name, acquire, calls);
      r := if w.Ok? then Ok(()) else Err(FromTrust(w.error));
    }

    /** `add_trusted_package`. */
    method AddTrustedPackage(name: string, acquire: Access, calls: nat -> WriteResult)
      returns (r: Result<(), PaketYoneticisiHatasi>)
      modifies this
      ensures (r, trustedPackages, packagesText) == Add(old(trustedPackages), old(packagesText), name, acquire, calls)
      ensures trustedPublishers == old(trustedPublishers) && publishersText == old(publishersText)
    {
      if name in trustedPackages {
        return Ok(());
      }
      trustedPackages := trustedPackages + {name};
      var w;
      w, packagesText := AppendLine(packagesText, name, acquire, calls);
      r := if w.Ok? then Ok(()) else Err(FromTrust(w.error));
    }

    /**
     * `remove_trusted_publisher`: the result says whether the name was
     * there; only then is the list rewritten from the remaining set.
     */
    method RemoveTrustedPublisher(name: string, acquire: Access, calls: nat -> WriteResult)
      returns (r: Result<bool, PaketYoneticisiHatasi>)
      modifies this
      ensures trustedPublishers == old(trustedPublishers) - {name}
      ensures name !in old(trustedPublishers) ==> r == Ok(false) && publishersText == old(publishersText)
      ensures name in old(trustedPublishers) ==>
                exists order :: Enumerates(order, trustedPublishers)
                  && var (w, text') := Overwrite(old(publishersText), Unlines(order), acquire, calls);
                     publishersText == text' && r == (if w.Ok? then Ok(true) else Err(FromTrust(w.error)))
      ensures trustedPackages == old(trustedPackages) && packagesText == old(packagesText)
    {
      var removed := name in trustedPublishers;
      trustedPublishers := trustedPublishers - {name};
      if !removed {
        return Ok(false);
      }
      var order, content := ListContent(trustedPublishers);
      var w;
      w, publishersText := OverwriteList(publishersText, content, acquire, calls);
      r := if w.Ok? then Ok(true) else Err(FromTrust(w.error));
    }

    /** `remove_trusted_package`. */
    method RemoveTrustedPackage(name: string, acquire: Access, calls: nat -> WriteResult)
      returns (r: Result<bool, PaketYoneticisiHatasi>)
      modifies this
      ensures trustedPackages == old(trustedPackages) - {name}
      ensures name !in old(trustedPackages) ==> r == Ok(false) && packagesText == old(packagesText)
      ensures name in old(trustedPackages) ==>
                exists order :: Enumerates(order, trustedPackages)
                  && var (w, text') := Overwrite(old(packagesText), Unlines(order), acquire, calls);
                     packagesText == text' && r == (if w.Ok? then Ok(true) else Err(FromTrust(w.error)))
      ensures trustedPublishers == old(trustedPublishers) && publishersText == old(publishersText)
    {
      var removed := name in trustedPackages;
      trustedPackages := trustedPackages - {name};
      if !removed {
        return Ok(false);
      }
      var order, content := ListContent(trustedPackages);
      var w;
      w, packagesText := OverwriteList(packagesText, content, acquire, calls);
      r := if w.Ok? then Ok(true) else Err(FromTrust(w.error));
    }

    /** `is_trusted_publisher`. */
    predicate IsTrustedPublisher(name: string)
      reads this
    {
      name in trustedPublishers
    }

    /** `is_trusted_package`. */
    predicate IsTrustedPackage(name: string)
      reads this
    {
      name in trustedPackages
    }
  }

  /** `append_string_to_resource(id, name + "\n")` with its write loop. */
  method AppendLine(text: string, name: string, acquire: Access, calls: nat -> WriteResult)
    returns (r: Result<(), TrustFailure>, text': string)
    ensures (r, text') == Append(text, name + "\n", acquire, calls)
  {
    if acquire.Denied? {
      return Err(ResourceFailure(acquire.error)), text;
    }
    var line := name + "\n";
    var o := WriteAll(|line|, calls);
    text' := text + line[..Delivered(o, |line|)];
    r := WriteReport(o);
  }

  /** `write_string_to_resource(id, content)` with its write loop. */
  method OverwriteList(text: string, content: string, acquire: Access, calls: nat -> WriteResult)
    returns (r: Result<(), TrustFailure>, text': string)
    ensures (r, text') == Overwrite(text, content, acquire, calls)
  {
    if acquire.Denied? {
      return Err(ResourceFailure(acquire.error)), text;
    }
    var o := WriteAll(|content|, calls);
    text' := content[..Delivered(o, |content|)];
    r := WriteReport(o);
  }

  // ---------------------------------------------------------------- properties of add and remove

  /**
   * After an add the name is trusted whatever the write did; an existing
   * name changes nothing; a new name is appended as exactly one line when
   * the add succeeds.
   */
  lemma AddSpec(names: set<string>, text: string, name: string, acquire: Access, calls: nat -> WriteResult)
    ensures var (r, names', text') := Add(names, text, name, acquire, calls);
            && names' == names + {name}
            && (name in names ==> r.Ok? && text' == text)
            && (name !in names ==>
                  (r.Ok? <==> acquire.Granted? && WriteAllSpec(|name| + 1, calls).AllWritten?)
                  && (r.Ok? ==> text' == text + name + "\n")
                  && (r.Err? ==> r.error.TrustError?))
  {
    WriteHelpersComplete(text, name + "\n", acquire, calls);
  }

  /**
   * A successful removal leaves a list that loads back as exactly the
   * remaining names, when every remaining name is one loading could have
   * produced.
   */
  lemma RemoveThenReload(order: seq<string>, remaining: set<string>, text: string, acquire: Access, calls: nat -> WriteResult)
    requires Enumerates(order, remaining)
    requires forall x :: x in remaining ==> LoadableName(x)
    requires Overwrite(text, Unlines(order), acquire, calls).0.Ok?
    ensures NamesOf(Lines(Overwrite(text, Unlines(order), acquire, calls).1)) == remaining
  {
    WriteHelpersComplete(text, Unlines(order), acquire, calls);
    PersistThenLoad(order, remaining);
  }

  /** Adding a loadable name that sticks, then reloading the list, finds the name trusted. */
  lemma AddThenReload(names: set<string>, text: string, name: string, acquire: Access, calls: nat -> WriteResult)
    requires text == [] || text[|text| - 1] == '\n'
    requires LoadableName(name) && name !in names
    requires Add(names, text, name, acquire, calls).0.Ok?
    ensures name in NamesOf(Lines(Add(names, text, name, acquire, calls).2))
  {
    AddSpec(names, text, name, acquire, calls);
    LoadablePlain(name);
    LinesAppendLine(text, name);
    var lines := Lines(text + name + "\n");
    assert lines[|lines| - 1] == name;
    NamesOfSpec(lines, name);
  }
}
