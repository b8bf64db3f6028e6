/**
 * The transaction journal of src/srctransaction.rs: an append-only text
 * resource with a begin line, step lines and a commit line. Rolling back
 * refuses a committed transaction and otherwise truncates the journal.
 *
 * The resource is modelled by its existence and its text; the acquire,
 * write and read calls are outcomes passed in. The text is kept as
 * characters (the journal is read back with `from_utf8_lossy`), so write
 * counts are counted in characters.
 */
module Transaction {
  import opened Wrappers
  import opened Text
  import opened Resource
  import opened Errors

  datatype Journal = Journal(present: bool, text: string)

  const BEGIN: string := "ISLEM BASLADI"
  const COMMIT: string := "ISLEM TAMAMLANDI"

  function OpenFailed(id: string, e: SahneError): PaketYoneticisiHatasi {
    IslemYoneticisiHatasi("İşlem günlüğü açılırken/oluşturulurken hata oluştu (" + id + "): " + DebugName(e))
  }

  function Stopped(id: string): PaketYoneticisiHatasi {
    IslemYoneticisiHatasi("İşlem günlüğü Kaynağı yazmayı durdurdu (" + id + ").")
  }

  function AlreadyCommitted(id: string): PaketYoneticisiHatasi {
    IslemYoneticisiHatasi("İşlem geri alınamaz, zaten tamamlandı. Günlük Kaynağı: " + id)
  }

  function ClearFailed(id: string, e: SahneError): PaketYoneticisiHatasi {
    IslemYoneticisiHatasi("İşlem günlüğü temizlenemedi (" + id + "): " + DebugName(e))
  }

  /** How `log_entry` reports the end of its write loop. */
  function WriteReport(o: WriteOutcome, id: string): Result<(), PaketYoneticisiHatasi> {
    match o
    case AllWritten => Ok(())
    case Stalled(_) => Err(Stopped(id))
    case WriteError(e, _) => Err(FromSahne(e))
  }

  /**
   * `log_entry(message)`: open the journal for appending (creating it),
   * then write `message + "\n"`; whatever part of it the write loop got
   * through stays in the journal.
   */
  function AppendEntry(j: Journal, id: string, message: string, acquire: Access, calls: nat -> WriteResult)
    : (Result<(), PaketYoneticisiHatasi>, Journal)
  {
    match acquire
    case Denied(e) => (Err(OpenFailed(id, e)), j)
    case Granted =>
      var full := message + "\n";
      var o := WriteAllSpec(|full|, calls);
      (WriteReport(o, id), Journal(true, j.text + full[..Delivered(o, |full|)]))
  }

  /** Whether the journal's last line records a commit. */
  predicate Committed(text: string) {
    var lines := Lines(text);
    lines != [] && lines[|lines| - 1] == COMMIT
  }

  /**
   * `geri_al_islem`: a journal that does not exist is nothing to undo; a
   * failure to read it is reported (a not-found one counts as nothing to
   * undo as well); a committed journal is refused; otherwise the journal is
   * truncated.
   */
  function Rollback(j: Journal, id: string, readFault: Option<SahneError>, truncate: Access)
    : (Result<(), PaketYoneticisiHatasi>, Journal)
  {
    if !j.present then (Ok(()), j)
    else if readFault.Some? then
      (if readFault.value == ResourceNotFound then Ok(()) else Err(FromSahne(readFault.value)), j)
    else if Committed(j.text) then (Err(AlreadyCommitted(id)), j)
    else match truncate
      case Denied(e) => (Err(ClearFailed(id, e)), j)
      case Granted => (Ok(()), Journal(true, ""))
  }

  /** The journal manager; the journal resource it names is part of its state here. */
  class IslemYoneticisi {
    const logResourceId: string
    var journal: Journal

    /** `IslemYoneticisi::yeni`: the journal resource is whatever is there already. */
    constructor(logResourceId: string, existing: Journal)
      ensures this.logResourceId == logResourceId && journal == existing
    {
      this.logResourceId := logResourceId;
      journal := existing;
    }

    method LogEntry(message: string, acquire: Access, calls: nat -> WriteResult)
      returns (r: Result<(), PaketYoneticisiHatasi>)
      modifies this
      ensures (r, journal) == AppendEntry(old(journal), logResourceId, message, acquire, calls)
    {
      if acquire.Denied? {
        return Err(OpenFailed(logResourceId, acquire.error));
      }
      journal := Journal(true, journal.text);
      var full := message + "\n";
      var o := WriteAll(|full|, calls);
      journal := Journal(true, journal.text + full[..Delivered(o, |full|)]);
      match o {
        case AllWritten => r := Ok(());
        case Stalled(_) => r := Err(Stopped(logResourceId));
        case WriteError(e, _) => r := Err(FromSahne(e));
      }
    }

    /** `baslat_islem`. */
    method BaslatIslem(acquire: Access, calls: nat -> WriteResult) returns (r: Result<(), PaketYoneticisiHatasi>)
      modifies this
      ensures (r, journal) == AppendEntry(old(journal), logResourceId, BEGIN, acquire, calls)
    {
      r := LogEntry(BEGIN, acquire, calls);
    }

    /** `islem_adimi`. */
    method IslemAdimi(adim: string, acquire: Access, calls: nat -> WriteResult)
      returns (r: Result<(), PaketYoneticisiHatasi>)
      modifies this
      ensures (r, journal) == AppendEntry(old(journal), logResourceId, adim, acquire, calls)
    {
      r := LogEntry(adim, acquire, calls);
    }

    /** `tamamla_islem`. */
    method TamamlaIslem(acquire: Access, calls: nat -> WriteResult) returns (r: Result<(), PaketYoneticisiHatasi>)
      modifies this
      ensures (r, journal) == AppendEntry(old(journal), logResourceId, COMMIT, acquire, calls)
    {
      r := LogEntry(COMMIT, acquire, calls);
    }

    /** `geri_al_islem`. */
    method GeriAlIslem(readFault: Option<SahneError>, truncate: Access) returns (r: Result<(), PaketYoneticisiHatasi>)
      modifies this
      ensures (r, journal) == Rollback(old(journal), logResourceId, readFault, truncate)
    {
      if !journal.present {
        return Ok(());
      }
      if readFault.Some? {
        if readFault.value == ResourceNotFound {
          return Ok(());
        }
        return Err(FromSahne(readFault.value));
      }
      var islemAdimlari := Lines(journal.text);
      if islemAdimlari != [] && islemAdimlari[|islemAdimlari| - 1] == COMMIT {
        return Err(AlreadyCommitted(logResourceId));
      }
      if truncate.Denied? {
        return Err(ClearFailed(logResourceId, truncate.error));
      }
      journal := Journal(true, "");
      r := Ok(());
    }
  }

  // ---------------------------------------------------------------- properties

  /**
   * Appending never rewrites: the old text stays a prefix. A refused open
   * changes nothing; success means every character of `message + "\n"` went
   * out, and then the journal ends with exactly that line.
   */
  lemma AppendOnly(j: Journal, id: string, message: string, acquire: Access, calls: nat -> WriteResult)
    ensures var (r, j') := AppendEntry(j, id, message, acquire, calls);
            && j.text <= j'.text
            && (acquire.Denied? ==> j' == j && r == Err(OpenFailed(id, acquire.error)))
            && (r.Ok? <==> acquire.Granted? && WriteAllSpec(|message| + 1, calls).AllWritten?)
            && (r.Ok? ==> j'.present && j'.text == j.text + message + "\n")
  {
    if acquire.Granted? {
      var full := message + "\n";
      var o := WriteAllSpec(|full|, calls);
      assert (j.text + full[..Delivered(o, |full|)])[..|j.text|] == j.text;
      if o.AllWritten? {
        assert full[..|full|] == full;
      }
    }
  }

  /** A write call that reports zero bytes stops the entry before anything is appended. */
  lemma ZeroWriteStops(j: Journal, id: string, message: string, calls: nat -> WriteResult)
    requires calls(0) == Wrote(0)
    ensures AppendEntry(j, id, message, Granted, calls) == (Err(Stopped(id)), Journal(true, j.text))
  {
    WriteZeroStalls(|message| + 1, calls);
    assert (message + "\n")[..0] == [];
    assert j.text + [] == j.text;
  }

  /** A failed write call is reported as the kernel's error. */
  lemma FailedWriteReported(j: Journal, id: string, message: string, calls: nat -> WriteResult, e: SahneError)
    requires calls(0) == WriteFailed(e)
    ensures AppendEntry(j, id, message, Granted, calls).0 == Err(SahneApiError(e))
  {
  }

  /** Rolling back a journal that does not exist succeeds and changes nothing. */
  lemma RollbackMissing(j: Journal, id: string, readFault: Option<SahneError>, truncate: Access)
    requires !j.present
    ensures Rollback(j, id, readFault, truncate) == (Ok(()), j)
  {
  }

  /** A committed journal cannot be rolled back and stays as it was. */
  lemma RollbackRefusesCommitted(j: Journal, id: string, truncate: Access)
    requires j.present && Committed(j.text)
    ensures Rollback(j, id, None, truncate) == (Err(AlreadyCommitted(id)), j)
  {
  }

  /** An uncommitted journal is emptied when the truncating open succeeds. */
  lemma RollbackClears(j: Journal, id: string)
    requires j.present && !Committed(j.text)
    ensures Rollback(j, id, None, Granted) == (Ok(()), Journal(true, ""))
  {
  }

  /** After a successful entry the journal text ends with a newline again. */
  lemma EntryEndsLine(j: Journal, id: string, message: string, acquire: Access, calls: nat -> WriteResult)
    requires AppendEntry(j, id, message, acquire, calls).0.Ok?
    ensures var t := AppendEntry(j, id, message, acquire, calls).1.text;
            t != [] && t[|t| - 1] == '\n'
  {
    AppendOnly(j, id, message, acquire, calls);
  }

  /** A successful entry of a plain line makes it the journal's last line. */
  lemma {:induction false} EntryIsLastLine(j: Journal, id: string, message: string, acquire: Access,
                                           calls: nat -> WriteResult)
    requires j.text == [] || j.text[|j.text| - 1] == '\n'
    requires PlainLine(message)
    requires AppendEntry(j, id, message, acquire, calls).0.Ok?
    ensures Lines(AppendEntry(j, id, message, acquire, calls).1.text) == Lines(j.text) + [message]
  {
    AppendOnly(j, id, message, acquire, calls);
    LinesAppendLine(j.text, message);
  }

  /**
   * Begin and commit with no step in between, both written in full: a
   * rollback is then refused and leaves the journal alone.
   */
  lemma BeginCommitBlocksRollback(j: Journal, id: string, a1: Access, c1: nat -> WriteResult,
                                  a2: Access, c2: nat -> WriteResult, truncate: Access)
    requires j.text == [] || j.text[|j.text| - 1] == '\n'
    requires AppendEntry(j, id, BEGIN, a1, c1).0.Ok?
    requires AppendEntry(AppendEntry(j, id, BEGIN, a1, c1).1, id, COMMIT, a2, c2).0.Ok?
    ensures var j2 := AppendEntry(AppendEntry(j, id, BEGIN, a1, c1).1, id, COMMIT, a2, c2).1;
            Rollback(j2, id, None, truncate) == (Err(AlreadyCommitted(id)), j2)
  {
    var j1 := AppendEntry(j, id, BEGIN, a1, c1).1;
    EntryEndsLine(j, id, BEGIN, a1, c1);
    CommitEntryCommits(j1, id, a2, c2);
    RollbackRefusesCommitted(AppendEntry(j1, id, COMMIT, a2, c2).1, id, truncate);
  }

  /** A commit line written in full after a complete line leaves the journal committed. */
  lemma CommitEntryCommits(j: Journal, id: string, acquire: Access, calls: nat -> WriteResult)
    requires j.text == [] || j.text[|j.text| - 1] == '\n'
    requires AppendEntry(j, id, COMMIT, acquire, calls).0.Ok?
    ensures var j' := AppendEntry(j, id, COMMIT, acquire, calls).1;
            j'.present && Committed(j'.text)
  {
    CommitIsPlain();
    EntryIsLastLine(j, id, COMMIT, acquire, calls);
    AppendOnly(j, id, COMMIT, acquire, calls);
  }

  lemma CommitIsPlain()
    ensures PlainLine(COMMIT)
  {
  }

  /**
   * Begin and one step that is not the commit line, both written in full:
   * a rollback whose truncating open succeeds leaves an empty journal.
   */
  lemma BeginStepRollbackEmpties(j: Journal, id: string, step: string, a1: Access, c1: nat -> WriteResult,
                                 a2: Access, c2: nat -> WriteResult)
    requires j.text == [] || j.text[|j.text| - 1] == '\n'
    requires PlainLine(step) && step != COMMIT
    requires AppendEntry(j, id, BEGIN, a1, c1).0.Ok?
    requires AppendEntry(AppendEntry(j, id, BEGIN, a1, c1).1, id, step, a2, c2).0.Ok?
    ensures var j2 := AppendEntry(AppendEntry(j, id, BEGIN, a1, c1).1, id, step, a2, c2).1;
            Rollback(j2, id, None, Granted) == (Ok(()), Journal(true, ""))
  {
    var j1 := AppendEntry(j, id, BEGIN, a1, c1).1;
    EntryEndsLine(j, id, BEGIN, a1, c1);
    StepEntryLeavesOpen(j1, id, step, a2, c2);
    RollbackClears(AppendEntry(j1, id, step, a2, c2).1, id);
  }

  /** A step line other than the commit line, written in full after a complete line, leaves the journal uncommitted. */
  lemma StepEntryLeavesOpen(j: Journal, id: string, step: string, acquire: Access, calls: nat -> WriteResult)
    requires j.text == [] || j.text[|j.text| - 1] == '\n'
    requires PlainLine(step) && step != COMMIT
    requires AppendEntry(j, id, step, acquire, calls).0.Ok?
    ensures var j' := AppendEntry(j, id, step, acquire, calls).1;
            j'.present && !Committed(j'.text)
  {
    EntryIsLastLine(j, id, step, acquire, calls);
    AppendOnly(j, id, step, acquire, calls);
  }
}
