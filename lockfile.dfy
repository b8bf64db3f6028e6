/**
 * The lock manager of src/srclockfile.rs: a handle on a lock resource and
 * a flag recording whether this instance holds the lock. The kernel's lock
 * and unlock commands are outcomes passed in; the model also keeps the
 * commands issued, so that "no call is made" can be stated.
 */
module LockFile {
  import opened Wrappers
  import opened Resource
  import opened Errors

  /** The two control commands, with their numbers. */
  datatype Command = LockExclusive | Unlock

  function Code(c: Command): nat {
    match c
    case LockExclusive => 1
    case Unlock => 2
  }

  function OpenFailed(id: string, e: SahneError): PaketYoneticisiHatasi {
    KilitYoneticisiHatasi("Kilit Kaynağı açılırken hata oluştu: " + DebugName(e) + ". Kaynak ID: " + id)
  }

  function Busy(id: string): PaketYoneticisiHatasi {
    KilitYoneticisiHatasi("Kaynak meşgul, kilit zaten başka biri tarafından tutuluyor. Kaynak ID: " + id)
  }

  function LockFailed(id: string, e: SahneError): PaketYoneticisiHatasi {
    KilitYoneticisiHatasi("Kilit alınamadı (Kaynak ID: " + id + "): " + DebugName(e))
  }

  function UnlockFailed(id: string, e: SahneError): PaketYoneticisiHatasi {
    KilitYoneticisiHatasi("Kilit serbest bırakılamadı (Kaynak ID: " + id + "): " + DebugName(e))
  }

  /** `kilit_al`: the result and the new held flag, given the lock command's outcome. */
  function Lock(held: bool, id: string, control: Access): (Result<(), PaketYoneticisiHatasi>, bool) {
    match control
    case Granted => (Ok(()), true)
    case Denied(e) => (Err(if e == ResourceBusy then Busy(id) else LockFailed(id, e)), held)
  }

  /**
   * `kilidi_serbest_birak`: the result and the new held flag. The unlock
   * command's outcome matters only when the lock is held.
   */
  function Release(held: bool, id: string, control: Access): (Result<(), PaketYoneticisiHatasi>, bool) {
    if !held then (Ok(()), false)
    else match control
      case Granted => (Ok(()), false)
      case Denied(e) => (Err(UnlockFailed(id, e)), true)
  }

  /** The commands one operation sends: unlock is sent only while the lock is held. */
  function ReleaseCommands(held: bool): seq<Command> {
    if held then [Unlock] else []
  }

  class KilitYoneticisi {
    const kilitKaynagiId: string
    var kilitTutuldu: bool
    /** Whether the handle on the lock resource is still open. */
    var handleOpen: bool
    /** The control commands issued on the handle, oldest first. */
    var issued: seq<Command>

    constructor (id: string)
      ensures kilitKaynagiId == id && !kilitTutuldu && handleOpen && issued == []
    {
      kilitKaynagiId := id;
      kilitTutuldu := false;
      handleOpen := true;
      issued := [];
    }

    /** `KilitYoneticisi::yeni`: open (or create) the lock resource; a fresh manager does not hold the lock. */
    static method Yeni(id: string, acquire: Access) returns (r: Result<KilitYoneticisi, PaketYoneticisiHatasi>)
      ensures acquire.Denied? <==> r.Err?
      ensures r.Err? ==> r.error == OpenFailed(id, acquire.error)
      ensures r.Ok? ==> fresh(r.value) && r.value.kilitKaynagiId == id && !r.value.kilitTutuldu
                        && r.value.handleOpen && r.value.issued == []
    {
      if acquire.Denied? {
        return Err(OpenFailed(id, acquire.error));
      }
      var m := new KilitYoneticisi(id);
      return Ok(m);
    }

    /** `kilit_al`. */
    method KilitAl(control: Access) returns (r: Result<(), PaketYoneticisiHatasi>)
      modifies this
      ensures (r, kilitTutuldu) == Lock(old(kilitTutuldu), kilitKaynagiId, control)
      ensures issued == old(issued) + [LockExclusive] && handleOpen == old(handleOpen)
    {
      issued := issued + [LockExclusive];
      match control {
        case Granted =>
          kilitTutuldu := true;
          r := Ok(());
        case Denied(e) =>
          if e == ResourceBusy {
            r := Err(Busy(kilitKaynagiId));
          } else {
            r := Err(LockFailed(kilitKaynagiId, e));
          }
      }
    }

    /** `kilidi_serbest_birak`. */
    method KilidiSerbestBirak(control: Access) returns (r: Result<(), PaketYoneticisiHatasi>)
      modifies this
      ensures (r, kilitTutuldu) == Release(old(kilitTutuldu), kilitKaynagiId, control)
      ensures issued == old(issued) + ReleaseCommands(old(kilitTutuldu)) && handleOpen == old(handleOpen)
    {
      if kilitTutuldu {
        issued := issued + [Unlock];
        match control {
          case Granted =>
            kilitTutuldu := false;
            r := Ok(());
          case Denied(e) =>
            r := Err(UnlockFailed(kilitKaynagiId, e));
        }
      } else {
        r := Ok(());
      }
    }

    /**
     * `Drop`: unlock if held (a failure is only logged), and close the handle
     * in both cases. The held flag is left as it was.
     */
    method Drop(control: Access)
      modifies this
      ensures issued == old(issued) + ReleaseCommands(old(kilitTutuldu))
      ensures !handleOpen && kilitTutuldu == old(kilitTutuldu)
    {
      if kilitTutuldu {
        issued := issued + [Unlock];
      }
      handleOpen := false;
    }
  }

  // ---------------------------------------------------------------- properties

  /**
   * Locking holds the lock exactly when the command succeeds; a failed
   * command reports a lock error, a dedicated one for a busy resource, and
   * leaves the flag as it was.
   */
  lemma LockHeldIffGranted(held: bool, id: string, control: Access)
    ensures Lock(held, id, control).0.Ok? <==> control.Granted?
    ensures Lock(held, id, control).0.Ok? ==> Lock(held, id, control).1
    ensures control.Denied? ==> Lock(held, id, control).1 == held
    ensures control == Denied(ResourceBusy) ==> Lock(held, id, control).0 == Err(Busy(id))
    ensures Lock(held, id, control).0.Err? ==> Lock(held, id, control).0.error.KilitYoneticisiHatasi?
  {
  }

  /** Releasing when the lock is not held succeeds and changes nothing, whatever the kernel would answer. */
  lemma ReleaseNotHeld(id: string, control: Access)
    ensures Release(false, id, control) == (Ok(()), false)
    ensures ReleaseCommands(false) == []
  {
  }

  /** A successful release clears the flag; a failed one reports it and keeps the lock held. */
  lemma ReleaseOutcome(held: bool, id: string, control: Access)
    ensures Release(held, id, control).0.Ok? ==> !Release(held, id, control).1
    ensures Release(held, id, control).0.Err? <==> held && control.Denied?
    ensures Release(held, id, control).0.Err? ==> Release(held, id, control).1
  {
  }

  /** Releasing is idempotent: after a successful release, a second one succeeds with no command. */
  lemma ReleaseIdempotent(held: bool, id: string, c1: Access, c2: Access)
    requires Release(held, id, c1).0.Ok?
    ensures Release(Release(held, id, c1).1, id, c2) == Release(held, id, c1)
    ensures ReleaseCommands(Release(held, id, c1).1) == []
  {
  }

  /** Lock then release, both granted, returns to an unheld lock. */
  lemma LockReleaseRoundTrip(held: bool, id: string)
    ensures Release(Lock(held, id, Granted).1, id, Granted) == (Ok(()), false)
  {
  }
}
