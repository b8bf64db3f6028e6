/**
 * `PaketYoneticisiHatasi`, the package manager's error type, and the
 * conversions into it. The enum in src/srcerror.rs declares fifteen
 * variants; the other files of the package manager construct further
 * variants (`SahneApiHatasi`, `IslemYoneticisiHatasi`, `TrustError`, ...)
 * that each file sketches for itself. The model gathers all of them into one
 * datatype and keeps `Display` to the fifteen variants that have one.
 */
module Errors {
  import opened Resource

  /** postcard's error, split the one way the package manager looks at it. */
  datatype PostcardError = Serialize(detail: string) | OtherPostcard(detail: string)

  /** The zip crate's error. */
  datatype ZipError =
    | IoError(detail: string)
    | InvalidArchive(reason: string)
    | UnsupportedArchive(reason: string)
    | FileNotFound
    | InvalidPath(reason: string)

  /** src/srctrust.rs's own error. */
  datatype TrustError = Sahne64ResourceError(error: SahneError) | ParsingError(detail: string)

  /** src/srcui.rs's own error. */
  datatype TuiError =
    | Sahne64ResourceError(error: SahneError)
    | TerminalControlError(detail: string)
    | TerminalInputError(detail: string)

  /** src/srcresolver.rs's own error. */
  datatype DependencyResolverError = CycleDetected(detail: string) | PackageNotFound(detail: string)

  datatype PaketYoneticisiHatasi =
    // declared in src/srcerror.rs
    | SahneApiError(sahne: SahneError)
    | SerializationError(postcard: PostcardError)
    | DeserializationError(postcard: PostcardError)
    | ZipError(zip: ZipError)
    | NetworkError(detail: string)
    | ParsingError(detail: string)
    | BagimlilikBulunamadi(detail: string)
    | PaketBulunamadi(detail: string)
    | ConflictError(detail: string)
    | ChecksumVerificationError
    | InstallationError(detail: string)
    | RemovalError(detail: string)
    | CacheError(detail: string)
    | InvalidParameter(detail: string)
    | UnknownError(detail: string)
    // constructed by the other files
    | DependencyResolutionError(resolver: DependencyResolverError)
    | SahneApiHatasi(sahne: SahneError)
    | DosyaSistemiHatasi(sahne: SahneError)
    | ZipHatasi(zip: ZipError)
    | OnbellekHatasi(detail: string)
    | IslemYoneticisiHatasi(detail: string)
    | KilitYoneticisiHatasi(detail: string)
    | GecersizParametre(detail: string)
    | PaketKurulumHatasi(detail: string)
    | TrustError(trust: TrustError)
    | TuiError(tui: TuiError)

  /** The variants src/srcerror.rs declares, and gives a `Display`. */
  predicate Declared(e: PaketYoneticisiHatasi) {
    e.SahneApiError? || e.SerializationError? || e.DeserializationError? || e.ZipError? ||
    e.NetworkError? || e.ParsingError? || e.BagimlilikBulunamadi? || e.PaketBulunamadi? ||
    e.ConflictError? || e.ChecksumVerificationError? || e.InstallationError? ||
    e.RemovalError? || e.CacheError? || e.InvalidParameter? || e.UnknownError?
  }

  /** The declared variants whose payload is a plain message. */
  predicate CarriesText(e: PaketYoneticisiHatasi) {
    e.NetworkError? || e.ParsingError? || e.BagimlilikBulunamadi? || e.PaketBulunamadi? ||
    e.ConflictError? || e.InstallationError? || e.RemovalError? || e.CacheError? ||
    e.InvalidParameter? || e.UnknownError?
  }

  // ---------------------------------------------------------------- conversions

  /** `From<SahneError>` of src/srcerror.rs. */
  function FromSahne(e: SahneError): (r: PaketYoneticisiHatasi)
    ensures r.SahneApiError? && r.sahne == e
    ensures Declared(r)
  {
    SahneApiError(e)
  }

  /** `From<PostcardError>` of src/srcerror.rs. */
  function FromPostcard(e: PostcardError): (r: PaketYoneticisiHatasi)
    ensures r.SerializationError? <==> e.Serialize?
    ensures r.DeserializationError? <==> !e.Serialize?
    ensures (r.SerializationError? || r.DeserializationError?) && r.postcard == e
  {
    match e
    case Serialize(_) => SerializationError(e)
    case OtherPostcard(_) => DeserializationError(e)
  }

  /** `From<ZipError>` of src/srcerror.rs. */
  function FromZip(e: ZipError): (r: PaketYoneticisiHatasi)
    ensures r.ZipError? && r.zip == e
  {
    ZipError(e)
  }

  /** The `From<SahneError>` that src/srcconflict.rs, src/srccache.rs and srcarchive.rs declare locally. */
  function FromSahneLocal(e: SahneError): (r: PaketYoneticisiHatasi)
    ensures r.SahneApiHatasi? && r.sahne == e
  {
    SahneApiHatasi(e)
  }

  /** `From<TuiError>` sketched at the end of src/srcui.rs. */
  function FromTui(e: TuiError): (r: PaketYoneticisiHatasi)
    ensures r.TuiError? && r.tui == e
  {
    TuiError(e)
  }

  /** Every conversion keeps the value it wraps: none of them loses information. */
  lemma ConversionsInjective(a: SahneError, b: SahneError, p: PostcardError, q: PostcardError)
    ensures FromSahne(a) == FromSahne(b) ==> a == b
    ensures FromPostcard(p) == FromPostcard(q) ==> p == q
  {
  }

  // ---------------------------------------------------------------- Display

  /** The fixed text `Display` puts in front of each declared variant's payload. */
  function Label(e: PaketYoneticisiHatasi): string
    requires Declared(e)
  {
    match e
    case SahneApiError(_) => "Sahne64 API hatası: "
    case SerializationError(_) => "Serileştirme hatası: "
    case DeserializationError(_) => "Seriden çıkarma hatası: "
    case ZipError(_) => "ZIP hatası: "
    case NetworkError(_) => "Ağ hatası: "
    case ParsingError(_) => "Ayrıştırma hatası: "
    case BagimlilikBulunamadi(_) => "Bağımlılık bulunamadı: "
    case PaketBulunamadi(_) => "Paket bulunamadı: "
    case ConflictError(_) => "Paket çakışması: "
    case ChecksumVerificationError => "Checksum doğrulama hatası: " + "Paket bütünlüğü doğrulanamadı."
    case InstallationError(_) => "Kurulum hatası: "
    case RemovalError(_) => "Kaldırma hatası: "
    case CacheError(_) => "Önbellek hatası: "
    case InvalidParameter(_) => "Geçersiz parametre: "
    case UnknownError(_) => "Beklenmedik hata: "
  }

  /** What `Display` writes after the label. */
  function Payload(e: PaketYoneticisiHatasi, postcardDebug: PostcardError -> string,
                   zipDebug: ZipError -> string): string
    requires Declared(e)
  {
    match e
    case SahneApiError(s) => DebugName(s)
    case SerializationError(p) => postcardDebug(p)
    case DeserializationError(p) => postcardDebug(p)
    case ZipError(z) => zipDebug(z)
    case ChecksumVerificationError => ""
    case _ => e.detail
  }

  /**
   * `Display` of src/srcerror.rs. The `Debug` renderings of the postcard and
   * zip errors come from those crates and are parameters here.
   */
  function Display(e: PaketYoneticisiHatasi, postcardDebug: PostcardError -> string,
                   zipDebug: ZipError -> string): (r: string)
    requires Declared(e)
    ensures Label(e) <= r
    ensures e.ChecksumVerificationError? ==> r == Label(e)
    ensures CarriesText(e) ==> r == Label(e) + e.detail
  {
    Label(e) + Payload(e, postcardDebug, zipDebug)
  }

  /** Characters 0, 1 and 6 of each label; no two labels share all three. */
  function Signature(e: PaketYoneticisiHatasi): (char, char, char)
    requires Declared(e)
  {
    match e
    case SahneApiError(_) => ('S', 'a', '4')
    case SerializationError(_) => ('S', 'e', '\U{015F}')
    case DeserializationError(_) => ('S', 'e', 'n')
    case ZipError(_) => ('Z', 'I', 't')
    case NetworkError(_) => ('A', '\U{011F}', 'a')
    case ParsingError(_) => ('A', 'y', '\U{0131}')
    case BagimlilikBulunamadi(_) => ('B', 'a', '\U{0131}')
    case PaketBulunamadi(_) => ('P', 'a', 'b')
    case ConflictError(_) => ('P', 'a', '\U{00E7}')
    case ChecksumVerificationError => ('C', 'h', 'u')
    case InstallationError(_) => ('K', 'u', 'm')
    case RemovalError(_) => ('K', 'a', 'm')
    case CacheError(_) => ('\U{00D6}', 'n', 'e')
    case InvalidParameter(_) => ('G', 'e', 'i')
    case UnknownError(_) => ('B', 'e', 'm')
  }

  lemma SignatureOfLabel(e: PaketYoneticisiHatasi)
    requires Declared(e)
    ensures |Label(e)| > 6
    ensures Signature(e) == (Label(e)[0], Label(e)[1], Label(e)[6])
  {
    if e.SahneApiError? || e.SerializationError? || e.DeserializationError? || e.ZipError? || e.NetworkError? {
      SignatureOfWrapping(e);
    } else if e.ParsingError? || e.BagimlilikBulunamadi? || e.PaketBulunamadi? || e.ConflictError? ||
              e.ChecksumVerificationError? {
      SignatureOfLookup(e);
    } else {
      SignatureOfOperation(e);
    }
  }

  lemma SignatureOfWrapping(e: PaketYoneticisiHatasi)
    requires e.SahneApiError? || e.SerializationError? || e.DeserializationError? || e.ZipError? || e.NetworkError?
    ensures |Label(e)| > 6
    ensures Signature(e) == (Label(e)[0], Label(e)[1], Label(e)[6])
  {
  }

  lemma SignatureOfLookup(e: PaketYoneticisiHatasi)
    requires e.ParsingError? || e.BagimlilikBulunamadi? || e.PaketBulunamadi? || e.ConflictError? ||
             e.ChecksumVerificationError?
    ensures |Label(e)| > 6
    ensures Signature(e) == (Label(e)[0], Label(e)[1], Label(e)[6])
  {
  }

  lemma SignatureOfOperation(e: PaketYoneticisiHatasi)
    requires e.InstallationError? || e.RemovalError? || e.CacheError? || e.InvalidParameter? || e.UnknownError?
    ensures |Label(e)| > 6
    ensures Signature(e) == (Label(e)[0], Label(e)[1], Label(e)[6])
  {
  }

  /** Equal signatures mean the same variant. */
  lemma SignatureDeterminesVariant(a: PaketYoneticisiHatasi, b: PaketYoneticisiHatasi)
    requires Declared(a) && Declared(b)
    requires Signature(a) == Signature(b)
    ensures Label(a) == Label(b)
  {
  }

  /**
   * `Display` tells the variants apart: two errors that print the same are
   * the same variant, and for the message-carrying variants the same error.
   */
  lemma {:induction false} DisplayDeterminesError(a: PaketYoneticisiHatasi, b: PaketYoneticisiHatasi,
                                                  postcardDebug: PostcardError -> string,
                                                  zipDebug: ZipError -> string)
    requires Declared(a) && Declared(b)
    requires Display(a, postcardDebug, zipDebug) == Display(b, postcardDebug, zipDebug)
    ensures Label(a) == Label(b)
    ensures CarriesText(a) ==> a == b
    ensures a.SahneApiError? ==> a == b
  {
    var d := Display(a, postcardDebug, zipDebug);
    DisplaySameLabel(a, b, d);
    var n := |Label(a)|;
    assert Payload(a, postcardDebug, zipDebug) == d[n..] == Payload(b, postcardDebug, zipDebug);
    if a.SahneApiError? {
      DebugNameInjective(a.sahne, b.sahne);
    }
  }

  /** Two labels that both start a text are the same label. */
  lemma DisplaySameLabel(a: PaketYoneticisiHatasi, b: PaketYoneticisiHatasi, d: string)
    requires Declared(a) && Declared(b)
    requires Label(a) <= d && Label(b) <= d
    ensures Label(a) == Label(b)
    ensures Signature(a) == Signature(b)
  {
    SignatureOfLabel(a);
    SignatureOfLabel(b);
    assert Label(a)[0] == d[0] && Label(b)[0] == d[0];
    assert Label(a)[1] == d[1] && Label(b)[1] == d[1];
    assert Label(a)[6] == d[6] && Label(b)[6] == d[6];
    SignatureDeterminesVariant(a, b);
  }
}
