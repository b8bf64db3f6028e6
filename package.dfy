/** The package record of src/srcpackage.rs, as far as the package manager compares it. */
module Package {
  import opened Wrappers

  /**
   * A package. Derived equality compares every field, so two packages with
   * the same name and version but different metadata are different keys.
   * The checksum map, file list and script fields are not part of this model.
   */
  datatype Paket = Paket(
    ad: string,
    surum: string,
    bagimliliklar: seq<string>,
    aciklama: Option<string>,
    dosya_adi: Option<string>)

  /** `Paket::yeni` of src/srcrepo.rs: name, version and dependency names, no metadata. */
  function Yeni(ad: string, surum: string, bagimliliklar: seq<string>): (p: Paket)
    ensures p.ad == ad && p.surum == surum && p.bagimliliklar == bagimliliklar
    ensures p.aciklama == None && p.dosya_adi == None
  {
    Paket(ad, surum, bagimliliklar, None, None)
  }

  /** A package known only by `name@version`, every other field empty. */
  function Bare(ad: string, surum: string): Paket {
    Yeni(ad, surum, [])
  }

  /** Bare packages are equal exactly when name and version are. */
  lemma BareInjective(a: string, b: string, c: string, d: string)
    ensures Bare(a, b) == Bare(c, d) <==> a == c && b == d
  {
  }
}
