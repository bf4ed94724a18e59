/**
 * The two `allowed_file` checks on uploaded file names: patient photos
 * (backend/app/patient/routes.py) and DICOM slices (backend/app/mri/routes.py).
 * Both read `'.' in name and name.rsplit('.', 1)[1].lower() in EXTENSIONS`.
 */
module Uploads {
  import opened Wrappers
  import opened Text

  const ImageExtensions: set<string> := {"png", "jpg", "jpeg"}
  const DicomExtensions: set<string> := {"dcm", "dicom"}

  /** An uploaded file as the handlers see it (werkzeug FileStorage): only its client-side name matters. */
  datatype FileUpload = FileUpload(filename: string)

  /** name.rsplit('.', 1)[1]; None when the name has no '.' (the first conjunct of allowed_file). */
  function Extension(f: string): (r: Option<string>)
    ensures r.None? <==> '.' !in f
    ensures r.Some? ==> '.' !in r.value && |r.value| < |f| && r.value == f[|f| - |r.value|..]
    ensures r.Some? ==> f[|f| - |r.value| - 1] == '.'
  {
    match LastIndexOf(f, '.')
    case None => None
    case Some(i) => Some(f[i + 1..])
  }

  /** The shared shape of both allowed_file functions. */
  predicate HasExtensionIn(f: string, exts: set<string>) {
    match Extension(f)
    case None => false
    case Some(e) => Lower(e) in exts
  }

  /** allowed_file of backend/app/patient/routes.py. */
  predicate AllowedImage(f: string) {
    HasExtensionIn(f, ImageExtensions)
  }

  /** allowed_file of backend/app/mri/routes.py. */
  predicate AllowedDicom(f: string) {
    HasExtensionIn(f, DicomExtensions)
  }

  /** A position of `f` holding the last '.' of `f`. */
  predicate LastDotAt(f: string, i: int) {
    0 <= i < |f| && f[i] == '.' && forall j :: i < j < |f| ==> f[j] != '.'
  }

  /**
   * The check accepts exactly the names that have a last '.', after which the text,
   * lower-cased, is one of the extensions.
   */
  lemma ExtensionTest(f: string, exts: set<string>)
    ensures HasExtensionIn(f, exts) <==> exists i :: LastDotAt(f, i) && Lower(f[i + 1..]) in exts
  {
    match LastIndexOf(f, '.')
    case None =>
    case Some(k) =>
      assert f[k + 1..] == Extension(f).value;
      assert LastDotAt(f, k);
  }

  /** Lower-casing the whole name never changes the verdict. */
  lemma IgnoresCase(f: string, exts: set<string>)
    ensures HasExtensionIn(Lower(f), exts) == HasExtensionIn(f, exts)
  {
    LowerKeepsLastIndex(f, '.');
    match LastIndexOf(f, '.')
    case None =>
    case Some(i) =>
      var e := f[i + 1..];
      assert Extension(f) == Some(e);
      assert Extension(Lower(f)) == Some(Lower(f)[i + 1..]);
      assert Lower(f)[i + 1..] == Lower(e) by {
        LowerSlice(f, i + 1, |f|);
        assert f[i + 1..|f|] == e;
        assert Lower(f)[i + 1..|f|] == Lower(f)[i + 1..];
      }
      LowerIdempotent(e);
  }

  /** Only the text after the final '.' counts: earlier extensions are ignored. */
  lemma FinalExtensionDecides(stem: string, e: string, exts: set<string>)
    requires '.' !in e
    ensures HasExtensionIn(stem + "." + e, exts) <==> Lower(e) in exts
  {
    var f := stem + "." + e;
    assert f[|stem| + 1..] == e;
    assert forall j :: |stem| < j < |f| ==> f[j] == e[j - |stem| - 1];
    assert LastDotAt(f, |stem|);
    ExtensionTest(f, exts);
  }

  /** A photo name passes iff it has a last '.', followed by png, jpg or jpeg in any case. */
  lemma AllowedImageIff(f: string)
    ensures AllowedImage(f) <==> exists i :: LastDotAt(f, i) && Lower(f[i + 1..]) in {"png", "jpg", "jpeg"}
  {
    ExtensionTest(f, ImageExtensions);
  }

  /** Two photo names that differ only in letter case get the same verdict. */
  lemma AllowedImageIgnoresCase(f: string, g: string)
    requires Lower(f) == Lower(g)
    ensures AllowedImage(f) == AllowedImage(g)
  {
    IgnoresCase(f, ImageExtensions);
    IgnoresCase(g, ImageExtensions);
  }

  /** Appending ".<ext>" to any photo name makes <ext> alone decide. */
  lemma AllowedImageFinalExtension(stem: string, e: string)
    requires '.' !in e
    ensures AllowedImage(stem + "." + e) <==> Lower(e) in {"png", "jpg", "jpeg"}
  {
    FinalExtensionDecides(stem, e, ImageExtensions);
  }

  /** A slice name passes iff it has a last '.', followed by dcm or dicom in any case. */
  lemma AllowedDicomIff(f: string)
    ensures AllowedDicom(f) <==> exists i :: LastDotAt(f, i) && Lower(f[i + 1..]) in {"dcm", "dicom"}
  {
    ExtensionTest(f, DicomExtensions);
  }

  /** Two slice names that differ only in letter case get the same verdict. */
  lemma AllowedDicomIgnoresCase(f: string, g: string)
    requires Lower(f) == Lower(g)
    ensures AllowedDicom(f) == AllowedDicom(g)
  {
    IgnoresCase(f, DicomExtensions);
    IgnoresCase(g, DicomExtensions);
  }

  /** Appending ".<ext>" to any slice name makes <ext> alone decide. */
  lemma AllowedDicomFinalExtension(stem: string, e: string)
    requires '.' !in e
    ensures AllowedDicom(stem + "." + e) <==> Lower(e) in {"dcm", "dicom"}
  {
    FinalExtensionDecides(stem, e, DicomExtensions);
  }
}
