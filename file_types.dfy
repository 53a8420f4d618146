// The upload filter and the combined-PDF dispatch, both decided by the
// lower-cased extension that Node's `path.extname` reports.

module FileTypes {

  import opened JsArray
  import opened JsText

  /** `p` without its trailing slashes. */
  function StripTrailingSlashes(p: string): (r: string)
    ensures |r| <= |p| && r == p[..|r|]
    ensures r == [] || r[|r| - 1] != '/'
    decreases |p|
  {
    if |p| > 0 && p[|p| - 1] == '/' then StripTrailingSlashes(p[..|p| - 1]) else p
  }

  /** The last path segment (POSIX `path.basename` without a suffix). */
  function BaseName(p: string): string
  {
    var q := StripTrailingSlashes(p);
    q[LastIndexOf(q, '/') + 1..]
  }

  /** POSIX `path.extname`: from the last `.` of the base name to its end;
      empty when the base has no `.`, when its only `.` is the first
      character, and for `..`. */
  function Extname(p: string): string
  {
    BaseExtension(BaseName(p))
  }

  function BaseExtension(b: string): string
  {
    var d := LastIndexOf(b, '.');
    if d <= 0 || b == ".." then "" else b[d..]
  }

  lemma BaseNameOfPlainName(p: string)
    requires '/' !in p
    ensures BaseName(p) == p
  {
    if p != [] {
      assert p[|p| - 1] in p;
    }
    assert StripTrailingSlashes(p) == p;
    assert LastIndexOf(p, '/') == -1;
    assert p[0..] == p;
  }

  /** A name made of a stem, a dot and a dot-free extension reports that
      extension. */
  lemma ExtnameOfName(stem: string, ext: string)
    requires stem != [] && '/' !in stem
    requires '/' !in ext && '.' !in ext
    requires stem + "." + ext != ".."
    ensures Extname(stem + "." + ext) == "." + ext
  {
    BaseNameOfPlainName(stem + "." + ext);
    BaseExtensionOfName(stem, ext);
  }

  /** The same with the dot written as part of the extension. */
  lemma ExtnameOfDotted(stem: string, ext: string)
    requires stem != [] && '/' !in stem
    requires |ext| >= 2 && ext[0] == '.' && '/' !in ext && '.' !in ext[1..]
    ensures Extname(stem + ext) == ext
  {
    assert ext == "." + ext[1..];
    assert stem + ext == stem + "." + ext[1..];
    assert |stem + ext| >= 3;
    ExtnameOfName(stem, ext[1..]);
  }

  lemma BaseExtensionOfName(stem: string, ext: string)
    requires stem != [] && '.' !in ext
    requires stem + "." + ext != ".."
    ensures BaseExtension(stem + "." + ext) == "." + ext
  {
    var p := stem + "." + ext;
    forall i | |stem| < i < |p| ensures p[i] != '.' {
      assert p[i] == ext[i - |stem| - 1];
    }
    LastIndexOfUnique(p, '.', |stem|);
    assert p[|stem|..] == "." + ext;
  }

  /** A dot-file has no extension. */
  lemma ExtnameOfDotFile(rest: string)
    requires '/' !in rest && '.' !in rest
    ensures Extname("." + rest) == ""
  {
    BaseNameOfPlainName("." + rest);
    BaseExtensionOfDotFile(rest);
  }

  lemma BaseExtensionOfDotFile(rest: string)
    requires '.' !in rest
    ensures BaseExtension("." + rest) == ""
  {
    var p := "." + rest;
    forall i | 0 < i < |p| ensures p[i] != '.' {
      assert p[i] == rest[i - 1];
    }
    LastIndexOfUnique(p, '.', 0);
  }

  const AllowedExtensions: seq<string> := [".pdf", ".doc", ".docx", ".png", ".jpeg", ".jpg"]

  /** The lower-cased extension both the filter and the dispatch look at. */
  function LowerExt(name: string): string
  {
    ToLower(Extname(name))
  }

  /** multer's `fileFilter`: the file is kept iff its lower-cased extension
      is in the allowed list. */
  predicate UploadAccepted(name: string)
  {
    LowerExt(name) in AllowedExtensions
  }

  datatype Kind = PdfKind | ImageKind | WordKind

  /** `createCombinedPDF`'s branch for a file: `.pdf` is merged, `.png`,
      `.jpg`, `.jpeg` become an image page, `.doc`, `.docx` a text page,
      anything else is skipped. */
  function KindOf(name: string): Option<Kind>
  {
    KindOfExt(LowerExt(name))
  }

  function KindOfExt(ext: string): Option<Kind>
  {
    if ext == ".pdf" then Some(PdfKind)
    else if ext in [".png", ".jpg", ".jpeg"] then Some(ImageKind)
    else if ext in [".doc", ".docx"] then Some(WordKind)
    else None
  }

  /** A name's branch is decided by its dotted extension alone. */
  lemma KindOfDotted(stem: string, ext: string)
    requires stem != [] && '/' !in stem
    requires |ext| >= 2 && ext[0] == '.' && '/' !in ext && '.' !in ext[1..]
    ensures KindOf(stem + ext) == KindOfExt(ToLower(ext))
  {
    ExtnameOfDotted(stem, ext);
  }

  /** The filter and the dispatch agree: a file is accepted exactly when the
      combined-PDF builder has a branch for it. */
  lemma AcceptedIffDispatched(name: string)
    ensures UploadAccepted(name) <==> KindOf(name).Some?
  {
  }

  /** The check is case-insensitive: an upper-case extension is accepted
      exactly when its lower-case spelling is. */
  lemma AcceptedIgnoresCase(stem: string, ext: string)
    requires stem != [] && '/' !in stem
    requires '/' !in ext && '.' !in ext
    requires stem + "." + ext != ".."
    ensures UploadAccepted(stem + "." + ext) <==> ToLower("." + ext) in AllowedExtensions
  {
    ExtnameOfName(stem, ext);
  }

  /** Every allowed extension, in any file name that ends with it, is
      accepted. */
  lemma AllowedNamesAccepted(stem: string, ext: string)
    requires stem != [] && '/' !in stem
    requires "." + ext in AllowedExtensions
    ensures UploadAccepted(stem + "." + ext)
  {
    var e := "." + ext;
    assert ext == e[1..];
    assert ext in ["pdf", "doc", "docx", "png", "jpeg", "jpg"];
    assert '/' !in ext && '.' !in ext;
    assert ToLower(e) == e;
    ExtnameOfName(stem, ext);
  }
}
