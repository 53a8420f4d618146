// The browser client's view of picked files: which files the picker keeps,
// which of them are ticked for upload, the name a downloaded QR code gets and
// the icon a file is listed with.

module ClientFiles {

  import opened JsArray
  import opened JsText
  import opened FileTypes

  /** A `File` as the page holds it: its name, MIME type (empty when the
      browser does not know it), `webkitRelativePath` (empty outside a folder
      pick) and the `selected` flag the page sets on it, absent until the
      file is ticked or unticked. */
  datatype PickedFile = PickedFile(name: string, mimeType: string, relativePath: string, selected: Option<bool>)

  /** The Word 2007 MIME type. */
  const DocxMime: string := "application/vnd.openxmlformats-officedocument.wordprocessingml.document"

  const AllowedMimeTypes: seq<string> := [
    "application/pdf",
    "application/msword",
    DocxMime,
    "image/png",
    "image/jpeg",
    "image/jpg"
  ]

  // ---- the picker's filter ----

  /** `name.toLowerCase().substring(name.lastIndexOf('.'))`: from the last
      `.` on, or the whole name when there is none (`substring(-1)` starts
      at 0). */
  function LowerSuffix(name: string): string
  {
    var k := LastIndexOf(name, '.');
    ToLower(name)[if k < 0 then 0 else k..]
  }

  /** The picker keeps a file whose MIME type is a document or image type,
      or whose lower-cased suffix is an allowed extension. */
  predicate ClientAccepts(f: PickedFile)
  {
    f.mimeType in AllowedMimeTypes || LowerSuffix(f.name) in AllowedExtensions
  }

  /** For a plain file name that is not a dot-file, the picker's suffix test
      and the server's extension filter agree. */
  lemma NameTestsAgree(name: string)
    requires '/' !in name && LastIndexOf(name, '.') != 0
    ensures LowerSuffix(name) in AllowedExtensions <==> UploadAccepted(name)
  {
    BaseNameOfPlainName(name);
    var d := LastIndexOf(name, '.');
    if d < 0 {
      LastIndexOfSpec(name, '.');
      LowerKeepsNoDot(name);
      assert LowerSuffix(name) == ToLower(name);
      NoDotNotAllowed(ToLower(name));
      NoDotNotAllowed(ToLower(Extname(name)));
    } else if name == ".." {
      assert LowerSuffix(name) == ".";
    } else {
      LowerOfSuffix(name, d);
    }
  }

  lemma LowerKeepsNoDot(s: string)
    requires '.' !in s
    ensures '.' !in ToLower(s)
  {
    forall i | 0 <= i < |s| ensures ToLower(s)[i] != '.' {
      assert s[i] != '.';
    }
  }

  /** Every allowed extension starts with its dot. */
  lemma NoDotNotAllowed(x: string)
    requires '.' !in x
    ensures x !in AllowedExtensions
  {
  }

  lemma LowerOfSuffix(s: string, d: nat)
    requires d <= |s|
    ensures ToLower(s)[d..] == ToLower(s[d..])
  {
  }

  /** For a plain file name that is not a dot-file, the picker keeps the
      file exactly when its MIME type is a document or image type or the
      server's filter accepts its name. */
  lemma PickerMatchesServer(f: PickedFile)
    requires '/' !in f.name && LastIndexOf(f.name, '.') != 0
    ensures ClientAccepts(f) <==> f.mimeType in AllowedMimeTypes || UploadAccepted(f.name)
  {
    NameTestsAgree(f.name);
  }

  /** A dot-file such as `.pdf` passes the picker but not the server, whose
      `path.extname` gives it no extension. */
  lemma DotFileOnlyPassesPicker(f: PickedFile, rest: string)
    requires f.name == "." + rest && '.' !in rest && '/' !in rest
    requires ToLower(f.name) in AllowedExtensions
    ensures ClientAccepts(f) && !UploadAccepted(f.name)
  {
    DotFileSuffix(rest);
    ExtnameOfDotFile(rest);
    NoExtensionRejected(f.name);
  }

  lemma DotFileSuffix(rest: string)
    requires '.' !in rest
    ensures LowerSuffix("." + rest) == ToLower("." + rest)
  {
    var p := "." + rest;
    forall i | 0 < i < |p| ensures p[i] != '.' {
      assert p[i] == rest[i - 1];
    }
    LastIndexOfUnique(p, '.', 0);
  }

  lemma NoExtensionRejected(name: string)
    requires Extname(name) == ""
    ensures !UploadAccepted(name)
  {
    NoDotNotAllowed(ToLower(""));
  }

  /** `validFiles`: the picked files the filter keeps, in their order. */
  function AcceptedFiles(files: seq<PickedFile>): seq<PickedFile>
  {
    Filter(files, ClientAccepts)
  }

  /** The folder a pick came from: the first segment of the first kept
      file's relative path, when that path has more than one segment. */
  function PickedFolder(valid: seq<PickedFile>): Option<string>
  {
    if |valid| > 0 && valid[0].relativePath != "" then
      var parts := Split(valid[0].relativePath, '/');
      if |parts| > 1 then Some(parts[0]) else None
    else None
  }

  /** A folder is found exactly when the first kept file's path has a `/`,
      and it is the text before the first `/`. */
  lemma PickedFolderFirstSegment(valid: seq<PickedFile>)
    requires |valid| > 0
    ensures var p := valid[0].relativePath;
            PickedFolder(valid).Some? <==> '/' in p
    ensures var p := valid[0].relativePath;
            PickedFolder(valid).Some? ==> PickedFolder(valid).value == p[..IndexOf(p, '/')]
  {
    var p := valid[0].relativePath;
    SplitMany(p, '/');
    SplitFirst(p, '/');
  }

  // ---- ticked files ----

  /** `file.selected !== false`: a file never ticked or unticked counts as
      ticked. */
  predicate IsSelected(f: PickedFile)
  {
    f.selected != Some(false)
  }

  /** `filter(file => file.selected !== false)`. */
  function KeepSelected(s: seq<PickedFile>): seq<PickedFile>
  {
    Filter(s, IsSelected)
  }

  /** The flag set on every file. */
  function WithFlag(s: seq<PickedFile>, flag: bool): (r: seq<PickedFile>)
    ensures |r| == |s|
    ensures forall i :: 0 <= i < |s| ==> r[i] == s[i].(selected := Some(flag))
  {
    seq(|s|, i requires 0 <= i < |s| => s[i].(selected := Some(flag)))
  }

  /** After "select all" every file is kept; after "select none" none is. */
  lemma {:induction false} FlagsDecideFilter(s: seq<PickedFile>)
    ensures KeepSelected(WithFlag(s, true)) == WithFlag(s, true)
    ensures KeepSelected(WithFlag(s, false)) == []
  {
    if s != [] {
      var front := s[..|s| - 1];
      FlagsDecideFilter(front);
      assert WithFlag(s, true)[..|s| - 1] == WithFlag(front, true);
      assert WithFlag(s, false)[..|s| - 1] == WithFlag(front, false);
    }
  }

  /** `!file.selected`: an absent flag reads as false, so it becomes true. */
  function Toggled(flag: Option<bool>): (r: Option<bool>)
    ensures r.Some?
    ensures flag.Some? ==> r.value != flag.value
    ensures flag.None? ==> r == Some(true)
  {
    Some(!(flag == Some(true)))
  }

  /** Toggling a file twice restores a flag that was set; a file never
      touched is still ticked after one toggle and unticked after two. */
  lemma ToggleTwice(f: PickedFile)
    ensures f.selected.Some? ==> Toggled(Toggled(f.selected)) == f.selected
    ensures f.selected.None? ==>
              IsSelected(f.(selected := Toggled(f.selected)))
              && !IsSelected(f.(selected := Toggled(Toggled(f.selected))))
  {
  }

  // ---- QR download name ----

  /** `name.replace(/\.[^/.]+$/, "")`: drops a final `.` followed by at least
      one character and no `/` or further `.`. */
  function StripExtension(name: string): string
  {
    var d := LastIndexOf(name, '.');
    if 0 <= d < |name| - 1 && '/' !in name[d + 1..] then name[..d] else name
  }

  /** A stem, a dot and an extension lose exactly the dot and the extension. */
  lemma StripExtensionOf(stem: string, ext: string)
    requires ext != [] && '.' !in ext && '/' !in ext
    ensures StripExtension(stem + "." + ext) == stem
  {
    var p := stem + "." + ext;
    forall i | |stem| < i < |p| ensures p[i] != '.' {
      assert p[i] == ext[i - |stem| - 1];
    }
    LastIndexOfUnique(p, '.', |stem|);
    assert p[|stem| + 1..] == ext;
  }

  /** Whatever is removed is a dot and an extension of that shape: the name
      is unchanged or is the result, a dot and such an extension. */
  lemma StripExtensionShape(name: string)
    ensures var r := StripExtension(name);
            r == name
            || (|r| + 1 < |name| && name[..|r|] == r && name[|r|] == '.'
                && '.' !in name[|r| + 1..] && '/' !in name[|r| + 1..])
  {
    LastIndexOfSpec(name, '.');
  }

  /** The QR image is saved as `QR-<name without its extension>.png`. */
  function QrDownloadName(fileName: string): string
  {
    "QR-" + StripExtension(fileName) + ".png"
  }

  lemma QrDownloadNameOf(stem: string, ext: string)
    requires ext != [] && '.' !in ext && '/' !in ext
    ensures QrDownloadName(stem + "." + ext) == "QR-" + stem + ".png"
  {
    StripExtensionOf(stem, ext);
  }

  // ---- icons ----

  datatype Icon = PdfIcon | WordIcon | ImageIcon | ArchiveIcon | GenericIcon

  /** `getFileIcon`: the first of pdf, word/doc, image/png/jpeg/jpg, zip
      that the text contains. */
  function FileIcon(fileType: string): Icon
  {
    if Includes(fileType, "pdf") then PdfIcon
    else if Includes(fileType, "word") || Includes(fileType, "doc") then WordIcon
    else if Includes(fileType, "image") || Includes(fileType, "png") || Includes(fileType, "jpeg")
            || Includes(fileType, "jpg") then ImageIcon
    else if Includes(fileType, "zip") then ArchiveIcon
    else GenericIcon
  }

  /** A listed file is shown by its MIME type, or by its name when the type
      is empty. */
  function IconFor(f: PickedFile): Icon
  {
    FileIcon(if f.mimeType != "" then f.mimeType else f.name)
  }

  /** A PDF name always gets the PDF icon, whatever else it contains. */
  lemma PdfNameIcon(stem: string)
    ensures FileIcon(stem + ".pdf") == PdfIcon
  {
    IncludesWithin(stem + ".", "pdf", "");
    assert stem + ".pdf" == (stem + ".") + "pdf" + "";
  }

  /** Each MIME type the picker accepts gets the icon of its own kind: the
      PDF type the PDF icon, ... */
  lemma PdfMimeTypeIcon()
    ensures FileIcon("application/pdf") == PdfIcon
  {
    IncludesWithin("application/", "pdf", "");
    assert "application/pdf" == "application/" + "pdf" + "";
  }

  /** ... the Word 97 type the Word icon, ... */
  lemma MswordMimeTypeIcon()
    ensures FileIcon("application/msword") == WordIcon
  {
    MissingCharNotIncluded("application/msword", "pdf", 'f');
    IncludesWithin("application/ms", "word", "");
    assert "application/msword" == "application/ms" + "word" + "";
  }

  /** ... and the three image types the image icon. */
  lemma ImageMimeTypeIcons(m: string)
    requires m in ["image/png", "image/jpeg", "image/jpg"]
    ensures FileIcon(m) == ImageIcon
  {
    MissingCharNotIncluded(m, "pdf", 'f');
    MissingCharNotIncluded(m, "word", 'w');
    MissingCharNotIncluded(m, "doc", 'c');
    IncludesWithin("", "image", m[5..]);
    assert m == "" + "image" + m[5..];
  }
}
