// Folder names: the parent folder derived from a file path, the folder
// name the Drive adapter normalises and creates, and the Drive locators.

module Folders {

  import opened JsArray
  import opened JsText

  /** `filePath.replace(/\\/g, '/')`: no backslash is left, a path without
      one is unchanged, and the result has `/` exactly where the path has a
      separator of either kind. */
  function SlashesForward(p: string): (r: string)
    ensures |r| == |p|
    ensures '\\' !in r
    ensures '\\' !in p ==> r == p
    ensures forall i :: 0 <= i < |p| ==> (r[i] == '/' <==> IsSeparator(p[i]))
    ensures forall i :: 0 <= i < |p| && !IsSeparator(p[i]) ==> r[i] == p[i]
  {
    seq(|p|, i requires 0 <= i < |p| => if p[i] == '\\' then '/' else p[i])
  }

  predicate IsSeparator(c: char)
  {
    c == '/' || c == '\\'
  }

  /** `extractFolderName`: the segment just before the last one, with `\`
      read as `/`; null for a missing or empty path and for a path with
      no separator. */
  function ExtractFolderName(filePath: Option<string>): (r: Option<string>)
    ensures r.Some? ==> '/' !in r.value
  {
    match filePath
    case None => None
    case Some(p) =>
      if p == "" then None
      else
        var parts := Split(SlashesForward(p), '/');
        SplitPartsFree(SlashesForward(p), '/');
        if |parts| > 1 then Some(parts[|parts| - 2]) else None
  }

  /** A folder is found exactly when the path holds a separator of either
      kind. */
  lemma ExtractFolderFound(p: string)
    ensures ExtractFolderName(Some(p)).Some? <==> exists i :: 0 <= i < |p| && IsSeparator(p[i])
  {
    var n := SlashesForward(p);
    SplitMany(n, '/');
    if '/' in n {
      var i :| 0 <= i < |n| && n[i] == '/';
      assert IsSeparator(p[i]);
    }
    if exists i :: 0 <= i < |p| && IsSeparator(p[i]) {
      var i :| 0 <= i < |p| && IsSeparator(p[i]);
      assert n[i] == '/';
    }
  }

  lemma SlashesForwardConcat(a: string, b: string)
    ensures SlashesForward(a + b) == SlashesForward(a) + SlashesForward(b)
  {
  }

  lemma SlashesForwardPlain(s: string)
    requires forall i :: 0 <= i < |s| ==> !IsSeparator(s[i])
    ensures SlashesForward(s) == s && '/' !in s
  {
    assert forall c :: c in s ==> exists i :: 0 <= i < |s| && s[i] == c;
  }

  /** The last part of `a + b` split at `c`, when `b` has no `c` and `a` is
      empty or ends in `c`, is `b`. */
  lemma SplitLast(a: string, c: char, b: string)
    requires c !in b
    requires a == [] || a[|a| - 1] == c
    ensures var parts := Split(a + b, c); parts[|parts| - 1] == b
  {
    if a == [] {
      assert a + b == b;
      assert LastIndexOf(b, c) == -1;
    } else {
      var a0 := a[..|a| - 1];
      assert a + b == a0 + [c] + b;
      SplitSnoc(a0, c, b);
    }
  }

  /** A path `dir + folder + sep + name`, where `dir` is empty or ends in a
      separator and neither `folder` nor `name` holds one, yields `folder`. */
  lemma ExtractFolderOfPath(dir: string, folder: string, sep: char, name: string)
    requires IsSeparator(sep)
    requires dir == [] || IsSeparator(dir[|dir| - 1])
    requires forall i :: 0 <= i < |folder| ==> !IsSeparator(folder[i])
    requires forall i :: 0 <= i < |name| ==> !IsSeparator(name[i])
    ensures ExtractFolderName(Some(dir + folder + [sep] + name)) == Some(folder)
  {
    var d := SlashesForward(dir);
    SlashesForwardOfPath(dir, folder, sep, name);
    SplitPenultimate(d, folder, name);
  }

  lemma SlashesForwardOfPath(dir: string, folder: string, sep: char, name: string)
    requires IsSeparator(sep)
    requires dir == [] || IsSeparator(dir[|dir| - 1])
    requires forall i :: 0 <= i < |folder| ==> !IsSeparator(folder[i])
    requires forall i :: 0 <= i < |name| ==> !IsSeparator(name[i])
    ensures var d := SlashesForward(dir);
            SlashesForward(dir + folder + [sep] + name) == d + folder + ['/'] + name
            && (d == [] || d[|d| - 1] == '/') && '/' !in folder && '/' !in name
  {
    SlashesForwardPlain(folder);
    SlashesForwardPlain(name);
    SlashesForwardConcat(dir + folder + [sep], name);
    SlashesForwardConcat(dir + folder, [sep]);
    SlashesForwardConcat(dir, folder);
  }

  /** Splitting `d + folder + "/" + name` at `/` puts `folder` second to
      last. */
  lemma SplitPenultimate(d: string, folder: string, name: string)
    requires d == [] || d[|d| - 1] == '/'
    requires '/' !in folder && '/' !in name
    ensures var parts := Split(d + folder + ['/'] + name, '/');
            |parts| > 1 && parts[|parts| - 2] == folder
  {
    SplitSnoc(d + folder, '/', name);
    SplitLast(d, '/', folder);
    var pre := Split(d + folder, '/');
    assert (pre + [name])[|pre| - 1] == folder;
  }

  /** The characters Drive folder names may not hold here. */
  predicate Forbidden(c: char)
  {
    c == '<' || c == '>' || c == ':' || c == '"' || c == '/' || c == '\\' || c == '|' || c == '?' || c == '*'
  }

  /** `folderPath.replace(/[<>:"/\\|?*]/g, '_')`: no forbidden character is
      left, a name without one is unchanged, and a character changes only
      when it was forbidden, and then into `_`. */
  function ReplaceForbidden(s: string): (r: string)
    ensures |r| == |s|
    ensures forall i :: 0 <= i < |r| ==> !Forbidden(r[i])
    ensures (forall i :: 0 <= i < |s| ==> !Forbidden(s[i])) ==> r == s
    ensures forall i :: 0 <= i < |s| && r[i] != s[i] ==> Forbidden(s[i]) && r[i] == '_'
    ensures forall i :: 0 <= i < |s| && Forbidden(s[i]) ==> r[i] == '_'
  {
    seq(|s|, i requires 0 <= i < |s| => if Forbidden(s[i]) then '_' else s[i])
  }

  /** The folder name the Drive adapter creates or reuses: forbidden
      characters replaced by `_`, then trimmed. */
  function NormalizeFolder(s: string): (r: string)
    ensures forall i :: 0 <= i < |r| ==> !Forbidden(r[i])
    ensures r == [] || (!IsJsWhitespace(r[0]) && !IsJsWhitespace(r[|r| - 1]))
  {
    Trim(ReplaceForbidden(s))
  }

  /** Normalising a normalised name changes nothing. */
  lemma NormalizeIdempotent(s: string)
    ensures NormalizeFolder(NormalizeFolder(s)) == NormalizeFolder(s)
  {
    var r := NormalizeFolder(s);
    assert ReplaceForbidden(r) == r;
    TrimFixed(r);
  }

  /** A name normalises to nothing exactly when it is all whitespace. */
  lemma NormalizeEmptyIff(s: string)
    ensures NormalizeFolder(s) == [] <==> AllWhitespace(s)
  {
    var t := ReplaceForbidden(s);
    TrimEmptyIff(t);
    forall i | 0 <= i < |s|
      ensures IsJsWhitespace(t[i]) <==> IsJsWhitespace(s[i])
    {
      if t[i] != s[i] {
        ReplacementNotWhitespace(s[i]);
      }
    }
  }

  lemma ReplacementNotWhitespace(c: char)
    requires Forbidden(c)
    ensures !IsJsWhitespace(c) && !IsJsWhitespace('_')
  {
  }

  /** A name that holds no forbidden character and neither starts nor ends
      with whitespace is kept as it is. */
  lemma NormalizeKeepsClean(s: string)
    requires forall i :: 0 <= i < |s| ==> !Forbidden(s[i])
    requires s == [] || (!IsJsWhitespace(s[0]) && !IsJsWhitespace(s[|s| - 1]))
    ensures NormalizeFolder(s) == s
  {
    assert ReplaceForbidden(s) == s;
    TrimFixed(s);
  }

  /** The folder `uploadToGoogleDrive` files the upload under: none when the
      folder path is missing or empty or normalises to nothing. */
  function DriveParent(folderPath: Option<string>): (r: Option<string>)
    ensures r.Some? ==> r.value != "" && forall i :: 0 <= i < |r.value| ==> !Forbidden(r.value[i])
    ensures r.Some? ==> folderPath.Some? && r.value == NormalizeFolder(folderPath.value)
    ensures r.None? <==> (folderPath.None? || NormalizeFolder(folderPath.value) == "")
  {
    match folderPath
    case None => None
    case Some(p) =>
      var name := NormalizeFolder(p);
      if p != "" && name != "" then Some(name) else None
  }

  /** The `folderName` the Drive adapter reports: the raw folder path, or
      `Root` when there is none. */
  function FolderLabel(folderPath: Option<string>): string
  {
    match folderPath
    case Some(p) => if p != "" then p else "Root"
    case None => "Root"
  }

  /** `req.body.folderName || extractFolderName(name)`: a non-empty body
      folder wins; otherwise there is a folder exactly when the file name
      holds a separator, and it is a single path segment. */
  function FolderFor(bodyFolder: Option<string>, fileName: string): (r: Option<string>)
    ensures bodyFolder.Some? && bodyFolder.value != "" ==> r == bodyFolder
    ensures (bodyFolder.None? || bodyFolder.value == "") ==>
              (r.Some? <==> exists i :: 0 <= i < |fileName| && IsSeparator(fileName[i]))
              && (r.Some? ==> '/' !in r.value)
  {
    ExtractFolderFound(fileName);
    match bodyFolder
    case Some(f) => if f != "" then bodyFolder else ExtractFolderName(Some(fileName))
    case None => ExtractFolderName(Some(fileName))
  }

  const ViewPrefix := "https://drive.google.com/file/d/"
  const ViewSuffix := "/view"
  const DownloadPrefix := "https://drive.google.com/uc?id="

  function ViewUrl(fileId: string): string
  {
    ViewPrefix + fileId + ViewSuffix
  }

  function DownloadUrl(fileId: string): string
  {
    DownloadPrefix + fileId
  }

  /** Reads the file id back out of a view locator. */
  function ViewUrlFileId(url: string): Option<string>
  {
    if |url| >= |ViewPrefix| + |ViewSuffix|
       && url[..|ViewPrefix|] == ViewPrefix
       && url[|url| - |ViewSuffix|..] == ViewSuffix
    then Some(url[|ViewPrefix|..|url| - |ViewSuffix|])
    else None
  }

  /** The view locator determines the file it was built from. */
  lemma ViewUrlRoundTrip(fileId: string)
    ensures ViewUrlFileId(ViewUrl(fileId)) == Some(fileId)
  {
    var u := ViewUrl(fileId);
    assert u[..|ViewPrefix|] == ViewPrefix;
    assert u[|u| - |ViewSuffix|..] == ViewSuffix;
    assert u[|ViewPrefix|..|u| - |ViewSuffix|] == fileId;
  }
}
