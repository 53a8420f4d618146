// `createCombinedPDF`: every file, in upload order, contributes its pages
// to one document, chosen by the file's lower-cased extension.

module CombinedPdf {

  import opened JsArray
  import opened JsText
  import opened Records
  import opened FileTypes
  import opened ImageLayout
  import opened DocLayout

  /** What a page of the combined document shows: page `index` of a merged
      PDF, a placed image, or drawn text lines. */
  datatype PageContent =
    | Copied(index: nat)
    | Picture(placement: Rect)
    | Text(lines: seq<DrawnLine>)

  /** A page together with the position of the uploaded file it came from. */
  datatype Page = Page(source: nat, content: PageContent)

  /** Why building stops: a file the matching library cannot read, or the
      Word reader that the code calls but never loads. */
  datatype BuildError = Malformed(fileName: string) | DocReaderMissing

  /** The pages of a merged PDF, in the original order. */
  function CopiedPages(source: nat, n: nat): (r: seq<Page>)
    ensures |r| == n
    ensures forall k :: 0 <= k < n ==> r[k] == Page(source, Copied(k))
  {
    seq(n, k requires 0 <= k < n => Page(source, Copied(k)))
  }

  /** The single page an image becomes. */
  function ImagePage(source: nat, w: nat, h: nat): Page
    requires w > 0 && h > 0
  {
    var f := FitInside(w as real, h as real);
    Page(source, Picture(Placement(f.0, f.1)))
  }

  /** The single page a Word document's text becomes. */
  function TextPage(source: nat, text: string): Page
  {
    Page(source, Text(DrawnLines(Wrap(text))))
  }

  /** The lower-cased extension's branch for each file, in upload order. */
  function Kinds(files: seq<UploadedFile>): (ks: seq<Option<Kind>>)
    ensures |ks| == |files|
  {
    seq(|files|, i requires 0 <= i < |files| => KindOf(files[i].originalName))
  }

  /** The branch of `createCombinedPDF` for the file at position `source`
      when its extension is of the given kind; the Word branch reads the
      document's text. */
  function PagesFor(kind: Option<Kind>, f: UploadedFile, source: nat): Result<seq<Page>, BuildError>
  {
    match kind
    case None => Ok([])
    case Some(PdfKind) =>
      (match f.payload
       case PdfData(n) => Ok(CopiedPages(source, n))
       case _ => Err(Malformed(f.originalName)))
    case Some(ImageKind) =>
      (match f.payload
       case ImageData(w, h) =>
         if w > 0 && h > 0 then Ok([ImagePage(source, w, h)]) else Err(Malformed(f.originalName))
       case _ => Err(Malformed(f.originalName)))
    case Some(WordKind) =>
      (match f.payload
       case WordData(text) => Ok([TextPage(source, text)])
       case _ => Err(Malformed(f.originalName)))
  }

  /** The same branch as the code is written: the Word branch names a
      reader that is never loaded, so it always throws. */
  function PagesForAsWritten(kind: Option<Kind>, f: UploadedFile, source: nat): Result<seq<Page>, BuildError>
  {
    if kind == Some(WordKind) then Err(DocReaderMissing) else PagesFor(kind, f, source)
  }

  /** The whole document, or the first file's error in upload order. */
  function BuildFrom(files: seq<UploadedFile>, kinds: seq<Option<Kind>>): Result<seq<Page>, BuildError>
    requires |kinds| == |files|
    decreases |files|
  {
    if files == [] then Ok([])
    else
      match BuildFrom(files[..|files| - 1], kinds[..|files| - 1])
      case Err(e) => Err(e)
      case Ok(front) =>
        match PagesFor(kinds[|files| - 1], files[|files| - 1], |files| - 1)
        case Err(e) => Err(e)
        case Ok(more) => Ok(front + more)
  }

  function BuildFromAsWritten(files: seq<UploadedFile>, kinds: seq<Option<Kind>>): Result<seq<Page>, BuildError>
    requires |kinds| == |files|
    decreases |files|
  {
    if files == [] then Ok([])
    else
      match BuildFromAsWritten(files[..|files| - 1], kinds[..|files| - 1])
      case Err(e) => Err(e)
      case Ok(front) =>
        match PagesForAsWritten(kinds[|files| - 1], files[|files| - 1], |files| - 1)
        case Err(e) => Err(e)
        case Ok(more) => Ok(front + more)
  }

  /** The repaired builder's document. */
  function CombinedPages(files: seq<UploadedFile>): Result<seq<Page>, BuildError>
  {
    BuildFrom(files, Kinds(files))
  }

  /** The document of the code as written. */
  function CombinedPagesAsWritten(files: seq<UploadedFile>): Result<seq<Page>, BuildError>
  {
    BuildFromAsWritten(files, Kinds(files))
  }

  /** `addDocToPDF` with its text in hand: one new page, the wrapped lines
      drawn on it. */
  method AddDocPage(source: nat, text: string) returns (page: Page)
    ensures page == TextPage(source, text)
  {
    var lines := WrapText(text);
    var drawn := DrawText(lines);
    page := Page(source, Text(drawn));
  }

  /** The body of `createCombinedPDF`'s loop for one file of the given
      kind. */
  method AddFilePages(kind: Option<Kind>, f: UploadedFile, source: nat) returns (r: Result<seq<Page>, BuildError>)
    ensures r == PagesFor(kind, f, source)
  {
    match kind {
      case None =>
        r := Ok([]);
      case Some(PdfKind) =>
        if f.payload.PdfData? {
          r := Ok(CopiedPages(source, f.payload.pageCount));
        } else {
          r := Err(Malformed(f.originalName));
        }
      case Some(ImageKind) =>
        if f.payload.ImageData? && f.payload.width > 0 && f.payload.height > 0 {
          r := Ok([ImagePage(source, f.payload.width, f.payload.height)]);
        } else {
          r := Err(Malformed(f.originalName));
        }
      case Some(WordKind) =>
        if f.payload.WordData? {
          var page := AddDocPage(source, f.payload.text);
          r := Ok([page]);
        } else {
          r := Err(Malformed(f.originalName));
        }
    }
  }

  /** The loop of `createCombinedPDF`: each file's extension picks its
      branch, pages are appended file by file, and the first file that
      cannot be read aborts the build. */
  method BuildCombinedPdf(files: seq<UploadedFile>) returns (r: Result<seq<Page>, BuildError>)
    ensures r == CombinedPages(files)
  {
    ghost var kinds := Kinds(files);
    var pages: seq<Page> := [];
    for i := 0 to |files|
      invariant BuildFrom(files[..i], kinds[..i]) == Ok(pages)
    {
      var kind := KindOf(files[i].originalName);
      var added := AddFilePages(kind, files[i], i);
      BuildFromStep(files, kinds, i);
      if added.Err? {
        BuildFromErrPersists(files, kinds, i + 1);
        return Err(added.error);
      }
      pages := pages + added.value;
    }
    assert files[..|files|] == files;
    assert kinds[..|files|] == kinds;
    r := Ok(pages);
  }

  /** Once a prefix of the files fails, the whole build fails with the
      same error. */
  lemma {:induction false} BuildFromErrPersists(files: seq<UploadedFile>, kinds: seq<Option<Kind>>, i: nat)
    requires |kinds| == |files| && i <= |files|
    requires BuildFrom(files[..i], kinds[..i]).Err?
    ensures BuildFrom(files, kinds) == BuildFrom(files[..i], kinds[..i])
    decreases |files|
  {
    if i < |files| {
      var n := |files| - 1;
      assert files[..n][..i] == files[..i];
      assert kinds[..n][..i] == kinds[..i];
      BuildFromErrPersists(files[..n], kinds[..n], i);
    } else {
      assert files[..i] == files && kinds[..i] == kinds;
    }
  }

  /** One more file extends the build by that file's pages. */
  lemma BuildFromStep(files: seq<UploadedFile>, kinds: seq<Option<Kind>>, i: nat)
    requires kinds == Kinds(files) && i < |files|
    ensures kinds[i] == KindOf(files[i].originalName)
    ensures BuildFrom(files[..i + 1], kinds[..i + 1])
            == match BuildFrom(files[..i], kinds[..i])
               case Err(e) => Err(e)
               case Ok(front) =>
                 match PagesFor(kinds[i], files[i], i)
                 case Err(e) => Err(e)
                 case Ok(more) => Ok(front + more)
  {
    assert files[..i + 1][..i] == files[..i];
    assert kinds[..i + 1][..i] == kinds[..i];
  }

  // ---- properties ----

  /** How many pages a readable file of the given kind adds: a PDF its own
      page count, an image or a Word document one, any other extension
      none. */
  function PagesAdded(kind: Option<Kind>, f: UploadedFile): nat
  {
    match kind
    case None => 0
    case Some(PdfKind) => if f.payload.PdfData? then f.payload.pageCount else 0
    case Some(_) => 1
  }

  function TotalPages(files: seq<UploadedFile>, kinds: seq<Option<Kind>>): nat
    requires |kinds| == |files|
    decreases |files|
  {
    if files == [] then 0
    else TotalPages(files[..|files| - 1], kinds[..|files| - 1]) + PagesAdded(kinds[|files| - 1], files[|files| - 1])
  }

  /** The library of the file's branch can read it, or the branch skips
      it. */
  predicate Readable(kind: Option<Kind>, f: UploadedFile)
  {
    match kind
    case None => true
    case Some(PdfKind) => f.payload.PdfData?
    case Some(ImageKind) => f.payload.ImageData? && f.payload.width > 0 && f.payload.height > 0
    case Some(WordKind) => f.payload.WordData?
  }

  /** A file adds its page count, each page tagged with its position. */
  lemma PagesForCount(kind: Option<Kind>, f: UploadedFile, source: nat)
    ensures PagesFor(kind, f, source).Ok? <==> Readable(kind, f)
    ensures PagesFor(kind, f, source).Ok? ==>
              |PagesFor(kind, f, source).value| == PagesAdded(kind, f)
              && forall k :: 0 <= k < PagesAdded(kind, f) ==> PagesFor(kind, f, source).value[k].source == source
  {
  }

  /** The build succeeds exactly when every file is readable. */
  lemma {:induction false} BuildOk(files: seq<UploadedFile>, kinds: seq<Option<Kind>>)
    requires |kinds| == |files|
    ensures BuildFrom(files, kinds).Ok? <==> forall i :: 0 <= i < |files| ==> Readable(kinds[i], files[i])
    decreases |files|
  {
    if files != [] {
      var n := |files| - 1;
      BuildOk(files[..n], kinds[..n]);
      PagesForCount(kinds[n], files[n], n);
      assert forall i :: 0 <= i < n ==> files[..n][i] == files[i] && kinds[..n][i] == kinds[i];
    }
  }

  /** Every page comes from one of the first `n` files. */
  predicate SourcesBelow(ps: seq<Page>, n: nat)
  {
    forall k :: 0 <= k < |ps| ==> ps[k].source < n
  }

  /** Pages appear in the order of the files they come from. */
  predicate SourcesOrdered(ps: seq<Page>)
  {
    forall j, k :: 0 <= j < k < |ps| ==> ps[j].source <= ps[k].source
  }

  /** Appending the pages of file `n` keeps the pages in file order. */
  lemma AppendInOrder(front: seq<Page>, more: seq<Page>, n: nat)
    requires SourcesBelow(front, n) && SourcesOrdered(front)
    requires forall k :: 0 <= k < |more| ==> more[k].source == n
    ensures SourcesBelow(front + more, n + 1) && SourcesOrdered(front + more)
  {
    var ps := front + more;
    forall k | 0 <= k < |ps|
      ensures ps[k].source <= n
      ensures k >= |front| ==> ps[k].source == n
    {
      if k >= |front| {
        assert ps[k] == more[k - |front|];
      }
    }
  }

  /** A built document has one page per PDF page, image and Word document,
      and its pages follow the upload order of their files. */
  lemma {:induction false} BuildShape(files: seq<UploadedFile>, kinds: seq<Option<Kind>>)
    requires |kinds| == |files|
    requires BuildFrom(files, kinds).Ok?
    ensures |BuildFrom(files, kinds).value| == TotalPages(files, kinds)
    ensures SourcesBelow(BuildFrom(files, kinds).value, |files|)
    ensures SourcesOrdered(BuildFrom(files, kinds).value)
    decreases |files|
  {
    if files != [] {
      var n := |files| - 1;
      var front := BuildFrom(files[..n], kinds[..n]).value;
      var more := PagesFor(kinds[n], files[n], n).value;
      BuildShape(files[..n], kinds[..n]);
      PagesForCount(kinds[n], files[n], n);
      AppendInOrder(front, more, n);
    }
  }

  /** A Word document adds exactly one page, holding at most 52 lines. */
  lemma WordDocumentOnePage(f: UploadedFile, source: nat)
    requires f.payload.WordData?
    ensures PagesFor(Some(WordKind), f, source) == Ok([TextPage(source, f.payload.text)])
    ensures |TextPage(source, f.payload.text).content.lines| <= MaxLines
  {
  }

  /** As written, any upload holding a Word document fails to build. */
  lemma {:induction false} AsWrittenWordFails(files: seq<UploadedFile>, kinds: seq<Option<Kind>>, i: nat)
    requires |kinds| == |files|
    requires i < |files| && kinds[i] == Some(WordKind)
    ensures BuildFromAsWritten(files, kinds).Err?
    decreases |files|
  {
    var n := |files| - 1;
    if i < n {
      AsWrittenWordFails(files[..n], kinds[..n], i);
    }
  }

  /** Without Word documents the code as written builds the same
      document. */
  lemma {:induction false} AsWrittenAgrees(files: seq<UploadedFile>, kinds: seq<Option<Kind>>)
    requires |kinds| == |files|
    requires forall i :: 0 <= i < |files| ==> kinds[i] != Some(WordKind)
    ensures BuildFromAsWritten(files, kinds) == BuildFrom(files, kinds)
    decreases |files|
  {
    if files != [] {
      var n := |files| - 1;
      AsWrittenAgrees(files[..n], kinds[..n]);
    }
  }

  /** A Word report followed by a photo: the code as written fails, the
      repaired builder makes a two-page document. */
  lemma WordAndImageExample(stem: string, text: string)
    requires stem != [] && '/' !in stem
    ensures var files := [UploadedFile(stem + ".docx", "application/msword", 2000, WordData(text)),
                          UploadedFile(stem + ".png", "image/png", 3000, ImageData(10, 10))];
            CombinedPagesAsWritten(files) == Err(DocReaderMissing)
            && CombinedPages(files) == Ok([TextPage(0, text), ImagePage(1, 10, 10)])
  {
    var files := [UploadedFile(stem + ".docx", "application/msword", 2000, WordData(text)),
                  UploadedFile(stem + ".png", "image/png", 3000, ImageData(10, 10))];
    WordName(stem);
    ImageName(stem);
    KindsOfTwo(files[0], files[1]);
    TwoFiles(files[0], files[1], text);
  }

  lemma KindsOfTwo(a: UploadedFile, b: UploadedFile)
    ensures Kinds([a, b]) == [KindOf(a.originalName), KindOf(b.originalName)]
  {
  }

  lemma TwoFiles(word: UploadedFile, image: UploadedFile, text: string)
    requires word.payload == WordData(text) && image.payload == ImageData(10, 10)
    ensures BuildFromAsWritten([word, image], [Some(WordKind), Some(ImageKind)]) == Err(DocReaderMissing)
    ensures BuildFrom([word, image], [Some(WordKind), Some(ImageKind)])
            == Ok([TextPage(0, text), ImagePage(1, 10, 10)])
  {
    var files := [word, image];
    var kinds := [Some(WordKind), Some(ImageKind)];
    assert files[..1] == [word] && kinds[..1] == [Some(WordKind)];
    assert [word][..0] == [] && [Some(WordKind)][..0] == [];
    assert BuildFromAsWritten([word], [Some(WordKind)]) == Err(DocReaderMissing);
    assert BuildFrom([word], [Some(WordKind)]) == Ok([] + [TextPage(0, text)]);
    assert PagesFor(Some(ImageKind), image, 1) == Ok([ImagePage(1, 10, 10)]);
    assert [] + [TextPage(0, text)] + [ImagePage(1, 10, 10)] == [TextPage(0, text), ImagePage(1, 10, 10)];
  }

  lemma WordName(stem: string)
    requires stem != [] && '/' !in stem
    ensures KindOf(stem + ".docx") == Some(WordKind)
  {
    ToLowerOfLower(".docx");
    KindOfDotted(stem, ".docx");
    assert KindOfExt(".docx") == Some(WordKind);
  }

  lemma ImageName(stem: string)
    requires stem != [] && '/' !in stem
    ensures KindOf(stem + ".png") == Some(ImageKind)
  {
    ToLowerOfLower(".png");
    KindOfDotted(stem, ".png");
    assert KindOfExt(".png") == Some(ImageKind);
  }
}
