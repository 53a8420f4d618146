// The `/upload` endpoint: multer's filter, the choice between one
// combined report and one result per file, the report's name, and the
// Drive adapter's result.

module Upload {

  import opened JsArray
  import opened JsText
  import opened Records
  import opened FileTypes
  import opened Folders
  import opened CombinedPdf
  import opened QrCode

  // ---- multer ----

  /** multer's per-file size limit, 50 MB. */
  const MaxFileSize: nat := 50 * 1024 * 1024

  /** Why a request gets no results. */
  datatype UploadError =
    | NoFiles
    | UnsupportedType(fileName: string)
    | TooLarge(fileName: string)
    | BuildFailed(reason: BuildError)
    | DriveFailed(fileName: string)
    | StorageFailed  // a file-system step of the combined branch threw

  /** The local file-system steps of the combined branch: writing the
      report under `uploads/`, reading it back for Drive, and removing it. */
  datatype StorageStep = WriteReport | ReadReport | RemoveReport

  /** multer's verdict on one file: the extension filter, then the size
      limit. */
  function Refusal(f: UploadedFile): (r: Option<UploadError>)
    ensures r.None? <==> UploadAccepted(f.originalName) && f.size <= MaxFileSize
  {
    if !UploadAccepted(f.originalName) then Some(UnsupportedType(f.originalName))
    else if f.size > MaxFileSize then Some(TooLarge(f.originalName))
    else None
  }

  /** The first refusal `refusal` gives over `files`, in order. */
  function FirstRefusal(files: seq<UploadedFile>, refusal: UploadedFile -> Option<UploadError>): Option<UploadError>
    decreases |files|
  {
    if files == [] then None
    else if refusal(files[0]).Some? then refusal(files[0])
    else FirstRefusal(files[1..], refusal)
  }

  /** The first file multer refuses, in upload order: the extension filter
      runs before the size limit. A refusal aborts the whole request. */
  function FirstRejected(files: seq<UploadedFile>): Option<UploadError>
  {
    FirstRefusal(files, Refusal)
  }

  /** multer lets a request through exactly when every file has an allowed
      extension and is within the size limit. */
  lemma FirstRejectedNone(files: seq<UploadedFile>)
    ensures FirstRejected(files).None? <==>
              forall i :: 0 <= i < |files| ==> UploadAccepted(files[i].originalName) && files[i].size <= MaxFileSize
  {
    FirstRefusalNone(files, Refusal);
    assert forall i :: 0 <= i < |files| ==> (Refusal(files[i]).None? <==>
             UploadAccepted(files[i].originalName) && files[i].size <= MaxFileSize);
  }

  lemma {:induction false} FirstRefusalNone(files: seq<UploadedFile>, refusal: UploadedFile -> Option<UploadError>)
    ensures FirstRefusal(files, refusal).None? <==> forall i :: 0 <= i < |files| ==> refusal(files[i]).None?
    decreases |files|
  {
    if files != [] {
      FirstRefusalNone(files[1..], refusal);
      assert forall i :: 1 <= i < |files| ==> files[1..][i - 1] == files[i];
    }
  }

  /** Files multer lets through do not change which later file is
      refused. */
  lemma FirstRejectedAfter(files: seq<UploadedFile>, k: nat)
    requires k <= |files| && FirstRejected(files[..k]).None?
    ensures FirstRejected(files) == FirstRejected(files[k..])
  {
    FirstRefusalAfter(files, Refusal, k);
  }

  lemma {:induction false} FirstRefusalAfter(files: seq<UploadedFile>, refusal: UploadedFile -> Option<UploadError>, k: nat)
    requires k <= |files| && FirstRefusal(files[..k], refusal).None?
    ensures FirstRefusal(files, refusal) == FirstRefusal(files[k..], refusal)
    decreases k
  {
    if k > 0 {
      assert files[..k][0] == files[0];
      assert files[..k][1..] == files[1..][..k - 1];
      assert files[1..][k - 1..] == files[k..];
      FirstRefusalAfter(files[1..], refusal, k - 1);
    }
  }

  /** The refusal names the first offending file, in upload order. */
  lemma FirstRejectedNamesFirst(files: seq<UploadedFile>, k: nat)
    requires k < |files| && FirstRejected(files[..k]).None?
    requires !UploadAccepted(files[k].originalName) || files[k].size > MaxFileSize
    ensures FirstRejected(files) == Some(if UploadAccepted(files[k].originalName)
                                         then TooLarge(files[k].originalName)
                                         else UnsupportedType(files[k].originalName))
  {
    FirstRejectedAfter(files, k);
    assert files[k..][0] == files[k];
  }

  // ---- report name ----

  /** The server's local date. */
  datatype CalendarDate = CalendarDate(day: nat, month: nat, year: nat)

  predicate ValidDate(d: CalendarDate)
  {
    1 <= d.day <= 31 && 1 <= d.month <= 12
  }

  const ReportPrefix := "testreport-"
  const ReportSuffix := ".pdf"

  /** `testreport-DDMMYYYY.pdf`: day and month padded to two digits, then
      the full year. */
  function ReportName(d: CalendarDate): string
  {
    ReportPrefix + Pad2(d.day) + Pad2(d.month) + DecimalString(d.year) + ReportSuffix
  }

  /** Reads day, month and year back out of a report name. */
  function ParseReportName(name: string): Option<CalendarDate>
  {
    if |name| >= 20 && name[..11] == ReportPrefix && name[|name| - 4..] == ReportSuffix then
      var day := DigitsValue(name[11..13], 10);
      var month := DigitsValue(name[13..15], 10);
      var year := DigitsValue(name[15..|name| - 4], 10);
      if day >= 0 && month >= 0 && year >= 0 then Some(CalendarDate(day, month, year)) else None
    else None
  }

  lemma Pad2Value(n: nat)
    requires n < 100
    ensures DigitsValue(Pad2(n), 10) == n
  {
    var s := Pad2(n);
    assert s[..1][..0] == [];
    assert DigitsValue(s[..1], 10) == n / 10;
  }

  /** The report name records the date it was made on. */
  lemma ReportNameRoundTrip(d: CalendarDate)
    requires ValidDate(d) && d.year >= 1000
    ensures ParseReportName(ReportName(d)) == Some(d)
  {
    var dd := Pad2(d.day);
    var mm := Pad2(d.month);
    var yy := DecimalString(d.year);
    var name := ReportName(d);
    assert |yy| >= 4 by {
      YearDigits(d.year);
    }
    assert name == ReportPrefix + dd + mm + yy + ReportSuffix;
    assert name[..11] == ReportPrefix;
    assert name[11..13] == dd;
    assert name[13..15] == mm;
    assert name[15..|name| - 4] == yy;
    assert name[|name| - 4..] == ReportSuffix;
    Pad2Value(d.day);
    Pad2Value(d.month);
    DecimalValue(d.year);
  }

  lemma {:induction false} YearDigits(n: nat)
    requires n >= 1000
    ensures |DecimalString(n)| >= 4
  {
    assert DecimalString(n) == DecimalString(n / 10) + [DigitChar(n % 10)];
    assert DecimalString(n / 10) == DecimalString(n / 100) + [DigitChar(n / 10 % 10)];
    assert DecimalString(n / 100) == DecimalString(n / 1000) + [DigitChar(n / 100 % 10)];
  }

  /** The report name passes the server's own extension filter and is
      dispatched as a PDF. */
  lemma ReportNameIsPdf(d: CalendarDate)
    ensures KindOf(ReportName(d)) == Some(PdfKind)
  {
    var stem := ReportPrefix + Pad2(d.day) + Pad2(d.month) + DecimalString(d.year);
    assert ReportName(d) == stem + ReportSuffix;
    ReportStemPlain(d);
    ToLowerOfLower(ReportSuffix);
    KindOfDotted(stem, ReportSuffix);
  }

  lemma ReportStemPlain(d: CalendarDate)
    ensures var stem := ReportPrefix + Pad2(d.day) + Pad2(d.month) + DecimalString(d.year);
            stem != [] && '/' !in stem
  {
    Pad2Digits(d.day);
    Pad2Digits(d.month);
    DigitsPlain(Pad2(d.day));
    DigitsPlain(Pad2(d.month));
    DigitsPlain(DecimalString(d.year));
    PlainConcat(ReportPrefix, Pad2(d.day));
    PlainConcat(ReportPrefix + Pad2(d.day), Pad2(d.month));
    PlainConcat(ReportPrefix + Pad2(d.day) + Pad2(d.month), DecimalString(d.year));
  }

  lemma DigitsPlain(s: string)
    requires forall i :: 0 <= i < |s| ==> '0' <= s[i] <= '9'
    ensures '/' !in s
  {
  }

  lemma PlainConcat(a: string, b: string)
    requires '/' !in a && '/' !in b
    ensures '/' !in a + b
  {
  }

  // ---- upload mode ----

  /** `(req.body.uploadMode || 'individual') === 'combined' && files.length > 1`. */
  predicate CombinedMode(modeField: Option<string>, fileCount: nat)
  {
    var mode := if modeField.Some? && modeField.value != "" then modeField.value else "individual";
    mode == "combined" && fileCount > 1
  }

  // ---- Drive adapter ----

  /** What the document is built from: the uploaded bytes, or the combined
      document's pages. */
  datatype DriveContent = Original(payload: Payload) | CombinedDocument(pages: seq<Page>)

  /** One call of `uploadToGoogleDrive`. */
  datatype DriveCall = DriveCall(fileName: string, mimeType: string, folderPath: Option<string>, content: DriveContent)

  /** What `uploadToGoogleDrive` returns, together with the folder the file
      was filed under. */
  datatype DriveResult = DriveResult(fileId: string, viewUrl: string, downloadUrl: string,
                                     folderName: string, filedUnder: Option<string>)

  /** The adapter's result once Drive has stored the file under `fileId`:
      the public locators built from the id, the caller's folder path (or
      `Root`) as the label, and the normalised folder as the parent. */
  function DriveUpload(call: DriveCall, fileId: string): (r: DriveResult)
    ensures ViewUrlFileId(r.viewUrl) == Some(fileId)
    ensures r.downloadUrl == DownloadPrefix + fileId
    ensures r.folderName == FolderLabel(call.folderPath)
    ensures r.filedUnder.Some? ==>
              r.filedUnder.value != "" && forall i :: 0 <= i < |r.filedUnder.value| ==> !Forbidden(r.filedUnder.value[i])
  {
    ViewUrlRoundTrip(fileId);
    DriveResult(fileId, ViewUrl(fileId), DownloadUrl(fileId), FolderLabel(call.folderPath), DriveParent(call.folderPath))
  }

  // ---- the endpoint ----

  datatype UploadResponse = Uploaded(results: seq<UploadResult>) | Refused(status: nat, error: UploadError)

  /** The Drive call for one file uploaded on its own. */
  function IndividualCall(f: UploadedFile, folderField: Option<string>): DriveCall
  {
    DriveCall(f.originalName, f.mimeType, FolderFor(folderField, f.originalName), Original(f.payload))
  }

  /** The entry for a file Drive stored under `fileId`: its name, the
      adapter's locators for that id and a code for the view locator. */
  function ResultFor(fileName: string, fileId: string, qr: QrImage, kind: ResultKind): (r: UploadResult)
    ensures r.fileName == fileName && r.fileId == fileId && r.kind == kind && r.qrCode == qr
    ensures ViewUrlFileId(r.viewUrl) == Some(fileId) && r.downloadUrl == DownloadPrefix + fileId
  {
    ViewUrlRoundTrip(fileId);
    UploadResult(fileName, fileId, ViewUrl(fileId), DownloadUrl(fileId), qr, kind)
  }

  /** The first call Drive fails, or `n` when the first `n` all succeed. */
  function FirstDriveFailure(driveId: nat -> Option<string>, n: nat): (k: nat)
    ensures k <= n
    ensures forall j :: 0 <= j < k ==> driveId(j).Some?
    ensures k < n ==> driveId(k).None?
  {
    if n == 0 then 0
    else var k := FirstDriveFailure(driveId, n - 1);
    if k < n - 1 then k else if driveId(n - 1).Some? then n else n - 1
  }

  /** The failing step, if any, comes before the Drive call. */
  predicate BeforeDrive(storageFails: Option<StorageStep>)
  {
    storageFails == Some(WriteReport) || storageFails == Some(ReadReport)
  }

  /** What the combined branch answers once the document is built (or
      not): the build's error; a failed write or read-back of the report;
      Drive's failure; a failed removal of the local report after Drive
      stored it; or one entry for the report, filed under the body's folder
      or the first file's folder. `storageFails` is the file-system step
      that throws, if any. */
  function ReportOutcome(built: Result<seq<Page>, BuildError>, firstName: string, folderField: Option<string>,
                         today: CalendarDate, logoExists: bool, driveId: nat -> Option<string>,
                         compositeFails: nat -> bool, storageFails: Option<StorageStep>)
    : (r: (UploadResponse, seq<DriveCall>))
    ensures built.Err? ==> r == (Refused(500, BuildFailed(built.error)), [])
    ensures built.Ok? && BeforeDrive(storageFails) ==>
              r == (Refused(500, StorageFailed), [])
    ensures built.Ok? && !BeforeDrive(storageFails) ==>
              r.1 == [DriveCall(ReportName(today), "application/pdf", FolderFor(folderField, firstName),
                                CombinedDocument(built.value))]
    ensures r.0.Uploaded? <==> built.Ok? && storageFails.None? && driveId(0).Some?
    ensures built.Ok? && !BeforeDrive(storageFails) && driveId(0).None? ==>
              r.0 == Refused(500, DriveFailed(ReportName(today)))
    ensures built.Ok? && storageFails == Some(RemoveReport) && driveId(0).Some? ==>
              r.0 == Refused(500, StorageFailed)
    ensures r.0.Uploaded? ==>
              |r.0.results| == 1 && r.0.results[0].fileName == ReportName(today)
              && r.0.results[0].kind == CombinedPdf && r.0.results[0].fileId == driveId(0).value
              && ViewUrlFileId(r.0.results[0].viewUrl) == Some(driveId(0).value)
              && r.0.results[0].qrCode.text == r.0.results[0].viewUrl
  {
    match built
    case Err(e) => (Refused(500, BuildFailed(e)), [])
    case Ok(pages) =>
      var call := DriveCall(ReportName(today), "application/pdf", FolderFor(folderField, firstName),
                            CombinedDocument(pages));
      match storageFails
      case Some(WriteReport) => (Refused(500, StorageFailed), [])
      case Some(ReadReport) => (Refused(500, StorageFailed), [])
      case Some(RemoveReport) =>
        if driveId(0).None? then (Refused(500, DriveFailed(ReportName(today))), [call])
        else (Refused(500, StorageFailed), [call])
      case None =>
        match driveId(0)
        case None => (Refused(500, DriveFailed(ReportName(today))), [call])
        case Some(id) =>
          (Uploaded([ResultFor(ReportName(today), id, GenerateQr(ViewUrl(id), logoExists, compositeFails(0)), CombinedPdf)]),
           [call])
  }

  /** The combined branch with the repaired document builder. */
  function CombinedOutcome(files: seq<UploadedFile>, folderField: Option<string>, today: CalendarDate,
                           logoExists: bool, driveId: nat -> Option<string>, compositeFails: nat -> bool,
                           storageFails: Option<StorageStep>)
    : (r: (UploadResponse, seq<DriveCall>))
    requires files != []
  {
    ReportOutcome(CombinedPages(files), files[0].originalName, folderField, today, logoExists, driveId,
                  compositeFails, storageFails)
  }

  /** The combined branch as the code is written, where any Word document
      makes the build throw. */
  function CombinedOutcomeAsWritten(files: seq<UploadedFile>, folderField: Option<string>, today: CalendarDate,
                                    logoExists: bool, driveId: nat -> Option<string>, compositeFails: nat -> bool,
                                    storageFails: Option<StorageStep>)
    : (r: (UploadResponse, seq<DriveCall>))
    requires files != []
  {
    ReportOutcome(CombinedPagesAsWritten(files), files[0].originalName, folderField, today, logoExists, driveId,
                  compositeFails, storageFails)
  }

  /** As written, a combined upload holding a Word document is answered
      with 500 and makes no Drive call, whatever Drive and the file system
      would have done. */
  lemma AsWrittenWordUploadRefused(files: seq<UploadedFile>, folderField: Option<string>, today: CalendarDate,
                                   logoExists: bool, driveId: nat -> Option<string>, compositeFails: nat -> bool,
                                   storageFails: Option<StorageStep>, i: nat)
    requires i < |files| && KindOf(files[i].originalName) == Some(WordKind)
    ensures var r := CombinedOutcomeAsWritten(files, folderField, today, logoExists, driveId, compositeFails, storageFails);
            r.0.Refused? && r.0.status == 500 && r.0.error.BuildFailed? && r.1 == []
  {
    AsWrittenWordFails(files, Kinds(files), i);
  }

  /** A Word report and a photo, uploaded combined with Drive and the file
      system working: the code as written answers 500 because the Word
      reader is missing; the repaired branch stores a one-entry report. */
  lemma WordUploadExample(stem: string, text: string, folderField: Option<string>, today: CalendarDate,
                          logoExists: bool, driveId: nat -> Option<string>, compositeFails: nat -> bool)
    requires stem != [] && '/' !in stem
    requires driveId(0).Some?
    ensures var files := [UploadedFile(stem + ".docx", "application/msword", 2000, WordData(text)),
                          UploadedFile(stem + ".png", "image/png", 3000, ImageData(10, 10))];
            CombinedOutcomeAsWritten(files, folderField, today, logoExists, driveId, compositeFails, None).0
              == Refused(500, BuildFailed(DocReaderMissing))
            && CombinedOutcome(files, folderField, today, logoExists, driveId, compositeFails, None).0.Uploaded?
  {
    WordAndImageExample(stem, text);
  }

  /** The combined branch of the handler. */
  method UploadCombined(files: seq<UploadedFile>, folderField: Option<string>, today: CalendarDate,
                        logoExists: bool, driveId: nat -> Option<string>, compositeFails: nat -> bool,
                        storageFails: Option<StorageStep>)
    returns (resp: UploadResponse, calls: seq<DriveCall>)
    requires files != []
    ensures (resp, calls) == CombinedOutcome(files, folderField, today, logoExists, driveId, compositeFails, storageFails)
  {
    var built := BuildCombinedPdf(files);
    if built.Err? {
      return Refused(500, BuildFailed(built.error)), [];
    }
    resp, calls := StoreReport(built.value, files[0].originalName, folderField, today, logoExists, driveId,
                               compositeFails, storageFails);
  }

  /** The combined branch after the document is built: write and read back
      the report, hand it to Drive, make its code, remove the local copy. */
  method StoreReport(pages: seq<Page>, firstName: string, folderField: Option<string>, today: CalendarDate,
                     logoExists: bool, driveId: nat -> Option<string>, compositeFails: nat -> bool,
                     storageFails: Option<StorageStep>)
    returns (resp: UploadResponse, calls: seq<DriveCall>)
    ensures (resp, calls) == ReportOutcome(Ok(pages), firstName, folderField, today, logoExists, driveId,
                                           compositeFails, storageFails)
  {
    var name := ReportName(today);
    var call := DriveCall(name, "application/pdf", FolderFor(folderField, firstName), CombinedDocument(pages));
    match storageFails {
      case Some(WriteReport) =>
        return Refused(500, StorageFailed), [];
      case Some(ReadReport) =>
        return Refused(500, StorageFailed), [];
      case Some(RemoveReport) =>
        calls := [call];
        if driveId(0).None? {
          return Refused(500, DriveFailed(name)), calls;
        }
        resp := Refused(500, StorageFailed);
      case None =>
        calls := [call];
        var id := driveId(0);
        if id.None? {
          return Refused(500, DriveFailed(name)), calls;
        }
        var drive := DriveUpload(call, id.value);
        var qr := GenerateQr(drive.viewUrl, logoExists, compositeFails(0));
        resp := Uploaded([UploadResult(name, drive.fileId, drive.viewUrl, drive.downloadUrl, qr, CombinedPdf)]);
    }
  }

  /** The Drive calls of the individual branch for the given files, in
      order. */
  function IndividualCalls(files: seq<UploadedFile>, folderField: Option<string>): seq<DriveCall>
    decreases |files|
  {
    if files == [] then []
    else IndividualCalls(files[..|files| - 1], folderField) + [IndividualCall(files[|files| - 1], folderField)]
  }

  /** The entries of the individual branch for the calls Drive answered. */
  function IndividualResults(files: seq<UploadedFile>, folderField: Option<string>, logoExists: bool,
                             driveId: nat -> Option<string>, compositeFails: nat -> bool): seq<UploadResult>
    decreases |files|
  {
    if files == [] then []
    else
      var n := |files| - 1;
      var front := IndividualResults(files[..n], folderField, logoExists, driveId, compositeFails);
      match driveId(n)
      case None => front
      case Some(id) =>
        front + [ResultFor(files[n].originalName, id,
                           GenerateQr(ViewUrl(id), logoExists, compositeFails(n)), Individual)]
  }

  /** One call per file, in upload order, each for that file's name, type
      and folder. */
  lemma {:induction false} IndividualCallsAt(files: seq<UploadedFile>, folderField: Option<string>)
    ensures |IndividualCalls(files, folderField)| == |files|
    ensures forall j :: 0 <= j < |files| ==> IndividualCalls(files, folderField)[j] == IndividualCall(files[j], folderField)
    decreases |files|
  {
    if files != [] {
      var n := |files| - 1;
      IndividualCallsAt(files[..n], folderField);
      assert forall j :: 0 <= j < n ==> files[..n][j] == files[j];
    }
  }

  /** The entry for a stored file: its name, the id Drive gave it, a view
      locator built from that id and a code for that locator. */
  predicate IndividualEntry(r: UploadResult, f: UploadedFile, id: string)
  {
    r.fileName == f.originalName && r.kind == Individual && r.fileId == id
    && ViewUrlFileId(r.viewUrl) == Some(id) && r.qrCode.text == r.viewUrl
  }

  /** When Drive stores every file, there is one entry per file, in upload
      order. */
  lemma {:induction false} IndividualResultsAt(files: seq<UploadedFile>, folderField: Option<string>, logoExists: bool,
                                               driveId: nat -> Option<string>, compositeFails: nat -> bool)
    requires forall j :: 0 <= j < |files| ==> driveId(j).Some?
    ensures var rs := IndividualResults(files, folderField, logoExists, driveId, compositeFails);
            |rs| == |files|
            && forall j :: 0 <= j < |files| ==> IndividualEntry(rs[j], files[j], driveId(j).value)
    decreases |files|
  {
    if files != [] {
      var n := |files| - 1;
      var front := IndividualResults(files[..n], folderField, logoExists, driveId, compositeFails);
      var id := driveId(n).value;
      var last := ResultFor(files[n].originalName, id,
                            GenerateQr(ViewUrl(id), logoExists, compositeFails(n)), Individual);
      assert IndividualEntry(last, files[n], id);
      IndividualResultsAt(files[..n], folderField, logoExists, driveId, compositeFails);
      assert IndividualResults(files, folderField, logoExists, driveId, compositeFails) == front + [last];
      forall j | 0 <= j < n
        ensures IndividualEntry((front + [last])[j], files[j], driveId(j).value)
      {
        assert files[..n][j] == files[j] && (front + [last])[j] == front[j];
      }
    }
  }

  /** The individual branch: one Drive call and one entry per file, in
      upload order; the first Drive failure aborts the request after its
      call. */
  method UploadIndividually(files: seq<UploadedFile>, folderField: Option<string>,
                            logoExists: bool, driveId: nat -> Option<string>, compositeFails: nat -> bool)
    returns (resp: UploadResponse, calls: seq<DriveCall>)
    ensures var k := FirstDriveFailure(driveId, |files|);
            calls == IndividualCalls(files[..if k < |files| then k + 1 else k], folderField)
            && (k < |files| ==> resp == Refused(500, DriveFailed(files[k].originalName)))
            && (k == |files| ==> resp == Uploaded(IndividualResults(files, folderField, logoExists, driveId, compositeFails)))
  {
    var results: seq<UploadResult> := [];
    calls := [];
    for i := 0 to |files|
      invariant FirstDriveFailure(driveId, i) == i
      invariant calls == IndividualCalls(files[..i], folderField)
      invariant results == IndividualResults(files[..i], folderField, logoExists, driveId, compositeFails)
    {
      IndividualStep(files, i, folderField, logoExists, driveId, compositeFails);
      var call := IndividualCall(files[i], folderField);
      calls := calls + [call];
      var id := driveId(i);
      if id.None? {
        FirstFailureStays(driveId, i, |files|);
        return Refused(500, DriveFailed(files[i].originalName)), calls;
      }
      var qr := GenerateQr(ViewUrl(id.value), logoExists, compositeFails(i));
      results := results + [ResultFor(files[i].originalName, id.value, qr, Individual)];
    }
    assert files[..|files|] == files;
    resp := Uploaded(results);
  }

  /** One more file adds its call, and its entry when Drive answers. */
  lemma IndividualStep(files: seq<UploadedFile>, i: nat, folderField: Option<string>, logoExists: bool,
                       driveId: nat -> Option<string>, compositeFails: nat -> bool)
    requires i < |files|
    ensures IndividualCalls(files[..i + 1], folderField)
            == IndividualCalls(files[..i], folderField) + [IndividualCall(files[i], folderField)]
    ensures IndividualResults(files[..i + 1], folderField, logoExists, driveId, compositeFails)
            == IndividualResults(files[..i], folderField, logoExists, driveId, compositeFails)
               + match driveId(i)
                 case None => []
                 case Some(id) =>
                   [ResultFor(files[i].originalName, id,
                              GenerateQr(ViewUrl(id), logoExists, compositeFails(i)), Individual)]
  {
    assert files[..i + 1][..i] == files[..i];
  }

  /** The `/upload` handler. Drive's answer to the `k`-th call is
      `driveId(k)` (none when the call throws), `compositeFails(k)` says
      whether the code for the `k`-th result falls back to the plain code,
      and `storageFails` is the combined branch's file-system step that
      throws, if any. A refused file or an empty upload makes no Drive call; the
      combined branch runs only in combined mode with more than one
      file. */
  method HandleUpload(files: seq<UploadedFile>, modeField: Option<string>, folderField: Option<string>,
                      today: CalendarDate, logoExists: bool,
                      driveId: nat -> Option<string>, compositeFails: nat -> bool,
                      storageFails: Option<StorageStep>)
    returns (resp: UploadResponse, calls: seq<DriveCall>)
    ensures FirstRejected(files).Some? ==> resp == Refused(500, FirstRejected(files).value) && calls == []
    ensures FirstRejected(files).None? && files == [] ==> resp == Refused(400, NoFiles) && calls == []
    ensures FirstRejected(files).None? && CombinedMode(modeField, |files|) ==>
              (resp, calls) == CombinedOutcome(files, folderField, today, logoExists, driveId, compositeFails, storageFails)
    ensures FirstRejected(files).None? && files != [] && !CombinedMode(modeField, |files|) ==>
              var k := FirstDriveFailure(driveId, |files|);
              calls == IndividualCalls(files[..if k < |files| then k + 1 else k], folderField)
              && (k < |files| ==> resp == Refused(500, DriveFailed(files[k].originalName)))
              && (k == |files| ==> resp == Uploaded(IndividualResults(files, folderField, logoExists, driveId, compositeFails)))
  {
    var rejected := FirstRejected(files);
    if rejected.Some? {
      return Refused(500, rejected.value), [];
    }
    if |files| == 0 {
      return Refused(400, NoFiles), [];
    }
    var mode := if modeField.Some? && modeField.value != "" then modeField.value else "individual";
    if mode == "combined" && |files| > 1 {
      resp, calls := UploadCombined(files, folderField, today, logoExists, driveId, compositeFails, storageFails);
    } else {
      resp, calls := UploadIndividually(files, folderField, logoExists, driveId, compositeFails);
    }
  }

  /** A failure at `k` stays the first failure however many calls are
      counted. */
  lemma {:induction false} FirstFailureStays(driveId: nat -> Option<string>, k: nat, n: nat)
    requires k < n && FirstDriveFailure(driveId, k) == k && driveId(k).None?
    ensures FirstDriveFailure(driveId, n) == k
    decreases n
  {
    if n > k + 1 {
      FirstFailureStays(driveId, k, n - 1);
    }
  }
}
