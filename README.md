# AITESTDOC upload service and browser client, modelled in Dafny

The system takes test-report files (PDF, Word and images) from a browser
page and stores them on Google Drive. Each stored file gets a QR code that
points at its Drive view link. Several files can instead be merged into one
`testreport-DDMMYYYY.pdf`. The QR codes can be mailed to an address, and
every send is recorded in an in-memory e-mail ledger that the page pages
through and merges with its own local copy.

This project models the decision, string and list logic around the library
and network calls, in two groups.

The server (`server.js`):
- the upload filter: the lower-cased `path.extname` against six extensions,
  with the 50 MB limit;
- `extractFolderName`, the Drive folder normalisation, and the result shape of
  `uploadToGoogleDrive`;
- `createCombinedPDF`'s per-extension dispatch and page accounting;
- the Word text wrap and the drawing loop;
- image placement on the A4 page;
- the `/upload` branching between combined and individual uploads, and the
  report name;
- the QR logo geometry and its fallback;
- the `emailHistory` ledger with its prepend, cap and pagination;
- the `/send-email` checks.

The browser client (`public/app.js`):
- the `AITESTDOCApp` state: the picked files, the folder name, the recent
  uploads, the uploaded results and the local e-mail history;
- the operations that change that state;
- the selection filters;
- the history merge;
- the bulk send and resend counting;
- the QR download name, the file icon and the e-mail shape test.

Modules follow the program:
- `JsArray` and `JsText` restate the JavaScript built-ins used (`slice`,
  `splice`, `filter`, `split`, `join`, `trim`, `includes`, `lastIndexOf`,
  `toLowerCase`, `parseInt`, `padStart`).
- `Records` holds the shared records.
- `FileTypes`, `Folders`, `ImageLayout`, `DocLayout`, `CombinedPdf`, `QrCode`,
  `Upload`, `EmailShape` and `Ledger` model the server.
- `ClientFiles`, `ClientHistory` and `ClientApp` model the browser client.

The state the source mutates in place keeps that form:
- the ledger is `Ledger.EmailLedger`;
- the page is `ClientApp.App`;
- the wrap, drawing, dispatch and upload loops are methods, each proved equal
  to a specification function that the lemmas reason about.

Library calls and network calls become parameters:
- Drive's answer to the k-th upload is `driveId(k)`;
- the mail transport's answer is a `Result`;
- the server's reply to the i-th browser request is `reply(i)`;
- the current time is a number or a `clock`.

Where the code and its written description disagree, the model follows the
code, with one exception: the combined upload of a Word document, where the
code as written always fails (see "## Findings"). The handler is composed
with the repaired document builder, and the code as written is
`Upload.CombinedOutcomeAsWritten`. The other differences:
- A file refused by the upload filter aborts the whole request with status
  500, not 400.
- A Drive failure in individual mode aborts the request with 500, and the
  files already stored are not reported.
- A failed send is put at the front of the ledger without the cap of 100, so
  the ledger can exceed 100 records.
- A ledger record's id and its `sentAt` come from two separate clock reads.
- `limit=0` reads as the default 50.
- Toggling a file whose flag was never set leaves it selected.
- The client's picker accepts a file by its MIME type alone, or by the text
  after the last `.` of the whole name, so it passes files that the server
  then refuses:
  - a dot-file such as `.pdf` (`ClientFiles.DotFileOnlyPassesPicker`);
  - any name with a known MIME type.

  When one such file is in a request, the whole upload fails with 500.

## Model

| member | source | states |
|---|---|---|
| `FileTypes.StripTrailingSlashes` | server.js:421 | the path without trailing slashes is a prefix of it that does not end in `/` (the first step of POSIX `path.extname`) |
| `FileTypes.BaseNameOfPlainName` | server.js:421 | a name without `/` is its own base name |
| `FileTypes.ExtnameOfName` | server.js:421 | `path.extname(stem + "." + ext)` is `"." + ext` for a dot-free extension and a non-empty stem |
| `FileTypes.ExtnameOfDotted` | server.js:421 | the same, with the dot counted as part of the extension |
| `FileTypes.ExtnameOfDotFile` | server.js:421 | a dot-file such as `.pdf` has no extension |
| `FileTypes.AcceptedIffDispatched` | server.js:420-426 | the upload filter accepts a file exactly when `createCombinedPDF` has a branch for its extension |
| `FileTypes.AcceptedIgnoresCase` | server.js:421-422 | the filter compares the lower-cased extension, so `A.PDF` is accepted like `a.pdf` |
| `FileTypes.AllowedNamesAccepted` | server.js:420-426 | every name ending in one of the six allowed extensions is accepted |
| `FileTypes.KindOfDotted` | server.js:714-729 | a file's combine branch is decided by its lower-cased extension alone |
| `Folders.SlashesForward` | server.js:29 | no `\` is left, a path without one is unchanged, the result has `/` exactly where the path has either separator, and every other character is kept |
| `Folders.ExtractFolderName` | server.js:25-38 | a folder name, when there is one, holds no `/` |
| `Folders.ExtractFolderFound` | server.js:25-38 | a folder is found exactly when the path contains `/` or `\` |
| `Folders.ExtractFolderOfPath` | server.js:25-38 | for `dir + folder + sep + name` with either separator, the folder is the segment just before the last one |
| `Folders.SplitPenultimate` | server.js:30-34 | splitting such a path at `/` leaves the folder as the next-to-last part |
| `Folders.ReplaceForbidden` | server.js:550 | none of the nine characters the expression lists (angle brackets, colon, double quote, both slashes, bar, question mark, star) is left; a name without them is unchanged; a character changes only when it is one of them, and then into `_` |
| `Folders.NormalizeFolder` | server.js:550 | the normalised name holds no forbidden character and starts and ends with a non-space |
| `Folders.NormalizeIdempotent` | server.js:550 | normalising twice equals normalising once |
| `Folders.NormalizeEmptyIff` | server.js:550-551 | a folder path normalises to nothing, so no folder is created, exactly when it is all whitespace |
| `Folders.NormalizeKeepsClean` | server.js:550 | a name without forbidden characters and without whitespace at either end is kept as it is |
| `Folders.DriveParent` | server.js:548-554 | a parent folder is used exactly when a folder path is given and its normalised name is not empty, and then it is exactly `NormalizeFolder` of the path: forbidden characters replaced by `_`, then trimmed |
| `Folders.FolderFor` | server.js:905 | a non-empty body `folderName` wins; otherwise there is a folder exactly when the file name holds `/` or `\`, and it is a single segment without `/` |
| `Folders.ViewUrlRoundTrip` | server.js:587 | the view link determines the Drive file id it was built from |
| `ImageLayout.FitInside` | server.js:627-630 | the resize keeps the aspect ratio, never enlarges, fits inside 595×842, and leaves an image that already fits unchanged |
| `ImageLayout.Placement` | server.js:636-648 | the drawn rectangle lies inside the page; a dimension that fits is drawn at full size and centred; a larger one starts at 0 and is cut to the page size |
| `ImageLayout.FittedImageCentred` | server.js:627-648 | a resized image is drawn whole, at its resized size, centred on both axes |
| `DocLayout.TooWideIff` | server.js:676 | the width test `len * 7.2 > 495` holds exactly when `len >= 69` |
| `DocLayout.WrapText` | server.js:670-687 | the wrap loop produces `Wrap(text)` |
| `DocLayout.FoldFits` | server.js:674-686 | every state of the wrap loop holds only acceptable lines |
| `DocLayout.WrapLinesFit` | server.js:670-687 | every line is non-empty and at most 68 characters long, unless it is a single over-long word |
| `DocLayout.StepKeepsText` | server.js:675-685 | one round with a non-empty word appends that word, after a space, to the text of the lines |
| `DocLayout.FoldKeepsText` | server.js:674-687 | with no empty words, the lines joined by spaces are the words joined by spaces |
| `DocLayout.WrapKeepsText` | server.js:670-687 | when the text has no leading, trailing or doubled spaces, joining the lines with spaces gives back the text |
| `DocLayout.DrawText` | server.js:690-700 | the drawing loop draws `DrawnLines(lines)` |
| `DocLayout.DrawnLines` | server.js:690-700 | at most 52 lines are drawn, and never more than there are lines |
| `DocLayout.DrawnLinesOnPage` | server.js:690-700 | the first `min(n, 52)` lines are drawn in order, each at y = 792 − 14.4·i and above the 50-point margin; the line after the 52nd would fall below the margin |
| `CombinedPdf.CopiedPages` | server.js:717-721 | a merged PDF contributes its own pages, in order, tagged with their source file |
| `CombinedPdf.AddDocPage` | server.js:658-707 | `addDocToPDF` with its text in hand makes one page holding the drawn lines of the wrapped text |
| `CombinedPdf.AddFilePages` | server.js:714-729 | the loop body for one file adds the pages of that file's branch |
| `CombinedPdf.BuildCombinedPdf` | server.js:710-740 | the loop over the files builds `CombinedPages(files)` |
| `CombinedPdf.BuildFromErrPersists` | server.js:713-740 | the first file that fails decides the error of the whole build |
| `CombinedPdf.BuildFromStep` | server.js:713-730 | one more file extends the build by exactly that file's pages |
| `CombinedPdf.PagesForCount` | server.js:714-729 | a file's branch succeeds exactly when the file is readable, and then it adds its page count, tagged with its position |
| `CombinedPdf.BuildOk` | server.js:710-740 | the build succeeds exactly when every file is readable |
| `CombinedPdf.BuildShape` | server.js:713-730 | a built document has one page per PDF page, image and Word document, in upload order; other extensions add none |
| `CombinedPdf.WordDocumentOnePage` | server.js:663-700 | a Word document adds exactly one page, holding at most 52 lines |
| `CombinedPdf.AsWrittenWordFails` | server.js:660 | as written, any combined upload containing a Word document fails |
| `CombinedPdf.AsWrittenAgrees` | server.js:710-740 | without Word documents, the code as written and the corrected builder agree |
| `CombinedPdf.WordAndImageExample` | server.js:660 | a `.docx` followed by a `.png`: the code as written fails, the corrected builder yields two pages |
| `CombinedPdf.TwoFiles` | server.js:660-729 | the same comparison stated over any Word file and any image |
| `CombinedPdf.WordName` | server.js:725-727 | a `.docx` name takes the Word branch |
| `CombinedPdf.ImageName` | server.js:722-724 | a `.png` name takes the image branch |
| `QrCode.RoundHalf` | server.js:794-797 | `Math.round(n / 2)` is the integer nearest to n/2, with halves rounded up |
| `QrCode.OverlayGeometry` | server.js:766-797 | the plate and the logo are centred on the code to within one pixel; the logo sits 5 pixels inside the plate; both lie inside a code at least 90 pixels wide |
| `QrCode.LogoInsidePlate` | server.js:766-797 | the 80-pixel logo lies inside the 90-pixel plate |
| `QrCode.DefaultOverlay` | server.js:747-797 | on the 300-pixel code the plate starts at (105, 105) and the logo at (110, 110) |
| `QrCode.GenerateQr` | server.js:743-838 | the code always encodes the link; it carries the logo exactly when the logo file exists and compositing does not throw |
| `Upload.Refusal` | server.js:417-431 | multer passes one file exactly when its extension is allowed and it is at most 50 MB |
| `Upload.FirstRejectedNone` | server.js:417-431 | multer passes the request exactly when every file has an allowed extension and is at most 50 MB |
| `Upload.FirstRejectedAfter` | server.js:417-431 | files that pass do not change which later file is refused |
| `Upload.FirstRejectedNamesFirst` | server.js:417-431 | the refusal is for the first offending file, and for its extension before its size |
| `Upload.Pad2Value` | server.js:896-897 | a two-digit padded number reads back as itself |
| `Upload.ReportNameRoundTrip` | server.js:895-899 | `testreport-DDMMYYYY.pdf` gives back the day, month and year it was made from |
| `Upload.ReportNameIsPdf` | server.js:899 | the report name has the `.pdf` extension, so it passes the server's own filter |
| `Upload.DriveUpload` | server.js:585-590 | the result's view link reads back the file id, the download link is built from the same id, and the reported folder is the folder path or `Root` |
| `Upload.ResultFor` | server.js:919-926 | the entry carries the file name, the Drive id, the links for that id, the QR code and the branch |
| `Upload.FirstDriveFailure` | server.js:931-953 | the index of the first failing Drive call; every call before it succeeded |
| `Upload.ReportOutcome` | server.js:893-929 | a build error, a failed write or read-back of the report, a Drive failure, or a failed removal after Drive stored the report gives 500, with the Drive call made only after the read-back; otherwise the one result is named after the date and holds the link of the stored report |
| `Upload.AsWrittenWordUploadRefused` | server.js:660 | as written, a combined upload holding a Word document answers 500 with a build error and makes no Drive call |
| `Upload.WordUploadExample` | server.js:893-929 | for a `.docx` and a `.png` with Drive and the file system working, the code as written answers 500 because the Word reader is missing, and the repaired branch answers with the report |
| `Upload.UploadCombined` | server.js:893-929 | the combined branch answers `CombinedOutcome`, the report outcome over the repaired builder |
| `Upload.StoreReport` | server.js:906-929 | after the build, the report's write (`fs.writeFile`, line 732), read-back, Drive call, code and removal steps answer `ReportOutcome` |
| `Upload.IndividualCallsAt` | server.js:932-941 | one Drive call per file, in upload order, each for that file's name, type and folder |
| `Upload.IndividualResultsAt` | server.js:931-953 | when Drive stores every file there is one entry per file, in upload order, each carrying that file's name and Drive id |
| `Upload.UploadIndividually` | server.js:931-953 | the individual loop calls Drive up to and including the first failure; a failure gives 500, otherwise all entries are returned |
| `Upload.IndividualStep` | server.js:931-953 | one more file adds its call, and its entry when Drive answers |
| `Upload.HandleUpload` | server.js:882-974 | filter refusal gives 500, no files gives 400, combined mode with more than one file answers `CombinedOutcome` (one report, or 500 on a build, file-system or Drive failure), otherwise there is one entry per file up to the first Drive failure |
| `Upload.FirstFailureStays` | server.js:931-953 | a Drive failure stays the first failure however many calls follow |
| `EmailShape.ValidEmailIffPattern` | server.js:1009-1015 | the scan accepts exactly the strings `^[^\s@]+@[^\s@]+\.[^\s@]+$` matches |
| `EmailShape.TwoAtsRejected` | public/app.js:574-577 | an address with two `@` is never accepted (the browser uses the same expression) |
| `Ledger.SendStatus` | server.js:324-415 | a send succeeds exactly when the logo reads, the data link holds a `,` and the transport succeeds; otherwise the first failing step is the reason |
| `Ledger.RecordedFront` | server.js:382-411 | the new record goes first and the old ones follow in their order |
| `Ledger.RecordedLength` | server.js:382-411 | after a successful send the ledger is cut to 100; a failed send adds one record without a cut |
| `Ledger.FailureExceedsCap` | server.js:411 | a failure recorded on a full ledger leaves 101 records |
| `Ledger.RecordedNewestFirst` | server.js:373-411 | with a clock that never goes back, the ledger stays ordered newest first by id |
| `Ledger.EmailLedger.constructor` | server.js:88 | the ledger starts empty |
| `Ledger.EmailLedger.SendEmailWithQR` | server.js:324-415 | the attempt is recorded with its status, and the ledger becomes `Recorded(old, rec)` |
| `Ledger.EmailLedger.SendEmail` | server.js:997-1040 | a missing field or a malformed address is refused with 400 and nothing is recorded; otherwise exactly one record is added, and a failed send answers 500 |
| `Ledger.CheckRequestIff` | server.js:1001-1015 | a request reaches the send exactly when its three fields are truthy and the address has the shape; a missing field is reported before a bad address |
| `Ledger.QueryDecimal` | server.js:1045-1046 | a positive decimal query reads as its number |
| `Ledger.DefaultPage` | server.js:1043-1055 | without queries the page is the 50 newest records out of `total`; `limit=0` means 50 |
| `Ledger.PageOfDecimals` | server.js:1045-1048 | decimal queries give the slice at the numbers they spell |
| `Ledger.PageWindow` | server.js:1048-1053 | the page holds the records from `offset` on, at most `limit` of them, in order, and `total` is the ledger length |
| `Ledger.PagesTile` | server.js:1048 | two consecutive pages of the same size join without a gap or an overlap |
| `JsArray.SliceWindow` | server.js:1048 | `slice(offset, offset + limit)` holds the elements from `offset` on, at most `limit` of them, in order |
| `JsArray.CappedPrepend` | public/app.js:439 | the new elements come first in their order, then the old ones, at most `cap` in all |
| `JsArray.SpliceOne` | public/app.js:271 | an in-range index removes exactly that element; an index past the end changes nothing |
| `JsArray.FilterMembers` | public/app.js:170-177 | `filter` keeps exactly the elements that pass |
| `JsArray.FilterAppend` | public/app.js:315 | `filter` works piece by piece, so the kept elements stay in order |
| `JsText.ToLowerOfLower` | server.js:421 | text without upper-case letters is its own lower case |
| `JsText.IndexOf` | public/app.js:185 | the first position of the character, or -1 exactly when it is absent |
| `JsText.LastIndexOfSpec` | public/app.js:176 | `lastIndexOf` finds the last occurrence, and -1 exactly when the character is absent |
| `JsText.SplitJoin` | public/app.js:185 | joining the parts of a split with the separator gives back the text |
| `JsText.SplitPartsFree` | server.js:30 | no part of a split contains the separator |
| `JsText.SplitMany` | public/app.js:185-186 | a split has more than one part exactly when the separator occurs |
| `JsText.SplitFirst` | public/app.js:185-187 | the first part is the text before the first separator |
| `JsText.Trim` | public/app.js:580 | `trim` keeps a contiguous middle part that starts and ends with a non-space |
| `JsText.TrimIdempotent` | server.js:550 | trimming twice equals trimming once |
| `JsText.TrimStartDropsWhitespace` | server.js:550 | what `trimStart` drops is whitespace |
| `JsText.TrimEndDropsWhitespace` | server.js:550 | what `trimEnd` drops is whitespace |
| `JsText.TrimDropsOnlyWhitespace` | server.js:550 | `trim` drops whitespace only, before and after the middle it keeps |
| `JsText.TrimEmptyIff` | public/app.js:580-582 | `trim` leaves nothing exactly when the text is all whitespace, so `sendEmail` stops exactly for an all-whitespace address |
| `JsText.ParseIntDecimal` | server.js:1045-1046 | `parseInt` reads back what `toString` writes |
| `JsText.ParseIntNegativeDecimal` | server.js:1045-1046 | the same with a minus sign in front |
| `ClientFiles.NameTestsAgree` | public/app.js:175-177 | for a plain name that is not a dot-file, the picker's suffix test and the server's extension filter agree |
| `ClientFiles.PickerMatchesServer` | public/app.js:170-177 | for such a name, the picker keeps the file exactly when its MIME type is listed or the server would accept its name |
| `ClientFiles.DotFileOnlyPassesPicker` | public/app.js:175-177 | a dot-file such as `.pdf` passes the picker but not the server |
| `ClientFiles.PickedFolderFirstSegment` | public/app.js:184-189 | a folder is taken exactly when the first kept file's relative path has a `/`, and it is the text before the first `/` |
| `ClientFiles.FlagsDecideFilter` | public/app.js:289-317 | after select-all every file is kept; after select-none none is |
| `ClientFiles.Toggled` | public/app.js:283 | `!selected` flips a set flag, and an unset flag becomes `true` |
| `ClientFiles.ToggleTwice` | public/app.js:283 | toggling twice restores a set flag; a never-set file stays ticked after one toggle |
| `ClientFiles.StripExtensionOf` | public/app.js:518 | `stem.ext` loses exactly the final dot and extension |
| `ClientFiles.StripExtensionShape` | public/app.js:518 | only a final `.` followed by characters that are neither `/` nor `.` is ever removed |
| `ClientFiles.QrDownloadNameOf` | public/app.js:518-519 | the QR download of `stem.ext` is named `QR-stem.png` |
| `ClientFiles.PdfNameIcon` | public/app.js:549-551 | any name ending in `.pdf` gets the PDF icon, whatever else it contains |
| `ClientFiles.PdfMimeTypeIcon` | public/app.js:549-550 | the PDF type gets the PDF icon |
| `ClientFiles.MswordMimeTypeIcon` | public/app.js:549-551 | the Word 97 type gets the Word icon |
| `ClientFiles.ImageMimeTypeIcons` | public/app.js:549-552 | the three image types get the image icon |
| `ClientHistory.FindIndexById` | public/app.js:681 | the first position holding the id, or -1 when none does |
| `ClientHistory.FirstOccurrencesSound` | public/app.js:680-682 | the de-duplication keeps only records that are the first of their id |
| `ClientHistory.FirstOccurrencesUnique` | public/app.js:680-682 | the de-duplication keeps each id once |
| `ClientHistory.FirstOccurrencesComplete` | public/app.js:680-682 | every first occurrence survives |
| `ClientHistory.DedupSpec` | public/app.js:680-682 | the de-duplication keeps one record per id, the first one, and drops no id |
| `ClientHistory.Insert` | public/app.js:683 | one step of the sort adds exactly the new record |
| `ClientHistory.SortNewestFirst` | public/app.js:683 | the sort is a permutation |
| `ClientHistory.InsertSorted` | public/app.js:683 | inserting into a newest-first list keeps it newest first |
| `ClientHistory.SortSpec` | public/app.js:683 | the sort orders newest first by `sentAt` and is a permutation |
| `ClientHistory.SortKeepsUniqueIds` | public/app.js:683 | reordering keeps ids unique |
| `ClientHistory.MergeShape` | public/app.js:679-684 | the merged history has at most 50 records, one per id, newest first, all from the de-duplicated list |
| `ClientHistory.MergeSources` | public/app.js:679-682 | each shown record comes from the server or from local storage, and the server's copy wins over a local one with the same id |
| `ClientHistory.MergeKeepsNewest` | public/app.js:683-684 | whatever the cut to 50 drops is no newer than anything shown |
| `ClientHistory.MergeShowsAllWhenFew` | public/app.js:679-684 | when at most 50 ids are known, every one of them is shown |
| `ClientApp.Stamped` | public/app.js:434-437 | one entry per result, in order: the i-th carries the i-th result and the i-th clock reading as its upload time |
| `ClientApp.AllReplies` | public/app.js:609 | `Promise.all` gives all replies in request order exactly when none of the requests threw |
| `ClientApp.CollectReplies` | public/app.js:592-609 | awaiting the requests gives `AllReplies` |
| `ClientApp.CountSuccesses` | public/app.js:611 | the counting loop counts the successful replies |
| `ClientApp.CountsPartition` | public/app.js:611-612 | successes plus refusals are all the replies, so `failCount` counts the refusals |
| `ClientApp.SentRecordsCount` | public/app.js:623-627 | one record is saved per successful reply |
| `ClientApp.SavedInTurnNewestFirst` | public/app.js:623-627 | saving the records one by one leaves them newest first in front of the old history, cut to 100 |
| `ClientApp.FindByName` | public/app.js:800 | the first uploaded file with that name, or none exactly when no file has it |
| `ClientApp.ResendSuccesses` | public/app.js:833 | the number of successes is at most the number of rows |
| `ClientApp.ResendAccounting` | public/app.js:798-834 | the requests are, in row order, exactly those of the rows that name an uploaded file; a row that succeeded names an uploaded file; every other row is a failure; the two counts add up to the number of rows |
| `ClientApp.ResendRequestsUseFirstMatch` | public/app.js:798-820 | every request carries the row's address and name and the QR code of the first uploaded file with that name |
| `ClientApp.HistoryRequestAnswer` | public/app.js:674 | the page's `limit=20` request is answered with the 20 newest ledger records |
| `ClientApp.App.constructor` | public/app.js:2-12 | a fresh page has nothing picked or uploaded and reads its lists from local storage |
| `ClientApp.App.HandleFileSelection` | public/app.js:169-195 | the kept files are appended after the selection; a folder pick replaces the folder name, otherwise it is unchanged |
| `ClientApp.App.RemoveFile` | public/app.js:270-274 | the selection becomes `splice(index, 1)` of itself |
| `ClientApp.App.ToggleFileSelection` | public/app.js:281-287 | only the file at an in-range index has its flag toggled; nothing else changes |
| `ClientApp.App.SetAllFlags` | public/app.js:289-303 | every file's flag is set to the given value, in place, and nothing else changes |
| `ClientApp.App.GetSelectedFiles` | public/app.js:312-317 | with at most one file, the whole selection; otherwise exactly the files not unticked, in order |
| `ClientApp.App.GetSelectedFilesCount` | public/app.js:305-310 | the count is the length of `getSelectedFiles()`, and it is 0 exactly when nothing is picked or several are picked and all are unticked |
| `ClientApp.App.AddToRecentUploads` | public/app.js:433-442 | the stamped results go first in their order, then the older entries, at most 10 |
| `ClientApp.App.ClearSelectedFiles` | public/app.js:483-489 | the selection and the folder name are cleared |
| `ClientApp.App.UploadFiles` | public/app.js:350-391 | no request when nothing would be sent; the request carries the selected files and a non-empty folder name; success stores the results, stamps them into the recent list and clears the selection; failure changes nothing |
| `ClientApp.App.SaveEmailToLocalStorage` | public/app.js:866-877 | the record goes first and at most 100 are kept |
| `ClientApp.App.SaveSentRecords` | public/app.js:623-627 | each successful reply's record is saved in turn |
| `ClientApp.App.SendEmail` | public/app.js:579-641 | nothing is sent without an address or uploads; a request that throws ends the send with nothing counted or saved; otherwise the successes and `failCount = n − successCount` are reported, and when anything was sent the sent records are saved in reply order |
| `ClientApp.App.LoadEmailHistory` | public/app.js:668-696 | the panel shows the merge when the server answered, and the local copies alone when it did not |

## Left out

- Express routing, CORS and static middleware, multer's memory storage, and the `/`, `/test`, `/oauth/callback` and `/auth-status` routes: these are I/O plumbing.
- Google Drive and OAuth (`loadCredentials`, `createOAuth2Client`, `getAccessToken`, `createOrGetFolder`, `drive.files.create`, permissions): these are network calls. Drive's answer is the parameter `driveId`, and only the folder normalisation and the result shape are modelled.
- Nodemailer, the HTTP mail fallback and the HTML template: these are foreign calls and presentation. The transport's answer is a `Result` parameter.
- pdf-lib, sharp, qrcode and mammoth internals (PNG encoding, resizing, sharpening, QR matrices): these are library code. Pages, images and QR codes are abstract values. A Word file carries its already extracted text, and a PDF its page count.
- createZipFile: it is never called.
- Upload.HandleUpload: the combined branch is composed with the repaired document builder (`CombinedOutcome`). As written, it answers 500 for any combined upload holding a Word document; that outcome is `Upload.CombinedOutcomeAsWritten`, stated by `Upload.AsWrittenWordUploadRefused`.
- Upload.ReportOutcome: which file-system step threw is not reported; all three answer 500 with the same error. The report's path under `uploads/` and its contents on disk are not modelled.
- All DOM rendering, modals, notifications, timers, clipboard access and `formatFileSize`: presentation and floating-point formatting.
- The concurrency of `Promise.all`: bulk send and resend are modelled as requests answered in order, the i-th by `reply(i)`.
- `Date` and ISO time formatting: times are integers. A ledger record's id is its send time as a number, not the decimal string the server stores.
- JavaScript string lengths count UTF-16 code units: the model counts characters.
- `toLowerCase` is modelled for ASCII letters only.
- `parseInt` is modelled for decimal and `0x` digits without precision limits.
- localStorage JSON parse errors are left out. The three reads do not handle them alike:
  - A corrupt `recentUploads` entry makes the constructor throw (public/app.js:5), so the page never starts.
  - A corrupt `emailHistory` entry makes `loadEmailHistory` throw in its `try` (public/app.js:671). Its `catch` parses the same entry again (public/app.js:693) and throws again, so the panel shows nothing new.
  - Only `saveEmailToLocalStorage` catches the error itself (public/app.js:867-877), and it then leaves storage as it was.
- File objects are shared between the picked list and the DOM: the model holds them as values, so aliasing is not modelled.
- ImageLayout.FittedImageCentred: it assumes that sharp's integer rounding of the resized size is exact. The model keeps the exact aspect ratio in real arithmetic.
- ImageLayout.FitInside: states the resize as an exact real-valued scale, not sharp's rounded pixel sizes.
- ClientHistory.SortNewestFirst: states a permutation sorted newest first. It does not state stability among records with equal `sentAt`. `Array.prototype.sort` is stable since ECMAScript 2019, and the insertion the model uses keeps that order too, but no lemma states it.
- ClientFiles.ImageMimeTypeIcons: the icon for the Word 2007 MIME type is not proved. The type contains `doc` (in `document`) and `word` (in `wordprocessingml`), so it gets the Word icon, but that is not proved.
- ClientApp.App.SendEmail: it does not re-check the address shape. The page enables the send button only for a valid address (`updateSendEmailButton`), and the server re-checks the shape with `EmailShape.IsValidEmail`.
- ClientApp.App.SetAllFlags: it models both `selectAllFiles` and `selectNoFiles` as one method with the flag as a parameter.
- ClientApp.ResendSelectedEmails: it has no special case for an empty selection. The source then only shows a warning, and the model makes no request and reports zero counts.

## Findings

| source | as written | input that shows it | evidently intended | confidence | as-written member | corrected member |
|---|---|---|---|---|---|---|
| server.js:660 | `addDocToPDF` calls `mammoth.extractRawText`, but `mammoth` is never imported, so the call throws and the combined upload answers 500 | a combined upload of `report.docx` and `photo.png` | the Word document's text becomes one wrapped page of the combined PDF | high (not executed) | `CombinedPdf.AsWrittenWordFails` | `CombinedPdf.BuildOk` |
