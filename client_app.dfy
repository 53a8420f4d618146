// The browser client's state and the operations that change it: the files
// picked for upload and the folder they came from, the results of the last
// upload, the recent-uploads list and the e-mail history kept in local
// storage; and the bulk send and resend flows built on `/send-email`.

module ClientApp {

  import opened JsArray
  import opened JsText
  import opened Records
  import opened Ledger
  import opened ClientFiles
  import opened ClientHistory

  /** The recent-uploads list keeps this many entries. */
  const RecentCap: nat := 10

  /** The local e-mail history keeps this many records. */
  const LocalHistoryCap: nat := 100

  /** An upload result with the time it joined the recent-uploads list. */
  datatype RecentUpload = RecentUpload(result: UploadResult, uploadTime: int)

  /** The form an upload posts: the files, the mode and the folder name when
      there is a non-empty one. */
  datatype UploadRequest = UploadRequest(files: seq<PickedFile>, uploadMode: string, folderName: Option<string>)

  /** The body of one `/send-email` request. */
  datatype EmailRequest = EmailRequest(recipientEmail: string, fileName: string, qrCode: QrImage)

  /** How a bulk send ends: nothing sent (no address or nothing uploaded),
      a request that threw (so `Promise.all` rejects and nothing is counted
      or saved), or the counts over all replies. */
  datatype SendOutcome =
    | NothingToSend
    | SendCrashed(requests: seq<EmailRequest>)
    | SendCounts(requests: seq<EmailRequest>, successCount: nat, failCount: nat)

  // ---- recent uploads ----

  /** `results.map(result => ({ ...result, uploadTime }))`, the i-th result
      stamped with the i-th clock reading. */
  function Stamped(results: seq<UploadResult>, clock: nat -> int): (r: seq<RecentUpload>)
    ensures |r| == |results|
    ensures forall i :: 0 <= i < |r| ==> r[i].result == results[i] && r[i].uploadTime == clock(i)
  {
    seq(|results|, i requires 0 <= i < |results| => RecentUpload(results[i], clock(i)))
  }

  // ---- the bulk send ----

  /** One request per uploaded file, to the same address. */
  function EmailRequests(recipient: string, files: seq<UploadResult>): seq<EmailRequest>
  {
    seq(|files|, i requires 0 <= i < |files| => EmailRequest(recipient, files[i].fileName, files[i].qrCode))
  }

  /** The first `n` replies, or nothing when one of them is missing because
      its request threw. */
  function AllReplies(reply: nat -> Option<EmailResponse>, n: nat): (r: Option<seq<EmailResponse>>)
    ensures r.Some? <==> forall i :: 0 <= i < n ==> reply(i).Some?
    ensures r.Some? ==> |r.value| == n && forall i :: 0 <= i < n ==> r.value[i] == reply(i).value
  {
    if n == 0 then Some([])
    else
      match AllReplies(reply, n - 1)
      case None => None
      case Some(rs) => if reply(n - 1).None? then None else Some(rs + [reply(n - 1).value])
  }

  predicate Succeeded(r: EmailResponse)
  {
    r.EmailSent?
  }

  predicate Refused(r: EmailResponse)
  {
    r.EmailRefused?
  }

  /** `results.filter(r => r.success).length`. */
  function SuccessCount(rs: seq<EmailResponse>): nat
  {
    |Filter(rs, Succeeded)|
  }

  /** The successes and the failures together are all the replies, so the
      failure count `results.length - successCount` counts the refusals. */
  lemma {:induction false} CountsPartition(rs: seq<EmailResponse>)
    ensures SuccessCount(rs) + |Filter(rs, Refused)| == |rs|
  {
    if rs != [] {
      CountsPartition(rs[..|rs| - 1]);
    }
  }

  /** The records a bulk send saves locally: those of the successful
      replies, in reply order. */
  function SentRecords(rs: seq<EmailResponse>): seq<EmailRecord>
  {
    if rs == [] then []
    else
      var last := rs[|rs| - 1];
      SentRecords(rs[..|rs| - 1]) + (if last.EmailSent? then [last.record] else [])
  }

  /** One record is saved per successful reply. */
  lemma {:induction false} SentRecordsCount(rs: seq<EmailResponse>)
    ensures |SentRecords(rs)| == SuccessCount(rs)
  {
    if rs != [] {
      SentRecordsCount(rs[..|rs| - 1]);
    }
  }

  /** `saveEmailToLocalStorage` applied to each record in turn. */
  function SavedInTurn(h: seq<EmailRecord>, recs: seq<EmailRecord>): seq<EmailRecord>
  {
    if recs == [] then h
    else CappedPrepend([recs[|recs| - 1]], SavedInTurn(h, recs[..|recs| - 1]), LocalHistoryCap)
  }

  function Reversed<T>(s: seq<T>): (r: seq<T>)
    ensures |r| == |s|
  {
    if s == [] then [] else [s[|s| - 1]] + Reversed(s[..|s| - 1])
  }

  /** Saving records one by one leaves the last saved first: the stored
      history is the saved records newest first, then the old history, cut
      to 100. */
  lemma {:induction false} SavedInTurnNewestFirst(h: seq<EmailRecord>, recs: seq<EmailRecord>)
    requires recs != []
    ensures SavedInTurn(h, recs) == Take(Reversed(recs) + h, LocalHistoryCap)
  {
    var front := recs[..|recs| - 1];
    var r := recs[|recs| - 1];
    if front == [] {
      assert Reversed(recs) == [r];
    } else {
      SavedInTurnNewestFirst(h, front);
      TakeOfTake([r], Reversed(front) + h, LocalHistoryCap);
      assert [r] + (Reversed(front) + h) == Reversed(recs) + h;
    }
  }

  // ---- resending from the history ----

  /** A ticked history row: the address and the file name it shows. */
  datatype ResendItem = ResendItem(email: string, fileName: string)

  /** `uploadedFiles.find(file => file.fileName === name)`. */
  function FindByName(files: seq<UploadResult>, name: string): (r: Option<UploadResult>)
    ensures r.None? <==> forall f :: f in files ==> f.fileName != name
    ensures r.Some? ==> exists k :: 0 <= k < |files| && files[k] == r.value && r.value.fileName == name
                                    && forall j :: 0 <= j < k ==> files[j].fileName != name
  {
    if files == [] then None
    else if files[0].fileName == name then Some(files[0])
    else
      var r := FindByName(files[1..], name);
      assert forall f :: f in files[1..] ==> f in files;
      if r.Some? then
        var k :| 0 <= k < |files[1..]| && files[1..][k] == r.value && r.value.fileName == name
                 && forall j :: 0 <= j < k ==> files[1..][j].fileName != name;
        assert files[k + 1] == r.value;
        r
      else r
  }

  /** The request a resend makes: none when no uploaded file has the row's
      name, else one carrying the first such file's code. */
  function ResendRequest(item: ResendItem, uploaded: seq<UploadResult>): Option<EmailRequest>
  {
    match FindByName(uploaded, item.fileName)
    case None => None
    case Some(f) => Some(EmailRequest(item.email, item.fileName, f.qrCode))
  }

  /** A resend succeeds when it made a request and the server answered that
      the mail was sent; a request that threw counts as a failure. */
  predicate ResendSucceeded(item: ResendItem, uploaded: seq<UploadResult>, reply: Option<EmailResponse>)
  {
    ResendRequest(item, uploaded).Some? && reply.Some? && reply.value.EmailSent?
  }

  /** The requests the resend makes, in row order. */
  function ResendRequests(items: seq<ResendItem>, uploaded: seq<UploadResult>): seq<EmailRequest>
  {
    if items == [] then []
    else
      var r := ResendRequest(items[|items| - 1], uploaded);
      ResendRequests(items[..|items| - 1], uploaded) + (if r.Some? then [r.value] else [])
  }

  /** `results.filter(r => r.success).length` over the first `n` rows. */
  function ResendSuccesses(items: seq<ResendItem>, uploaded: seq<UploadResult>,
                           reply: nat -> Option<EmailResponse>, n: nat): (c: nat)
    requires n <= |items|
    ensures c <= n
  {
    if n == 0 then 0
    else ResendSuccesses(items, uploaded, reply, n - 1)
         + (if ResendSucceeded(items[n - 1], uploaded, reply(n - 1)) then 1 else 0)
  }

  datatype ResendReport = ResendReport(requests: seq<EmailRequest>, successCount: nat, failCount: nat)

  /** `resendSelectedEmails`: the requests made for the ticked rows and the
      counts it reports; `reply(i)` is the answer to row `i`'s request. */
  function ResendSelectedEmails(items: seq<ResendItem>, uploaded: seq<UploadResult>,
                                reply: nat -> Option<EmailResponse>): ResendReport
  {
    var successes := ResendSuccesses(items, uploaded, reply, |items|);
    ResendReport(ResendRequests(items, uploaded), successes, |items| - successes)
  }

  /** A request is made exactly for the rows that name an uploaded file,
      one per such row and in row order; only those rows can succeed, so
      every other row is counted as a failure; and the two counts add up to
      the number of rows. */
  lemma {:induction false} ResendAccounting(items: seq<ResendItem>, uploaded: seq<UploadResult>,
                                            reply: nat -> Option<EmailResponse>)
    ensures var report := ResendSelectedEmails(items, uploaded, reply);
            var matched := Filter(items, (i: ResendItem) => FindByName(uploaded, i.fileName).Some?);
            |report.requests| == |matched|
            && (forall k :: 0 <= k < |matched| ==> Some(report.requests[k]) == ResendRequest(matched[k], uploaded))
            && (forall i :: 0 <= i < |items| && ResendSucceeded(items[i], uploaded, reply(i)) ==>
                  FindByName(uploaded, items[i].fileName).Some?)
            && report.successCount <= |matched|
            && report.failCount >= |items| - |matched|
            && report.successCount + report.failCount == |items|
  {
    var p := (i: ResendItem) => FindByName(uploaded, i.fileName).Some?;
    ResendCountsUpTo(items, uploaded, reply, p, |items|);
    assert items[..|items|] == items;
  }

  lemma {:induction false} ResendCountsUpTo(items: seq<ResendItem>, uploaded: seq<UploadResult>,
                                            reply: nat -> Option<EmailResponse>,
                                            p: ResendItem -> bool, n: nat)
    requires n <= |items|
    requires forall i :: p(i) == FindByName(uploaded, i.fileName).Some?
    ensures |ResendRequests(items[..n], uploaded)| == |Filter(items[..n], p)|
    ensures forall k :: 0 <= k < |Filter(items[..n], p)| ==>
              Some(ResendRequests(items[..n], uploaded)[k]) == ResendRequest(Filter(items[..n], p)[k], uploaded)
    ensures ResendSuccesses(items, uploaded, reply, n) <= |Filter(items[..n], p)|
  {
    if n > 0 {
      ResendCountsUpTo(items, uploaded, reply, p, n - 1);
      ResendStep(items, uploaded, p, n);
    }
  }

  /** Row `n - 1` adds one request and one matched row, or neither. */
  lemma ResendStep(items: seq<ResendItem>, uploaded: seq<UploadResult>, p: ResendItem -> bool, n: nat)
    requires 0 < n <= |items|
    requires forall i :: p(i) == FindByName(uploaded, i.fileName).Some?
    ensures var x := items[n - 1];
            if p(x) then
              ResendRequests(items[..n], uploaded)
                == ResendRequests(items[..n - 1], uploaded) + [ResendRequest(x, uploaded).value]
              && Filter(items[..n], p) == Filter(items[..n - 1], p) + [x]
            else
              ResendRequests(items[..n], uploaded) == ResendRequests(items[..n - 1], uploaded)
              && Filter(items[..n], p) == Filter(items[..n - 1], p)
  {
    assert items[..n][..n - 1] == items[..n - 1];
    assert items[..n][n - 1] == items[n - 1];
  }

  /** Every request carries the row's address and name and the code of the
      first uploaded file of that name. */
  lemma {:induction false} ResendRequestsUseFirstMatch(items: seq<ResendItem>, uploaded: seq<UploadResult>)
    ensures forall q :: q in ResendRequests(items, uploaded) ==>
              exists it :: it in items && FindByName(uploaded, it.fileName).Some?
                           && q == EmailRequest(it.email, it.fileName, FindByName(uploaded, it.fileName).value.qrCode)
  {
    if items != [] {
      var front := items[..|items| - 1];
      ResendRequestsUseFirstMatch(front, uploaded);
      assert forall it :: it in front ==> it in items;
      assert items[|items| - 1] in items;
    }
  }

  // ---- the server's answer to the history request ----

  /** The client asks `/email-history?limit=20`: the answer is the 20 newest
      ledger records. */
  lemma HistoryRequestAnswer(ledger: seq<EmailRecord>)
    ensures EmailHistoryPage(ledger, Some(DecimalString(20)), None).history == Take(ledger, 20)
  {
    QueryDecimal(20, 50);
  }

  /** Awaiting the requests of a bulk send in order: the replies, or
      nothing as soon as one request threw. */
  method CollectReplies(reply: nat -> Option<EmailResponse>, n: nat) returns (r: Option<seq<EmailResponse>>)
    ensures r == AllReplies(reply, n)
  {
    var results: seq<EmailResponse> := [];
    for i := 0 to n
      invariant AllReplies(reply, i) == Some(results)
    {
      if reply(i).None? {
        NoReplyStops(reply, i, n);
        return None;
      }
      results := results + [reply(i).value];
    }
    return Some(results);
  }

  lemma NoReplyStops(reply: nat -> Option<EmailResponse>, i: nat, n: nat)
    requires i < n && reply(i).None?
    ensures AllReplies(reply, n).None?
  {
  }

  /** The counting loop of `sendEmail`. */
  method CountSuccesses(results: seq<EmailResponse>) returns (successCount: nat)
    ensures successCount == SuccessCount(results)
    ensures successCount <= |results|
  {
    successCount := 0;
    for j := 0 to |results|
      invariant successCount == SuccessCount(results[..j])
    {
      assert results[..j + 1][..j] == results[..j];
      if results[j].EmailSent? {
        successCount := successCount + 1;
      }
    }
    assert results[..|results|] == results;
  }

  /** The page's state: `AITESTDOCApp`. */
  class App {
    var selectedFiles: seq<PickedFile>
    var folderName: Option<string>
    var recentUploads: seq<RecentUpload>
    var uploadedFiles: seq<UploadResult>
    /** The `emailHistory` entry of local storage. */
    var storedEmailHistory: seq<EmailRecord>

    /** A fresh page: nothing picked or uploaded, the two lists read from
        local storage. */
    constructor(storedRecent: seq<RecentUpload>, storedHistory: seq<EmailRecord>)
      ensures selectedFiles == [] && folderName == None && uploadedFiles == []
      ensures recentUploads == storedRecent && storedEmailHistory == storedHistory
    {
      selectedFiles := [];
      folderName := None;
      recentUploads := storedRecent;
      uploadedFiles := [];
      storedEmailHistory := storedHistory;
    }

    /** `handleFileSelection`: the kept files go after the current selection;
        a folder pick names the folder. */
    method HandleFileSelection(files: seq<PickedFile>)
      modifies this
      ensures selectedFiles == old(selectedFiles) + AcceptedFiles(files)
      ensures folderName == (if PickedFolder(AcceptedFiles(files)).Some? then PickedFolder(AcceptedFiles(files))
                             else old(folderName))
      ensures recentUploads == old(recentUploads) && uploadedFiles == old(uploadedFiles)
      ensures storedEmailHistory == old(storedEmailHistory)
    {
      var validFiles := AcceptedFiles(files);
      if |validFiles| > 0 && validFiles[0].relativePath != "" {
        var pathParts := Split(validFiles[0].relativePath, '/');
        if |pathParts| > 1 {
          folderName := Some(pathParts[0]);
        }
      }
      selectedFiles := selectedFiles + validFiles;
    }

    /** `removeFile`: `splice(index, 1)`. */
    method RemoveFile(index: int)
      modifies this
      ensures selectedFiles == SpliceOne(old(selectedFiles), index)
      ensures folderName == old(folderName) && recentUploads == old(recentUploads)
      ensures uploadedFiles == old(uploadedFiles) && storedEmailHistory == old(storedEmailHistory)
    {
      selectedFiles := SpliceOne(selectedFiles, index);
    }

    /** `toggleFileSelection`: flips the flag of the file at an existing
        position and leaves everything else alone. */
    method ToggleFileSelection(index: int)
      modifies this
      ensures 0 <= index < |old(selectedFiles)| ==>
                selectedFiles == old(selectedFiles)[index := old(selectedFiles)[index].(selected := Toggled(old(selectedFiles)[index].selected))]
      ensures !(0 <= index < |old(selectedFiles)|) ==> selectedFiles == old(selectedFiles)
      ensures folderName == old(folderName) && recentUploads == old(recentUploads)
      ensures uploadedFiles == old(uploadedFiles) && storedEmailHistory == old(storedEmailHistory)
    {
      if 0 <= index < |selectedFiles| {
        var f := selectedFiles[index];
        selectedFiles := selectedFiles[index := f.(selected := Toggled(f.selected))];
      }
    }

    /** `selectAllFiles` / `selectNoFiles`: sets every file's flag. */
    method SetAllFlags(flag: bool)
      modifies this
      ensures selectedFiles == WithFlag(old(selectedFiles), flag)
      ensures folderName == old(folderName) && recentUploads == old(recentUploads)
      ensures uploadedFiles == old(uploadedFiles) && storedEmailHistory == old(storedEmailHistory)
    {
      for i := 0 to |selectedFiles|
        invariant |selectedFiles| == |old(selectedFiles)|
        invariant forall k :: 0 <= k < i ==> selectedFiles[k] == old(selectedFiles)[k].(selected := Some(flag))
        invariant forall k :: i <= k < |selectedFiles| ==> selectedFiles[k] == old(selectedFiles)[k]
        invariant folderName == old(folderName) && recentUploads == old(recentUploads)
        invariant uploadedFiles == old(uploadedFiles) && storedEmailHistory == old(storedEmailHistory)
      {
        selectedFiles := selectedFiles[i := selectedFiles[i].(selected := Some(flag))];
      }
    }

    /** `getSelectedFiles`: every file when there is at most one, otherwise
        exactly the ticked ones, in order. */
    function GetSelectedFiles(): (r: seq<PickedFile>)
      reads this
      ensures |selectedFiles| <= 1 ==> r == selectedFiles
      ensures |selectedFiles| > 1 ==> r == KeepSelected(selectedFiles)
                                      && forall f :: f in r <==> f in selectedFiles && IsSelected(f)
    {
      if |selectedFiles| <= 1 then selectedFiles
      else
        FilterMembers(selectedFiles, IsSelected);
        KeepSelected(selectedFiles)
    }

    /** `getSelectedFilesCount`: the number of files an upload would send;
        it is 0, and the upload button disabled, exactly when nothing is
        picked or several files are picked and none is ticked. */
    function GetSelectedFilesCount(): (n: nat)
      reads this
      ensures n == |GetSelectedFiles()|
      ensures n == 0 <==> |selectedFiles| == 0
                          || (|selectedFiles| > 1 && forall f :: f in selectedFiles ==> !IsSelected(f))
    {
      if |selectedFiles| <= 1 then |selectedFiles|
      else
        FilterMembers(selectedFiles, IsSelected);
        var kept := KeepSelected(selectedFiles);
        assert kept != [] ==> kept[0] in kept;
        |kept|
    }

    /** `addToRecentUploads`: the new results first, in their order, then
        the older entries, at most 10. */
    method AddToRecentUploads(results: seq<UploadResult>, clock: nat -> int)
      modifies this
      ensures recentUploads == CappedPrepend(Stamped(results, clock), old(recentUploads), RecentCap)
      ensures selectedFiles == old(selectedFiles) && folderName == old(folderName)
      ensures uploadedFiles == old(uploadedFiles) && storedEmailHistory == old(storedEmailHistory)
    {
      var uploads := Stamped(results, clock);
      recentUploads := Take(uploads + recentUploads, RecentCap);
    }

    /** `clearSelectedFiles`. */
    method ClearSelectedFiles()
      modifies this
      ensures selectedFiles == [] && folderName == None
      ensures recentUploads == old(recentUploads) && uploadedFiles == old(uploadedFiles)
      ensures storedEmailHistory == old(storedEmailHistory)
    {
      selectedFiles := [];
      folderName := None;
    }

    /** `uploadFiles`: nothing happens when no file would be sent; otherwise
        the selected files are posted, and on a successful answer its results
        become the uploaded files, join the recent list, and the selection
        is cleared. A failed answer leaves the state as it was. */
    method UploadFiles(uploadMode: string, answer: Option<seq<UploadResult>>, clock: nat -> int)
      returns (request: Option<UploadRequest>)
      modifies this
      ensures old(GetSelectedFiles()) == [] ==> request == None
      ensures old(GetSelectedFiles()) != [] ==>
                request == Some(UploadRequest(old(GetSelectedFiles()), uploadMode,
                                              if old(folderName).Some? && old(folderName).value != "" then old(folderName) else None))
      ensures old(GetSelectedFiles()) != [] && answer.Some? ==>
                uploadedFiles == answer.value
                && recentUploads == CappedPrepend(Stamped(answer.value, clock), old(recentUploads), RecentCap)
                && selectedFiles == [] && folderName == None
      ensures old(GetSelectedFiles()) == [] || answer.None? ==>
                uploadedFiles == old(uploadedFiles) && recentUploads == old(recentUploads)
                && selectedFiles == old(selectedFiles) && folderName == old(folderName)
      ensures storedEmailHistory == old(storedEmailHistory)
    {
      var filesToUpload := GetSelectedFiles();
      if |filesToUpload| == 0 {
        return None;
      }
      var folderField := if folderName.Some? && folderName.value != "" then folderName else None;
      request := Some(UploadRequest(filesToUpload, uploadMode, folderField));
      if answer.Some? {
        uploadedFiles := answer.value;
        AddToRecentUploads(answer.value, clock);
        ClearSelectedFiles();
      }
    }

    /** `saveEmailToLocalStorage`: the record goes first, at most 100 are
        kept. */
    method SaveEmailToLocalStorage(rec: EmailRecord)
      modifies this
      ensures storedEmailHistory == CappedPrepend([rec], old(storedEmailHistory), LocalHistoryCap)
      ensures selectedFiles == old(selectedFiles) && folderName == old(folderName)
      ensures recentUploads == old(recentUploads) && uploadedFiles == old(uploadedFiles)
    {
      var localHistory := storedEmailHistory;
      localHistory := [rec] + localHistory;
      storedEmailHistory := Take(localHistory, LocalHistoryCap);
    }

    /** The saving loop of `sendEmail`: each successful reply's record is
        saved in turn. */
    method SaveSentRecords(results: seq<EmailResponse>)
      modifies this
      ensures storedEmailHistory == SavedInTurn(old(storedEmailHistory), SentRecords(results))
      ensures selectedFiles == old(selectedFiles) && folderName == old(folderName)
      ensures recentUploads == old(recentUploads) && uploadedFiles == old(uploadedFiles)
    {
      for j := 0 to |results|
        invariant storedEmailHistory == SavedInTurn(old(storedEmailHistory), SentRecords(results[..j]))
        invariant selectedFiles == old(selectedFiles) && folderName == old(folderName)
        invariant recentUploads == old(recentUploads) && uploadedFiles == old(uploadedFiles)
      {
        assert results[..j + 1][..j] == results[..j];
        if results[j].EmailSent? {
          SaveEmailToLocalStorage(results[j].record);
          var recs := SentRecords(results[..j]);
          assert SentRecords(results[..j + 1]) == recs + [results[j].record];
          assert (recs + [results[j].record])[..|recs|] == recs;
        } else {
          assert SentRecords(results[..j + 1]) == SentRecords(results[..j]);
        }
      }
      assert results[..|results|] == results;
    }

    /** `sendEmail`: mails every uploaded file's code to the trimmed address.
        With no address or nothing uploaded nothing is sent. When every
        request got a reply the successes and failures are counted, and if
        anything was sent the records of the successful replies are saved
        locally in reply order. `reply(i)` is the answer to the i-th request,
        absent when that request threw. */
    method SendEmail(recipientInput: string, reply: nat -> Option<EmailResponse>) returns (outcome: SendOutcome)
      modifies this
      ensures var recipient := Trim(recipientInput);
              var n := |old(uploadedFiles)|;
              if recipient == "" || n == 0 then
                outcome == NothingToSend && storedEmailHistory == old(storedEmailHistory)
              else if AllReplies(reply, n).None? then
                outcome == SendCrashed(EmailRequests(recipient, old(uploadedFiles)))
                && storedEmailHistory == old(storedEmailHistory)
              else
                var rs := AllReplies(reply, n).value;
                outcome == SendCounts(EmailRequests(recipient, old(uploadedFiles)), SuccessCount(rs), n - SuccessCount(rs))
                && storedEmailHistory == (if SuccessCount(rs) > 0 then SavedInTurn(old(storedEmailHistory), SentRecords(rs))
                                          else old(storedEmailHistory))
      ensures selectedFiles == old(selectedFiles) && folderName == old(folderName)
      ensures recentUploads == old(recentUploads) && uploadedFiles == old(uploadedFiles)
    {
      var recipient := Trim(recipientInput);
      if recipient == "" || |uploadedFiles| == 0 {
        return NothingToSend;
      }
      var requests := EmailRequests(recipient, uploadedFiles);
      var results := CollectReplies(reply, |uploadedFiles|);
      if results.None? {
        return SendCrashed(requests);
      }
      var successCount := CountSuccesses(results.value);
      var failCount := |results.value| - successCount;
      if successCount > 0 {
        SaveSentRecords(results.value);
      }
      outcome := SendCounts(requests, successCount, failCount);
    }

    /** `loadEmailHistory`: what the history panel shows, given the
        server's answer (absent when the request failed). */
    method LoadEmailHistory(serverAnswer: Option<seq<EmailRecord>>) returns (shown: seq<EmailRecord>)
      ensures shown == ShownHistory(serverAnswer, storedEmailHistory)
      ensures serverAnswer.Some? ==> |shown| <= ShownCap && UniqueIds(shown) && NewestFirstBySentAt(shown)
    {
      var localHistory := storedEmailHistory;
      if serverAnswer.Some? {
        shown := MergeHistory(serverAnswer.value, localHistory);
        MergeShape(serverAnswer.value, localHistory);
      } else {
        shown := localHistory;
      }
    }
  }
}
