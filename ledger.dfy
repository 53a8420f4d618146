// The server's e-mail side: the process-wide send ledger that
// `sendEmailWithQR` prepends to, the `/send-email` request checks, and the
// `/email-history` page.

module Ledger {

  import opened JsArray
  import opened JsText
  import opened Records
  import opened EmailShape

  /** The ledger keeps this many records after a successful send. */
  const HistoryCap: nat := 100

  /** How a send ends: reading the brand mark throws first, then decoding
      the part after the data URL's first `,` (there is none without a
      `,`), then the transport, whose answer is `transport`. */
  function SendStatus(qrCodeDataUrl: string, logoReadable: bool, transport: Result<string, string>): (s: EmailStatus)
    ensures s.Sent? <==> logoReadable && ',' in qrCodeDataUrl && transport.Ok?
    ensures s.Sent? ==> s.messageId == transport.value
    ensures !logoReadable ==> s == Failed(LogoUnreadable)
    ensures logoReadable && ',' !in qrCodeDataUrl ==> s == Failed(MissingQrData)
    ensures logoReadable && ',' in qrCodeDataUrl && transport.Err? ==> s == Failed(TransportFailed(transport.error))
  {
    if !logoReadable then Failed(LogoUnreadable)
    else if ',' !in qrCodeDataUrl then Failed(MissingQrData)
    else match transport
      case Ok(id) => Sent(id)
      case Err(message) => Failed(TransportFailed(message))
  }

  /** The ledger after `rec` is recorded: a sent record goes first and the
      ledger is cut to its first 100 records; a failed one goes first and
      nothing is cut. */
  function Recorded(h: seq<EmailRecord>, rec: EmailRecord): seq<EmailRecord>
  {
    if rec.status.Sent? then CappedPrepend([rec], h, HistoryCap) else [rec] + h
  }

  /** The new record is first, followed by the old ones in their order. */
  lemma RecordedFront(h: seq<EmailRecord>, rec: EmailRecord)
    ensures var r := Recorded(h, rec);
            |r| >= 1 && r[0] == rec && r[1..] == h[..|r| - 1]
  {
    var r := Recorded(h, rec);
    assert r[1..] == h[..|r| - 1];
  }

  /** After a successful send the ledger holds at most 100 records; a failed
      send adds one record whatever the length. */
  lemma RecordedLength(h: seq<EmailRecord>, rec: EmailRecord)
    ensures rec.status.Sent? ==> |Recorded(h, rec)| == if |h| < HistoryCap then |h| + 1 else HistoryCap
    ensures rec.status.Failed? ==> |Recorded(h, rec)| == |h| + 1
  {
  }

  /** A failure recorded on a full ledger pushes it past the cap. */
  lemma FailureExceedsCap(h: seq<EmailRecord>, rec: EmailRecord)
    requires |h| == HistoryCap && rec.status.Failed?
    ensures |Recorded(h, rec)| == HistoryCap + 1
  {
  }

  /** Records are ordered newest first by their id, the clock reading taken
      when they were made. */
  predicate NewestFirst(h: seq<EmailRecord>)
  {
    forall i, j :: 0 <= i < j < |h| ==> h[j].id <= h[i].id
  }

  /** With a clock that never goes back, recording keeps the ledger newest
      first. */
  lemma RecordedNewestFirst(h: seq<EmailRecord>, rec: EmailRecord)
    requires NewestFirst(h)
    requires forall k :: 0 <= k < |h| ==> h[k].id <= rec.id
    ensures NewestFirst(Recorded(h, rec))
  {
    var r := Recorded(h, rec);
    RecordedFront(h, rec);
    forall i, j | 0 <= i < j < |r|
      ensures r[j].id <= r[i].id
    {
      assert r[j] == h[j - 1];
      if i > 0 {
        assert r[i] == h[i - 1];
      }
    }
  }

  /** The process-wide `emailHistory` array. */
  class EmailLedger {
    var history: seq<EmailRecord>

    constructor()
      ensures history == []
    {
      history := [];
    }

    /** `sendEmailWithQR`: tries the send and records the attempt. `now` is
        the clock reading that becomes the record's id and `sentAt` the one
        its time stamp is made from. */
    method SendEmailWithQR(recipientEmail: string, fileName: string, qrCodeDataUrl: string,
                           logoReadable: bool, transport: Result<string, string>, now: nat, sentAt: int)
      returns (rec: EmailRecord)
      modifies this
      ensures rec == EmailRecord(now, recipientEmail, fileName, sentAt,
                                 SendStatus(qrCodeDataUrl, logoReadable, transport))
      ensures history == Recorded(old(history), rec)
    {
      var status: EmailStatus;
      if !logoReadable {
        status := Failed(LogoUnreadable);
      } else if ',' !in qrCodeDataUrl {
        status := Failed(MissingQrData);
      } else if transport.Err? {
        status := Failed(TransportFailed(transport.error));
      } else {
        status := Sent(transport.value);
      }
      rec := EmailRecord(now, recipientEmail, fileName, sentAt, status);
      history := [rec] + history;
      if status.Sent? && |history| > HistoryCap {
        history := history[..HistoryCap];
      }
    }

    /** The `/send-email` handler: a missing field or a malformed address
        is answered 400 before anything is sent or recorded; otherwise the
        send is tried, recorded, and answered 200 or 500. */
    method SendEmail(recipientEmail: Option<string>, fileName: Option<string>, qrCodeDataUrl: Option<string>,
                     logoReadable: bool, transport: Result<string, string>, now: nat, sentAt: int)
      returns (resp: EmailResponse)
      modifies this
      ensures CheckRequest(recipientEmail, fileName, qrCodeDataUrl).Some? ==>
                resp == EmailRefused(400, CheckRequest(recipientEmail, fileName, qrCodeDataUrl).value)
                && history == old(history)
      ensures CheckRequest(recipientEmail, fileName, qrCodeDataUrl).None? ==>
                var rec := EmailRecord(now, recipientEmail.value, fileName.value, sentAt,
                                       SendStatus(qrCodeDataUrl.value, logoReadable, transport));
                history == Recorded(old(history), rec)
                && resp == (if rec.status.Sent? then EmailSent(rec.status.messageId, rec)
                            else EmailRefused(500, SendError(rec.status.reason)))
    {
      var refusal := CheckRequest(recipientEmail, fileName, qrCodeDataUrl);
      if refusal.Some? {
        return EmailRefused(400, refusal.value);
      }
      var rec := SendEmailWithQR(recipientEmail.value, fileName.value, qrCodeDataUrl.value,
                                 logoReadable, transport, now, sentAt);
      if rec.status.Sent? {
        resp := EmailSent(rec.status.messageId, rec);
      } else {
        resp := EmailRefused(500, SendError(rec.status.reason));
      }
    }
  }

  // ---- `/send-email` checks ----

  datatype EmailRefusal = MissingField | InvalidAddress | SendError(failure: SendFailure)

  datatype EmailResponse = EmailSent(messageId: string, record: EmailRecord) | EmailRefused(status: nat, refusal: EmailRefusal)

  /** A body field JavaScript reads as true: present and not empty. */
  predicate Truthy(field: Option<string>)
  {
    field.Some? && field.value != ""
  }

  /** The checks in front of the send: all three fields present, then the
      address shape. */
  function CheckRequest(recipientEmail: Option<string>, fileName: Option<string>, qrCodeDataUrl: Option<string>)
    : Option<EmailRefusal>
  {
    if !Truthy(recipientEmail) || !Truthy(fileName) || !Truthy(qrCodeDataUrl) then Some(MissingField)
    else if !IsValidEmail(recipientEmail.value) then Some(InvalidAddress)
    else None
  }

  /** A request goes to the send exactly when its three fields are present
      and its address matches the pattern; a missing field is reported
      before the address is looked at. */
  lemma CheckRequestIff(recipientEmail: Option<string>, fileName: Option<string>, qrCodeDataUrl: Option<string>)
    ensures CheckRequest(recipientEmail, fileName, qrCodeDataUrl).None? <==>
              Truthy(recipientEmail) && Truthy(fileName) && Truthy(qrCodeDataUrl) && EmailPattern(recipientEmail.value)
    ensures !Truthy(recipientEmail) || !Truthy(fileName) || !Truthy(qrCodeDataUrl) ==>
              CheckRequest(recipientEmail, fileName, qrCodeDataUrl) == Some(MissingField)
  {
    if Truthy(recipientEmail) {
      ValidEmailIffPattern(recipientEmail.value);
    }
  }

  // ---- `/email-history` ----

  datatype HistoryPage = HistoryPage(history: seq<EmailRecord>, total: nat, limit: int, offset: int)

  /** `parseInt(q) || fallback`: the fallback when the query is missing,
      does not start with a number, or parses to 0. */
  function QueryInt(q: Option<string>, fallback: int): int
  {
    match q
    case None => fallback
    case Some(s) =>
      match ParseInt(s)
      case None => fallback
      case Some(v) => if v == 0 then fallback else v
  }

  /** The page `/email-history` answers: `slice(offset, offset + limit)` of
      the ledger, its whole length as the total, and the limit and offset it
      used (50 and 0 by default). */
  function EmailHistoryPage(h: seq<EmailRecord>, limitQuery: Option<string>, offsetQuery: Option<string>): HistoryPage
  {
    PageAt(h, QueryInt(limitQuery, 50), QueryInt(offsetQuery, 0))
  }

  function PageAt(h: seq<EmailRecord>, limit: int, offset: int): HistoryPage
  {
    HistoryPage(Slice(h, offset, offset + limit), |h|, limit, offset)
  }

  /** A decimal query reads as its number. */
  lemma QueryDecimal(n: nat, fallback: int)
    requires n > 0
    ensures QueryInt(Some(DecimalString(n)), fallback) == n
  {
    ParseIntDecimal(n);
  }

  /** Without queries the page is the 50 newest records; a limit of 0 means
      50 as well. */
  lemma DefaultPage(h: seq<EmailRecord>, offsetQuery: Option<string>)
    ensures EmailHistoryPage(h, None, None) == HistoryPage(h[..if |h| < 50 then |h| else 50], |h|, 50, 0)
    ensures EmailHistoryPage(h, Some(DecimalString(0)), offsetQuery) == EmailHistoryPage(h, None, offsetQuery)
  {
    ParseIntDecimal(0);
    assert Take(h, 50) == Slice(h, 0, 0 + 50);
  }

  /** Decimal queries ask for the page at the numbers they spell. */
  lemma PageOfDecimals(h: seq<EmailRecord>, limit: nat, offset: nat)
    requires limit > 0
    ensures EmailHistoryPage(h, Some(DecimalString(limit)), Some(DecimalString(offset))) == PageAt(h, limit, offset)
  {
    QueryDecimal(limit, 50);
    if offset > 0 {
      QueryDecimal(offset, 0);
    } else {
      ParseIntDecimal(0);
    }
  }

  /** With a non-negative limit and offset the page holds the records from
      the offset on, at most `limit` of them, in ledger order; the total is
      the ledger's length. */
  lemma PageWindow(h: seq<EmailRecord>, limit: nat, offset: nat)
    ensures var p := PageAt(h, limit, offset);
            p.total == |h|
            && |p.history| == (if offset >= |h| then 0 else if offset + limit <= |h| then limit else |h| - offset)
            && forall k :: 0 <= k < |p.history| ==> p.history[k] == h[offset + k]
  {
    SliceWindow(h, offset, limit);
  }

  /** Two consecutive pages of the same size join up without a gap or an
      overlap. */
  lemma PagesTile(h: seq<EmailRecord>, limit: nat, offset: nat)
    ensures PageAt(h, limit, offset).history + PageAt(h, limit, offset + limit).history
            == Slice(h, offset, offset + 2 * limit)
  {
    SliceTile(h, offset, offset + limit, offset + 2 * limit);
  }

  /** Adjacent non-negative slices join into one. */
  lemma SliceTile<T>(s: seq<T>, a: nat, b: nat, c: nat)
    requires a <= b <= c
    ensures Slice(s, a, b) + Slice(s, b, c) == Slice(s, a, c)
  {
    if b >= |s| {
      assert Slice(s, b, c) == [];
    } else if a >= |s| {
    } else {
      var m := if c <= |s| then c else |s|;
      assert s[a..b] + s[b..m] == s[a..m];
    }
  }
}
