// Values that travel between the server and the browser client.

module Records {

  /** A computation that either yields a value or throws. */
  datatype Result<T, E> = Ok(value: T) | Err(error: E)

  /** A scannable code as the model sees it: the text it encodes and whether
      the brand mark was composited over its centre. The pixels are left out. */
  datatype QrImage = QrImage(text: string, withLogo: bool)

  /** What the file's bytes are to the document libraries: a PDF with that
      many pages, an image of that size once resized, a Word document with
      that raw text, or something none of them can read. */
  datatype Payload =
    | PdfData(pageCount: nat)
    | ImageData(width: nat, height: nat)
    | WordData(text: string)
    | Undecodable

  /** A file as the upload handler receives it from multer. */
  datatype UploadedFile = UploadedFile(originalName: string, mimeType: string, size: nat, payload: Payload)

  datatype ResultKind = Individual | CombinedPdf

  /** One entry of the `/upload` response, kept by the client as an
      uploaded file. */
  datatype UploadResult = UploadResult(
    fileName: string,
    fileId: string,
    viewUrl: string,
    downloadUrl: string,
    qrCode: QrImage,
    kind: ResultKind)

  /** Why a send throws inside `sendEmailWithQR`: the brand mark cannot be
      read, the data URL has no `,` (so there is no base64 part to decode),
      or the mail transport reports an error. */
  datatype SendFailure = LogoUnreadable | MissingQrData | TransportFailed(message: string)

  datatype EmailStatus = Sent(messageId: string) | Failed(reason: SendFailure)

  /** A ledger entry; `id` and `sentAt` are millisecond timestamps. */
  datatype EmailRecord = EmailRecord(
    id: nat,
    recipientEmail: string,
    fileName: string,
    sentAt: int,
    status: EmailStatus)
}
