/** The client upload service of src/services/s3Upload.ts: the file check,
    one upload through the relay, and the batch that uploads file after file.
    Reading the file, the request and its answer are the outcomes of the
    outside world, given per file as a `ClientWorld`. */
module S3Upload {
  import opened Options
  import Base64
  import UploadRelay

  /** A browser `File`: its size is the number of its bytes. */
  datatype File = File(name: string, fileType: string, bytes: seq<Base64.Byte>)

  const MaxFileSize: nat := 10 * 1024 * 1024

  const AllowedTypes: seq<string> := ["image/jpeg", "image/jpg", "image/png", "image/gif", "image/webp"]

  const InvalidTypeMessage: string := "Invalid file type. Only JPEG, PNG, GIF, and WebP are allowed."
  const ReadFailedMessage: string := "Failed to read file"
  const UploadFailedMessage: string := "Upload failed"

  /** Why `validateFile` refuses a file. */
  datatype Rejection = WrongType | TooLarge(size: nat)

  datatype Validation = Valid | Invalid(why: Rejection)

  /** `validateFile`: the type is checked before the size, and the ceiling is inclusive. */
  function ValidateFile(f: File): (v: Validation)
    ensures v == Valid <==> f.fileType in AllowedTypes && |f.bytes| <= MaxFileSize
    ensures f.fileType !in AllowedTypes ==> v == Invalid(WrongType)
  {
    if f.fileType !in AllowedTypes then Invalid(WrongType)
    else if |f.bytes| > MaxFileSize then Invalid(TooLarge(|f.bytes|))
    else Valid
  }

  /** The error text of a refusal; `megabytes` is the size as `toFixed(2)` prints it. */
  function RejectionMessage(why: Rejection, megabytes: string): string
  {
    match why
    case WrongType => InvalidTypeMessage
    case TooLarge(_) => "File size exceeds 10MB limit. Current size: " + megabytes + "MB"
  }

  /** Exactly 10 MiB is accepted and one byte more is refused. */
  lemma SizeCeiling(name: string, t: string, b: seq<Base64.Byte>)
    requires t in AllowedTypes
    ensures |b| == MaxFileSize ==> ValidateFile(File(name, t, b)) == Valid
    ensures |b| == MaxFileSize + 1 ==> ValidateFile(File(name, t, b)) == Invalid(TooLarge(MaxFileSize + 1))
  {
  }

  /** The result object of one upload. */
  datatype UploadResult = UploadResult(
    success: bool,
    url: string,
    key: string,
    fileName: string,
    originalFileName: string,
    error: Option<string>)

  /** What the request came to: `fetch` threw, or the relay answered. */
  datatype Delivery = NetworkError(message: string) | Delivered(response: UploadRelay.Response)

  /** The outside world of one upload: whether reading the file succeeded,
      and what the request came to. */
  datatype ClientWorld = ClientWorld(readOk: bool, delivery: Delivery)

  /** The promise of `uploadToS3`: the result it resolves with, or the
      message of the `Error` it rejects with. */
  datatype Outcome = Resolved(result: UploadResult) | Rejected(message: string)

  /** One call of `uploadToS3`: the request it sends, if any, and its outcome. */
  datatype Attempt = Attempt(request: Option<UploadRelay.UploadFields>, outcome: Outcome)

  /** The request body: the data URL (`null` when the read failed), the name,
      the type and the folder. */
  function RequestFor(f: File, folder: Option<string>, readOk: bool): UploadRelay.UploadFields
  {
    UploadRelay.UploadFields(if readOk then Some(Base64.DataUrl(f.fileType, f.bytes)) else None,
                             Some(f.name), Some(f.fileType), folder)
  }

  /** How the client reads an answer: a non-2xx status fails with the body's
      `error`, or 'Upload failed' without one; a 2xx answer resolves with its body. */
  function ReadResponse(r: UploadRelay.Response): Outcome
  {
    if !(200 <= r.status < 300) then
      match r.body
      case ErrorBody(e) => Rejected(if e != "" then e else UploadFailedMessage)
      case FailureBody(e, _) => Rejected(if e != "" then e else UploadFailedMessage)
      case _ => Rejected(UploadFailedMessage)
    else
      match r.body
      case SuccessBody(ok, url, key, name, original) => Resolved(UploadResult(ok, url, key, name, original, None))
      case ErrorBody(e) => Resolved(UploadResult(false, "", "", "", "", Some(e)))
      case FailureBody(e, _) => Resolved(UploadResult(false, "", "", "", "", Some(e)))
      case NoBody => Rejected(UploadFailedMessage)
  }

  /** `uploadToS3`. An invalid file is refused before any read or request.
      When the read fails, the reader's error rejects the promise first; the
      `loadend` handler still sends a request, whose answer is ignored. */
  function UploadToS3(f: File, folder: Option<string>, w: ClientWorld, megabytes: string): (a: Attempt)
    ensures ValidateFile(f).Invalid? ==> a == Attempt(None, Rejected(RejectionMessage(ValidateFile(f).why, megabytes)))
    ensures ValidateFile(f).Valid? ==> a.request == Some(RequestFor(f, folder, w.readOk))
    ensures ValidateFile(f).Valid? && !w.readOk ==> a.outcome == Rejected(ReadFailedMessage)
  {
    var v := ValidateFile(f);
    if v.Invalid? then Attempt(None, Rejected(RejectionMessage(v.why, megabytes)))
    else
      var request := Some(RequestFor(f, folder, w.readOk));
      if !w.readOk then Attempt(request, Rejected(ReadFailedMessage))
      else match w.delivery
        case NetworkError(m) => Attempt(request, Rejected(m))
        case Delivered(r) => Attempt(request, ReadResponse(r))
  }

  /** A non-2xx answer fails with the relay's `error`, or 'Upload failed'
      when it gives none. */
  lemma FailedAnswer(r: UploadRelay.Response)
    requires !(200 <= r.status < 300)
    ensures ReadResponse(r).Rejected?
    ensures ReadResponse(r).message ==
              if (r.body.ErrorBody? || r.body.FailureBody?) && r.body.error != "" then r.body.error
              else UploadFailedMessage
  {
  }

  /** The whole path through the relay: a valid file with a name that is read
      and stored is uploaded under the relay's key, at the bucket's public
      URL; a file the client accepts is never too large for the relay. */
  lemma UploadThroughRelay(f: File, folder: Option<string>, env: UploadRelay.Env, rw: UploadRelay.World,
                           megabytes: string)
    requires ValidateFile(f).Valid? && f.name != ""
    requires UploadRelay.HasCredentials(env) && rw.putError.None?
    ensures var req := RequestFor(f, folder, true);
            var w := ClientWorld(true, Delivered(UploadRelay.Handle(env, UploadRelay.Post(UploadRelay.Json(req)), rw)));
            var key := UploadRelay.ObjectKey(folder, UploadRelay.UniqueFileName(rw.timestamp, rw.randomSuffix, f.name));
            UploadToS3(f, folder, w, megabytes).outcome ==
              Resolved(UploadResult(true, UploadRelay.PublicUrl(UploadRelay.Bucket(env), UploadRelay.Region(env), key), key,
                                    UploadRelay.UniqueFileName(rw.timestamp, rw.randomSuffix, f.name), f.name, None))
  {
    AllowedTypeShape(f.fileType);
    var req := RequestFor(f, folder, true);
    var name := UploadRelay.UniqueFileName(rw.timestamp, rw.randomSuffix, f.name);
    var key := UploadRelay.ObjectKey(folder, name);
    var url := UploadRelay.PublicUrl(UploadRelay.Bucket(env), UploadRelay.Region(env), key);
    UploadRelay.DataUrlPayload(f.fileType, f.bytes);
    UploadRelay.Accepted(env, req, rw, f.bytes);
    ReadSuccess(UploadRelay.Handle(env, UploadRelay.Post(UploadRelay.Json(req)), rw), url, key, name, f.name);
  }

  /** The client's types are the relay's, and none has a comma. */
  lemma AllowedTypeShape(t: string)
    requires t in AllowedTypes
    ensures ',' !in t && t in UploadRelay.AllowedTypes
  {
    assert forall k :: 0 <= k < |AllowedTypes| ==> ',' !in AllowedTypes[k];
  }

  lemma ReadSuccess(r: UploadRelay.Response, url: string, key: string, name: string, original: string)
    requires r == UploadRelay.Response(200, UploadRelay.JsonHeaders, UploadRelay.SuccessBody(true, url, key, name, original))
    ensures ReadResponse(r) == Resolved(UploadResult(true, url, key, name, original, None))
  {
  }

  /** The entry the batch records for a file whose upload failed. */
  function FailedEntry(f: File, message: string): UploadResult
  {
    UploadResult(false, "", "", f.name, f.name, Some(message))
  }

  /** The entry of one file in the batch. */
  function EntryFor(f: File, folder: Option<string>, w: ClientWorld, megabytes: string): UploadResult
  {
    match UploadToS3(f, folder, w, megabytes).outcome
    case Resolved(r) => r
    case Rejected(m) => FailedEntry(f, m)
  }

  /** `uploadMultipleToS3`: the files one after another, each failure caught
      and recorded, so that the files after it are still uploaded. */
  method UploadMultiple(files: seq<File>, folder: Option<string>, worlds: seq<ClientWorld>, megabytes: seq<string>)
    returns (results: seq<UploadResult>)
    requires |worlds| == |files| && |megabytes| == |files|
    ensures |results| == |files|
    ensures forall i :: 0 <= i < |files| ==> results[i] == EntryFor(files[i], folder, worlds[i], megabytes[i])
  {
    results := [];
    var i := 0;
    while i < |files|
      invariant 0 <= i <= |files|
      invariant |results| == i
      invariant forall k :: 0 <= k < i ==> results[k] == EntryFor(files[k], folder, worlds[k], megabytes[k])
    {
      var outcome := UploadToS3(files[i], folder, worlds[i], megabytes[i]).outcome;
      var entry := if outcome.Resolved? then outcome.result else FailedEntry(files[i], outcome.message);
      results := results + [entry];
      i := i + 1;
    }
  }

  /** A refused file shows up in the batch as a failure under its own name,
      with no URL and no key. */
  lemma InvalidFileEntry(f: File, folder: Option<string>, w: ClientWorld, megabytes: string)
    requires ValidateFile(f).Invalid?
    ensures var e := EntryFor(f, folder, w, megabytes);
            && !e.success && e.url == "" && e.key == ""
            && e.fileName == f.name && e.originalFileName == f.name
            && e.error == Some(RejectionMessage(ValidateFile(f).why, megabytes))
  {
  }
}
