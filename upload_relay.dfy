/** The upload relay of supabase/functions/upload-to-s3/index.ts as a
    function from the environment, the request and the outside world (the
    clock, the random suffix, the object store's answer) to a response.
    The request's `file` field is an RFC 2397 data URL whose part after the
    comma is base64 (section 4 of RFC 4648); `atob` is the forgiving decode
    of the HTML standard. */
module UploadRelay {
  import opened Options
  import opened JsText
  import Base64

  /** The environment variables the handler reads. */
  datatype Env = Env(
    accessKey: Option<string>,
    secretKey: Option<string>,
    region: Option<string>,
    bucket: Option<string>)

  /** The JSON fields of an upload request; an absent field is `None`. */
  datatype UploadFields = UploadFields(
    file: Option<string>,
    fileName: Option<string>,
    fileType: Option<string>,
    folder: Option<string>)

  /** The body of a POST: parsed fields, or a body that is not JSON (the
      parser's error message is kept). */
  datatype RequestBody = Json(fields: UploadFields) | Malformed(parseMessage: string)

  datatype Request = Preflight | Post(body: RequestBody)

  /** What the handler cannot compute itself: `Date.now()`, the random
      suffix `Math.random().toString(36).substring(2, 15)`, the message
      `atob` throws on bad input, and the object store's answer (`None` for
      success, else the message of the thrown error). */
  datatype World = World(
    timestamp: nat,
    randomSuffix: string,
    decodeErrorMessage: string,
    putError: Option<string>)

  datatype ResponseBody =
    | NoBody
    | ErrorBody(error: string)
    | FailureBody(error: string, message: string)
    | SuccessBody(success: bool, url: string, key: string, fileName: string, originalFileName: string)

  datatype Response = Response(status: int, headers: map<string, string>, body: ResponseBody)

  const CorsHeaders: map<string, string> := map[
    "Access-Control-Allow-Origin" := "*",
    "Access-Control-Allow-Methods" := "POST, OPTIONS",
    "Access-Control-Allow-Headers" := "Content-Type, Authorization, X-Client-Info, Apikey"]

  const JsonHeaders: map<string, string> := CorsHeaders["Content-Type" := "application/json"]

  const AllowedTypes: seq<string> := ["image/jpeg", "image/jpg", "image/png", "image/gif", "image/webp"]

  const MaxSize: nat := 10 * 1024 * 1024

  const DefaultRegion: string := "us-east-1"
  const DefaultBucket: string := "brothersphotography"

  const CredentialsMessage: string := "AWS credentials not configured"
  const MissingFieldsMessage: string := "Missing required fields: file, fileName, fileType"
  const InvalidTypeMessage: string := "Invalid file type. Only JPEG, PNG, GIF, and WebP are allowed"
  const TooLargeMessage: string := "File size exceeds 10MB limit"
  const FailureMessage: string := "Upload failed"

  function Region(env: Env): string { if Truthy(env.region) then env.region.value else DefaultRegion }

  function Bucket(env: Env): string { if Truthy(env.bucket) then env.bucket.value else DefaultBucket }

  predicate HasCredentials(env: Env) { Truthy(env.accessKey) && Truthy(env.secretKey) }

  predicate FieldsPresent(f: UploadFields) { Truthy(f.file) && Truthy(f.fileName) && Truthy(f.fileType) }

  /** `file.split(',')[1]`, which is `undefined` (and so the text
      "undefined" to `atob`) when there is no comma. */
  function Payload(file: string): string
  {
    var pieces := Split(file, ",");
    if |pieces| >= 2 then pieces[1] else "undefined"
  }

  /** The bytes `atob` makes of the payload, or nothing when it throws. */
  function DecodedPayload(file: string): Option<seq<Base64.Byte>>
  {
    Base64.ForgivingDecode(Payload(file))
  }

  /** `fileName.split('.').pop()`. */
  function Extension(fileName: string): string
  {
    LastPiece(fileName, ".")
  }

  /** `${timestamp}-${randomString}.${fileExtension}`. */
  function UniqueFileName(timestamp: nat, randomSuffix: string, fileName: string): string
  {
    Decimal(timestamp) + "-" + randomSuffix + "." + Extension(fileName)
  }

  /** `folderPath + uniqueFileName`, with `folder + '/'` only for a truthy folder. */
  function ObjectKey(folder: Option<string>, uniqueName: string): string
  {
    (if Truthy(folder) then folder.value + "/" else "") + uniqueName
  }

  function PublicUrl(bucket: string, region: string, key: string): string
  {
    "https://" + bucket + ".s3." + region + ".amazonaws.com/" + key
  }

  function Fail(message: string): Response
  {
    Response(500, JsonHeaders, FailureBody(FailureMessage, message))
  }

  /** The request handler, check by check in the order the source makes them. */
  function Handle(env: Env, req: Request, world: World): Response
  {
    if req.Preflight? then Response(200, CorsHeaders, NoBody)
    else if !HasCredentials(env) then Response(500, JsonHeaders, ErrorBody(CredentialsMessage))
    else if req.body.Malformed? then Fail(req.body.parseMessage)
    else
      var f := req.body.fields;
      if !FieldsPresent(f) then Response(400, JsonHeaders, ErrorBody(MissingFieldsMessage))
      else if f.fileType.value !in AllowedTypes then Response(400, JsonHeaders, ErrorBody(InvalidTypeMessage))
      else
        var bytes := DecodedPayload(f.file.value);
        if bytes.None? then Fail(world.decodeErrorMessage)
        else if |bytes.value| > MaxSize then Response(400, JsonHeaders, ErrorBody(TooLargeMessage))
        else
          var name := UniqueFileName(world.timestamp, world.randomSuffix, f.fileName.value);
          var key := ObjectKey(f.folder, name);
          if world.putError.Some? then Fail(world.putError.value)
          else Response(200, JsonHeaders,
                        SuccessBody(true, PublicUrl(Bucket(env), Region(env), key), key, name, f.fileName.value))
  }

  // ------------------------------------------------------------------ properties

  /** A preflight request gets 200, the CORS headers and no body, whatever
      else holds. */
  lemma PreflightOnly(env: Env, world: World)
    ensures Handle(env, Preflight, world) == Response(200, CorsHeaders, NoBody)
  {
  }

  /** Missing credentials give 500 before the body is looked at: the
      response does not depend on the body or the world. */
  lemma CredentialsCheckedFirst(env: Env, b1: RequestBody, b2: RequestBody, w1: World, w2: World)
    requires !HasCredentials(env)
    ensures Handle(env, Post(b1), w1) == Handle(env, Post(b2), w2)
    ensures Handle(env, Post(b1), w1) == Response(500, JsonHeaders, ErrorBody(CredentialsMessage))
  {
  }

  /** The status of every POST, by the first check that fails. */
  lemma StatusOrder(env: Env, f: UploadFields, world: World)
    ensures var r := Handle(env, Post(Json(f)), world);
            && (!HasCredentials(env) ==> r.status == 500)
            && (HasCredentials(env) && !FieldsPresent(f) ==> r.status == 400)
            && (HasCredentials(env) && FieldsPresent(f) && f.fileType.value !in AllowedTypes ==> r.status == 400)
            && (HasCredentials(env) && FieldsPresent(f) && f.fileType.value in AllowedTypes ==>
                  r.status == (if DecodedPayload(f.file.value).None? then 500
                               else if |DecodedPayload(f.file.value).value| > MaxSize then 400
                               else if world.putError.Some? then 500
                               else 200))
  {
  }

  /** A POST succeeds exactly when every check passes and the store accepts
      the object. */
  lemma SuccessIff(env: Env, body: RequestBody, world: World)
    ensures Handle(env, Post(body), world).status == 200 <==>
              && HasCredentials(env) && body.Json? && FieldsPresent(body.fields)
              && body.fields.fileType.value in AllowedTypes
              && DecodedPayload(body.fields.file.value).Some?
              && |DecodedPayload(body.fields.file.value).value| <= MaxSize
              && world.putError.None?
  {
  }

  /** A POST is answered with a 2xx status only together with a success body. */
  lemma PostSuccessBody(env: Env, body: RequestBody, world: World)
    ensures var r := Handle(env, Post(body), world);
            200 <= r.status < 300 ==> r.status == 200 && r.body.SuccessBody?
  {
  }

  /** Any failure after the credentials are found is reported as 'Upload
      failed' with the thrown message. */
  lemma FailuresReported(env: Env, body: RequestBody, world: World)
    requires Handle(env, Post(body), world).status == 500 && HasCredentials(env)
    ensures Handle(env, Post(body), world).body.FailureBody?
    ensures Handle(env, Post(body), world).body.error == FailureMessage
  {
  }

  /** On success the body names the object: its key is the optional folder
      and the generated name, the name keeps the upload's extension (the
      text after the last '.', or the whole name without a dot), and the
      URL is the bucket's public address in its region. */
  lemma SuccessBodyShape(env: Env, f: UploadFields, world: World)
    requires Handle(env, Post(Json(f)), world).status == 200
    ensures var b := Handle(env, Post(Json(f)), world).body;
            && b.SuccessBody? && b.success
            && b.key == (if Truthy(f.folder) then f.folder.value + "/" else "") + b.fileName
            && b.url == "https://" + Bucket(env) + ".s3." + Region(env) + ".amazonaws.com/" + b.key
            && b.originalFileName == f.fileName.value
            && b.fileName == Decimal(world.timestamp) + "-" + world.randomSuffix + "." + Extension(f.fileName.value)
  {
  }

  /** When every check passes, the relay answers 200 with the object's
      public URL, its key, the generated name and the uploaded name. */
  lemma Accepted(env: Env, f: UploadFields, world: World, b: seq<Base64.Byte>)
    requires HasCredentials(env) && FieldsPresent(f) && f.fileType.value in AllowedTypes
    requires DecodedPayload(f.file.value) == Some(b) && |b| <= MaxSize && world.putError.None?
    ensures var name := UniqueFileName(world.timestamp, world.randomSuffix, f.fileName.value);
            var key := ObjectKey(f.folder, name);
            Handle(env, Post(Json(f)), world) ==
              Response(200, JsonHeaders, SuccessBody(true, PublicUrl(Bucket(env), Region(env), key), key, name, f.fileName.value))
  {
  }

  /** The extension holds no '.'; without a dot it is the whole name, and
      with one the name ends in '.' and the extension. */
  lemma ExtensionAfterLastDot(fileName: string)
    ensures '.' !in Extension(fileName)
    ensures '.' !in fileName ==> Extension(fileName) == fileName
    ensures '.' in fileName ==>
              && |Extension(fileName)| < |fileName|
              && fileName[|fileName| - |Extension(fileName)| - 1..] == "." + Extension(fileName)
  {
    LastPieceIsSuffix(fileName, '.');
  }

  /** With no region or bucket set, the defaults are used. */
  lemma DefaultLocation(accessKey: Option<string>, secretKey: Option<string>)
    ensures Region(Env(accessKey, secretKey, None, None)) == "us-east-1"
    ensures Bucket(Env(accessKey, secretKey, None, None)) == "brothersphotography"
  {
  }

  /** The payload of a data URL whose media type has no comma is its base64
      text, and `atob` gives back exactly the encoded bytes. */
  lemma DataUrlPayload(mime: string, b: seq<Base64.Byte>)
    requires ',' !in mime
    ensures Payload(Base64.DataUrl(mime, b)) == Base64.Encode(b)
    ensures DecodedPayload(Base64.DataUrl(mime, b)) == Some(b)
  {
    var e := Base64.Encode(b);
    var head := "data:" + mime + ";base64";
    assert Base64.DataUrl(mime, b) == head + [','] + e;
    SplitAtFirst(head, ',', e);
    IncludesChar(e, ',');
    SplitWithoutSeparator(e, ",");
    Base64.DecodeEncode(b);
  }

  /** The size check is inclusive: a payload of exactly 10 MiB passes it and
      one byte more does not. */
  lemma SizeBoundary(env: Env, mime: string, name: string, folder: Option<string>, world: World, b: seq<Base64.Byte>)
    requires HasCredentials(env) && world.putError.None?
    requires ',' !in mime && mime in AllowedTypes && name != ""
    ensures var r := Handle(env, Post(Json(UploadFields(Some(Base64.DataUrl(mime, b)), Some(name), Some(mime), folder))), world);
            r.status == (if |b| <= MaxSize then 200 else 400)
  {
    DataUrlPayload(mime, b);
  }
}
