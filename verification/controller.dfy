/**
  `UploadController`: the HTTP endpoints under `/upload`. Each endpoint is a
  decision function over the already-parsed request: its guard, the options it
  forwards to the service, and the service call it makes. Interceptors run
  first and may reject a file before the handler sees it.
 */
module UploadController {
  import opened Wrappers
  import opened Text
  import opened UploadTypes
  import opened ObjectStore
  import opened FileValidation
  import UploadService

  const NoFileSentMessage: string := "Nenhum arquivo enviado"
  const KeyRequiredMessage: string := "Key do arquivo é obrigatória"
  const DeletedMessage: string := "Arquivo deletado com sucesso"

  /** The largest batch `POST multiple` accepts. */
  const MaxBatchSize: nat := 10

  datatype Endpoint = PostSingle | PostMultiple | GetSignedUrl | DeleteByKey | PutByKey

  /** The interceptor each endpoint is decorated with, if any. */
  function InterceptorOf(e: Endpoint): (i: Option<Interceptor>)
    ensures i.None? <==> e == GetSignedUrl || e == DeleteByKey
    ensures i.Some? && i.value.MultipleFiles? <==> e == PostMultiple
    ensures i.Some? && i.value.MultipleFiles? ==> i.value.maxCount == MaxBatchSize && i.value.fieldName == "files"
    ensures i.Some? && i.value.SingleFile? ==> i.value.fieldName == "file"
  {
    match e
    case PostSingle => Some(FileUpload(Some("file"), Some(true), None))
    case PostMultiple => Some(MultipleFiles("files", MaxBatchSize, false))
    case PutByKey => Some(SingleFile("file", false))
    case GetSignedUrl => None
    case DeleteByKey => None
  }

  /** Only `POST single` carries the type filter and size limit; `POST multiple` and `PUT` do not. */
  lemma OnlySingleUploadIsValidated(e: Endpoint)
    ensures (InterceptorOf(e).Some? && InterceptorOf(e).value.validated) <==> e == PostSingle
    ensures e == PostSingle ==> InterceptorOf(e) == Some(SingleFile("file", true))
  {
  }

  /**
    `signedUrlExpires ? parseInt(signedUrlExpires.toString()) : undefined`:
    an absent or empty field is forwarded as `undefined`, so the service's
    3600-second default applies; any other text is forwarded parsed, `NaN` included.
   */
  function ForwardExpiry(f: Field): (n: Option<Num>)
    ensures n.None? <==> !FieldTruthy(f)
    ensures n.Some? ==> n.value == ParsedNum(f.parsed)
    ensures UploadService.ExpiresOf(UploadOptions(None, n)) ==
      (if FieldTruthy(f) then ParsedNum(f.parsed) else Finite(UploadService.DefaultSignedUrlExpires))
  {
    if FieldTruthy(f) then Some(ParsedNum(f.parsed)) else None
  }

  /**
    `POST /upload/single`. The interceptor's filter and size limit run first;
    a request without a file is refused before the service is called; otherwise
    the file is uploaded with the body's folder and forwarded expiry.
   */
  function UploadSingleFile(svc: UploadService.Service, store: Store, file: Option<File>, folder: Option<string>,
                            signedUrlExpires: Field, env: UploadService.UploadEnv): (s: UploadService.Step<UploadResult>)
    ensures file.None? ==> s == UploadService.Step(Err(BadRequest(NoFileSentMessage)), store)
    ensures file.Some? && Admit(true, file.value).Err? ==> s == UploadService.Step(Err(Admit(true, file.value).error), store)
    ensures s.result.Ok? ==> file.Some? && file.value.mimetype in AllowedMimes && file.value.size <= MaxFileSize
    ensures file.Some? && Admit(true, file.value).Ok? ==>
      s == UploadService.UploadFile(svc, store, file, UploadOptions(folder, ForwardExpiry(signedUrlExpires)), env)
  {
    match file
    case None => UploadService.Step(Err(BadRequest(NoFileSentMessage)), store)
    case Some(f) =>
      match Admit(true, f)
      case Err(e) => UploadService.Step(Err(e), store)
      case Ok(_) => UploadService.UploadFile(svc, store, file, UploadOptions(folder, ForwardExpiry(signedUrlExpires)), env)
  }

  /**
    `POST /upload/multiple`. More than ten files are refused by the
    interceptor; a missing or empty list is refused by the handler; neither
    reaches the store. No type or size check is made.
   */
  function UploadMultipleFiles(svc: UploadService.Service, store: Store, files: Option<seq<File>>, folder: Option<string>,
                               signedUrlExpires: Field, envs: seq<UploadService.UploadEnv>): (s: UploadService.Step<seq<UploadResult>>)
    requires files.Some? ==> |envs| == |files.value|
    ensures files.Some? && |files.value| > MaxBatchSize ==> s == UploadService.Step(Err(TooManyFiles), store)
    ensures (files.None? || |files.value| == 0) ==> s == UploadService.Step(Err(BadRequest(NoFileSentMessage)), store)
    ensures files.Some? && 0 < |files.value| <= MaxBatchSize ==>
      s == UploadService.UploadMultipleFiles(svc, store, files.value, UploadOptions(folder, ForwardExpiry(signedUrlExpires)), envs)
    ensures s.result.Ok? ==> files.Some? && 0 < |s.result.value| == |files.value| <= MaxBatchSize
  {
    match files
    case None => UploadService.Step(Err(BadRequest(NoFileSentMessage)), store)
    case Some(fs) =>
      if |fs| > MaxBatchSize then UploadService.Step(Err(TooManyFiles), store)
      else if |fs| == 0 then UploadService.Step(Err(BadRequest(NoFileSentMessage)), store)
      else UploadService.UploadMultipleFiles(svc, store, fs, UploadOptions(folder, ForwardExpiry(signedUrlExpires)), envs)
  }

  /**
    The expiry `GET signed-url/:key` signs for: a custom number of seconds when
    `expiresIn` is present and parses to a non-zero integer, `None` (the
    3600-second default path) when it is absent, empty, `0` or `NaN`.
   */
  function CustomExpiry(expiresIn: Field): (n: Option<int>)
    ensures n.Some? <==> FieldTruthy(expiresIn) && expiresIn.parsed.Some? && expiresIn.parsed.value != 0
    ensures n.Some? ==> n.value == expiresIn.parsed.value && n.value != 0
  {
    var seconds := if FieldTruthy(expiresIn) then Some(ParsedNum(expiresIn.parsed)) else None;
    match seconds
    case Some(s) => if Truthy(s) then Some(s.value) else None
    case None => None
  }

  /**
    `GET /upload/signed-url/:key`. An empty key is refused without signing.
    With a custom expiry of `n` seconds the URL expires `n` seconds after
    `clock`; otherwise `getFileUrl` signs for the default 3600 seconds.
   */
  function GetSignedUrlFor(key: string, expiresIn: Field, clock: int, sign: SignReply): (r: Result<UploadService.UrlGrant, HttpError>)
    ensures key == "" ==> r == Err(BadRequest(KeyRequiredMessage))
    ensures key != "" ==> (r.Ok? <==> sign.Signed?)
    ensures r.Ok? ==> r.value.signed.url == sign.url && r.value.signed.key == key
    ensures r.Ok? && CustomExpiry(expiresIn).Some? ==> r.value.signed.expiresIn == Finite(CustomExpiry(expiresIn).value)
    ensures r.Ok? && CustomExpiry(expiresIn).None? ==> r.value.signed.expiresIn == Finite(UploadService.DefaultSignedUrlExpires)
    ensures r.Ok? && CustomExpiry(expiresIn).Some? ==> r.value.expiresAt == Finite(clock + 1000 * CustomExpiry(expiresIn).value)
    ensures r.Ok? && CustomExpiry(expiresIn).None? ==> r.value.expiresAt == Finite(clock + 1000 * UploadService.DefaultSignedUrlExpires)
    ensures key != "" && r.Err? ==> r.error.BadRequest? && StartsWith(r.error.message, UploadService.SignPrefix)
  {
    if key == "" then Err(BadRequest(KeyRequiredMessage))
    else
      match CustomExpiry(expiresIn)
      case Some(n) =>
        var signed :- UploadService.GetSignedUrlWithCustomExpiry(key, n, sign);
        Ok(UploadService.UrlGrant(signed, UploadService.ExpiryTime(clock, Finite(n))))
      case None => UploadService.GetFileUrl(key, clock, sign)
  }

  /** Asking explicitly for 3600 seconds gives the same answer as asking for no expiry. */
  lemma ExplicitDefaultExpiry(key: string, text: string, clock: int, sign: SignReply)
    requires text != ""
    ensures GetSignedUrlFor(key, Given(text, Some(3600)), clock, sign) == GetSignedUrlFor(key, Absent, clock, sign)
  {
  }

  /** `DELETE /upload/:key`: the fixed success message, only once the service's delete has returned. */
  function DeleteFile(store: Store, key: string, reply: DeleteReply): (s: UploadService.Step<string>)
    ensures s.result.Ok? <==> reply.Deleted?
    ensures s.result.Ok? ==> s.result.value == DeletedMessage && key !in s.store
    ensures s.result.Ok? ==> s.store == Remove(store, key)
    ensures s.result.Err? ==> s.store == store && s.result.error == UploadService.DeleteFile(store, key, reply).result.error
  {
    var d := UploadService.DeleteFile(store, key, reply);
    match d.result
    case Err(e) => UploadService.Step(Err(e), d.store)
    case Ok(_) => UploadService.Step(Ok(DeletedMessage), d.store)
  }

  /**
    `PUT /upload/:key`. No type or size check is made; a request without a
    file is refused before the service is called. Otherwise the replace runs
    with no options, so the new object goes into the key's first path segment.
   */
  function UpdateFile(svc: UploadService.Service, store: Store, key: string, file: Option<File>,
                      env: UploadService.UploadEnv, del: DeleteReply): (s: UploadService.Step<UploadResult>)
    ensures file.None? ==> s == UploadService.Step(Err(BadRequest(NoFileSentMessage)), store)
    ensures file.Some? ==> s == UploadService.UpdateFile(svc, store, key, file, NoOptions, env, del)
    ensures s.result.Ok? ==> StartsWith(s.result.value.key, FirstSegment(key, '/') + "/") && key !in s.store
  {
    match file
    case None => UploadService.Step(Err(BadRequest(NoFileSentMessage)), store)
    case Some(f) =>
      UploadService.UpdateKeyInFolder(f, key, NoOptions, env);
      UploadService.UpdateFile(svc, store, key, file, NoOptions, env, del)
  }
}
