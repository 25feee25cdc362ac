/**
  `UploadService`: upload, batch upload, delete, replace and signed-URL
  generation against the abstract bucket of `ObjectStore`. Every remote call
  takes its reply from the caller, so each success and failure path can be
  followed. All errors the service raises are `BadRequest`s.
 */
module UploadService {
  import opened Wrappers
  import opened Text
  import opened UploadTypes
  import opened ObjectStore
  import opened FileKeys

  /** The service once constructed: the configured bucket name. */
  datatype Service = Service(bucketName: string)

  /** `defaultSignedUrlExpires`, in seconds. */
  const DefaultSignedUrlExpires: int := 3600

  /** The folder `uploadFile` uses when none is given. */
  const DefaultFolder: string := "uploads"

  const MissingBucketMessage: string := "AWS_S3_BUCKET_NAME não está definido nas variáveis de ambiente"
  const UploadPrefix: string := "Erro no upload: "
  const SignPrefix: string := "Erro ao gerar URL assinada: "
  const DeletePrefix: string := "Erro ao deletar arquivo: "
  const UpdatePrefix: string := "Erro ao atualizar arquivo: "
  const NoFileMessage: string := "Nenhum arquivo fornecido"
  const NoFileForUpdateMessage: string := "Nenhum arquivo fornecido para atualização"
  const CriticalPrefix: string := "Erro crítico: "
  const CriticalMessage: string := CriticalPrefix + "arquivo anterior foi perdido durante a atualização"

  /**
    The constructor: it fails unless the bucket-name variable is set to a
    non-empty string.
   */
  function Configure(bucketName: Option<string>): (r: Result<Service, string>)
    ensures r.Ok? <==> bucketName.Some? && bucketName.value != ""
    ensures r.Ok? ==> r.value.bucketName == bucketName.value
    ensures r.Err? ==> r.error == MissingBucketMessage
  {
    match bucketName
    case Some(b) => if b == "" then Err(MissingBucketMessage) else Ok(Service(b))
    case None => Err(MissingBucketMessage)
  }

  /**
    What one upload learns from outside: the millisecond `Date.now()` used in
    the key, the random token, the clock reading the expiry is computed from,
    and the replies of the put and presign calls.
   */
  datatype UploadEnv = UploadEnv(timestamp: nat, token: string, clock: int, put: PutReply, sign: SignReply)

  /** The time a signed URL expires: `clock` plus `seconds`; an invalid date when `seconds` is `NaN`. */
  function ExpiryTime(clock: int, seconds: Num): (t: Num)
    ensures t.NaN? <==> seconds.NaN?
    ensures seconds.Finite? ==> t.value - clock == 1000 * seconds.value
  {
    match seconds
    case Finite(s) => Finite(clock + 1000 * s)
    case NaN => NaN
  }

  /** A presigned `GetObject` URL, with the key and the lifetime in seconds it was signed for. */
  datatype Presigned = Presigned(url: string, key: string, expiresIn: Num)

  /**
    `generateSignedUrl(key, expiresIn)`: a URL presigned for reading `key`
    during `expiresIn` seconds, or the wrapped signing error.
   */
  function GenerateSignedUrl(key: string, expiresIn: Num, sign: SignReply): (r: Result<Presigned, HttpError>)
    ensures r.Ok? <==> sign.Signed?
    ensures r.Ok? ==> r.value.url == sign.url && r.value.key == key && r.value.expiresIn == expiresIn
    ensures r.Err? ==> r.error == BadRequest(SignPrefix + sign.message)
  {
    match sign
    case Signed(url) => Ok(Presigned(url, key, expiresIn))
    case SignFailed(m) => Err(BadRequest(SignPrefix + m))
  }

  /** The folder an upload uses: the given one (even if empty), else `"uploads"`. */
  function FolderOf(options: UploadOptions): string {
    options.folder.GetOr(DefaultFolder)
  }

  /** The expiry, in seconds, an upload signs its URL for: the given one, else 3600. */
  function ExpiresOf(options: UploadOptions): Num {
    options.signedUrlExpires.GetOr(Finite(DefaultSignedUrlExpires))
  }

  /** The key `uploadFile` stores `file` under. */
  function UploadKey(file: File, options: UploadOptions, env: UploadEnv): string {
    GenerateFileName(file.originalname, FolderOf(options), env.timestamp, env.token)
  }

  /** The object `uploadFile` writes for `file`. */
  function ObjectOf(file: File): StoredObject {
    StoredObject(file.buffer, file.mimetype, file.originalname)
  }

  /** A step's answer together with the bucket it leaves behind. */
  datatype Step<T> = Step(result: Result<T, HttpError>, store: Store)

  /**
    `uploadFile(file, options)`. A missing file, a refused put and a failed
    presign all end in one `BadRequest` prefixed `"Erro no upload: "`. Only
    a missing file or a refused put leave the bucket as it was; when the put
    succeeded but presigning failed, the object stays written.
   */
  function UploadFile(svc: Service, store: Store, file: Option<File>, options: UploadOptions, env: UploadEnv): (u: Step<UploadResult>)
    ensures u.result.Ok? <==> file.Some? && env.put.PutOk? && env.sign.Signed?
    ensures u.result.Err? ==> u.result.error.BadRequest? && StartsWith(u.result.error.message, UploadPrefix)
    ensures file.None? ==> u == Step(Err(BadRequest(UploadPrefix + NoFileMessage)), store)
    ensures file.Some? && env.put.PutFailed? ==> u == Step(Err(BadRequest(UploadPrefix + env.put.message)), store)
    ensures file.Some? && env.put.PutOk? ==> u.store == Put(store, UploadKey(file.value, options, env), ObjectOf(file.value))
    ensures file.Some? && env.put.PutOk? && env.sign.SignFailed? ==> u.result.error == BadRequest(UploadPrefix + SignPrefix + env.sign.message)
    ensures u.result.Ok? ==>
      var r := u.result.value;
      && r.key == UploadKey(file.value, options, env)
      && r.filename == file.value.originalname
      && r.mimetype == file.value.mimetype
      && r.size == file.value.size
      && r.bucket == svc.bucketName
      && r.url == env.sign.url
      && r.etag == env.put.etag.GetOr("")
      && r.signedUrlExpires == Some(ExpiryTime(env.clock, ExpiresOf(options)))
  {
    match file
    case None => Step(Err(BadRequest(UploadPrefix + NoFileMessage)), store)
    case Some(f) =>
      var key := UploadKey(f, options, env);
      match env.put
      case PutFailed(m) => Step(Err(BadRequest(UploadPrefix + m)), store)
      case PutOk(etag) =>
        var written := Put(store, key, ObjectOf(f));
        match GenerateSignedUrl(key, ExpiresOf(options), env.sign)
        case Err(e) => Step(Err(BadRequest(UploadPrefix + e.message)), written)
        case Ok(signed) =>
          var expires := ExpiryTime(env.clock, ExpiresOf(options));
          var etagText := match etag case Some(t) => t case None => "";
          Step(Ok(UploadResult(signed.url, key, f.originalname, f.mimetype, f.size, svc.bucketName, etagText, Some(expires))), written)
  }

  /**
    A successful upload can be read back: the returned key starts with the
    folder and `/`, the bucket holds the file's bytes, type and original name
    under it, and the key carries the original name's extension.
   */
  lemma UploadedObjectReadable(svc: Service, store: Store, file: File, options: UploadOptions, env: UploadEnv)
    requires env.put.PutOk? && env.sign.Signed?
    ensures var u := UploadFile(svc, store, Some(file), options, env);
      && u.result.Ok?
      && StartsWith(u.result.value.key, FolderOf(options) + "/")
      && u.result.value.key in u.store
      && u.store[u.result.value.key] == StoredObject(file.buffer, file.mimetype, file.originalname)
      && LastSegment(u.result.value.key, '.') == Extension(file.originalname)
  {
    KeyStartsWithFolder(file.originalname, FolderOf(options), env.timestamp, env.token);
    KeyKeepsExtension(file.originalname, FolderOf(options), env.timestamp, env.token);
  }

  /** Empty options behave exactly like folder `"uploads"` and a 3600-second expiry given explicitly. */
  lemma DefaultOptions(svc: Service, store: Store, file: Option<File>, env: UploadEnv)
    ensures UploadFile(svc, store, file, NoOptions, env) ==
            UploadFile(svc, store, file, UploadOptions(Some("uploads"), Some(Finite(3600))), env)
  {
  }

  /** The keys of the uploads in a batch whose put succeeded. */
  function WrittenKeys(files: seq<File>, options: UploadOptions, envs: seq<UploadEnv>): (keys: set<string>)
    requires |envs| == |files|
    ensures forall i :: 0 <= i < |files| && envs[i].put.PutOk? ==> UploadKey(files[i], options, envs[i]) in keys
    ensures forall k :: k in keys ==> exists i :: 0 <= i < |files| && envs[i].put.PutOk? && k == UploadKey(files[i], options, envs[i])
    decreases |files|
  {
    if |files| == 0 then {}
    else
      var rest := WrittenKeys(files[1..], options, envs[1..]);
      assert forall i :: 1 <= i < |files| ==> files[i] == files[1..][i - 1] && envs[i] == envs[1..][i - 1];
      (if envs[0].put.PutOk? then {UploadKey(files[0], options, envs[0])} else {}) + rest
  }

  /** Whether upload `i` of a batch would succeed on its own. */
  predicate Succeeds(env: UploadEnv) {
    env.put.PutOk? && env.sign.Signed?
  }

  /**
    `r` is the result of uploading `file` with `env`, field by field: key,
    name, type, size, bucket, URL, ETag and URL expiry.
   */
  predicate Describes(r: UploadResult, svc: Service, file: File, options: UploadOptions, env: UploadEnv) {
    && r.key == UploadKey(file, options, env)
    && r.filename == file.originalname
    && r.mimetype == file.mimetype
    && r.size == file.size
    && r.bucket == svc.bucketName
    && env.sign.Signed? && r.url == env.sign.url
    && env.put.PutOk? && r.etag == env.put.etag.GetOr("")
    && r.signedUrlExpires == Some(ExpiryTime(env.clock, ExpiresOf(options)))
  }

  /** Putting the first upload's result in front keeps every result at its file's index. */
  lemma DescribesCons(svc: Service, r: UploadResult, rs: seq<UploadResult>, files: seq<File>, options: UploadOptions, envs: seq<UploadEnv>)
    requires |envs| == |files| && |files| > 0 && |rs| == |files| - 1
    requires Describes(r, svc, files[0], options, envs[0])
    requires forall i :: 0 <= i < |rs| ==> Describes(rs[i], svc, files[1..][i], options, envs[1..][i])
    ensures forall i :: 0 <= i < |files| ==> Describes(([r] + rs)[i], svc, files[i], options, envs[i])
  {
    forall i | 0 <= i < |files|
      ensures Describes(([r] + rs)[i], svc, files[i], options, envs[i])
    {
      if i > 0 {
        assert ([r] + rs)[i] == rs[i - 1] && files[1..][i - 1] == files[i] && envs[1..][i - 1] == envs[i];
      }
    }
  }

  /**
    `uploadMultipleFiles(files, options)`: every file is uploaded with the same
    options (no upload is cancelled when another fails). The call yields one
    result per file, at the file's index, when every upload succeeds, and
    otherwise fails with an upload error.
   */
  function UploadMultipleFiles(svc: Service, store: Store, files: seq<File>, options: UploadOptions, envs: seq<UploadEnv>): (b: Step<seq<UploadResult>>)
    requires |envs| == |files|
    ensures b.result.Ok? <==> forall i :: 0 <= i < |files| ==> Succeeds(envs[i])
    ensures b.result.Ok? ==> |b.result.value| == |files|
    ensures b.result.Ok? ==> forall i :: 0 <= i < |files| ==> Describes(b.result.value[i], svc, files[i], options, envs[i])
    ensures b.result.Err? ==> b.result.error.BadRequest? && StartsWith(b.result.error.message, UploadPrefix)
    decreases |files|
  {
    if |files| == 0 then Step(Ok([]), store)
    else
      var first := UploadFile(svc, store, Some(files[0]), options, envs[0]);
      var rest := UploadMultipleFiles(svc, first.store, files[1..], options, envs[1..]);
      var result :=
        match first.result
        case Err(e) => Err(e)
        case Ok(r) =>
          match rest.result
          case Err(e) => Err(e)
          case Ok(rs) => Ok([r] + rs);
      assert forall i :: 1 <= i < |files| ==> envs[i] == envs[1..][i - 1];
      if result.Ok? then
        DescribesCons(svc, first.result.value, rest.result.value, files, options, envs);
        Step(result, rest.store)
      else Step(result, rest.store)
  }

  /**
    A batch keeps every object it managed to write, whatever the batch's
    answer: the bucket afterwards holds the old keys plus the key of every
    upload whose put succeeded. There is no rollback.
   */
  lemma {:induction false} BatchKeepsWrittenObjects(svc: Service, store: Store, files: seq<File>, options: UploadOptions, envs: seq<UploadEnv>)
    requires |envs| == |files|
    ensures UploadMultipleFiles(svc, store, files, options, envs).store.Keys == store.Keys + WrittenKeys(files, options, envs)
    decreases |files|
  {
    if |files| > 0 {
      var first := UploadFile(svc, store, Some(files[0]), options, envs[0]);
      BatchKeepsWrittenObjects(svc, first.store, files[1..], options, envs[1..]);
    }
  }

  /** `deleteFile(key)`: the key is gone afterwards whether or not it existed; a refused delete changes nothing. */
  function DeleteFile(store: Store, key: string, reply: DeleteReply): (d: Step<()>)
    ensures d.result.Ok? <==> reply.Deleted?
    ensures d.result.Ok? ==> d.store == Remove(store, key)
    ensures d.result.Err? ==> d.store == store && d.result.error == BadRequest(DeletePrefix + reply.message)
  {
    match reply
    case Deleted => Step(Ok(()), Remove(store, key))
    case DeleteFailed(m) => Step(Err(BadRequest(DeletePrefix + m)), store)
  }

  /** Deleting is idempotent from the caller's view: the answer does not depend on whether the key exists. */
  lemma DeleteIgnoresExistence(store: Store, key: string, reply: DeleteReply)
    requires key in store
    ensures DeleteFile(store, key, reply).result == DeleteFile(Remove(store, key), key, reply).result
    ensures reply.Deleted? ==> DeleteFile(store, key, reply).store == DeleteFile(Remove(store, key), key, reply).store
  {
  }

  /**
    The folder a replace uploads into: `options.folder || key.split('/')[0]`.
    Without a non-empty folder in the options it is the old key's leading
    `/`-free part, so at most one path level of the old key is kept.
   */
  function UpdateFolder(key: string, options: UploadOptions): (folder: string)
    ensures options.folder.Some? && options.folder.value != "" ==> folder == options.folder.value
    ensures options.folder.None? || options.folder.value == "" ==>
      && folder == FirstSegment(key, '/')
      && '/' !in folder
      && StartsWith(key, folder)
      && ('/' in key ==> StartsWith(key, folder + "/"))
  {
    FirstSegmentShape(key, '/');
    match options.folder
    case Some(f) => if f != "" then f else FirstSegment(key, '/')
    case None => FirstSegment(key, '/')
  }

  /** The options a replace hands to `uploadFile`: the caller's, with the folder filled in. */
  function UpdateOptions(key: string, options: UploadOptions): UploadOptions {
    options.(folder := Some(UpdateFolder(key, options)))
  }

  /** The state the `try` block of `updateFile` ends in: its answer, the bucket, and the `oldFileDeleted` flag. */
  datatype Attempt = Attempt(result: Result<UploadResult, HttpError>, store: Store, oldFileDeleted: bool)

  /**
    The `try` block of `updateFile`: check the file, upload the new one, and
    only after that succeeds delete the old key. The flag is raised only once
    the delete has returned, so it is never raised on a failing path.
   */
  function TryUpdate(svc: Service, store: Store, key: string, file: Option<File>, options: UploadOptions, env: UploadEnv, del: DeleteReply): (a: Attempt)
    ensures a.result.Err? ==> !a.oldFileDeleted && a.result.error.BadRequest?
    ensures a.oldFileDeleted <==> a.result.Ok?
  {
    match file
    case None => Attempt(Err(BadRequest(NoFileForUpdateMessage)), store, false)
    case Some(_) =>
      var u := UploadFile(svc, store, file, UpdateOptions(key, options), env);
      match u.result
      case Err(e) => Attempt(Err(e), u.store, false)
      case Ok(r) =>
        var d := DeleteFile(u.store, key, del);
        match d.result
        case Err(e) => Attempt(Err(e), d.store, false)
        case Ok(_) => Attempt(Ok(r), d.store, true)
  }

  /**
    `updateFile(key, file, options)`: replace the object at `key` by uploading
    `file` under a new key and then deleting `key`.

    - Missing file or failed upload: no delete is attempted; `key` keeps its object
      unless the new key is `key` itself.
    - Upload and delete succeed: the new result is returned, `key` is gone and the
      new key holds the file.
    - Upload succeeds, delete fails: both keys remain and the error is the same
      generic one as for a failed upload.

    The `catch` block's critical error is never raised.
   */
  function UpdateFile(svc: Service, store: Store, key: string, file: Option<File>, options: UploadOptions, env: UploadEnv, del: DeleteReply): (up: Step<UploadResult>)
    ensures up.result.Err? ==> up.result.error.BadRequest? && StartsWith(up.result.error.message, UpdatePrefix)
    ensures up.result.Err? ==> up.result.error.message != CriticalMessage
    ensures up.result.Ok? <==> file.Some? && Succeeds(env) && del.Deleted?
    ensures file.None? ==> up == Step(Err(BadRequest(UpdatePrefix + NoFileForUpdateMessage)), store)
    ensures file.Some? && env.put.PutFailed? ==> up == Step(Err(BadRequest(UpdatePrefix + UploadPrefix + env.put.message)), store)
    ensures file.Some? && env.put.PutOk? && env.sign.SignFailed? ==>
      && up.result.Err?
      && up.store == Put(store, UploadKey(file.value, UpdateOptions(key, options), env), ObjectOf(file.value))
    ensures file.Some? && Succeeds(env) ==>
      var newKey := UploadKey(file.value, UpdateOptions(key, options), env);
      && (del.Deleted? ==>
            && up.result.value.key == newKey
            && Describes(up.result.value, svc, file.value, UpdateOptions(key, options), env)
            && up.store == Remove(Put(store, newKey, ObjectOf(file.value)), key)
            && key !in up.store
            && (newKey != key ==> newKey in up.store && up.store[newKey] == ObjectOf(file.value)))
      && (del.DeleteFailed? ==>
            && up.result.error.message == UpdatePrefix + DeletePrefix + del.message
            && up.store == Put(store, newKey, ObjectOf(file.value))
            && newKey in up.store
            && (key in store ==> key in up.store))
  {
    var a := TryUpdate(svc, store, key, file, options, env, del);
    assert file.Some? && env.put.PutFailed? ==> UpdatePrefix + (UploadPrefix + env.put.message) == UpdatePrefix + UploadPrefix + env.put.message;
    assert file.Some? && Succeeds(env) && del.DeleteFailed? ==> UpdatePrefix + (DeletePrefix + del.message) == UpdatePrefix + DeletePrefix + del.message;
    match a.result
    case Ok(r) => Step(Ok(r), a.store)
    case Err(e) =>
      if a.oldFileDeleted then Step(Err(BadRequest(CriticalMessage)), a.store)
      else
        GenericIsNotCritical(e.message);
        Step(Err(BadRequest(UpdatePrefix + e.message)), a.store)
  }

  /** The generic update error can never read as the critical one. */
  lemma GenericIsNotCritical(detail: string)
    ensures UpdatePrefix + detail != CriticalMessage
  {
    assert (UpdatePrefix + detail)[5] == 'a';
    assert CriticalMessage[5] == CriticalPrefix[5] == 'c';
  }

  /** The key a replace uploads to starts with the folder it infers. */
  lemma UpdateKeyInFolder(file: File, key: string, options: UploadOptions, env: UploadEnv)
    ensures StartsWith(UploadKey(file, UpdateOptions(key, options), env), UpdateFolder(key, options) + "/")
  {
    KeyStartsWithFolder(file.originalname, UpdateFolder(key, options), env.timestamp, env.token);
  }

  /**
    Replacing an uploaded object with no options puts the new object under
    the first path segment of the folder it was uploaded to, and removes the
    old key.
   */
  lemma ReplaceUsesTopFolder(svc: Service, store: Store, first: File, options: UploadOptions, env: UploadEnv,
                             second: File, env2: UploadEnv, del: DeleteReply)
    requires Succeeds(env) && Succeeds(env2) && del.Deleted?
    ensures var u := UploadFile(svc, store, Some(first), options, env);
      var up := UpdateFile(svc, u.store, u.result.value.key, Some(second), NoOptions, env2, del);
      && UpdateFolder(u.result.value.key, NoOptions) == FirstSegment(FolderOf(options), '/')
      && up.result.Ok?
      && StartsWith(up.result.value.key, FirstSegment(FolderOf(options), '/') + "/")
      && u.result.value.key !in up.store
  {
    InferredFolder(first, options, env);
  }

  /** When the folder is one path segment, a replace with no options keeps the object in that folder. */
  lemma ReplaceStaysInFolder(svc: Service, store: Store, first: File, options: UploadOptions, env: UploadEnv,
                             second: File, env2: UploadEnv, del: DeleteReply)
    requires Succeeds(env) && Succeeds(env2) && del.Deleted?
    requires '/' !in FolderOf(options)
    ensures var u := UploadFile(svc, store, Some(first), options, env);
      var up := UpdateFile(svc, u.store, u.result.value.key, Some(second), NoOptions, env2, del);
      && up.result.Ok?
      && StartsWith(up.result.value.key, FolderOf(options) + "/")
      && u.result.value.key !in up.store
  {
    ReplaceUsesTopFolder(svc, store, first, options, env, second, env2, del);
    SplitWithoutSeparator(FolderOf(options), '/');
  }

  /**
    A nested folder is not kept: an object uploaded to `top/sub` (`a/b`, say)
    and replaced with no options moves to `top`, since only the old key's
    first segment is read back. It lands outside `top/sub` whenever the new
    file's base name starts with a character other than the first of `sub`
    (`photo.png` replacing an object in `a/b`, say).
   */
  lemma NestedFolderIsFlattened(svc: Service, store: Store, first: File, top: string, sub: string, env: UploadEnv,
                                second: File, env2: UploadEnv, del: DeleteReply)
    requires Succeeds(env) && Succeeds(env2) && del.Deleted?
    requires '/' !in top && |sub| >= 1
    requires |BaseName(second.originalname)| >= 1 && BaseName(second.originalname)[0] != sub[0]
    ensures var u := UploadFile(svc, store, Some(first), UploadOptions(Some(top + "/" + sub), None), env);
      var up := UpdateFile(svc, u.store, u.result.value.key, Some(second), NoOptions, env2, del);
      && StartsWith(u.result.value.key, top + "/" + sub + "/")
      && up.result.Ok?
      && StartsWith(up.result.value.key, top + "/")
      && !StartsWith(up.result.value.key, top + "/" + sub + "/")
  {
    NestedKeyIsFlattened(first, top, sub, env, second, env2);
  }

  /**
    The key-level half of the above, for any nested folder `top/sub`: the
    replacement key lies under `top`, and not under `top/sub` when the new
    file's base name does not start with the first character of `sub`.
   */
  lemma NestedKeyIsFlattened(first: File, top: string, sub: string, env: UploadEnv, second: File, env2: UploadEnv)
    requires '/' !in top && |sub| >= 1
    requires |BaseName(second.originalname)| >= 1 && BaseName(second.originalname)[0] != sub[0]
    ensures var key := UploadKey(first, UploadOptions(Some(top + "/" + sub), None), env);
      var newKey := UploadKey(second, UpdateOptions(key, NoOptions), env2);
      && StartsWith(key, top + "/" + sub + "/")
      && StartsWith(newKey, top + "/")
      && !StartsWith(newKey, top + "/" + sub + "/")
  {
    var folder := top + "/" + sub;
    var key := UploadKey(first, UploadOptions(Some(folder), None), env);
    var newKey := GenerateFileName(second.originalname, top, env2.timestamp, env2.token);
    assert UploadKey(second, UpdateOptions(key, NoOptions), env2) == newKey by {
      InferredFolder(first, UploadOptions(Some(folder), None), env);
      assert folder == top + ['/'] + sub;
      FirstSegmentBefore(top, sub, '/');
    }
    assert !StartsWith(newKey, folder + "/") by {
      KeyCharAfterFolder(second.originalname, top, env2.timestamp, env2.token);
      assert (folder + "/")[|top| + 1] == sub[0];
      NotPrefixAt(newKey, folder + "/", |top| + 1);
    }
  }

  /** A string whose character at `i` differs from that of `p` does not start with `p`. */
  lemma NotPrefixAt(s: string, p: string, i: nat)
    requires i < |p| && i < |s| && s[i] != p[i]
    ensures !StartsWith(s, p)
  {
    if |p| <= |s| {
      assert s[..|p|][i] == s[i];
    }
  }

  /** The folder a no-options replace infers from an uploaded key is the first path segment of the upload's folder. */
  lemma InferredFolder(file: File, options: UploadOptions, env: UploadEnv)
    ensures UpdateFolder(UploadKey(file, options, env), NoOptions) == FirstSegment(FolderOf(options), '/')
  {
    var back := BaseName(file.originalname) + "-" + Decimal(env.timestamp) + "-" + env.token + "." + Extension(file.originalname);
    assert UploadKey(file, options, env) == FolderOf(options) + ['/'] + back;
    FirstSegmentOfJoined(FolderOf(options), back, '/');
  }

  /** The signed URL and its expiry time, as returned by `getFileUrl` and the controller. */
  datatype UrlGrant = UrlGrant(signed: Presigned, expiresAt: Num)

  /**
    `getFileUrl(key)`: a URL presigned for `key` and the default 3600
    seconds, expiring that long after the clock.
   */
  function GetFileUrl(key: string, clock: int, sign: SignReply): (r: Result<UrlGrant, HttpError>)
    ensures r.Ok? <==> sign.Signed?
    ensures r.Ok? ==> r.value.signed == Presigned(sign.url, key, Finite(3600))
    ensures r.Ok? ==> r.value.expiresAt == ExpiryTime(clock, r.value.signed.expiresIn) == Finite(clock + 3600000)
    ensures r.Err? ==> r.error == BadRequest(SignPrefix + sign.message)
  {
    var signed :- GenerateSignedUrl(key, Finite(DefaultSignedUrlExpires), sign);
    Ok(UrlGrant(signed, ExpiryTime(clock, Finite(DefaultSignedUrlExpires))))
  }

  /** `getSignedUrlWithCustomExpiry(key, seconds)`: a URL presigned for `key` and the given number of seconds. */
  function GetSignedUrlWithCustomExpiry(key: string, seconds: int, sign: SignReply): (r: Result<Presigned, HttpError>)
    ensures r.Ok? <==> sign.Signed?
    ensures r.Ok? ==> r.value == Presigned(sign.url, key, Finite(seconds))
    ensures r.Err? ==> r.error.BadRequest? && StartsWith(r.error.message, SignPrefix)
  {
    GenerateSignedUrl(key, Finite(seconds), sign)
  }
}
