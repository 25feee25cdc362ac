/**
  The `FileUpload` decorator and its multer options: a MIME-type allow-list
  checked by `fileFilter`, and a 10 MB size limit. An interceptor built with
  these options admits or rejects each uploaded file before the handler runs.
 */
module FileValidation {
  import opened Wrappers
  import opened UploadTypes

  /** The MIME types `fileFilter` lets through, in the order the source lists them. */
  const AllowedMimes: seq<string> := ["image/jpeg", "image/png", "image/gif", "application/pdf", "text/plain"]

  /** `limits.fileSize`: 10 MB in bytes. */
  const MaxFileSize: nat := 10 * 1024 * 1024

  const TypeNotAllowedMessage: string := "Tipo de arquivo não permitido"

  /** `list.includes(x)`: a scan for an element equal to `x`. */
  function Includes(list: seq<string>, x: string): (found: bool)
    ensures found <==> x in list
    decreases |list|
  {
    if |list| == 0 then false
    else if list[0] == x then true
    else
      assert list == [list[0]] + list[1..];
      Includes(list[1..], x)
  }

  /** The arguments `fileFilter` passes to multer's callback: an optional error and whether to accept. */
  datatype FilterCallback = FilterCallback(error: Option<HttpError>, accept: bool)

  /**
    `fileFilter`: accept exactly the allow-listed types, compared as exact,
    case-sensitive strings; otherwise reject with a `BadRequest`.
   */
  function FileFilter(mimetype: string): (cb: FilterCallback)
    ensures cb.accept <==> mimetype in {"image/jpeg", "image/png", "image/gif", "application/pdf", "text/plain"}
    ensures cb.accept <==> cb.error.None?
    ensures !cb.accept ==> cb.error == Some(BadRequest(TypeNotAllowedMessage))
  {
    if !Includes(AllowedMimes, mimetype) then FilterCallback(Some(BadRequest(TypeNotAllowedMessage)), false)
    else FilterCallback(None, true)
  }

  /** Types outside the list, including a different spelling of an allowed one, are refused. */
  lemma FilterIsExactMatch()
    ensures !FileFilter("image/webp").accept
    ensures !FileFilter("IMAGE/PNG").accept
    ensures !FileFilter("image/jpg").accept
    ensures FileFilter("image/png").accept
  {
    assert "IMAGE/PNG"[0] != "image/png"[0];
    assert "image/jpg" != "image/jpeg";
  }

  /** The size limit is ten mebibytes. */
  lemma SizeLimitIsTenMebibytes()
    ensures MaxFileSize == 10485760
  {
  }

  /** The interceptor a decorator installs, and whether it carries the filter and size limit. */
  datatype Interceptor =
    | SingleFile(fieldName: string, validated: bool)
    | MultipleFiles(fieldName: string, maxCount: int, validated: bool)

  /**
    `FileUpload(fieldName = 'file', required = false, maxCount = 1)`: a
    multi-file interceptor exactly when `maxCount > 1`, a single-file one
    otherwise, both with the validation options. `required` is accepted but
    plays no part.
   */
  function FileUpload(fieldName: Option<string>, required: Option<bool>, maxCount: Option<int>): (i: Interceptor)
    ensures i.MultipleFiles? <==> maxCount.Some? && maxCount.value > 1
    ensures i.fieldName == fieldName.GetOr("file")
    ensures i.MultipleFiles? ==> i.maxCount == maxCount.value
    ensures i.validated
  {
    var count := maxCount.GetOr(1);
    if count > 1 then MultipleFiles(fieldName.GetOr("file"), count, true)
    else SingleFile(fieldName.GetOr("file"), true)
  }

  /** `required` has no effect on the interceptor chosen. */
  lemma RequiredIsIgnored(fieldName: Option<string>, maxCount: Option<int>)
    ensures FileUpload(fieldName, Some(true), maxCount) == FileUpload(fieldName, Some(false), maxCount)
    ensures FileUpload(fieldName, None, maxCount) == FileUpload(fieldName, Some(false), maxCount)
  {
  }

  /**
    What a validating interceptor does with one incoming file: the type filter
    runs first, then the size limit; a file at exactly the limit passes. An
    interceptor without the options admits every file.
   */
  function Admit(validated: bool, file: File): (r: Result<File, HttpError>)
    ensures r.Ok? ==> r.value == file
    ensures !validated ==> r.Ok?
    ensures validated ==> (r.Ok? <==> FileFilter(file.mimetype).accept && file.size <= MaxFileSize)
    ensures validated && !FileFilter(file.mimetype).accept ==> r == Err(BadRequest(TypeNotAllowedMessage))
    ensures validated && FileFilter(file.mimetype).accept && file.size > MaxFileSize ==> r == Err(FileTooLarge)
  {
    if !validated then Ok(file)
    else
      var cb := FileFilter(file.mimetype);
      if !cb.accept then Err(cb.error.value)
      else if file.size > MaxFileSize then Err(FileTooLarge)
      else Ok(file)
  }
}
