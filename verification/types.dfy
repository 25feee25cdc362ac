/**
  Values that cross module boundaries: JavaScript numbers where `NaN` matters,
  multipart form fields, the uploaded file as the multipart parser hands it
  over, the upload options and the `UploadResult` record returned to clients,
  and the HTTP errors the backend raises.
 */
module UploadTypes {
  import opened Wrappers

  /** A JavaScript number as this code uses it: an integer, or `NaN` from a failed `parseInt`. */
  datatype Num = Finite(value: int) | NaN

  /** JavaScript truthiness of a number: everything except `0` and `NaN`. */
  predicate Truthy(n: Num) {
    n.Finite? && n.value != 0
  }

  /** `parseInt` on a text, with its outcome given: `None` stands for `NaN`. */
  function ParsedNum(parsed: Option<int>): Num {
    match parsed
    case Some(v) => Finite(v)
    case None => NaN
  }

  /**
    A text field of a multipart body or a query string. `parsed` is what
    `parseInt` returns for `text` (`None` for `NaN`); it is an input because
    the parser itself is not modelled.
   */
  datatype Field = Absent | Given(text: string, parsed: Option<int>)

  /** A field is truthy when present and non-empty: multipart and query values are strings. */
  predicate FieldTruthy(f: Field) {
    f.Given? && f.text != ""
  }

  /** The uploaded file as the multipart parser delivers it. */
  datatype File = File(originalname: string, mimetype: string, size: nat, buffer: seq<bv8>)

  /** `UploadOptions`: both members optional (`undefined` is `None`). */
  datatype UploadOptions = UploadOptions(folder: Option<string>, signedUrlExpires: Option<Num>)

  /** Options with neither member set, as `{}`. */
  const NoOptions := UploadOptions(None, None)

  /**
    What a successful upload returns. Times are milliseconds since the epoch;
    `signedUrlExpires` is `NaN` when the expiry itself was `NaN` (an invalid `Date`).
   */
  datatype UploadResult = UploadResult(
    url: string,
    key: string,
    filename: string,
    mimetype: string,
    size: nat,
    bucket: string,
    etag: string,
    signedUrlExpires: Option<Num>)

  /**
    Errors the backend answers with. `BadRequest` is a `BadRequestException`
    carrying its message; the other two are the multipart parser's own
    rejections when a size or count limit is exceeded.
   */
  datatype HttpError = BadRequest(message: string) | FileTooLarge | TooManyFiles

}
