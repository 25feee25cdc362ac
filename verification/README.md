# Upload to S3: a Dafny model

This project models the logic of a small file-upload system. A NestJS backend
stores files in an S3 bucket. A React frontend picks files, shows upload
progress and lists the stored files in a gallery. The model covers the parts of
that logic that can be stated exactly:

- **storage-key generation** (`generateFileName`) — `keys.dfy`. The JavaScript
  string operations it depends on (`split`, `startsWith`, decimal rendering,
  ASCII classes and upper-casing) are in `text.dfy`.
- **the upload service** — `service.dfy`: upload, batch upload, delete,
  replace (`updateFile`) and signed-URL generation. These run against a bucket
  modelled as `map<string, StoredObject>` (`store.dfy`). Every remote call
  (put, delete, presign) takes its reply as an input, so any call can be made
  to succeed or fail.
- **the controller** — `controller.dfy`: the guard of each endpoint, how
  `signedUrlExpires` and `expiresIn` are defaulted, and which endpoints go
  through the validation interceptor.
- **the validation decorator** — `validation.dfy`: the MIME allow-list, the
  10 MB limit, and the choice between the single-file and multi-file
  interceptor.
- **the uploader component** — `uploader.dfy`: the selected-file list, the
  upload handler and the simulated progress counter.
- **routing of keys** — `routing.dfy`: how a storage key reaches the
  controller's single-segment `:key` routes from the frontend's API client
  (frontend/src/lib/api.ts), as written and with the key escaped.
- **the gallery component** — `gallery.dfy`: `isImage`, `getFileIcon`, the
  unit `formatFileSize` picks, the extension label, and the confirmation gate
  on delete.

Shared records are in `types.dfy`: the uploaded file, the upload options,
`UploadResult`, JavaScript numbers with `NaN`, form fields and HTTP errors.
`wrappers.dfy` holds `Option` and `Result`.

`updateFile` has a `catch` branch that reports a critical error, "the old
file was lost", when its `oldFileDeleted` flag is set (backend/src/upload/upload.service.ts:203-207).
That branch is dead. The flag is raised only after both the upload and the
delete have returned, and nothing after that point can throw. A replace
whose upload succeeded but whose delete failed therefore ends in the same
generic `"Erro ao atualizar arquivo: …"` error as a failed upload, with both
keys still in the bucket. `UploadService.UpdateFile` proves that the critical
message is never produced.

A replace with no folder in its options reads the folder back as the old
key's text before the first `/`. An object uploaded to a nested folder such
as `a/b` is therefore replaced under `a`. `UploadService.NestedFolderIsFlattened`
exhibits this; `UploadService.ReplaceStaysInFolder` proves the folder is kept
whenever it is a single path segment.

The uploader's progress counter is driven by `setInterval`, whose handle lives
only inside one call of `handleUpload`. The state therefore tracks the latest
call's interval (`ticking`) apart from the intervals whose handles are gone
(`leaked`). The firings that happen while a request is pending are a
parameter: a schedule saying, firing by firing, which kind of interval fires.
As written, a failed upload never clears its interval, so the interval
leaks. A leaked interval stops only when one of its own firings sees 95.

Every generated key holds a `/` (after its folder), but the `:key` routes
match a single path segment, and the frontend's API client puts the key into
the path unescaped. As written, a delete or signed-URL request for a stored
file therefore matches no route. `Routing.GeneratedKeyMissesRoute` shows this;
`Routing.GeneratedKeyRoutesEscaped` shows that escaping the key, as
`encodeURIComponent` would, lets every generated key through unchanged.

## Model

| member | source | states |
|---|---|---|
| Text.Split | backend/src/upload/upload.service.ts:216-217 | `split` on one character gives at least one part; no part contains the separator; joining the parts with it gives back the input |
| Text.SplitJoin | backend/src/upload/upload.service.ts:216-217 | splitting a join of separator-free parts gives back exactly those parts, so split and join are inverse |
| Text.SplitAtSeparator | backend/src/upload/upload.service.ts:216-217 | splitting `x + c + y` at `c` is the split of `x` followed by the split of `y` |
| Text.FirstSegmentShape | backend/src/upload/upload.service.ts:217 | `split(c)[0]` has no `c`; it is the whole string when `c` is absent, and otherwise the text before the first `c` |
| Text.LastSegmentShape | backend/src/upload/upload.service.ts:216 | `split(c).pop()` has no `c`; it is the whole string when `c` is absent, and otherwise the text after the last `c` |
| Text.DecimalRoundTrip | backend/src/upload/upload.service.ts:218 | reading back the decimal text of the timestamp in the key gives the timestamp |
| Text.DecimalInjective | backend/src/upload/upload.service.ts:218 | different timestamps render as different texts |
| Text.Decimal | backend/src/upload/upload.service.ts:218 | the timestamp in the key renders as a non-empty string of decimal digits with no leading zero; 0 renders as `"0"` |
| Text.Upper | frontend/src/components/ImageGallery.tsx:70 | upper-casing keeps the length, maps each character in place, and leaves no lower-case ASCII letter |
| FileKeys.Sanitize | backend/src/upload/upload.service.ts:217 | the replace keeps the length, keeps every ASCII letter and digit in place, and puts `-` at every other position |
| FileKeys.SanitizeClean | backend/src/upload/upload.service.ts:217 | a sanitised name holds only ASCII letters, digits and `-`, and sanitising it again changes nothing |
| FileKeys.BaseNameShape | backend/src/upload/upload.service.ts:217 | the base is as long as the text before the first `.`, keeps its letters and digits, and holds only alphanumerics and `-` |
| FileKeys.ExtensionShape | backend/src/upload/upload.service.ts:216 | the extension is the text after the last `.`, or the whole name when there is no `.`; it never holds a `.` |
| FileKeys.ExtensionOfSplit | backend/src/upload/upload.service.ts:216 | for any name `front + "." + ext` with no `.` in `ext`, the extension is exactly `ext` |
| FileKeys.GenerateFileName | backend/src/upload/upload.service.ts:213-220 | a generated key opens with the folder and `/`, and closes with `.` and the original name's extension |
| FileKeys.KeyStartsWithFolder | backend/src/upload/upload.service.ts:218-219 | every generated key begins with the folder followed by `/` |
| FileKeys.KeyKeepsExtension | backend/src/upload/upload.service.ts:216-219 | the text after the key's last `.` is the extension of the original name |
| FileKeys.KeyKeepsFolder | backend/src/upload/upload.service.ts:218-219 | when the folder has no `/`, the key's first `/`-segment is the folder, which is what a replace reads back |
| FileKeys.KeyDeterminesClockAndToken | backend/src/upload/upload.service.ts:213-220 | for one name and folder, equal keys imply equal timestamps and equal random tokens, so keys collide only when both coincide |
| UploadService.Configure | backend/src/upload/upload.service.ts:33-37 | construction succeeds exactly when the bucket name is set and non-empty; otherwise it fails with the missing-variable message |
| UploadService.ExpiryTime | backend/src/upload/upload.service.ts:81-82 | the expiry is the clock plus the given seconds, read as a count of milliseconds; `NaN` seconds give an invalid date and finite ones a finite time (the Date range and local time are not modelled) |
| UploadService.GenerateSignedUrl | backend/src/upload/upload.service.ts:102-124 | when signing succeeds, the result is the presigned URL together with the key and the lifetime in seconds it was signed for. Otherwise the result is a `BadRequest` prefixed `"Erro ao gerar URL assinada: "`. |
| UploadService.UploadFile | backend/src/upload/upload.service.ts:43-100 | success holds exactly when the file is present, the put succeeds and signing succeeds. A success echoes name, type and size, adds the bucket and signed URL, uses folder `"uploads"` and expiry 3600 by default, and gives etag `""` when none is returned. Every failure is one `"Erro no upload: "` error. A missing file or a refused put leaves the bucket unchanged. |
| UploadService.DefaultOptions | backend/src/upload/upload.service.ts:53-56 | an upload with no options is identical, in result and bucket, to one asking explicitly for folder `"uploads"` and expiry 3600 |
| UploadService.UploadedObjectReadable | backend/src/upload/upload.service.ts:59-96 | after a successful upload, the returned key starts with `folder/`, ends in the original extension, and holds the file's bytes, type and original name |
| UploadService.UploadMultipleFiles | backend/src/upload/upload.service.ts:144-150 | the batch succeeds exactly when every upload succeeds. It then gives one result per file, at the file's index, whose every field (key, name, type, size, bucket, URL, ETag, expiry) is that file's upload result. Otherwise it fails with an upload error. |
| UploadService.DescribesCons | backend/src/upload/upload.service.ts:148-149 | putting the first file's result in front of the rest's results keeps every result at its file's index, as `Promise.all` does |
| UploadService.BatchKeepsWrittenObjects | backend/src/upload/upload.service.ts:148-149 | whatever the batch answers, the bucket afterwards holds the earlier keys plus the key of every upload whose put succeeded; there is no rollback |
| UploadService.DeleteFile | backend/src/upload/upload.service.ts:152-165 | a confirmed delete removes the key and nothing else. A refused delete leaves the bucket unchanged and raises `"Erro ao deletar arquivo: "` with the store's message. |
| UploadService.DeleteIgnoresExistence | backend/src/upload/upload.service.ts:152-165 | deleting a missing key answers exactly as deleting an existing one |
| UploadService.TryUpdate | backend/src/upload/upload.service.ts:172-198 | the `oldFileDeleted` flag is raised exactly when the try block returns a result, so it is never raised on a failing path |
| UploadService.UpdateFolder | backend/src/upload/upload.service.ts:182-187 | a non-empty `options.folder` is used as given. Otherwise the folder is the old key's text before its first `/`. It has no `/`, and the old key starts with it (followed by `/` when the key has one). |
| UploadService.GenericIsNotCritical | backend/src/upload/upload.service.ts:204-209 | no generic update error can equal the critical message |
| UploadService.UpdateFile | backend/src/upload/upload.service.ts:167-211 | success needs a file, a successful upload and a successful delete. The bucket is then exactly the old one with the new key put and the old key removed, and the result returned is, field by field, the upload of the file under the inferred folder. A missing file or refused put changes nothing. When the delete fails, the bucket is exactly the old one with the new key put. Every error is `"Erro ao atualizar arquivo: "` and never the critical one. |
| UploadService.UpdateKeyInFolder | backend/src/upload/upload.service.ts:182-190 | a replace uploads under `options.folder` when it is non-empty, and otherwise under the old key's first `/`-segment |
| UploadService.ReplaceUsesTopFolder | backend/src/upload/upload.service.ts:182-198 | replacing an uploaded object with no options puts the new object under the first `/`-segment of the folder it was uploaded to, and removes the old key |
| UploadService.ReplaceStaysInFolder | backend/src/upload/upload.service.ts:182-198 | when the upload folder has no `/` (the empty folder included), a replace with no options keeps the new object in that folder and removes the old key |
| UploadService.NestedFolderIsFlattened | backend/src/upload/upload.service.ts:182-198 | an object uploaded to a nested folder `top/sub` (`a/b`) and replaced with no options moves to `top`: the new key starts with `top/`, and not with `top/sub/` whenever the new base name begins with a character other than the first of `sub` |
| UploadService.GetFileUrl | backend/src/upload/upload.service.ts:126-134 | the URL is presigned for the given key and the default 3600 s. It expires that lifetime after the clock, 3 600 000 ms. |
| UploadService.GetSignedUrlWithCustomExpiry | backend/src/upload/upload.service.ts:137-142 | the URL is presigned for the given key and the given number of seconds; a failure is a signing error |
| UploadController.OnlySingleUploadIsValidated | backend/src/upload/upload.controller.ts:24-89 | of all endpoints, only `POST single` carries the type filter and size limit; `POST multiple` and `PUT` use bare interceptors |
| UploadController.InterceptorOf | backend/src/upload/upload.controller.ts:24-89 | only the signed-URL and delete endpoints have no interceptor. Only `POST multiple` takes a file list, field `files`, at most ten. The others take one file in field `file`. |
| UploadController.ForwardExpiry | backend/src/upload/upload.controller.ts:37 | an absent or empty field is forwarded as `undefined`, so 3600 s applies. Any other value is forwarded as parsed, `NaN` included. |
| UploadController.UploadSingleFile | backend/src/upload/upload.controller.ts:24-39 | a disallowed or oversize file is refused by the interceptor, and a missing file with `"Nenhum arquivo enviado"`, in both cases with the bucket untouched; otherwise the service upload runs with the forwarded options |
| UploadController.UploadMultipleFiles | backend/src/upload/upload.controller.ts:41-56 | more than ten files, or a missing or empty list, is refused before any store call; otherwise the service batch runs, unvalidated |
| UploadController.CustomExpiry | backend/src/upload/upload.controller.ts:70-72 | a custom expiry is used exactly when `expiresIn` is present and parses to a non-zero integer |
| UploadController.GetSignedUrlFor | backend/src/upload/upload.controller.ts:61-80 | an empty key is refused. Otherwise the URL is presigned for that key, with a custom lifetime `n` expiring `n` s after the clock, or else the default 3600 s expiring 3600 s after it. |
| UploadController.ExplicitDefaultExpiry | backend/src/upload/upload.controller.ts:61-80 | asking for `expiresIn=3600` yields the same answer as giving no `expiresIn` at all |
| UploadController.DeleteFile | backend/src/upload/upload.controller.ts:82-86 | the fixed success message is returned exactly when the service delete succeeded, and the bucket is then the old one less the key; a service error propagates unchanged with the bucket untouched |
| UploadController.UpdateFile | backend/src/upload/upload.controller.ts:88-99 | a missing file is refused untouched. Otherwise the replace runs with no options. The new key then lies in the old key's first path segment and the old key is gone. |
| FileValidation.Includes | backend/src/upload/decorators/file-validation.decorator.ts:34 | the list scan finds `x` exactly when `x` is an element of the list |
| FileValidation.FileFilter | backend/src/upload/decorators/file-validation.decorator.ts:24-42 | a type is accepted with `(null, true)` exactly when it equals one of the five allowed types. Anything else gets `(BadRequest("Tipo de arquivo não permitido"), false)`. |
| FileValidation.FilterIsExactMatch | backend/src/upload/decorators/file-validation.decorator.ts:34 | `image/webp`, `IMAGE/PNG` and `image/jpg` are refused while `image/png` passes: matching is exact and case-sensitive |
| FileValidation.SizeLimitIsTenMebibytes | backend/src/upload/decorators/file-validation.decorator.ts:22 | the size limit is 10485760 bytes |
| FileValidation.FileUpload | backend/src/upload/decorators/file-validation.decorator.ts:5-17 | the multi-file interceptor is chosen exactly when `maxCount > 1`; field name defaults to `"file"`; both carry the validation options |
| FileValidation.RequiredIsIgnored | backend/src/upload/decorators/file-validation.decorator.ts:5-17 | `required`, given or defaulted, has no effect on the interceptor |
| FileValidation.Admit | backend/src/upload/decorators/file-validation.decorator.ts:19-44 | a validating interceptor admits a file exactly when its type is allowed and its size is within the limit. The type is checked first. A bare interceptor admits everything. |
| FileUploader.OnDrop | frontend/src/components/FileUploader.tsx:19-22 | the accepted files follow the previous list, which stays a prefix in order; the error is cleared and nothing else changes |
| FileUploader.FilterOutIndexRemovesOne | frontend/src/components/FileUploader.tsx:35-37 | filtering by index removes exactly the element at that index, or nothing when it is out of range |
| FileUploader.RemoveFile | frontend/src/components/FileUploader.tsx:35-37 | `removeFile(i)` yields the list without element `i` (one shorter, others in order), and leaves the state unchanged for an out-of-range `i` |
| FileUploader.DropThenRemoveRestores | frontend/src/components/FileUploader.tsx:19-37 | removing the file just dropped at the end of the list gives back the earlier selection, with the error cleared |
| FileUploader.Tick | frontend/src/components/FileUploader.tsx:50-58 | the latest upload's interval, when live and below 95, adds 5 and stays live. At 95 or above it holds at 95 and clears itself. A cleared one changes nothing. Only the progress and the liveness change, and a multiple of 5 up to 95 stays one. |
| FileUploader.TicksFromLiveInterval | frontend/src/components/FileUploader.tsx:50-58 | from 0 (or any multiple of 5 up to 95), `n` firings give `min(p + 5n, 95)`. The counter never passes 95 and stays a multiple of 5. The interval stops after the firing that sees 95. |
| FileUploader.StoppedIntervalIsInert | frontend/src/components/FileUploader.tsx:50-58 | after the interval is cleared, further firings change nothing |
| FileUploader.TicksTouchOnlyProgress | frontend/src/components/FileUploader.tsx:50-58 | the interval changes only the progress and its own liveness |
| FileUploader.RunInterval | frontend/src/components/FileUploader.tsx:50-58 | the interval run as a loop reaches `min(start + 5n, 95)`, reports whether it is still live, and agrees with `n` firings of `Tick` |
| FileUploader.LeakedTick | frontend/src/components/FileUploader.tsx:50-58 | a leaked interval runs the same callback: below 95 it adds 5; at 95 or above it holds at 95 and stops, one leaked interval fewer. With none leaked nothing changes. |
| FileUploader.RunOnlyStops | frontend/src/components/FileUploader.tsx:50-58 | firings never start an interval: the latest one cannot come back and the leaked count never grows. Only the progress and the intervals change. |
| FileUploader.QuietIsInert | frontend/src/components/FileUploader.tsx:50-58 | with no interval live, any schedule of firings leaves the state as it is |
| FileUploader.RunBelowCap | frontend/src/components/FileUploader.tsx:50-58 | while no firing can see 95, every live interval stays live and each firing adds 5 at most |
| FileUploader.NoLeakedIsInert | frontend/src/components/FileUploader.tsx:50-58 | firings of leaked intervals change nothing when none is leaked |
| FileUploader.LeakedTicksClimb | frontend/src/components/FileUploader.tsx:50-58 | with a leaked interval live, its firings take the progress from `p` to `min(p + 5n, 95)` |
| FileUploader.StartUpload | frontend/src/components/FileUploader.tsx:39-58 | an empty selection sets the select-a-file error and sends nothing; otherwise uploading starts, the error clears and the interval starts |
| FileUploader.FailureMessage | frontend/src/components/FileUploader.tsx:76 | the server's message when present and non-empty, otherwise the fallback text |
| FileUploader.HandleUpload | frontend/src/components/FileUploader.tsx:39-80 | success: progress 100, the list cleared, the results delivered. Failure: the message or fallback, progress 0, `uploading` off, the list kept. Nothing is sent for an empty list. The upload's interval is cleared on both paths, so no interval leaks; see Findings. |
| FileUploader.SettleAsWritten | frontend/src/components/FileUploader.tsx:60-79 | as written: success clears the latest upload's interval and no other, shows 100, empties the list and delivers the results. Failure shows the message, resets progress and `uploading`, keeps the list, and turns a live interval into a leaked one. |
| FileUploader.HandleUploadAsWritten | frontend/src/components/FileUploader.tsx:39-80 | as written: a request is sent exactly when files are selected. Success shows 100 and leaks nothing new. A failure that arrives before any interval has fired at 95 leaves one more interval leaked, with the bar at 0 and `uploading` off. |
| FileUploader.FailedUploadKeepsTicking | frontend/src/components/FileUploader.tsx:75-79 | as written: after an early failure an interval is leaked; the bar moves back off 0 and climbs to 95 while nothing uploads |
| FileUploader.RetryLosesFullBar | frontend/src/components/FileUploader.tsx:60-79 | as written: when a retry succeeds after an early failure, the retry shows 100 but the leaked interval is still live, and its next firing drops the bar to 95 |
| FileUploader.FailedUploadStaysReset | frontend/src/components/FileUploader.tsx:75-79 | with the interval cleared on failure, the progress stays 0 under any later firings |
| FileUploader.RetryKeepsFullBar | frontend/src/components/FileUploader.tsx:60-79 | with the interval cleared on failure, a retry that succeeds after a failure keeps 100 under any later firings |
| FileUploader.ResetAfterSuccess | frontend/src/components/FileUploader.tsx:70-73 | the delayed reset sets progress to 0 and `uploading` off, and changes nothing else |
| ImageGallery.GetFileIcon | frontend/src/components/ImageGallery.tsx:33-41 | three disjoint cases. `image/*` gets the image icon. Exactly `application/pdf` gets the file icon. Everything else gets the text icon. |
| ImageGallery.IsImage | frontend/src/components/ImageGallery.tsx:49 | a type is an image type exactly when it is `image/` followed by some subtype |
| ImageGallery.AllowedTypesIcons | frontend/src/components/ImageGallery.tsx:33-41 | of the five types the backend admits, only the three image types get the image icon; PDF gets the file icon and plain text the text icon |
| ImageGallery.FormatFileSize | frontend/src/components/ImageGallery.tsx:43-47 | below 1024 the text is the integer, with no leading zero (0 gives `"0 B"`), followed by `" B"`, and it reads back as the size. Below 1048576 the unit is KB; otherwise it is MB. |
| ImageGallery.UnitIsMonotone | frontend/src/components/ImageGallery.tsx:43-47 | a larger size is never shown in a smaller unit |
| ImageGallery.ExtensionLabelShape | frontend/src/components/ImageGallery.tsx:70 | the label is the upper-cased text after the last `.`, or the whole name upper-cased when there is no `.`. It has no `.` and no lower-case ASCII letter. |
| ImageGallery.ExtensionLabelOfSplit | frontend/src/components/ImageGallery.tsx:70 | for any name `front + "." + ext` with no `.` in `ext`, the label is exactly `ext` upper-cased |
| ImageGallery.ExtensionLabel | frontend/src/components/ImageGallery.tsx:70 | the label is as long as the name's last `.`-segment, holds no `.` and no lower-case ASCII letter |
| ImageGallery.LabelMatchesKey | frontend/src/components/ImageGallery.tsx:70 | the label of a file's original name equals the upper-cased extension its storage key ends in |
| ImageGallery.HandleDelete | frontend/src/components/ImageGallery.tsx:16-31 | no delete request is sent unless the user confirms. A confirmed one sends exactly one request for the key. It reloads on success and alerts on failure, and `isDeleting` ends off. |
| Routing.Escape | frontend/src/lib/api.ts:55 | the escaped key holds no `/` and is at least as long as the key |
| Routing.UnescapeEscape | backend/src/upload/upload.controller.ts:82-83 | the router's decoding of a `:key` parameter undoes the escaping, for every key |
| Routing.GeneratedKeyMissesRoute | frontend/src/lib/api.ts:55 | as written: for every generated key, the request path with the key put in as it is matches no single-segment `:key` route, whatever the route's prefix |
| Routing.EscapedKeyRoutes | backend/src/upload/upload.controller.ts:82-83 | with the key escaped, every non-empty key matches a `:key` route and reaches the handler unchanged |
| Routing.GeneratedKeyRoutesEscaped | backend/src/upload/upload.controller.ts:61-63 | every generated key, escaped, reaches the delete and replace handlers and the signed-URL handler as itself |

## Left out

- The S3 SDK (`PutObject`, `DeleteObject`, `GetObject`, presigning), the network and the signature contents. Each call is a reply value: `PutReply`, `DeleteReply` or `SignReply`. A refused put is taken to write nothing.
- `Date.now()`, `new Date()` and `Math.random().toString(36).substring(2, 15)` are parameters of an upload. These are the key's millisecond timestamp, the clock the expiry is computed from, and the random token. The token's base-36 format is not modelled. The timestamp and the clock are separate readings, as in the code.
- `Promise.all` in `uploadMultipleFiles` is modelled as a run over the files in order. The real uploads run concurrently. None of them is cancelled, so the bucket contents agree. The error reported is the one at the lowest failing index, where the real call reports the first to fail in time. Two uploads generating the same key overwrite in index order.
- `parseInt` is an input. Each `Field` carries its parsed value (`None` for `NaN`). Multipart and query values are strings, so a field is falsy only when absent or empty.
- The framework's own rejections when the size limit or the file-count limit is exceeded are `FileTooLarge` and `TooManyFiles`. Their response format is not modelled.
- All `Logger` calls, and the `console.error` in the gallery.
- Float formatting: the `toFixed` figures in `formatFileSize`, and the KB size shown by the uploader (frontend/src/components/FileUploader.tsx:118). Only the chosen unit and the exact text under 1024 bytes are modelled.
- React rendering, hooks, the timing of `setInterval` and `setTimeout`, `window.location.reload`, `confirm`, `alert`, and the dropzone configuration (accepted types, `maxSize`, `maxFiles`). The firings before the request settles, and which interval each comes from, are a parameter. Two calls of `handleUpload` never overlap, since the button is disabled while `uploading` (frontend/src/components/FileUploader.tsx:157), so `StartUpload` does not model an interval started while the latest one is still live. The one-second reset is a separate step, `ResetAfterSuccess`.
- Strings are sequences of Unicode scalar values. The source works on UTF-16 code units. A character outside the Basic Multilingual Plane therefore becomes one `-` here and two in the code.
- Text.Upper: upper-cases ASCII letters only. `toUpperCase` also maps other letters and can lengthen a string (`ß` becomes `SS`).
- `removeFile` takes an integer index. Non-integer JavaScript numbers are not modelled.
- frontend/src/lib/api.ts apart from the paths of its delete and signed-URL requests, frontend/src/app/page.tsx (a list concat plus layout), and the Nest modules (`app.module`, `upload.module`, `aws-s3.module`) are out of scope: they are dependency-injection and environment wiring. The `UploadResult` record follows frontend/src/lib/types.ts, whose expiry is optional. The service does fill in that expiry, although backend/src/upload/interfaces/upload-result.interface.ts omits it.
- Routing beyond the `:key` parameter: the client's `/api` base path is taken to reach the controller's `upload` prefix, and paths are modelled relative to it.
- Routing.Escape: escapes only `/` and `%`, the two characters the route and the round trip depend on. `encodeURIComponent` escapes more, and the router's decoding handles every `%XX`; on escaped keys the two decodings agree. A malformed escape, which the router refuses, is not modelled.
- UploadService.ExpiryTime: reads `setSeconds(getSeconds() + s)` as adding `1000·s` milliseconds to the clock. It does not model the Date range: past ±8.64e15 ms the source gets an invalid date and answers `null`, for example for `signedUrlExpires = "-10000000000000"`, where the model gives a finite time. It also ignores local time, where a daylight-saving change inside the interval shifts the result by an hour.

## Findings

| source | as written | input that shows it | evidently intended | confidence | as-written member | corrected member |
|---|---|---|---|---|---|---|
| frontend/src/components/FileUploader.tsx:75-79 | the `catch` block resets the progress to 0 but never calls `clearInterval`, so the interval started at line 50 keeps firing | a failed upload that settles after two firings (progress 10): the progress drops to 0, and the next firing sets it to 5 while `uploading` is false; the bar climbs back to 95 | clear the interval on failure, as the success path does at line 62, so the bar stays at 0 | medium, not executed | FileUploader.FailedUploadKeepsTicking | FileUploader.FailedUploadStaysReset |
| frontend/src/components/FileUploader.tsx:60-62 | a retry's success clears only the retry's own interval; the one leaked by the earlier failure (lines 75-79) has no handle left and keeps firing | an upload fails at progress 10, then a retry succeeds before the leaked interval has fired at 95: the bar shows 100, and the leaked interval's next firing sets it to 95 while the success banner is shown | with every interval cleared when its upload settles, a success stays at 100 until the delayed reset | medium, not executed | FileUploader.RetryLosesFullBar | FileUploader.RetryKeepsFullBar |
| frontend/src/lib/api.ts:55 | the delete request puts the key into the path as it is; every key holds a `/` (upload.service.ts:219), and `DELETE /upload/:key` (upload.controller.ts:82) matches one path segment, so the request reaches no handler. The signed-URL request at line 61 has the same flaw. | deleting `uploads/photo-1700000000000-abc.png` from the gallery requests `/upload/uploads/photo-1700000000000-abc.png`, which has two segments after the prefix | escape the key (`encodeURIComponent(key)`), so the route matches and the handler receives the key unchanged | medium, not executed | Routing.GeneratedKeyMissesRoute | Routing.GeneratedKeyRoutesEscaped |
