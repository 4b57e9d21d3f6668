# A verified model of the blog front end's client-side logic

This project is a Dafny model of the small pieces of sequential logic in a Vue single-page
blog client:

- **The streaming chat client** (`createSSEStream`). It builds a `fetch` request from its options
  and the session token. It frames the decoded body text into lines on `'\n'`, carrying a buffer
  over from chunk to chunk. Each complete `data: ` line is dispatched: `[DONE]` completes the
  stream, JSON forwards a truthy `content`, and non-blank raw text is forwarded as is. The
  callbacks are recorded as a trace of events. The read loop is proved to produce the trace
  that the concatenated text determines, whatever the chunk boundaries.
- **The user store** (token, user record, role getters, actions) and the `v-permission` directive.
  The directive decides `hasPermission` and detaches the element when the check fails.
- **The two axios wrappers**:
  - The request interceptors add the bearer token, and the old one also adds the multipart
    content type for `FormData`.
  - The response interceptor classifies the `{ code, message }` envelope.
  - The error interceptors are modelled too.
  - So are the config merges of `get` and `post`.
- **The string helpers**: `expandKey`, the field parsing and error wrapping of `decryptData`, and
  the replace chain of `removeMarkdown` with the `v-markdown` directive.
- **The image upload hook**: the 1024-pixel scaling rule, the non-image passthrough, the
  compression loop of `afterUpload`, and the `loading` / `imageList` bookkeeping of
  `afterUpload` and `uploadImg`.
- **The theme store**, a single flag.

Modules follow the source files:

| Dafny file | models |
|---|---|
| `sse.dfy` | `src/utils/sse.ts` |
| `user_store.dfy` | `src/stores/userStore.ts` |
| `permission.dfy` | `src/directives/permission.ts` |
| `http.dfy` | what the two axios wrappers share |
| `request.dfy` | `src/utils/request.ts` |
| `request_old.dfy` | `src/utils/request-old.ts` |
| `decrypt.dfy` | `src/utils/decrypt.ts` |
| `markdown.dfy` | `src/directives/markdown.ts` |
| `upload_image.dfy` | `src/hooks/useUploadImage.ts` |
| `theme_store.dfy` | `src/stores/themeStore.ts` |

Three files are shared support:

- `js.dfy` holds JavaScript values and truthiness, where `JNull` stands for both `null` and
  `undefined`.
- `text.dfy` holds the string operations the source uses: `startsWith`, `trim` with the
  ECMAScript white-space set, `split`, and decimal formatting.
- `wrappers.dfy` holds `Option` and `Result`.

Things the program does not compute itself become parameters:

- `fetch` and the body reader's chunks
- `JSON.parse`, as a partial function
- the AES decryption
- loading and encoding an image
- the upload call `addPic`
- the token read from `localStorage`

State that the source changes in place is modelled as classes:

- the user store
- the axios request config
- the directive's element
- the upload hook's refs
- the theme store

## Model

| member | source | states |
|---|---|---|
| Sse.LineAction | src/utils/sse.ts:82-101 | a line without the exact `data: ` prefix is ignored; the line finishes the stream iff its trimmed payload is `[DONE]`; forwarded content is always truthy; a non-blank payload that does not parse is forwarded raw |
| Sse.PayloadAction | src/utils/sse.ts:91-101 | a payload that is not `[DONE]` never finishes the stream, and whatever it forwards is truthy |
| Sse.ObjectPayload | src/utils/sse.ts:91-96 | a payload that parses as a JSON object forwards its `content` when truthy and is dropped otherwise |
| Sse.OtherJsonPayloadDropped | src/utils/sse.ts:91-96 | a payload that parses as JSON other than an object or `null` is dropped |
| Sse.BlankPayloadDropped | src/utils/sse.ts:97-101 | a blank payload that does not parse is dropped |
| Sse.Step | src/utils/sse.ts:83-101 | one line's action adds at most one event after the earlier ones, which stay as they were, and stops the run iff the action is `Finish` |
| Sse.DispatchLines | src/utils/sse.ts:81-104 | the callbacks for a run of complete lines, handled in order until a `[DONE]` line; its properties are stated by `DispatchAppend`, `DispatchShape`, `DoneStops`, `ForwardedContentTruthy` and `OnlyDataLinesDispatched` |
| Sse.StreamOutcome | src/utils/sse.ts:66-110 | the whole trace of a body: the dispatch of its complete lines, then `onComplete` or `onError` unless `[DONE]` stopped it; `StreamOutcomeShape` and `StreamMessagesTruthy` state its properties, and `ReadStream` is proved equal to it |
| Sse.DispatchShape | src/utils/sse.ts:81-104 | the events of a run of lines are messages, except a final `Complete` when `[DONE]` stopped the run |
| Sse.StreamOutcomeShape | src/utils/sse.ts:66-110 | a stream trace ends with exactly one terminal event (`Complete` or `Error`) and everything before it is a message |
| Sse.ForwardedContentTruthy | src/utils/sse.ts:94-100 | every message forwarded by a run of lines carries truthy content |
| Sse.StreamMessagesTruthy | src/utils/sse.ts:94-100 | `onMessage` never receives falsy content, for any received text |
| Sse.DispatchAppend | src/utils/sse.ts:81-89 | lines after a run are dispatched only if that run did not stop; the traces concatenate |
| Sse.DoneStops | src/utils/sse.ts:86-89 | a `[DONE]` line adds one `Complete` and nothing after it, in this chunk or later, is dispatched |
| Sse.DataLines | src/utils/sse.ts:82 | the selected lines all come from the input and all start with `data: ` |
| Sse.OnlyDataLinesDispatched | src/utils/sse.ts:82-83 | removing every line without the `data: ` prefix leaves the dispatch unchanged |
| Sse.UnterminatedTailIgnored | src/utils/sse.ts:69-79 | text after the last `'\n'` is never dispatched: appending an unterminated tail leaves the trace unchanged |
| Sse.LinesGrow | src/utils/sse.ts:75-79 | more text only appends complete lines after those already complete, formed from the old buffer plus the new text |
| Sse.StopIsFinal | src/utils/sse.ts:86-89 | once the lines complete after chunk k stop the dispatch, the trace of the whole stream is already fixed, whatever later chunks hold |
| Sse.HandleLine | src/utils/sse.ts:82-101 | the loop body for one line appends exactly the event `LineAction` prescribes and reports `finished` iff the line is `[DONE]` |
| Sse.DispatchChunk | src/utils/sse.ts:81-104 | the inner loop extends the dispatch of the lines processed so far by this chunk's lines, stopping at `[DONE]` |
| Sse.ReadStream | src/utils/sse.ts:60-111 | the trace equals the one determined by the concatenated text, whatever the chunking; the processed lines are a prefix of the complete lines, in order, each once; without `[DONE]`, every complete line was processed, the buffer is exactly the text after the last `'\n'`, and processed lines joined with `'\n'` plus the buffer are all text received; on both exits the reader ends unlocked and is otherwise unchanged |
| Sse.CreateSseStream | src/utils/sse.ts:21-127 | the method defaults to POST; the three fixed headers are always set; `Authorization` is `Bearer <token>` iff the token is truthy; a body is attached iff the method is POST and `data` is truthy; a rejected fetch, a non-ok status or a missing body reader yields one `Error` and a no-op controller; otherwise the stream's trace and a cancelling controller; the reader is obtained only then, and the read leaves it released and not cancelled, so a later `cancel` leaves it unchanged |
| Sse.Cancel | src/utils/sse.ts:116-127 | the reader controller cancels and releases a reader that still holds its lock; a reader the read already released is left as it is, since its `cancel()` only rejects and `releaseLock()` does nothing; the setup-failure controller changes nothing |
| Sse.CancelIdempotent | src/utils/sse.ts:116-121 | cancelling twice is the same as cancelling once |
| User.IsLoggedIn | src/stores/userStore.ts:21 | `!!token`; `LoggedInIff` states it as: the token is present and non-empty |
| User.HasRole | src/stores/userStore.ts:25-27 | membership in the user's role list, false without a user or a list; `HasRoleIff` states it |
| User.HasAnyRole | src/stores/userStore.ts:30-32 | `some` over the requested roles; `HasAnyRoleIff` and `RoleSets` state it as an existential and as a non-empty intersection |
| User.HasAllRoles | src/stores/userStore.ts:35-37 | `every` over the requested roles; `HasAllRolesIff` and `RoleSets` state it as a universal and as inclusion |
| User.Roles | src/stores/userStore.ts:22 | the user's role list, or `[]` when there is no user or no list |
| User.InitialLoggedOut | src/stores/userStore.ts:15-21 | the initial state is logged out and has no roles |
| User.LoggedInIff | src/stores/userStore.ts:21 | `isLoggedIn` holds iff the token is present and non-empty |
| User.HasRoleIff | src/stores/userStore.ts:25-27 | `hasRole` is membership in the `roles` getter's list |
| User.HasAnyRoleIff | src/stores/userStore.ts:30-32 | `hasAnyRole(rs)` holds iff some element of `rs` is one of the user's roles |
| User.HasAllRolesIff | src/stores/userStore.ts:35-37 | `hasAllRoles(rs)` holds iff every element of `rs` is one of the user's roles |
| User.RoleSets | src/stores/userStore.ts:30-37 | in set terms, `hasAnyRole` is a non-empty intersection and `hasAllRoles` is inclusion |
| User.HasAnyRoleFalse | src/stores/userStore.ts:30-32 | `hasAnyRole` is false for an empty list or without a user |
| User.HasAllRolesVacuous | src/stores/userStore.ts:35-37 | `hasAllRoles([])` holds in every state |
| User.HasAllRolesWithoutUser | src/stores/userStore.ts:35-37 | without a user, `hasAllRoles(rs)` holds iff `rs` is empty |
| User.AllImpliesAny | src/stores/userStore.ts:30-37 | for a non-empty list, `hasAllRoles` implies `hasAnyRole` |
| User.UserStore.constructor | src/stores/userStore.ts:15-18 | a new store has a null token and no user, and is logged out |
| User.UserStore.SetUserInfo | src/stores/userStore.ts:42-44 | replaces the user record and leaves the token unchanged |
| User.UserStore.SetToken | src/stores/userStore.ts:47-49 | replaces the token and leaves the user record unchanged; the store is then logged in iff the token is non-empty |
| User.UserStore.SetRoles | src/stores/userStore.ts:52-57 | creates a record with no other properties when there is no user, otherwise keeps the record's other properties; sets the role list; leaves the token unchanged; afterwards `hasRole(r)` holds iff `r` is in the list |
| User.UserStore.Logout | src/stores/userStore.ts:60-63 | returns to the initial state: logged out, no roles |
| Permission.HasPermission | src/directives/permission.ts:13-37 | the directive's decision; `PermissionBySets`, `LoggedOutRefused`, `RecheckUnreachable`, `SingleRoleIsList`, `EmptyNameIsBlank` and `ModesCompared` state its properties |
| Permission.RequiredRoles | src/directives/permission.ts:25 | a single role name becomes the one-element list; a list is used as is; the result is non-empty |
| Permission.RecheckUnreachable | src/directives/permission.ts:14-29 | the emptiness check after the login check never fires: the decision is the same without it |
| Permission.PermissionBySets | src/directives/permission.ts:13-37 | a blank requirement always passes; otherwise permission holds iff the user is logged in and, in `and` mode, holds all the required roles, or, in `or` mode, holds some of them |
| Permission.LoggedOutRefused | src/directives/permission.ts:21-23 | a requirement that is not blank is refused when not logged in |
| Permission.SingleRoleIsList | src/directives/permission.ts:25 | a non-empty single role is decided as the one-element list holding it, in both modes |
| Permission.EmptyNameIsBlank | src/directives/permission.ts:14-25 | the empty role name passes as blank, while the list holding it is refused when logged out |
| Permission.ModesCompared | src/directives/permission.ts:31-37 | whatever `and` mode grants, `or` mode grants too |
| Permission.ModeFor | src/directives/permission.ts:44-53 | `and` mode is used iff the `and` modifier is set |
| Permission.GuardedElement.Mounted | src/directives/permission.ts:41-50 | the element stays attached iff it was attached and the check passes |
| Permission.GuardedElement.Updated | src/directives/permission.ts:51-61 | the element is detached when the check fails and it still has a parent; it is never re-attached |
| Http.WithBearer | src/utils/request.ts:16-20 | `Authorization` is `Bearer <token>` iff the token is truthy; otherwise the headers are unchanged; no other header changes |
| Http.ErrorMessage | src/utils/request.ts:44 | `res.message` when truthy, otherwise `'Error'`; always truthy |
| Http.ResponseHook | src/utils/request.ts:29-48 | both wrappers (request-old.ts repeats it at lines 39-57, adding only a toast): the whole envelope `res` is passed on iff its code is falsy or 200; otherwise it rejects with `message \|\| 'Error'`; a null envelope rejects with a `TypeError` |
| Http.FailingCodesAlike | src/utils/request.ts:38-44 | any two failing codes, 401 among them, settle the same envelope identically, by rejection |
| Http.AbsentOr200Passes | src/utils/request.ts:34-47 | an envelope without `code`, or whose code is 200, is passed on whole |
| Http.ErrorHook | src/utils/request.ts:49-72 | whatever the status, the promise rejects with the original axios error |
| Request.BaseUrl | src/utils/request.ts:5 | the configured base URL when it is non-empty, otherwise `/api` |
| Request.RequestHook | src/utils/request.ts:13-21 | the same config object comes back, with the bearer header added iff the stored token is truthy and its data unchanged |
| Request.GetConfig | src/utils/request.ts:76-78 | for the `get` of both wrappers (request-old.ts:85-87 is the same): `params` is always present, taken from the caller's config when it has one and from the positional argument otherwise; every other property is the caller's |
| Request.GetParamsPositional | src/utils/request.ts:76-78 | without a `params` in the caller's config, the positional one is used |
| Request.GetParamsOverridden | src/utils/request.ts:76-78 | a `params` in the caller's config overrides the positional one, whatever it is |
| RequestOld.PreparedHeaders | src/utils/request-old.ts:17-31 | bearer header iff the token is truthy; Content-Type is `multipart/form-data` for `FormData` and unchanged otherwise; no other header changes |
| RequestOld.JsonKeepsDefault | src/utils/request-old.ts:11-28 | a request that is not `FormData` keeps the JSON default content type |
| RequestOld.RequestHook | src/utils/request-old.ts:17-31 | the same config object comes back with exactly the prepared headers, the token read from the user store |
| RequestOld.PostConfig | src/utils/request-old.ts:90-101 | a caller `headers` wins over the multipart default; for `FormData` without caller headers the multipart default is used; other properties are the caller's |
| RequestOld.CallerHeadersReplaceDefault | src/utils/request-old.ts:91-100 | caller headers replace the default headers object as a whole, even for `FormData` |
| RequestOld.ErrorHookAsWritten | src/utils/request-old.ts:58-81 | it always rejects; with a `TypeError` iff there is no response or no response data; otherwise with the original error |
| RequestOld.ErrorHookLosesNetworkError | src/utils/request-old.ts:60-62 | for an error without a response, the hook as written rejects with a `TypeError`, not with the original error |
| RequestOld.AsWrittenAgreesWithResponse | src/utils/request-old.ts:60-80 | when the server answered with data, the hook as written passes the original error on |
| Decrypt.PadEnd | src/utils/decrypt.ts:15 | `padEnd`: the string, then pad characters up to the target length |
| Decrypt.ExpandKey | src/utils/decrypt.ts:11-16 | always 32 characters; the first 32 of a long key; a short key followed by spaces |
| Decrypt.ExpandKeyIdempotent | src/utils/decrypt.ts:11-16 | expanding twice is the same as expanding once |
| Decrypt.DecryptData | src/utils/decrypt.ts:23-42 | every failure is the single error `解密失败`; success iff decryption and parsing both succeed; the result is the parsed plaintext |
| Decrypt.Fields | src/utils/decrypt.ts:26 | the IV and the ciphertext that the destructuring `split(':')` yields; `FieldsOfThree`, `LaterFieldsIgnored` and `NoSeparatorField` state its properties |
| Decrypt.FieldsOfThree | src/utils/decrypt.ts:26 | for `iv:ciphertext[:rest]`, the IV and the ciphertext are the first two fields |
| Decrypt.LaterFieldsIgnored | src/utils/decrypt.ts:26 | fields after the second `:` do not change the result |
| Decrypt.NoSeparatorField | src/utils/decrypt.ts:26 | without `:`, the whole input is the IV and the ciphertext is undefined |
| Markdown.StripHeadings | src/directives/markdown.ts:5 | text without `#` is unchanged |
| Markdown.HeadingRemoved | src/directives/markdown.ts:5 | for a text `x` without `#`: a run of one or more `#` followed by a white-space character, then `x`, becomes `x` |
| Markdown.FindClose | src/directives/markdown.ts:6-10 | the lazy group closes at the first occurrence of the delimiter, with no line terminator before it |
| Markdown.FindCloseComplete | src/directives/markdown.ts:6-10 | the lazy search misses nothing: an occurrence of the delimiter with no line terminator before it is found, at or before that position |
| Markdown.Unwrap | src/directives/markdown.ts:6-10 | text without the delimiter's first character is unchanged |
| Markdown.StripLinks | src/directives/markdown.ts:8 | text without `[` is unchanged |
| Markdown.StripQuotes | src/directives/markdown.ts:11 | text without `>` is unchanged |
| Markdown.QuoteRemoved | src/directives/markdown.ts:11 | `>` and one white-space character are removed and the rest of the line is kept; the scan goes on after the line terminator |
| Markdown.NewlinesToSpaces | src/directives/markdown.ts:12 | every `'\n'` becomes a space and nothing else changes |
| Markdown.CollapseSpaces | src/directives/markdown.ts:13 | the result is single-spaced, empty iff the input is, and starts with white space iff the input does; `CollapseRun` states that each whole run becomes exactly one space |
| Markdown.CollapseRun | src/directives/markdown.ts:13 | a whole run `w` of white space, between text `x` that does not end in white space and text `y` that does not start with it, becomes exactly one space: `x + w + y` collapses to the collapse of `x`, a space, then the collapse of `y` |
| Markdown.CollapseKeepsText | src/directives/markdown.ts:13 | collapsing white space keeps every other character, in order |
| Markdown.Normalize | src/directives/markdown.ts:12-14 | newlines to spaces, white-space runs to one space, then `trim`; `NormalizeShape`, `NormalizeJoins`, `NormalizeFixes` and `NormalizeIdempotent` state its properties |
| Markdown.NormalizeShape | src/directives/markdown.ts:12-14 | the normalised text is trimmed, single-spaced and has no line terminator |
| Markdown.NormalizeJoins | src/directives/markdown.ts:12-14 | two non-empty, trimmed, single-spaced texts separated by any non-empty white space, newlines included, normalise to the two texts joined by exactly one space |
| Markdown.RemoveMarkdown | src/directives/markdown.ts:3-15 | the stages in the source's order; `RemoveMarkdownShape`, `PlainUnchanged`, `BoldRemoved`, `CodeRemoved`, `StrikeRemoved` and `LinkRemoved` state its properties |
| Markdown.RemoveMarkdownShape | src/directives/markdown.ts:3-15 | the output of `removeMarkdown` is trimmed, single-spaced and on one line |
| Markdown.CollapseFixes | src/directives/markdown.ts:13 | collapsing an already single-spaced text changes nothing |
| Markdown.NormalizeFixes | src/directives/markdown.ts:12-14 | a trimmed, single-spaced text is its own normal form |
| Markdown.NormalizeIdempotent | src/directives/markdown.ts:12-14 | the final normalisation is idempotent |
| Markdown.PlainStagesFix | src/directives/markdown.ts:5-11 | every markup stage leaves text without markup characters unchanged |
| Markdown.PlainUnchanged | src/directives/markdown.ts:3-15 | trimmed, single-spaced text containing none of the characters `#`, `*`, `[`, backtick, `~` and `>` comes back unchanged |
| Markdown.UnwrapGroup | src/directives/markdown.ts:6-10 | `d x d` becomes `x`, for a one-line `x` that does not contain the delimiter's first character |
| Markdown.BoldRemoved | src/directives/markdown.ts:6 | `removeMarkdown("**x**")` is `x`, for `x` without any of the characters `#`, `*`, `[`, backtick, `~` and `>`, trimmed, and with only single spaces as white space |
| Markdown.CodeRemoved | src/directives/markdown.ts:9 | `x` wrapped in backticks becomes `x` through `removeMarkdown`, for `x` without any of the characters `#`, `*`, `[`, backtick, `~` and `>`, trimmed, and with only single spaces as white space |
| Markdown.StrikeRemoved | src/directives/markdown.ts:10 | `removeMarkdown("~~x~~")` is `x`, for `x` without any of the characters `#`, `*`, `[`, backtick, `~` and `>`, trimmed, and with only single spaces as white space |
| Markdown.LinkGroup | src/directives/markdown.ts:8 | the link stage turns `[t](u)` into `t`, for a one-line `t` without `]` and a one-line `u` without `)` |
| Markdown.LinkRemoved | src/directives/markdown.ts:8 | `removeMarkdown("[t](u)")` is `t`, for a `t` as `x` in `BoldRemoved` that also has no `]`, and a one-line `u` without the markup characters and without `)` |
| Markdown.TextElement.Show | src/directives/markdown.ts:20-26 | `title` becomes the original text and the element's text becomes `removeMarkdown` of it |
| Markdown.TextElement.Mounted | src/directives/markdown.ts:18-22 | `title` is the binding value when it is a non-empty string, else the old text; the text becomes `removeMarkdown(title)` |
| Markdown.TextElement.Updated | src/directives/markdown.ts:23-27 | the same on update |
| UploadImage.FitDimensions | src/hooks/useUploadImage.ts:38-55 | the aspect ratio is preserved; dimensions that fit are unchanged; a longer side over 1024 becomes exactly 1024, and a square takes the height branch |
| UploadImage.ScaleDimensions | src/hooks/useUploadImage.ts:41-55 | updating `width` and `height` in turn yields the scaling rule's result |
| UploadImage.FitWithinBounds | src/hooks/useUploadImage.ts:38-55 | after scaling, width and height lie between 0 and 1024 |
| UploadImage.ScaledWithin | src/hooks/useUploadImage.ts:47-53 | scaling a side no longer than the longer side by `limit / longer` gives a value between 0 and `limit` |
| UploadImage.Compress | src/hooks/useUploadImage.ts:11-83 | a file whose type does not start with `image/` comes back unchanged; otherwise the scaled JPEG, or rejection with the reader, load or encoding error |
| UploadImage.CompressedWithinBounds | src/hooks/useUploadImage.ts:38-75 | every JPEG produced fits in 1024 by 1024 |
| UploadImage.Entries | src/hooks/useUploadImage.ts:92 | an array is used as is; a single entry becomes the one-element list |
| UploadImage.Compressed | src/hooks/useUploadImage.ts:96-110 | the blobs the loop collects; `CompressedFromEntries`, `CompressedComplete`, `CompressedAppend` and `CompressedOne` state its properties, and `Uploader.AfterUpload`'s loop is proved equal to it |
| UploadImage.CompressedFromEntries | src/hooks/useUploadImage.ts:96-110 | the loop collects at most one blob per entry, each from an entry with a file whose compression succeeded |
| UploadImage.CompressedAppend | src/hooks/useUploadImage.ts:96-110 | the blobs of two runs of entries are those of the first run followed by those of the second |
| UploadImage.CompressedOne | src/hooks/useUploadImage.ts:96-110 | one entry contributes its compressed blob iff it has a file whose compression succeeds, and nothing otherwise |
| UploadImage.CompressedComplete | src/hooks/useUploadImage.ts:96-110 | every entry with a file whose compression succeeds contributes its blob |
| UploadImage.NonImagesPassThrough | src/hooks/useUploadImage.ts:15-110 | when no file is an image, every file is collected unchanged, in order |
| UploadImage.PartName | src/hooks/useUploadImage.ts:119 | `image_<i>.jpg` |
| UploadImage.PartNamesDistinct | src/hooks/useUploadImage.ts:118-120 | parts at different positions get different names |
| UploadImage.Parts | src/hooks/useUploadImage.ts:117-120 | one `files` part per blob, in order, named by its position |
| UploadImage.ReplyUrls | src/hooks/useUploadImage.ts:130-199 | a reply passes only with a `data` object whose `urls` is truthy and has a truthy length |
| UploadImage.NonEmptyArrayAccepted | src/hooks/useUploadImage.ts:130-132 | a non-empty `urls` array passes |
| UploadImage.EmptyUrlsRejected | src/hooks/useUploadImage.ts:130-132 | an empty `urls` array, or a reply without `data`, is rejected |
| UploadImage.Spread | src/hooks/useUploadImage.ts:134 | spreading an array yields its elements; a string yields one element per character; anything else throws |
| UploadImage.First | src/hooks/useUploadImage.ts:202 | the first element of a non-empty array |
| UploadImage.FailureToast | src/hooks/useUploadImage.ts:140 | a string failure is shown as is (line 210 repeats the rule); any other failure shows `上传失败`; `Uploader.AfterUpload` and `Uploader.UploadImg` show exactly this toast for the failure they catch |
| UploadImage.Uploader.constructor | src/hooks/useUploadImage.ts:7-8 | a new hook is not loading and has an empty `imageList` |
| UploadImage.Uploader.AfterUpload | src/hooks/useUploadImage.ts:86-145 | no effect while loading; once started, `loading` ends false; no blob, an upload failure, an invalid reply or an unspreadable `urls` gives `[]` with `imageList` unchanged; on success the result is `urls` and `imageList` is the old list followed by the returned URLs; the catch block's toast is `FailureToast` of the failure, and there is none without a failure |
| UploadImage.Uploader.UploadImg | src/hooks/useUploadImage.ts:147-215 | no effect while loading or for a falsy argument; it unwraps `originFileObj` and fails for a value that is not a file; it compresses, uploads under `file.name` or `image.jpg`, and returns the first URL or undefined on any failure; `loading` ends false and `imageList` is unchanged; the catch block's toast is `FailureToast` of the failure, so a rejected compression shows its reason string |
| Theme.ThemeStore.constructor | src/stores/themeStore.ts:7-19 | `isDark` starts false unless a saved value is restored |
| Theme.ThemeStore.ToggleTheme | src/stores/themeStore.ts:9-11 | `isDark` becomes its negation |
| Theme.ToggleTwice | src/stores/themeStore.ts:10 | two consecutive toggles restore the original value |
| Text.DecimalRoundTrip | src/hooks/useUploadImage.ts:119 | the decimal form of an index reads back as that index |
| Text.TrimEmptyIff | src/utils/sse.ts:99 | `trim()` gives the empty string iff every character is white space |

## Left out

- Transport is not modelled: `fetch`, axios, timeouts and the reader's `read`. `fetch` and the body are parameters, and the chunk list is read sequentially. Of the reader, only the two flags that `cancel` and `releaseLock` set are modelled.
- Concurrency is not modelled. The detached `readStream()` promise, a `cancel` racing an in-flight read, and overlapping `afterUpload`/`uploadImg` calls between `await`s are all left out. Each operation runs to completion.
- `TextDecoder` is not modelled. Chunks are already-decoded strings, so a multi-byte character split across network packets is not modelled.
- `JSON.parse` is a parameter returning `None` when it throws. `JSON.stringify` of the body is left out.
- Strings are sequences of Unicode scalar values, not UTF-16 code units. Lengths and indices of astral characters differ from JavaScript's.
- The callbacks are assumed not to throw. A callback that throws inside the parse `try` would be caught and the raw text forwarded.
- Cryptography is not modelled: AES-256-CBC, PKCS#7, SHA-256 of the secret key, and Base64/UTF-8 conversion are one parameter. `expandKey` is modelled even though `decryptData` does not call it.
- Canvas, `FileReader`, `Image`, `toBlob` and `FormData` internals are not modelled. The rounding of canvas dimensions to integers is also left out, so the scaling rule is stated over reals.
- Toasts (`message.*`) and `console.*` are not modelled, with one exception: the message that the `catch` blocks choose with `isString` is modelled as `FailureToast`, and both upload methods return it.
- `localStorage` is not modelled. `request.ts` receives the token as a parameter, and the theme constructor receives the restored value as a parameter.
- The rest of Pinia persistence is not modelled.
- `put`, `del` and the `post` of `request.ts` pass their arguments through to axios unchanged, so nothing of theirs is modelled.
- The error handlers of the request interceptors only log and re-reject the error, so they are not modelled.
- JavaScript values are reduced to null, booleans, numbers, strings, arrays and objects. `undefined` is represented as `JNull` or as a missing property.
- The `binding.value` of `v-markdown` is modelled as a string only.
- In `useUploadImage`, an entry that is not an object is not distinguished from one without a file.
- Of the element carrying `v-markdown`, only its `title` attribute and its text are modelled, not the rest of the DOM element.
- `Sse.ReadStream`: the "every complete line processed" part of its contract holds only when no `[DONE]` line stops the read. After a stop, the contract says only that the processed lines are a prefix of the complete lines, because the source stops there.

## Findings

| source | as written | input that shows it | evidently intended | confidence | as-written member | corrected member |
|---|---|---|---|---|---|---|
| src/utils/request-old.ts:60-62 | `error.response.data.msg` is read before `if (error.response)` is checked | a network error or timeout, which has no `response` | reject with the original axios error for every status, as the rest of the hook and `request.ts:49-72` do | not executed | RequestOld.ErrorHookLosesNetworkError | Http.ErrorHook |
