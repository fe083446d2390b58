# Warm Edit Studio, modelled in Dafny

Warm Edit Studio lets a user pick one photo, write an instruction, and get back an edited
image. This project models three pieces of it.

- **The React client** (`App.jsx`) is an event-driven state machine with seven state slots.
  - File intake checks that the file is an image and makes a preview object URL. An effect
    revokes that URL when the preview changes and when the component unmounts.
  - The drag adapter forwards the first dropped file.
  - `onSubmit` validates its input, sends one request and settles with one of three outcomes.
- **The main FastAPI server** (`main.py`) has two validators and a fixed order of checks, each
  ending the request early. It also builds the stored file names and an RFC 2397 `data:` URL.
- **The alternative FastAPI server** (`app.py`) checks for a blank prompt and turns the
  client's file name into a safe stored name. It then calls the image SDK and answers with the
  URL of the stored result.

Modules:

| file | module | what it holds |
|---|---|---|
| `wrappers.dfy` | `Wrappers` | `Option`, `Result` |
| `text.dfy` | `Text` | prefix tests, trimming with a whitespace set as a parameter, JavaScript and Python whitespace sets, hex tokens |
| `object_urls.dfy` | `ObjectUrls` | the browser's object-URL store: numbered handles, a live set and a log of revocations |
| `studio_spec.dfy` | `StudioSpec` | the client's state as a value, one transition per handler, events and runs, the preview-lifetime theorem |
| `studio.dfy` | `Studio` | class `App`: the state slots as fields and the handlers as methods, each proved equal to its `StudioSpec` transition |
| `paths.dfy` | `Paths` | `os.path.basename`, `PurePosixPath.name` and `.suffix` |
| `server_types.dfy` | `ServerTypes` | HTTP errors, the file writes a request makes, safe file names |
| `main_server.dfy` | `MainServer` | `/api/edit` |
| `alt_server.dfy` | `AltServer` | `/api/edit-image` |

Object URLs are modelled as numbered handles. The `previewUrl` empty string is `NoUrl` and an
object URL is `Blob(id)`. The effect cleanup that React runs after a new `previewUrl` is
committed is folded into the transition that changed it. The server handlers are pure
functions that return the answer plus the list of files the request wrote. The image editor,
the SDK and base64 encoding are function parameters. The random hex strings are inputs,
constrained to the right length and alphabet.

## Model

| member | source | states |
|---|---|---|
| `ObjectUrls.Create` | image-edit-app/frontend/src/App.jsx:31 | `createObjectURL` returns a handle that was never live or revoked. The handle becomes live and the store's invariant is kept. |
| `ObjectUrls.Revoke` | image-edit-app/frontend/src/App.jsx:18-20 | Revoking a live handle removes it from the live set and logs it once. The invariant is kept: no handle is revoked twice, and every created handle is live or revoked. |
| `ObjectUrls.ReleasedExactlyOnce` | image-edit-app/frontend/src/App.jsx:16-22 | Once nothing is live, every handle ever created occurs exactly once in the revocation log. |
| `StudioSpec.FirstFile` | image-edit-app/frontend/src/App.jsx:42 | `files?.[0]` gives a file exactly when the list is non-empty, and that file is the first one. |
| `StudioSpec.Initial` | image-edit-app/frontend/src/App.jsx:6-12 | The first render has no file, an empty prompt, no result, no loading and no live object URL. The component invariant holds. |
| `StudioSpec.ReleasePreview` | image-edit-app/frontend/src/App.jsx:16-22 | The cleanup for a superseded `previewUrl` revokes it only if it is non-empty. It releases exactly that handle and logs it. |
| `StudioSpec.OnFileChange` | image-edit-app/frontend/src/App.jsx:24-36 | An absent file changes nothing, not even the status. A non-image type changes only the status. An image becomes the selection with a fresh preview handle and a cleared result. The previous preview is revoked and the new one is the only live handle. Prompt, loading and dragging are kept. |
| `StudioSpec.OnDrop` | image-edit-app/frontend/src/App.jsx:38-44 | Dragging ends whatever was dropped. Only the first file is passed to file intake. An empty drop changes only the dragging flag. |
| `StudioSpec.OnDragOver` | image-edit-app/frontend/src/App.jsx:46-49 | Only `isDragging` changes, to true, and the invariant is kept. |
| `StudioSpec.OnDragLeave` | image-edit-app/frontend/src/App.jsx:51-53 | Only `isDragging` changes, to false, and the invariant is kept. |
| `StudioSpec.OnPromptInput` | image-edit-app/frontend/src/App.jsx:150 | The typed text is stored verbatim and nothing else changes. |
| `StudioSpec.OnSubmitStart` | image-edit-app/frontend/src/App.jsx:55-71 | A request is built exactly when a file is selected and the prompt is not all JavaScript whitespace. Without a request only the status changes, and a missing file is reported before a blank prompt. With a request, loading is set, the "working" status is shown, and the request carries the selected file and the trimmed, non-empty prompt. |
| `StudioSpec.RejectionMessage` | image-edit-app/frontend/src/App.jsx:79-82 | The thrown error's message is the response's `detail` when that is truthy, otherwise the generic failure text. It is never empty. |
| `StudioSpec.CaughtMessage` | image-edit-app/frontend/src/App.jsx:88-89 | The `catch` block shows the error's message, or the fallback when the message is empty. It is never empty. |
| `StudioSpec.CompletionStatus` | image-edit-app/frontend/src/App.jsx:79-89 | Success shows the success text. A rejected response shows its truthy detail or the generic text, never the transport fallback. A thrown error shows its message or the fallback. The status is never blank. |
| `StudioSpec.OnSubmitComplete` | image-edit-app/frontend/src/App.jsx:73-92 | On a mounted component, every outcome clears `isLoading`. Only success sets `editedImage`, to the returned image. Only the result, the status and the loading flag change. After teardown nothing changes. |
| `StudioSpec.OnUnmount` | image-edit-app/frontend/src/App.jsx:16-22 | Teardown revokes the current preview if there is one. Afterwards no object URL is live. |
| `StudioSpec.Step` | image-edit-app/frontend/src/App.jsx:114-160 | Every event keeps the component invariant. A submit while loading is ignored because the button is disabled. A torn-down component ignores user events. An unmount always leaves the component torn down. |
| `StudioSpec.Run` | image-edit-app/frontend/src/App.jsx:16-93 | Any sequence of events keeps the component invariant. |
| `StudioSpec.AtMostOnePreview` | image-edit-app/frontend/src/App.jsx:16-35 | At most one object URL is live. It is the current `previewUrl`, and only while mounted. |
| `StudioSpec.PreviewLifecycle` | image-edit-app/frontend/src/App.jsx:16-22 | Take any events from the first render, then teardown. Afterwards no object URL is live, and every one ever created was revoked exactly once. |
| `Studio.App.constructor` | image-edit-app/frontend/src/App.jsx:6-12 | The fields start as `StudioSpec.Initial`. |
| `Studio.App.RevokePreview` | image-edit-app/frontend/src/App.jsx:17-21 | The cleanup updates the store in place exactly as `ReleasePreview` does. |
| `Studio.App.HandleFileChange` | image-edit-app/frontend/src/App.jsx:24-36 | The fields change exactly as `OnFileChange` says, and the invariant is kept. |
| `Studio.App.HandleDrop` | image-edit-app/frontend/src/App.jsx:38-44 | The fields change exactly as `OnDrop` says. |
| `Studio.App.HandleDragOver` | image-edit-app/frontend/src/App.jsx:46-49 | The fields change exactly as `OnDragOver` says. |
| `Studio.App.HandleDragLeave` | image-edit-app/frontend/src/App.jsx:51-53 | The fields change exactly as `OnDragLeave` says. |
| `Studio.App.SetPrompt` | image-edit-app/frontend/src/App.jsx:150 | The fields change exactly as `OnPromptInput` says. |
| `Studio.App.SubmitStart` | image-edit-app/frontend/src/App.jsx:55-71 | The new fields and the returned request are exactly those of `OnSubmitStart`. |
| `Studio.App.SubmitComplete` | image-edit-app/frontend/src/App.jsx:73-92 | The fields change exactly as `OnSubmitComplete` says. |
| `Studio.App.Unmount` | image-edit-app/frontend/src/App.jsx:16-22 | The fields change exactly as `OnUnmount` says. |
| `Text.StartsWithIff` | image-edit-app/frontend/src/App.jsx:26 | `startsWith` (and Python's `startswith` at main.py:44) holds exactly when the text is the prefix followed by something. |
| `Text.WhitespaceSetsDiffer` | image-edit-app/frontend/src/App.jsx:61 | The sets `JsWhitespace` (what `trim()` removes) and `PyWhitespace` (what `strip()` at main.py:35 removes) differ only in U+FEFF, which only JavaScript strips, and in U+001C..U+001F and U+0085, which only Python strips. |
| `Text.TrimStart` | image-edit-app/frontend/src/App.jsx:70 | The result is a tail of the input. Everything removed before it is whitespace, and it does not start with whitespace. |
| `Text.TrimEnd` | image-edit-app/frontend/src/App.jsx:70 | The result is a head of the input. Everything removed after it is whitespace, and it does not end with whitespace. |
| `Text.Trim` | image-edit-app/backend/main.py:35 | `trim()` / `strip()`: the input is whitespace, then the result, then whitespace, and the result has no whitespace at either end. |
| `Text.TrimOrder` | image-edit-app/backend/main.py:35 | Stripping the end first and the start second gives the same text as `Trim`. |
| `Text.BlankIff` | image-edit-app/frontend/src/App.jsx:61 | `!s.trim()` (and `not s.strip()`) holds exactly when every character is whitespace. |
| `Text.TrimIdempotent` | image-edit-app/backend/main.py:35 | Trimming twice gives the same text as trimming once. |
| `Paths.Basename` | image-edit-app/backend/app.py:60 | `os.path.basename` is the longest tail without '/'. |
| `Paths.BasenameIdempotent` | image-edit-app/backend/app.py:60 | Taking the basename twice changes nothing. |
| `Paths.PathName` | image-edit-app/backend/main.py:61 | `Path(...).name` holds no '/' and is never `.`. A plain name other than `.` is its own name, and the name of `.` is empty. |
| `Paths.PathNameOfJoin` | image-edit-app/backend/main.py:61 | The name of `a/b` is `b` whenever `b` is a real component: non-empty, not `.` and without '/'. |
| `Paths.PathNameSkipsEmpty` | image-edit-app/backend/main.py:61 | A trailing slash is ignored: `p/` has the same name as `p`. |
| `Paths.PathNameSkipsDot` | image-edit-app/backend/main.py:61 | A trailing `.` component is ignored: `p/.` has the same name as `p`. |
| `Paths.NameSuffix` | image-edit-app/backend/main.py:61 | A name has a suffix exactly when its last dot is neither its first nor its last character. The suffix is then the tail from that dot: a dot, at least one character, no further dot. |
| `Paths.Suffix` | image-edit-app/backend/main.py:61 | `Path(...).suffix` is the suffix of the path's name. It is empty, or a dot followed by at least one character, with no further dot and no '/'. |
| `Paths.SuffixOfPlainName` | image-edit-app/backend/main.py:61 | For a plain name `stem.ext`, where the stem is non-empty and the extension is dot-free, the suffix is `.ext`. |
| `ServerTypes.JoinedNameIsSafe` | image-edit-app/backend/main.py:62-63 | A name made of a fixed prefix and pieces without '/' names an entry directly inside its folder. |
| `MainServer.ValidatePrompt` | image-edit-app/backend/main.py:34-38 | Fails with 400 and its fixed detail exactly when the prompt is all Python whitespace. Otherwise it returns the stripped prompt, which is non-empty with no whitespace at either end. |
| `MainServer.ValidatePromptIdempotent` | image-edit-app/backend/main.py:34-38 | Validating an accepted prompt again returns it unchanged. |
| `MainServer.ValidateImageFile` | image-edit-app/backend/main.py:41-46 | A missing image or missing or empty file name is a 400 "add an image". Otherwise it is rejected exactly when the content type is present, non-empty and does not start with "image", and that rejection is the 400 "Please upload a valid image file.". An accepted image is returned unchanged. |
| `MainServer.UploadName` | image-edit-app/backend/main.py:61-63 | The stored upload's name always names a file directly inside the upload folder. |
| `MainServer.UploadNameParts` | image-edit-app/backend/main.py:61-62 | The upload name splits back into `upload_`, the 16-digit token, and the suffix of the client's name, or `.png` when that suffix is empty. |
| `MainServer.EditedName` | image-edit-app/backend/main.py:71-72 | The stored result's name names a file directly inside the edited folder. |
| `MainServer.EditedNameParts` | image-edit-app/backend/main.py:71 | The result name splits back into `edited_`, the 16-digit token and `.png`. |
| `MainServer.DataUrl` | image-edit-app/backend/main.py:76 | The answer's image is a `data:` URL that ends with the encoded payload. |
| `MainServer.ParseDataUrl` | image-edit-app/backend/main.py:76 | A parsed `data:` URL's data is the URL's tail. |
| `MainServer.DataUrlRoundTrip` | image-edit-app/backend/main.py:75-76 | Reading the answer's `data:` URL back per RFC 2397 gives media type `image/png`, base64 encoding, and exactly the payload. |
| `MainServer.StoreAndEdit` | image-edit-app/backend/main.py:61-78 | The upload is written first. The editor gets the stripped prompt. An editor failure is a 500 "trouble editing" that leaves only the upload behind. Success writes the result under the answer's `filename`, and the answer's `data:` URL carries the encoded result. Every written name is safe. |
| `MainServer.EditImage` | image-edit-app/backend/main.py:49-78 | The checks run in order: image, then prompt, then empty bytes. Each failure is its 400, with nothing written, so an image error wins over a prompt error. Once every check passes, the answer is exactly `StoreAndEdit` with the stripped prompt: the 500 that keeps the upload, or success. Success comes exactly when all checks pass and the editor accepts the stripped prompt. Every written name is safe. |
| `AltServer.ClientFilename` | image-edit-app/backend/app.py:59 | An absent or empty file name becomes `upload.png`. Any other name is kept. |
| `AltServer.SafeFilename` | image-edit-app/backend/app.py:60-61 | Whatever directories the client's name holds, the stored name is an entry directly inside the upload folder. |
| `AltServer.SafeFilenameParts` | image-edit-app/backend/app.py:60 | The stored name splits back into `upload_`, 32 hex digits, `_`, and the client name's basename, which holds no '/'. |
| `AltServer.EditedFilename` | image-edit-app/backend/app.py:34-35 | The stored result's name is an entry directly inside the edited folder. |
| `AltServer.EditedFilenameParts` | image-edit-app/backend/app.py:34 | The result name splits back into `edited_`, 32 hex digits and `.png`. |
| `AltServer.EditImageBasedOnPrompt` | image-edit-app/backend/app.py:23-40 | A result exists exactly when the SDK call succeeds. The result is written to the edited folder under `edited_<hex>.png`, and that name is returned. |
| `AltServer.EditedImageUrl` | image-edit-app/backend/app.py:72 | The URL starts with `/edited_image/` and its tail is the stored name. |
| `AltServer.StoreAndEdit` | image-edit-app/backend/app.py:59-72 | The upload is written first under its safe name. Success comes exactly when the SDK accepts the prompt as received. A failure is a 500 that leaves only the upload. The answer's URL names the result file that was written. |
| `AltServer.EditImage` | image-edit-app/backend/app.py:54-72 | A blank prompt is a 400 with nothing read or written. Otherwise success comes exactly when the SDK accepts the raw, untrimmed prompt. Every written name is safe. |

## Left out

- Rendering: the JSX markup, CSS classes, the spinner and the button label. The disabled submit
  button enters only as the `!isLoading` requirement of `SubmitStart` and as `Step` ignoring
  `Submit` while loading.
- `event.preventDefault()` and `event.stopPropagation()`, because they affect only the browser's
  default handling.
- `fetch`, `FormData` and `response.json()` parsing are folded into the three-way `Outcome` of
  the settled request. A body that is not JSON, or a JSON body without `image`, is taken to
  surface as one of those outcomes.
- `StudioSpec.RejectionMessage`: takes the response's `detail` as a string or absent. A
  non-string `detail`, such as FastAPI's list of validation errors, is converted to text by
  `new Error(detail)`, and that conversion is not modelled.
- Object URLs are handles, not strings. `URL.createObjectURL` and `URL.revokeObjectURL` are
  modelled only by their effect on the store of live handles.
- `import.meta.env` and the endpoint URL, because the request is returned as a value and not sent.
- Asynchrony: `onSubmit` is two steps, `SubmitStart` and `SubmitComplete`. Nothing else runs
  between them except other events. React's batching of state updates and its StrictMode
  double effects are not modelled.
- The server side of the request: FastAPI routing, form parsing and its 422 answers for
  missing fields (an empty form value, such as a `prompt` of `""`, counts as missing and
  never reaches the blank-prompt check), CORS middleware, `load_dotenv`, directory creation, the `/health` endpoints
  and the `StaticFiles` mount.
- `utils.py` and the OpenAI client calls in `app.py`, because they are thin wrappers over an
  external SDK. They are the `editor` and `sdk` parameters, and `None` means the call raised.
  The editor reads the stored upload. It is modelled as receiving that upload's bytes.
- File writes are returned as `FileWrite` records and not performed. A write that fails is
  not modelled.
- Base64 encoding and decoding (section 4 of RFC 4648) is an opaque parameter. Only the
  `data:` prefix is built here.
- Randomness (`secrets.token_hex(8)`, `uuid4().hex`) is taken as inputs of 16 or 32
  lower-case hex digits. In `main.py` the tokens are drawn only after validation. The model
  does not track which random draws a failed request made.
- Windows path rules: `Path` and `os.path` are modelled in their POSIX form.
- `Paths.NameSuffix`: follows `PurePath.suffix` as defined up to Python 3.13, where a trailing
  dot is not a suffix. Python 3.14 makes `Path("photo.").suffix` equal `"."`, and that
  version is not modelled.
- `MainServer.ValidateImageFile`: treats `not image` as a missing upload only. A present
  `UploadFile` is always truthy.

## Behaviour the code does not have

The model follows the code. The client does not do the following, so neither does the model.

- No base URL is applied to the returned image, and there are no request tokens. Only the
  submit button is disabled while a request runs, so at most one request is in flight, but a
  file chosen meanwhile does not stop the late response from setting `editedImage`.
- Starting a submit does not clear the previous result. `editedImage` is cleared only by a
  new image, and a failed request leaves the old result on screen.
- A non-image file does not leave the state unchanged: the status becomes the
  "choose an image file" text.
- A transport failure does not show a fixed generic message: the thrown error's own message
  is shown, and the fallback text only when that message is empty.
- There is no explicit session-state enumeration. The code keeps only the seven state slots,
  and this model does the same.
