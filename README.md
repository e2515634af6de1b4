# Media transcription front-end: verified model of its control logic

This project models the logic of a browser front-end that transcribes audio or video files with a
remote generative model. The model covers four parts:

- **Session state machine** (`App.tsx`). The class `App.Session` holds `status`, `result` and
  `error`. `HandleFileSelect` moves the session to uploading, then to processing, then to completed
  or error. `HandleReset` returns it to idle. The page view is the pure function `App.Render`.
  The first await becomes a parameter: `read` says how the file read ended. The second is a call
  to `GeminiService.RemoteModel`, an object that answers each request by its fixed `respond`
  function and records every request it receives in `log`. Each `await` hands the session to
  `App.EventLoop.Await`, which records its session's own state at that moment in `suspended`.
  The contract gives exactly which states were recorded and which requests were added to the
  model's log, and states the invariant `Consistent` for each recorded state and the final one.
- **Upload gate** (`components/FileUploader.tsx`). `Rejection` is the type-then-size test with its
  fixed messages. The class `Uploader` holds `isDragging` and `dragError`. `ValidateFile`,
  `HandleDrop` and `HandleFileInput` are its handlers. The file they forward to `onFileSelect` is
  their out-parameter.
- **Transcription client** (`services/geminiService.ts`). `CleanBase64` models the payload
  cleaning `split(',')[1] || s`. `ResponseText` is the empty-text fallback. `TranscribeMedia`
  makes exactly one request and turns every failure into one fixed error.
- **Result view** (`components/TranscriptionResult.tsx`). `DownloadName` builds the download file
  name. The class `ResultPanel` holds the shown result, the copy confirmation and the text area.
  Its handlers `HandleCopy` and `HandleDownload` write to a `Browser` object, which stands for the
  system clipboard and the files saved through download links.

`JsStrings` models the JavaScript `split` (for a one-character separator), `startsWith` and
`includes` that these parts rely on. The lemmas `SplitJoin` and `JoinSplit` prove its `Split` and
`Join` are inverses.

Three behaviours of the code that a reader might not expect; the model follows the code:

- Payload cleaning keeps the text between the first and second comma, not everything after the
  first comma. The two agree for a data URL whose payload is base64, because the base64 alphabet
  has no comma (`CleanDataUrl`). For `"a,b,c"` the code yields `"b"` (`CleanExamples`).
- The uploader is on screen in the error state too, below the error banner. The drop handler
  ignores drops only while uploading or processing. So a new file can be chosen from the error
  state without a reset. The picker handler has no status check of its own; the picker input is
  disabled while uploading or processing.
- `handleFileSelect` does not clear `result`. The invariant "a result is stored exactly when
  completed" holds only because the handler is reachable only through the uploader, and the
  uploader is hidden while a result is shown. That is the precondition of `HandleFileSelect`.

## Model

| member | source | states |
|---|---|---|
| `JsStrings.Split` | services/geminiService.ts:11 | `split` with a one-character separator always gives at least one field, and no field contains the separator |
| `JsStrings.SplitJoin` | services/geminiService.ts:11 | joining the fields of a split with the separator gives back the original string |
| `JsStrings.JoinSplit` | services/geminiService.ts:11 | splitting the join of separator-free fields gives back those fields (the other direction of the round trip) |
| `JsStrings.SplitWithoutSeparator` | services/geminiService.ts:11 | a string without the separator splits into itself alone |
| `JsStrings.SplitAfterField` | services/geminiService.ts:11 | a separator-free run followed by a separator is the first field; the other fields are the split of what follows |
| `JsStrings.SplitHead` | components/TranscriptionResult.tsx:23 | `split(sep)[0]` is the longest separator-free prefix: a prefix, separator-free, and followed by the separator unless it is the whole string |
| `JsStrings.SplitAtFirst` | components/TranscriptionResult.tsx:23 | the fields of a split are the text before the first separator, then the split of the text after it |
| `JsStrings.IncludesAt` | components/FileUploader.tsx:34 | `includes` finds a copy of the searched text at any position |
| `JsStrings.IncludesHasPos` | components/FileUploader.tsx:34 | `includes` holds only when a copy of the searched text stands at some position (the converse of `IncludesAt`) |
| `GeminiService.CleanBase64` | services/geminiService.ts:11 | the cleaned payload is the input itself, or a non-empty string with no comma |
| `GeminiService.CleanFields` | services/geminiService.ts:11 | for any input with a comma, cleaning gives the text between the first and second comma when it is non-empty, and the whole input otherwise |
| `GeminiService.CleanWithoutComma` | services/geminiService.ts:11 | raw base64 with no comma is passed on unchanged |
| `GeminiService.CleanIdempotent` | services/geminiService.ts:11 | cleaning twice is cleaning once |
| `GeminiService.CleanDataUrl` | services/geminiService.ts:11 | for a data URL with a non-empty base64 payload, cleaning yields exactly the payload (everything after the first comma) |
| `GeminiService.CleanExamples` | services/geminiService.ts:11 | `"data:audio/mp3;base64,AAAA"` and `"AAAA"` both give `"AAAA"`; `"data:x;base64,"` is returned unchanged; `"a,b,c"` gives `"b"` |
| `GeminiService.ResponseText` | services/geminiService.ts:30 | a non-empty reply text is returned unchanged; an empty or absent one gives "No transcription generated."; the result is never empty |
| `GeminiService.RemoteModel.constructor` | services/geminiService.ts:3 | the model answers by the given function and has received no request yet |
| `GeminiService.RemoteModel.Generate` | services/geminiService.ts:13-28 | one call appends exactly its request to the model's log and returns the model's answer to it |
| `GeminiService.TranscribeMedia` | services/geminiService.ts:8-35 | the model's log grows by exactly one request, carrying the caller's MIME type, the cleaned payload and the fixed instruction, so there is no retry; the outcome fails iff the model call fails, always with the one fixed message; a success carries the reply text or its fallback |
| `FileUploader.SomeEntryMatchesIff` | components/FileUploader.tsx:26-34 | the `validTypes.some(...)` test holds iff the list is non-empty and the type starts with `audio/` or `video/` or contains one listed entry |
| `FileUploader.Rejection` | components/FileUploader.tsx:24-45 | a file is accepted iff its type is a media type and its size is at most 50 MiB; a non-media type is reported as unsupported whatever the size; an oversized media file is reported as too large |
| `FileUploader.SizeBoundary` | components/FileUploader.tsx:32-42 | a media file of exactly 52,428,800 bytes is accepted and one of 52,428,801 bytes is rejected as too large |
| `FileUploader.ContainedEntryAdmitted` | components/FileUploader.tsx:34 | a type that merely contains a listed entry (`application/x-video/mp4`) is admitted though it is neither an audio nor a video type |
| `FileUploader.FirstFile` | components/FileUploader.tsx:54-56 | only the first file of a present, non-empty list is considered |
| `FileUploader.Uploader.constructor` | components/FileUploader.tsx:11-12 | not dragging, no error shown |
| `FileUploader.Uploader.ValidateFile` | components/FileUploader.tsx:24-45 | returns true iff `Rejection` accepts the file; on a rejection the shown error is exactly its reason, and on acceptance it is left as it was |
| `FileUploader.Uploader.HandleDrop` | components/FileUploader.tsx:47-60 | always ends dragging and clears the error; while uploading or processing forwards nothing and shows no error; otherwise forwards the first file iff it is accepted, and shows its rejection reason if not |
| `FileUploader.Uploader.HandleFileInput` | components/FileUploader.tsx:62-70 | clears the error and, with no status check, forwards the first picked file iff it is accepted, showing its rejection reason if not |
| `TranscriptionResultPanel.DownloadName` | components/TranscriptionResult.tsx:23 | the name ends with `_transcript.txt`, and the part before that is the longest dot-free prefix of the file name |
| `TranscriptionResultPanel.DownloadNameByFirstDot` | components/TranscriptionResult.tsx:23 | a name without a dot keeps all of it; otherwise the name keeps what precedes the first dot |
| `TranscriptionResultPanel.DownloadNameStem` | components/TranscriptionResult.tsx:23 | a dot-free stem followed by a dot keeps the stem, whatever follows the dot |
| `TranscriptionResultPanel.DownloadNameOneDot` | components/TranscriptionResult.tsx:23 | `"clip.mp4"` gives `"clip_transcript.txt"` |
| `TranscriptionResultPanel.DownloadNameSeveralDots` | components/TranscriptionResult.tsx:23 | `"my.clip.mp4"` gives `"my_transcript.txt"` |
| `TranscriptionResultPanel.DownloadNameLeadingDot` | components/TranscriptionResult.tsx:23 | a name starting with a dot gives `"_transcript.txt"` |
| `TranscriptionResultPanel.ResultPanel.constructor` | components/TranscriptionResult.tsx:10-11 | a mounted view shows no copy confirmation, and its text area starts with exactly the transcript text (line 68) |
| `TranscriptionResultPanel.ResultPanel.HandleCopy` | components/TranscriptionResult.tsx:13-15 | when the awaited clipboard write succeeds, the clipboard holds exactly the transcript text and the confirmation is shown; when it is rejected, neither the clipboard nor the confirmation changes |
| `TranscriptionResultPanel.ResultPanel.HandleDownload` | components/TranscriptionResult.tsx:19-27 | exactly one more file is saved; its content is the transcript text and its name is `DownloadName` of the source file name; nothing else changes |
| `App.CaughtMessage` | App.tsx:37 | the error shown is the caught message when it is non-empty, and otherwise the fixed "An unexpected error occurred during transcription."; it is never empty |
| `App.Render` | App.tsx:69-82 | the error banner is shown iff the status is error, with the stored error; the result view is shown iff the status is completed and a result is stored; otherwise the uploader is shown with the status |
| `App.RenderConsistent` | App.tsx:69-82 | in a consistent state the result view is shown iff completed, the uploader iff idle, uploading, processing or error, the banner always has a message, and the banner and the result view never appear together |
| `App.FinalState` | App.tsx:15-40 | a file selection ends in completed or in error, never in a mid-flight state, and consistently: error with the caught message after a failed read, completed with the reply text and the file name after a reply, error with the fixed message after a failed call |
| `App.EventLoop.Await` | App.tsx:21-26 | an `await` records the state of the event loop's own session at that moment, appended to what was recorded before |
| `App.Session.constructor` | App.tsx:11-13 | the session starts idle with no result and no error, and consistent |
| `App.Session.HandleFileSelect` | App.tsx:15-40 | called with the event loop of this same session; the session's recorded state at the first await is uploading with the error cleared; a failed read records only that state, makes no request and ends in error with the caught message; a successful read records processing at the second await, and the model's log grows by exactly one request, carrying the cleaned data and the file's own type; a reply ends completed with the reply text and the file name; a failed call ends in error with the fixed message and no result; every state at an await and at exit is consistent, and the final state is `FinalState` |
| `App.Session.HandleReset` | App.tsx:42-46 | from any state: idle, no result, no error; the new state does not depend on the old one, so resetting twice equals resetting once |
| `App.DropOnUploader` | App.tsx:81 | given the event loop of the same session: the drag styling always ends; while a transcription is in flight, or with no file, nothing is forwarded and no error is shown; otherwise the shown error is the first file's rejection reason and the file is forwarded iff it has none; a drop that forwards nothing leaves the session, the model's log and the recorded await states unchanged; a forwarded file ends the session in `FinalState`, records uploading (and processing after a successful read) at its awaits, and the log gains its one request exactly when the read succeeded |

## Left out

- The remote model client, the model name, the API key and the network request are left out. The model is the class `GeminiService.RemoteModel`: its fixed `respond` function gives a reply or a failure for each request, and its `log` records the requests it received.
- `readFileAsBase64` (browser `FileReader` callbacks) is left out. Only how the read ends is modelled, as a data URL or an error with an optional message. The code rejects a failed read with the `FileReader` error event, which has no `message`, so after a failed read the page always shows "An unexpected error occurred during transcription." (the `None` case of `CaughtMessage`).
- A file read or a model call that never settles is not modelled. The code has no timeout, so such a selection leaves the page in the last state recorded at an await, with the uploader disabled.
- The `timestamp` of a result is wall-clock time and is not modelled.
- Clipboard writes, `Blob` and object-URL creation, and the temporary link element are operating-system and DOM effects. The class `Browser` keeps only what they receive: the clipboard text and each saved file's name and content.
- The two-second timer that resets the "copied" feedback is left out, because it is timer-driven visual feedback.
- Asynchronous interleaving and React's batching of state updates are not modelled. Each handler runs sequentially: the outcomes of its two awaits are given, and `EventLoop` records the state the page shows while it waits. Nothing else can run at an await, because the uploader is disabled and no reset control is on screen then.
- `console.error` logging is left out, and so are the drag-over and drag-leave styling handlers (which only set `isDragging`), the markup and the styles.
- `components/Header.tsx` and `components/Footer.tsx` are left out: they are static markup.
- `FileUploader.IsLoading` has no contract row of its own. It is the plain test "uploading or processing". Its uses are stated in `HandleDrop` and `DropOnUploader`. The disabling of the picker input is a browser attribute, so `HandleFileInput` is modelled without a status check, as the code has it.
- A file's `size` is an unbounded natural number. The floating-point representation of JavaScript numbers is not modelled.
