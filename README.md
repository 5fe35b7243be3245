# Audio upload and chat backend: a Dafny model

This project models the logic core of a small FastAPI backend for a text and voice "AI collaboration" chat. The backend has two parts with state:

- **Audio upload service** (`AudioService`). It validates an uploaded audio file and stores it in the upload directory under a generated id. It also removes stale uploads and reports directory statistics.
- **WebSocket connection registry** (`ConnectionManager`). It maps a chat id to the live connection for that chat.

Beside them sit pure selectors that return canned text, plus the guard of the text-chat endpoint:

- the keyword-based AI reply;
- the size-bucketed mock transcription;
- the size-bucketed mock voice content;
- the empty-message check.

Modules:

- `Config` (`config.dfy`): the allow-list of content types, the 10 MiB size limit and the 24-hour cleanup age.
- `Wrappers` (`wrappers.dfy`): `Option` and `Result`.
- `PyText` (`py_text.dfy`): the Python string operations the code relies on. These are `lower()`, the substring test `in`, `strip()` and `rfind()`. Each comes with an independent characterisation: by position, or whitespace on both sides.
- `PurePath` (`pure_path.dfy`): `pathlib`'s `.name` and `.suffix`.
- `Audio` (`audio_service.dfy`):
  - the upload directory, modelled as a map from entry name to `Entry(isFile, data, mtime)`;
  - the validation guards;
  - extension resolution and the duration estimate;
  - the `AudioService` class, whose field `files` is the directory, with `SaveAudioFile`, `CleanupOldFiles` and `GetUploadStats`.
- `ChatServer` (`chat_server.dfy`):
  - the `ConnectionManager` class over `activeConnections: map<string, WebSocket>`;
  - the reply and transcription selectors, using the exact reply texts of the source;
  - the chat endpoint.

Values that come from outside the program are parameters:

- the UUID (`fileId`);
- the clock (`now`, `timestamp`);
- whether a write fails (`writeFails`);
- whether the directory can be listed (`listingFails`);
- which files cannot be unlinked (`unremovable`).

Points of the code's behaviour that the model follows closely:

- Any suffix is kept, lowercased; only a missing one falls back to `.wav`.
- Only a failed `unlink` is skipped; a failed `stat` or listing ends the sweep, because the outer `try` catches it.
- `cleaned_count` is only logged; `CleanupOldFiles` returns it, so that the count can be stated.

## Model

| member | source | states |
|---|---|---|
| `Audio.TypeAccepted` | backend/services/audio_service.py:23 | An upload with no declared type passes the type guard, and every declared type that passes is an `audio/` type. |
| `Audio.ValidateUpload` | backend/services/audio_service.py:23-44 | The three guards in order. An upload fails as unsupported exactly when a non-empty declared type is off the allow-list. It fails as too large exactly when the type passes and size > 10 MiB. It fails as empty exactly when the type passes and size is 0. Otherwise it passes. |
| `Audio.ValidateUploadExamples` | backend/services/audio_service.py:23-44 | An empty WAV is empty, 11,000,000 bytes is too large and 1 KiB is accepted. Exactly 10 MiB with no type is accepted. A bad type wins even over an empty body. |
| `Audio.StatusCode` | backend/services/audio_service.py:21-72 | Validation failures are raised as 400 and only the storage failure as 500. |
| `Audio.GetFileExtension` | backend/services/audio_service.py:74-80 | `.wav` when the name is absent or empty or has no suffix, else the lowercased suffix. Always a dot plus at least one character, with no `/`, no second dot and no upper case. |
| `Audio.GetFileExtensionOfPlainName` | backend/services/audio_service.py:79-80 | For a plain `stem.ext`, the result is `.ext` lowercased. |
| `Audio.GetFileExtensionOfNestedName` | backend/services/audio_service.py:79-80 | A name inside a directory, `dir/stem.ext`, gives `.ext` lowercased; the directory part plays no role. |
| `Audio.GetFileExtensionOfHiddenName` | backend/services/audio_service.py:79-80 | A hidden name `.rest` with no further dot gets the default `.wav`. |
| `Audio.GetFileExtensionCaseInsensitive` | backend/services/audio_service.py:79 | Lowering the original name first does not change the resolved extension. |
| `Audio.StoredName` | backend/services/audio_service.py:48-50 | The stored name is the file id followed by the resolved extension, so at least two characters longer than the id. |
| `Audio.StoredNameIsPlain` | backend/services/audio_service.py:47-50 | With an id free of `/`, the stored name is one entry of the upload directory and ends in the resolved extension. |
| `Audio.EstimateDuration` | backend/services/audio_service.py:82-86 | The exact estimate is non-negative and zero only for size 0. Multiplied by the 128,000 bit/s rate, it gives back the size in bits. (After the source's `round(…, 2)`, sizes of 1 to 79 bytes are also reported as 0.0.) |
| `Audio.EstimateDurationMonotone` | backend/services/audio_service.py:82-86 | A larger size never gets a smaller estimate. |
| `Audio.EstimateDurationBound` | backend/services/audio_service.py:82-86 | Every accepted size is estimated at no more than 655.36 s. |
| `Audio.EstimateDurationExamples` | backend/services/audio_service.py:82-86 | 1024 bytes are estimated at 0.064 s and exactly 10 MiB at 655.36 s. |
| `Audio.RegularFiles` | backend/services/audio_service.py:116 | The names that `f.is_file()` keeps: entries of the directory, all regular files, no more of them than the directory has. |
| `Audio.TotalSize` | backend/services/audio_service.py:117 | The summed sizes of the named entries; zero exactly when every named entry is empty or absent. |
| `Audio.TotalSizeRemove` | backend/services/audio_service.py:117 | The directory's size sum can be taken apart at any name. |
| `Audio.TotalSizeAgree` | backend/services/audio_service.py:117 | The sum depends only on the sizes of the summed entries. |
| `Audio.TotalSizeSplit` | backend/services/audio_service.py:117 | The sum over a set is the sum over a part plus the sum over the rest. |
| `Audio.Store` | backend/services/audio_service.py:53-54 | Writing adds or rewrites exactly the one named regular file with the given bytes and time. Every other entry is unchanged, and a fresh name grows the directory by one. |
| `Audio.StoreStats` | backend/services/audio_service.py:115-117 | Writing a fresh file adds one regular file to the count and its length to the total size. |
| `Audio.Expired` | backend/services/audio_service.py:96-98 | Only a regular file can be expired, and for a non-negative threshold only one modified before `now`. |
| `Audio.Sweep` | backend/services/audio_service.py:95-104 | Nothing is added or altered. Non-files and files no older than `hours*3600` s always stay. Files whose unlink fails stay. No other expired file is left. |
| `Audio.SweepIsolatesFailures` | backend/services/audio_service.py:99-104 | Whether a file is removed does not depend on other files' unlink failures. |
| `Audio.SweepIdempotent` | backend/services/audio_service.py:95-104 | A second sweep at the same moment removes nothing more. |
| `Audio.SweepStats` | backend/services/audio_service.py:95-104 | The removed files are regular files. The file count drops by their number and the total size by their summed size. |
| `Audio.SweepExample` | backend/services/audio_service.py:97-98 | With 24 hours, a file 25 h old is removed and one 1 h old kept. |
| `Audio.AudioService.constructor` | backend/services/audio_service.py:11-14 | The service takes over the directory with whatever it holds. |
| `Audio.AudioService.GetUploadStats` | backend/services/audio_service.py:112-129 | The number of regular files and the sum of their sizes, with the MiB figure derived from it. If listing fails, all zeros. The directory path is returned either way. |
| `Audio.AudioService.SaveAudioFile` | backend/services/audio_service.py:16-72 | A failed guard returns its error and writes nothing. A failed write returns the storage error and writes nothing. On success:<br>• the directory is `Store` of the old one under `fileId + extension`, holding the content;<br>• the record carries that id, name and path, `file_size == len(content)` with `0 < file_size <= MAX_FILE_SIZE`, the declared type or `audio/unknown`, the estimate and `"saved"`;<br>• for a fresh name, the statistics grow by one file and `len(content)` bytes. |
| `Audio.AudioService.CleanupOldFiles` | backend/services/audio_service.py:88-110 | If listing fails, nothing changes and the count is 0. Otherwise the directory becomes `Sweep(old directory)`, the returned count is the number of files actually removed, and the file statistics drop by that count. |
| `PyText.LowerChar` | backend/main.py:190 | Case-maps one character. The result has no upper case, stays a letter exactly when the input was one, and changes only ASCII upper-case letters. |
| `PyText.Lower` | backend/main.py:190 | Same length, with every character case-mapped in place. |
| `PyText.LowerIdempotent` | backend/main.py:190 | Lowering twice is lowering once. |
| `PyText.Contains` | backend/main.py:192 | `keyword in text`: holds only when the keyword is no longer than the text. |
| `PyText.ContainsIffOccurs` | backend/main.py:192 | The recursive substring test holds exactly when the pattern starts at some index of the text. |
| `PyText.ContainsInfix` | backend/main.py:244 | A string occurs in any text built around it. |
| `PyText.ContainsLowerCaseless` | backend/main.py:190-192 | For a pattern with no ASCII letters, matching the lowered text is the same as matching the text. |
| `PyText.IsSpace` | backend/main.py:90 | The white space `str.strip()` removes: it includes space, tab, newline and carriage return, and never an ASCII letter, `.` or `/`. |
| `PyText.LeadingSpaceEnd` | backend/main.py:90 | The end of the run of white space from a position: everything skipped is white space, and the character there, if any, is not. |
| `PyText.TrailingSpaceStart` | backend/main.py:90 | The start of the run of white space up to a position: everything skipped is white space, and the character before it, if any, is not. |
| `PyText.Strip` | backend/main.py:90 | A contiguous piece of the input with only white space around it and none at either end. |
| `PyText.StripEmptyIffBlank` | backend/main.py:90-92 | A message strips to nothing exactly when every character is white space. |
| `PyText.StripIdempotent` | backend/main.py:90 | Stripping twice is stripping once. |
| `PyText.LastIndexOf` | backend/services/audio_service.py:79 | `rfind`: -1 or an index of the character, with no occurrence after it. |
| `PurePath.Name` | backend/services/audio_service.py:79 | The final path component contains no `/` and is not `.`; the lemmas below pin down which component it is. |
| `PurePath.NameOfChild` | backend/services/audio_service.py:79 | The text after the last `/`, when it is neither empty nor `.`, is the final component. |
| `PurePath.NameOfTrailingSlash` | backend/services/audio_service.py:79 | A trailing `/` does not change the final component. |
| `PurePath.NameOfTrailingDot` | backend/services/audio_service.py:79 | A trailing `/.` does not change the final component. |
| `PurePath.NameOfLower` | backend/services/audio_service.py:79 | Lowering a path lowers its final component and nothing else. |
| `PurePath.SuffixOfLower` | backend/services/audio_service.py:79 | Lowering a name lowers its suffix. |
| `PurePath.Suffix` | backend/services/audio_service.py:79 | Empty, or a tail of the name that is shorter than the name, starts with its only dot and has at least one more character. It is non-empty exactly when the last dot is neither first nor last. |
| `PurePath.SuffixOfDottedName` | backend/services/audio_service.py:79 | A name `stem.ext` with a non-empty stem and a non-empty, dot-free `ext` has the suffix `.ext`. |
| `PurePath.PlainName` | backend/services/audio_service.py:79 | A name without `/` (other than empty or `.`) is its own final component. |
| `ChatServer.Register` | backend/main.py:39-41 | After connect, the id maps to the new handle, replacing any earlier one. Every other id is unchanged and nothing else is added. |
| `ChatServer.Unregister` | backend/main.py:44-46 | After disconnect, the id is absent and every other id keeps its handle. An absent id leaves the map unchanged. |
| `ChatServer.ReconnectReplaces` | backend/main.py:39-41 | A second connect for an id leaves only the second handle. |
| `ChatServer.UnregisterIdempotent` | backend/main.py:44-46 | Disconnecting twice equals disconnecting once. |
| `ChatServer.UnregisterUndoesRegister` | backend/main.py:39-46 | Connect then disconnect leaves the map as a plain disconnect would, and as it was if the id was new. |
| `ChatServer.DistinctIdsCommute` | backend/main.py:39-46 | Connects and disconnects of different ids commute. |
| `ChatServer.ConnectionManager.constructor` | backend/main.py:36-37 | The registry starts empty. |
| `ChatServer.ConnectionManager.Connect` | backend/main.py:39-42 | The new registry is `Register` of the old one. |
| `ChatServer.ConnectionManager.Disconnect` | backend/main.py:44-47 | The new registry is `Unregister` of the old one. |
| `ChatServer.MentionsAny` | backend/main.py:192-226 | `any(keyword in text …)`: holds exactly when some keyword of the group starts at some position of the text. |
| `ChatServer.FirstMatchUnique` | backend/main.py:192-243 | The first matching keyword group, or "none", is unique. |
| `ChatServer.GenerateAiReply` | backend/main.py:188-253 | Some group index, or index 4 for none, is the first one the lowered message mentions. The reply is the canned reply of that first group, in the order news, writing, preview, help. Only when no group is mentioned is it the fallback, which contains the original message verbatim. |
| `ChatServer.KeywordMatchIgnoresCase` | backend/main.py:190-226 | Lowering the message never changes which keyword group it mentions. |
| `ChatServer.GenerateAiReplyIgnoresCase` | backend/main.py:190-253 | Messages equal up to ASCII case get the same canned reply. |
| `ChatServer.TranscriptionBucket` | backend/main.py:257-264 | The `file_size // 1024` buckets `<10`, `<50` and the rest, restated in bytes as below 10240, below 51200, and the rest. |
| `ChatServer.GenerateMockTranscription` | backend/main.py:255-264 | One of the three transcriptions: the first exactly below 10240 bytes, the second exactly from 10240 to 51199 bytes, the third exactly from 51200 bytes. |
| `ChatServer.VoiceBucket` | backend/main.py:268-273 | The raw-byte buckets below 10000, below 50000, and the rest. |
| `ChatServer.GenerateMockVoiceContent` | backend/main.py:266-273 | Exactly one of the three voice contents: the first below 10000 bytes, the second from 10000 to 49999, the third from 50000. |
| `ChatServer.BucketsMonotone` | backend/main.py:257-273 | A larger size never selects an earlier transcription or voice content. |
| `ChatServer.BucketThresholdsDiffer` | backend/main.py:257-273 | The voice bucket is never below the transcription bucket. The two differ exactly for 10000-10239 and 50000-51199 bytes. |
| `ChatServer.ChatEndpoint` | backend/main.py:86-105 | A message that is all white space is refused with 400 before any reply is chosen, and only such a message is. Otherwise the answer is the reply to the stripped message with status `"success"`. |
| `ChatServer.ChatEndpointIgnoresPadding` | backend/main.py:90-96 | Pre-stripping a message does not change the endpoint's answer. |

`ChatServer.ReconnectScenario` (backend/main.py:39-46) replays a reconnect sequence on a real `ConnectionManager`: connect A to h1, then to h2, then disconnect twice. It has no contract of its own; its assertions check the registry after each step.

## Left out

- FastAPI routing, CORS, the heartbeat and health endpoints, and the `/transcribe` and WebSocket routes that wire the services together are framework glue. The text of each `HTTPException` detail is left out too, except for the chat endpoint's. Errors are the `SaveError` and `HttpError` datatypes.
- The WebSocket receive loop, JSON encoding, `accept()` and `send_text` are asynchronous network I/O. Only the registry map is modelled.
- `uuid.uuid4()` is randomness. The id is the `fileId` parameter, and its uniqueness is not proved. `SaveAudioFile` does not require a fresh name: like `open(..., "wb")` it overwrites an existing regular file, and the "one new entry" statements are conditioned on freshness. A non-file entry under that name makes `open` fail; the model leaves that case to the `writeFails` parameter.
- Disk I/O (`mkdir`, `iterdir`, `is_file`, `stat`, `unlink`, `open`/`write`) and `time.time()` are replaced by the `files` map and the parameters listed above.
- Audio.AudioService.SaveAudioFile: a write that fails after the file was opened would leave a truncated file. The model treats every write failure as happening before anything is written. A failure to read the upload, which the source also turns into a 500, is not modelled.
- Audio.AudioService.CleanupOldFiles: a `stat` that fails in the middle of the sweep ends the sweep after an order-dependent prefix of the directory. Only a failed listing, which ends it before it starts, is modelled. `hours` has no default in the model; callers pass `Config.TEMP_FILE_CLEANUP_HOURS`. The count `cleaned_count` is returned, although the source only logs it.
- Audio.EstimateDuration: the estimate is exact rational seconds. The source's float division and `round(..., 2)` are not modelled, so 1024 bytes gives 0.064, not 0.06, and sizes of 1 to 79 bytes, which the source reports as 0.0, get a small positive estimate.
- Audio.AudioService.GetUploadStats: `total_size_mb` is exact, without `round(..., 2)`. The byte total is kept in the record as well. The statistics are a ghost function, because the size sum picks elements of a set.
- PyText.Lower: only ASCII letters are case-mapped, while Python's `str.lower()` maps all of Unicode. Keyword matching is unaffected: every keyword is CJK text, which `lower()` neither changes nor produces, so full case mapping cannot create or destroy a match. `ChatServer.KeywordMatchIgnoresCase` proves this only for the model's ASCII lowering. Extensions with non-ASCII upper-case letters would differ.
- PurePath.Suffix: it follows POSIX path rules and the `pathlib` suffix rule of Python up to 3.13, where a trailing dot gives no suffix. Windows paths are not modelled.
- `print` logging throughout is left out.
- `backend/start.py` (platform detection and server launch) is not part of this model.
- Concurrency between sessions is not modelled. Registry operations are sequential, and `DistinctIdsCommute` states only that operations on different ids do not interfere when run in either order.
