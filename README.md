# Chunked uploads: a Dafny model of laravel-uploader's upload protocol

The application lets a browser upload large files in 2 MiB pieces. This
project models the three parts that make that work and proves properties of
each, and of the client and server run together.

- **The server's chunk receiver** (`UploadController::chunk`, `abort` and
  `normalizeFilename`).
  - Each request is validated and its optional checksum checked.
  - The upload's metadata record is loaded, or a fresh one made.
  - The chunk must be the one the record expects next. It is then appended
    to `uploads/<normalizedName>`.
  - The last chunk creates one catalog record and deletes the metadata.
  - `abort` deletes the partial file and the metadata.
  - Modelled in `chunk_receiver.dfy`:
    - `Receive` and `AbortUpload` are pure functions on a `Store` (metadata
      map, file map, catalog records).
    - The class `Receiver` performs the same steps in place. Each method is
      proved equal to the function.
    - The invariant proved: every live upload's file is the in-order
      concatenation of the chunks accepted for it. It is tracked through a
      ghost map of accepted chunks.
- **The file-name normaliser** (`filename_normalizer.dfy`).
  - PHP's `pathinfo`, the `preg_replace`/`trim`/`Str::limit` pipeline, and
    the `stem_time_token.ext` suffix.
  - `time()` and `Str::random(8)` are parameters.
- **The client's upload hook** (`useFileSelection`).
  - `chunk_splitter.dfy`: `CHUNK_SIZE` and the slicing arithmetic.
  - `file_selection.dfy`:
    - The pure state updaters: `addFiles`, `updateFileStatus`, `removeFile`.
    - `Plan`, the posts and the ending of one `sendFile` call, given the
      server's replies.
    - The class `FileSelection`: `sendFile` as a `while` loop proved against
      `Plan`, plus `pauseUpload`, `resumeUpload`, `removeFile` and
      `removeAllFiles` acting in place on the hook's state.
- **The MIME classifier** `getFileCategory` (`file_category.dfy`).
- **Client and server together** (`protocol.dfy`).
  - The loop's posts are fed to the receiver, and its responses are read
    back as the client reads them.
  - An uninterrupted upload stores the file byte for byte.
  - A resume that restarts at chunk 0 is refused once with `expectedChunk`.
    It then jumps ahead and completes the same file.

The server-side byte string and the `md5_file` digest are abstract: bytes
are `seq<byte>`, and the digest is a function parameter. Three behaviours
of the controller worth noting:

- Completion compares the advanced index with the request's `totalChunks`,
  not the stored one.
- A failed `fopen` can still leave an empty destination file behind
  (`FailedOpenLeavesEmptyFile`).
- An unknown upload whose first chunk is not 0 stores nothing.

The name the normaliser produces can contain `__` even though the stem
never does. A stem cut to 180 characters can end in `_`, which is then
followed by the `_` before the time. `StemCanEndWithUnderscore` shows an
input that does this.

## Model

| member | source | states |
|---|---|---|
| ChunkSplitter.TotalChunks | resources/js/components/hooks/use-file-selection.ts:51 | ceil(size / 2 MiB): n chunks cover the size, n - 1 do not, and n is 0 exactly for an empty file |
| ChunkSplitter.Slice | resources/js/components/hooks/use-file-selection.ts:67-69 | every chunk is non-empty and at most 2 MiB; only the last may be shorter |
| ChunkSplitter.Chunks | resources/js/components/hooks/use-file-selection.ts:60-69 | the first k chunks of the file, one per index |
| ChunkSplitter.ChunksDisjoint | resources/js/components/hooks/use-file-selection.ts:67-69 | for i < j, both chunks are non-empty and chunk i ends at or before chunk j starts |
| ChunkSplitter.SentStep | resources/js/components/hooks/use-file-selection.ts:67-69 | the bytes of chunks 0..i-1 followed by chunk i are the bytes of chunks 0..i |
| ChunkSplitter.SentAll | resources/js/components/hooks/use-file-selection.ts:51 | all chunks together reach the end of the file |
| ChunkSplitter.ChunksJoin | resources/js/components/hooks/use-file-selection.ts:60-69 | joining the first k chunks gives the file's first k * 2 MiB bytes |
| ChunkSplitter.SplitJoin | resources/js/components/hooks/use-file-selection.ts:60-69 | splitting a file into all its chunks and joining them gives the file back |
| ChunkSplitter.FiveMiBExample | resources/js/components/hooks/use-file-selection.ts:10 | a 5 MiB file is three chunks of 2, 2 and 1 MiB |
| FilenameNormalizer.LastIndexOf | app/Http/Controllers/UploadController.php:117-118 | the position found holds the character and none follows it; None means the character is absent |
| FilenameNormalizer.TrimTrailingSlashes | app/Http/Controllers/UploadController.php:117-118 | a prefix of the path not ending in '/', all of whose removed characters are '/' |
| FilenameNormalizer.Basename | app/Http/Controllers/UploadController.php:117-118 | the basename holds no '/'; BasenameIsLastSegment fixes its content |
| FilenameNormalizer.BasenameIsLastSegment | app/Http/Controllers/UploadController.php:117-118 | the basename is the suffix of the path, trailing '/' removed, that follows its last '/': preceded by '/' unless it is the whole |
| FilenameNormalizer.Extension | app/Http/Controllers/UploadController.php:117 | PATHINFO_EXTENSION holds neither '/' nor '.' |
| FilenameNormalizer.FileName | app/Http/Controllers/UploadController.php:118 | PATHINFO_FILENAME holds no '/'; PathInfoSplit fixes its content |
| FilenameNormalizer.PathInfoSplit | app/Http/Controllers/UploadController.php:117-118 | a basename with a '.' is PATHINFO_FILENAME, '.', PATHINFO_EXTENSION; one without is its own PATHINFO_FILENAME, with an empty extension |
| FilenameNormalizer.BasenameOfPlainName | app/Http/Controllers/UploadController.php:117-118 | a name without '/' is its own basename |
| FilenameNormalizer.PlainFileName | app/Http/Controllers/UploadController.php:118 | a name without '/' and '.' is its own PATHINFO_FILENAME |
| FilenameNormalizer.PathInfoOfJoin | app/Http/Controllers/UploadController.php:117-118 | pathinfo splits head.ext back into head and ext when neither holds '.' or '/' |
| FilenameNormalizer.ReplaceDisallowed | app/Http/Controllers/UploadController.php:121 | same length, only [A-Za-z0-9_-]; allowed characters are kept in place and every other one becomes '_' |
| FilenameNormalizer.CollapseUnderscores | app/Http/Controllers/UploadController.php:124 | no "__" remains; never longer; empty only for empty input; allowed input stays allowed |
| FilenameNormalizer.CollapseKeepsLetters | app/Http/Controllers/UploadController.php:124 | the characters other than '_' are kept in order, and exactly those that followed a run of '_' follow one '_' |
| FilenameNormalizer.CollapseKeepsEnds | app/Http/Controllers/UploadController.php:124 | the first and the last character are kept |
| FilenameNormalizer.CollapseKeepsClean | app/Http/Controllers/UploadController.php:124 | a string with no "__" is left unchanged |
| FilenameNormalizer.CollapseAfterClean | app/Http/Controllers/UploadController.php:124 | a clean prefix not ending in '_' passes through the collapse untouched |
| FilenameNormalizer.TrimLeadingUnderscores | app/Http/Controllers/UploadController.php:127 | a suffix of the input not starting with '_', all of whose removed characters are '_' |
| FilenameNormalizer.TrimTrailingUnderscores | app/Http/Controllers/UploadController.php:127 | a prefix of the input not ending with '_', all of whose removed characters are '_' |
| FilenameNormalizer.TrimUnderscores | app/Http/Controllers/UploadController.php:127 | the result neither starts nor ends with '_' |
| FilenameNormalizer.LeadingTrimIsSuffix | app/Http/Controllers/UploadController.php:127 | trimming the front leaves a suffix of the input |
| FilenameNormalizer.TrimUnderscoresIsSlice | app/Http/Controllers/UploadController.php:127 | trim(s, '_') is the contiguous slice of s left after its leading '_' |
| FilenameNormalizer.TrimDropsUnderscores | app/Http/Controllers/UploadController.php:127 | every character trim removes, before or after that slice, is '_' |
| FilenameNormalizer.TrimKeepsSafety | app/Http/Controllers/UploadController.php:127 | trimming keeps an allowed, "__"-free string so, and it no longer starts with '_' |
| FilenameNormalizer.TrimTrailingBlanks | app/Http/Controllers/UploadController.php:130 | a prefix of the input, empty or ending in a non-blank; every removed character is blank; input without blanks is returned whole |
| FilenameNormalizer.Limit | app/Http/Controllers/UploadController.php:130 | Str::limit to n: a prefix of at most n characters; input of at most n is kept whole; a longer one is cut to n and its trailing blanks dropped |
| FilenameNormalizer.LimitKeepsSafety | app/Http/Controllers/UploadController.php:130 | Str::limit to 180 keeps a safe string safe and makes it at most 180 long |
| FilenameNormalizer.Stem | app/Http/Controllers/UploadController.php:115-130 | the stem holds only [A-Za-z0-9_-], no "__", does not start with '_', has at most 180 characters, and so holds neither '/' nor '.' |
| FilenameNormalizer.PipelineKeepsClean | app/Http/Controllers/UploadController.php:121-130 | the pipeline is the identity on a stem that is already clean |
| FilenameNormalizer.StemKeepsCleanName | app/Http/Controllers/UploadController.php:117-130 | a file whose name part is already clean keeps it as its stem |
| FilenameNormalizer.Decimal | app/Http/Controllers/UploadController.php:133 | time() as decimal digits, with no leading zero |
| FilenameNormalizer.DecimalRoundTrip | app/Http/Controllers/UploadController.php:133 | reading the digits back gives the time |
| FilenameNormalizer.Lower | app/Http/Controllers/UploadController.php:136 | same length; each of 'A'..'Z' becomes the matching 'a'..'z'; every other byte is kept |
| FilenameNormalizer.NormalizedNameParts | app/Http/Controllers/UploadController.php:115-137 | the stored name has no '/'; pathinfo of it gives the lower-cased original extension (even an empty one) and stem_time_token |
| FilenameNormalizer.DistinctTokensGiveDistinctNames | app/Http/Controllers/UploadController.php:133-136 | different tokens in the same second give different names |
| FilenameNormalizer.ReportExample | app/Http/Controllers/UploadController.php:115-137 | "My Report (final).PDF" becomes My_Report_final_<time>_<token>.pdf |
| FilenameNormalizer.StemCanEndWithUnderscore | app/Http/Controllers/UploadController.php:127-130 | the cut to 180 comes after the trim: 179 letters then " b" give a stem ending in '_' |
| ChunkReceiver.PassesValidation | app/Http/Controllers/UploadController.php:14-21 | a missing chunk, index, total, name or identifier fails, as does a chunk over 10240 KiB, an index below 0, a total below 1 or a name over 255 |
| ChunkReceiver.ChecksumRejects | app/Http/Controllers/UploadController.php:30-32 | an absent, empty or "0" checksum never rejects; any other rejects exactly when the chunk's md5 differs |
| ChunkReceiver.Receive | app/Http/Controllers/UploadController.php:12-113 | validation and a mismatching checksum fail first and change nothing; any index other than the expected one is refused with expected and received, changing nothing; a handle that fails changes no record or byte (at most it creates an empty file); an accepted chunk is appended to the upload's file; a non-last chunk advances and stores the record; the last, judged by the request's total, adds one record with the final size and deletes the metadata |
| ChunkReceiver.AbortUpload | app/Http/Controllers/UploadController.php:140-161 | a valid request always answers success; with a record it deletes the file and the metadata, otherwise it changes nothing |
| ChunkReceiver.FailedOpenLeavesEmptyFile | app/Http/Controllers/UploadController.php:66-71 | when a handle fails, a new empty file is left exactly when the destination opened and did not exist; otherwise no file changes |
| ChunkReceiver.TouchKeepsConsistent | app/Http/Controllers/UploadController.php:67-72 | a request that fails at the handles keeps every live file equal to its accepted chunks |
| ChunkReceiver.AppendKeepsConsistent | app/Http/Controllers/UploadController.php:74-105 | appending the next chunk, then storing the advanced record or dropping it, keeps the invariant |
| ChunkReceiver.UploadedKeepsConsistent | app/Http/Controllers/UploadController.php:79-112 | a non-last accepted chunk keeps the invariant |
| ChunkReceiver.CompletedKeepsConsistent | app/Http/Controllers/UploadController.php:83-101 | the finished file is every accepted chunk in order, and its record holds its length |
| ChunkReceiver.ReceiveKeepsConsistent | app/Http/Controllers/UploadController.php:12-113 | every request keeps each live upload's file equal to the in-order concatenation of its accepted chunks |
| ChunkReceiver.AbortKeepsConsistent | app/Http/Controllers/UploadController.php:149-158 | abort keeps the invariant; the aborted upload stops being live |
| ChunkReceiver.AbortIsIdempotent | app/Http/Controllers/UploadController.php:140-161 | a second abort changes nothing and answers the same |
| ChunkReceiver.ResubmittedChunkRejected | app/Http/Controllers/UploadController.php:50-57 | a chunk just accepted (not the last) is refused when sent again, so it is never appended twice |
| ChunkReceiver.NextChunkAccepted | app/Http/Controllers/UploadController.php:79-112 | the expected, non-last chunk with handles open is answered as uploaded with index + 1 |
| ChunkReceiver.NextChunkRecorded | app/Http/Controllers/UploadController.php:37-105 | the record kept for it is the stored or fresh session, now expecting index + 1 |
| ChunkReceiver.NoRecordExpectsZero | app/Http/Controllers/UploadController.php:37-45 | without a record the expected chunk is 0 and the name is freshly normalised |
| ChunkReceiver.FirstChunkStarts | app/Http/Controllers/UploadController.php:37-48 | chunk 0 of an unknown upload opens a record with the newly drawn name, expecting chunk 1 |
| ChunkReceiver.AbortThenRestart | app/Http/Controllers/UploadController.php:140-161 | after abort, chunk 0 for the same identifier is accepted and opens a record under a freshly drawn name, expecting chunk 1 |
| ChunkReceiver.Receiver.Chunk | app/Http/Controllers/UploadController.php:12-113 | the in-place handler's response and new storage are those of Receive; it keeps the invariant |
| ChunkReceiver.Receiver.Abort | app/Http/Controllers/UploadController.php:140-161 | the in-place abort's response and new storage are those of AbortUpload; it keeps the invariant |
| UploadClient.Unlisted | resources/js/components/hooks/use-file-selection.ts:37 | keeps exactly the entries whose name is not already taken |
| UploadClient.UnlistedConcat | resources/js/components/hooks/use-file-selection.ts:37 | the filter keeps order: it distributes over concatenation |
| UploadClient.DuplicatesInBatchKept | resources/js/components/hooks/use-file-selection.ts:37 | two new files of one batch with the same name are both kept |
| UploadClient.Entries | resources/js/components/hooks/use-file-selection.ts:30-34 | one idle entry per file, with its drawn id |
| UploadClient.Admit | resources/js/components/hooks/use-file-selection.ts:36-39 | the previous list is kept as a prefix; the appended entries are the batch's entries whose names the list lacks, in batch order (Unlisted) |
| UploadClient.WithStatus | resources/js/components/hooks/use-file-selection.ts:44-46 | only entries with the id change, and only their status |
| UploadClient.LastStatusWins | resources/js/components/hooks/use-file-selection.ts:44-46 | setting two statuses in a row is setting the second |
| UploadClient.UnknownIdUnchanged | resources/js/components/hooks/use-file-selection.ts:44-46 | an id not in the list changes nothing |
| UploadClient.Without | resources/js/components/hooks/use-file-selection.ts:188 | keeps exactly the entries with another id |
| UploadClient.WithoutConcat | resources/js/components/hooks/use-file-selection.ts:188 | the filter keeps order: it distributes over concatenation |
| UploadClient.WithoutForgetsStatus | resources/js/components/hooks/use-file-selection.ts:179-188 | a status set just before removal leaves no trace |
| UploadClient.Find | resources/js/components/hooks/use-file-selection.ts:159 | None exactly when no entry has the id; otherwise the first entry with that id |
| UploadClient.Decide | resources/js/components/hooks/use-file-selection.ts:104-143 | the loop goes on only after a success, to index + 1, or after an order error with a larger expected chunk, to that chunk; a completed reply finishes with its path, a cancel ends paused or idle by the pause flag, a smaller expected chunk is rejected, any other error fails |
| UploadClient.Plan | resources/js/components/hooks/use-file-selection.ts:60-145 | every post is of an existing chunk, at or after the start; posts strictly increase; the first post is made exactly when the loop starts and the file is not paused (later posts: NoPostAfterPause) |
| UploadClient.PlanSteps | resources/js/components/hooks/use-file-selection.ts:81-131 | consecutive posts are one apart after a success, or jump to the expected chunk after an order error |
| UploadClient.NoPostAfterPause | resources/js/components/hooks/use-file-selection.ts:59-64 | the pause set is read before every send: a pause arriving during post j means there is no post j + 1 |
| UploadClient.PlanEndsWithLastDecision | resources/js/components/hooks/use-file-selection.ts:59-143 | a run that posted ends as the exchange of its last post decides: a stop (finished, paused or idle on cancel, rejected, failed) is the run's end; going on past the last chunk runs out; going on to an existing chunk ends paused, and only because a pause arrived during that post |
| UploadClient.PlanEndsWithLastReply | resources/js/components/hooks/use-file-selection.ts:104-114 | a finished run returns the path from the reply to its last post |
| UploadClient.EmptyFileSendsNothing | resources/js/components/hooks/use-file-selection.ts:51-60 | a zero-byte file posts nothing and the loop just ends |
| UploadClient.PostOf | resources/js/components/hooks/use-file-selection.ts:67-76 | the form for chunk i carries index i and a chunk of 1 to 2 MiB bytes |
| UploadClient.PostsOf | resources/js/components/hooks/use-file-selection.ts:67-76 | one form per posted index |
| UploadClient.StatsLagOneChunk | resources/js/components/hooks/use-file-selection.ts:96-100 | bytesUploaded after a success on chunk i counts the bytes before chunk i, one chunk behind |
| UploadClient.Remove | resources/js/components/hooks/use-file-selection.ts:178-199 | the list becomes Without(list, id), in order; the id leaves progress, stats, controllers and the pause set; everything else is kept; one cleanup is requested |
| UploadClient.RemoveForgetsPause | resources/js/components/hooks/use-file-selection.ts:179-188 | the idle status and zero progress set on a paused file are dropped with it |
| UploadClient.FileSelection.constructor | resources/js/components/hooks/use-file-selection.ts:17-22 | the hook starts with no files, no progress, no stats, no controllers and no pauses |
| UploadClient.FileSelection.AddFiles | resources/js/components/hooks/use-file-selection.ts:29-42 | the list becomes Admit of the old list and the new entries; nothing else changes |
| UploadClient.FileSelection.UpdateFileStatus | resources/js/components/hooks/use-file-selection.ts:44-46 | only the list changes, as WithStatus |
| UploadClient.FileSelection.PauseUpload | resources/js/components/hooks/use-file-selection.ts:148-155 | the id joins the pause set and its status becomes paused |
| UploadClient.FileSelection.AbortUpload | resources/js/components/hooks/use-file-selection.ts:166-172 | the id's controller is dropped and nothing else changes |
| UploadClient.FileSelection.ResumeUpload | resources/js/components/hooks/use-file-selection.ts:157-164 | the id leaves the pause set; a listed file is marked uploading and sent again from chunk 0, with the posts and ending of that run |
| UploadClient.FileSelection.RemoveFile | resources/js/components/hooks/use-file-selection.ts:178-200 | the new state is Remove of the old one |
| UploadClient.FileSelection.RemoveAllFiles | resources/js/components/hooks/use-file-selection.ts:202-218 | every id holding a controller or paused is cleaned up exactly once, then the whole state is emptied |
| UploadClient.FileSelection.SendChunk | resources/js/components/hooks/use-file-selection.ts:67-144 | one post and its reply: the form for the chunk, the decision, and the resulting state for each kind of reply |
| UploadClient.FileSelection.Iteration | resources/js/components/hooks/use-file-selection.ts:60-144 | one loop turn either keeps the loop invariant at a larger index or ends with the run's ending, posts and state |
| UploadClient.FileSelection.Begin | resources/js/components/hooks/use-file-selection.ts:53-58 | registering the controller and marking the file uploading establishes the loop invariant |
| UploadClient.FileSelection.LoopExit | resources/js/components/hooks/use-file-selection.ts:60 | when the loop condition fails the run ran out and the state is its effect |
| UploadClient.FileSelection.SendFile | resources/js/components/hooks/use-file-selection.ts:48-146 | the posts, the ending and the new state are those of Plan for the replies |
| FileCategory.GetFileCategory | resources/js/lib/utils/file.ts:15-24 | image/ first, then video/, then audio/, then a type containing pdf, msword or officedocument anywhere is a document; each in both directions |
| FileCategory.ContainsMeansOccurs | resources/js/lib/utils/file.ts:21 | the includes search finds a word exactly when the word occurs at some position |
| FileCategory.PrefixBeatsDocument | resources/js/lib/utils/file.ts:18-21 | any image/ type is an image, even one that also mentions pdf or officedocument |
| FileCategory.OfficeDocumentType | resources/js/lib/utils/file.ts:21 | an application/…officedocument… type is a document |
| FileCategory.EmptyTypeIsOther | resources/js/lib/utils/file.ts:23 | an empty type is Other |
| Protocol.RequestOf | resources/js/components/hooks/use-file-selection.ts:71-76 | the form's fields become the request's; no checksum is sent |
| Protocol.ClientReply | resources/js/components/hooks/use-file-selection.ts:104-143 | completed maps to Done with the path, other success to Accepted, only the order error carries expectedChunk, every other failure is an error |
| Protocol.PostsPassValidation | resources/js/components/hooks/use-file-selection.ts:71-76 | every form the client posts passes the controller's validation exactly when the file's name and id are acceptable, and its absent checksum never rejects |
| Protocol.Converse | resources/js/components/hooks/use-file-selection.ts:60-131 | one reply per post |
| Protocol.ConverseIsPlan | resources/js/components/hooks/use-file-selection.ts:60-131 | fed the server's replies, the client's loop (Plan) makes exactly the conversation's run |
| Protocol.AcceptStep | app/Http/Controllers/UploadController.php:67-112 | the expected non-last chunk extends the stored file by exactly that chunk |
| Protocol.LastStep | app/Http/Controllers/UploadController.php:83-101 | the expected last chunk completes the file and leaves one record of its size |
| Protocol.FromExpected | app/Http/Controllers/UploadController.php:47-112 | from the expected chunk on, each remaining chunk is posted once in order and the whole file is stored under the session's name |
| Protocol.ResumeFastForwards | resources/js/components/hooks/use-file-selection.ts:127-131 | a restart at chunk 0 while the server holds chunks 0..e-1 is refused once with e, jumps to e and completes the same file |
| Protocol.ResumedLoopFinishes | resources/js/components/hooks/use-file-selection.ts:157-163 | the resumed sendFile loop posts 0, then e..total-1, and returns the stored path |
| Protocol.FirstStep | app/Http/Controllers/UploadController.php:37-48 | the first chunk of a new upload opens a record holding that chunk, expecting chunk 1 |
| Protocol.SingleChunk | app/Http/Controllers/UploadController.php:83-101 | a one-chunk file completes on its first post |
| Protocol.NewUploadDelivers | app/Http/Controllers/UploadController.php:34-112 | a new upload posts every chunk once in order and leaves the file byte for byte under its new name, with one record and no metadata |
| Protocol.EmptyFileTouchesNothing | resources/js/components/hooks/use-file-selection.ts:60 | an empty file sends nothing and leaves the server as it was |

## Left out

- Progress percentage, upload speed and time remaining (`updateFileProgress` on success, the smoothed speed, `chunkStartTimeRef`, `formatSpeed`): floating point and wall-clock time. `UploadClient.FileSelection.SendChunk` leaves progress unchanged on success for this reason. Only `bytesUploaded` is kept of the stats.
- HTTP, axios, CSRF and `AbortController`. Each post's outcome is an `Exchange` parameter. Aborting an in-flight post is its `Cancelled` reply. Controllers are a set of ids.
- Concurrency. `Promise.all` across files and requests racing for the same id are not modelled. The server handles one request at a time, and a pause can only arrive during a post.
- `resumeUpload` does not await `sendFile`. The model runs that call to its end inside `UploadClient.FileSelection.ResumeUpload`.
- `resumeUpload` and `removeFile` read the `selectedFiles` of the render that created them. The model reads the current list.
- `removeAllFiles` visits a JavaScript `Set` in insertion order. `UploadClient.FileSelection.RemoveAllFiles` picks any order and proves each id is visited once.
- `nanoid()` ids, `time()` and `Str::random(8)` are parameters, so their uniqueness is assumed, not proved.
- `ChunkReceiver.ReceiveKeepsConsistent`: holds only when the name drawn for a new upload is not already a file (`FreshName`). The controller does not check this.
- `ChunkReceiver.Receiver.Chunk`: keeps the invariant only under the same `FreshName` assumption.
- Laravel's request trimming middleware and `mb_strlen` are not modelled. `required` is modelled as "holds a non-blank character", and `max:255` counts bytes.
- The metadata JSON files (`uploads/<id>.json`) are a separate map. A stored name that equals an id's metadata path is not modelled, and neither is an id containing `/`.
- `mkdir` of the uploads directory, `fclose`, and the database row's own id and timestamps are left out. `uploadedAt` is the `time()` parameter.
- `mime_content_type` is a parameter of the environment. `md5_file` is an uninterpreted function.
- `Protocol.NewUploadDelivers`, `Protocol.FromExpected` and `Protocol.ResumeFastForwards`: cover runs with no pause and every file handle opening. Other runs are covered client-side by `Plan`, `NoPostAfterPause` and `PlanEndsWithLastDecision`, and server-side by the invariant.
- Toasts, `clearFileInputValue`, `createImageUrl`, the React components and `getFileSize`: user interface only.
- `download`, `destroy`, `HomeController` and `UploadResource`: catalog and presentation, not part of the upload protocol.
