# Chunked upload and reassembly

The repository uploads files in chunks of 1 MiB and puts them back together
in index order. The client comes in two versions and the chunk store in four.
This project models each of them and proves what they promise.

- **app.js.** A browser `FileUploader` that writes each chunk into an
  in-memory `storage` object (`LocalClient`, `MemoryStore`). When it stores
  the last index, it calls `combineChunks`, which publishes the file and drops
  its chunks.
- **wwwroot/app.js.** A `FileUploader` that posts each chunk to the ASP.NET
  server and retries a chunk until a reply is accepted (`RemoteClient`). It
  also has an IndexedDB `FileStorage` keyed by `[fileName, chunkIndex]`
  (`IndexedStore`).
- **Controllers/FileUploadController.cs.** `UploadChunk` writes chunk
  `i` to `uploads/{session}/{fileName}_chunks/{i}`, where the session folder
  is named by the clock. Once the folder holds `totalChunks` files, it
  appends files 0..n-1 to `uploads/{session}/{fileName}`, deleting each one,
  and removes the folder. `GetFiles` lists the combined files
  (`SessionStore`, `SessionRuns`).
- **server.js.** multer files a part named `originalname` under
  `uploads/{originalname.split('_chunk_')[0]}/{originalname}`. The
  `/upload-chunk` handler counts the files of `uploads/{filename}` that start
  with `{filename}_chunk_`. When the count reaches `totalChunks`, it
  concatenates the chunk files into `uploads/{filename}`, deleting each one,
  and removes the folder. `/files` lists the entries of `uploads`
  (`ExpressServer`, `ExpressRuns`).

Shared pieces:
- `Chunking`: the chunk count, the byte range of chunk i, and the proof that
  the ranges tile the file and reassemble it.
- `Producer`: the per-file upload state that both clients keep.
- `Protocol`: the requests and JSON replies.
- `NumberedFiles`: the numbered chunk files and the copy loop that both disk
  servers share.
- `PostedChunks`: the folder that a permutation of chunk posts builds.
- `Common`: bytes, strings, `split` and decimal rendering.

Stateful code is modelled imperatively:
- classes whose fields are the source's Maps, object stores and folders;
- methods with the source's loops;
- each method proved against a function of the old state, with lemmas about
  those functions.

Inputs the code takes from its environment are parameters:
- the moments the upload button is pressed again (`pauseClicks`);
- the replies the server sends to each posting attempt;
- the clock-derived session folder name;
- the `lastModified` timestamp;
- the order in which a directory is enumerated;
- the size `stat` reports for a folder.

In server.js, a chunk folder and the combined file share the path
`uploads/{filename}`. The model keeps them in one namespace (`Entry` is
either `Folder` or `Blob`). The combine replaces the folder with the file,
and a later chunk post for that name fails in the middleware
(`ExpressRuns.ReuploadRefused`).

## Model

| member | source | states |
|---|---|---|
| Chunking.TotalChunks | app.js:207 | `Math.ceil(size / chunkSize)`: n chunks cover the file, n-1 do not, and the count is zero exactly for an empty file |
| Chunking.Slice | app.js:292 | `Blob.slice` clamps both ends: inside the blob it is the sub-range, an end past the blob gives the rest from start, a start past the blob or a reversed range gives the empty blob, and it is never longer than the blob |
| Chunking.ChunkRange | app.js:290-291 | each chunk below the count is a non-empty range inside the file, at most one chunk size long, and exactly that long unless it is the last |
| Chunking.ChunkNotEmpty | wwwroot/app.js:410-412 | every chunk the uploader sends holds between 1 and chunkSize bytes |
| Chunking.RangesTile | app.js:290-291 | the ranges tile [0, size): the first starts at 0, each ends where the next starts, the last ends at size |
| Chunking.ByteInExactlyOneChunk | app.js:290-291 | no gap and no overlap: byte p lies in the range of chunk p / chunkSize and of no other |
| Chunking.ReassemblePrefix | app.js:290-292 | chunks 0..k-1 concatenated are the first min(k·chunkSize, size) bytes of the file |
| Chunking.Reassemble | app.js:290-292 | round trip: all chunks concatenated in index order are the file |
| Common.IntText | Controllers/FileUploadController.cs:51 | `int.ToString()`; with IntTextInjective, distinct indices give distinct chunk file names |
| Common.IntTextInjective | Controllers/FileUploadController.cs:51 | distinct integers have distinct renderings (a minus sign for negatives) |
| Common.DecimalInjective | server.js:39 | distinct indices render to distinct decimal texts |
| Common.Split | wwwroot/app.js:442 | `split('/')` always returns at least one piece |
| Common.SplitAtFirst | wwwroot/app.js:442 | the piece before the first separator comes first, then the split of the rest |
| Common.PrefixBefore | server.js:17 | `split('_chunk_')[0]` is a prefix of the name |
| Common.PrefixBeforeFirst | server.js:17 | when the first "_chunk_" starts at k, the folder is the first k characters |
| Common.PrefixBeforeShort | server.js:17 | any occurrence of the separator at p bounds the folder name by p |
| Common.PrefixBeforeFree | server.js:17 | the folder name never contains the separator |
| MemoryStore.Put | app.js:7-12 | the file's map is created on first use; index i of f then holds d; every other file and index keeps its payload; re-storing an index overwrites it |
| MemoryStore.PutCount | app.js:11 | the file's chunk count grows by one only for an index not stored before |
| MemoryStore.Storage.StoreChunk | app.js:7-12 | the chunk maps become `Put(old chunks, f, i, d)`; the published files are untouched |
| MemoryStore.Storage.HasAllChunks | app.js:15-23 | false for an unknown file; otherwise true exactly when every index 0..totalChunks-1 is present |
| MemoryStore.Storage.CombineChunks | app.js:26-43 | an unknown file gives null and changes nothing; otherwise parts 0..n-1 are concatenated in index order, a missing index contributing the text "undefined"; the blob is published under the name, listed once in first-publication order, and the file's chunk map is deleted |
| MemoryStore.AssembleChunksOfFile | app.js:30-36 | when the chunk map holds the file's chunks, the combined blob is the file |
| MemoryStore.AssembleMissing | app.js:32-36 | a missing index does not stop the combine: "undefined" sits where that chunk belongs |
| MemoryStore.Storage.GetFile | app.js:46-48 | the published blob of the name, or undefined |
| MemoryStore.Storage.ListFiles | app.js:51-53 | the names of the published files, each once; in-progress chunk maps are never listed |
| Producer.NewFileStateConsistent | app.js:203-210 | a new file state is pending, with nothing sent or acknowledged and ceil(size / chunkSize) chunks, zero exactly for an empty file |
| Producer.UptoMembers | app.js:309 | the indices acknowledged one at a time from 0 to c-1 are exactly the indices below c |
| Producer.AcknowledgeAdvance | app.js:272-276 | acknowledging index c and moving to c+1 keeps uploadedChunks = 0..currentChunk-1, and c was not yet acknowledged, so the skip never fires |
| Producer.AdvancedConsistent | app.js:272-277 | moving past an unsent index keeps the file state consistent |
| Producer.AllConsistentUpdate | wwwroot/app.js:385-407 | replacing one file's state by a consistent one keeps every file consistent |
| LocalClient.ChunkMapMembers | app.js:299 | after chunks 0..c-1 were stored, the map holds exactly those indices, each with its chunk |
| LocalClient.StepMirrorsMiddle | app.js:299 | storing a chunk that is not the last extends the file's chunk map by that chunk |
| LocalClient.LastChunkAssembles | app.js:302-303 | once the last chunk is stored, the chunk map assembles to the file |
| LocalClient.StepMirrorsLast | app.js:302-303 | storing the last chunk publishes the whole file and drops its chunk map |
| LocalClient.StepMirrors | app.js:299-303 | sending one chunk keeps the storage in step with the file's progress |
| LocalClient.StepFrame | app.js:299-303 | a step on one file touches no other file's chunks or artifact |
| LocalClient.InvRestore | app.js:254-258 | after one file's upload, the uploader/storage invariant holds again |
| LocalClient.InvAdd | app.js:195-215 | registering a new key keeps the invariant |
| LocalClient.CompletedIsPublished | app.js:279-281 | between uploads, a completed non-empty file is published byte for byte, and a file not completed has no artifact |
| LocalClient.FileUploader.AddFile | app.js:195-215 | a key already tracked (`fullPath || name`) is left alone; a new key gets a pending state with ceil(size / chunkSize) chunks, appended to the iteration order |
| LocalClient.FileUploader.StartUpload | app.js:242-263 | while running, it only sets the pause flag; otherwise every file ends completed or paused in insertion order, no progress is lost, completed files are untouched, and with no pause every file is completed |
| LocalClient.FileUploader.UploadIfWaiting | app.js:255-257 | a pending or paused file is uploaded, a completed one left alone, and the invariant is restored |
| LocalClient.FileUploader.UploadFile | app.js:265-287 | currentChunk never decreases; the file is completed exactly when currentChunk reaches totalChunks and is paused otherwise; the flag is set only by a pause click on this file; the storage changes only under this key |
| LocalClient.FileUploader.UploadChunk | app.js:289-318 | stores the byte range of chunk currentChunk, combines on the last index and acknowledges the index |
| IndexedStore.StoreThenLookup | wwwroot/app.js:34-62 | records are keyed by (fileName, chunkIndex): a lookup sees the latest data of its key, and other keys are unchanged |
| IndexedStore.StoredChunks | wwwroot/app.js:82-86 | the n data of records 0..n-1 of the file, in index order |
| IndexedStore.WithoutFile | wwwroot/app.js:113-132 | the records of every other file, unchanged, and none of this one |
| IndexedStore.StoredChunksReassemble | wwwroot/app.js:80-88 | when the records hold the file's chunks, their in-order concatenation is the file |
| IndexedStore.FileStorage.StoreChunk | wwwroot/app.js:34-49 | `put` replaces the record under (fileName, chunkIndex); nothing else changes |
| IndexedStore.FileStorage.GetChunk | wwwroot/app.js:51-62 | the data last stored under the key, or undefined |
| IndexedStore.FileStorage.CombineChunks | wwwroot/app.js:80-111 | null with nothing written when some index 0..n-1 is missing; otherwise the in-order concatenation is stored under the name with its size, the octet-stream type and the time, and every chunk record of that file is deleted |
| IndexedStore.FileStorage.CleanupChunks | wwwroot/app.js:113-132 | deletes the file's records one at a time and leaves every other record alone |
| IndexedStore.FileStorage.ListFiles | wwwroot/app.js:147-158 | exactly the records of the `files` store, each with its size and type |
| RemoteClient.FirstAccepted | wwwroot/app.js:426-435 | the position of the first reply with `ok` and `success`; every earlier one is refused |
| RemoteClient.SessionOfUploadPath | wwwroot/app.js:442 | for `/uploads/{session}/{fileName}`, segment 2 of the split is the session, whatever the file name holds |
| RemoteClient.FileUploader.AddFile | wwwroot/app.js:308-328 | a key already tracked is left alone; a new key gets a pending state with ceil(size / chunkSize) chunks |
| RemoteClient.FileUploader.StartUpload | wwwroot/app.js:355-383 | while running, it only sets the pause flag; otherwise it returns with every file completed or paused, or a stall on a chunk that was never accepted, leaving uploadInProgress set and that file uploading |
| RemoteClient.FileUploader.UploadIfWaiting | wwwroot/app.js:369-371 | a pending or paused file is uploaded and the other files are unchanged |
| RemoteClient.FileUploader.UploadFile | wwwroot/app.js:385-407 | currentChunk never decreases; completed exactly at totalChunks, paused otherwise unless stalled; the requests sent are those of chunks old currentChunk onwards, in order |
| RemoteClient.FileUploader.UploadChunk | wwwroot/app.js:409-452 | posts the range of chunk currentChunk; the index is acknowledged only after a reply with `ok` and `success`; a reply with a filePath sets the session to segment 2; with no accepted reply the chunk stalls and nothing changes |
| NumberedFiles.Numbered | server.js:52 | chunk file names start with the prefix |
| NumberedFiles.NumberedInjective | Controllers/FileUploadController.cs:68 | distinct indices name distinct chunk files |
| NumberedFiles.NamesHold | Controllers/FileUploadController.cs:66-68 | file i is among the names of 0..k-1 exactly when i < k |
| NumberedFiles.NamesCount | Controllers/FileUploadController.cs:66-68 | the names of 0..n-1 are n distinct names |
| NumberedFiles.FirstMissing | Controllers/FileUploadController.cs:66-69 | the first index whose chunk file is absent, or n |
| NumberedFiles.FirstMissingIs | Controllers/FileUploadController.cs:66-69 | the first index whose file is absent is FirstMissing |
| NumberedFiles.CopyFiles | Controllers/FileUploadController.cs:64-75 | files 0..n-1 are appended to the output and deleted in turn until one is missing; the output, the files left and the stopping index are as specified |
| PostedChunks.DirOfHolds | Controllers/FileUploadController.cs:51-55 | the folder holds the file of chunk i exactly when i was posted, with that chunk's bytes |
| PostedChunks.DirOfSize | Controllers/FileUploadController.cs:58 | distinct posted indices give a folder of that many files |
| PostedChunks.WrittenChunks | Controllers/FileUploadController.cs:66-74 | copying files 0..k-1 of such a folder gives the first k chunks |
| PostedChunks.CopyWhole | Controllers/FileUploadController.cs:63-76 | with every chunk posted once, the copy finds all of them, writes the file and leaves nothing |
| SessionStore.UploadsFolder.constructor | Controllers/FileUploadController.cs:30-34 | a content root with no `uploads` folder |
| SessionStore.UploadsFolder.UploadChunk | Controllers/FileUploadController.cs:20-97 | the new folder and the reply are `Step` of the old folder; the folder stays well formed |
| SessionStore.UploadsFolder.CombineChunks | Controllers/FileUploadController.cs:63-83 | the new folder and the reply are `Combine` of the old folder |
| SessionStore.CombineWellFormed | Controllers/FileUploadController.cs:63-76 | a combine keeps every folder and file inside a session folder |
| SessionStore.UploadsFolder.GetFiles | Controllers/FileUploadController.cs:100-135 | empty without an `uploads` folder; otherwise every combined file whose full path lacks "_chunks" is listed as {name, size, /uploads/{session}/{name}}, and nothing else |
| SessionRuns.PostStores | Controllers/FileUploadController.cs:44-58 | the m-th post of a file adds its chunk to the folder, which then counts m files |
| SessionRuns.PostsBeforeLast | Controllers/FileUploadController.cs:85-90 | before the last chunk, each post is answered with progress j+1 of n and the folder holds exactly the chunks posted |
| SessionRuns.StepProgress | Controllers/FileUploadController.cs:85-90 | a chunk that does not bring the folder to totalChunks files is answered with the count and total and no filePath |
| SessionRuns.StepCombine | Controllers/FileUploadController.cs:60 | a chunk that brings the folder to totalChunks files starts the combine |
| SessionRuns.CombineWhole | Controllers/FileUploadController.cs:63-82 | a folder holding exactly the chunks is combined into the file, the folder is deleted, and the reply carries `/uploads/{session}/{fileName}` |
| SessionRuns.LastPostPublishes | Controllers/FileUploadController.cs:60-82 | the last post onto a folder of the other n-1 chunks publishes the original bytes |
| SessionRuns.AnyOrderPublishes | Controllers/FileUploadController.cs:20-97 | chunks posted in any order in one session: progress replies 1..n-1, then the completion; the file is byte for byte the original and no chunk folder is left |
| SessionRuns.EmptyChunkRefused | Controllers/FileUploadController.cs:24-27 | a missing or empty chunk gives 400 "No file uploaded" and creates no folder or file |
| SessionRuns.RepostKeepsCount | Controllers/FileUploadController.cs:51-58 | re-posting an index overwrites its file, so the count stays the same |
| SessionRuns.FullFolderHoldsOnlyChunks | Controllers/FileUploadController.cs:58-76 | a folder of n files holding chunks 0..n-1 holds nothing else |
| SessionRuns.NeverNotEmpty | Controllers/FileUploadController.cs:76 | `Directory.Delete` never finds the folder non-empty after a post |
| SessionRuns.SessionsNeverMeet | Controllers/FileUploadController.cs:37 | two chunks posted in different seconds land in two session folders and are never combined |
| SessionRuns.CombineWithStray | Controllers/FileUploadController.cs:66-69 | over files "0" and "5", the combine of two copies chunk 0 and fails on the missing file "1" |
| SessionRuns.StrayIndexBreaksCombine | Controllers/FileUploadController.cs:58-96 | chunk 0 and then "chunk 5" of a two-chunk file trigger the combine, which fails with a 400 and leaves the partial file and the stray chunk |
| SessionRuns.ChunksNamedFileHidden | Controllers/FileUploadController.cs:115 | a combined file whose name contains "_chunks" is never listed |
| SessionRuns.ChunksNamedRootHidesAll | Controllers/FileUploadController.cs:115 | under a content root whose path contains "_chunks", nothing is listed |
| ExpressServer.Destination | server.js:16-22 | the folder is a prefix of the original name and never contains "_chunk_" |
| ExpressServer.Receive | server.js:15-26 | the destination is created if missing and becomes a folder holding its old files plus the part under its original name, replacing a file of that name; a destination that is a file fails; no other entry changes |
| ExpressRuns.ReceiveInto | server.js:15-26 | written for a destination holding `files` (none when it is missing): the result is the folder `files` plus the part |
| ExpressServer.Counted | server.js:42-44 | the counted names are files of the folder |
| ExpressServer.Listing | server.js:86-95 | every listed entry is an entry without "_chunk_" in its name, every such entry is listed, and when no name is hidden all are listed |
| ExpressServer.UploadsFolder.constructor | server.js:9-12 | the `uploads` folder as found at startup |
| ExpressServer.UploadsFolder.StoreChunk | server.js:15-26 | the folder becomes `Receive` of the old one, or stays unchanged when the write fails |
| ExpressServer.UploadsFolder.UploadChunk | server.js:35-83 | the new folder and the reply are `Handle` of the old folder |
| ExpressServer.UploadsFolder.CombineChunks | server.js:46-67 | the new folder and the reply are `Combine` of the old folder |
| ExpressServer.UploadsFolder.HandlePost | server.js:35-83 | the middleware, then the handler: `Step` of the old folder |
| ExpressRuns.ChunkFolder | server.js:17 | chunk i of `filename` lands in folder `filename` exactly when the name splits back |
| ExpressRuns.OverlappingName | server.js:17 | the chunks of "my_chunk" land in folder "my" |
| ExpressRuns.CountedAll | server.js:42-44 | the handler counts every chunk posted for the file |
| ExpressRuns.PostStores | server.js:15-44 | the m-th post stores its chunk in the folder, which then counts m files |
| ExpressRuns.HandleProgress | server.js:68-74 | a folder whose count is not totalChunks is left as it is, and the reply reports the count |
| ExpressRuns.HandleCombine | server.js:46 | a count equal to totalChunks starts the combine |
| ExpressRuns.CombineDone | server.js:48-67 | a combine that finds every chunk and nothing else replaces the folder by the concatenation |
| ExpressRuns.PostsBeforeLast | server.js:69-74 | before the last chunk, each post is answered with progress j+1 and the folder holds the chunks posted |
| ExpressRuns.LastPostPublishes | server.js:46-67 | the last post turns the folder into the original file and replies with `/uploads/{filename}` |
| ExpressRuns.AnyOrderPublishes | server.js:35-83 | chunks posted in any order: progress replies 1..n-1, then the completion; the file is stored byte for byte and no other entry changes |
| ExpressRuns.NoFolderNoUpload | server.js:35-83 | posts whose parts land elsewhere all fail with the 500 reply or the error page, and `filename` never appears |
| ExpressRuns.MisplacedChunksFail | server.js:16-44 | a name that does not split back is never combined |
| ExpressRuns.ReuploadRefused | server.js:16-48 | once `filename` is a combined file, a chunk post for it fails in the middleware and changes nothing |
| ExpressRuns.StrayIndexLosesChunk | server.js:42-82 | chunk 0 and then "chunk 5" of a two-chunk file trigger a combine that deletes chunk 0, fails on chunk 1 with the 500 reply, and leaves only the stray chunk |
| ExpressRuns.StepKeepsNoChunkNames | server.js:16-61 | for parts whose name before "_chunk_" is a non-empty single path component, no post creates an entry whose name contains "_chunk_" |
| ExpressRuns.RunKeepsNoChunkNames | server.js:16-61 | the same over any series of posts, for parts whose name before "_chunk_" is a non-empty single path component |
| ExpressRuns.ListingShowsAll | server.js:86-95 | so, for parts whose name before "_chunk_" is a non-empty single path component, `/files` lists every entry the server created, chunk folders of uploads in progress included |

## Left out

- The DOM and event wiring (drag and drop, file inputs, progress bars, `updateStorageDisplay`, `downloadFile`) is not modelled: it is user interface.
- `formatFileSize` and the progress percentage are not modelled: they use floating point.
- The Promise, `setTimeout` and IndexedDB transaction plumbing is not modelled. The object stores are maps, and each operation is one atomic step.
- The `fileName` secondary index that `hasAllChunks` and `cleanupChunks` in wwwroot/app.js read is never created by `initDB`. The model gives `cleanupChunks` its intended meaning: every record of that fileName.
- `FileStorage.hasAllChunks` and `FileStorage.getFile` in wwwroot/app.js are not modelled. The first is never called and would count records, not check indices. The second only serves the download link.
- IndexedStore.FileStorage.ListFiles: the order of `getAll()` (key order) is not modelled; the records are returned as a set.
- IndexedStore.FileStorage.CombineChunks: `cleanupChunks` is not awaited in the source. The model completes it before combineChunks returns.
- RemoteClient.FileUploader.UploadChunk: the retry that never ends is not modelled as an endless loop. `replies` lists what each attempt returns, and running out of replies with none accepted is reported as `stalled`: the source would retry for ever.
- The catch of wwwroot `startUpload` is not modelled: it is unreachable, because `uploadChunk` never rejects.
- LocalClient.FileUploader.UploadChunk: app.js has the same catch-and-retry. The in-memory store never throws, so the retry branch is not modelled.
- `this.chunkSize` is modelled as the constant CHUNK_SIZE (1 MiB): the constructor sets it and nothing changes it.
- `DateTime.Now` is not modelled: the session folder name is a parameter of `UploadChunk`.
- SessionStore.Disk: chunk folders and combined files are kept in two maps. In the controller both live in the session folder, so a combined file named `x_chunks` has the same path as the chunk folder of `x`. Within one session second, `CreateDirectory` or `FileMode.Create` would then throw and the request would get a 400. That collision is not modelled.
- In the controller, an exception's message is modelled for the missing chunk file as a path relative to the content root.
- File names holding path separators, and the filesystem's own limits, are not modelled on either server.
- The `Directory.GetDirectories` and `GetFiles` order is a parameter of GetFiles (`sessions`, `listing`).
- ExpressServer.Handle: `totalChunks` is taken as an integer. A non-numeric form field (`parseInt` gives NaN) is not modelled; with it, the count never matches.
- ExpressServer.Handle: `chunkIndex` is not used, because the handler only builds an unused path from it.
- ExpressServer.Receive: names are single path components. `path.join`'s treatment of "", "." and ".." is not modelled. A part whose name starts with "_chunk_" has the empty destination, which `path.join` turns into `uploads` itself; the model files it under an entry named "".
- ExpressRuns.StepKeepsNoChunkNames: holds only under that treatment of the empty destination. In server.js a part named, say, `_chunk_0` is written as `uploads/_chunk_0`, an entry whose name contains "_chunk_".
- ExpressRuns.RunKeepsNoChunkNames: the same restriction, over a series of posts.
- ExpressRuns.ListingShowsAll: the same restriction. The `uploads/_chunk_0` entry of such a part is hidden from `/files` in server.js.
- ExpressServer.Combine: the write stream opens its file only after the handler returns. On the success path, that is after the folder was removed. On a failure path, the open meets the folder still there and ends the process. That crash is not modelled; the folder stays as the handler left it.
- ExpressServer.Step: the HTML error page Express sends when the middleware fails is `Lost`.
- ExpressServer.Listing: the error path of `/files` ("Error getting files", a `stat` of a vanished entry) is not modelled. The size that `stat` reports for a folder is the parameter `dirSize`.
- Concurrent requests on either server are not modelled; each request runs to completion before the next begins.
- LocalClient.FileUploader.StartUpload: the loop visits the files in the order fixed when the call starts. In app.js the `for ... of` over the `files` Map also visits files that `addFile` adds while an `await` is pending, so a file dropped during a run is uploaded in the same run. The model does not visit such files.
- RemoteClient.FileUploader.StartUpload: the same as in app.js. A file added during a run is not visited by the model's loop.
- LocalClient.FileUploader.StartUpload: the upload button is not modelled. After every run, including a paused one, the source disables the button with the label "Upload Complete", and only `addFile` enables it again. So "Resume Upload" cannot be clicked unless a file is added first. The model lets `StartUpload` be called at any time.
- RemoteClient.FileUploader.StartUpload: the same button behaviour as in app.js is not modelled.
- All of Program.cs (ASP.NET configuration) and the Express static serving and `listen` are not modelled.
