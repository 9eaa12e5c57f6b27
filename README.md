# Download engine and download process, modelled in Dafny

This project models the core of a small multi-download manager.

- **`Transfer`** (`transfer.dfy`) models `Process` from `class_process.py`. A process is one download attempt.
  - Its id comes from a counter shared by all processes.
  - `start` derives the file name from the URL and reads the size of the partial file already on disk. It then requests the bytes from that offset on (the Range header field, section 14.2 of RFC 9110).
  - It sorts the reply into 416 Range Not Satisfiable, 206 Partial Content, or anything else. It then appends to the file (206) or truncates and rewrites it (anything else), checking the pause and cancel flags before every chunk.
  - It settles on exactly one outcome, with cancel first, then pause, then finish. Cancel deletes the file, and pause keeps the partial file.
- **`Engine`** (`engine.dfy`) models `DownloadEngine` from `downloader.py`. It is a registry from process ids to processes.
  - `start_download` returns the id of a process for the same URL that is already downloading. Otherwise it asks every same-URL process to pause, and registers and submits a fresh process.
  - `pause_download` and `cancel_download` route by id. Unknown ids are ignored, and a cancel also removes the entry.

Everything outside the program becomes a value:
- The reply of the HTTP library is a `Reply`. It is either a request that raised, or a status, a content length, the chunks, and possibly an exception raised after the last delivered chunk.
- The file system is a `Disk` map from path to bytes.
- The callbacks are a returned trace of `Event`s. A progress event carries the pair (downloaded, total) whose quotient is the percentage.
- The save directory is a parameter.
- Pause and cancel requests made by other threads while a run is going are an input schedule:
  - `arrivals[i]` holds the requests that land before the flag check of chunk `i`.
  - `late` holds those that land after the loop and before the outcome is settled.

How the model is organised:
- The pure function `Run` states what one attempt does, and `Process.Start`, a loop over the chunks, is proved equal to it.
- The properties of an attempt are lemmas about `Run` and its parts: `Download` for the streaming path and `Settle` for the outcome.
- The engine is a class. Its registry is a `map<int, Process>`, kept with the key order that dictionary iteration follows. The pool's work queue is a FIFO of processes.
- `Valid()` is the engine's invariant: keys match the order, every key is its process's id, and every id handed out lies below the counter.
- The pool runs tasks on other threads and may do so at any moment. So `StartDownload` is proved for any values of the processes' flags, including a process that is downloading right now. `RunNext` is the pool running the oldest task to its end.

Behaviours of the code worth noting:
- `storage.py` defines no `load_settings`. So the save-directory lookup at `class_process.py:38` raises inside the `try`, and as written every `start` ends in a single `on_error` callback (`class_process.py:82-83`) with `downloading` cleared (`class_process.py:85`). No request is sent and no file is opened. Every branch of `Run` after the file name is therefore unreachable in the code as shipped. The model takes the save directory as a parameter, as if the lookup returned one.
- A missing content-length header makes the total the size already on disk (`class_process.py:51`).
- Progress can exceed 100%. A 206 reply without a content-length over a non-empty partial file makes the total the old size, while the count starts from that size (`class_process.py:51`, `class_process.py:56`), so every progress event reports more bytes than the total (`Transfer.ResumeWithoutLengthOverflows`).
- A status other than 206 and 416, including 404 or 500, is not an error. It takes the truncate-and-write path (`class_process.py:55-56`).
- No lock guards the registry. The engine's methods are modelled as running one at a time.

## Model

| member | source | states |
|---|---|---|
| Transfer.IdCounter.constructor | class_process.py:15 | The shared id counter starts at 1. |
| Transfer.Process.constructor | class_process.py:17-26 | A new process takes the counter's current value as its id and advances the counter by one. Its URL is the one given, and all three flags are false. |
| Transfer.LastSegment | class_process.py:37 | The result contains no slash, is a suffix of the URL, and is either the whole URL or preceded by a slash. |
| Transfer.FileName | class_process.py:37 | The file name is never empty and never holds a slash. It is the URL's last segment, or "Untitled" exactly when that segment is empty (the URL is empty or ends in a slash). |
| Transfer.SavePath | class_process.py:38-39 | The path is the save directory followed by the file name, with at most one separator between them, so its last segment is the file name. |
| Transfer.BreakIndex | class_process.py:60-62 | The loop stops at the first chunk whose flag check sees a request: no earlier check sees one, and the check at the returned index does. |
| Transfer.ProgressTrace | class_process.py:63-68 | There are no progress events unless the total is positive. Every event carries that total and a count above the starting count and no larger than the starting count plus the bytes written. |
| Transfer.ProgressIncreasing | class_process.py:63-68 | Within a run, the downloaded counts of the progress events strictly increase, so the percentages never decrease. |
| Transfer.EmptyChunkSkipped | class_process.py:63 | An empty chunk adds no byte to the file and no progress event. |
| Transfer.ProgressReported | class_process.py:63-68 | With a positive total and at least one byte delivered, at least one progress event fires. |
| Transfer.Settle | class_process.py:70-83 | Settling adds exactly one terminal event after the trace. Its only disk change is perhaps the removal of the destination. |
| Transfer.SettlePrecedence | class_process.py:71-80 | Without an exception: cancel is reported iff a cancel was seen or arrived late, and then the file is removed. Pause is reported iff a pause and no cancel. Otherwise the run finishes with the name, path and total size. |
| Transfer.SettleFile | class_process.py:71-77 | The destination survives settling iff the run is not cancelled. Only that file is removed. |
| Transfer.SettleFailure | class_process.py:82-83 | An exception yields one `Failed` event with its message and leaves the file as written. |
| Transfer.Download | class_process.py:51-80 | A streaming run emits the status event, then only progress events, then one terminal event. The disk differs from the old one at most at the destination. |
| Transfer.Run | class_process.py:29-85 | Every run ends with a terminal event. |
| Transfer.OneOutcome | class_process.py:70-85 | Exactly one outcome callback fires: the last event is terminal and no earlier one is. |
| Transfer.AlreadyComplete | class_process.py:46-49 | A 416 reply finishes at once with the size already on disk. No byte is written and no status or progress is emitted. |
| Transfer.RunDownloads | class_process.py:46-56 | Any other status whose length parses takes the streaming path, in append mode exactly when the status is 206. |
| Transfer.AppendOrTruncate | class_process.py:55-65 | Unless cancelled, the file is the prior contents (206) or nothing (any other status), followed by exactly the chunks before the first check that saw a request. Progress counts from the old size on 206 and from 0 otherwise. |
| Transfer.ProgressBounded | class_process.py:51-68 | When the stream delivers no more than its declared length, every progress event has 0 < downloaded <= total, so the percentage lies in (0, 100]. |
| Transfer.OnlyDestinationChanges | class_process.py:59-73 | A run leaves every file other than its destination untouched. |
| Transfer.DownloadCompletes | class_process.py:58-80 | With no request and no exception, the file holds the prior contents followed by every chunk. The run finishes reporting the declared length plus the size found on disk, with both flags clear. |
| Transfer.FailureKeepsFile | class_process.py:58-83 | An exception while streaming leaves the file holding what was written, ends the run with `Failed` carrying the message, and leaves both flags clear. |
| Transfer.ResumeCompletes | class_process.py:51-80 | Resuming with 206 over a partial file that delivers the declared rest: the file is the old part followed by the new bytes, and the size reported equals the file's length. |
| Transfer.FreshDownload | class_process.py:51-80 | With no file on disk, the status event is followed by at least one progress event. The file is exactly the delivered bytes, and the reported size is their count. |
| Transfer.MissingLengthReportsExisting | class_process.py:51 | A reply without a content-length header counts as declaring 0 bytes: a run that streams to its end finishes reporting the size the file had before, however many bytes arrived. |
| Transfer.ResumeWithoutLengthOverflows | class_process.py:51-68 | A 206 reply without a content-length over a non-empty partial file fires at least one progress event once a byte arrives, and every progress event reports more bytes than the total. |
| Transfer.RestartOverstatesSize | class_process.py:51-56 | A 200 reply over a partial file truncates and rewrites it. The reported size still adds the old size, so it exceeds the file's length by exactly that much. |
| Transfer.Process.Start | class_process.py:29-85 | The loop-based run produces exactly the disk, events and flags of `Run`, and `downloading` is false on every exit. Flags set before the call do not affect the result. |
| Transfer.Process.Receive | class_process.py:51-80 | The streaming part of `start` produces exactly `Download`. |
| Transfer.Process.WriteChunks | class_process.py:58-68 | The chunk loop consumes exactly the chunks before the first check that sees a request. The file gains their bytes, the progress trace is theirs, and the flags are those that check saw. |
| Transfer.Process.WriteChunk | class_process.py:63-68 | One loop pass appends the chunk and counts its bytes. It adds to the file and the trace exactly `Concat` and `ProgressTrace` of that one chunk: a progress event only for a non-empty chunk and a positive total. |
| Transfer.Process.Finish | class_process.py:70-83 | The post-loop branches produce exactly `Settle` for the flags the loop left and the late requests. |
| Transfer.Process.Pause | class_process.py:87-88 | Pause sets the stop flag and touches no other field. |
| Transfer.Process.Cancel | class_process.py:90-91 | Cancel sets the cancel flag and touches no other field. |
| Engine.Without | downloader.py:63-64 | Deleting a key keeps exactly the other keys, and keeps them distinct. |
| Engine.WithoutSlice | downloader.py:63-64 | Deleting a key that sits at position `i` of a duplicate-free key order leaves exactly the keys before and after it, in their order. |
| Engine.DownloadEngine.constructor | downloader.py:17-19 | The engine starts with an empty registry and an empty work queue, and satisfies its invariant. |
| Engine.DownloadEngine.FirstActive | downloader.py:32-36 | Gives the position, in insertion order, of the first same-URL process that is downloading, or the registry size when there is none. |
| Engine.DownloadEngine.StartDownload | downloader.py:22-51 | If a same-URL process is downloading, returns the first such id, with registry, queue and counter unchanged. Otherwise it registers and submits a fresh process under a never-issued id, adding exactly that key last. In both cases the stop flag is set on exactly the same-URL processes scanned before, and no other flag changes. |
| Engine.DownloadEngine.Scan | downloader.py:32-39 | The scan stops at the first same-URL process that is downloading and asks the same-URL processes before it to pause. |
| Engine.DownloadEngine.Register | downloader.py:42-51 | The new process takes the counter's value, which no earlier process holds. It is stored under that id, appended to the key order and submitted once. |
| Engine.DownloadEngine.PauseDownload | downloader.py:53-56 | A known id gets its stop flag set, with nothing else changed. An unknown id changes nothing. |
| Engine.DownloadEngine.CancelDownload | downloader.py:58-64 | A known id gets its cancel flag set and removes exactly its key, with the other entries and their order unchanged. An unknown id changes nothing. |
| Engine.DownloadEngine.RunNext | downloader.py:49 | The pool runs the oldest submitted process's `start`, with the outcome of `Run`, whether or not it is still registered. |
| Engine.CancelThenStart | downloader.py:42-46 | An id once handed out, even if cancelled, is never returned by a later `start_download`. |
| Engine.PausedWhileQueuedStillRuns | downloader.py:22-51 | Two `start_download` calls for one URL, with the first process still queued, return two different ids. The first process has been asked to pause, yet when the pool runs it, it downloads exactly as a run with no request. |
| Engine.CancelBeforeRun | class_process.py:31-33 | A cancel issued before the pool starts a fresh process is discarded when `start` clears the flags. The run downloads exactly as if no request were made. |

## Left out

- The thread pool (5 workers) and real threads. Tasks run one at a time, each to its end, through `RunNext`. Pause and cancel requests from other threads during a run enter only at the chunk-boundary flag checks and before settlement. On the streaming path a request made during the HTTP request itself is the one seen at chunk 0's check (`arrivals[0]`), or `late` when no chunk comes. On the 416, raised-request and unparsable-length paths, and after an exception, such a request would leave the process's flag set, while `Run` reports both flags false.
- Memory-model visibility of the plain boolean flags across threads.
- Failures of the disk (opening, writing or removing a file) and of the callbacks themselves. The only exceptions modelled come from the HTTP request, the stream, and parsing the content length.
- The HTTP request's headers and 15-second timeout, and the 8192-byte chunk size. Chunks may have any length.
- The floating-point percentage. Progress events carry the integer pair (downloaded, total) instead.
- How the save directory is found. It is a parameter, and path joining follows POSIX `os.path.join`. `storage.py` defines no `load_settings`, so as written `class_process.py:38` raises, and every `start` ends in one `on_error` before any request. The model assumes a lookup that returns a directory.
- The settings and history storage, the Tk user interface, and the print-only main module. These are not part of this model.
- The race between `start_download` and the pool is modelled only as a sequence of whole steps. A second `start_download` for a URL whose first process still waits in the pool's queue asks that process to pause, because it is not downloading yet. It then registers a second process. When the pool starts the first process, `start` clears the pause, so the URL is downloaded twice into the same file (`Engine.PausedWhileQueuedStillRuns`). Two runs writing that file at the same time are not modelled.
