# Photo manager core: image entity, thumbnail jobs, folder tree, loader lookup

This project models three pieces of a photo manager and its bundled image viewer library, and proves properties of each.

- **`libeog/eog-image.c`**. This is the viewer library's image entity.
  - `EogImage` (module `EogImage`, class `Image`) holds the entity's state: location, decoded pixbuf, thumbnail, size, pending decode task, load mode, "modified" flag, and the log of emitted signals. Each operation is a method on `Image` tied to a value-level specification function on `Entity`: load scheduling, the decode task with its read loop and loader callbacks, the five transforms, and `free_mem`.
  - `ThumbJobs` (class `ThumbQueue`) is the process-wide thumbnail job protocol.
    - Each locked section is one atomic method: enqueue, the worker's pop, resolution and completion steps, and the idle dispatch callback.
    - An invariant ties the two queues, the worker flag, the in-flight image and the dispatch id together.
    - A ghost log shows that every queued image is handed back exactly once, in queue order.
  - `EogTime` is `g_time_val_to_time_t`, both as written and as intended.
- **`src/Widgets/FolderTreeModel.cs`**. This is the folder tree of the photo browser.
  - `FolderTree` follows `UpdateFolderTree` loop by loop, as functions on a store of nodes: name, count, parent index, URI. `RowStepAsWritten` is the loop body as written; `RowStep` is the corrected body (see Findings).
  - The class `FolderTreeModel` runs the loops imperatively and is proved to reach the tree of the corrected body, not the tree of the code as written: its `InsertRow` has the branch the code lacks, for a row whose folder is the one the step-back reached. The two trees agree whenever no row lands on such a folder (`AsWrittenAgrees`).
  - `FolderTreeProofs` proves what the tree holds:
    - the count roll-up: every folder's count is its own photos plus its subfolders' counts, and `Count` is all photos;
    - that the tree shows exactly the rows' folders and their ancestors;
    - the one row order where the loop as written goes wrong.
- **`src/Imaging/ImageFile.cs`**. `ImageFile` covers:
  - the loader table after the static constructor;
  - the case-insensitive lookup with the `.thm` exclusion and the content-type fallback;
  - `HasLoader`, `IsRaw`, `IsJpeg` and the `Create` fallback;
  - the null case of `TransformAndDispose`.

The model replaces external inputs as follows:

- What the file system, the pixbuf loader, the thumbnail factory and the main loop return are parameters. These include the stream's chunks, the loader's callbacks and pixbuf, the thumbnail outcome, idle source ids, the content type and the toolkit's loader formats.
- Each query row is taken already parsed. The row gives whether the URI is absolute, its scheme, its `Segments`, the URI resolved against "/", and the count.

## Model

| member | source | states |
|---|---|---|
| ImageFile.NameTable | src/Imaging/ImageFile.cs:30-81 | After the static constructor, every key except `.xcf` maps to its static entry. Each MIME entry holds the value of the extension it was copied from. `.xcf` has an entry exactly when the toolkit has an xcf loader. |
| ImageFile.DetectXcf | src/Imaging/ImageFile.cs:76-81 | The format scan enables `.xcf` exactly when some loader format is named "xcf". |
| ImageFile.ToLower | src/Imaging/ImageFile.cs:91 | Lower-casing keeps the length and lowers each character independently. |
| ImageFile.ToLowerIdempotent | src/Imaging/ImageFile.cs:91 | A lowered extension lowers to itself, so it is its own table key. |
| ImageFile.GetLoaderType | src/Imaging/ImageFile.cs:89-110 | `.thm` in any case gives no class. A table hit on the lowered extension wins. Only on a miss is the content type looked up, and only when the file exists. A content type found then gives that type's table entry. With no content type, the result is the table's answer or nothing. |
| ImageFile.HasLoader | src/Imaging/ImageFile.cs:84-87 | True exactly when the lookup names a class. |
| ImageFile.IsRaw | src/Imaging/ImageFile.cs:125-145 | True exactly when the lowered extension is one of the eleven raw extensions. |
| ImageFile.IsJpeg | src/Imaging/ImageFile.cs:147-155 | True exactly when the lowered extension is `.jpg` or `.jpeg`. |
| ImageFile.Create | src/Imaging/ImageFile.cs:112-123 | Always yields an image file for the same URI: of the class the lookup names, or a plain `ImageFile` when it names none. |
| ImageFile.TransformAndDispose | src/Imaging/ImageFile.cs:189-199 | Null in gives null out. A pixbuf in gives the oriented pixbuf. |
| ImageFile.ThumbnailExtensionRefused | src/Imaging/ImageFile.cs:89-95 | `.thm` in any letter case never has a loader, whatever its content type. |
| ImageFile.LookupIsCaseInsensitive | src/Imaging/ImageFile.cs:91-97 | Lookup, `IsRaw` and `IsJpeg` give the same answer for an extension and its lower-cased form. |
| ImageFile.RawHasLoader | src/Imaging/ImageFile.cs:40-56 | Every raw extension has a static entry, so it has a loader without the fallback. |
| ImageFile.JpegUsesTagLib | src/Imaging/ImageFile.cs:37-38 | Both JPEG extensions, in any case, resolve to the TagLib-backed class. |
| ImageFile.MimeAliasMatchesExtension | src/Imaging/ImageFile.cs:58-72 | Every fallback MIME type has an entry equal to that of the extension it copies. |
| ImageFile.JpegMimeTypesResolveToJpg | src/Imaging/ImageFile.cs:97-107 | For an unknown extension, each of the three JPEG content types resolves to the `.jpg` class. |
| EogTime.WrapInt32 | libeog/eog-image.c:116 | The `int` product is truncated to 32 bits: the result is in range, congruent modulo 2^32, and the identity on values that fit. |
| EogTime.TimeValToTimeTAsWritten | libeog/eog-image.c:103-120 | The code as written: 0 before 1970, and 0x7fffffff after 2038 with a 4-byte `time_t`. Otherwise the 32-bit truncation of 86400 times the days since the epoch. |
| EogTime.TimeValToTimeT | libeog/eog-image.c:103-120 | The intended conversion. It is never negative, is a multiple of 86400 or the clamp, never exceeds the clamp with a 4-byte `time_t`, is 0 before 1970, and is the clamp after 2038. |
| EogTime.DaysSinceEpochNonNegative | libeog/eog-image.c:110-116 | Every date from 1970 on is on or after the epoch. |
| EogTime.DayCountAscends | libeog/eog-image.c:116 | The day count strictly increases in calendar order. |
| EogTime.TimeValToTimeTMonotonic | libeog/eog-image.c:103-120 | The intended conversion never goes backwards in time. |
| EogTime.TimeValToTimeTIsMidnight | libeog/eog-image.c:116 | When the seconds fit, the result is exactly 86400 seconds per day since 1970-01-01, counted as whole years, months and days. |
| EogTime.AsWrittenAgreesBeforeOverflow | libeog/eog-image.c:116 | Up to 2038-01-19 the code as written equals the intended conversion. |
| EogTime.AsWrittenOverflowsAfter2038 | libeog/eog-image.c:116 | On 2038-01-20 the code as written returns -2147408896 with either `time_t` width. The intended answer is 2147558400, or the clamp with a 4-byte `time_t`. |
| EogImage.Fresh | libeog/eog-image.c:388-402 | A new entity has no location, image or thumbnail, size -1 × -1, default mode, no task, is unmodified, and has emitted nothing. |
| EogImage.Image.Init | libeog/eog-image.c:388-402 | `eog_image_init` gives the fresh entity. |
| EogImage.Image.NewUri | libeog/eog-image.c:404-418 | A fresh entity with the location and the requested mode. |
| EogImage.LoadStep | libeog/eog-image.c:577-623 | Without a location, nothing changes and the result is FALSE. Otherwise a task is scheduled exactly when nothing is loaded and no task is pending, and only then may the mode change: DEFAULT then always turns into PROGRESSIVE. The answer is whether an image is held. Nothing else changes. |
| EogImage.Image.Load | libeog/eog-image.c:577-623 | The method reaches `LoadStep`'s new state and answer. |
| EogImage.LoadTwiceSchedulesOnce | libeog/eog-image.c:586-622 | A second load before the task runs changes nothing and gives the same answer. |
| EogImage.TransformStep | libeog/eog-image.c:689-773 | A transform without an image is a no-op. With an image, the image is replaced by a rotation's new pixbuf or kept by a flip or half turn, `modified` is set, and `changed` is appended. Nothing else changes. |
| EogImage.TransformEmitsChangedOnce | libeog/eog-image.c:689-773 | A transform of a loaded image sets `modified` and emits `changed` exactly once and no other signal. |
| EogImage.Image.RotateClockWise | libeog/eog-image.c:689-706 | `TransformStep` with the rotated pixbuf. |
| EogImage.Image.RotateCounterClockWise | libeog/eog-image.c:708-725 | `TransformStep` with the rotated pixbuf. |
| EogImage.Image.Rotate180 | libeog/eog-image.c:727-741 | `TransformStep` keeping the pixbuf handle. |
| EogImage.Image.FlipHorizontal | libeog/eog-image.c:743-757 | `TransformStep` keeping the pixbuf handle. |
| EogImage.Image.FlipVertical | libeog/eog-image.c:759-773 | `TransformStep` keeping the pixbuf handle. |
| EogImage.AreaUpdatedStep | libeog/eog-image.c:444-468 | The first area update captures the loader's pixbuf, and later ones keep the image. The update is reported. Nothing else changes. |
| EogImage.Image.LoadAreaUpdated | libeog/eog-image.c:444-468 | The method follows `AreaUpdatedStep`. |
| EogImage.Image.LoadSizePrepared | libeog/eog-image.c:470-483 | Size set and `size_prepared` reported with it. |
| EogImage.Image.RunCallbacks | libeog/eog-image.c:444-483 | The callbacks fired while one chunk is fed are applied in order. |
| EogImage.CallbacksFrame | libeog/eog-image.c:444-483 | The callbacks only touch image, size and the log, only append to the log, and can only capture the loader's pixbuf. |
| EogImage.ReadLoopFrame | libeog/eog-image.c:522-543 | The read loop fails exactly when some read errs or some chunk is rejected. It keeps location, thumbnail, mode, task and flag, only appends signals, and reports nothing outside PROGRESSIVE mode. |
| EogImage.Image.RealImageLoad | libeog/eog-image.c:485-575 | The decode task on the image's fields reaches `DecodeSpec`: the open, the read loop, then the end-of-decode bookkeeping. |
| EogImage.Image.EndDecode | libeog/eog-image.c:546-574 | On failure the partial image is dropped and `loading_failed` emitted. On success an uncaptured pixbuf is taken with its size, reported, then `loading_finished`. The task id always ends at 0. |
| EogImage.DecodeClearsTask | libeog/eog-image.c:572 | A decode that opened its stream always resets the task id to 0. |
| EogImage.DecodeFailure | libeog/eog-image.c:549-557 | A failing decode ends with no image and `loading_failed` last. Thumbnail, flag and location are kept. |
| EogImage.DecodeSuccess | libeog/eog-image.c:558-569 | A successful decode holds the loader's pixbuf and ends with `loading_finished`. When no area update captured it, the size is the pixbuf's and `size_prepared` comes just before. |
| EogImage.NonProgressiveDecodeReportsAtEnd | libeog/eog-image.c:517-569 | Outside PROGRESSIVE mode, a successful decode emits exactly `size_prepared` and `loading_finished`. |
| EogImage.Image.FreeMem | libeog/eog-image.c:846-859 | Only the image is dropped. Thumbnail, size, flag and everything else are kept. |
| EogImage.Image.IsAnimation | libeog/eog-image.c:642-646 | Always FALSE. |
| EogImage.Image.GetPixbuf | libeog/eog-image.c:648-660 | The decoded image, or null when there is none. |
| EogImage.Image.GetThumbnail | libeog/eog-image.c:662-673 | The thumbnail, or null when there is none. |
| EogImage.Image.GetSize | libeog/eog-image.c:675-686 | The size learnt so far (-1 while unknown). |
| EogImage.Image.GetCaption | libeog/eog-image.c:831-844 | The location's base name, or null without a location. |
| ThumbJobs.ThumbQueue.constructor | libeog/eog-image.c:11-16 | At start no queue exists, no worker runs, dispatch is disarmed (-1), and the invariant holds. |
| ThumbJobs.ThumbQueue.Enqueue | libeog/eog-image.c:239-260 | The image joins the tail of the waiting queue, created if absent. A worker is started exactly when none ran. The invariant is kept. |
| ThumbJobs.ThumbQueue.LoadThumbnail | libeog/eog-image.c:625-640 | Enqueues exactly when there is no thumbnail, and answers whether there is one. |
| ThumbJobs.ThumbQueue.WorkerPop | libeog/eog-image.c:138-143 | Under the invariant, a running worker with no image in hand always finds a non-empty waiting queue. It pops the head. |
| ThumbJobs.ResolveThumbnail | libeog/eog-image.c:147-206 | A cached file gives what loading it gives. The factory's thumbnail is used only when no valid failure is recorded and the file can be thumbnailed. Otherwise the thumbnail is kept. |
| ThumbJobs.ThumbQueue.WorkerResolve | libeog/eog-image.c:147-206 | Only the in-flight image's thumbnail changes, as `ResolveThumbnail` says. |
| ThumbJobs.ThumbQueue.WorkerComplete | libeog/eog-image.c:209-228 | The image joins the tail of the done queue, created if absent. Dispatch is armed only if disarmed. The worker stops, and the waiting queue is freed, exactly when nothing waits. The invariant is kept. |
| ThumbJobs.ThumbQueue.WorkOne | libeog/eog-image.c:135-229 | One turn of the worker loop: the head of the waiting queue is resolved and moved to the done queue. |
| ThumbJobs.ThumbQueue.RunWorker | libeog/eog-image.c:135-229 | The worker loop moves the whole waiting queue, in order, to the tail of the done queue, then stops. Each queued image keeps every field but its thumbnail, which becomes what resolving it with the outcomes of its own turns gives (`ResolvedBy`). |
| ThumbJobs.ThumbQueue.WorkTurn | libeog/eog-image.c:135-229 | One turn of the worker loop: the k-th queued image is resolved with the k-th outcome and moved to the done queue, and every other image is untouched. |
| ThumbJobs.ResolvedOnce | libeog/eog-image.c:135-206 | An image queued once ends with exactly `ResolveThumbnail` of its own outcome. |
| ThumbJobs.NeverQueued | libeog/eog-image.c:135-206 | The worker leaves the thumbnail of an image it never popped as it was. |
| ThumbJobs.Verdict | libeog/eog-image.c:88-93 | `thumbnail_finished` exactly when the image has a thumbnail, else `thumbnail_failed`. |
| ThumbJobs.ThumbQueue.Dispatch | libeog/eog-image.c:59-100 | A non-empty done queue loses its head, which gets its verdict signal, and the answer is TRUE. An empty one is freed, dispatch is disarmed, and the answer is FALSE. The invariant is kept. |
| ThumbJobs.ThumbQueue.PopDone | libeog/eog-image.c:70-73 | The head of the done queue is popped under the lock and logged as handed back. The invariant is kept. |
| ThumbJobs.ThumbQueue.RunDispatch | libeog/eog-image.c:59-100 | Dispatch repeated until it removes itself hands back the whole done queue, in order. Each image keeps every field but its signal log, to which one verdict for its thumbnail is appended per occurrence in the queue (`Occurrences`). |
| ThumbJobs.ThumbQueue.DispatchTurn | libeog/eog-image.c:59-100 | One run of the dispatch callback: the head of the done queue gets its verdict appended and every other image is untouched; on an empty queue dispatch is disarmed. |
| ThumbJobs.OccursOnce | libeog/eog-image.c:59-100 | An image queued once gets exactly one verdict. |
| ThumbJobs.NeverHandedBack | libeog/eog-image.c:59-100 | An image not in the done queue gets no verdict. |
| ThumbJobs.AllHandedBackWhenIdle | libeog/eog-image.c:59-260 | With no worker and no armed dispatch, the images handed back are exactly the images queued, each once, in queue order. |
| FolderTree.Normalize | src/Widgets/FolderTreeModel.cs:119-134 | A row's compared segments: as many as `Segments`. The first is the scheme, and each is trimmed of trailing '/'. |
| FolderTree.TrimEndDropsSlashes | src/Widgets/FolderTreeModel.cs:134 | `TrimEnd('/')` keeps a prefix that does not end in '/', and drops only slashes. |
| FolderTree.TrimEndIdempotent | src/Widgets/FolderTreeModel.cs:158 | Trimming an already trimmed segment changes nothing. |
| FolderTree.CommonPrefix | src/Widgets/FolderTreeModel.cs:128-140 | The two lists agree on the first `n` segments and differ at `n` when both go on: the longest common prefix. |
| FolderTree.CommonPrefixUnique | src/Widgets/FolderTreeModel.cs:128-140 | Any agreeing prefix that stops at a difference or an end is the common prefix. |
| FolderTree.FolderTreeModel.FindCommonPrefix | src/Widgets/FolderTreeModel.cs:126-140 | The comparison loop stops at the longest common prefix with the previous row's segments. Segments up to it are in compared form. |
| FolderTree.ParentOf | src/Widgets/FolderTreeModel.cs:150 | `IterParent` gives an earlier node or -1. In a built store it is the stored parent. |
| FolderTree.FolderTreeModel.StepBack | src/Widgets/FolderTreeModel.cs:142-155 | The step-back loop is `SteppedBack`: each step climbs one level, adds the running count to the parent or to `count_all` at the top. |
| FolderTree.FolderTreeModel.AppendSegments | src/Widgets/FolderTreeModel.cs:157-177 | The append loop reaches `Appended` and leaves the segments in compared form. |
| FolderTree.FolderTreeModel.AppendNode | src/Widgets/FolderTreeModel.cs:160-172 | `AppendValues` appends one node: under a valid `parent_iter` with the parent's URI extended by the segment and '/', else at the top with the row's root URI. |
| FolderTree.FolderTreeModel.WalkUp | src/Widgets/FolderTreeModel.cs:184-188 | The final walk is `WalkedUp`: every ancestor of the last node takes the running count. |
| FolderTree.FolderTreeModel.InsertRow | src/Widgets/FolderTreeModel.cs:117-180 | One absolute row reaches `RowStep`, the corrected loop body: a row whose folder is the one the step-back reached adds its photos to that folder, which the code as written does not. |
| FolderTree.FolderTreeModel.UpdateFolderTree | src/Widgets/FolderTreeModel.cs:93-190 | Clears the store, so the result depends on the rows only. The store and `count_all` become `Update(rows)`, the tree of the corrected loop body, which differs from the code as written only when a row lands on the folder the step-back reached. Old iterators become invalid. |
| FolderTree.FolderTreeModel.constructor | src/Widgets/FolderTreeModel.cs:37-44 | A new model holds the tree of the query's rows. |
| FolderTree.FolderTreeModel.GetFolderNameByIter | src/Widgets/FolderTreeModel.cs:51-57 | Null exactly for an invalid iterator, else that node's name. |
| FolderTree.FolderTreeModel.GetPhotoCountByIter | src/Widgets/FolderTreeModel.cs:59-65 | -1 for an invalid iterator, else that node's count. |
| FolderTree.FolderTreeModel.GetUriByIter | src/Widgets/FolderTreeModel.cs:67-73 | Null exactly for an invalid iterator, else that node's URI. |
| FolderTreeProofs.SteppedBackKeeps | src/Widgets/FolderTreeModel.cs:142-155 | Stepping back `s` levels keeps the spine balance and leaves `parent_iter` on the folder of the path's first `len - s` segments. Names and links are unchanged. |
| FolderTreeProofs.AppendedKeeps | src/Widgets/FolderTreeModel.cs:157-177 | The append loop keeps the balance, ends on the node of the row's full path with the row's count, and keeps the old nodes. |
| FolderTreeProofs.AppendedChain | src/Widgets/FolderTreeModel.cs:157-177 | Exactly the remaining segments become new nodes, each under the previous one, the first under `parent_iter`. Only the last gets the row's count, and each URI is the parent's plus "segment/" or the root URI at the top. The old nodes are unchanged. |
| FolderTreeProofs.AppendedPaths | src/Widgets/FolderTreeModel.cs:157-177 | The `m`-th appended node is the folder of the first `j + m + 1` segments. |
| FolderTreeProofs.WalkedUpCloses | src/Widgets/FolderTreeModel.cs:184-189 | The final walk closes the spine: every folder's count is its own photos plus its children's counts, and `count_all` is the top-level folders' counts. |
| FolderTreeProofs.RowStepKeeps | src/Widgets/FolderTreeModel.cs:109-180 | Each row keeps the builder's invariant: a forest with chained URIs, with `iter` on the previous row's folder. An absolute row credits its photos to exactly one node, the folder of its path. A relative row changes nothing. |
| FolderTreeProofs.FoldKeeps | src/Widgets/FolderTreeModel.cs:109-182 | After any number of rows the invariant holds, and the photos credited to nodes add up to the absolute rows' counts. |
| FolderTreeProofs.RollUp | src/Widgets/FolderTreeModel.cs:93-190 | After `UpdateFolderTree`, every folder's count is its own photos plus its subfolders' counts, and `count_all` is the top-level counts. Every node's URI is its parent's plus "name/". |
| FolderTreeProofs.DoubleCount | src/Widgets/FolderTreeModel.cs:157-177 | In the forest, every node is counted once among its parent's (or the top level's) children. |
| FolderTreeProofs.ClosedTotal | src/Widgets/FolderTreeModel.cs:184-189 | In a closed forest, the top-level total equals all photos credited anywhere. |
| FolderTreeProofs.CountIsTotal | src/Widgets/FolderTreeModel.cs:84-87 | `Count` after `UpdateFolderTree` is the sum of the photo counts of all absolute rows. |
| FolderTreeProofs.FoldRowFolders | src/Widgets/FolderTreeModel.cs:109-182 | Every absolute row's folder is a node of the store. |
| FolderTreeProofs.FoldNodesOnRows | src/Widgets/FolderTreeModel.cs:109-182 | Every node is a folder on the path of some absolute row. |
| FolderTreeProofs.TreeFolders | src/Widgets/FolderTreeModel.cs:93-190 | The finished tree shows every absolute row's folder, and no folder off the rows' paths. |
| FolderTreeProofs.AsWrittenAgrees | src/Widgets/FolderTreeModel.cs:109-190 | When no row lands on a folder already reached by the step-back, the loop as written and the corrected loop build the same tree. |
| FolderTreeProofs.RevisitedFolderMisplacesNext | src/Widgets/FolderTreeModel.cs:142-180 | For rows `a/b/`, `a/`, `0/` in the query's order, the loop as written puts `0` under `a` with URI `file:///a/0/` and gives `a` 6 photos. The corrected loop puts `0` beside `a` and gives `a` 3. Both total 6. |

## Left out

- Threads, the job mutex, `g_thread_create`, `g_idle_add` and the nested `gtk_main_iteration` are not modelled. Each locked section is one atomic method, and an idle source id is a parameter. `RunWorker` runs the worker with no enqueue interleaved.
- Pixel decoding, rotation and flipping are left out. Pixbufs are opaque handles with their reported size. A quarter turn yields a new handle, given as a parameter.
- The thumbnail factory, the thumbnail-path test and `g_file_query_info` are left out. They are one outcome per image (`ThumbOutcome`). Saving a generated thumbnail is not modelled.
- GObject signal registration and marshalling are left out. Emitted signals are a log on the entity, and signal arguments other than sizes and areas are dropped.
- `g_date_set_time_val` in local time is left out. The conversion takes the calendar date as input.
- EogImage.Image.RealImageLoad differs from the code in two ways:
  - It takes the open outcome as a flag, and a failed open emits `loading_failed`. The code tests the error the wrong way round and dereferences a null error.
  - It keeps the code's early return: after a failed open, the task id stays set.
- The uninitialised modification-time pointer and the unref of a possibly null file info in the worker are not modelled.
- The commented-out save routine and file-size heuristic are not modelled.
- The query and its reader, the database change subscription and `System.Uri` parsing are left out. Each row arrives with `IsAbsoluteUri`, `Scheme`, `Segments`, the URI resolved against "/", and its count. `new Uri(parent, "segment/")` is string concatenation: no escaping or normalisation. `Convert.ToInt32` and the `int` sums are unbounded integers, with no 32-bit wrap-around.
- The Gtk tree store is a sequence of nodes with parent indices. An iterator is a node index with the store's stamp. `GetUriByPath` and tree paths are not modelled.
- FolderTree.ParentOf: a stored parent link that does not point to an earlier node is read as top-level. A built store never has one (`Forest`).
- FolderTreeProofs.RollUp is stated per node as "own photos plus children's counts", with each row's photos credited to its folder's node (`RowStepKeeps`). A closed sum over the rows beneath each folder is not stated, because with unsorted input two nodes can hold the same path.
- ImageFile.NameTable is the table's contents after the static constructor, not its 42 individual insertions. The `.xcf` entry depends on the runtime's loader formats (`DetectXcf`). Enabling a disabled format is not modelled.
- ImageFile.ToLower lowers ASCII letters only. Culture-specific case mapping is not modelled.
- `SafeUri.GetExtension`, the GIO existence test and content-type query, and `Activator.CreateInstance` are left out. They are an extension string, a `probe` value and the class tag.
- Opening streams, loading pixbufs, TagLib metadata and `Dispose` are not modelled. The orientation transform's result is a parameter of `TransformAndDispose`.

## Findings

| source | as written | input that shows it | evidently intended | confidence | as-written member | corrected member |
|---|---|---|---|---|---|---|
| libeog/eog-image.c:116 | `24 * 3600 * g_date_days_between (...)` is an `int` product, truncated to 32 bits before it becomes `time_t`. | 2038-01-20 gives -2147408896, a time before 1970, with a 64-bit `time_t` too. | The seconds since the epoch, clamped to 0x7fffffff with a 4-byte `time_t`. | not executed | EogTime.AsWrittenOverflowsAfter2038 | EogTime.TimeValToTimeT, EogTime.TimeValToTimeTMonotonic |
| src/Widgets/FolderTreeModel.cs:142-180 | When a row's folder is an ancestor of the previous row's, nothing is appended. `iter` stays one level below the row's folder, on the previous row's path, and `last_count` becomes the row's count. The next row's step-back therefore ends one level too deep. | Rows `file:///a/b/` (1), `file:///a/` (2), `file:///0/` (3) in the query's descending order. `0` lands under `a` as `file:///a/0/`, and `a` shows 6 photos. | `a`'s photos join `a`, which becomes `iter`. `0` is a sibling of `a`, and `a` shows 3. | not executed | FolderTree.RowStepAsWritten, FolderTreeProofs.RevisitedFolderMisplacesNext | FolderTree.RowStep, FolderTreeProofs.RollUp, FolderTreeProofs.CountIsTotal, FolderTreeProofs.TreeFolders |
