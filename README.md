# Rendering task bookkeeping, modelled in Dafny

This project models the subtask bookkeeping of a rendering task in a
peer-to-peer rendering network (`RenderingTask` and
`RenderingTaskBuilder` in `poc/golemPy/examples/gnr/task/RenderingTask.py`):

- the node-admission policy over the per-peer counters (`countingNodes`);
- the work allocator, which moves a cursor (`lastTask`) over the units
  1 .. `totalTasks` and then reclaims failed subtasks;
- the preview images: the band of rows that belongs to a subtask, and
  painting bands black (removal), green (sent) or red (failed);
- the saturating per-channel add that composes result tiles into the preview;
- the small decisions: the subtask count, the choice of tile collector,
  and which preview a task state reports.

Files and modules:

| file | module | contents |
|---|---|---|
| `wrappers.dfy` | `Wrappers` | `Option`, standing for Python's `None` |
| `imaging.dfy` | `Imaging` | channels, colours, grids, the saturating compose |
| `builder.dfy` | `Builder` | `CalculateTotal` |
| `admission.dfy` | `Admission` | the admission function, repeated admissions, fairness lemmas |
| `ledger.dfy` | `Ledger` | subtask records, statuses, first-failure search, failure count |
| `bands.dfy` | `Bands` | the band bound `Bound(k)`, tiling lemmas, overlay colour of a pixel |
| `rendering_task.dfy` | `RenderingTasks` | the `RenderingTask` class and its methods |
| `image_check.dfy` | `ImageCheck` | the result-image verifier dispatch (see Findings) |

State that the source changes in place is a class. `countingNodes`,
`subTasksGiven`, `lastTask`, `numFailedSubtasks`, the preview paths and the
two images are fields. The methods are proved against the pure functions
`Admit`, `FirstFailure`, `Covers` and `Overlay`. The properties of the
allocator and the admission policy are proved about those functions.
`subTasksGiven` is a map together with `order`, the sequence of its keys
in dictionary iteration order. Both loops over `.values()` walk that
sequence. Images are `array2<Color>` indexed `[column, row]`, as
`putpixel((i, j), …)` addresses them. Decoded tiles are `Grid`s of rows (`g[row][column]`); `RenderingTasks.AsGrid` gives an image array in that form, the transpose of its indexing. `RenderingTasks.BlackPreviewTakesTile` states the compose step on a preview array through it. The file at `previewFilePath` holds
the array `preview`; the file at `previewTaskFilePath` holds `taskPreview`.

Band bounds: the source computes `floor(float(resY) / float(totalTasks) * k)`.
The model uses `Bound(k) = (resY * k) / totalTasks`, an exact integer
floor. The band of a subtask is the rows `[Bound(startTask - 1), Bound(endTask))`.

Inputs from outside the core are method parameters:

- `tmpDir` is the task's temporary directory, which the unseen helper `getTmpPath` would compute;
- `fileExists` is the answer `os.path.exists` gives for the current preview path;
- `finished` is what the base class's `finishedComputation()` returns.

## Model

| member | source | states |
|---|---|---|
| `Builder.CalculateTotal` | poc/golemPy/examples/gnr/task/RenderingTask.py:24-31 | the requested count exactly when the count is not optimised and lies within [min, max]; the renderer's default otherwise |
| `Builder.CalculateTotalWithinBounds` | poc/golemPy/examples/gnr/task/RenderingTask.py:24-31 | when the default lies within [min, max], so does the result |
| `Admission.Admit` | poc/golemPy/examples/gnr/task/RenderingTask.py:249-261 | refused exactly when the peer is known with a negative counter; afterwards the peer is present, with 0 if it was new, its own counter if positive, -1 if it was 0 or negative; no other peer's counter changes |
| `Admission.AdmitAll` | poc/golemPy/examples/gnr/task/RenderingTask.py:249-261 | a series of admissions answers every request once and afterwards knows exactly the old peers and the askers |
| `Admission.GrantsWithinBudget` | poc/golemPy/examples/gnr/task/RenderingTask.py:250-258 | in any series of requests a peer without a delivered result is granted at most 2 subtasks if new, 1 if holding a grant, none if blocked |
| `Admission.BlockedPeerStaysBlocked` | poc/golemPy/examples/gnr/task/RenderingTask.py:256-258 | a peer with a negative counter keeps a negative counter and every later request of it is refused |
| `Admission.ProvenPeerAlwaysAdmitted` | poc/golemPy/examples/gnr/task/RenderingTask.py:251-252 | a peer with a positive counter keeps it and is never refused, whoever else asks |
| `Admission.NewPeerRefusedOnThirdRequest` | poc/golemPy/examples/gnr/task/RenderingTask.py:253-261 | a new peer asking three times is granted, granted, refused |
| `RenderingTasks.RenderingTask.AcceptClient` | poc/golemPy/examples/gnr/task/RenderingTask.py:249-261 | the answer and the new counters are those of `Admit` on the old counters |
| `Ledger.FirstFailure` | poc/golemPy/examples/gnr/task/RenderingTask.py:191-193 | none exactly when no subtask in iteration order has failed; otherwise the position of a failed subtask with no failed one before it |
| `Ledger.ReclaimLowersFailureCount` | poc/golemPy/examples/gnr/task/RenderingTask.py:192-196 | turning a failed subtask into a resent one lowers the number of failed subtasks in the ledger by exactly one |
| `RenderingTasks.RenderingTask.GetNextTask` | poc/golemPy/examples/gnr/task/RenderingTask.py:184-198 | before the cursor reaches the total: the cursor moves up by one, the unit range (cursor, cursor) is returned, and no subtask changes; at the total: the first failed subtask becomes resent, `numFailedSubtasks` drops by one and its own range is returned, or with no failed subtask nothing changes and `None` is returned; a cursor within [0, total] stays within it |
| `Bands.Bound` | poc/golemPy/examples/gnr/task/RenderingTask.py:147-148 | the bound of unit k is the floor of `resY * k / totalTasks`: `totalTasks * b <= resY * k < totalTasks * (b + 1)` |
| `Bands.BoundMonotone` | poc/golemPy/examples/gnr/task/RenderingTask.py:147-148 | band bounds never decrease with the unit index |
| `Bands.BoundEnds` | poc/golemPy/examples/gnr/task/RenderingTask.py:147-148 | unit 0 bounds at row 0 and unit `totalTasks` at row `resY` |
| `Bands.BoundInImage` | poc/golemPy/examples/gnr/task/RenderingTask.py:147-151 | the bound of every unit from 0 to the total is a row of the image or its bottom edge |
| `Bands.BandsAdjacent` | poc/golemPy/examples/gnr/task/RenderingTask.py:147-148 | the band ending at unit k and the band starting at unit k + 1 share the boundary row |
| `Bands.UnitBandsCover` | poc/golemPy/examples/gnr/task/RenderingTask.py:147-148 | every row of the image lies in the band of some single unit 1 .. total |
| `Bands.UnitBandsDisjoint` | poc/golemPy/examples/gnr/task/RenderingTask.py:147-148 | no row lies in the bands of two different single units |
| `RenderingTasks.RenderingTask.MarkTaskArea` | poc/golemPy/examples/gnr/task/RenderingTask.py:146-151 | exactly the pixels in every column whose row is in [Bound(startTask - 1), Bound(endTask)) get the colour; all other pixels keep theirs |
| `Bands.Overlay` | poc/golemPy/examples/gnr/task/RenderingTask.py:137-141 | the reference value of one overlay pixel after the subtasks in order: the preview pixel, green or red, and the preview pixel when there are no subtasks |
| `Bands.OverlayKeepsUnpainted` | poc/golemPy/examples/gnr/task/RenderingTask.py:137-141 | a row covered by no sent and no failed subtask keeps its preview pixel in the overlay |
| `Bands.OverlayLastWins` | poc/golemPy/examples/gnr/task/RenderingTask.py:137-141 | where painted bands overlap, the last sent or failed subtask in iteration order decides: green for sent, red for failed |
| `Bands.OverlayStep` | poc/golemPy/examples/gnr/task/RenderingTask.py:138-141 | painting one more subtask changes a pixel only where that subtask's band covers it and it was sent or failed |
| `RenderingTasks.RenderingTask.PaintOverlayBand` | poc/golemPy/examples/gnr/task/RenderingTask.py:138-141 | one loop step: a sent band is painted green, a failed one red, any other subtask leaves the image as it was |
| `RenderingTasks.RenderingTask.PaintOverlay` | poc/golemPy/examples/gnr/task/RenderingTask.py:137-141 | after the loop every pixel is `Overlay` of its preview pixel over all given subtasks in iteration order |
| `RenderingTasks.RenderingTask.UpdateTaskPreview` | poc/golemPy/examples/gnr/task/RenderingTask.py:128-143 | the overlay path is set to the default task-preview path; it fails exactly when the preview path is a list, leaving both images as they were; otherwise the new overlay is a fresh copy of the opened preview with every pixel equal to `Overlay` of the preview pixel over the subtasks in iteration order |
| `RenderingTasks.RenderingTask.OpenPreview` | poc/golemPy/examples/gnr/task/RenderingTask.py:230-238 | a list-valued path fails and changes nothing; with no preview path or no file at it, the path becomes the default one and the preview a fresh black image of the task's size; otherwise path and image are unchanged |
| `RenderingTasks.RenderingTask.RemoveFromPreview` | poc/golemPy/examples/gnr/task/RenderingTask.py:119-125 | a list-valued preview path changes nothing; otherwise, after opening the preview, the subtask's band is black and every other pixel is as the opened preview had it |
| `RenderingTasks.RenderingTask.RestartSubtask` | poc/golemPy/examples/gnr/task/RenderingTask.py:96-100 | the preview changes only when the subtask is known and finished, and then as `RemoveFromPreview` changes it |
| `RenderingTasks.RenderingTask.Restart` | poc/golemPy/examples/gnr/task/RenderingTask.py:76-81 | both preview paths are unset and the collected file names are empty |
| `RenderingTasks.RenderingTask.constructor` | poc/golemPy/examples/gnr/task/RenderingTask.py:63-69 | a new task, for any total, keeps its total and resolution, has no preview paths, no peers, no subtasks and a cursor at 0 |
| `RenderingTasks.PublishedPreview` | poc/golemPy/examples/gnr/task/RenderingTask.py:85-88 | the overlay path while the computation is unfinished and that path is set; otherwise the preview path if set; otherwise nothing |
| `RenderingTasks.RenderingTask.UpdateTaskState` | poc/golemPy/examples/gnr/task/RenderingTask.py:84-88 | only the `resultPreview` entry may change; when a preview is published it holds exactly that preview, and otherwise the extra data is returned unchanged |
| `RenderingTasks.JoinPath` | poc/golemPy/examples/gnr/task/RenderingTask.py:133 | the path starts with the directory and ends with the name; a `/` is put between them exactly when the directory is non-empty and does not already end in one |
| `RenderingTasks.UseOuterTaskCollector` | poc/golemPy/examples/gnr/task/RenderingTask.py:242-246 | true exactly for the formats "EXR", "EPS", "exr" and "eps" |
| `RenderingTasks.MixedCaseFormatsUseBuiltInCollector` | poc/golemPy/examples/gnr/task/RenderingTask.py:243-244 | the test is case-sensitive: "Exr" and "Eps" are not handed to the external collector |
| `Imaging.AddChannel` | poc/golemPy/examples/gnr/task/RenderingTask.py:115 | the channel sum when it fits in 8 bits, 255 otherwise; never below either operand |
| `Imaging.Compose` | poc/golemPy/examples/gnr/task/RenderingTask.py:115 | the composite has the size of the overlap of the two images, and each of its pixels is the channel-wise saturating sum |
| `RenderingTasks.BlackPreviewTakesTile` | poc/golemPy/examples/gnr/task/RenderingTask.py:114-115 | a preview image that is still black, as a fresh one is, becomes exactly the first tile of its size added onto it |
| `Imaging.ComposeBlackIsIdentity` | poc/golemPy/examples/gnr/task/RenderingTask.py:115 | adding a black image of the same size gives the image back |
| `Imaging.ComposeCommutes` | poc/golemPy/examples/gnr/task/RenderingTask.py:115 | the order of the two operands does not matter |
| `Imaging.ComposeOntoWhiteSaturates` | poc/golemPy/examples/gnr/task/RenderingTask.py:115 | adding anything onto white gives white: sums clip, they do not wrap |
| `Imaging.ComposeBlackTiles` | poc/golemPy/examples/gnr/task/RenderingTask.py:115 | two black tiles compose to black |
| `ImageCheck.Extension` | poc/golemPy/examples/gnr/task/RenderingTask.py:223 | the extension is non-empty exactly when the last dot follows the last separator and some non-dot character of the last component precedes it, and then it is the suffix from that dot; it holds no further dot and no separator |
| `ImageCheck.Upper` | poc/golemPy/examples/gnr/task/RenderingTask.py:224 | the upper-cased string has the same length and each character upper-cased |
| `ImageCheck.VerifierAsWritten` | poc/golemPy/examples/gnr/task/RenderingTask.py:222-227 | as written: the raster verifier only when the upper-cased extension equals "EXR" without a dot |
| `ImageCheck.AsWrittenAlwaysChoosesExr` | poc/golemPy/examples/gnr/task/RenderingTask.py:222-227 | as written, every file goes to the EXR verifier |
| `ImageCheck.AsWrittenSendsPngToExr` | poc/golemPy/examples/gnr/task/RenderingTask.py:223-225 | as written, "tile.png" has extension ".png" and goes to the EXR verifier |
| `ImageCheck.VerifierFor` | poc/golemPy/examples/gnr/task/RenderingTask.py:222-227 | corrected: the EXR verifier exactly when the upper-cased extension is ".EXR" |
| `ImageCheck.IntendedSendsPngToRaster` | poc/golemPy/examples/gnr/task/RenderingTask.py:222-227 | corrected: "tile.png" goes to the raster verifier |
| `ImageCheck.IntendedSendsExrToExr` | poc/golemPy/examples/gnr/task/RenderingTask.py:222-227 | corrected: "tile.exr" goes to the EXR verifier |

## Left out

- The base class `GNRTask` is not part of this model. The calls into it from `restart`, `restartSubtask` and `subtaskFailed` have no modelled effect. Its `finishedComputation()` is the parameter `finished`. The constructor assumes the field values its `__init__` sets: no peers, no subtasks, cursor and failure count at 0.
- `subtaskFailed` (lines 91-93) is not modelled as a method of its own. Its only local step is `UpdateTaskPreview`; the status change it relies on happens in the base class.
- `getPreviewFilePath` (lines 103-104) is a plain getter of the field `previewFilePath`.
- `__init__` reads the program file and sums file sizes. That is file I/O and is left out; the constructor keeps only the total and the resolution.
- Image decoding and encoding (`exr_to_pil`, `Image.open`, `Image.save`, `Image.new`) are left out: the arrays stand for the file contents. `_updatePreview` is modelled only by its compose step `Imaging.Compose`, on decoded grids. Writing the composite back into the preview file is not modelled.
- `_verifyImg` is modelled only as the choice of verifier. `verifyExrImg` and `verifyPILImg` themselves are foreign code.
- `_unpackTaskResult` (unpickling, decompression, file writes), `_putCollectedFilesTogether` (a subprocess) and `_newComputeTaskDef` / `_shortExtraDataRepr` (record copies and string formatting) are I/O or plumbing, and are left out.
- `_getWorkingDirectory` and `_getSceneFileRelPath` depend on the operating system's path library, and are left out. `JoinPath` and `Extension` follow POSIX rules; Windows separators are not modelled.
- `getTmpPath` is not part of this model; its result is the parameter `tmpDir`. Whether a preview file exists is the parameter `fileExists`.
- Band bounds use exact integer division instead of IEEE floating point. Where `resY / totalTasks` is not exact in binary, the source may round a bound differently by one row.
- Subtask records keep only `startTask`, `endTask` and `status`; the other entries of the source's dictionaries are not modelled. The status enumeration is not part of this model: `Other` stands for every status other than starting, finished, failure and resent.
- Extra data of a task state holds only preview paths in the model; entries of other kinds are not represented.
- RenderingTasks.RenderingTask.OpenPreview: a list-valued preview path makes `os.path.exists` raise `TypeError` in the source (line 233). The model returns `ok == false` and changes nothing instead; the exception itself and its propagation through `subtaskFailed` are not modelled. `UpdateTaskPreview` reports the same failure after it has set the overlay path, as the source does at line 133.
- RenderingTasks.RenderingTask.constructor: a task with no units (`totalTasks <= 0`) is modelled, but `Valid()` keeps every subtask range within `1 <= startTask <= endTask <= totalTasks`. Such a task therefore has no subtasks, and the `ZeroDivisionError` that `_markTaskArea` raises for it (lines 147-148) is not represented.
- `MarkTaskArea` requires `1 <= startTask` and `endTask <= totalTasks`, because `putpixel` fails outside the image. `Valid()` keeps this for every recorded subtask.
- `ImageCheck.Upper` upper-cases ASCII letters only (Python's `str.upper` also maps other letters).
- `numFailedSubtasks` is not tied to the number of failed subtasks in the ledger, because the base class maintains it. `Ledger.ReclaimLowersFailureCount` shows that the ledger's own count drops by one when `GetNextTask` decrements the field.
- The resource client (`ClientHandler` retry counters, `ClientOptions.get`) and asynchronous requests (`AsyncRequest`, `async_run`) are not part of this model. Their code lives in `golem/resource/client.py` and `golem/core/async.py`. `tests/golem/resource/test_resourceclient.py` drives that code through a reactor, mocks and timers.
- Removal repaints the accumulated preview file, not the overlay (lines 123-125).
- A preview is opened, and possibly re-created, even when the band to be painted is empty (line 123).

## Findings

| source | as written | input that shows it | evidently intended | confidence | as-written member | corrected member |
|---|---|---|---|---|---|---|
| poc/golemPy/examples/gnr/task/RenderingTask.py:223-227 | `splitext` keeps the leading dot, so `ext.upper() != "EXR"` always holds and every file goes to `verifyExrImg` | `"tile.png"`: the extension `.png` is sent to the EXR verifier | EXR files to `verifyExrImg`, all other files to `verifyPILImg`; this needs both the dot and the flipped comparison, i.e. `ext.upper() == ".EXR"` | medium; not executed | `ImageCheck.AsWrittenAlwaysChoosesExr` | `ImageCheck.VerifierFor` |
