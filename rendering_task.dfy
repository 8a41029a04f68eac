/**
  The bookkeeping of a rendering task: which peers may receive work, which
  unit range is handed out next, and the two preview images (the
  accumulated result and the overlay of sent and failed bands).

  The paths of the preview files are kept as values; the contents of the
  file at `previewFilePath` are the array `preview`, those of the file at
  `previewTaskFilePath` the array `taskPreview`. Images are indexed
  `[column, row]`, as pixels are addressed when they are written; `AsGrid`
  gives the same image as a decoded `Grid` (`g[row][column]`), the form on
  which tiles are composed.
*/
module RenderingTasks {
  import opened Wrappers
  import opened Imaging
  import opened Admission
  import opened Ledger
  import opened Bands

  /** What a preview path field holds: nothing yet, one file, or a list of files. */
  datatype PreviewPath = NoPath | Path(file: string) | Parts(files: seq<string>)

  /** Whether a path value counts as true in a condition (set and not empty). */
  predicate Truthy(p: PreviewPath) {
    match p
    case NoPath => false
    case Path(f) => |f| > 0
    case Parts(fs) => |fs| > 0
  }

  const PreviewFileName := "current_preview"
  const TaskPreviewFileName := "current_task_preview"
  const ResultPreviewKey := "resultPreview"

  /** The output formats the built-in collector cannot write. */
  const UnsupportedFormats := ["EXR", "EPS", "exr", "eps"]

  /** A file name placed in a directory, with POSIX separators. */
  function JoinPath(dir: string, name: string): (p: string)
    ensures p == dir + name || p == dir + "/" + name
    ensures |p| >= |dir| + |name| && p[..|dir|] == dir && p[|p| - |name|..] == name
    ensures p == dir + name <==> dir == [] || dir[|dir| - 1] == '/'
  {
    if dir == [] || dir[|dir| - 1] == '/' then dir + name else dir + "/" + name
  }

  /**
    Whether the tiles are merged by the external collector: exactly for the
    formats EXR and EPS, spelt all in capitals or all in lower case.
  */
  function UseOuterTaskCollector(outputFormat: string): (r: bool)
    ensures r <==> outputFormat == "EXR" || outputFormat == "EPS" ||
                   outputFormat == "exr" || outputFormat == "eps"
  {
    outputFormat in UnsupportedFormats
  }

  /** The test is case-sensitive: mixed-case spellings use the built-in collector. */
  lemma MixedCaseFormatsUseBuiltInCollector()
    ensures !UseOuterTaskCollector("Exr") && !UseOuterTaskCollector("Eps")
  {
  }

  /**
    The preview a task state reports: the overlay while the computation
    runs and there is one, otherwise the accumulated preview if there is
    one, otherwise nothing.
  */
  function PublishedPreview(finished: bool, taskPath: PreviewPath, path: PreviewPath): (r: Option<PreviewPath>)
    ensures !finished && Truthy(taskPath) ==> r == Some(taskPath)
    ensures (finished || !Truthy(taskPath)) && Truthy(path) ==> r == Some(path)
    ensures (finished || !Truthy(taskPath)) && !Truthy(path) ==> r == None
  {
    if !finished && Truthy(taskPath) then Some(taskPath)
    else if Truthy(path) then Some(path)
    else None
  }

  /** An image array as the grid of its rows: the transpose of the indexing. */
  ghost function AsGrid(img: array2<Color>): (g: Grid)
    reads img
    ensures |g| == img.Length1 && Rectangular(g)
    ensures |g| > 0 ==> Width(g) == img.Length0
    ensures forall row, col :: 0 <= row < img.Length1 && 0 <= col < img.Length0 ==> g[row][col] == img[col, row]
  {
    seq(img.Length1, row requires 0 <= row < img.Length1 reads img =>
      seq(img.Length0, col requires 0 <= col < img.Length0 reads img => img[col, row]))
  }

  /**
    A preview that is still black, as a freshly created one is, becomes
    exactly the first tile composed onto it.
  */
  lemma BlackPreviewTakesTile(img: array2<Color>, t: Grid)
    requires forall i, j :: 0 <= i < img.Length0 && 0 <= j < img.Length1 ==> img[i, j] == Black
    requires Rectangular(t) && |t| == img.Length1 && (|t| > 0 ==> Width(t) == img.Length0)
    ensures Compose(AsGrid(img), t) == t
  {
    var g := AsGrid(img);
    var black := Filled(Width(t), |t|, Black);
    forall row | 0 <= row < |g| ensures g[row] == black[row] {
      assert |g[row]| == |black[row]|;
    }
    assert g == black;
    ComposeCommutes(g, t);
    ComposeBlackIsIdentity(t);
  }

  class RenderingTask {
    const totalTasks: int
    const resX: nat
    const resY: nat

    /** The counter of every peer that has asked for work. */
    var countingNodes: map<ClientId, int>
    /** The last unit handed out for the first time. */
    var lastTask: int
    var numFailedSubtasks: int
    /** The given subtasks, and the order in which they are iterated. */
    var subTasksGiven: map<SubtaskId, Subtask>
    var order: seq<SubtaskId>
    var previewFilePath: PreviewPath
    var previewTaskFilePath: PreviewPath
    var collectedFileNames: map<string, string>
    var preview: array2<Color>
    var taskPreview: array2<Color>

    ghost predicate Valid()
      reads this
    {
      && preview.Length0 == resX && preview.Length1 == resY
      && taskPreview.Length0 == resX && taskPreview.Length1 == resY
      && preview != taskPreview
      && Listed(order, subTasksGiven) && Distinct(order)
      && (forall id :: id in subTasksGiven ==> id in order)
      && (forall id :: id in subTasksGiven ==>
            1 <= subTasksGiven[id].startTask <= subTasksGiven[id].endTask <= totalTasks)
    }

    /** The given subtasks in iteration order. */
    ghost function Given(): (given: seq<Subtask>)
      reads this
      requires Valid()
      ensures |given| == |order|
      ensures totalTasks > 0 || given == []
    {
      if order != [] then
        assert order[0] in subTasksGiven;
        InOrder(order, subTasksGiven)
      else []
    }

    /** A fresh task: no peer seen, no unit handed out, no preview yet. */
    constructor (totalTasks: int, resX: nat, resY: nat)
      ensures Valid()
      ensures this.totalTasks == totalTasks && this.resX == resX && this.resY == resY
      ensures countingNodes == map[] && lastTask == 0 && numFailedSubtasks == 0
      ensures subTasksGiven == map[] && order == []
      ensures previewFilePath == NoPath && previewTaskFilePath == NoPath && collectedFileNames == map[]
    {
      this.totalTasks, this.resX, this.resY := totalTasks, resX, resY;
      countingNodes, lastTask, numFailedSubtasks := map[], 0, 0;
      subTasksGiven, order := map[], [];
      previewFilePath, previewTaskFilePath, collectedFileNames := NoPath, NoPath, map[];
      preview := new Color[resX, resY]((i, j) => Black);
      taskPreview := new Color[resX, resY]((i, j) => Black);
    }

    /** Forgets the preview files and the collected result files. */
    method Restart()
      requires Valid()
      modifies this`previewFilePath, this`previewTaskFilePath, this`collectedFileNames
      ensures Valid()
      ensures previewFilePath == NoPath && previewTaskFilePath == NoPath
      ensures collectedFileNames == map[]
    {
      previewFilePath := NoPath;
      previewTaskFilePath := NoPath;
      collectedFileNames := map[];
    }

    /** The task state's extra data after the task has reported its preview. */
    function UpdateTaskState(finished: bool, extraData: map<string, PreviewPath>): (r: map<string, PreviewPath>)
      reads this
      ensures r.Keys <= extraData.Keys + {ResultPreviewKey}
      ensures forall k :: k in extraData && k != ResultPreviewKey ==> k in r && r[k] == extraData[k]
      ensures ResultPreviewKey in r && (ResultPreviewKey !in extraData || r[ResultPreviewKey] != extraData[ResultPreviewKey])
              ==> Some(r[ResultPreviewKey]) == PublishedPreview(finished, previewTaskFilePath, previewFilePath)
      ensures PublishedPreview(finished, previewTaskFilePath, previewFilePath).None? ==> r == extraData
      ensures PublishedPreview(finished, previewTaskFilePath, previewFilePath).Some? ==>
              ResultPreviewKey in r &&
              Some(r[ResultPreviewKey]) == PublishedPreview(finished, previewTaskFilePath, previewFilePath)
    {
      match PublishedPreview(finished, previewTaskFilePath, previewFilePath)
      case Some(p) => extraData[ResultPreviewKey := p]
      case None => extraData
    }

    /** Decides whether peer `clientId` may receive a subtask, updating its counter. */
    method AcceptClient(clientId: ClientId) returns (accepted: bool)
      modifies this`countingNodes
      ensures accepted == Admit(old(countingNodes), clientId).accepted
      ensures countingNodes == Admit(old(countingNodes), clientId).nodes
    {
      if clientId in countingNodes {
        if countingNodes[clientId] > 0 {
          return true;
        } else if countingNodes[clientId] == 0 {
          countingNodes := countingNodes[clientId := -1];
          return true;
        } else {
          countingNodes := countingNodes[clientId := -1];
          return false;
        }
      } else {
        countingNodes := countingNodes[clientId := 0];
        return true;
      }
    }

    /**
      The next unit range to hand out: the next unit while the cursor has
      not reached the total, otherwise the range of the first failed
      subtask, which becomes resent; `None` when there is neither.
    */
    method GetNextTask() returns (r: Option<UnitRange>)
      requires Valid()
      modifies this`lastTask, this`numFailedSubtasks, this`subTasksGiven
      ensures Valid()
      ensures old(lastTask) != totalTasks ==>
                lastTask == old(lastTask) + 1 && r == Some(UnitRange(lastTask, lastTask)) &&
                subTasksGiven == old(subTasksGiven) && numFailedSubtasks == old(numFailedSubtasks)
      ensures old(lastTask) == totalTasks ==> lastTask == old(lastTask)
      ensures old(lastTask) == totalTasks && FirstFailure(order, old(subTasksGiven)).None? ==>
                r == None && subTasksGiven == old(subTasksGiven) && numFailedSubtasks == old(numFailedSubtasks)
      ensures old(lastTask) == totalTasks && FirstFailure(order, old(subTasksGiven)).Some? ==>
                var id := order[FirstFailure(order, old(subTasksGiven)).value];
                var sub := old(subTasksGiven)[id];
                r == Some(UnitRange(sub.startTask, sub.endTask)) &&
                subTasksGiven == old(subTasksGiven)[id := sub.(status := Resent)] &&
                numFailedSubtasks == old(numFailedSubtasks) - 1
      ensures 0 <= old(lastTask) <= totalTasks ==> 0 <= lastTask <= totalTasks
    {
      if lastTask != totalTasks {
        lastTask := lastTask + 1;
        return Some(UnitRange(lastTask, lastTask));
      }
      var i := 0;
      while i < |order|
        invariant 0 <= i <= |order|
        invariant forall p :: 0 <= p < i ==> subTasksGiven[order[p]].status != Failure
      {
        var id := order[i];
        var sub := subTasksGiven[id];
        if sub.status == Failure {
          subTasksGiven := subTasksGiven[id := sub.(status := Resent)];
          numFailedSubtasks := numFailedSubtasks - 1;
          return Some(UnitRange(sub.startTask, sub.endTask));
        }
        i := i + 1;
      }
      return None;
    }

    /**
      Paints the band of `sub`, across the whole width of `img`, in
      `color`; every other pixel keeps its colour.
    */
    method MarkTaskArea(sub: Subtask, img: array2<Color>, color: Color)
      requires totalTasks > 0
      requires img.Length0 == resX && img.Length1 == resY
      requires 1 <= sub.startTask && sub.endTask <= totalTasks
      modifies img
      ensures forall i, j :: 0 <= i < resX && 0 <= j < resY ==>
                img[i, j] == if Covers(resY, totalTasks, sub, j) then color else old(img[i, j])
    {
      var upper := Bound(resY, totalTasks, sub.startTask - 1);
      var lower := Bound(resY, totalTasks, sub.endTask);
      BoundEnds(resY, totalTasks);
      BoundMonotone(resY, totalTasks, 0, sub.startTask - 1);
      BoundMonotone(resY, totalTasks, sub.endTask, totalTasks);
      var i := 0;
      while i < resX
        invariant 0 <= i <= resX
        invariant forall x, y :: 0 <= x < resX && 0 <= y < resY ==>
                    img[x, y] == if x < i && upper <= y < lower then color else old(img[x, y])
      {
        var j := upper;
        while j < lower
          invariant upper <= j && (j <= lower || j == upper)
          invariant forall x, y :: 0 <= x < resX && 0 <= y < resY ==>
                      img[x, y] == if (x < i && upper <= y < lower) || (x == i && upper <= y < j)
                                   then color else old(img[x, y])
        {
          img[i, j] := color;
          j := j + 1;
        }
        i := i + 1;
      }
    }

    /**
      The effect of opening the preview: when there is no preview path yet
      or its file does not exist, a black image of the task's resolution
      is created at the default location; otherwise the existing preview
      is used as it is.
    */
    twostate predicate PreviewOpened(fileExists: bool, tmpDir: string)
      reads this, preview
    {
      if old(previewFilePath).NoPath? || !fileExists then
        && previewFilePath == Path(JoinPath(tmpDir, PreviewFileName))
        && fresh(preview)
        && preview.Length0 == resX && preview.Length1 == resY
        && forall i, j :: 0 <= i < resX && 0 <= j < resY ==> preview[i, j] == Black
      else
        && previewFilePath == old(previewFilePath)
        && preview == old(preview)
        && unchanged(preview)
    }

    /**
      Opens the preview image. `fileExists` is whether a file exists at the
      current preview path; `tmpDir` is the task's temporary directory.
      A list of preview files cannot be tested for existence: opening then
      fails (`ok` is false) and nothing changes.
    */
    method OpenPreview(fileExists: bool, tmpDir: string) returns (ok: bool)
      requires Valid()
      modifies this`previewFilePath, this`preview
      ensures Valid()
      ensures ok <==> !old(previewFilePath).Parts?
      ensures !ok ==> PreviewUnchanged()
      ensures ok ==> PreviewOpened(fileExists, tmpDir)
    {
      if previewFilePath.Parts? {
        return false;
      }
      if previewFilePath.NoPath? || !fileExists {
        previewFilePath := Path(JoinPath(tmpDir, PreviewFileName));
        preview := new Color[resX, resY]((i, j) => Black);
      }
      return true;
    }

    /** The preview is left exactly as it was. */
    twostate predicate PreviewUnchanged()
      reads this, preview
    {
      previewFilePath == old(previewFilePath) && preview == old(preview) && unchanged(preview)
    }

    /**
      The effect of removing subtask `sub` from a single-file preview: the
      preview is opened, then the band of `sub` is painted black.
    */
    twostate predicate RemovedFromPreview(sub: Subtask, fileExists: bool, tmpDir: string)
      reads this, preview
      requires totalTasks > 0
    {
      var reset := old(previewFilePath).NoPath? || !fileExists;
      && (if reset then previewFilePath == Path(JoinPath(tmpDir, PreviewFileName)) && fresh(preview)
          else previewFilePath == old(previewFilePath) && preview == old(preview))
      && preview.Length0 == resX && preview.Length1 == resY
      && old(preview).Length0 == resX && old(preview).Length1 == resY
      && forall i, j :: 0 <= i < resX && 0 <= j < resY ==>
           preview[i, j] == if reset || Covers(resY, totalTasks, sub, j) then Black else old(preview[i, j])
    }

    /**
      Paints the band of a subtask black in the preview. A preview made of
      several files is not supported and is left untouched.
    */
    method RemoveFromPreview(subtaskId: SubtaskId, fileExists: bool, tmpDir: string)
      requires Valid() && subtaskId in subTasksGiven
      modifies this`previewFilePath, this`preview, preview
      ensures Valid()
      ensures old(previewFilePath).Parts? ==> PreviewUnchanged()
      ensures !old(previewFilePath).Parts? ==> RemovedFromPreview(subTasksGiven[subtaskId], fileExists, tmpDir)
    {
      if previewFilePath.Parts? {
        return;
      }
      var ok := OpenPreview(fileExists, tmpDir);
      MarkTaskArea(subTasksGiven[subtaskId], preview, Black);
    }

    /**
      Restarting a subtask takes its result out of the preview, but only
      for a known subtask that had finished.
    */
    method RestartSubtask(subtaskId: SubtaskId, fileExists: bool, tmpDir: string)
      requires Valid()
      modifies this`previewFilePath, this`preview, preview
      ensures Valid()
      ensures !(subtaskId in subTasksGiven && subTasksGiven[subtaskId].status == Finished) ==> PreviewUnchanged()
      ensures subtaskId in subTasksGiven && subTasksGiven[subtaskId].status == Finished ==>
                if old(previewFilePath).Parts? then PreviewUnchanged()
                else RemovedFromPreview(subTasksGiven[subtaskId], fileExists, tmpDir)
    {
      if subtaskId in subTasksGiven {
        if subTasksGiven[subtaskId].status == Finished {
          RemoveFromPreview(subtaskId, fileExists, tmpDir);
        }
      }
    }

    /**
      One step of re-deriving the overlay: paints the band of `sub` green
      if it was sent and red if it failed, so that an overlay of `base`
      over `done` becomes one over `done + [sub]`.
    */
    method PaintOverlayBand(sub: Subtask, img: array2<Color>, ghost base: array2<Color>, ghost done: seq<Subtask>)
      requires totalTasks > 0 && img != base
      requires img.Length0 == resX && img.Length1 == resY && base.Length0 == resX && base.Length1 == resY
      requires 1 <= sub.startTask && sub.endTask <= totalTasks
      requires forall i, j :: 0 <= i < resX && 0 <= j < resY ==>
                 img[i, j] == Overlay(resY, totalTasks, base[i, j], j, done)
      modifies img
      ensures forall i, j :: 0 <= i < resX && 0 <= j < resY ==>
                img[i, j] == Overlay(resY, totalTasks, base[i, j], j, done + [sub])
    {
      if sub.status == Starting {
        MarkTaskArea(sub, img, Green);
      }
      if sub.status == Failure {
        MarkTaskArea(sub, img, Red);
      }
      forall i, j | 0 <= i < resX && 0 <= j < resY
        ensures img[i, j] == Overlay(resY, totalTasks, base[i, j], j, done + [sub])
      {
        OverlayStep(resY, totalTasks, base[i, j], j, done, sub);
      }
    }

    /**
      Paints the bands of all given subtasks, in iteration order, onto
      `img`, a copy of `base`.
    */
    method PaintOverlay(img: array2<Color>, ghost base: array2<Color>)
      requires Valid() && img != base
      requires img.Length0 == resX && img.Length1 == resY && base.Length0 == resX && base.Length1 == resY
      requires forall i, j :: 0 <= i < resX && 0 <= j < resY ==> img[i, j] == base[i, j]
      modifies img
      ensures forall i, j :: 0 <= i < resX && 0 <= j < resY ==>
                img[i, j] == Overlay(resY, totalTasks, base[i, j], j, Given())
    {
      ghost var given := Given();
      var k := 0;
      while k < |order|
        invariant 0 <= k <= |order|
        invariant forall i, j :: 0 <= i < resX && 0 <= j < resY ==>
                    img[i, j] == Overlay(resY, totalTasks, base[i, j], j, given[..k])
      {
        PaintOverlayBand(subTasksGiven[order[k]], img, base, given[..k]);
        assert given[..k + 1] == given[..k] + [given[k]];
        k := k + 1;
      }
      assert given[..|order|] == given;
    }

    /**
      Re-derives the overlay image: a copy of the preview on which the
      band of every sent subtask is painted green and that of every failed
      one red, in iteration order; it is stored at the default location.
      The overlay path is set first; when the preview cannot be opened
      (`ok` is false) the overlay image is left as it was.
    */
    method UpdateTaskPreview(fileExists: bool, tmpDir: string) returns (ok: bool)
      requires Valid()
      modifies this`previewFilePath, this`preview, this`previewTaskFilePath, this`taskPreview
      ensures Valid()
      ensures previewTaskFilePath == Path(JoinPath(tmpDir, TaskPreviewFileName))
      ensures ok <==> !old(previewFilePath).Parts?
      ensures !ok ==> PreviewUnchanged() && taskPreview == old(taskPreview)
      ensures ok ==> PreviewOpened(fileExists, tmpDir) && fresh(taskPreview)
      ensures ok ==> forall i, j :: 0 <= i < resX && 0 <= j < resY ==>
                       taskPreview[i, j] == Overlay(resY, totalTasks, preview[i, j], j, Given())
    {
      previewTaskFilePath := Path(JoinPath(tmpDir, TaskPreviewFileName));
      ok := OpenPreview(fileExists, tmpDir);
      if !ok {
        return;
      }
      var src := preview;
      var img := new Color[resX, resY]((i, j) reads src requires 0 <= i < resX && 0 <= j < resY => src[i, j]);
      PaintOverlay(img, src);
      taskPreview := img;
    }
  }
}
