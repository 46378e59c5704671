/** The curves editor and batch runner (`useImageCurves`): the control-point
    list with its add/update/remove/reset rules and the stored-value
    fallback, the queue of images with its active preview, the sequential
    batch that pushes each image through the LUT pass, and the names of the
    archive entries. The table itself is `CurveAlgorithms.CurveLut` of the
    points; persisting the points, object URLs and the archive download are
    browser I/O. */
module ImageCurves {
  import opened Common
  import opened Types
  import opened CurveAlgorithms
  import ImageHelper

  // ---------------------------------------------------------------------
  // Control points
  // ---------------------------------------------------------------------

  /** The straight diagonal from (0,0) to (255,255). */
  const DEFAULT_POINTS: seq<CurvePoint> := [CurvePoint("start", 0, 0), CurvePoint("end", 255, 255)]

  /** What the saved entry yields once read and parsed: nothing (missing or
      empty), text that is not JSON, a JSON value that is not an array, or an
      array (its elements are taken as points without further checks). */
  datatype StoredPoints = NothingStored | Unparsable | NotAnArray | PointArray(items: seq<CurvePoint>)

  /** The points the editor starts with: a stored array of at least two
      points, otherwise the default pair. */
  function InitialPoints(stored: StoredPoints): (r: seq<CurvePoint>)
    ensures |r| >= 2
    ensures r == DEFAULT_POINTS || (stored.PointArray? && r == stored.items)
    ensures stored.PointArray? && |stored.items| >= 2 ==> r == stored.items
  {
    if stored.PointArray? && |stored.items| >= 2 then stored.items else DEFAULT_POINTS
  }

  /** The default pair is already sorted, and so usable. */
  lemma DefaultPointsSorted()
    ensures SortByX(DEFAULT_POINTS) == DEFAULT_POINTS && Interpolable(DEFAULT_POINTS)
  {
    assert StrictlyIncreasingX(DEFAULT_POINTS);
    SortedStrictIsFixed(DEFAULT_POINTS);
  }

  /** Between its ends the default curve is the diagonal. */
  lemma DefaultCurveInterior(level: int)
    requires 0 < level < 255
    ensures Interpolable(DEFAULT_POINTS) && CurveLut(DEFAULT_POINTS)[level] == level
  {
    var d := DEFAULT_POINTS;
    DefaultPointsSorted();
    TwoPointsAreLinear(d, level);
    var v := level as real / 255.0 * 255.0;
    assert v == level as real;
    assert Round(v) == level;
  }

  /** The default pair gives the identity table: every level maps to itself. */
  lemma DefaultCurveIsIdentity()
    ensures Interpolable(DEFAULT_POINTS)
    ensures forall level :: 0 <= level < LEVELS ==> CurveLut(DEFAULT_POINTS)[level] == level
  {
    var d := DEFAULT_POINTS;
    DefaultPointsSorted();
    forall level | 0 <= level < LEVELS ensures CurveLut(d)[level] == level {
      if level == 0 {
        BelowSpanIsFirstY(d, d[0], level);
      } else if level == 255 {
        AboveSpanIsLastY(d, d[1], level);
      } else {
        DefaultCurveInterior(level);
      }
    }
  }

  function Abs(n: int): nat { if n < 0 then -n else n }

  /** Some existing point lies less than 5 levels from `x` horizontally. */
  predicate TooClose(points: seq<CurvePoint>, x: int) {
    exists i :: 0 <= i < |points| && Abs(points[i].x - x) < 5
  }

  /** `addPoint`: ignored near an existing point, otherwise the new point is
      added and the list re-sorted by x. */
  function AddPointTo(points: seq<CurvePoint>, id: string, x: int, y: int): (r: seq<CurvePoint>)
    ensures TooClose(points, x) ==> r == points
    ensures !TooClose(points, x) ==>
      multiset(r) == multiset(points) + multiset{CurvePoint(id, x, y)} && SortedByX(r)
  {
    if TooClose(points, x) then points else SortByX(points + [CurvePoint(id, x, y)])
  }

  /** A list whose x-values already strictly increase is its own sort. */
  lemma SortedStrictIsFixed(s: seq<CurvePoint>)
    requires StrictlyIncreasingX(s)
    ensures SortByX(s) == s && Interpolable(s)
  {
    SortedPermutationsEqual(s, SortByX(s));
  }

  /** Adding a point keeps the table defined: the new x is at least 5 away
      from every other, so the sorted list still has strictly increasing x. */
  lemma AddPointKeepsCurveDefined(points: seq<CurvePoint>, id: string, x: int, y: int)
    requires Interpolable(points)
    ensures Interpolable(AddPointTo(points, id, x, y))
    ensures !TooClose(points, x) ==> StrictlyIncreasingX(AddPointTo(points, id, x, y))
  {
    if !TooClose(points, x) {
      var np := CurvePoint(id, x, y);
      var s := SortByX(points);
      assert StrictlyIncreasingX(s);
      forall q | q in s ensures q.x != np.x {
        assert q in multiset(points);
        var i :| 0 <= i < |points| && points[i] == q;
        assert Abs(points[i].x - x) >= 5;
      }
      InsertKeepsStrict(np, s);
      var t := InsertByX(np, s);
      var r := AddPointTo(points, id, x, y);
      assert multiset(t) == multiset(r);
      SortedPermutationsEqual(t, r);
      SortedStrictIsFixed(r);
    }
  }

  /** `updatePoint` on one point: the point with the id gets the new
      coordinates clamped to [0,255]; any other point is left as it is. */
  function MovePoint(p: CurvePoint, id: string, x: int, y: int): CurvePoint {
    if p.id != id then p else p.(x := ClampByte(x), y := ClampByte(y))
  }

  /** `updatePoint`: move the matching point(s), then re-sort by x. */
  function UpdatePointIn(points: seq<CurvePoint>, id: string, x: int, y: int): (r: seq<CurvePoint>)
    ensures |r| == |points| && SortedByX(r)
    ensures multiset(r) == multiset(seq(|points|, k requires 0 <= k < |points| => MovePoint(points[k], id, x, y)))
  {
    SortByX(seq(|points|, k requires 0 <= k < |points| => MovePoint(points[k], id, x, y)))
  }

  /** After `updatePoint` every point with another id is one of the old
      points, every point with the id is an old point with that id moved to
      clamped coordinates, and no point is lost. */
  lemma UpdatePointEffect(points: seq<CurvePoint>, id: string, x: int, y: int)
    ensures var r := UpdatePointIn(points, id, x, y);
      (forall q :: q in r && q.id != id ==> q in points)
      && (forall q :: q in r && q.id == id ==>
            0 <= q.x <= 255 && 0 <= q.y <= 255 && q.x == ClampByte(x) && q.y == ClampByte(y)
            && exists k :: 0 <= k < |points| && points[k].id == id && q == points[k].(x := q.x, y := q.y))
      && (forall k :: 0 <= k < |points| && points[k].id != id ==> points[k] in r)
  {
    var moved := seq(|points|, k requires 0 <= k < |points| => MovePoint(points[k], id, x, y));
    var r := UpdatePointIn(points, id, x, y);
    forall q | q in r && q.id != id ensures q in points {
      assert q in multiset(moved);
      var k :| 0 <= k < |moved| && moved[k] == q;
      assert points[k] == q;
    }
    forall q | q in r && q.id == id
      ensures q.x == ClampByte(x) && q.y == ClampByte(y)
      ensures exists k :: 0 <= k < |points| && points[k].id == id && q == points[k].(x := q.x, y := q.y)
    {
      assert q in multiset(moved);
      var k :| 0 <= k < |moved| && moved[k] == q;
      assert points[k].id == id && q == points[k].(x := q.x, y := q.y);
    }
    forall k | 0 <= k < |points| && points[k].id != id ensures points[k] in r {
      assert moved[k] == points[k];
      assert moved[k] in multiset(r);
    }
  }

  /** Two different points at the same x cannot both be in a list whose x
      strictly increases. */
  lemma SharedXNotStrict(s: seq<CurvePoint>, p: CurvePoint, q: CurvePoint)
    requires p in s && q in s && p != q && p.x == q.x
    ensures |s| >= 2 && !StrictlyIncreasingX(s)
  {
    var i :| 0 <= i < |s| && s[i] == p;
    var j :| 0 <= j < |s| && s[j] == q;
    if i < j {
      assert !(s[i].x < s[j].x);
    } else {
      assert !(s[j].x < s[i].x);
    }
  }

  /** Two different points at the same x leave the table undefined. */
  lemma SharedXBreaksCurve(r: seq<CurvePoint>, p: CurvePoint, q: CurvePoint)
    requires p in r && q in r && p != q && p.x == q.x
    ensures !Interpolable(r)
  {
    SharedXNotStrict(r, p, q);
    SortedHasSamePoints(r, p);
    SortedHasSamePoints(r, q);
    SharedXNotStrict(SortByX(r), p, q);
  }

  /** `updatePoint` does not keep x-values apart: when the clamped new x of
      the point being moved is the x of another point, the table is no longer
      defined (the source then divides by a zero run). */
  lemma UpdatePointOntoOccupiedX(points: seq<CurvePoint>, id: string, x: int, y: int, i: nat, j: nat)
    requires i < |points| && j < |points|
    requires points[i].id != id && points[j].id == id && points[i].x == ClampByte(x)
    ensures !Interpolable(UpdatePointIn(points, id, x, y))
  {
    var moved := seq(|points|, k requires 0 <= k < |points| => MovePoint(points[k], id, x, y));
    var r := UpdatePointIn(points, id, x, y);
    assert moved[i] == points[i];
    assert moved[i] in multiset(moved) && moved[j] in multiset(moved);
    assert moved[i] in r && moved[j] in r;
    SharedXBreaksCurve(r, moved[i], moved[j]);
  }

  /** An instance: with three points at x = 0, 128 and 255, dragging the
      middle one to x = -20 clamps it onto x = 0. */
  lemma UpdatePointCanCollide()
    ensures var before := [CurvePoint("a", 0, 0), CurvePoint("b", 128, 128), CurvePoint("c", 255, 255)];
      Interpolable(before) && !Interpolable(UpdatePointIn(before, "b", -20, 40))
  {
    var before := [CurvePoint("a", 0, 0), CurvePoint("b", 128, 128), CurvePoint("c", 255, 255)];
    assert StrictlyIncreasingX(before);
    SortedStrictIsFixed(before);
    assert before[0].id != "b" by { assert "a"[0] != "b"[0]; }
    UpdatePointOntoOccupiedX(before, "b", -20, 40, 0, 1);
  }

  /** The filter of `removePoint`: every point whose id differs. */
  function PointOtherThan(id: string): CurvePoint -> bool {
    (p: CurvePoint) => p.id != id
  }

  /** `removePoint`: ignored when at most two points remain, otherwise every
      point with the id is dropped and the rest keep their order. */
  function RemovePointFrom(points: seq<CurvePoint>, id: string): (r: seq<CurvePoint>)
    ensures |points| <= 2 ==> r == points
    ensures |points| > 2 ==> r == Filter(points, PointOtherThan(id))
    ensures |points| > 2 ==>
      (forall k :: 0 <= k < |r| ==> r[k].id != id && r[k] in points)
      && (forall k :: 0 <= k < |points| && points[k].id != id ==> points[k] in r)
  {
    if |points| <= 2 then points
    else
      var r := Filter(points, PointOtherThan(id));
      assert forall k :: 0 <= k < |r| ==> r[k] in r;
      assert forall k :: 0 <= k < |points| ==> points[k] in points;
      r
  }

  /** Every point after the head of a strictly increasing list lies to its
      right. */
  lemma HeadBelowTail(s: seq<CurvePoint>, q: CurvePoint)
    requires StrictlyIncreasingX(s) && s != [] && q in s[1..]
    ensures s[0].x < q.x
  {
    var m :| 0 <= m < |s| - 1 && s[1..][m] == q;
    assert s[m + 1] == q;
  }

  /** A filter of a list with strictly increasing x still has strictly
      increasing x. */
  lemma {:induction false} FilterKeepsStrict(s: seq<CurvePoint>, keep: CurvePoint -> bool)
    requires StrictlyIncreasingX(s)
    ensures StrictlyIncreasingX(Filter(s, keep))
  {
    if s != [] {
      var tail := s[1..];
      StrictTail(s);
      FilterKeepsStrict(tail, keep);
      var rest := Filter(tail, keep);
      if keep(s[0]) {
        forall q | q in rest ensures s[0].x < q.x {
          HeadBelowTail(s, q);
        }
        ConsStrict(s[0], rest);
        assert Filter(s, keep) == [s[0]] + rest;
      } else {
        assert Filter(s, keep) == rest;
      }
    }
  }

  /** Removing points keeps the table defined. */
  lemma RemovePointKeepsCurveDefined(points: seq<CurvePoint>, id: string)
    requires Interpolable(points)
    ensures Interpolable(RemovePointFrom(points, id))
  {
    if |points| > 2 {
      var keep := PointOtherThan(id);
      var s := SortByX(points);
      var fs := Filter(s, keep);
      var r := Filter(points, keep);
      FilterKeepsStrict(s, keep);
      FilterRespectsMultiset(s, points, keep);
      SortedPermutationsEqual(fs, SortByX(r));
    }
  }

  /** No two points share an id. */
  predicate UniquePointIds(points: seq<CurvePoint>) {
    forall i, j :: 0 <= i < j < |points| ==> points[i].id != points[j].id
  }

  /** With distinct ids a removal drops at most one point, so the list never
      shrinks below two points. */
  lemma RemovePointLeavesTwo(points: seq<CurvePoint>, id: string)
    requires UniquePointIds(points) && |points| >= 2
    ensures |RemovePointFrom(points, id)| >= 2
    ensures |points| > 2 && (exists k :: 0 <= k < |points| && points[k].id == id) ==>
      |RemovePointFrom(points, id)| == |points| - 1
  {
    if |points| > 2 {
      var keep := PointOtherThan(id);
      forall i, j | 0 <= i < j < |points| && !keep(points[i]) ensures keep(points[j]) {
        assert points[i].id != points[j].id;
      }
      FilterDropsAtMostOne(points, keep);
      if exists k :: 0 <= k < |points| && points[k].id == id {
        var k :| 0 <= k < |points| && points[k].id == id;
        assert !keep(points[k]);
      }
    }
  }

  // ---------------------------------------------------------------------
  // The image queue and the active preview
  // ---------------------------------------------------------------------

  /** A fresh queue item: IDLE, nothing converted yet, with the file's size
      and the measured dimensions. */
  function NewImageFile(file: File, id: string, dims: Dimensions): ImageFile {
    ImageFile(id, file, Idle, None, file.size, None, dims.width, dims.height)
  }

  /** The items `handleFilesAdded` appends, one per file, in input order. */
  function AddedFiles(newFiles: seq<File>, ids: seq<string>, measure: File -> Dimensions): (r: seq<ImageFile>)
    requires |ids| == |newFiles|
    ensures |r| == |newFiles|
    ensures forall k :: 0 <= k < |r| ==>
      r[k].id == ids[k] && r[k].file == newFiles[k] && r[k].status == Idle
      && r[k].convertedBlob.None? && r[k].originalSize == newFiles[k].size
      && r[k].convertedSize.None?
      && r[k].width == measure(newFiles[k]).width && r[k].height == measure(newFiles[k]).height
  {
    seq(|newFiles|, k requires 0 <= k < |newFiles| => NewImageFile(newFiles[k], ids[k], measure(newFiles[k])))
  }

  /** `!activePreviewId`: no id, or the empty string. */
  predicate Falsy(active: Option<string>) {
    active.None? || active.value == ""
  }

  /** The active preview after adding: the first item of the whole list when
      none was active, otherwise unchanged. */
  function ActiveAfterAdd(active: Option<string>, updated: seq<ImageFile>): Option<string> {
    if Falsy(active) && |updated| > 0 then Some(updated[0].id) else active
  }

  /** The filter of `handleRemoveFile`. */
  function FileOtherThan(id: string): ImageFile -> bool {
    (f: ImageFile) => f.id != id
  }

  /** The active preview after removing `id` from the list, leaving
      `remaining`: the first remaining item (or none) when the removed item
      was the active one, otherwise unchanged. */
  function ActiveAfterRemove(active: Option<string>, id: string, remaining: seq<ImageFile>): Option<string> {
    if active == Some(id) then (if |remaining| > 0 then Some(remaining[0].id) else None) else active
  }

  /** The active preview is unset or names an item of the list. */
  predicate ActiveNamesItem(active: Option<string>, files: seq<ImageFile>) {
    active.None? || exists k :: 0 <= k < |files| && files[k].id == active.value
  }

  /** Adding files keeps the active preview pointing into the list, and a
      list that was empty with no preview gets its first new item as preview. */
  lemma AddKeepsActiveValid(files: seq<ImageFile>, added: seq<ImageFile>, active: Option<string>)
    requires ActiveNamesItem(active, files)
    ensures ActiveNamesItem(ActiveAfterAdd(active, files + added), files + added)
    ensures Falsy(active) && |files + added| > 0 ==>
      ActiveAfterAdd(active, files + added) == Some((files + added)[0].id)
  {
    if !(Falsy(active) && |files + added| > 0) && active.Some? {
      var k :| 0 <= k < |files| && files[k].id == active.value;
      assert (files + added)[k] == files[k];
    }
  }

  /** Removing a file drops exactly the items with that id, keeps the others
      in order, and leaves the active preview pointing into the list. */
  lemma RemoveKeepsActiveValid(files: seq<ImageFile>, id: string, active: Option<string>)
    requires ActiveNamesItem(active, files)
    ensures var remaining := Filter(files, FileOtherThan(id));
      ActiveNamesItem(ActiveAfterRemove(active, id, remaining), remaining)
      && (forall k :: 0 <= k < |remaining| ==> remaining[k].id != id)
      && (forall k :: 0 <= k < |files| && files[k].id != id ==> files[k] in remaining)
  {
    var remaining := Filter(files, FileOtherThan(id));
    assert forall k :: 0 <= k < |remaining| ==> remaining[k] in remaining;
    assert forall k :: 0 <= k < |files| ==> files[k] in files;
    if active.Some? && active.value != id {
      var k :| 0 <= k < |files| && files[k].id == active.value;
      assert FileOtherThan(id)(files[k]);
      var j :| 0 <= j < |remaining| && remaining[j] == files[k];
    }
  }

  // ---------------------------------------------------------------------
  // The batch
  // ---------------------------------------------------------------------

  /** No two queue items share an id. */
  predicate UniqueIds(files: seq<ImageFile>) {
    forall i, j :: 0 <= i < j < |files| ==> files[i].id != files[j].id
  }

  /** The final status of an item from its conversion outcome. */
  function SettledStatus(outcome: Result<Blob, ImageHelper.ImageError>): ConversionStatus {
    if outcome.Ok? then Completed else Error
  }

  /** An item once its conversion has resolved (COMPLETED, with the blob and
      its size) or rejected (ERROR, everything else kept). */
  function Settle(f: ImageFile, outcome: Result<Blob, ImageHelper.ImageError>): (r: ImageFile)
    ensures r.status == SettledStatus(outcome) && r.id == f.id && r.file == f.file
    ensures outcome.Ok? ==> r.convertedBlob == Some(outcome.value) && r.convertedSize == Some(outcome.value.Size())
    ensures outcome.Err? ==> r == f.(status := Error)
  {
    match outcome
    case Ok(blob) => f.(status := Completed, convertedBlob := Some(blob), convertedSize := Some(blob.Size()))
    case Err(_) => f.(status := Error)
  }

  /** The conversion of one item: `applyCurvesToImage` at its default quality. */
  function Outcome(f: ImageFile, lut: ImageHelper.Lut, canvas: ImageHelper.Canvas): Result<Blob, ImageHelper.ImageError> {
    ImageHelper.CurvesOutput(f.file, lut, ImageHelper.CURVES_QUALITY, canvas)
  }

  /** Every item with the id gets the status. */
  function SetStatusById(files: seq<ImageFile>, id: string, status: ConversionStatus): (r: seq<ImageFile>)
    ensures |r| == |files|
  {
    seq(|files|, k requires 0 <= k < |files| => if files[k].id == id then files[k].(status := status) else files[k])
  }

  /** Every item with the id is settled with the outcome. */
  function SettleById(files: seq<ImageFile>, id: string, outcome: Result<Blob, ImageHelper.ImageError>): (r: seq<ImageFile>)
    ensures |r| == |files|
  {
    seq(|files|, k requires 0 <= k < |files| => if files[k].id == id then Settle(files[k], outcome) else files[k])
  }

  /** One turn of the batch loop for `item` of the snapshot: a COMPLETED item
      is skipped, any other is marked PROCESSING and then settled. */
  function BatchStep(files: seq<ImageFile>, item: ImageFile, lut: ImageHelper.Lut, canvas: ImageHelper.Canvas): seq<ImageFile> {
    if item.status == Completed then files
    else SettleById(SetStatusById(files, item.id, Processing), item.id, Outcome(item, lut, canvas))
  }

  /** The list after the loop has run over `todo`, in order. */
  function RunBatch(files: seq<ImageFile>, todo: seq<ImageFile>, lut: ImageHelper.Lut, canvas: ImageHelper.Canvas): (r: seq<ImageFile>)
    ensures |r| == |files|
  {
    if todo == [] then files
    else BatchStep(RunBatch(files, todo[..|todo| - 1], lut, canvas), todo[|todo| - 1], lut, canvas)
  }

  /** The status updates the loop makes over `todo`: for each item not
      already COMPLETED, PROCESSING and then its final status. */
  function BatchLog(todo: seq<ImageFile>, lut: ImageHelper.Lut, canvas: ImageHelper.Canvas): seq<(string, ConversionStatus)> {
    if todo == [] then []
    else
      var item := todo[|todo| - 1];
      BatchLog(todo[..|todo| - 1], lut, canvas)
      + (if item.status == Completed then []
         else [(item.id, Processing), (item.id, SettledStatus(Outcome(item, lut, canvas)))])
  }

  /** One more item of the snapshot is one more step of the fold and of the
      log. */
  lemma BatchUnfold(files: seq<ImageFile>, todo: seq<ImageFile>, i: nat, lut: ImageHelper.Lut, canvas: ImageHelper.Canvas)
    requires i < |todo|
    ensures RunBatch(files, todo[..i + 1], lut, canvas) == BatchStep(RunBatch(files, todo[..i], lut, canvas), todo[i], lut, canvas)
    ensures BatchLog(todo[..i + 1], lut, canvas) == BatchLog(todo[..i], lut, canvas)
      + (if todo[i].status == Completed then []
         else [(todo[i].id, Processing), (todo[i].id, SettledStatus(Outcome(todo[i], lut, canvas)))])
  {
    assert todo[..i + 1][..i] == todo[..i];
  }

  /** The items the batch works on: those not already COMPLETED. */
  predicate NotCompleted(f: ImageFile) { f.status != Completed }

  /** With distinct ids, after the loop has run over the first `i` items of
      the list, each of those items is settled unless it was COMPLETED, and
      every later item is untouched. */
  lemma {:induction false} BatchPrefix(files: seq<ImageFile>, i: nat, lut: ImageHelper.Lut, canvas: ImageHelper.Canvas)
    requires UniqueIds(files) && i <= |files|
    ensures forall k :: 0 <= k < |files| ==>
      RunBatch(files, files[..i], lut, canvas)[k]
        == if k < i && files[k].status != Completed then Settle(files[k], Outcome(files[k], lut, canvas)) else files[k]
  {
    if i > 0 {
      BatchPrefix(files, i - 1, lut, canvas);
      assert files[..i][..i - 1] == files[..i - 1];
      var prev := RunBatch(files, files[..i - 1], lut, canvas);
      var item := files[i - 1];
      forall k | 0 <= k < |files|
        ensures RunBatch(files, files[..i], lut, canvas)[k]
          == if k < i && files[k].status != Completed then Settle(files[k], Outcome(files[k], lut, canvas)) else files[k]
      {
        assert prev[k].id == files[k].id;
        if k != i - 1 {
          assert files[k].id != item.id;
        }
      }
    }
  }

  /** `applyBatch` over a list with distinct ids: COMPLETED items are left
      untouched and every other item ends COMPLETED with its blob and size
      or ERROR, whatever happened to the items before it. */
  lemma BatchResult(files: seq<ImageFile>, lut: ImageHelper.Lut, canvas: ImageHelper.Canvas)
    requires UniqueIds(files)
    ensures var r := RunBatch(files, files, lut, canvas);
      forall k :: 0 <= k < |files| ==>
        (files[k].status == Completed ==> r[k] == files[k])
        && (files[k].status != Completed ==> r[k] == Settle(files[k], Outcome(files[k], lut, canvas)))
        && (r[k].status == Completed || r[k].status == Error)
  {
    BatchPrefix(files, |files|, lut, canvas);
    assert files[..|files|] == files;
  }

  /** The status updates come in pairs, one pair per item not already
      COMPLETED, in list order: first PROCESSING, then COMPLETED or ERROR. */
  lemma {:induction false} BatchLogOrder(todo: seq<ImageFile>, lut: ImageHelper.Lut, canvas: ImageHelper.Canvas)
    ensures var pending := Filter(todo, NotCompleted);
      var log := BatchLog(todo, lut, canvas);
      |log| == 2 * |pending|
      && forall i :: 0 <= i < |pending| ==>
        log[2 * i] == (pending[i].id, Processing)
        && log[2 * i + 1] == (pending[i].id, SettledStatus(Outcome(pending[i], lut, canvas)))
  {
    if todo != [] {
      var init, item := todo[..|todo| - 1], todo[|todo| - 1];
      BatchLogOrder(init, lut, canvas);
      assert todo == init + [item];
      FilterAppend(init, [item], NotCompleted);
      assert Filter([item], NotCompleted) == if NotCompleted(item) then [item] else [];
    }
  }

  // ---------------------------------------------------------------------
  // Archive entry names
  // ---------------------------------------------------------------------

  function LowerAscii(c: char): char {
    if 'A' <= c <= 'Z' then (c as int + 32) as char else c
  }

  function LowerAsciiString(s: string): (r: string)
    ensures |r| == |s| && forall k :: 0 <= k < |s| ==> r[k] == LowerAscii(s[k])
  {
    seq(|s|, k requires 0 <= k < |s| => LowerAscii(s[k]))
  }

  /** `name` ends with `ext`, letters compared without regard to case. */
  predicate EndsWithIgnoringCase(name: string, ext: string) {
    |name| >= |ext| && LowerAsciiString(name[|name| - |ext|..]) == ext
  }

  predicate HasImageExtension(name: string) {
    EndsWithIgnoringCase(name, ".png") || EndsWithIgnoringCase(name, ".jpg") || EndsWithIgnoringCase(name, ".jpeg")
  }

  /** The name without a trailing `.png`, `.jpg` or `.jpeg` in any case
      (`/\.(png|jpe?g)$/i` replaced by nothing). */
  function StripImageExtension(name: string): string {
    if EndsWithIgnoringCase(name, ".png") || EndsWithIgnoringCase(name, ".jpg") then name[..|name| - 4]
    else if EndsWithIgnoringCase(name, ".jpeg") then name[..|name| - 5]
    else name
  }

  /** Stripping keeps a prefix of the name; it changes the name exactly when
      the name ends with one of the three extensions, and then what it drops
      is that extension. */
  lemma StripImageExtensionSpec(name: string)
    ensures StripImageExtension(name) <= name
    ensures StripImageExtension(name) == name <==> !HasImageExtension(name)
    ensures StripImageExtension(name) != name ==>
      LowerAsciiString(name[|StripImageExtension(name)|..]) in {".png", ".jpg", ".jpeg"}
  {
    var stem := StripImageExtension(name);
    if stem != name {
      assert name[|stem|..] == name[|name| - (|name| - |stem|)..];
    }
  }

  /** The archive name of a converted image. */
  function CurveOutputName(name: string): string {
    StripImageExtension(name) + "_curve.jpg"
  }

  /** Every archive name ends with `_curve.jpg` after a prefix of the
      original name. */
  lemma CurveOutputNameShape(name: string)
    ensures var r := CurveOutputName(name);
      |r| >= 10 && r[|r| - 10..] == "_curve.jpg" && r[..|r| - 10] <= name
  {
    var stem := StripImageExtension(name);
    StripImageExtensionSpec(name);
    var r := stem + "_curve.jpg";
    assert r[..|r| - 10] == stem;
    assert r[|r| - 10..] == "_curve.jpg";
  }

  /** The image extension goes whatever its case. */
  lemma UpperCaseExtensionStripped()
    ensures CurveOutputName("shot.PNG") == "shot_curve.jpg"
  {
    assert LowerAsciiString("shot.PNG"[4..]) == ".png";
  }

  /** `.jpeg` is matched as well as `.jpg`. */
  lemma LongJpegExtensionStripped()
    ensures CurveOutputName("a.JpEg") == "a_curve.jpg"
  {
    assert LowerAsciiString("a.JpEg"[2..])[0] == 'j';
    assert LowerAsciiString("a.JpEg"[1..]) == ".jpeg";
  }

  /** Any other extension is kept in front of the suffix. */
  lemma OtherExtensionKept()
    ensures CurveOutputName("b.webp") == "b.webp_curve.jpg"
  {
    assert !HasImageExtension("b.webp") by {
      assert LowerAsciiString("b.webp"[2..])[0] == 'w';
      assert LowerAsciiString("b.webp"[1..])[1] == 'w';
    }
  }

  /** Only the last extension counts. */
  lemma OnlyLastExtensionStripped()
    ensures CurveOutputName("c.png.jpg") == "c.png_curve.jpg"
  {
    assert LowerAsciiString("c.png.jpg"[5..])[1] == 'j';
    assert LowerAsciiString("c.png.jpg"[5..]) == ".jpg";
  }

  /** An item that goes into the archive: COMPLETED and holding a blob. */
  predicate Exportable(f: ImageFile) {
    f.status == Completed && f.convertedBlob.Some?
  }

  /** The archive entry of an exportable item. */
  function EntryOf(f: ImageFile): ZipEntry
    requires Exportable(f)
  {
    ZipEntry(CurveOutputName(f.file.name), f.convertedBlob.value)
  }

  /** The entries of exportable items, in order. */
  function EntriesOf(done: seq<ImageFile>): (r: seq<ZipEntry>)
    requires forall k :: 0 <= k < |done| ==> Exportable(done[k])
    ensures |r| == |done|
  {
    seq(|done|, i requires 0 <= i < |done| => EntryOf(done[i]))
  }

  /** The archive `downloadZip` builds: nothing when no item is exportable,
      otherwise the entries of the exportable items, in list order. */
  function CurveZipEntries(files: seq<ImageFile>): (r: Option<seq<ZipEntry>>)
    ensures r.None? <==> forall k :: 0 <= k < |files| ==> !Exportable(files[k])
  {
    var done := Filter(files, Exportable);
    if |done| == 0 then None
    else assert done[0] in files; Some(EntriesOf(done))
  }

  /** Every entry of the archive is the entry of an exportable item, and
      every exportable item has its entry in the archive. */
  lemma ZipHoldsExactlyTheExportable(files: seq<ImageFile>)
    requires CurveZipEntries(files).Some?
    ensures var entries := CurveZipEntries(files).value;
      (forall i :: 0 <= i < |entries| ==>
         exists k :: 0 <= k < |files| && Exportable(files[k]) && entries[i] == EntryOf(files[k]))
      && (forall k :: 0 <= k < |files| && Exportable(files[k]) ==> EntryOf(files[k]) in entries)
  {
    var done := Filter(files, Exportable);
    var entries := CurveZipEntries(files).value;
    assert entries == EntriesOf(done);
    forall i | 0 <= i < |entries|
      ensures exists k :: 0 <= k < |files| && Exportable(files[k]) && entries[i] == EntryOf(files[k])
    {
      assert done[i] in done;
      var k :| 0 <= k < |files| && files[k] == done[i];
      assert entries[i] == EntryOf(files[k]);
    }
    forall k | 0 <= k < |files| && Exportable(files[k]) ensures EntryOf(files[k]) in entries {
      assert files[k] in files;
      var i :| 0 <= i < |done| && done[i] == files[k];
      assert entries[i] == EntryOf(files[k]);
    }
  }

  // ---------------------------------------------------------------------
  // The hook's state
  // ---------------------------------------------------------------------

  /** The state `useImageCurves` keeps: the queue, the control points, the
      active preview and the busy flag. `statusLog` records, for the proofs,
      every status update the batch makes, in order. */
  class CurvesSession {
    var files: seq<ImageFile>
    var points: seq<CurvePoint>
    var activePreviewId: Option<string>
    var isProcessing: bool
    ghost var statusLog: seq<(string, ConversionStatus)>

    /** A fresh editor: empty queue, points from storage or the defaults. */
    constructor (stored: StoredPoints)
      ensures files == [] && points == InitialPoints(stored)
      ensures activePreviewId == None && !isProcessing && statusLog == []
    {
      files := [];
      points := InitialPoints(stored);
      activePreviewId := None;
      isProcessing := false;
      statusLog := [];
    }

    /** `handleFilesAdded`: ids come from `generateId`, sizes from
        `getImageDimensions`. */
    method HandleFilesAdded(newFiles: seq<File>, ids: seq<string>, measure: File -> Dimensions)
      requires |ids| == |newFiles|
      modifies this
      ensures files == old(files) + AddedFiles(newFiles, ids, measure)
      ensures activePreviewId == ActiveAfterAdd(old(activePreviewId), files)
      ensures points == old(points) && isProcessing == old(isProcessing) && statusLog == old(statusLog)
    {
      files := files + AddedFiles(newFiles, ids, measure);
      activePreviewId := ActiveAfterAdd(activePreviewId, files);
    }

    method HandleRemoveFile(id: string)
      modifies this
      ensures files == Filter(old(files), FileOtherThan(id))
      ensures activePreviewId == ActiveAfterRemove(old(activePreviewId), id, files)
      ensures points == old(points) && isProcessing == old(isProcessing) && statusLog == old(statusLog)
    {
      files := Filter(files, FileOtherThan(id));
      activePreviewId := ActiveAfterRemove(activePreviewId, id, files);
    }

    /** `addPoint`; the id comes from `generateId`. */
    method AddPoint(id: string, x: int, y: int)
      modifies this
      ensures points == AddPointTo(old(points), id, x, y)
      ensures files == old(files) && activePreviewId == old(activePreviewId)
      ensures isProcessing == old(isProcessing) && statusLog == old(statusLog)
    {
      if TooClose(points, x) {
        return;
      }
      points := SortByX(points + [CurvePoint(id, x, y)]);
    }

    method UpdatePoint(id: string, x: int, y: int)
      modifies this
      ensures points == UpdatePointIn(old(points), id, x, y)
      ensures files == old(files) && activePreviewId == old(activePreviewId)
      ensures isProcessing == old(isProcessing) && statusLog == old(statusLog)
    {
      points := UpdatePointIn(points, id, x, y);
    }

    method RemovePoint(id: string)
      modifies this
      ensures points == RemovePointFrom(old(points), id)
      ensures files == old(files) && activePreviewId == old(activePreviewId)
      ensures isProcessing == old(isProcessing) && statusLog == old(statusLog)
    {
      if |points| <= 2 {
        return;
      }
      points := Filter(points, PointOtherThan(id));
    }

    method ResetCurves()
      modifies this
      ensures points == DEFAULT_POINTS
      ensures files == old(files) && activePreviewId == old(activePreviewId)
      ensures isProcessing == old(isProcessing) && statusLog == old(statusLog)
    {
      points := DEFAULT_POINTS;
    }

    /** `applyBatch` with the table computed from the points: the loop runs
        over the list as it was when the batch started, one item at a time,
        and updates items by id. */
    method ApplyBatch(lut: ImageHelper.Lut, canvas: ImageHelper.Canvas)
      requires Interpolable(points) && lut == CurveLut(points)
      modifies this
      ensures files == RunBatch(old(files), old(files), lut, canvas)
      ensures statusLog == old(statusLog) + BatchLog(old(files), lut, canvas)
      ensures !isProcessing
      ensures points == old(points) && activePreviewId == old(activePreviewId)
    {
      isProcessing := true;
      var snapshot := files;
      var i := 0;
      while i < |snapshot|
        invariant 0 <= i <= |snapshot|
        invariant files == RunBatch(snapshot, snapshot[..i], lut, canvas)
        invariant statusLog == old(statusLog) + BatchLog(snapshot[..i], lut, canvas)
        invariant points == old(points) && activePreviewId == old(activePreviewId)
      {
        BatchUnfold(snapshot, snapshot, i, lut, canvas);
        ProcessItem(snapshot[i], lut, canvas);
        i := i + 1;
      }
      assert snapshot[..i] == snapshot;
      isProcessing := false;
    }

    /** One turn of the batch loop: an item not already COMPLETED is marked
        PROCESSING, converted, and settled by id. */
    method ProcessItem(item: ImageFile, lut: ImageHelper.Lut, canvas: ImageHelper.Canvas)
      modifies this
      ensures files == BatchStep(old(files), item, lut, canvas)
      ensures statusLog == old(statusLog)
        + (if item.status == Completed then []
           else [(item.id, Processing), (item.id, SettledStatus(Outcome(item, lut, canvas)))])
      ensures points == old(points) && activePreviewId == old(activePreviewId)
      ensures isProcessing == old(isProcessing)
    {
      if item.status != Completed {
        files := SetStatusById(files, item.id, Processing);
        statusLog := statusLog + [(item.id, Processing)];
        var outcome := ImageHelper.ApplyCurvesToImage(item.file, lut, ImageHelper.CURVES_QUALITY, canvas);
        files := SettleById(files, item.id, outcome);
        statusLog := statusLog + [(item.id, SettledStatus(outcome))];
      }
    }

    /** The entries `downloadZip` puts in the archive, or None when it
        returns early. */
    method DownloadZip() returns (entries: Option<seq<ZipEntry>>)
      ensures entries == CurveZipEntries(files)
    {
      var all := files;
      var done := Filter(all, Exportable);
      if |done| == 0 {
        return None;
      }
      assert forall j :: 0 <= j < |done| ==> Exportable(done[j]) by {
        forall j | 0 <= j < |done| ensures Exportable(done[j]) {
          assert done[j] in done;
        }
      }
      ghost var want := EntriesOf(done);
      var names: seq<ZipEntry> := [];
      for i := 0 to |done|
        invariant names == want[..i]
      {
        assert want[..i + 1] == want[..i] + [want[i]];
        names := names + [EntryOf(done[i])];
      }
      assert want[..|done|] == want;
      entries := Some(names);
    }
  }
}
