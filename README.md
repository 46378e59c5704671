# PNG2JPG-BatchBox core, modelled in Dafny

BatchBox is a browser application that batches images. The user draws a
tone curve through a few control points. The curve is turned into a
256-entry lookup table (LUT), and every queued image is pushed through that
table and re-encoded as JPEG. A second tool crops images into squares, one
layer per image. A drop zone feeds both tools with files, either dropped
images or whole folders that it walks recursively.

This project models the parts of the application that hold its logic:

- `curve_algorithms.dfy` (module `CurveAlgorithms`): `generateCurveLUT`. It
  sorts the points by x, falls back to the identity table below two points,
  computes secants and tangents (zero at a turn or a flat segment, the mean
  of the two neighbouring secants otherwise), and samples the cubic Hermite
  curve at each of the 256 levels with `Math.round` and a clamp to [0, 255].
  The source's loops are methods proved equal to specification functions,
  and the promised properties of the table are lemmas about those functions.
- `image_helper.dfy` (module `ImageHelper`): the pixel pass of
  `applyCurvesToImage`, an in-place loop over an `array<int>` proved to
  compute `MapPixels`. Also its reject paths (no image, no 2D context, null
  blob), and the target size and reject paths of `convertImageToJpg`. The
  browser (loading, drawing, `toBlob`) is a `Canvas` value of oracle
  functions that the routines consult.
- `image_curves.dfy` (module `ImageCurves`): the `useImageCurves` hook as
  a class `CurvesSession` whose fields are the hook's state. This covers the
  initial points, `addPoint`, `updatePoint`, `removePoint`, `resetCurves`,
  adding and removing files with the active preview id, the sequential
  `applyBatch` with its status updates, and the entries `downloadZip` puts
  in the archive.
- `layer_cropper.dfy` (module `LayerCropper`): the `useLayerCropper` hook as
  a class `LayerSession`. This covers the active layer lookup, adding
  layers, patching the active layer, removing a layer, and the `exportAll`
  loop with its `_square.jpg` names. Rendering one layer is an oracle
  parameter.
- `dropzone.dfy` (module `Dropzone`): the type check of
  `validateAndAddFiles`, the paging loop of `readAllEntries`, the recursive
  `traverseFileTree` with the relative paths it patches in, and the
  branches of `handleDrop`.
- `types.dfy` and `common.dfy`: the shared records, `Option`/`Result`, and
  an order-preserving `Filter` with its lemmas.

A level at or outside the end points takes that end point's y as it is,
neither rounded nor clamped. Level 255 is therefore "at or above the last
x", not the last segment's right end, and the table lies in [0, 255] only
when every y does (`LutInRange`). Loading fails with one error, whether the
file reader or the image fails; a missing 2D context is its own error, and
a null blob is an encoding error.

`updatePoint` clamps x and sorts again, but it does not reject a point that
lands on the x of another point. Two points with the same x make the source
divide by zero when it computes the secants. The model states this as
lemmas (`UpdatePointOntoOccupiedX`, `UpdatePointCanCollide`): it does not
guess at a fix, because the source states no intended behaviour for it.
`addPoint` and `removePoint` cannot produce such a pair (they keep the
curve computable).

The curve routine is described in its source as a monotonic cubic spline,
but its interior tangent is the plain mean of the neighbouring secants.
`monotone_curve.dfy` (module `MonotoneCurve`) shows rising points on which
the table falls, and proves that the tangents limited as the monotone
cubic of Fritsch–Carlson and Hyman requires (at most three times the smaller
secant) give a table that never decreases. The rest of the model keeps the
table as written.

## Model

| member | source | states |
|---|---|---|
| CurveAlgorithms.SortByX | utils/curveAlgorithms.ts:10 | the sorted copy is a permutation of the points (same multiset, same length) ordered by x |
| CurveAlgorithms.InsertKeepsSorted | utils/curveAlgorithms.ts:10 | inserting one point into an x-sorted list keeps it x-sorted |
| CurveAlgorithms.DistinctSortsStrictly | utils/curveAlgorithms.ts:10-18 | points with pairwise distinct x sort into strictly increasing x, so every secant's run is non-zero |
| CurveAlgorithms.SortedPermutationsEqual | utils/curveAlgorithms.ts:10 | two x-sorted arrangements of the same points with distinct x are the same sequence |
| CurveAlgorithms.LutIgnoresOrder | utils/curveAlgorithms.ts:8-100 | the table depends only on the set of points, not on the order they are listed in |
| CurveAlgorithms.Secants | utils/curveAlgorithms.ts:34-44 | one slope per adjacent pair, each satisfying slope times run equals rise |
| CurveAlgorithms.ComputeSecants | utils/curveAlgorithms.ts:34-44 | the differences-and-slopes loops compute exactly `Secants` |
| CurveAlgorithms.TangentsRule | utils/curveAlgorithms.ts:47-56 | the end tangents are the end secants; an interior tangent is 0 when the neighbouring secants' product is at most 0 and their mean otherwise |
| CurveAlgorithms.ComputeTangents | utils/curveAlgorithms.ts:47-56 | the tangent loop computes exactly `Tangents` |
| CurveAlgorithms.Tangents | utils/curveAlgorithms.ts:47-56 | one tangent per knot, one more than the secants; its entries are stated by `TangentsRule` |
| CurveAlgorithms.InteriorTangentBetween | utils/curveAlgorithms.ts:47-56 | an interior tangent never opposes either neighbouring secant, is 0 exactly at a turn or flat, and otherwise lies between the two secants |
| CurveAlgorithms.TangentsOfRisingData | utils/curveAlgorithms.ts:34-56 | for non-decreasing y every tangent is non-negative |
| CurveAlgorithms.HermiteEnds | utils/curveAlgorithms.ts:76-91 | the segment polynomial takes the left knot's y at t = 0 and the right knot's y at t = 1 |
| CurveAlgorithms.HermiteStraight | utils/curveAlgorithms.ts:76-91 | with both tangents equal to the secant the segment is the straight line between the knots |
| CurveAlgorithms.Hermite | utils/curveAlgorithms.ts:75-91 | the cubic Hermite segment with the four basis polynomials; its end values are stated by `HermiteEnds` and `HermiteStraight` |
| CurveAlgorithms.Round | utils/curveAlgorithms.ts:92 | `Math.round` gives the integer within one half below and less than one half above |
| CurveAlgorithms.ClampByte | utils/curveAlgorithms.ts:92 | the result is in [0, 255], equals the input inside that range, and is the near bound outside it |
| CurveAlgorithms.SegmentContains | utils/curveAlgorithms.ts:68-73 | inside the span of strictly increasing knots the search finds the segment whose ends enclose the level |
| CurveAlgorithms.LevelValue | utils/curveAlgorithms.ts:62-93 | the end y at or beyond the end knots, otherwise the rounded, clamped Hermite value of the enclosing segment; `GetY` is proved to compute it |
| CurveAlgorithms.GetY | utils/curveAlgorithms.ts:62-93 | the bounds checks, search loop and Hermite evaluation give `LevelValue` at the level |
| CurveAlgorithms.SampleLevels | utils/curveAlgorithms.ts:95-97 | the sampling loop fills all 256 entries, each with the curve's value at that level |
| CurveAlgorithms.GenerateCurveLut | utils/curveAlgorithms.ts:8-100 | the whole routine returns `CurveLut(points)` |
| CurveAlgorithms.CurveLut | utils/curveAlgorithms.ts:8-100 | a table of exactly 256 entries: the identity below two sorted points, otherwise the curve sampled at every level |
| CurveAlgorithms.DistinctIsInterpolable | utils/curveAlgorithms.ts:10-44 | points with distinct x are a valid input of the table |
| CurveAlgorithms.FewPointsGiveIdentity | utils/curveAlgorithms.ts:21-26 | with fewer than two points every level maps to itself |
| CurveAlgorithms.LowestIsFirst | utils/curveAlgorithms.ts:10 | the point with the smallest x comes first after sorting |
| CurveAlgorithms.HighestIsLast | utils/curveAlgorithms.ts:10 | the point with the largest x comes last after sorting |
| CurveAlgorithms.BelowSpanIsFirstY | utils/curveAlgorithms.ts:65 | every level at or below the lowest point's x maps to that point's y |
| CurveAlgorithms.AboveSpanIsLastY | utils/curveAlgorithms.ts:66 | every level at or above the highest point's x maps to that point's y |
| CurveAlgorithms.LutInRange | utils/curveAlgorithms.ts:62-97 | when every point's y is in [0, 255], every table entry is in [0, 255] |
| CurveAlgorithms.LevelValueAtKnot | utils/curveAlgorithms.ts:68-92 | at an interior knot's x the curve value is that knot's y, clamped |
| CurveAlgorithms.LutThroughPoint | utils/curveAlgorithms.ts:62-97 | the table passes through every control point whose x and y are levels |
| CurveAlgorithms.TwoPointsAreLinear | utils/curveAlgorithms.ts:8-100 | between two points the table is the rounded straight line through them |
| MonotoneCurve.RisingPointsCanDip | utils/curveAlgorithms.ts:5 | the rising points (0,100), (10,110), (20,255) give a table with 100 at level 0 and 97 at level 5, so the table as written is not monotone |
| MonotoneCurve.OpposedIsSignOfProduct | utils/curveAlgorithms.ts:49 | two secants are opposed (one at most 0, the other at least 0) exactly when their product is at most 0 |
| MonotoneCurve.LimitedTangent | utils/curveAlgorithms.ts:49-54 | 0 at a turn or flat; otherwise of the secants' sign, no steeper than their mean and at most three times the smaller one |
| MonotoneCurve.LimitedWithinInterior | utils/curveAlgorithms.ts:49-54 | the limited tangent lies between 0 and the source's tangent, and equals it whenever the mean is within three times the smaller secant |
| MonotoneCurve.LimitedTangents | utils/curveAlgorithms.ts:47-56 | one tangent per knot: the end secants at the ends, `LimitedTangent` of the neighbouring secants inside |
| MonotoneCurve.HermiteRises | utils/curveAlgorithms.ts:75-91 | a rising segment whose scaled tangents are non-negative and at most three times the rise never decreases in t |
| MonotoneCurve.HermiteBetween | utils/curveAlgorithms.ts:75-91 | such a segment stays between its two end values |
| MonotoneCurve.LimitedLevelsRise | utils/curveAlgorithms.ts:62-97 | with limited tangents, rising byte-valued knots give curve values that never decrease with the level |
| MonotoneCurve.LimitedLutRises | utils/curveAlgorithms.ts:5-100 | with limited tangents, control points whose y rises with x and stays in [0, 255] give a table that never decreases |
| MonotoneCurve.LimitedLutKeepsDipPointsRising | utils/curveAlgorithms.ts:5-100 | on the points where the table as written dips, the limited table does not |
| ImageHelper.StoreByte | utils/imageHelper.ts:106-108 | a store into the clamped pixel array keeps a byte and clamps anything else into [0, 255] |
| ImageHelper.MapPixels | utils/imageHelper.ts:104-110 | the buffer keeps its length and stays RGBA bytes; its per-channel effect is stated by `MapPixelsChannels` |
| ImageHelper.ApplyLutInPlace | utils/imageHelper.ts:104-110 | the in-place loop leaves the buffer equal to `MapPixels` of its old contents |
| ImageHelper.MapPixelsChannels | utils/imageHelper.ts:105-109 | alpha is unchanged; R, G and B of each pixel become the table entry of their old value as the clamped array stores it, which is that entry itself when it is a byte |
| ImageHelper.IdentityLutKeepsPixels | utils/imageHelper.ts:104-110 | the identity table leaves the pixels as they were |
| ImageHelper.MapPixelsSplits | utils/imageHelper.ts:104-110 | the pass over two pixel runs laid end to end is the two passes laid end to end |
| ImageHelper.MapPixelsIsPerPixel | utils/imageHelper.ts:104-110 | each output pixel depends only on the same input pixel |
| ImageHelper.CurvesOutput | utils/imageHelper.ts:81-123 | the conversion succeeds exactly when the image loads, a context exists and the mapped pixels encode |
| ImageHelper.ApplyCurvesToImage | utils/imageHelper.ts:81-123 | load, context check, in-place pass and encode give `CurvesOutput`, with no partial output on any reject |
| ImageHelper.IdentityCurvesEncodesOriginal | utils/imageHelper.ts:99-117 | with the identity table the encoder receives the decoded pixels unchanged |
| ImageHelper.TargetSize | utils/imageHelper.ts:35-37 | the size is at least 1, otherwise the floor of dimension times scale (a zero scale counting as 1) |
| ImageHelper.TargetSizeBounds | utils/imageHelper.ts:35-37 | a zero scale keeps the original size (at least 1) and a scale of at most 1 never enlarges |
| ImageHelper.ConvertImageToJpg | utils/imageHelper.ts:24-76 | load failure and missing context reject with their errors; otherwise a null blob rejects with the encoding error and a blob is the result, the encoding of the image drawn on the fill colour at the target size |
| ImageCurves.InitialPoints | hooks/useImageCurves.ts:24-37 | a stored array of at least two points is used as it is, anything else gives the default two points |
| ImageCurves.DefaultCurveIsIdentity | hooks/useImageCurves.ts:9-12 | the default points (0,0) and (255,255) give the identity table |
| ImageCurves.AddPointTo | hooks/useImageCurves.ts:113-117 | a point within 4 levels of an existing x changes nothing; otherwise the result is the old points plus the new one, sorted by x |
| ImageCurves.AddPointKeepsCurveDefined | hooks/useImageCurves.ts:113-117 | adding a point keeps the table computable, with strictly increasing x when the point is added |
| ImageCurves.UpdatePointIn | hooks/useImageCurves.ts:119-124 | the result is a permutation of the points with the named one moved, sorted by x |
| ImageCurves.UpdatePointEffect | hooks/useImageCurves.ts:119-124 | other points are kept unchanged; the named point keeps its id and gets x and y clamped to [0, 255] |
| ImageCurves.UpdatePointOntoOccupiedX | hooks/useImageCurves.ts:119-124 | moving a point onto the clamped x of another point leaves a point set whose table divides by zero |
| ImageCurves.UpdatePointCanCollide | hooks/useImageCurves.ts:119-124 | from a valid three-point curve, dragging the middle point below 0 collides it with the first point |
| ImageCurves.RemovePointFrom | hooks/useImageCurves.ts:126-129 | two points or fewer are kept; otherwise the points without the id remain, in their order, and no other point |
| ImageCurves.RemovePointKeepsCurveDefined | hooks/useImageCurves.ts:126-129 | removing a point keeps the table computable |
| ImageCurves.RemovePointLeavesTwo | hooks/useImageCurves.ts:126-129 | with unique ids at least two points always remain, and an existing point is removed one for one |
| ImageCurves.AddedFiles | hooks/useImageCurves.ts:55-69 | one IDLE item per new file with its id, file and size, no converted blob or size, and the width and height measured from that file |
| ImageCurves.ActiveAfterAdd | hooks/useImageCurves.ts:70-76 | the first item of the whole list when no preview was active and the list is non-empty, otherwise unchanged; stated by `AddKeepsActiveValid` |
| ImageCurves.AddKeepsActiveValid | hooks/useImageCurves.ts:70-76 | after adding, the active preview id still names an item, and the first item becomes active when none was |
| ImageCurves.ActiveAfterRemove | hooks/useImageCurves.ts:105-108 | when the removed id was active, the first remaining item or none; otherwise unchanged; stated by `RemoveKeepsActiveValid` |
| ImageCurves.RemoveKeepsActiveValid | hooks/useImageCurves.ts:99-111 | removing drops exactly the items with that id and leaves the active preview id naming an item or none |
| ImageCurves.Settle | hooks/useImageCurves.ts:137-150 | a success stores the blob and its size with status COMPLETED; a failure only sets ERROR |
| ImageCurves.BatchStep | hooks/useImageCurves.ts:136-150 | an item not COMPLETED is set PROCESSING and then settled by its id; a COMPLETED item changes nothing |
| ImageCurves.RunBatch | hooks/useImageCurves.ts:135-151 | the steps over the snapshot in order, keeping the list length; its result per item is stated by `BatchPrefix` and `BatchResult` |
| ImageCurves.BatchPrefix | hooks/useImageCurves.ts:135-151 | with distinct ids, after the first i items of the snapshot, those not COMPLETED are settled by their own outcome and the rest are unchanged |
| ImageCurves.BatchResult | hooks/useImageCurves.ts:133-154 | with distinct ids, COMPLETED items are left alone and every other item ends COMPLETED or ERROR according to its conversion |
| ImageCurves.BatchLogOrder | hooks/useImageCurves.ts:135-151 | status updates come in pairs per pending item in list order: PROCESSING, then its final status |
| ImageCurves.StripImageExtension | hooks/useImageCurves.ts:162 | drops a final `.png`, `.jpg` or `.jpeg` in any case; stated by `StripImageExtensionSpec` |
| ImageCurves.CurveOutputName | hooks/useImageCurves.ts:162 | the stem followed by `_curve.jpg`; stated by `CurveOutputNameShape` |
| ImageCurves.StripImageExtensionSpec | hooks/useImageCurves.ts:162 | the stem is a prefix of the name; it is shorter exactly when the name ends in .png, .jpg or .jpeg in any case, and only that ending is removed |
| ImageCurves.CurveOutputNameShape | hooks/useImageCurves.ts:162 | every archive name is a prefix of the original name followed by `_curve.jpg` |
| ImageCurves.UpperCaseExtensionStripped | hooks/useImageCurves.ts:162 | `shot.PNG` becomes `shot_curve.jpg` |
| ImageCurves.LongJpegExtensionStripped | hooks/useImageCurves.ts:162 | `a.JpEg` becomes `a_curve.jpg` |
| ImageCurves.OtherExtensionKept | hooks/useImageCurves.ts:162 | `b.webp` becomes `b.webp_curve.jpg` |
| ImageCurves.OnlyLastExtensionStripped | hooks/useImageCurves.ts:162 | `c.png.jpg` becomes `c.png_curve.jpg` |
| ImageCurves.CurveZipEntries | hooks/useImageCurves.ts:156-166 | there is no archive exactly when no item is COMPLETED with a blob |
| ImageCurves.ZipHoldsExactlyTheExportable | hooks/useImageCurves.ts:159-166 | every entry comes from a completed item, and every completed item's entry is in the archive |
| ImageCurves.CurvesSession.constructor | hooks/useImageCurves.ts:21-44 | no files, no active preview, not processing, points from `InitialPoints` |
| ImageCurves.CurvesSession.HandleFilesAdded | hooks/useImageCurves.ts:55-77 | the new items are appended and the active preview follows `ActiveAfterAdd`; nothing else changes |
| ImageCurves.CurvesSession.HandleRemoveFile | hooks/useImageCurves.ts:99-111 | the items with the id are filtered out and the active preview follows `ActiveAfterRemove` |
| ImageCurves.CurvesSession.AddPoint | hooks/useImageCurves.ts:113-117 | the points become `AddPointTo` of the old points; nothing else changes |
| ImageCurves.CurvesSession.UpdatePoint | hooks/useImageCurves.ts:119-124 | the points become `UpdatePointIn` of the old points; nothing else changes |
| ImageCurves.CurvesSession.RemovePoint | hooks/useImageCurves.ts:126-129 | the points become `RemovePointFrom` of the old points; nothing else changes |
| ImageCurves.CurvesSession.ResetCurves | hooks/useImageCurves.ts:131 | the points return to the default two points |
| ImageCurves.CurvesSession.ApplyBatch | hooks/useImageCurves.ts:133-154 | with the table of the current points, the files become `RunBatch` over the snapshot, the status updates are appended in `BatchLog` order, and processing ends |
| ImageCurves.CurvesSession.ProcessItem | hooks/useImageCurves.ts:136-150 | the files become `BatchStep` of the old files, and an item not COMPLETED appends PROCESSING and then its final status |
| ImageCurves.CurvesSession.DownloadZip | hooks/useImageCurves.ts:156-166 | the filter-and-name loop produces `CurveZipEntries` of the files |
| LayerCropper.FindFrom | hooks/useLayerCropper.ts:20 | the first index from `from` on with the id, or none when no later layer has it |
| LayerCropper.ActiveLayer | hooks/useLayerCropper.ts:20 | a layer is found exactly when an id is active and some layer has it, and it is the first such layer |
| LayerCropper.NewLayers | hooks/useLayerCropper.ts:22-43 | one layer per file at offset (0,0), with the cover scale and the measured size as both size and original size |
| LayerCropper.ActiveAfterAdd | hooks/useLayerCropper.ts:45-47 | the first new layer when no id was active and layers were added, otherwise unchanged; stated by `AddKeepsActiveValid` |
| LayerCropper.AddKeepsActiveValid | hooks/useLayerCropper.ts:44-47 | old layers keep their places, the active id still names a layer, and the first new layer's id becomes active when none was, and that layer is the active one when no old layer shares its id |
| LayerCropper.PatchLaws | hooks/useLayerCropper.ts:52 | a patch keeps id and file, an empty patch changes nothing, a patch applied twice equals applying it once, every given field is set and every absent field is kept |
| LayerCropper.Patch | hooks/useLayerCropper.ts:52 | `{ ...l, ...updates }`: each given field replaces the layer's; stated by `PatchLaws` |
| LayerCropper.UpdateLayers | hooks/useLayerCropper.ts:50-53 | with no active id nothing changes; otherwise exactly the layers with the active id are patched, and ids are kept |
| LayerCropper.UpdateReachesActiveLayer | hooks/useLayerCropper.ts:50-53 | after the update the active layer is the patched old active layer |
| LayerCropper.ActiveAfterRemove | hooks/useLayerCropper.ts:58-60 | when the removed id was active, the first remaining layer or none; otherwise unchanged; stated by `RemoveKeepsActiveValid` |
| LayerCropper.RemoveKeepsActiveValid | hooks/useLayerCropper.ts:55-63 | exactly the layers without the id remain, and the active id names a remaining layer or none |
| LayerCropper.TrailingPlainRun | hooks/useLayerCropper.ts:114 | the longest suffix free of `/` and `.`, preceded by one of them or the start of the name |
| LayerCropper.StripLastExtension | hooks/useLayerCropper.ts:114 | the stem is a prefix; it is shorter exactly when the name ends in a dot and a non-empty run free of `/` and `.`, and only that is removed |
| LayerCropper.LastExtensionIsUnique | hooks/useLayerCropper.ts:114 | at most one dot is followed by a run free of `/` and `.` to the end |
| LayerCropper.SquareOutputName | hooks/useLayerCropper.ts:114 | every name is a prefix of the file name followed by `_square.jpg` |
| LayerCropper.LastOfTwoExtensionsStripped | hooks/useLayerCropper.ts:114 | `photo.final.PNG` becomes `photo.final_square.jpg` |
| LayerCropper.DotInFolderKept | hooks/useLayerCropper.ts:114 | `a.b/doc` keeps its folder's dot |
| LayerCropper.TrailingDotKept | hooks/useLayerCropper.ts:114 | a name ending in a bare dot is kept whole |
| LayerCropper.SquareEntries | hooks/useLayerCropper.ts:79-116 | at most one entry per layer, in layer order; an entry comes from a layer exactly when that layer encodes (`SquareEntryFromRenderedLayer`, `RenderedLayerHasEntry`, `SquareEntriesAppend`) |
| LayerCropper.RenderedLayerHasEntry | hooks/useLayerCropper.ts:79-116 | every layer whose canvas encodes has its square name and blob in the archive, whatever the other layers give |
| LayerCropper.SquareEntriesAppend | hooks/useLayerCropper.ts:79-116 | the entries of two runs of layers laid end to end are those of each run, so the archive follows layer order |
| LayerCropper.SquareEntryFromRenderedLayer | hooks/useLayerCropper.ts:79-116 | every entry is the square name and rendered blob of some layer |
| LayerCropper.AllRenderedGivesEveryLayer | hooks/useLayerCropper.ts:79-116 | when every layer renders, entry k belongs to layer k |
| LayerCropper.NoneRenderedGivesNothing | hooks/useLayerCropper.ts:112-115 | when no layer renders the archive is empty |
| LayerCropper.LayerSession.constructor | hooks/useLayerCropper.ts:11-18 | no layers, no active id, not exporting |
| LayerCropper.LayerSession.Active | hooks/useLayerCropper.ts:20 | a layer is found exactly when an id is active and some layer of the session has it, and it is the first layer with that id |
| LayerCropper.LayerSession.HandleFilesAdded | hooks/useLayerCropper.ts:22-48 | the new layers are appended and the active id follows `ActiveAfterAdd` |
| LayerCropper.LayerSession.UpdateActiveLayer | hooks/useLayerCropper.ts:50-53 | the layers become `UpdateLayers` of the old layers under the active id |
| LayerCropper.LayerSession.RemoveLayer | hooks/useLayerCropper.ts:55-63 | the layer is filtered out and the active id follows `ActiveAfterRemove` |
| LayerCropper.LayerSession.ExportAll | hooks/useLayerCropper.ts:65-116 | no layers gives no archive; otherwise the loop yields `SquareEntries` of the layers and exporting ends |
| Dropzone.ValidateFiles | components/Dropzone.tsx:78-107 | no list does nothing; folder mode passes every file; image mode passes the accepted files in order when there are any, and raises the banner exactly when some file is refused |
| Dropzone.SortOutFiles | components/Dropzone.tsx:84-94 | the loop collects exactly the accepted files in order and flags exactly the presence of a refused one |
| Dropzone.ValidateAndAddFiles | components/Dropzone.tsx:78-107 | the imperative intake gives `ValidateFiles` |
| Dropzone.ReadAllEntries | components/Dropzone.tsx:39-52 | the paging loop gives `ReadAll` of the reader's pages |
| Dropzone.ReadAll | components/Dropzone.tsx:39-52 | the entries of the pages up to the first empty one, in order, or a rejection when a read fails first; stated by `ReadAllConcatenates` and `ReadAllStopsAtEmptyPage` |
| Dropzone.ReadAllConcatenates | components/Dropzone.tsx:39-52 | non-empty pages read without error give all their entries in order |
| Dropzone.ReadAllStopsAtEmptyPage | components/Dropzone.tsx:45-50 | pages after the first empty one are never read |
| Dropzone.Combine | components/Dropzone.tsx:71-73 | two scans combine to their files laid end to end, and reject when either rejects |
| Dropzone.CombineAssociative | components/Dropzone.tsx:71-73 | combining scans can be grouped either way |
| Dropzone.Traverse | components/Dropzone.tsx:55-76 | a file gives itself with its path patched in, or nothing when it cannot be read; a directory reads its pages and scans them; stated by `DirectoryReadsThenScans` and `TraversePathPrefix` |
| Dropzone.TraversePages | components/Dropzone.tsx:68-74 | a directory's pages scanned under its path, rejecting when a read rejects; stated by `PagesPathPrefix` |
| Dropzone.TraverseList | components/Dropzone.tsx:71-73 | the scans of a list of entries combined in order; stated by `TraverseListAppend` and `ListPathPrefix` |
| Dropzone.TraverseListAppend | components/Dropzone.tsx:71-73 | scanning a list laid end to end is combining the scans of each part |
| Dropzone.DirectoryReadsThenScans | components/Dropzone.tsx:68-74 | a directory reads all its entries first and then scans them, rejecting when a read rejects |
| Dropzone.TraversePathPrefix | components/Dropzone.tsx:55-76 | every file found under a path starts with it; a file entry's file gets exactly the path followed by the entry's name, and every file under a directory starts with the path, the directory's name and a slash |
| Dropzone.PagesPathPrefix | components/Dropzone.tsx:68-74 | the same for the entries of a directory's pages |
| Dropzone.ListPathPrefix | components/Dropzone.tsx:125-127 | every file found from a list of dropped entries starts with the path followed by the name of one of the listed file or directory entries |
| Dropzone.NestedPathExample | components/Dropzone.tsx:55-76 | a file two folders deep gets the relative path `outer/inner/a.png` |
| Dropzone.PresentEntries | components/Dropzone.tsx:118-120 | an entry is kept exactly when it is one of the non-null dropped items |
| Dropzone.PresentEntriesAppend | components/Dropzone.tsx:118-120 | the kept entries of two item lists laid end to end are the kept entries of each, in order |
| Dropzone.DropIntake | components/Dropzone.tsx:115-147 | with folder entries, a scan that rejects raises "failed to scan" and passes nothing, an empty scan raises "no files" and passes nothing, and a non-empty scan passes exactly its files with no banner; without them the list is validated |
| Dropzone.DropzoneState.constructor | components/Dropzone.tsx:17-19 | not highlighted, not scanning, no banner |
| Dropzone.DropzoneState.HandleDrop | components/Dropzone.tsx:109-148 | the highlight goes off; a drop while disabled or scanning is ignored; otherwise `DropIntake` decides what is passed on and which banner shows, and scanning ends |

## Findings

| source | as written | input that shows it | evidently intended | confidence | as-written member | corrected member |
|---|---|---|---|---|---|---|
| utils/curveAlgorithms.ts:5 | the interior tangent is the mean of the two neighbouring secants, with no limit, so a steep next segment can pull the curve below a knot | points (0,100), (10,110), (20,255): the table has 100 at level 0 and 97 at level 5 | a monotonic curve: rising points give a table that never decreases, with each interior tangent at most three times the smaller neighbouring secant | not executed | MonotoneCurve.RisingPointsCanDip | MonotoneCurve.LimitedLutRises |

## Left out

- Browser calls are oracle values or parameters. This covers `FileReader`, `Image` loading, canvas drawing, `toBlob`, `getImageDimensions`, `generateId` and `URL.createObjectURL`. Only their success or failure and their results are modelled.
- The ZIP library (`getZip`, `generateAsync`) and the download link are left out. The model stops at the list of `(name, blob)` entries handed to `zip.file`. A later entry with the same name overwriting an earlier one is not modelled.
- `localStorage` reads and writes are left out. The saved entry arrives already read and classified as a `StoredPoints` value: nothing stored, not JSON, not an array, or an array. The array's elements are not checked to be well-formed points.
- JavaScript doubles are modelled as exact reals and integers. The curve is computed without floating-point rounding; only `Math.round` and the clamp are modelled.
- CurveAlgorithms.GenerateCurveLut: requires that no two points share an x. With a shared x the source divides by zero, and the NaN or infinite values it then stores are not modelled. `UpdatePointOntoOccupiedX` shows that `updatePoint` can reach that state.
- Control points have integer coordinates: the editor passes rounded levels. Fractional x or y are not modelled.
- Asynchronous steps run in sequence. `Promise.all` is modelled in list order, and React's batching of state updates is modelled as immediate assignment.
- ImageCurves.BatchResult: ids are assumed distinct, here and in `BatchPrefix`. `generateId` is not part of this model, so nothing shown guarantees it. With a shared id the by-id updates also set a COMPLETED item that shares the id with a pending one to PROCESSING and settle it again.
- ImageCurves.CurvesSession.ApplyBatch: requires that no two points share an x, the precondition of `CurveLut`. `updatePoint` can reach such a state (`UpdatePointOntoOccupiedX`), and the source still runs the batch then, with NaN table entries that the clamped array stores as 0; that run is not modelled.
- ImageCurves.CurvesSession.ApplyBatch: edits to the file list made while a batch runs are not modelled. Only the snapshot semantics are modelled.
- LayerCropper.LayerSession.ExportAll: the export geometry (translate, scale, offsets) is floating-point drawing inside the `render` parameter. The image `onload` that never rejects and a missing 2D context are not modelled.
- LayerCropper.NewLayers: the initial cover scale `400 / min(width, height)` is floating-point and comes in as the `coverScale` parameter.
- LayerCropper.PatchLaws: the update record has no `id` or `file` field, so a patch that would replace those is not modelled.
- Object URLs (`previewUrl`) and their revocation are not part of the records.
- The error banner's three-second timer, which clears the banner, is left out. The banner stays until a later drop replaces it.
- The drag-enter, drag-leave and drag-over highlight handlers are left out, and so is the file-input handler.
- The reference image, A/B comparison and split position state of `useImageCurves` are left out. So are the `setActivePreviewId`, `setActiveLayerId` and config setters, and the `isProcessing` flag's interleaving with the UI.
- The corrected curve of `MonotoneCurve` is stated as a separate table (`LimitedLut`); the session and the batch keep the table as written, since that is what the application applies.
- `formatBytes` and the other hooks and components of the application are not part of this model.
