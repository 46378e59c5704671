/** The square cropper's layer list (`useLayerCropper`): adding layers,
    looking up and patching the active one, removing layers, and the export
    loop with its entry names. Measuring images, the cover-the-square zoom
    factor and rendering a layer onto the export canvas are browser and
    floating-point work; they are parameters here. */
module LayerCropper {
  import opened Common
  import opened Types

  // ---------------------------------------------------------------------
  // Looking up the active layer
  // ---------------------------------------------------------------------

  /** Position of the first layer at or after `from` whose id is `id`. */
  function FindFrom(layers: seq<LayerImage>, id: string, from: nat): (r: Option<nat>)
    requires from <= |layers|
    ensures r.Some? ==> (from <= r.value < |layers| && layers[r.value].id == id
                         && forall k :: from <= k < r.value ==> layers[k].id != id)
    ensures r.None? ==> forall k :: from <= k < |layers| ==> layers[k].id != id
    decreases |layers| - from
  {
    if from == |layers| then None
    else if layers[from].id == id then Some(from)
    else FindFrom(layers, id, from + 1)
  }

  /** `activeLayer`: the first layer whose id is the active id, or none when
      no id is active or no layer has it. */
  function ActiveLayer(layers: seq<LayerImage>, active: Option<string>): (r: Option<LayerImage>)
    ensures r.Some? <==> active.Some? && exists k :: 0 <= k < |layers| && layers[k].id == active.value
    ensures r.Some? ==> exists k :: (0 <= k < |layers| && layers[k] == r.value
                                     && r.value.id == active.value
                                     && forall j :: 0 <= j < k ==> layers[j].id != active.value)
  {
    if active.None? then None
    else
      match FindFrom(layers, active.value, 0)
      case None => None
      case Some(k) => Some(layers[k])
  }

  // ---------------------------------------------------------------------
  // Adding layers
  // ---------------------------------------------------------------------

  /** A new layer: centred (offset 0,0) at the given zoom, with its measured
      size recorded both as its size and as its original size. */
  function NewLayer(file: File, id: string, dims: Dimensions, scale: real): LayerImage {
    LayerImage(id, file, 0.0, 0.0, scale, dims.width, dims.height, dims.width, dims.height)
  }

  /** The layers `handleFilesAdded` creates, one per file, in input order.
      `measure` stands for `getImageDimensions` and `coverScale` for the zoom
      that makes the image cover the preview square. */
  function NewLayers(files: seq<File>, ids: seq<string>, measure: File -> Dimensions,
                     coverScale: Dimensions -> real): (r: seq<LayerImage>)
    requires |ids| == |files|
    ensures |r| == |files|
    ensures forall k :: 0 <= k < |r| ==>
      r[k].id == ids[k] && r[k].file == files[k] && r[k].x == 0.0 && r[k].y == 0.0
      && r[k].scale == coverScale(measure(files[k]))
      && r[k].width == r[k].originalWidth == measure(files[k]).width
      && r[k].height == r[k].originalHeight == measure(files[k]).height
  {
    seq(|files|, k requires 0 <= k < |files| =>
      NewLayer(files[k], ids[k], measure(files[k]), coverScale(measure(files[k]))))
  }

  /** `!activeLayerId`: no id, or the empty string. */
  predicate Falsy(active: Option<string>) {
    active.None? || active.value == ""
  }

  /** The active id after adding `added`: the first new layer when none was
      active, otherwise unchanged. */
  function ActiveAfterAdd(active: Option<string>, added: seq<LayerImage>): Option<string> {
    if Falsy(active) && |added| > 0 then Some(added[0].id) else active
  }

  /** The active id is unset or names a layer of the list. */
  predicate ActiveNamesLayer(layers: seq<LayerImage>, active: Option<string>) {
    active.None? || exists k :: 0 <= k < |layers| && layers[k].id == active.value
  }

  /** Adding keeps the old layers first and in place, and keeps the active id
      naming a layer; when none was active the first new layer is the active
      one. */
  lemma AddKeepsActiveValid(layers: seq<LayerImage>, added: seq<LayerImage>, active: Option<string>)
    requires ActiveNamesLayer(layers, active)
    ensures (layers + added)[..|layers|] == layers
    ensures ActiveNamesLayer(layers + added, ActiveAfterAdd(active, added))
    ensures Falsy(active) && |added| > 0 ==>
      ActiveLayer(layers + added, ActiveAfterAdd(active, added)).Some?
      && ActiveLayer(layers + added, ActiveAfterAdd(active, added)).value.id == added[0].id
    ensures Falsy(active) && |added| > 0 && (forall k :: 0 <= k < |layers| ==> layers[k].id != added[0].id) ==>
      ActiveLayer(layers + added, ActiveAfterAdd(active, added)) == Some(added[0])
  {
    var all := layers + added;
    if Falsy(active) && |added| > 0 {
      assert all[|layers|] == added[0];
    } else if active.Some? {
      var k :| 0 <= k < |layers| && layers[k].id == active.value;
      assert all[k] == layers[k];
    }
  }

  // ---------------------------------------------------------------------
  // Patching the active layer
  // ---------------------------------------------------------------------

  /** The fields an update may supply (`Partial<LayerImage>` as the cropper
      view uses it); absent fields are left as they are. */
  datatype LayerUpdate = LayerUpdate(
    x: Option<real>, y: Option<real>, scale: Option<real>,
    width: Option<nat>, height: Option<nat>,
    originalWidth: Option<nat>, originalHeight: Option<nat>)

  function Pick<T>(update: Option<T>, current: T): T {
    if update.Some? then update.value else current
  }

  /** `{ ...l, ...updates }`. */
  function Patch(l: LayerImage, u: LayerUpdate): LayerImage {
    l.(x := Pick(u.x, l.x), y := Pick(u.y, l.y), scale := Pick(u.scale, l.scale),
       width := Pick(u.width, l.width), height := Pick(u.height, l.height),
       originalWidth := Pick(u.originalWidth, l.originalWidth),
       originalHeight := Pick(u.originalHeight, l.originalHeight))
  }

  /** Patching never changes a layer's id or file, an empty update changes
      nothing, and applying the same update twice is applying it once. */
  lemma PatchLaws(l: LayerImage, u: LayerUpdate)
    ensures Patch(l, u).id == l.id && Patch(l, u).file == l.file
    ensures Patch(l, LayerUpdate(None, None, None, None, None, None, None)) == l
    ensures Patch(Patch(l, u), u) == Patch(l, u)
    ensures u.x.Some? ==> Patch(l, u).x == u.x.value
    ensures u.y.Some? ==> Patch(l, u).y == u.y.value
    ensures u.scale.Some? ==> Patch(l, u).scale == u.scale.value
    ensures u.width.Some? ==> Patch(l, u).width == u.width.value
    ensures u.height.Some? ==> Patch(l, u).height == u.height.value
    ensures u.originalWidth.Some? ==> Patch(l, u).originalWidth == u.originalWidth.value
    ensures u.originalHeight.Some? ==> Patch(l, u).originalHeight == u.originalHeight.value
    ensures u.x.None? ==> Patch(l, u).x == l.x
    ensures u.y.None? ==> Patch(l, u).y == l.y
    ensures u.scale.None? ==> Patch(l, u).scale == l.scale
    ensures u.width.None? ==> Patch(l, u).width == l.width
    ensures u.height.None? ==> Patch(l, u).height == l.height
    ensures u.originalWidth.None? ==> Patch(l, u).originalWidth == l.originalWidth
    ensures u.originalHeight.None? ==> Patch(l, u).originalHeight == l.originalHeight
  {
  }

  /** `updateActiveLayer`: nothing without an active id, otherwise every
      layer with the active id is patched. */
  function UpdateLayers(layers: seq<LayerImage>, active: Option<string>, u: LayerUpdate): (r: seq<LayerImage>)
    ensures |r| == |layers|
    ensures Falsy(active) ==> r == layers
    ensures forall k :: 0 <= k < |layers| ==> r[k].id == layers[k].id
    ensures !Falsy(active) ==> forall k :: 0 <= k < |layers| ==>
      r[k] == if layers[k].id == active.value then Patch(layers[k], u) else layers[k]
  {
    if Falsy(active) then layers
    else
      seq(|layers|, k requires 0 <= k < |layers| =>
        if layers[k].id == active.value then Patch(layers[k], u) else layers[k])
  }

  /** Lookup only looks at ids: two lists with the same ids position by
      position find the same position. */
  lemma {:induction false} FindFromSameIds(a: seq<LayerImage>, b: seq<LayerImage>, id: string, from: nat)
    requires |a| == |b| && from <= |a|
    requires forall k :: 0 <= k < |a| ==> a[k].id == b[k].id
    ensures FindFrom(a, id, from) == FindFrom(b, id, from)
    decreases |a| - from
  {
    if from < |a| && a[from].id != id {
      FindFromSameIds(a, b, id, from + 1);
    }
  }

  /** After an update the active layer is the patched active layer. */
  lemma UpdateReachesActiveLayer(layers: seq<LayerImage>, active: Option<string>, u: LayerUpdate)
    requires !Falsy(active) && ActiveLayer(layers, active).Some?
    ensures ActiveLayer(UpdateLayers(layers, active, u), active) == Some(Patch(ActiveLayer(layers, active).value, u))
  {
    FindFromSameIds(layers, UpdateLayers(layers, active, u), active.value, 0);
  }

  // ---------------------------------------------------------------------
  // Removing a layer
  // ---------------------------------------------------------------------

  /** The filter of `removeLayer`. */
  function LayerOtherThan(id: string): LayerImage -> bool {
    (l: LayerImage) => l.id != id
  }

  /** The active id after removing `id`, leaving `remaining`: reassigned to
      the first remaining layer (or none) only when the removed id was the
      active one. */
  function ActiveAfterRemove(active: Option<string>, id: string, remaining: seq<LayerImage>): Option<string> {
    if active == Some(id) then (if |remaining| > 0 then Some(remaining[0].id) else None) else active
  }

  /** Removing drops exactly the layers with the id, keeps the others in
      order, and leaves the active id naming a layer. */
  lemma RemoveKeepsActiveValid(layers: seq<LayerImage>, id: string, active: Option<string>)
    requires ActiveNamesLayer(layers, active)
    ensures var remaining := Filter(layers, LayerOtherThan(id));
      ActiveNamesLayer(remaining, ActiveAfterRemove(active, id, remaining))
      && (forall k :: 0 <= k < |remaining| ==> remaining[k].id != id)
      && (forall k :: 0 <= k < |layers| && layers[k].id != id ==> layers[k] in remaining)
  {
    var remaining := Filter(layers, LayerOtherThan(id));
    assert forall k :: 0 <= k < |remaining| ==> remaining[k] in remaining;
    assert forall k :: 0 <= k < |layers| ==> layers[k] in layers;
    if active.Some? && active.value != id {
      var k :| 0 <= k < |layers| && layers[k].id == active.value;
      assert LayerOtherThan(id)(layers[k]);
      var j :| 0 <= j < |remaining| && remaining[j] == layers[k];
    }
  }

  // ---------------------------------------------------------------------
  // Export names and entries
  // ---------------------------------------------------------------------

  /** Number of characters at the end of `name` that are neither `/` nor `.`. */
  function TrailingPlainRun(name: string): (n: nat)
    ensures n <= |name|
    ensures forall k :: |name| - n <= k < |name| ==> name[k] != '/' && name[k] != '.'
    ensures n < |name| ==> name[|name| - n - 1] == '/' || name[|name| - n - 1] == '.'
  {
    if name == [] || name[|name| - 1] == '/' || name[|name| - 1] == '.' then 0
    else TrailingPlainRun(name[..|name| - 1]) + 1
  }

  /** `name` ends with a dot followed by one or more characters that are
      neither `/` nor `.` (what `/\.[^/.]+$/` matches). */
  predicate HasLastExtension(name: string) {
    exists i :: 0 <= i < |name| - 1 && name[i] == '.'
      && forall k :: i < k < |name| ==> name[k] != '/' && name[k] != '.'
  }

  /** `name.replace(/\.[^/.]+$/, "")`: drop the last extension, if any. */
  function StripLastExtension(name: string): (stem: string)
    ensures stem <= name
    ensures stem == name <==> !HasLastExtension(name)
    ensures stem != name ==> (|name| - |stem| >= 2 && name[|stem|] == '.'
                              && forall k :: |stem| < k < |name| ==> name[k] != '/' && name[k] != '.')
  {
    var n := TrailingPlainRun(name);
    if n > 0 && n < |name| && name[|name| - n - 1] == '.' then name[..|name| - n - 1] else name
  }

  /** The extension found is the last dot: nothing after it is a dot. */
  lemma LastExtensionIsUnique(name: string, i: nat, j: nat)
    requires i < |name| && j < |name| && name[i] == '.' && name[j] == '.'
    requires forall k :: i < k < |name| ==> name[k] != '/' && name[k] != '.'
    requires forall k :: j < k < |name| ==> name[k] != '/' && name[k] != '.'
    ensures i == j
  {
  }

  /** The archive name of an exported layer. */
  function SquareOutputName(name: string): (r: string)
    ensures |r| >= 11 && r[|r| - 11..] == "_square.jpg"
    ensures r[..|r| - 11] <= name
  {
    StripLastExtension(name) + "_square.jpg"
  }

  /** Only the last extension goes. */
  lemma LastOfTwoExtensionsStripped()
    ensures SquareOutputName("photo.final.PNG") == "photo.final_square.jpg"
  {
    assert "photo.final.PNG"[..14] == "photo.final.PN";
    assert "photo.final.PN"[..13] == "photo.final.P";
    assert "photo.final.P"[..12] == "photo.final.";
    assert TrailingPlainRun("photo.final.") == 0;
    assert TrailingPlainRun("photo.final.P") == 1;
    assert TrailingPlainRun("photo.final.PN") == 2;
    assert TrailingPlainRun("photo.final.PNG") == 3;
  }

  /** A dot inside a folder name is not an extension. */
  lemma DotInFolderKept()
    ensures SquareOutputName("a.b/doc") == "a.b/doc_square.jpg"
  {
    assert "a.b/doc"[..6] == "a.b/do";
    assert "a.b/do"[..5] == "a.b/d";
    assert "a.b/d"[..4] == "a.b/";
    assert TrailingPlainRun("a.b/") == 0;
    assert TrailingPlainRun("a.b/d") == 1;
    assert TrailingPlainRun("a.b/do") == 2;
    assert TrailingPlainRun("a.b/doc") == 3;
  }

  /** A trailing dot is kept. */
  lemma TrailingDotKept()
    ensures SquareOutputName("x.") == "x._square.jpg"
  {
    assert TrailingPlainRun("x.") == 0;
  }

  /** What the export loop adds for one layer: its entry when its canvas
      encodes, nothing when `toBlob` gives null. */
  function EntryFor(l: LayerImage, render: LayerImage -> Option<Blob>): seq<ZipEntry> {
    match render(l)
    case None => []
    case Some(blob) => [ZipEntry(SquareOutputName(l.file.name), blob)]
  }

  /** What the export loop adds to the archive for `layers`, in order. */
  function SquareEntries(layers: seq<LayerImage>, render: LayerImage -> Option<Blob>): (r: seq<ZipEntry>)
    ensures |r| <= |layers|
  {
    if layers == [] then []
    else SquareEntries(layers[..|layers| - 1], render) + EntryFor(layers[|layers| - 1], render)
  }

  /** A layer's square entry. */
  predicate IsEntryOf(e: ZipEntry, l: LayerImage, render: LayerImage -> Option<Blob>) {
    render(l).Some? && e == ZipEntry(SquareOutputName(l.file.name), render(l).value)
  }

  /** Every entry belongs to a layer that encoded and carries that layer's
      square name and blob. */
  lemma {:induction false} SquareEntryFromRenderedLayer(layers: seq<LayerImage>, render: LayerImage -> Option<Blob>, i: nat)
    requires i < |SquareEntries(layers, render)|
    ensures exists k :: 0 <= k < |layers| && IsEntryOf(SquareEntries(layers, render)[i], layers[k], render)
  {
    var init := layers[..|layers| - 1];
    var last := layers[|layers| - 1];
    var head := SquareEntries(init, render);
    var r := SquareEntries(layers, render);
    assert r == head + EntryFor(last, render);
    if i < |head| {
      SquareEntryFromRenderedLayer(init, render, i);
      var k :| 0 <= k < |init| && IsEntryOf(head[i], init[k], render);
      assert init[k] == layers[k];
      assert r[i] == head[i];
    } else {
      var tail := EntryFor(last, render);
      assert |tail| == 1 && r[i] == tail[0];
      assert IsEntryOf(r[i], last, render);
    }
  }

  /** Every layer that encodes has its entry in the archive, whatever the
      other layers do. */
  lemma {:induction false} RenderedLayerHasEntry(layers: seq<LayerImage>, render: LayerImage -> Option<Blob>, k: nat)
    requires k < |layers| && render(layers[k]).Some?
    ensures ZipEntry(SquareOutputName(layers[k].file.name), render(layers[k]).value) in SquareEntries(layers, render)
  {
    var init := layers[..|layers| - 1];
    var last := layers[|layers| - 1];
    assert SquareEntries(layers, render) == SquareEntries(init, render) + EntryFor(last, render);
    if k < |layers| - 1 {
      assert init[k] == layers[k];
      RenderedLayerHasEntry(init, render, k);
    } else {
      assert EntryFor(last, render) == [ZipEntry(SquareOutputName(last.file.name), render(last).value)];
    }
  }

  /** The entries of two runs of layers laid end to end are the entries of
      each, in the order of the layers. */
  lemma {:induction false} SquareEntriesAppend(a: seq<LayerImage>, b: seq<LayerImage>, render: LayerImage -> Option<Blob>)
    ensures SquareEntries(a + b, render) == SquareEntries(a, render) + SquareEntries(b, render)
  {
    if b == [] {
      assert a + b == a;
    } else {
      var b0 := b[..|b| - 1];
      assert (a + b)[..|a + b| - 1] == a + b0;
      assert (a + b)[|a + b| - 1] == b[|b| - 1];
      SquareEntriesAppend(a, b0, render);
    }
  }

  /** When every layer encodes, there is one entry per layer, in the order of
      the list. */
  lemma {:induction false} AllRenderedGivesEveryLayer(layers: seq<LayerImage>, render: LayerImage -> Option<Blob>)
    requires forall k :: 0 <= k < |layers| ==> render(layers[k]).Some?
    ensures var r := SquareEntries(layers, render);
      |r| == |layers| && forall k :: 0 <= k < |layers| ==> IsEntryOf(r[k], layers[k], render)
  {
    if layers != [] {
      var init := layers[..|layers| - 1];
      var last := layers[|layers| - 1];
      AllRenderedGivesEveryLayer(init, render);
      var head := SquareEntries(init, render);
      var r := SquareEntries(layers, render);
      assert EntryFor(last, render) == [ZipEntry(SquareOutputName(last.file.name), render(last).value)];
      assert r == head + EntryFor(last, render);
      forall k | 0 <= k < |layers| ensures IsEntryOf(r[k], layers[k], render) {
        if k < |init| {
          assert init[k] == layers[k];
          assert r[k] == head[k];
        }
      }
    }
  }

  /** When no layer encodes, the archive gets no entries. */
  lemma {:induction false} NoneRenderedGivesNothing(layers: seq<LayerImage>, render: LayerImage -> Option<Blob>)
    requires forall k :: 0 <= k < |layers| ==> render(layers[k]).None?
    ensures SquareEntries(layers, render) == []
  {
    if layers != [] {
      NoneRenderedGivesNothing(layers[..|layers| - 1], render);
    }
  }

  // ---------------------------------------------------------------------
  // The hook's state
  // ---------------------------------------------------------------------

  /** The state `useLayerCropper` keeps for the layer list. */
  class LayerSession {
    var layers: seq<LayerImage>
    var activeLayerId: Option<string>
    var isExporting: bool

    constructor ()
      ensures layers == [] && activeLayerId == None && !isExporting
    {
      layers := [];
      activeLayerId := None;
      isExporting := false;
    }

    /** `activeLayer`: the first layer whose id is the active id, or none. */
    function Active(): (r: Option<LayerImage>)
      reads this
      ensures r.Some? <==>
        activeLayerId.Some? && exists k :: 0 <= k < |layers| && layers[k].id == activeLayerId.value
      ensures r.Some? ==> exists k :: (0 <= k < |layers| && layers[k] == r.value
                                       && r.value.id == activeLayerId.value
                                       && forall j :: 0 <= j < k ==> layers[j].id != activeLayerId.value)
    {
      ActiveLayer(layers, activeLayerId)
    }

    /** `handleFilesAdded`; ids come from `generateId`. */
    method HandleFilesAdded(files: seq<File>, ids: seq<string>, measure: File -> Dimensions,
                            coverScale: Dimensions -> real)
      requires |ids| == |files|
      modifies this
      ensures layers == old(layers) + NewLayers(files, ids, measure, coverScale)
      ensures activeLayerId == ActiveAfterAdd(old(activeLayerId), NewLayers(files, ids, measure, coverScale))
      ensures isExporting == old(isExporting)
    {
      var added := NewLayers(files, ids, measure, coverScale);
      layers := layers + added;
      if Falsy(activeLayerId) && |added| > 0 {
        activeLayerId := Some(added[0].id);
      }
    }

    method UpdateActiveLayer(u: LayerUpdate)
      modifies this
      ensures layers == UpdateLayers(old(layers), old(activeLayerId), u)
      ensures activeLayerId == old(activeLayerId) && isExporting == old(isExporting)
    {
      if Falsy(activeLayerId) {
        return;
      }
      var active := activeLayerId.value;
      var current := layers;
      layers := seq(|current|, k requires 0 <= k < |current| =>
        if current[k].id == active then Patch(current[k], u) else current[k]);
    }

    method RemoveLayer(id: string)
      modifies this
      ensures layers == Filter(old(layers), LayerOtherThan(id))
      ensures activeLayerId == ActiveAfterRemove(old(activeLayerId), id, layers)
      ensures isExporting == old(isExporting)
    {
      layers := Filter(layers, LayerOtherThan(id));
      if activeLayerId == Some(id) {
        activeLayerId := if |layers| > 0 then Some(layers[0].id) else None;
      }
    }

    /** `exportAll`: nothing when there are no layers; otherwise each layer in
        turn is rendered with `render` (fill, draw at the export geometry,
        `toBlob`) and added under its square name when the blob is not null. */
    method ExportAll(render: LayerImage -> Option<Blob>) returns (entries: Option<seq<ZipEntry>>)
      modifies this
      ensures |old(layers)| == 0 ==> entries.None? && isExporting == old(isExporting)
      ensures |old(layers)| > 0 ==> entries == Some(SquareEntries(old(layers), render)) && !isExporting
      ensures layers == old(layers) && activeLayerId == old(activeLayerId)
    {
      if |layers| == 0 {
        return None;
      }
      isExporting := true;
      var added: seq<ZipEntry> := [];
      for i := 0 to |layers|
        invariant added == SquareEntries(layers[..i], render)
      {
        assert layers[..i + 1][..i] == layers[..i];
        var blob := render(layers[i]);
        if blob.Some? {
          added := added + [ZipEntry(SquareOutputName(layers[i].file.name), blob.value)];
        }
        assert added == SquareEntries(layers[..i], render) + EntryFor(layers[i], render);
      }
      assert layers[..|layers|] == layers;
      isExporting := false;
      entries := Some(added);
    }
  }
}
