/** The image routines: the in-place LUT pass over an RGBA pixel buffer
    inside `applyCurvesToImage`, and the resize rule of `convertImageToJpg`.
    Loading the image, the 2D canvas context, drawing and `toBlob` encoding
    are browser calls; they are the fields of a `Canvas` value that the
    routines consult. */
module ImageHelper {
  import opened Common
  import opened Types
  import CurveAlgorithms

  predicate IsByte(v: int) { 0 <= v <= 255 }

  /** A lookup table as the curve produces it: one entry per input level. */
  type Lut = s: seq<int> | |s| == 256 witness seq(256, i => i)

  /** The identity table. */
  const IDENTITY_LUT: Lut := seq(256, i => i)

  /** `ImageData` as `getImageData` returns it: width x height pixels of four
      bytes (R, G, B, A) each, row after row. */
  datatype RawImageData = RawImageData(width: nat, height: nat, rgba: seq<int>)

  predicate IsRgba(data: seq<int>) {
    |data| % 4 == 0 && forall k :: 0 <= k < |data| ==> IsByte(data[k])
  }

  type ImageData = d: RawImageData | |d.rgba| == 4 * d.width * d.height && IsRgba(d.rgba)
    witness RawImageData(0, 0, [])

  /** What the browser does for these routines.
      `load`: the decoded image, or None when `img.onerror` (or the file
      reader's `onerror`) fires; `hasContext`: whether `getContext('2d')`
      returns a context; `draw`: the canvas pixels after filling with a colour
      and drawing the image at a given size; `encode`: `toBlob('image/jpeg',
      quality)`, None when the callback receives null. */
  datatype Canvas = Canvas(
    load: File -> Option<ImageData>,
    hasContext: bool,
    draw: (ImageData, nat, nat, string) -> seq<int>,
    encode: (seq<int>, nat, nat, real) -> Option<Blob>)

  /** Why a conversion rejects. */
  datatype ImageError = LoadFailed | NoContext | EncodeFailed

  // ---------------------------------------------------------------------
  // The LUT pass (`data[i] = lut[data[i]]` for R, G and B of each pixel)
  // ---------------------------------------------------------------------

  /** A store into a `Uint8ClampedArray` keeps integers clamped to [0,255]. */
  function StoreByte(v: int): (r: int)
    ensures IsByte(r) && (IsByte(v) ==> r == v)
  {
    CurveAlgorithms.ClampByte(v)
  }

  /** The buffer after the pass: bytes at offset 3 of each pixel (alpha) are
      kept, every other byte `v` becomes `lut[v]` as the clamped array stores it. */
  function MapPixels(data: seq<int>, lut: Lut): (r: seq<int>)
    requires IsRgba(data)
    ensures |r| == |data| && IsRgba(r)
  {
    seq(|data|, k requires 0 <= k < |data| =>
      if k % 4 == 3 then data[k] else StoreByte(lut[data[k]]))
  }

  /** The loop of `applyCurvesToImage`: from index 0 in steps of 4, rewrite
      R, G and B of each pixel through the table. */
  method ApplyLutInPlace(data: array<int>, lut: Lut)
    requires IsRgba(data[..])
    modifies data
    ensures data[..] == MapPixels(old(data[..]), lut)
  {
    ghost var original := data[..];
    var i := 0;
    while i < data.Length
      invariant 0 <= i <= data.Length && i % 4 == 0
      invariant forall k :: 0 <= k < i ==> data[k] == MapPixels(original, lut)[k]
      invariant forall k :: i <= k < data.Length ==> data[k] == original[k]
    {
      data[i] := StoreByte(lut[data[i]]);
      data[i + 1] := StoreByte(lut[data[i + 1]]);
      data[i + 2] := StoreByte(lut[data[i + 2]]);
      i := i + 4;
    }
  }

  /** Every alpha byte is left as it was, and every R, G and B byte becomes
      the table's entry for its old value as the clamped array stores it:
      that entry itself whenever it is a byte. */
  lemma MapPixelsChannels(data: seq<int>, lut: Lut, k: nat)
    requires IsRgba(data) && k < |data|
    ensures k % 4 == 3 ==> MapPixels(data, lut)[k] == data[k]
    ensures k % 4 != 3 ==> MapPixels(data, lut)[k] == StoreByte(lut[data[k]])
    ensures k % 4 != 3 && IsByte(lut[data[k]]) ==> MapPixels(data, lut)[k] == lut[data[k]]
  {
  }

  /** The identity table leaves the buffer byte for byte as it was. */
  lemma IdentityLutKeepsPixels(data: seq<int>)
    requires IsRgba(data)
    ensures MapPixels(data, IDENTITY_LUT) == data
  {
    forall k | 0 <= k < |data| ensures MapPixels(data, IDENTITY_LUT)[k] == data[k] {
      assert IDENTITY_LUT[data[k]] == data[k];
    }
  }

  /** Shifting a position by whole pixels keeps its channel. */
  lemma {:induction false} ChannelShift(m: nat, q: nat)
    ensures (m + 4 * q) % 4 == m % 4
  {
    if q > 0 {
      ChannelShift(m, q - 1);
      assert m + 4 * q == (m + 4 * (q - 1)) + 4;
    }
  }

  /** Pixels are independent: the pass over two buffers laid end to end is
      the pass over each, so the order in which pixels are visited does not
      matter. */
  lemma MapPixelsSplits(a: seq<int>, b: seq<int>, lut: Lut)
    requires IsRgba(a) && IsRgba(b)
    ensures IsRgba(a + b)
    ensures MapPixels(a + b, lut) == MapPixels(a, lut) + MapPixels(b, lut)
  {
    var ab := a + b;
    var q := |a| / 4;
    assert |a| == 4 * q;
    assert IsRgba(ab) by {
      assert |ab| == 4 * (q + |b| / 4);
      forall k | 0 <= k < |ab| ensures IsByte(ab[k]) {
        if k >= |a| {
          assert ab[k] == b[k - |a|];
        }
      }
    }
    var left, right := MapPixels(a, lut), MapPixels(b, lut);
    forall k | 0 <= k < |ab| ensures MapPixels(ab, lut)[k] == (left + right)[k] {
      if k < |a| {
        assert ab[k] == a[k];
      } else {
        var m := k - |a|;
        assert ab[k] == b[m];
        ChannelShift(m, q);
      }
    }
  }

  /** The pixel at position `p` after the pass depends only on that pixel's
      four old bytes and the table. */
  lemma MapPixelsIsPerPixel(data: seq<int>, lut: Lut, p: nat)
    requires IsRgba(data) && 4 * p + 4 <= |data|
    ensures IsRgba(data[4 * p .. 4 * p + 4])
    ensures MapPixels(data, lut)[4 * p .. 4 * p + 4] == MapPixels(data[4 * p .. 4 * p + 4], lut)
  {
    var px := data[4 * p .. 4 * p + 4];
    forall k | 0 <= k < 4
      ensures MapPixels(data, lut)[4 * p + k] == MapPixels(px, lut)[k]
    {
      assert (4 * p + k) % 4 == k;
    }
  }

  // ---------------------------------------------------------------------
  // applyCurvesToImage
  // ---------------------------------------------------------------------

  /** The JPEG quality `applyCurvesToImage` uses when none is given. */
  const CURVES_QUALITY: real := 0.9

  /** What `applyCurvesToImage(file, lut, quality)` resolves or rejects with. */
  function CurvesOutput(file: File, lut: Lut, quality: real, canvas: Canvas): (r: Result<Blob, ImageError>)
    ensures r.Ok? <==>
      canvas.load(file).Some? && canvas.hasContext
      && canvas.encode(MapPixels(canvas.load(file).value.rgba, lut),
                       canvas.load(file).value.width, canvas.load(file).value.height, quality).Some?
  {
    match canvas.load(file)
    case None => Err(LoadFailed)
    case Some(img) =>
      if !canvas.hasContext then Err(NoContext)
      else
        match canvas.encode(MapPixels(img.rgba, lut), img.width, img.height, quality)
        case None => Err(EncodeFailed)
        case Some(blob) => Ok(blob)
  }

  /** `applyCurvesToImage`: load, take the context, read the pixels into a
      buffer, run the LUT pass over it in place, encode. A missing context or
      a null blob rejects; no partial output is produced. */
  method ApplyCurvesToImage(file: File, lut: Lut, quality: real, canvas: Canvas)
    returns (r: Result<Blob, ImageError>)
    ensures r == CurvesOutput(file, lut, quality, canvas)
  {
    var loaded := canvas.load(file);
    if loaded.None? {
      return Err(LoadFailed);
    }
    var img := loaded.value;
    if !canvas.hasContext {
      return Err(NoContext);
    }
    var data := new int[|img.rgba|](k requires 0 <= k < |img.rgba| => img.rgba[k]);
    assert data[..] == img.rgba;
    ApplyLutInPlace(data, lut);
    var blob := canvas.encode(data[..], img.width, img.height, quality);
    if blob.None? {
      return Err(EncodeFailed);
    }
    r := Ok(blob.value);
  }

  /** With the identity table the encoder receives the decoded pixels as
      they were. */
  lemma IdentityCurvesEncodesOriginal(file: File, quality: real, canvas: Canvas)
    requires canvas.load(file).Some? && canvas.hasContext
    ensures var img := canvas.load(file).value;
      CurvesOutput(file, IDENTITY_LUT, quality, canvas)
        == match canvas.encode(img.rgba, img.width, img.height, quality)
           case None => Err(EncodeFailed)
           case Some(b) => Ok(b)
  {
    IdentityLutKeepsPixels(canvas.load(file).value.rgba);
  }

  // ---------------------------------------------------------------------
  // convertImageToJpg
  // ---------------------------------------------------------------------

  /** `config.scale || 1`: a zero scale counts as 1. */
  function EffectiveScale(scale: real): real {
    if scale == 0.0 then 1.0 else scale
  }

  /** `Math.max(1, Math.floor(dim * scale))` with the effective scale. */
  function TargetSize(dim: nat, scale: real): (r: nat)
    ensures r >= 1
    ensures r == 1 || (r as real <= dim as real * EffectiveScale(scale) < r as real + 1.0)
    ensures dim as real * EffectiveScale(scale) >= 2.0 ==> r >= 2
  {
    var f := (dim as real * EffectiveScale(scale)).Floor;
    if f < 1 then 1 else f
  }

  /** A zero scale gives the original size (at least 1), and a scale of at
      most 1 never enlarges the image. */
  lemma TargetSizeBounds(dim: nat, scale: real)
    ensures TargetSize(dim, 0.0) == (if dim == 0 then 1 else dim)
    ensures 0.0 < scale <= 1.0 ==> TargetSize(dim, scale) <= (if dim == 0 then 1 else dim)
  {
    if 0.0 < scale <= 1.0 {
      assert dim as real * scale <= dim as real;
    }
  }

  /** A conversion's configuration: JPEG quality, fill colour for
      transparency, and resize factor. */
  datatype ConversionConfig = ConversionConfig(quality: real, fillColor: string, scale: real)

  /** What `convertImageToJpg(file, config)` resolves or rejects with: the
      image drawn on the fill colour at the target size, encoded as JPEG. */
  function ConvertImageToJpg(file: File, config: ConversionConfig, canvas: Canvas): (r: Result<Blob, ImageError>)
    ensures canvas.load(file).None? ==> r == Err(LoadFailed)
    ensures canvas.load(file).Some? && !canvas.hasContext ==> r == Err(NoContext)
    ensures canvas.load(file).Some? && canvas.hasContext ==>
      var img := canvas.load(file).value;
      var w, h := TargetSize(img.width, config.scale), TargetSize(img.height, config.scale);
      var encoded := canvas.encode(canvas.draw(img, w, h, config.fillColor), w, h, config.quality);
      (encoded.None? ==> r == Err(EncodeFailed)) && (encoded.Some? ==> r == Ok(encoded.value))
    ensures r.Ok? ==>
      var img := canvas.load(file).value;
      var w, h := TargetSize(img.width, config.scale), TargetSize(img.height, config.scale);
      canvas.encode(canvas.draw(img, w, h, config.fillColor), w, h, config.quality) == Some(r.value)
  {
    match canvas.load(file)
    case None => Err(LoadFailed)
    case Some(img) =>
      var w := TargetSize(img.width, config.scale);
      var h := TargetSize(img.height, config.scale);
      if !canvas.hasContext then Err(NoContext)
      else
        match canvas.encode(canvas.draw(img, w, h, config.fillColor), w, h, config.quality)
        case None => Err(EncodeFailed)
        case Some(blob) => Ok(blob)
  }
}
