/** The records of the application: the batch status, curve control points,
    queued image files, cropper layers and the browser `File`/`Blob` values
    they carry. Object URLs (`previewUrl`) are browser handles and are not
    part of these records. */
module Types {
  import opened Common

  /** Lifecycle of one queued image: IDLE, PROCESSING, COMPLETED or ERROR. */
  datatype ConversionStatus = Idle | Processing | Completed | Error

  /** A browser `File`: its name, MIME type, byte size, and the
      `webkitRelativePath` that a folder scan patches in. */
  datatype File = File(name: string, mimeType: string, size: nat, relativePath: string)

  /** An encoded image as produced by `canvas.toBlob`. */
  datatype Blob = Blob(bytes: seq<int>) {
    function Size(): nat { |bytes| }
  }

  /** What `getImageDimensions` resolves to (0 x 0 when the image fails to load). */
  datatype Dimensions = Dimensions(width: nat, height: nat)

  /** One control point of the tone curve; callers pass integer levels. */
  datatype CurvePoint = CurvePoint(id: string, x: int, y: int)

  /** One item of the curves batch. `convertedBlob` and `convertedSize` are
      the optional fields that a successful run fills in. */
  datatype ImageFile = ImageFile(
    id: string,
    file: File,
    status: ConversionStatus,
    convertedBlob: Option<Blob>,
    originalSize: nat,
    convertedSize: Option<nat>,
    width: nat,
    height: nat)

  /** One layer of the square cropper: its offset and zoom in the preview
      square and its measured size. */
  datatype LayerImage = LayerImage(
    id: string,
    file: File,
    x: real,
    y: real,
    scale: real,
    width: nat,
    height: nat,
    originalWidth: nat,
    originalHeight: nat)

  /** One archive entry: the file name and the encoded image. */
  datatype ZipEntry = ZipEntry(name: string, blob: Blob)
}
