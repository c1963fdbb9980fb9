/** The two record shapes of the app: the in-memory `ProcessedImage` shown in
    the grid and the persisted `StoredImage`, plus the adapters between them.
    Image compression, image decoding and face detection are framework calls
    whose internals are not visible; they appear as the function values of a
    `Platform`, each of which may fail. */
module Records {
  import opened Wrappers
  import opened Orientations

  type Bytes = seq<bv8>

  /** A decoded picture: its size in points and its pixel payload. */
  datatype Image = Image(width: real, height: real, pixels: Bytes)

  /** The framework capabilities the pipeline relies on. */
  datatype Platform = Platform(
    /** `jpegData(compressionQuality: 0.9)`; `None` when encoding fails. */
    jpegEncode: Image -> Option<Bytes>,
    /** `UIImage(data:)`; `None` when the bytes are not an image. */
    decodeImage: Bytes -> Option<Image>,
    /** The face-rectangle request: the number of faces found, or `None` when
        the picture could not be prepared or the request gave no results. */
    faceCount: Image -> Option<nat>
  )

  /** The record shown in the grid. */
  datatype ProcessedImage = ProcessedImage(
    image: Image,
    name: string,
    containsFace: bool,
    orientation: Orientation
  )

  /** The persisted record: the picture as compressed bytes and the
      orientation as a string tag. */
  datatype StoredImage = StoredImage(
    name: string,
    containsFace: bool,
    orientation: string,
    imageData: Bytes
  )

  /** Builds the stored form of a record, or nothing when the picture cannot
      be compressed.  Name and face flag are copied and the orientation is
      written as its tag. */
  function ToStored(p: ProcessedImage, platform: Platform): (r: Option<StoredImage>)
    ensures r.None? <==> platform.jpegEncode(p.image).None?
    ensures r.Some? ==>
              && r.value.name == p.name
              && r.value.containsFace == p.containsFace
              && DecodeTag(r.value.orientation) == p.orientation
              && Some(r.value.imageData) == platform.jpegEncode(p.image)
  {
    match platform.jpegEncode(p.image)
    case None => None
    case Some(data) =>
      TagRoundTrip(p.orientation);
      Some(StoredImage(p.name, p.containsFace, EncodeTag(p.orientation), data))
  }

  /** Rebuilds a grid record from a stored one, or nothing when the stored
      bytes are not an image.  Unknown orientation tags read as square. */
  function Revive(s: StoredImage, platform: Platform): (r: Option<ProcessedImage>)
    ensures r.None? <==> platform.decodeImage(s.imageData).None?
    ensures r.Some? ==>
              && r.value.name == s.name
              && r.value.containsFace == s.containsFace
              && r.value.orientation == DecodeTag(s.orientation)
              && Some(r.value.image) == platform.decodeImage(s.imageData)
  {
    match platform.decodeImage(s.imageData)
    case None => None
    case Some(image) =>
      Some(ProcessedImage(image, s.name, s.containsFace, DecodeTag(s.orientation)))
  }

  /** `Revive` as a function value, for `compactMap`. */
  function Reviver(platform: Platform): StoredImage -> Option<ProcessedImage>
  {
    s => Revive(s, platform)
  }

  /** Storing and reviving a record gives back its name, face flag and
      orientation; the picture is whatever the decoder makes of the
      compressed bytes (compression is lossy). */
  lemma StoreReviveRoundTrip(p: ProcessedImage, platform: Platform)
    requires platform.jpegEncode(p.image).Some?
    requires platform.decodeImage(platform.jpegEncode(p.image).value).Some?
    ensures ToStored(p, platform).Some?
    ensures Revive(ToStored(p, platform).value, platform)
            == Some(p.(image := platform.decodeImage(platform.jpegEncode(p.image).value).value))
  {
    TagRoundTrip(p.orientation);
  }
}
