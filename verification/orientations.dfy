/** The three orientation classes of a picture, how a picture's size is
    classified, and the string tag under which a class is persisted. */
module Orientations {

  datatype Orientation = Portrait | Landscape | Square

  /** `calculateOrientation`: wider than tall is landscape, taller than wide
      is portrait, and equal sides (0 x 0 included) are square. */
  function Classify(width: real, height: real): (o: Orientation)
    ensures o == Landscape <==> width > height
    ensures o == Portrait <==> width < height
    ensures o == Square <==> width == height
  {
    if width > height then Landscape
    else if width < height then Portrait
    else Square
  }

  /** The orientation seen after turning the picture by a quarter turn. */
  function Turned(o: Orientation): Orientation
  {
    match o
    case Portrait => Landscape
    case Landscape => Portrait
    case Square => Square
  }

  /** Swapping width and height swaps portrait and landscape and keeps
      square. */
  lemma ClassifyTurned(width: real, height: real)
    ensures Classify(height, width) == Turned(Classify(width, height))
  {
  }

  /** Scaling a picture by a positive factor keeps its class. */
  lemma ClassifyScaleInvariant(width: real, height: real, k: real)
    requires k > 0.0
    ensures Classify(k * width, k * height) == Classify(width, height)
  {
    if width > height {
      assert k * width - k * height == k * (width - height);
    } else if width < height {
      assert k * height - k * width == k * (height - width);
    }
  }

  /** The tag written to storage for an orientation: always one of the
      three fixed strings. */
  function EncodeTag(o: Orientation): (tag: string)
    ensures tag in {"portrait", "landscape", "square"}
  {
    match o
    case Portrait => "portrait"
    case Landscape => "landscape"
    case Square => "square"
  }

  /** Reads a stored tag; anything other than "portrait" or "landscape"
      falls back to square, so decoding never fails. */
  function DecodeTag(tag: string): (o: Orientation)
    ensures o == Portrait <==> tag == "portrait"
    ensures o == Landscape <==> tag == "landscape"
  {
    if tag == "portrait" then Portrait
    else if tag == "landscape" then Landscape
    else Square
  }

  /** Decoding an encoded tag restores the orientation. */
  lemma TagRoundTrip(o: Orientation)
    ensures DecodeTag(EncodeTag(o)) == o
  {
    match o
    case Portrait =>
    case Landscape =>
      assert "landscape" != "portrait" by { assert |"landscape"| != |"portrait"|; }
    case Square =>
      assert "square"[0] != "portrait"[0];
      assert "square"[0] != "landscape"[0];
  }

  /** Different orientations are stored under different tags. */
  lemma EncodeTagInjective(o: Orientation, o': Orientation)
    requires EncodeTag(o) == EncodeTag(o')
    ensures o == o'
  {
    TagRoundTrip(o);
    TagRoundTrip(o');
  }

  /** A tag survives a decode/encode cycle exactly when it is one of the
      three tags the encoder writes; any other tag is normalised. */
  lemma TagNormalises(tag: string)
    ensures EncodeTag(DecodeTag(tag)) == tag <==> tag in {"portrait", "landscape", "square"}
  {
    if tag == "square" {
      TagRoundTrip(Square);
    }
  }
}
