/** Slides as the deck reader hands them over, the EMU-to-pixel conversion, and
    what the extraction loop collects from a slide's shapes: the text of every
    shape that has a `text` attribute and the picture of every PICTURE shape. */
module Slides {
  import opened Results
  import opened PyText
  import opened Bitmaps
  import opened Raster

  /** `MSO_SHAPE_TYPE.PICTURE` (main.py compares with the literal 13). */
  const PICTURE: int := 13

  /** One shape of a slide, in the deck's shape order.
      `text` is present exactly when the shape has a `text` attribute;
      `left`, `top`, `width`, `height` are its box in EMU;
      `image` is its picture decoded (meaningful when `shapeType == PICTURE`). */
  datatype Shape = Shape(
    text: Option<string>,
    shapeType: int,
    left: int, top: int, width: int, height: int,
    image: Bitmap)

  predicate IsPicture(s: Shape) {
    s.shapeType == PICTURE
  }

  /** A deck: the page size in EMU and the shapes of each slide. */
  datatype Deck = Deck(slideWidth: int, slideHeight: int, slides: seq<seq<Shape>>)

  const EmuPerInch: int := 914400
  const PixelsPerInch: int := 96

  /** `int(length.inches * 96)`: the length in pixels at 96 per inch, truncated
      toward zero as Python's `int()` does. */
  function ToPixels(emu: int): (px: int)
    ensures emu >= 0 ==> 0 <= px && px * EmuPerInch <= emu * PixelsPerInch < (px + 1) * EmuPerInch
    ensures emu < 0 ==> px <= 0 && -px * EmuPerInch <= -emu * PixelsPerInch < (-px + 1) * EmuPerInch
  {
    if emu >= 0 then emu * PixelsPerInch / EmuPerInch
    else -((-emu) * PixelsPerInch / EmuPerInch)
  }

  /** The conversion keeps order, and one inch is 96 pixels. */
  lemma ToPixelsMonotone(a: int, b: int)
    requires a <= b
    ensures ToPixels(a) <= ToPixels(b)
    ensures ToPixels(EmuPerInch) == PixelsPerInch
  {
  }

  // ---------------------------------------------------------------------
  // Text

  /** What one shape adds to the text accumulator: `shape.text + "\n"`, or nothing. */
  function ShapeText(s: Shape): string {
    if s.text.Some? then s.text.value + "\n" else ""
  }

  /** The text accumulator after the loop has seen every shape of `shapes`. */
  function RawText(shapes: seq<Shape>): string {
    if shapes == [] then ""
    else RawText(shapes[..|shapes| - 1]) + ShapeText(shapes[|shapes| - 1])
  }

  /** The texts of the text-bearing shapes, in shape order. */
  function Texts(shapes: seq<Shape>): (ts: seq<string>)
    ensures |ts| <= |shapes|
  {
    if shapes == [] then []
    else
      var last := shapes[|shapes| - 1];
      Texts(shapes[..|shapes| - 1]) + if last.text.Some? then [last.text.value] else []
  }

  /** `"\n".join(ts)`. */
  function JoinLines(ts: seq<string>): string {
    if ts == [] then ""
    else if |ts| == 1 then ts[0]
    else JoinLines(ts[..|ts| - 1]) + "\n" + ts[|ts| - 1]
  }

  /** The accumulator is the texts of the text-bearing shapes joined by newlines,
      plus one final newline; shapes without text add nothing. */
  lemma {:induction false} RawTextIsJoin(shapes: seq<Shape>)
    ensures RawText(shapes) == if Texts(shapes) == [] then "" else JoinLines(Texts(shapes)) + "\n"
  {
    if shapes != [] {
      var init := shapes[..|shapes| - 1];
      RawTextIsJoin(init);
      var ts := Texts(init);
      if shapes[|shapes| - 1].text.Some? {
        var t := shapes[|shapes| - 1].text.value;
        assert Texts(shapes) == ts + [t];
        assert RawText(shapes) == RawText(init) + (t + "\n");
        assert (ts + [t])[..|ts|] == ts;
        if ts != [] {
          assert JoinLines(ts + [t]) == JoinLines(ts) + "\n" + t;
          assert RawText(shapes) == JoinLines(ts) + "\n" + t + "\n";
        } else {
          assert JoinLines([t]) == t;
        }
      } else {
        assert Texts(shapes) == ts + [] == ts;
        assert RawText(shapes) == RawText(init) + "" == RawText(init);
      }
    }
  }

  /** The extracted text equals `"\n".join(texts).strip()`: the trailing newline
      the loop appends is removed by `strip`. */
  lemma ExtractedTextIsJoined(shapes: seq<Shape>)
    ensures Strip(RawText(shapes)) == Strip(JoinLines(Texts(shapes)))
  {
    RawTextIsJoin(shapes);
    if Texts(shapes) != [] {
      StripIgnoresTrailingSpace(JoinLines(Texts(shapes)), '\n');
    }
  }

  // ---------------------------------------------------------------------
  // Pictures

  /** The decoded picture of every PICTURE shape, in shape order. */
  function Pictures(shapes: seq<Shape>): seq<Bitmap> {
    if shapes == [] then []
    else
      var last := shapes[|shapes| - 1];
      Pictures(shapes[..|shapes| - 1]) + if IsPicture(last) then [last.image] else []
  }

  /** The positions of the PICTURE shapes, in shape order. */
  function PictureIndices(shapes: seq<Shape>): seq<nat> {
    if shapes == [] then []
    else
      PictureIndices(shapes[..|shapes| - 1]) + if IsPicture(shapes[|shapes| - 1]) then [|shapes| - 1] else []
  }

  /** Entry k of the image list is the picture of the shape at the k-th
      PICTURE position. */
  lemma {:induction false} PicturesAtIndices(shapes: seq<Shape>)
    ensures var ps, ix := Pictures(shapes), PictureIndices(shapes);
      && |ps| == |ix|
      && forall k | 0 <= k < |ix| :: ix[k] < |shapes| && IsPicture(shapes[ix[k]]) && ps[k] == shapes[ix[k]].image
  {
    if shapes != [] {
      var init, last := shapes[..|shapes| - 1], shapes[|shapes| - 1];
      PicturesAtIndices(init);
      var ps0, ix0 := Pictures(init), PictureIndices(init);
      forall k | 0 <= k < |ix0| ensures shapes[ix0[k]] == init[ix0[k]] {
      }
      if IsPicture(last) {
        assert PictureIndices(shapes) == ix0 + [|shapes| - 1];
        assert Pictures(shapes) == ps0 + [last.image];
      } else {
        assert PictureIndices(shapes) == ix0;
        assert Pictures(shapes) == ps0;
      }
    }
  }

  /** The PICTURE positions increase strictly and every one is below the
      number of shapes. */
  lemma {:induction false} PictureIndicesIncrease(shapes: seq<Shape>)
    ensures forall k | 0 <= k < |PictureIndices(shapes)| :: PictureIndices(shapes)[k] < |shapes|
    ensures forall j, k | 0 <= j < k < |PictureIndices(shapes)| :: PictureIndices(shapes)[j] < PictureIndices(shapes)[k]
  {
    if shapes != [] {
      var init := shapes[..|shapes| - 1];
      PictureIndicesIncrease(init);
      var ix0 := PictureIndices(init);
      var ix := PictureIndices(shapes);
      if IsPicture(shapes[|shapes| - 1]) {
        assert ix == ix0 + [|init|];
        forall j, k | 0 <= j < k < |ix| ensures ix[j] < ix[k] {
          assert ix[j] == ix0[j];
        }
      } else {
        assert ix == ix0;
      }
    }
  }

  /** No PICTURE shape is missed. */
  lemma {:induction false} PictureIndicesCover(shapes: seq<Shape>)
    ensures forall n | 0 <= n < |shapes| && IsPicture(shapes[n]) :: n in PictureIndices(shapes)
  {
    if shapes != [] {
      var init := shapes[..|shapes| - 1];
      PictureIndicesCover(init);
      var ix0 := PictureIndices(init);
      forall n | 0 <= n < |shapes| && IsPicture(shapes[n])
        ensures n in PictureIndices(shapes)
      {
        if n < |init| {
          assert init[n] == shapes[n];
          assert n in ix0;
        }
      }
    }
  }

  /** The image list has exactly one entry per PICTURE shape and keeps shape
      order: entry k is the picture of the k-th PICTURE shape, the positions
      increase strictly, and no PICTURE shape is missed. */
  lemma PicturesInShapeOrder(shapes: seq<Shape>)
    ensures var ps, ix := Pictures(shapes), PictureIndices(shapes);
      && |ps| == |ix|
      && (forall k | 0 <= k < |ix| :: ix[k] < |shapes| && IsPicture(shapes[ix[k]]) && ps[k] == shapes[ix[k]].image)
      && (forall j, k | 0 <= j < k < |ix| :: ix[j] < ix[k])
      && (forall n | 0 <= n < |shapes| && IsPicture(shapes[n]) :: n in ix)
  {
    PicturesAtIndices(shapes);
    PictureIndicesIncrease(shapes);
    PictureIndicesCover(shapes);
  }

  /** Text and pictures are tested independently: a PICTURE shape that also
      has text adds to both, and a shape's text never depends on its type. */
  lemma ShapeFeedsBothOutputs(s: Shape, t: string)
    requires s.text == Some(t) && IsPicture(s)
    ensures RawText([s]) == t + "\n"
    ensures Pictures([s]) == [s.image]
  {
    assert [s][..0] == [];
  }

  // ---------------------------------------------------------------------
  // The extraction loop

  /** The shape loop of `extract_slide_content`: accumulates `shape.text + "\n"`
      for every shape with text, opens a new image for every PICTURE shape,
      and returns the stripped text with the images. */
  method ExtractSlideContent(shapes: seq<Shape>) returns (text: string, images: seq<Image>)
    ensures text == Strip(RawText(shapes))
    ensures Contents(images) == Pictures(shapes)
  {
    var acc := "";
    images := [];
    for n := 0 to |shapes|
      invariant acc == RawText(shapes[..n])
      invariant Contents(images) == Pictures(shapes[..n])
    {
      assert shapes[..n + 1][..n] == shapes[..n];
      var shape := shapes[n];
      if shape.text.Some? {
        acc := acc + shape.text.value + "\n";
      }
      if shape.shapeType == PICTURE {
        var img := new Image.Of(shape.image);
        images := images + [img];
      }
    }
    assert shapes[..|shapes|] == shapes;
    text := Strip(acc);
  }
}
