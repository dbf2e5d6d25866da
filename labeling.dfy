/** `add_id_to_image`: burns an identifier tag into the top-left corner of an
    image, or hands the image back untouched when labels are switched off.
    powerpoint_analyzer.py and main.py carry the same nested function. */
module Labeling {
  import opened Bitmaps
  import opened Raster

  /** The tag's top-left corner, `position = (10, 10)`. */
  const TagX: int := 10
  const TagY: int := 10
  /** The padding added to the text's bounding box, and the text's inset inside the tag. */
  const TagPadding: int := 20
  const TextInset: int := 10

  function TextWidth(kit: Toolkit, idText: string): nat {
    kit.textBox(idText).right - kit.textBox(idText).left
  }

  function TextHeight(kit: Toolkit, idText: string): nat {
    kit.textBox(idText).bottom - kit.textBox(idText).top
  }

  /** The pixels `add_id_to_image` leaves behind. */
  function Labeled(b: Bitmap, idText: string, addLabels: bool, kit: Toolkit): Bitmap {
    if !addLabels then b
    else
      var tagged := ShadeBox(b, TagX, TagY, TextWidth(kit, idText) + TagPadding, TextHeight(kit, idText) + TagPadding, kit.shade);
      InkAt(tagged, TagX + TextInset, TagY + TextInset, kit.glyphs(idText), White)
  }

  /** `add_id_to_image(img, id_text)`: with labels off it returns `img` as it is;
      with labels on it shades a (text width + 20) x (text height + 20) box at
      (10, 10) and writes the identifier in white at (20, 20), on `img` itself,
      and returns `img`. */
  method AddIdToImage(img: Image, idText: string, addLabels: bool, kit: Toolkit) returns (r: Image)
    modifies img.pixels
    ensures r == img
    ensures img.Content() == Labeled(old(img.Content()), idText, addLabels, kit)
  {
    if !addLabels {
      return img;
    }
    var box := kit.textBox(idText);
    var textWidth := box.right - box.left;
    var textHeight := box.bottom - box.top;
    img.Shade(TagX, TagY, textWidth + TagPadding, textHeight + TagPadding, kit.shade);
    img.DrawText(TagX + TextInset, TagY + TextInset, kit.glyphs(idText), White);
    return img;
  }

  /** With labels off the image comes back unchanged. */
  lemma DisabledLabelIsIdentity(b: Bitmap, idText: string, kit: Toolkit)
    ensures Labeled(b, idText, false, kit) == b
  {
  }

  /** Labeling never changes an image's size, and with labels on each pixel is
      the identifier's white ink where a glyph covers it, else the shaded
      original inside the tag box, else the original. */
  lemma LabelPixels(b: Bitmap, idText: string, kit: Toolkit)
    ensures var r := Labeled(b, idText, true, kit);
      && r.width == b.width && r.height == b.height
      && forall x, y | InBounds(b, x, y) ::
           r.cols[x][y] ==
             if (x - 20, y - 20) in kit.glyphs(idText) then White
             else if InBox(10, 10, TextWidth(kit, idText) + 20, TextHeight(kit, idText) + 20, x, y) then kit.shade(b.cols[x][y])
             else b.cols[x][y]
  {
  }

  /** The glyphs of `idText` drawn at the origin stay inside its bounding box. */
  predicate InkInsideBox(kit: Toolkit, idText: string) {
    var box := kit.textBox(idText);
    forall p | p in kit.glyphs(idText) :: box.left <= p.0 < box.right && box.top <= p.1 < box.bottom
  }

  /** The tag covers the whole label: when the glyphs stay inside their bounding
      box and the box starts no more than 10 pixels from the origin, every pixel
      that labeling changes lies inside the shaded (text + 20) box at (10, 10). */
  lemma LabelStaysInTag(b: Bitmap, idText: string, kit: Toolkit)
    requires InkInsideBox(kit, idText)
    requires -10 <= kit.textBox(idText).left <= 10 && -10 <= kit.textBox(idText).top <= 10
    ensures var r := Labeled(b, idText, true, kit);
      forall x, y | InBounds(b, x, y) && r.cols[x][y] != b.cols[x][y] ::
        InBox(TagX, TagY, TextWidth(kit, idText) + TagPadding, TextHeight(kit, idText) + TagPadding, x, y)
  {
    var r := Labeled(b, idText, true, kit);
    var box := kit.textBox(idText);
    forall x, y | InBounds(b, x, y) && r.cols[x][y] != b.cols[x][y]
      ensures InBox(TagX, TagY, TextWidth(kit, idText) + TagPadding, TextHeight(kit, idText) + TagPadding, x, y)
    {
      if (x - 20, y - 20) in kit.glyphs(idText) {
        var p := (x - 20, y - 20);
        assert box.left <= p.0 < box.right && box.top <= p.1 < box.bottom;
      }
    }
  }
}
