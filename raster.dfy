/** A Pillow image object: a fixed-size pixel buffer that `paste` and
    `ImageDraw` paint in place. */
module Raster {
  import opened Bitmaps

  class Image {
    /** `pixels[x, y]` is the pixel at `(x, y)`; the size never changes. */
    const pixels: array2<Pixel>

    /** `img.size`. */
    function Width(): nat { pixels.Length0 }
    function Height(): nat { pixels.Length1 }

    /** The current pixels as a value (what `img.save` writes). */
    function Content(): (b: Bitmap)
      reads pixels
      ensures b.width == pixels.Length0 && b.height == pixels.Length1
      ensures forall x, y | InBounds(b, x, y) :: b.cols[x][y] == pixels[x, y]
    {
      Grid(pixels.Length0, pixels.Length1,
        seq(pixels.Length0, x requires 0 <= x < pixels.Length0 reads pixels =>
          seq(pixels.Length1, y requires 0 <= y < pixels.Length1 reads pixels => pixels[x, y])))
    }

    /** `Image.new('RGB', (w, h), color)`. */
    constructor New(w: nat, h: nat, color: Pixel)
      ensures fresh(pixels)
      ensures Content() == Blank(w, h, color)
    {
      pixels := new Pixel[w, h]((x, y) => color);
      new;
      ContentIs(this, Blank(w, h, color));
    }

    /** An image holding `b` (`Image.open` of decoded bytes, or `img.copy()`). */
    constructor Of(b: Bitmap)
      ensures fresh(pixels)
      ensures Content() == b
    {
      pixels := new Pixel[b.width, b.height]((x, y) requires 0 <= x < b.width && 0 <= y < b.height => b.cols[x][y]);
      new;
      ContentIs(this, b);
    }

    /** `img.copy()`: a new image with the same pixels; this one is not touched. */
    method Copy() returns (c: Image)
      ensures fresh(c) && fresh(c.pixels)
      ensures c.Content() == Content()
    {
      c := new Image.Of(Content());
    }

    /** `img.paste(src, (ox, oy))`. */
    method Paste(src: Bitmap, ox: int, oy: int)
      modifies pixels
      ensures Content() == PasteAt(old(Content()), src, ox, oy)
    {
      ghost var before := Content();
      forall x, y | 0 <= x < pixels.Length0 && 0 <= y < pixels.Length1 && InBox(ox, oy, src.width, src.height, x, y) {
        pixels[x, y] := src.cols[x - ox][y - oy];
      }
      ContentIs(this, PasteAt(before, src, ox, oy));
    }

    /** `img.paste(tag, (x0, y0), tag)` with a uniform translucent `w` x `h` tag:
        every covered pixel becomes `shade` of itself. */
    method Shade(x0: int, y0: int, w: int, h: int, shade: Pixel -> Pixel)
      modifies pixels
      ensures Content() == ShadeBox(old(Content()), x0, y0, w, h, shade)
    {
      ghost var before := Content();
      forall x, y | 0 <= x < pixels.Length0 && 0 <= y < pixels.Length1 && InBox(x0, y0, w, h, x, y) {
        pixels[x, y] := shade(pixels[x, y]);
      }
      ContentIs(this, ShadeBox(before, x0, y0, w, h, shade));
    }

    /** `ImageDraw.Draw(img).text((x0, y0), text, fill=fill)`, with the glyph coverage given. */
    method DrawText(x0: int, y0: int, glyphs: set<Point>, fill: Pixel)
      modifies pixels
      ensures Content() == InkAt(old(Content()), x0, y0, glyphs, fill)
    {
      ghost var before := Content();
      forall x, y | 0 <= x < pixels.Length0 && 0 <= y < pixels.Length1 && (x - x0, y - y0) in glyphs {
        pixels[x, y] := fill;
      }
      ContentIs(this, InkAt(before, x0, y0, glyphs, fill));
    }
  }

  /** Two pixel buffers with the same size and the same pixels are the same value. */
  lemma ContentIs(img: Image, b: Bitmap)
    requires img.pixels.Length0 == b.width && img.pixels.Length1 == b.height
    requires forall x, y | 0 <= x < b.width && 0 <= y < b.height :: img.pixels[x, y] == b.cols[x][y]
    ensures img.Content() == b
  {
    var c := img.Content();
    forall x | 0 <= x < b.width ensures c.cols[x] == b.cols[x] {
      assert forall y | 0 <= y < b.height :: c.cols[x][y] == b.cols[x][y];
    }
  }

  /** The pixels of every image in `imgs`, in order. */
  function Contents(imgs: seq<Image>): (bs: seq<Bitmap>)
    reads set img | img in imgs :: img.pixels
    ensures |bs| == |imgs| && forall k | 0 <= k < |imgs| :: bs[k] == imgs[k].Content()
  {
    seq(|imgs|, k requires 0 <= k < |imgs| reads set img | img in imgs :: img.pixels => imgs[k].Content())
  }
}
