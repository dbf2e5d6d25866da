/** Pixel buffers as values, and the value-level meaning of the three ways the
    pipeline paints on an image: `paste` of another image, the 128-alpha tag
    pasted through its own mask, and `draw.text`. */
module Bitmaps {

  type Channel = c: int | 0 <= c < 256

  /** One RGB pixel. Pillow's other image modes are not modelled. */
  datatype Pixel = Rgb(red: Channel, green: Channel, blue: Channel)

  const White: Pixel := Rgb(255, 255, 255)
  const Black: Pixel := Rgb(0, 0, 0)

  /** A pixel buffer of `width` x `height`, stored column by column, so that
      `cols[x][y]` is the pixel Pillow addresses as `(x, y)`. */
  datatype Grid = Grid(width: nat, height: nat, cols: seq<seq<Pixel>>)

  type Bitmap = g: Grid | |g.cols| == g.width && forall x | 0 <= x < g.width :: |g.cols[x]| == g.height
    witness Grid(0, 0, [])

  /** A pixel offset, as `(x, y)`. */
  type Point = (int, int)

  predicate InBounds(b: Bitmap, x: int, y: int) {
    0 <= x < b.width && 0 <= y < b.height
  }

  /** `Image.new(mode, (w, h), color)` as a value: every pixel is `color`. */
  function Blank(w: nat, h: nat, color: Pixel): (r: Bitmap)
    ensures r.width == w && r.height == h
    ensures forall x, y | InBounds(r, x, y) :: r.cols[x][y] == color
  {
    Grid(w, h, seq(w, x => seq(h, y => color)))
  }

  /** Whether the box of size `w` x `h` placed at `(x0, y0)` covers `(x, y)`. */
  predicate InBox(x0: int, y0: int, w: int, h: int, x: int, y: int) {
    x0 <= x < x0 + w && y0 <= y < y0 + h
  }

  /** `dst.paste(src, (ox, oy))`: the part of `src` that falls inside `dst`
      replaces what was there; Pillow clips the rest away. */
  function PasteAt(dst: Bitmap, src: Bitmap, ox: int, oy: int): (r: Bitmap)
    ensures r.width == dst.width && r.height == dst.height
    ensures forall x, y | InBounds(r, x, y) ::
      r.cols[x][y] == if InBox(ox, oy, src.width, src.height, x, y) then src.cols[x - ox][y - oy] else dst.cols[x][y]
  {
    Grid(dst.width, dst.height,
      seq(dst.width, x requires 0 <= x < dst.width =>
        seq(dst.height, y requires 0 <= y < dst.height =>
          if InBox(ox, oy, src.width, src.height, x, y) then src.cols[x - ox][y - oy] else dst.cols[x][y])))
  }

  /** The pixels of `dst` under a `w` x `h` box at `(x0, y0)` pass through `shade`
      (the blend of a translucent fill); the rest stay as they were. */
  function ShadeBox(dst: Bitmap, x0: int, y0: int, w: int, h: int, shade: Pixel -> Pixel): (r: Bitmap)
    ensures r.width == dst.width && r.height == dst.height
    ensures forall x, y | InBounds(r, x, y) ::
      r.cols[x][y] == if InBox(x0, y0, w, h, x, y) then shade(dst.cols[x][y]) else dst.cols[x][y]
  {
    Grid(dst.width, dst.height,
      seq(dst.width, x requires 0 <= x < dst.width =>
        seq(dst.height, y requires 0 <= y < dst.height =>
          if InBox(x0, y0, w, h, x, y) then shade(dst.cols[x][y]) else dst.cols[x][y])))
  }

  /** `draw.text((x0, y0), text, fill)` as a value: the pixels the glyphs cover
      (`glyphs`, offsets from the text origin) take the fill colour. */
  function InkAt(dst: Bitmap, x0: int, y0: int, glyphs: set<Point>, fill: Pixel): (r: Bitmap)
    ensures r.width == dst.width && r.height == dst.height
    ensures forall x, y | InBounds(r, x, y) ::
      r.cols[x][y] == if (x - x0, y - y0) in glyphs then fill else dst.cols[x][y]
  {
    Grid(dst.width, dst.height,
      seq(dst.width, x requires 0 <= x < dst.width =>
        seq(dst.height, y requires 0 <= y < dst.height =>
          if (x - x0, y - y0) in glyphs then fill else dst.cols[x][y])))
  }

  /** `draw.textbbox((0, 0), text, font)`: left, top, right, bottom. */
  datatype TextBox = TextBox(left: int, top: int, right: int, bottom: int)

  /** A bounding box as Pillow returns it, never narrower or shorter than empty. */
  type FontBox = b: TextBox | b.left <= b.right && b.top <= b.bottom
    witness TextBox(0, 0, 0, 0)

  /** What the pipeline takes from Pillow without looking inside: the default
      font's metrics and glyph coverage, the blend of the (0, 0, 0, 128) tag
      fill over a pixel, and the resampling of `Image.resize`. */
  datatype Toolkit = Toolkit(
    textBox: string -> FontBox,
    glyphs: string -> set<Point>,
    shade: Pixel -> Pixel,
    resize: (Bitmap, int, int) -> Bitmap)

  /** Pillow's `Image.resize((w, h))` answers a bitmap of exactly w by h for
      any positive size; the toolkit is only known to do so when this holds. */
  ghost predicate ResizesExactly(kit: Toolkit)
  {
    forall b: Bitmap, w: int, h: int | w >= 1 && h >= 1 ::
      kit.resize(b, w, h).width == w && kit.resize(b, w, h).height == h
  }
}
