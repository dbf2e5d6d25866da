/** The composite image: the labeled images of a slide side by side, left to
    right, top-aligned, on a black canvas as wide as all of them together and
    as high as the highest. */
module Composite {
  import opened Results
  import opened Bitmaps
  import opened Raster

  /** Where image `k` is pasted: the sum of the widths of the images before it. */
  function Offset(bs: seq<Bitmap>, k: nat): nat
    requires k <= |bs|
  {
    if k == 0 then 0 else Offset(bs, k - 1) + bs[k - 1].width
  }

  /** `sum(widths)`. */
  function TotalWidth(bs: seq<Bitmap>): nat {
    Offset(bs, |bs|)
  }

  /** `max(heights)` (0 for no image, where the source fails before asking). */
  function MaxHeight(bs: seq<Bitmap>): nat {
    if bs == [] then 0
    else
      var h := MaxHeight(bs[..|bs| - 1]);
      if bs[|bs| - 1].height > h then bs[|bs| - 1].height else h
  }

  /** `canvas` after the first `k` images have been pasted at their offsets. */
  function PastedFirst(bs: seq<Bitmap>, k: nat, canvas: Bitmap): (r: Bitmap)
    requires k <= |bs|
    ensures r.width == canvas.width && r.height == canvas.height
  {
    if k == 0 then canvas
    else PasteAt(PastedFirst(bs, k - 1, canvas), bs[k - 1], Offset(bs, k - 1), 0)
  }

  /** The composite of `bs`, as the paste loop leaves it. */
  function Concat(bs: seq<Bitmap>): Bitmap {
    PastedFirst(bs, |bs|, Blank(TotalWidth(bs), MaxHeight(bs), Black))
  }

  // ---------------------------------------------------------------------
  // Geometry of the layout

  /** Every image is at most as high as the canvas, and some image is exactly as high. */
  lemma {:induction false} MaxHeightIsMax(bs: seq<Bitmap>)
    ensures forall k | 0 <= k < |bs| :: bs[k].height <= MaxHeight(bs)
    ensures bs != [] ==> exists k | 0 <= k < |bs| :: bs[k].height == MaxHeight(bs)
  {
    if bs != [] {
      var init := bs[..|bs| - 1];
      MaxHeightIsMax(init);
      assert forall k | 0 <= k < |init| :: init[k] == bs[k];
      if init != [] && MaxHeight(bs) == MaxHeight(init) {
        var k :| 0 <= k < |init| && init[k].height == MaxHeight(init);
        assert bs[k].height == MaxHeight(bs);
      } else {
        assert bs[|bs| - 1].height == MaxHeight(bs);
      }
    }
  }

  /** Offsets only grow: image `j` ends no later than image `k` starts, for `j < k`. */
  lemma {:induction false} OffsetsOrdered(bs: seq<Bitmap>, j: nat, k: nat)
    requires j < k <= |bs|
    ensures Offset(bs, j) + bs[j].width <= Offset(bs, k)
    decreases k
  {
    if j < k - 1 {
      OffsetsOrdered(bs, j, k - 1);
    }
  }

  /** The pasted region of image `k` lies inside the canvas: it ends at or
      before the total width, and is no taller than the tallest image. */
  lemma RegionInside(bs: seq<Bitmap>, k: nat)
    requires k < |bs|
    ensures Offset(bs, k) + bs[k].width <= TotalWidth(bs) && bs[k].height <= MaxHeight(bs)
  {
    if k + 1 < |bs| {
      OffsetsOrdered(bs, k, |bs|);
    }
    MaxHeightIsMax(bs);
  }

  /** The pasted regions lie inside the canvas and do not overlap: image `k`
      occupies columns `Offset(k) .. Offset(k) + width` and rows `0 .. height`,
      and image `j < k` ends where or before image `k` begins. */
  lemma RegionsInsideAndDisjoint(bs: seq<Bitmap>, j: nat, k: nat)
    requires j < k < |bs|
    ensures Offset(bs, k) + bs[k].width <= TotalWidth(bs) && bs[k].height <= MaxHeight(bs)
    ensures Offset(bs, j) + bs[j].width <= Offset(bs, k)
  {
    OffsetsOrdered(bs, j, k);
    RegionInside(bs, k);
  }

  /** Every column of the canvas belongs to some image's region (and, by
      `RegionsInsideAndDisjoint`, to no other). */
  lemma {:induction false} ColumnOwner(bs: seq<Bitmap>, col: nat)
    requires col < TotalWidth(bs)
    ensures exists k | 0 <= k < |bs| :: Offset(bs, k) <= col < Offset(bs, k) + bs[k].width
  {
    var m := |bs|;
    while Offset(bs, m - 1) > col
      invariant 0 < m <= |bs| && col < Offset(bs, m)
      decreases m
    {
      m := m - 1;
    }
  }

  // ---------------------------------------------------------------------
  // Pixels of the composite

  /** Columns at or right of the next offset are not touched yet. */
  lemma {:induction false} UntouchedRight(bs: seq<Bitmap>, m: nat, canvas: Bitmap, x: nat, y: nat)
    requires m <= |bs| && Offset(bs, m) <= x && InBounds(canvas, x, y)
    ensures PastedFirst(bs, m, canvas).cols[x][y] == canvas.cols[x][y]
  {
    if m > 0 {
      UntouchedRight(bs, m - 1, canvas, x, y);
    }
  }

  /** Pasting image `m - 1` leaves the columns left of its offset as they were. */
  lemma PasteKeepsLeft(bs: seq<Bitmap>, m: nat, canvas: Bitmap, x: nat, y: nat)
    requires 0 < m <= |bs| && x < Offset(bs, m - 1) && InBounds(canvas, x, y)
    ensures PastedFirst(bs, m, canvas).cols[x][y] == PastedFirst(bs, m - 1, canvas).cols[x][y]
  {
  }

  /** Pasting image `k` puts its pixels in its region, down to its height. */
  lemma PasteFillsRegion(bs: seq<Bitmap>, k: nat, canvas: Bitmap, x: nat, y: nat)
    requires k < |bs| && x < bs[k].width && InBounds(canvas, Offset(bs, k) + x, y)
    ensures PastedFirst(bs, k + 1, canvas).cols[Offset(bs, k) + x][y]
            == if y < bs[k].height then bs[k].cols[x][y] else PastedFirst(bs, k, canvas).cols[Offset(bs, k) + x][y]
  {
  }

  /** Once image `k` is pasted, its region keeps its pixels: a later image never
      reaches back into it, and below the image's height the canvas shows through. */
  lemma {:induction false} PastedRegionKept(bs: seq<Bitmap>, m: nat, canvas: Bitmap, k: nat, x: nat, y: nat)
    requires k < m <= |bs| && x < bs[k].width && InBounds(canvas, Offset(bs, k) + x, y)
    ensures PastedFirst(bs, m, canvas).cols[Offset(bs, k) + x][y]
            == if y < bs[k].height then bs[k].cols[x][y] else canvas.cols[Offset(bs, k) + x][y]
    decreases m
  {
    var col := Offset(bs, k) + x;
    if m == k + 1 {
      PasteFillsRegion(bs, k, canvas, x, y);
      UntouchedRight(bs, k, canvas, col, y);
    } else {
      OffsetsOrdered(bs, k, m - 1);
      PasteKeepsLeft(bs, m, canvas, col, y);
      PastedRegionKept(bs, m - 1, canvas, k, x, y);
      assert PastedFirst(bs, m, canvas).cols[col][y] == PastedFirst(bs, m - 1, canvas).cols[col][y];
    }
  }

  /** The composite is `sum(widths)` x `max(heights)`; inside image `k`'s
      columns each pixel is image `k`'s own where the image reaches and the
      black background below it. */
  lemma ConcatLayout(bs: seq<Bitmap>, k: nat, x: nat, y: nat)
    requires k < |bs| && x < bs[k].width && y < MaxHeight(bs)
    ensures Concat(bs).width == TotalWidth(bs) && Concat(bs).height == MaxHeight(bs)
    ensures Offset(bs, k) + x < TotalWidth(bs)
    ensures Concat(bs).cols[Offset(bs, k) + x][y] == if y < bs[k].height then bs[k].cols[x][y] else Black
  {
    if k + 1 < |bs| {
      OffsetsOrdered(bs, k, |bs|);
    }
    PastedRegionKept(bs, |bs|, Blank(TotalWidth(bs), MaxHeight(bs), Black), k, x, y);
  }

  // ---------------------------------------------------------------------
  // The paste loop

  /** The composite step of `analyze_powerpoint`: `zip(*sizes)` fails on no
      images; otherwise a black `sum(widths)` x `max(heights)` canvas receives
      each image at `(x_offset, 0)`, `x_offset` advancing by the image's width,
      and the canvas is saved. */
  method CombineImages(imgs: seq<Image>) returns (saved: Result<Bitmap>)
    ensures saved == if imgs == [] then Failure(NothingToCombine) else Success(Concat(Contents(imgs)))
  {
    if imgs == [] {
      return Failure(NothingToCombine);
    }
    ghost var bs := Contents(imgs);
    var maxHeight := MaxHeight(Contents(imgs));
    var totalWidth := TotalWidth(Contents(imgs));
    var combined := new Image.New(totalWidth, maxHeight, Black);
    var xOffset := 0;
    for k := 0 to |imgs|
      invariant Contents(imgs) == bs
      invariant xOffset == Offset(bs, k)
      invariant combined.Content() == PastedFirst(bs, k, Blank(totalWidth, maxHeight, Black))
    {
      combined.Paste(imgs[k].Content(), xOffset, 0);
      xOffset := xOffset + imgs[k].Width();
    }
    assert xOffset == totalWidth;
    return Success(combined.Content());
  }
}
