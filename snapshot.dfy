/** `generate_slide_snapshot`: a white canvas the size of the slide, with every
    picture resized into its box and pasted, and every other text-bearing
    shape's text drawn in black at its top-left corner, in shape order. */
module Snapshot {
  import opened Results
  import opened Bitmaps
  import opened Raster
  import opened Slides

  /** One painting step of the snapshot, placed by the shape's own geometry in
      EMU; `Apply` converts it to pixels. */
  datatype PaintOp =
    | PastePicture(left: int, top: int, width: int, height: int, picture: Bitmap)
    | WriteText(left: int, top: int, text: string)

  /** What one shape paints: a picture is pasted into its box (and its text, if
      any, is not drawn, because of the `elif`); another shape with text has its
      text drawn; anything else paints nothing. */
  function ShapeOps(s: Shape): seq<PaintOp> {
    if IsPicture(s) then
      [PastePicture(s.left, s.top, s.width, s.height, s.image)]
    else if s.text.Some? then
      [WriteText(s.left, s.top, s.text.value)]
    else []
  }

  /** The painting steps of a whole slide, in shape order. */
  function RenderPlan(shapes: seq<Shape>): seq<PaintOp> {
    if shapes == [] then []
    else RenderPlan(shapes[..|shapes| - 1]) + ShapeOps(shapes[|shapes| - 1])
  }

  /** A picture whose pixel box is less than one pixel wide or high: resizing
      it raises. */
  predicate Unresizable(s: Shape) {
    IsPicture(s) && (ToPixels(s.width) < 1 || ToPixels(s.height) < 1)
  }

  /** One step applied to the canvas: the picture resized to its box in pixels
      and pasted at its top-left corner in pixels, or the text inked in black at
      its top-left corner in pixels. */
  function Apply(canvas: Bitmap, op: PaintOp, kit: Toolkit): (r: Bitmap)
    ensures r.width == canvas.width && r.height == canvas.height
  {
    match op
    case PastePicture(left, top, width, height, picture) =>
      PasteAt(canvas, kit.resize(picture, ToPixels(width), ToPixels(height)), ToPixels(left), ToPixels(top))
    case WriteText(left, top, text) => InkAt(canvas, ToPixels(left), ToPixels(top), kit.glyphs(text), Black)
  }

  /** The canvas after the steps `ops`, in order. */
  function Render(canvas: Bitmap, ops: seq<PaintOp>, kit: Toolkit): (r: Bitmap)
    ensures r.width == canvas.width && r.height == canvas.height
  {
    if ops == [] then canvas
    else Apply(Render(canvas, ops[..|ops| - 1], kit), ops[|ops| - 1], kit)
  }

  /** The snapshot of a slide, or the error painting it raises. */
  function SlideSnapshot(slideWidth: int, slideHeight: int, shapes: seq<Shape>, kit: Toolkit): Result<Bitmap> {
    var w, h := ToPixels(slideWidth), ToPixels(slideHeight);
    if w < 0 || h < 0 then Failure(CanvasSizeNegative)
    else if exists n | 0 <= n < |shapes| :: Unresizable(shapes[n]) then Failure(ResizeToEmpty)
    else Success(Render(Blank(w, h, White), RenderPlan(shapes), kit))
  }

  // ---------------------------------------------------------------------

  lemma RenderSnoc(canvas: Bitmap, ops: seq<PaintOp>, more: seq<PaintOp>, kit: Toolkit)
    requires |more| <= 1
    ensures Render(canvas, ops + more, kit) == if more == [] then Render(canvas, ops, kit) else Apply(Render(canvas, ops, kit), more[0], kit)
  {
    if more == [] {
      assert ops + more == ops;
    } else {
      assert (ops + more)[..|ops|] == ops;
    }
  }

  /** The plan is the shapes' own steps laid end to end: shape `k`'s steps come
      after those of the shapes before it and before those of the shapes after it. */
  lemma {:induction false} RenderPlanAppend(a: seq<Shape>, b: seq<Shape>)
    ensures RenderPlan(a + b) == RenderPlan(a) + RenderPlan(b)
    decreases |b|
  {
    if b == [] {
      assert a + b == a;
    } else {
      var init, last := b[..|b| - 1], b[|b| - 1];
      RenderPlanAppend(a, init);
      assert (a + b)[..|a + b| - 1] == a + init by {
        forall n | 0 <= n < |a + init|
          ensures (a + b)[..|a + b| - 1][n] == (a + init)[n]
        {
        }
      }
      assert RenderPlan(a + b) == RenderPlan(a + init) + ShapeOps(last);
      assert RenderPlan(b) == RenderPlan(init) + ShapeOps(last);
    }
  }

  lemma PlanFollowsShapes(shapes: seq<Shape>, k: nat)
    requires k < |shapes|
    ensures RenderPlan(shapes) == RenderPlan(shapes[..k]) + ShapeOps(shapes[k]) + RenderPlan(shapes[k + 1..])
  {
    var before, after := shapes[..k], shapes[k + 1..];
    var upTo := before + [shapes[k]];
    assert shapes == upTo + after by {
      assert |shapes| == |upTo + after|;
      forall j | 0 <= j < |shapes|
        ensures shapes[j] == (upTo + after)[j]
      {
        if j < k {
          assert shapes[j] == before[j];
        } else if j > k {
          assert shapes[j] == after[j - k - 1];
        }
      }
    }
    calc {
      RenderPlan(shapes);
      RenderPlan(upTo + after);
      { RenderPlanAppend(upTo, after); }
      RenderPlan(upTo) + RenderPlan(after);
      RenderPlan(before + [shapes[k]]) + RenderPlan(after);
      { RenderPlanSnoc(before, shapes[k]); }
      RenderPlan(before) + ShapeOps(shapes[k]) + RenderPlan(after);
    }
  }

  lemma PlanStep(shapes: seq<Shape>, n: nat)
    requires n < |shapes|
    ensures RenderPlan(shapes[..n + 1]) == RenderPlan(shapes[..n]) + ShapeOps(shapes[n])
  {
    var upTo := shapes[..n + 1];
    assert upTo[..n] == shapes[..n] by {
      forall j | 0 <= j < n
        ensures upTo[..n][j] == shapes[..n][j]
      {
      }
    }
  }

  lemma RenderPlanSnoc(before: seq<Shape>, s: Shape)
    ensures RenderPlan(before + [s]) == RenderPlan(before) + ShapeOps(s)
  {
    assert (before + [s])[..|before|] == before;
  }

  /** Painting the first `n + 1` shapes is painting the first `n`, then shape `n`. */
  lemma RenderStep(canvas: Bitmap, shapes: seq<Shape>, n: nat, kit: Toolkit)
    requires n < |shapes|
    ensures Render(canvas, RenderPlan(shapes[..n + 1]), kit)
            == Render(Render(canvas, RenderPlan(shapes[..n]), kit), ShapeOps(shapes[n]), kit)
  {
    var ops := ShapeOps(shapes[n]);
    PlanStep(shapes, n);
    RenderSnoc(canvas, RenderPlan(shapes[..n]), ops, kit);
    RenderSnoc(Render(canvas, RenderPlan(shapes[..n]), kit), [], ops, kit);
    assert [] + ops == ops;
  }

  /** A picture shape is pasted, resized to its box converted to pixels,
      whatever text it carries; its text is never drawn. */
  lemma PictureIsPastedNotWritten(canvas: Bitmap, s: Shape, kit: Toolkit)
    requires IsPicture(s)
    ensures Render(canvas, ShapeOps(s), kit)
            == PasteAt(canvas, kit.resize(s.image, ToPixels(s.width), ToPixels(s.height)), ToPixels(s.left), ToPixels(s.top))
  {
    assert ShapeOps(s)[..0] == [];
  }

  /** Whether a step can change the pixel `(x, y)`. */
  predicate Touches(op: PaintOp, kit: Toolkit, x: int, y: int) {
    match op
    case PastePicture(left, top, width, height, picture) =>
      var resized := kit.resize(picture, ToPixels(width), ToPixels(height));
      InBox(ToPixels(left), ToPixels(top), resized.width, resized.height, x, y)
    case WriteText(left, top, text) => (x - ToPixels(left), y - ToPixels(top)) in kit.glyphs(text)
  }

  /** With a toolkit whose resize answers the size asked for, a paste step
      touches exactly the pixels of its box converted to pixels. */
  lemma PasteTouchesItsBox(op: PaintOp, kit: Toolkit, x: int, y: int)
    requires ResizesExactly(kit)
    requires op.PastePicture? && ToPixels(op.width) >= 1 && ToPixels(op.height) >= 1
    ensures Touches(op, kit, x, y)
            <==> InBox(ToPixels(op.left), ToPixels(op.top), ToPixels(op.width), ToPixels(op.height), x, y)
  {
  }

  /** A picture that can be resized paints exactly its converted box, with
      the resized picture's pixels, and leaves every other pixel as it was. */
  lemma PicturePaintsItsBox(canvas: Bitmap, s: Shape, kit: Toolkit, x: int, y: int)
    requires ResizesExactly(kit)
    requires IsPicture(s) && !Unresizable(s) && InBounds(canvas, x, y)
    ensures Render(canvas, ShapeOps(s), kit).cols[x][y]
            == if InBox(ToPixels(s.left), ToPixels(s.top), ToPixels(s.width), ToPixels(s.height), x, y)
               then kit.resize(s.image, ToPixels(s.width), ToPixels(s.height)).cols[x - ToPixels(s.left)][y - ToPixels(s.top)]
               else canvas.cols[x][y]
  {
  }

  /** A last step that does not touch a pixel leaves it as the earlier steps
      painted it. */
  lemma UntouchedPixelKept(canvas: Bitmap, ops: seq<PaintOp>, kit: Toolkit, x: int, y: int)
    requires ops != [] && InBounds(canvas, x, y) && !Touches(ops[|ops| - 1], kit, x, y)
    ensures Render(canvas, ops, kit).cols[x][y] == Render(canvas, ops[..|ops| - 1], kit).cols[x][y]
  {
  }

  /** A last step that pastes over a pixel puts the resized picture's pixel there. */
  lemma PastedPixel(canvas: Bitmap, ops: seq<PaintOp>, kit: Toolkit, x: int, y: int)
    requires ops != [] && InBounds(canvas, x, y)
    requires ops[|ops| - 1].PastePicture? && Touches(ops[|ops| - 1], kit, x, y)
    ensures var op := ops[|ops| - 1];
      Render(canvas, ops, kit).cols[x][y]
      == kit.resize(op.picture, ToPixels(op.width), ToPixels(op.height)).cols[x - ToPixels(op.left)][y - ToPixels(op.top)]
  {
  }

  /** Later steps paint over earlier ones: the pixel `(x, y)` shows the resized
      picture of the last paste that covers it, when no step after that paste
      touches it. */
  lemma {:induction false} LastPasteWins(canvas: Bitmap, ops: seq<PaintOp>, j: nat, kit: Toolkit, x: int, y: int)
    requires j < |ops| && ops[j].PastePicture? && InBounds(canvas, x, y)
    requires Touches(ops[j], kit, x, y)
    requires forall n | j < n < |ops| :: !Touches(ops[n], kit, x, y)
    ensures var op := ops[j];
      Render(canvas, ops, kit).cols[x][y]
      == kit.resize(op.picture, ToPixels(op.width), ToPixels(op.height)).cols[x - ToPixels(op.left)][y - ToPixels(op.top)]
    decreases |ops|
  {
    if j < |ops| - 1 {
      var init := ops[..|ops| - 1];
      assert init[j] == ops[j];
      LastPasteWins(canvas, init, j, kit, x, y);
      UntouchedPixelKept(canvas, ops, kit, x, y);
    } else {
      PastedPixel(canvas, ops, kit, x, y);
    }
  }

  /** With a toolkit whose resize answers the size asked for, a pixel inside
      the converted box of a paste shows the resized picture when no later
      step touches it. */
  lemma BoxedPictureWins(canvas: Bitmap, ops: seq<PaintOp>, j: nat, kit: Toolkit, x: int, y: int)
    requires ResizesExactly(kit)
    requires j < |ops| && ops[j].PastePicture? && InBounds(canvas, x, y)
    requires ToPixels(ops[j].width) >= 1 && ToPixels(ops[j].height) >= 1
    requires InBox(ToPixels(ops[j].left), ToPixels(ops[j].top), ToPixels(ops[j].width), ToPixels(ops[j].height), x, y)
    requires forall n | j < n < |ops| :: !Touches(ops[n], kit, x, y)
    ensures var op := ops[j];
      Render(canvas, ops, kit).cols[x][y]
      == kit.resize(op.picture, ToPixels(op.width), ToPixels(op.height)).cols[x - ToPixels(op.left)][y - ToPixels(op.top)]
  {
    LastPasteWins(canvas, ops, j, kit, x, y);
  }

  // ---------------------------------------------------------------------

  /** One pass of the shape loop: a picture is resized to its pixel box (which
      fails when the box is empty) and pasted; `elif` the shape has text, the
      text is inked in black. `painted` is false exactly when the resize fails,
      and then nothing has been painted. */
  method PaintShape(slideImage: Image, shape: Shape, kit: Toolkit) returns (painted: bool)
    modifies slideImage.pixels
    ensures painted <==> !Unresizable(shape)
    ensures !painted ==> slideImage.Content() == old(slideImage.Content())
    ensures painted ==> slideImage.Content() == Render(old(slideImage.Content()), ShapeOps(shape), kit)
  {
    ghost var before := slideImage.Content();
    RenderSnoc(before, [], ShapeOps(shape), kit);
    assert [] + ShapeOps(shape) == ShapeOps(shape);
    if shape.shapeType == PICTURE {
      var left := ToPixels(shape.left);
      var top := ToPixels(shape.top);
      var width := ToPixels(shape.width);
      var height := ToPixels(shape.height);
      if width < 1 || height < 1 {
        return false;
      }
      var image := kit.resize(shape.image, width, height);
      slideImage.Paste(image, left, top);
    } else if shape.text.Some? {
      var left := ToPixels(shape.left);
      var top := ToPixels(shape.top);
      slideImage.DrawText(left, top, kit.glyphs(shape.text.value), Black);
    }
    return true;
  }

  /** The shape loop: every shape painted in order, stopping at the first
      picture that cannot be resized. `ok` is true exactly when every picture
      can be, and then the image shows the whole plan painted over what it
      showed before. */
  method PaintShapes(slideImage: Image, shapes: seq<Shape>, kit: Toolkit) returns (ok: bool)
    modifies slideImage.pixels
    ensures ok <==> forall k | 0 <= k < |shapes| :: !Unresizable(shapes[k])
    ensures ok ==> slideImage.Content() == Render(old(slideImage.Content()), RenderPlan(shapes), kit)
  {
    ghost var canvas := slideImage.Content();
    for n := 0 to |shapes|
      invariant forall k | 0 <= k < n :: !Unresizable(shapes[k])
      invariant slideImage.Content() == Render(canvas, RenderPlan(shapes[..n]), kit)
    {
      var painted := PaintShape(slideImage, shapes[n], kit);
      if !painted {
        return false;
      }
      RenderStep(canvas, shapes, n, kit);
    }
    assert shapes[..|shapes|] == shapes;
    return true;
  }

  /** `generate_slide_snapshot(slide)`: a white `int(w*96)` x `int(h*96)` canvas,
      then every shape painted in order. */
  method GenerateSlideSnapshot(slideWidth: int, slideHeight: int, shapes: seq<Shape>, kit: Toolkit)
    returns (snapshot: Result<Image>)
    ensures snapshot.Failure? ==> SlideSnapshot(slideWidth, slideHeight, shapes, kit) == Failure(snapshot.error)
    ensures snapshot.Success? ==> SlideSnapshot(slideWidth, slideHeight, shapes, kit) == Success(snapshot.value.Content())
  {
    var width := ToPixels(slideWidth);
    var height := ToPixels(slideHeight);
    if width < 0 || height < 0 {
      return Failure(CanvasSizeNegative);
    }
    var slideImage := new Image.New(width, height, White);
    var ok := PaintShapes(slideImage, shapes, kit);
    if !ok {
      return Failure(ResizeToEmpty);
    }
    return Success(slideImage);
  }
}
