/** Option and Result values, and the failures the pipeline can raise. */
module Results {

  datatype Option<+T> = None | Some(value: T)

  /** The exceptions the per-slide pipeline lets escape, each named after its cause. */
  datatype Failure =
    | CanvasSizeNegative        // Image.new with a negative width or height raises ValueError
    | ResizeToEmpty             // Image.resize to a box less than one pixel wide or high raises ValueError
    | NothingToCombine          // `widths, heights = zip(*())` cannot unpack an empty zip
    | SlideIndexOutOfRange(index: nat)  // prs.slides[i] past the last slide raises IndexError

  datatype Result<+T> = Success(value: T) | Failure(error: Failure) {
    predicate IsFailure() { Failure? }
    function PropagateFailure<U>(): Result<U> requires Failure? { Failure(error) }
    function Extract(): T requires Success? { value }
  }
}
