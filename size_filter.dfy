/** `is_valid_image_size`: the minimum-resolution test applied to every image candidate. */
module SizeFilter {
  import opened Wrappers

  /**
   * `dims` is what the image decoder reports, `Some((width, height))`, or `None` when
   * opening or decoding the file raises; an undecodable file never passes.
   */
  predicate IsValidImageSize(dims: Option<(nat, nat)>, minSize: int)
  {
    match dims
    case None => false
    case Some((width, height)) => width >= minSize && height >= minSize
  }

  /** The filter passes exactly the decodable images whose both sides reach the threshold. */
  lemma {:induction false} ValidSizeMeans(dims: Option<(nat, nat)>, minSize: int)
    ensures IsValidImageSize(dims, minSize) <==> dims.Some? && dims.value.0 >= minSize && dims.value.1 >= minSize
    ensures dims.Some? && (dims.value.0 < minSize || dims.value.1 < minSize) ==> !IsValidImageSize(dims, minSize)
  {
  }

  /** Lowering the threshold never rejects an image that passed. */
  lemma {:induction false} ThresholdMonotone(dims: Option<(nat, nat)>, minSize: int, lower: int)
    requires lower <= minSize && IsValidImageSize(dims, minSize)
    ensures IsValidImageSize(dims, lower)
  {
  }

  /** An 800 by 800 image passes a threshold of 700, a 500 by 500 one does not. */
  lemma {:induction false} ThresholdExamples()
    ensures IsValidImageSize(Some((800, 800)), 700)
    ensures !IsValidImageSize(Some((500, 500)), 700)
    ensures !IsValidImageSize(None, 0)
  {
  }
}
