/**
 * The planning part of qwen.py's `resize_and_save_image` (downscale only, no
 * rotation, no debug switch: a resized copy is always kept beside the
 * original) and its always-on response sidecar.
 */
module Qwen {
  import opened Wrappers
  import opened Paths
  import opened Scaling
  import opened Formats
  import opened Normalizer
  import opened Responses

  /**
   * `resize_and_save_image`: a copy is written exactly when the longest side
   * exceeds `max_size`; it lies beside the original, is what comes back, and
   * is never the original; otherwise the original path comes back.
   */
  function ResizeAndSave(image: Path, size: Size, maxSize: int): (n: Normalized)
    requires size.Positive()
    ensures n.resizeTo == ResizeTarget(size, maxSize)
    ensures n.rotateCcw.None?
    ensures n.saved.Some? <==> maxSize < Longest(size)
    ensures n.resizeTo.Some? <==> n.saved.Some?
    ensures n.saved.None? ==> n.result == image
    ensures n.saved.Some? ==> n.saved.value == n.result && n.result.dir == image.dir && n.result != image
    ensures n.saved.Some? ==> n.result == Path(image.dir, Stem(image.name) + "_resized" + Suffix(image.name))
  {
    var target := ResizeTarget(size, maxSize);
    if target.Some? then
      var newPath := Path(image.dir, Stem(image.name) + "_resized" + Suffix(image.name));
      assert |newPath.name| > |Stem(image.name)| + |Suffix(image.name)|;
      Normalized(target, None, Some(newPath), newPath)
    else
      Normalized(target, None, None, image)
  }

  /**
   * The copy is `{stem}_resized{suffix}`: the original suffix is kept, so
   * `get_image_format` would name the same format for both (neither script
   * calls it; the library picks the written format from the extension).
   */
  lemma ResizedCopyBesideOriginal(image: Path, size: Size, maxSize: int)
    requires size.Positive()
    requires !EndsWithDot(image.name)
    ensures var n := ResizeAndSave(image, size, maxSize);
      n.saved.Some? ==>
        && Stem(n.result.name) == Stem(image.name) + "_resized"
        && Suffix(n.result.name) == Suffix(image.name)
        && ImageFormat(n.result) == ImageFormat(image)
  {
    InsertKeepsSuffix(image.name, "_resized");
  }

  /** The two scripts agree: qwen.py behaves as clerk.py in debug mode with no stored rotation. */
  lemma AgreesWithClerkUnrotatedDebug(image: Path, size: Size, maxSize: int)
    requires size.Positive()
    ensures ResizeAndSave(image, size, maxSize) == Normalize(image, size, maxSize, 0, true)
  {
    assert TransformTag(true, 0) == "_resized";
  }

  /** The reply sidecar never overwrites the resized copy made from the same image. */
  lemma ResponseNeverOverwritesCopy(image: Path, size: Size, maxSize: int)
    requires size.Positive()
    ensures ResponsePath(image) != ResizeAndSave(image, size, maxSize).result
  {
    var stem := Stem(image.name);
    var n := ResizeAndSave(image, size, maxSize);
    if n.saved.Some? {
      var a, b := stem + "_qwen.txt", stem + "_resized" + Suffix(image.name);
      assert a[|stem| + 1] == 'q' && b[|stem| + 1] == 'r';
    }
  }
}
