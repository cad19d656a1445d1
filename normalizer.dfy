/**
 * The planning part of clerk's `resize_rotate_and_save_image`: whether to
 * downscale, whether to rotate, and which path to hand to the remote call.
 * Pixels are not modelled; the image is known by its size, and the stored
 * rotation (clockwise degrees, 0 when absent or unreadable) is an input.
 */
module Normalizer {
  import opened Wrappers
  import opened Paths
  import opened Decimal
  import opened Scaling
  import opened Formats

  const TempDir: string := "/tmp"

  /** What one call decides and does. */
  datatype Normalized = Normalized(
    resizeTo: Option<Size>,  // the size given to the resampling step
    rotateCcw: Option<int>,  // the counter-clockwise angle given to the rotation step
    saved: Option<Path>,     // where the modified image is written
    result: Path)            // the path returned for the remote call

  /** `_resized` and `_rotated{deg}`, each present only when that step ran, in that order. */
  function TransformTag(resized: bool, rotation: int): string
  {
    (if resized then "_resized" else "") + (if rotation != 0 then "_rotated" + IntToString(rotation) else "")
  }

  /** The kept copy in debug mode: beside the original, tag between stem and suffix. */
  function DebugPath(p: Path, resized: bool, rotation: int): Path
  {
    Path(p.dir, Stem(p.name) + TransformTag(resized, rotation) + Suffix(p.name))
  }

  /** The transient copy outside debug mode: `/tmp/{stem}_temp{suffix}`. */
  function TempPath(p: Path): Path
  {
    Path(TempDir, Stem(p.name) + "_temp" + Suffix(p.name))
  }

  /**
   * The decision as a whole. A resize runs exactly when the longest side
   * exceeds `max_size`, a rotation exactly when the stored angle is non-zero
   * (counter-clockwise by its negation). The original path comes back and
   * nothing is written exactly when neither runs; otherwise the returned path
   * is the copy written, which is never the original file.
   */
  function Normalize(p: Path, size: Size, maxSize: int, rotation: int, debug: bool): (n: Normalized)
    requires size.Positive()
    ensures n.resizeTo == ResizeTarget(size, maxSize)
    ensures n.resizeTo.Some? <==> maxSize < Longest(size)
    ensures n.rotateCcw.Some? <==> rotation != 0
    ensures n.rotateCcw.Some? ==> n.rotateCcw.value == -rotation
    ensures n.result == p <==> Longest(size) <= maxSize && rotation == 0
    ensures n.saved.None? <==> Longest(size) <= maxSize && rotation == 0
    ensures n.saved.Some? ==> n.saved.value == n.result && n.result != p
    ensures n.saved.Some? ==>
      n.result == (if debug then DebugPath(p, maxSize < Longest(size), rotation) else TempPath(p))
  {
    var target := ResizeTarget(size, maxSize);
    var rotateCcw := if rotation != 0 then Some(-rotation) else None;
    if target.Some? || rotation != 0 then
      var out := if debug then DebugPath(p, target.Some?, rotation) else TempPath(p);
      CopyIsNotOriginal(p, target.Some?, rotation);
      Normalized(target, rotateCcw, Some(out), out)
    else
      Normalized(target, rotateCcw, None, p)
  }

  lemma AppendAssoc(a: string, b: string, c: string)
    ensures a + b + c == a + (b + c)
  {
  }

  /** A written copy's name is longer than the original's, so it is never the original. */
  lemma CopyIsNotOriginal(p: Path, resized: bool, rotation: int)
    requires resized || rotation != 0
    ensures DebugPath(p, resized, rotation) != p
    ensures TempPath(p) != p
  {
    assert |TransformTag(resized, rotation)| > 0;
    assert |DebugPath(p, resized, rotation).name| > |Stem(p.name)| + |Suffix(p.name)| == |p.name|;
    assert |TempPath(p).name| > |p.name|;
  }

  /** Step by step, as the script does it: two flags, then the name built piece by piece. */
  method ResizeRotateAndSave(imagePath: Path, size: Size, maxSize: int, rotation: int, debug: bool)
    returns (n: Normalized)
    requires size.Positive()
    ensures n == Normalize(imagePath, size, maxSize, rotation, debug)
  {
    var ratio := Ratio(maxSize, size);
    var resized, rotated := false, false;
    var resizeTo: Option<Size> := None;
    var rotateCcw: Option<int> := None;
    if ratio < 1.0 {
      resizeTo := Some(Size(ScaleDim(size.width, ratio), ScaleDim(size.height, ratio)));
      resized := true;
    }
    if rotation != 0 {
      rotateCcw := Some(-rotation);  // the library turns counter-clockwise
      rotated := true;
    }
    assert resizeTo == ResizeTarget(size, maxSize);
    assert rotateCcw == if rotation != 0 then Some(-rotation) else None;
    assert resized == resizeTo.Some? && rotated == (rotation != 0);
    if (resized || rotated) && debug {
      var newFilename := Stem(imagePath.name);
      ghost var stem, tag := newFilename, "";
      if resized {
        newFilename := newFilename + "_resized";
        tag := "_resized";
      }
      assert newFilename == stem + tag;
      if rotated {
        ghost var before, piece := newFilename, "_rotated" + IntToString(rotation);
        newFilename := newFilename + "_rotated" + IntToString(rotation);
        AppendAssoc(before, "_rotated", IntToString(rotation));
        AppendAssoc(stem, tag, piece);
        tag := tag + piece;
      }
      assert newFilename == stem + tag;
      assert tag == TransformTag(resized, rotation);
      newFilename := newFilename + Suffix(imagePath.name);
      var newPath := Path(imagePath.dir, newFilename);
      assert newPath == DebugPath(imagePath, resized, rotation);
      n := Normalized(resizeTo, rotateCcw, Some(newPath), newPath);
      assert n == Normalize(imagePath, size, maxSize, rotation, debug);
    } else if resized || rotated {
      var tempFile := TempPath(imagePath);
      n := Normalized(resizeTo, rotateCcw, Some(tempFile), tempFile);
      assert n == Normalize(imagePath, size, maxSize, rotation, debug);
    } else {
      n := Normalized(resizeTo, rotateCcw, None, imagePath);
    }
  }

  /** The tag inserted into debug names never contains a dot. */
  lemma {:induction false} TagHasNoDot(resized: bool, rotation: int)
    ensures !Contains(TransformTag(resized, rotation), '.')
  {
    var r := if resized then "_resized" else "";
    var q := if rotation != 0 then "_rotated" + IntToString(rotation) else "";
    assert !Contains(r, '.');
    if rotation != 0 {
      IntToStringNoDot(rotation);
      assert !Contains("_rotated", '.');
      NoDotConcat("_rotated", IntToString(rotation));
    }
    NoDotConcat(r, q);
  }

  lemma NoDotConcat(a: string, b: string)
    requires !Contains(a, '.') && !Contains(b, '.')
    ensures !Contains(a + b, '.')
  {
    forall k | 0 <= k < |a + b| ensures (a + b)[k] != '.' {
      if k >= |a| {
        assert (a + b)[k] == b[k - |a|];
      }
    }
  }

  /**
   * In debug mode the kept copy sits in the original's directory; its stem is
   * the original stem followed by the tag of the steps that ran, and it keeps
   * the original suffix, so `get_image_format` would name the same format for
   * both (neither script calls it; the library picks the written format from
   * the extension).
   */
  lemma DebugCopyBesideOriginal(p: Path, size: Size, maxSize: int, rotation: int)
    requires size.Positive()
    requires !EndsWithDot(p.name)
    requires maxSize < Longest(size) || rotation != 0
    ensures var n := Normalize(p, size, maxSize, rotation, true);
      && n.result.dir == p.dir
      && Stem(n.result.name) == Stem(p.name) + TransformTag(maxSize < Longest(size), rotation)
      && Suffix(n.result.name) == Suffix(p.name)
      && ImageFormat(n.result) == ImageFormat(p)
  {
    var resized := maxSize < Longest(size);
    assert Normalize(p, size, maxSize, rotation, true).result == DebugPath(p, resized, rotation);
    TagHasNoDot(resized, rotation);
    InsertKeepsSuffix(p.name, TransformTag(resized, rotation));
  }

  /**
   * Outside debug mode the copy is `/tmp/{stem}_temp{suffix}`, with the same
   * suffix as the original, so `get_image_format` would name the same format.
   */
  lemma TempCopyInTmp(p: Path, size: Size, maxSize: int, rotation: int)
    requires size.Positive()
    requires !EndsWithDot(p.name)
    requires maxSize < Longest(size) || rotation != 0
    ensures var n := Normalize(p, size, maxSize, rotation, false);
      && n.result.dir == TempDir
      && Stem(n.result.name) == Stem(p.name) + "_temp"
      && Suffix(n.result.name) == Suffix(p.name)
      && ImageFormat(n.result) == ImageFormat(p)
  {
    InsertKeepsSuffix(p.name, "_temp");
  }
}
