/**
 * `get_image_format`: the image-library format name for a path, looked up by
 * the lower-cased suffix in a fixed table and defaulting to JPEG. Both scripts
 * carry the same table.
 */
module Formats {
  import opened Paths

  const FormatMap: map<string, string> := map[
    ".jpg" := "JPEG",
    ".jpeg" := "JPEG",
    ".png" := "PNG",
    ".gif" := "GIF",
    ".bmp" := "BMP",
    ".tiff" := "TIFF"
  ]

  const Formats: set<string> := {"JPEG", "PNG", "GIF", "BMP", "TIFF"}

  function ImageFormat(p: Path): (r: string)
    ensures r in Formats
    ensures Suffix(p.name) == "" ==> r == "JPEG"
    ensures r != "JPEG" ==> AsciiLower(Suffix(p.name)) in FormatMap
    ensures AsciiLower(Suffix(p.name)) in FormatMap ==> r == FormatMap[AsciiLower(Suffix(p.name))]
  {
    var ext := AsciiLower(Suffix(p.name));
    if ext in FormatMap then FormatMap[ext] else "JPEG"
  }

  /**
   * Only the case-folded suffix matters: two names that differ only in ASCII
   * case, in any directory, get the same format.
   */
  lemma FormatIgnoresCase(p: Path, q: Path)
    requires AsciiLower(p.name) == AsciiLower(q.name)
    ensures ImageFormat(p) == ImageFormat(q)
  {
    SuffixIgnoresCase(p.name, q.name);
  }

  /** The upper-case spellings found on cameras map like the lower-case ones. */
  lemma {:induction false} UpperCaseExtensions(dir: string)
    ensures ImageFormat(Path(dir, "IMG.JPG")) == "JPEG"
    ensures ImageFormat(Path(dir, "SCAN.TIFF")) == "TIFF"
    ensures ImageFormat(Path(dir, "Shot.Png")) == "PNG"
  {
    UpperJpg(dir);
    UpperTiff(dir);
    MixedPng(dir);
  }

  lemma {:induction false} UpperJpg(dir: string)
    ensures ImageFormat(Path(dir, "IMG.JPG")) == "JPEG"
  {
    var a := "IMG.JPG";
    SplitAt(a, 3);
    assert a[3..] == ".JPG";
    assert AsciiLower(".JPG") == ".jpg";
  }

  lemma {:induction false} UpperTiff(dir: string)
    ensures ImageFormat(Path(dir, "SCAN.TIFF")) == "TIFF"
  {
    var b := "SCAN.TIFF";
    SplitAt(b, 4);
    assert b[4..] == ".TIFF";
    assert AsciiLower(".TIFF") == ".tiff";
  }

  lemma {:induction false} MixedPng(dir: string)
    ensures ImageFormat(Path(dir, "Shot.Png")) == "PNG"
  {
    var c := "Shot.Png";
    SplitAt(c, 4);
    assert c[4..] == ".Png";
    assert AsciiLower(".Png") == ".png";
  }
}
