/**
 * The raw-response sidecar of `save_response_to_file`, named the same way by
 * both scripts: `{stem}_qwen.txt` in the image's directory.
 */
module Responses {
  import opened Paths

  /**
   * The sidecar sits beside the image, has stem `{stem}_qwen` and suffix
   * `.txt`, and never is the image itself.
   */
  function ResponsePath(image: Path): (r: Path)
    ensures r.dir == image.dir
    ensures Stem(r.name) == Stem(image.name) + "_qwen"
    ensures Suffix(r.name) == ".txt"
    ensures r != image
  {
    var stem := Stem(image.name);
    QwenNameSplit(stem);
    Path(image.dir, stem + "_qwen.txt")
  }

  lemma QwenNameSplit(stem: string)
    ensures Suffix(stem + "_qwen.txt") == ".txt"
    ensures Stem(stem + "_qwen.txt") == stem + "_qwen"
  {
    var n := stem + "_qwen.txt";
    var d := |stem| + 5;
    assert n[d] == '.';
    assert forall k :: d < k < |n| ==> n[k] != '.';
    assert RFind(n, '.') == d;
    assert n[d..] == ".txt";
    assert n[..d] == stem + "_qwen";
  }
}
