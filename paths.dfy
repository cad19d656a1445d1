/**
 * File paths as the scripts use them through pathlib: a parent directory and
 * a final component (`name`), with `stem` and `suffix` split at the last dot
 * by the rule of CPython 3.12's PurePath (a dot at position 0 or at the very
 * end does not start a suffix). Also the ASCII case folding used on suffixes.
 */
module Paths {

  /** A normalised POSIX path `dir/name`; two paths are equal when both parts are. */
  datatype Path = Path(dir: string, name: string)

  /** Index of the last occurrence of `c` in `s`, or -1 (Python's str.rfind). */
  function RFind(s: string, c: char): (r: int)
    ensures -1 <= r < |s|
    ensures r >= 0 ==> s[r] == c
    ensures forall k :: r < k < |s| ==> s[k] != c
  {
    if |s| == 0 then -1
    else if s[|s| - 1] == c then |s| - 1
    else RFind(s[..|s| - 1], c)
  }

  /** True when the dot found by rfind starts a suffix. */
  predicate HasSuffix(name: string)
  {
    0 < RFind(name, '.') < |name| - 1
  }

  /**
   * `PurePath.suffix`: from the last dot on, or empty. It is non-empty
   * exactly when the last dot is neither the first nor the last character.
   */
  function Suffix(name: string): (r: string)
    ensures r == "" || (r[0] == '.' && |r| >= 2)
    ensures forall k :: 0 < k < |r| ==> r[k] != '.'
    ensures |r| <= |name| && r == name[|name| - |r|..]
    ensures r != "" <==>
      exists i :: 0 < i < |name| - 1 && name[i] == '.' && forall k :: i < k < |name| ==> name[k] != '.'
  {
    var d := RFind(name, '.');
    if 0 < d < |name| - 1 then
      name[d..]
    else
      assert forall i :: 0 < i < |name| - 1 && name[i] == '.' ==> i <= d;
      ""
  }

  /** `PurePath.stem`: the name without its suffix. */
  function Stem(name: string): (r: string)
    ensures r + Suffix(name) == name
  {
    if HasSuffix(name) then name[..RFind(name, '.')] else name
  }

  function Contains(s: string, c: char): bool
  {
    exists k :: 0 <= k < |s| && s[k] == c
  }

  predicate EndsWithDot(name: string)
  {
    |name| > 0 && name[|name| - 1] == '.'
  }

  /**
   * Inserting a dot-free `tag` between the stem and the suffix leaves the
   * suffix unchanged and extends the stem, unless the name ends with a dot.
   */
  lemma {:induction false} InsertKeepsSuffix(name: string, tag: string)
    requires !Contains(tag, '.')
    requires !EndsWithDot(name)
    ensures Suffix(Stem(name) + tag + Suffix(name)) == Suffix(name)
    ensures Stem(Stem(name) + tag + Suffix(name)) == Stem(name) + tag
  {
    var stem, suf := Stem(name), Suffix(name);
    var n' := stem + tag + suf;
    var i := RFind(name, '.');
    var j := RFind(n', '.');
    if HasSuffix(name) {
      // the last dot of the new name is the dot that starts the suffix
      assert n'[|stem| + |tag|] == '.';
      assert forall k :: |stem| + |tag| < k < |n'| ==> n'[k] == suf[k - |stem| - |tag|];
      assert j == |stem| + |tag|;
      assert n'[j..] == suf;
    } else {
      assert suf == "" && stem == name && n' == name + tag;
      if i == -1 {
        assert forall k :: 0 <= k < |n'| ==> n'[k] != '.' by {
          forall k | 0 <= k < |n'| ensures n'[k] != '.' {
            if k >= |name| { assert n'[k] == tag[k - |name|]; }
          }
        }
        assert j == -1;
      } else {
        // the only dot of `name` is its first character
        assert i == 0 || i == |name| - 1;
        assert i == 0;
        assert forall k :: 0 < k < |n'| ==> n'[k] != '.' by {
          forall k | 0 < k < |n'| ensures n'[k] != '.' {
            if k >= |name| { assert n'[k] == tag[k - |name|]; }
          }
        }
        assert n'[0] == '.';
        assert j == 0;
      }
    }
  }

  /** A dot inside the name with no dot after it splits stem and suffix. */
  lemma SplitAt(name: string, d: int)
    requires 0 < d < |name| - 1 && name[d] == '.'
    requires forall k :: d < k < |name| ==> name[k] != '.'
    ensures Suffix(name) == name[d..] && Stem(name) == name[..d]
  {
    assert RFind(name, '.') == d;
  }

  /** The counterexample that makes `!EndsWithDot` necessary above. */
  lemma TrailingDotLosesSuffix()
    ensures Suffix("scan.") == ""
    ensures Suffix(Stem("scan.") + "_resized" + Suffix("scan.")) == "._resized"
  {
    assert RFind("scan.", '.') == 4;
    assert "scan." + "_resized" + "" == "scan._resized";
    var n := "scan._resized";
    assert n[4] == '.' && forall k :: 4 < k < |n| ==> n[k] != '.';
    assert RFind(n, '.') == 4;
  }

  /** ASCII lower-casing of one character. */
  function LowerChar(c: char): char
  {
    if 'A' <= c <= 'Z' then (c as int + 32) as char else c
  }

  /** ASCII lower-casing of a string (the `.lower()` applied to suffixes). */
  function AsciiLower(s: string): (r: string)
    ensures |r| == |s|
    ensures forall k :: 0 <= k < |s| ==> r[k] == LowerChar(s[k])
  {
    seq(|s|, k requires 0 <= k < |s| => LowerChar(s[k]))
  }

  /** Lower-casing moves no dot, so the last dot stays where it was. */
  lemma {:induction false} RFindLower(s: string)
    ensures RFind(AsciiLower(s), '.') == RFind(s, '.')
  {
  }

  /** Case-insensitively equal names have case-insensitively equal suffixes. */
  lemma SuffixIgnoresCase(a: string, b: string)
    requires AsciiLower(a) == AsciiLower(b)
    ensures AsciiLower(Suffix(a)) == AsciiLower(Suffix(b))
  {
    RFindLower(a);
    RFindLower(b);
    assert |a| == |b|;
    var i := RFind(a, '.');
    if HasSuffix(a) {
      assert AsciiLower(a[i..]) == AsciiLower(a)[i..];
      assert AsciiLower(b[i..]) == AsciiLower(b)[i..];
    }
  }
}
