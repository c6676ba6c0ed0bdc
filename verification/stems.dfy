/** The "strip the configured suffix" rule the Jal, IDL, ProC, Protoc and
    gccavr tools share: `src[:-len(suffix)]` when `src.endswith(suffix)`,
    else `src`. */
module Stems {
  import opened PyStr

  /** Python's slice `src[:-n]` for `0 <= n <= |src|`: with `n == 0` it is
      `src[:0]`, the empty string. */
  function DropLast(src: string, n: nat): (r: string)
    requires n <= |src|
    ensures n == 0 ==> r == ""
    ensures n > 0 ==> r == src[..|src| - n]
  {
    if n == 0 then "" else src[..|src| - n]
  }

  /** The stem exactly as the tools compute it. An empty suffix always
      matches, and `src[:-0]` then empties the stem. */
  function StemAsWritten(src: string, suffix: string): (r: string)
    ensures |r| <= |src|
  {
    if EndsWith(src, suffix) then DropLast(src, |suffix|) else src
  }

  /** With an empty configured suffix the as-written stem of any name is empty. */
  lemma StemAsWrittenEmptySuffix(src: string)
    ensures StemAsWritten(src, "") == ""
  {
    assert EndsWith(src, "");
  }

  /** A concrete case: `blink.jal` with `JAL_SUFFIX` set to the empty string
      gets the stem "" and clean files `.cod` and `.hex`. */
  lemma StemAsWrittenCounterexample()
    ensures StemAsWritten("blink.jal", "") == ""
    ensures StemAsWritten("blink.jal", "") != "blink.jal"
  {
    StemAsWrittenEmptySuffix("blink.jal");
  }

  /** The evidently intended stem: the name with the suffix removed when it
      ends with it, and the name itself otherwise. */
  function Stem(src: string, suffix: string): (r: string)
    ensures EndsWith(src, suffix) ==> r + suffix == src
    ensures !EndsWith(src, suffix) ==> r == src
    ensures |r| <= |src|
  {
    if EndsWith(src, suffix) then
      assert src == src[..|src| - |suffix|] + src[|src| - |suffix|..];
      src[..|src| - |suffix|]
    else src
  }

  /** Stripping a suffix that was just appended gives back the stem. */
  lemma {:induction false} StemOfAppended(stem: string, suffix: string)
    ensures Stem(stem + suffix, suffix) == stem
  {
    var s := stem + suffix;
    assert s[|s| - |suffix|..] == suffix;
    assert s[..|s| - |suffix|] == stem;
  }

  /** The two agree whenever the suffix is not empty. */
  lemma StemAgreesOnNonEmptySuffix(src: string, suffix: string)
    requires suffix != ""
    ensures StemAsWritten(src, suffix) == Stem(src, suffix)
  {
  }
}
