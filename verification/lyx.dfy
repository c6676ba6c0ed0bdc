/** The LyX tool's emitter `namelyxtarget`: the TeX file is named after
    the single LyX source. */
module Lyx {
  import opened Wrappers
  import opened PyStr

  /** `namelyxtarget`: exactly one source is asserted; a source ending in
      `.lyx` renames the first target to the source with `.tex` in place
      of `.lyx` (with no target to rename that is an IndexError); anything
      else is returned as given. */
  function NameLyxTarget(target: seq<string>, source: seq<string>)
    : (r: Result<(seq<string>, seq<string>), string>)
    ensures |source| != 1 ==> r == Failure("AssertionError")
    ensures |source| == 1 && EndsWith(source[0], ".lyx") && |target| == 0 ==> r == Failure("IndexError")
    ensures r.Success? ==> r.value.1 == source && |r.value.0| == |target|
    ensures r.Success? ==> forall i :: 1 <= i < |target| ==> r.value.0[i] == target[i]
    ensures r.Success? && !EndsWith(source[0], ".lyx") ==> r.value.0 == target
    ensures r.Success? && EndsWith(source[0], ".lyx") ==>
              r.value.0[0] == source[0][..|source[0]| - 4] + ".tex"
  {
    if |source| != 1 then Failure("AssertionError")
    else
      var s := source[0];
      if EndsWith(s, ".lyx") then
        if |target| == 0 then Failure("IndexError")
        else
          var name := s[..|s| - 4] + ".tex";
          assert name[|name| - 4..] == ".tex";
          Success((target[0 := name], source))
      else Success((target, source))
  }

  /** `paper.lyx` turns the first target into `paper.tex`. */
  lemma NameOfLyxSource(t: string, rest: seq<string>, stem: string)
    ensures NameLyxTarget([t] + rest, [stem + ".lyx"]) == Success(([stem + ".tex"] + rest, [stem + ".lyx"]))
  {
    var s := stem + ".lyx";
    assert s[|s| - 4..] == ".lyx";
    assert s[..|s| - 4] == stem;
    assert ([t] + rest)[0 := stem + ".tex"] == [stem + ".tex"] + rest;
  }
}
