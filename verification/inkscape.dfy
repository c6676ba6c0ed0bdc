/** The Inkscape tool's emitter: with `--export-latex` among the flags,
    every PDF, PostScript or EPS target gets a companion `_tex` file. */
module Inkscape {
  import opened PyStr
  import PyPath

  /** The suffixes that come with a LaTeX companion. */
  predicate LatexSuffix(t: string) {
    var sfx := PyPath.PathSuffix(t);
    sfx == ".pdf" || sfx == ".ps" || sfx == ".eps"
  }

  /** The companion of every target `keep` selects, in target order. */
  function CompanionsBy(target: seq<string>, keep: string -> bool): (r: seq<string>)
    ensures |r| <= |target|
  {
    if |target| == 0 then []
    else if keep(target[0]) then [target[0] + "_tex"] + CompanionsBy(target[1..], keep)
    else CompanionsBy(target[1..], keep)
  }

  /** The companion names, in target order. */
  function Companions(target: seq<string>): (r: seq<string>)
    ensures |r| <= |target|
  {
    CompanionsBy(target, LatexSuffix)
  }

  /** `x` is the companion of a selected target. */
  predicate CompanionOf(x: string, target: seq<string>, keep: string -> bool) {
    exists j :: 0 <= j < |target| && keep(target[j]) && x == target[j] + "_tex"
  }

  /** Every companion belongs to a selected target. */
  lemma {:induction false} CompanionsSound(target: seq<string>, keep: string -> bool)
    ensures forall i :: 0 <= i < |CompanionsBy(target, keep)| ==>
              CompanionOf(CompanionsBy(target, keep)[i], target, keep)
  {
    if |target| > 0 {
      var tail := target[1..];
      CompanionsSound(tail, keep);
      var r := CompanionsBy(target, keep);
      var rt := CompanionsBy(tail, keep);
      assert r == (if keep(target[0]) then [target[0] + "_tex"] + rt else rt);
      forall i | 0 <= i < |r| ensures CompanionOf(r[i], target, keep) {
        var k := if keep(target[0]) then i - 1 else i;
        if k < 0 {
          assert r[0] == target[0] + "_tex";
          assert keep(target[0]);
        } else {
          assert r[i] == rt[k];
          assert CompanionOf(rt[k], tail, keep);
          var j :| 0 <= j < |tail| && keep(tail[j]) && rt[k] == tail[j] + "_tex";
          assert target[j + 1] == tail[j];
        }
      }
    }
  }

  /** Every selected target has its companion. */
  lemma {:induction false} CompanionsComplete(target: seq<string>, keep: string -> bool)
    ensures forall j :: 0 <= j < |target| && keep(target[j]) ==> target[j] + "_tex" in CompanionsBy(target, keep)
  {
    if |target| > 0 {
      var tail := target[1..];
      CompanionsComplete(tail, keep);
      forall j | 0 <= j < |target| && keep(target[j]) ensures target[j] + "_tex" in CompanionsBy(target, keep) {
        if j > 0 {
          assert target[j] == tail[j - 1];
        }
      }
    }
  }

  /** `_emitter`: `INKSCAPEFLAGS` (empty when unset) is searched for
      `--export-latex`; the companions follow the targets, which keep
      their order; the sources are returned as given. */
  function Emitter(target: seq<string>, source: seq<string>, flags: string): (r: (seq<string>, seq<string>))
    ensures r.1 == source
    ensures |r.0| >= |target| && r.0[..|target|] == target
    ensures !Contains(flags, "--export-latex") ==> r.0 == target
    ensures Contains(flags, "--export-latex") ==> r.0[|target|..] == Companions(target)
  {
    if Contains(flags, "--export-latex") then
      var t := target + Companions(target);
      assert t[..|target|] == target && t[|target|..] == Companions(target);
      (t, source)
    else
      (target, source)
  }

  /** A companion name never needs a companion of its own: its suffix, if
      any, ends in `_tex`. */
  lemma CompanionHasNoLatexSuffix(t: string)
    ensures !LatexSuffix(t + "_tex")
  {
    var p := t + "_tex";
    var stripped := PyPath.RStripSlashes(p);
    assert p[|p| - 1] == 'x';
    assert |stripped| == |p|;
    var sfx := PyPath.PathSuffix(p);
    if sfx != "" {
      assert sfx[|sfx| - 1] == stripped[|stripped| - 1] == 'x';
    }
  }

  /** A selection that never picks a companion name picks nothing from
      the companions. */
  lemma CompanionsOfCompanionsBy(target: seq<string>, keep: string -> bool)
    requires forall t :: !keep(t + "_tex")
    ensures CompanionsBy(CompanionsBy(target, keep), keep) == []
  {
    var c := CompanionsBy(target, keep);
    CompanionsSound(target, keep);
    forall i | 0 <= i < |c| ensures !keep(c[i]) {
      assert CompanionOf(c[i], target, keep);
      var j :| 0 <= j < |target| && keep(target[j]) && c[i] == target[j] + "_tex";
    }
    CompanionsNone(c, keep);
  }

  /** So the emitter never asks for a companion of a companion. */
  lemma CompanionsOfCompanions(target: seq<string>)
    ensures Companions(Companions(target)) == []
  {
    forall t ensures !LatexSuffix(t + "_tex") {
      CompanionHasNoLatexSuffix(t);
    }
    CompanionsOfCompanionsBy(target, LatexSuffix);
  }

  lemma {:induction false} CompanionsNone(ts: seq<string>, keep: string -> bool)
    requires forall i :: 0 <= i < |ts| ==> !keep(ts[i])
    ensures CompanionsBy(ts, keep) == []
  {
    if |ts| > 0 {
      assert forall i :: 0 <= i < |ts[1..]| ==> ts[1..][i] == ts[i + 1];
      CompanionsNone(ts[1..], keep);
    }
  }
}
