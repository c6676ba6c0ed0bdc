/** The AVR GCC tool's `asm_emitter`: an assembler source compiled beside
    a C file of the same name gets an object named `<stem>_S<objsuffix>`. */
module GccAvr {
  import opened Wrappers
  import opened PyStr
  import opened Stems
  import opened PseudoBuilder

  /** The object name for an assembler source. */
  function AsmObject(src: string, asmSuffix: string, objSuffix: string): string {
    Stem(src, asmSuffix) + "_S" + objSuffix
  }

  /** `asm_emitter`: every source ending in `$ASMSUFFIX` in turn replaces
      the target by the plain name of its object, so the last such source
      decides; the sources are returned as given. */
  function AsmEmitter(target: Arg, source: seq<string>, asmSuffix: string, objSuffix: string)
    : (r: (Arg, seq<string>))
    ensures r.1 == source
    ensures r.0 == target || exists i :: 0 <= i < |source| && EndsWith(source[i], asmSuffix) &&
                                         r.0 == One(AsmObject(source[i], asmSuffix, objSuffix))
    decreases |source|
  {
    if |source| == 0 then (target, source)
    else
      var next := if EndsWith(source[0], asmSuffix) then One(AsmObject(source[0], asmSuffix, objSuffix)) else target;
      var rest := AsmEmitter(next, source[1..], asmSuffix, objSuffix);
      assert forall i :: 0 <= i < |source[1..]| ==> source[1..][i] == source[i + 1];
      (rest.0, source)
  }

  /** The position of the last source ending in the suffix. */
  function LastMatch(source: seq<string>, suffix: string): (r: Option<nat>)
    ensures r.Some? ==> r.value < |source| && EndsWith(source[r.value], suffix)
    ensures r.Some? ==> forall j :: r.value < j < |source| ==> !EndsWith(source[j], suffix)
    ensures r.None? ==> forall j :: 0 <= j < |source| ==> !EndsWith(source[j], suffix)
  {
    if |source| == 0 then None
    else if EndsWith(source[|source| - 1], suffix) then Some(|source| - 1)
    else LastMatch(source[..|source| - 1], suffix)
  }

  /** The emitter's target is the object of the last matching source, or
      the given target when no source matches. */
  lemma {:induction false} AsmEmitterLastWins(target: Arg, source: seq<string>, asmSuffix: string, objSuffix: string)
    ensures AsmEmitter(target, source, asmSuffix, objSuffix).0 ==
              match LastMatch(source, asmSuffix)
              case None => target
              case Some(i) => One(AsmObject(source[i], asmSuffix, objSuffix))
    decreases |source|
  {
    if |source| > 0 {
      var next := if EndsWith(source[0], asmSuffix) then One(AsmObject(source[0], asmSuffix, objSuffix)) else target;
      var tail := source[1..];
      AsmEmitterLastWins(next, tail, asmSuffix, objSuffix);
      match LastMatch(tail, asmSuffix)
      case Some(k) =>
        assert source[k + 1] == tail[k];
        assert forall j :: k + 1 < j < |source| ==> source[j] == tail[j - 1];
        LastMatchUnique(source, asmSuffix, k + 1);
      case None =>
        assert forall j :: 1 <= j < |source| ==> source[j] == tail[j - 1];
        if EndsWith(source[0], asmSuffix) {
          LastMatchUnique(source, asmSuffix, 0);
        } else {
          assert forall j :: 0 <= j < |source| ==> !EndsWith(source[j], asmSuffix);
        }
    }
  }

  lemma LastMatchUnique(source: seq<string>, suffix: string, k: nat)
    requires k < |source| && EndsWith(source[k], suffix)
    requires forall j :: k < j < |source| ==> !EndsWith(source[j], suffix)
    ensures LastMatch(source, suffix) == Some(k)
  {
  }
}
