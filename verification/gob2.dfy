/** The gob2 tool: its emitter, which adds the two generated headers, and
    the `Gob2`/`Gob2Cpp` pseudo-builders, which are meant to run gob2 with
    the output directory set to each source's directory. As written they
    store that directory in the shared `GOB2_OUTDIR`, which the command
    line reads only when it runs; `CallsAsWritten` models that. */
module Gob2 {
  import opened Wrappers
  import opened PyStr
  import PyPath
  import opened PseudoBuilder

  /** `GOB2_SUFFIX`, `GOB2_CSUFFIX`, `GOB2_CXXSUFFIX`, `GOB2_HSUFFIX` and
      `GOB2_PRIVATESUFFIX`. */
  datatype Suffixes = Suffixes(gob: string, c: string, cxx: string, h: string, priv: string)

  const DefaultSuffixes := Suffixes(".gob", ".c", ".cc", ".h", "-private.h")
  const DefaultCom := "$GOB2 $GOB2_FLAGS -o $GOB2_OUTDIR $SOURCES"
  const DefaultCxxCom := "$GOB2 $GOB2_FLAGS --for-cpp -o $GOB2_OUTDIR $SOURCES"

  /** `__gob2_emitter`: the first source without its extension, plus the
      header suffix and then the private-header suffix, go after the given
      targets. No source at all is an IndexError. */
  function Emitter(target: seq<string>, source: seq<string>, sfx: Suffixes)
    : (r: Result<(seq<string>, seq<string>), string>)
    ensures r.Failure? <==> |source| == 0
    ensures r.Success? ==> r.value.1 == source
    ensures r.Success? ==> |r.value.0| == |target| + 2 && r.value.0[..|target|] == target
    ensures r.Success? ==>
              var split := PyPath.Splitext(source[0]);
              split.0 + split.1 == source[0] &&
              r.value.0[|target|] == split.0 + sfx.h && r.value.0[|target| + 1] == split.0 + sfx.priv
  {
    if |source| == 0 then Failure("IndexError")
    else
      var base := PyPath.Splitext(source[0]).0;
      var t := target + [base + sfx.h, base + sfx.priv];
      assert t[..|target|] == target;
      Success((t, source))
  }

  /** `widget.gob` adds `widget.h` and `widget-private.h`. */
  lemma EmitterOfGobFile(target: seq<string>, stem: string)
    requires stem != "" && '.' !in stem && '/' !in stem
    ensures Emitter(target, [stem + ".gob"], DefaultSuffixes) ==
              Success((target + [stem + ".h", stem + "-private.h"], [stem + ".gob"]))
  {
    PyPath.SplitextName(stem, "gob");
    assert stem + "." + "gob" == stem + ".gob";
  }

  /** `GOB2_OUTDIR` for a source: the head of `os.path.split`, or `.` when
      the source has no directory part. */
  function OutDir(s: string): (r: string)
    ensures r != ""
    ensures '/' !in s ==> r == "."
    ensures '/' in s ==> r == PyPath.Dirname(s)
  {
    var head := PyPath.Dirname(s);
    if head != "" then head else "."
  }

  /** The directory the loop assigns for a source inside a directory is
      that directory. */
  lemma OutDirJoin(dir: string, name: string)
    requires dir != "" && !EndsWith(dir, "/") && '/' !in name
    ensures OutDir(PyPath.Join(dir, name)) == dir
  {
    PyPath.DirnameJoin(dir, name);
  }

  /** One builder call: the pair and the `GOB2_OUTDIR` in force for it. */
  datatype Call = Call(target: string, source: string, outDir: string, cpp: bool)

  /** The calls `Gob2` (or, with `cpp`, `Gob2Cpp`) makes, one per pair of
      `zip(target, source)` after the argument defaulting. */
  function Calls(target: Arg, source: Option<Arg>, cpp: bool): (r: seq<Call>)
    ensures var ts := ResolveSplit(target, source);
            |r| == Min(|ts.0|, |ts.1|) &&
            forall i :: 0 <= i < |r| ==> r[i] == Call(ts.0[i], ts.1[i], OutDir(ts.1[i]), cpp)
  {
    var ts := ResolveSplit(target, source);
    CallsOf(Zip(ts.0, ts.1), cpp)
  }

  function CallsOf(pairs: seq<(string, string)>, cpp: bool): (r: seq<Call>)
    ensures |r| == |pairs|
    ensures forall i :: 0 <= i < |r| ==> r[i] == Call(pairs[i].0, pairs[i].1, OutDir(pairs[i].1), cpp)
  {
    if |pairs| == 0 then []
    else [Call(pairs[0].0, pairs[0].1, OutDir(pairs[0].1), cpp)] + CallsOf(pairs[1..], cpp)
  }

  /** One call per pair, all with the output directory `dir`. */
  function CallsIn(pairs: seq<(string, string)>, dir: string, cpp: bool): (r: seq<Call>)
    ensures |r| == |pairs|
    ensures forall i :: 0 <= i < |r| ==> r[i] == Call(pairs[i].0, pairs[i].1, dir, cpp)
  {
    seq(|pairs|, i requires 0 <= i < |pairs| => Call(pairs[i].0, pairs[i].1, dir, cpp))
  }

  /** As written: `GOB2_OUTDIR` is a variable of the shared environment,
      reassigned by every turn of the loop, and `$GOB2_OUTDIR` in
      `GOB2_COM`/`GOB2_CXXCOM` is substituted when the command runs. So
      every call of one `Gob2`/`Gob2Cpp` run reads the directory assigned
      for the last pair's source. */
  function CallsAsWritten(target: Arg, source: Option<Arg>, cpp: bool): (r: seq<Call>)
    ensures var ts := ResolveSplit(target, source);
            |r| == Min(|ts.0|, |ts.1|) &&
            forall i :: 0 <= i < |r| ==> r[i] == Call(ts.0[i], ts.1[i], OutDir(ts.1[|r| - 1]), cpp)
  {
    var ts := ResolveSplit(target, source);
    var pairs := Zip(ts.0, ts.1);
    if |pairs| == 0 then []
    else
      var last := |pairs| - 1;
      assert pairs[last].1 == ts.1[last];
      CallsIn(pairs, OutDir(pairs[last].1), cpp)
  }

  /** Sources in `a/` and `b/`: as written both commands get `-o b`, while
      the directory meant for the first is `a`. */
  lemma CallsAsWrittenSharedDir()
    ensures CallsAsWritten(Many(["x", "y"]), Some(Many(["a/x.gob", "b/y.gob"])), false)[0].outDir == "b"
    ensures Calls(Many(["x", "y"]), Some(Many(["a/x.gob", "b/y.gob"])), false)[0].outDir == "a"
  {
    TwoDirectories();
    TwoSourcesResolved();
  }

  lemma TwoSourcesResolved()
    ensures ResolveSplit(Many(["x", "y"]), Some(Many(["a/x.gob", "b/y.gob"]))) == (["x", "y"], ["a/x.gob", "b/y.gob"])
  {
    assert !Falsy(Some(Many(["a/x.gob", "b/y.gob"])));
  }

  lemma TwoDirectories()
    ensures OutDir("a/x.gob") == "a" && OutDir("b/y.gob") == "b"
  {
    assert "x.gob"[..1] == "x" && "y.gob"[..1] == "y" && "a"[0..] == "a" && "b"[0..] == "b";
    assert PyPath.Join("a", "x.gob") == "a/x.gob";
    assert PyPath.Join("b", "y.gob") == "b/y.gob";
    PyPath.DirnameJoin("a", "x.gob");
    PyPath.DirnameJoin("b", "y.gob");
    assert "a/x.gob"[1] == '/' && "b/y.gob"[1] == '/';
  }

  /** The nodes `Gob2`/`Gob2Cpp` return: every call's nodes in order. */
  function Gob2(build: Call -> seq<string>, target: Arg, source: Option<Arg>, cpp: bool): (r: seq<string>)
    ensures var ts := ResolveSplit(target, source);
            r == Outputs((t, s) => build(Call(t, s, OutDir(s), cpp)), Zip(ts.0, ts.1))
  {
    var ts := ResolveSplit(target, source);
    Run((t, s) => build(Call(t, s, OutDir(s), cpp)), _ => [], Zip(ts.0, ts.1)).result
  }

  /** `Gob2("widget.gob")`: one call, target `widget`, output directory `.`. */
  lemma Gob2OneSource(build: Call -> seq<string>, stem: string, cpp: bool)
    requires stem != "" && '.' !in stem && '/' !in stem
    ensures Calls(One(stem + ".gob"), None, cpp) == [Call(stem, stem + ".gob", ".", cpp)]
    ensures Gob2(build, One(stem + ".gob"), None, cpp) == build(Call(stem, stem + ".gob", ".", cpp))
  {
    ResolveSplitOfName(stem, "gob");
    assert stem + "." + "gob" == stem + ".gob";
    var src := stem + ".gob";
    assert '/' !in src by {
      assert forall j :: 0 <= j < |stem| ==> src[j] == stem[j];
      assert forall j :: |stem| <= j < |src| ==> src[j] in ".gob";
    }
    var z := Zip([stem], [src]);
    assert z == [(stem, src)];
    RunOne((t, s) => build(Call(t, s, OutDir(s), cpp)), _ => [], stem, src);
  }
}
