/** The Oracle Pro*C tool's `ProC` pseudo-builder: one pre-compiler call
    per target/source pair and the `.lis` listing registered for
    cleaning. */
module ProC {
  import opened Wrappers
  import opened PyStr
  import opened Stems
  import opened PseudoBuilder

  /** `ProC_SUFFIX`, `ProC_CSUFFIX` and `ProC_LISSUFFIX`. */
  datatype Suffixes = Suffixes(pc: string, c: string, lis: string)

  const DefaultSuffixes := Suffixes(".pc", ".c", ".lis")

  /** The only cleaned file: the stem plus the listing suffix. */
  function CleanFiles(src: string, sfx: Suffixes): (r: seq<seq<string>>)
    ensures |r| == 1 && |r[0]| == 1
    ensures EndsWith(r[0][0], sfx.lis)
  {
    var stem := Stem(src, sfx.pc);
    assert (stem + sfx.lis)[|stem|..] == sfx.lis;
    [[stem + sfx.lis]]
  }

  /** A `.pc` source cleans its own `.lis`. */
  lemma CleanFilesOfSource(stem: string, sfx: Suffixes)
    ensures CleanFiles(stem + sfx.pc, sfx) == [[stem + sfx.lis]]
  {
    StemOfAppended(stem, sfx.pc);
  }

  /** `ProC`: a missing source is a copy of the targets; every pair of
      `zip(target, source)` is built in order, and each call's nodes get
      one registration cleaning the listing of its source. */
  function ProC(build: (string, string) -> seq<string>, target: Arg, source: Option<Arg>, sfx: Suffixes)
    : (r: Outcome)
    ensures var ts := ResolveCopy(target, source);
            r.result == Outputs(build, Zip(ts.0, ts.1))
    ensures var ts := ResolveCopy(target, source);
            var pairs := Zip(ts.0, ts.1);
            |r.cleans| == |pairs| &&
            forall c :: c in r.cleans <==>
              exists i :: 0 <= i < |pairs| &&
                c == Clean(build(pairs[i].0, pairs[i].1), [Stem(pairs[i].1, sfx.pc) + sfx.lis])
  {
    var ts := ResolveCopy(target, source);
    var pairs := Zip(ts.0, ts.1);
    var cleanFiles := s => CleanFiles(s, sfx);
    RunCleansMembers(build, cleanFiles, pairs);
    RunCleansCount(build, cleanFiles, pairs, 1);
    Run(build, cleanFiles, pairs)
  }

  /** `ProC("query.pc")`: one call, and its listing cleaned with its nodes. */
  lemma ProCOneSource(build: (string, string) -> seq<string>, stem: string, sfx: Suffixes)
    ensures var src := stem + sfx.pc;
            var nodes := build(src, src);
            ProC(build, One(src), None, sfx) == Outcome(nodes, [Clean(nodes, [stem + sfx.lis])])
  {
    var src := stem + sfx.pc;
    assert Zip([src], [src]) == [(src, src)];
    RunOne(build, s => CleanFiles(s, sfx), src, src);
    CleanFilesOfSource(stem, sfx);
  }
}
