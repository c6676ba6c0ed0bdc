/** The JALv2 tool's `Jal` pseudo-builder: one assembler call per
    target/source pair, and the `.cod` and `.hex` files registered for
    cleaning. */
module Jal {
  import opened Wrappers
  import opened PyStr
  import opened Stems
  import opened PseudoBuilder

  /** `JAL_SUFFIX`, `JAL_ASMSUFFIX`, `JAL_CODSUFFIX` and `JAL_HEXSUFFIX`. */
  datatype Suffixes = Suffixes(jal: string, asm: string, cod: string, hex: string)

  const DefaultSuffixes := Suffixes(".jal", ".asm", ".cod", ".hex")
  const DefaultFlags := "-quiet"

  /** The files cleaned with one call's nodes: the stem plus the `.cod`
      suffix and the stem plus the `.hex` suffix, in one registration. */
  function CleanFiles(src: string, sfx: Suffixes): (r: seq<seq<string>>)
    ensures |r| == 1 && |r[0]| == 2
    ensures EndsWith(r[0][0], sfx.cod) && EndsWith(r[0][1], sfx.hex)
  {
    var stem := Stem(src, sfx.jal);
    assert (stem + sfx.cod)[|stem|..] == sfx.cod;
    assert (stem + sfx.hex)[|stem|..] == sfx.hex;
    [[stem + sfx.cod, stem + sfx.hex]]
  }

  /** A `.jal` source cleans its own `.cod` and `.hex`. */
  lemma CleanFilesOfSource(stem: string, sfx: Suffixes)
    ensures CleanFiles(stem + sfx.jal, sfx) == [[stem + sfx.cod, stem + sfx.hex]]
  {
    StemOfAppended(stem, sfx.jal);
  }

  /** A source without the configured suffix keeps its whole name. */
  lemma CleanFilesOfOtherName(src: string, sfx: Suffixes)
    requires !EndsWith(src, sfx.jal)
    ensures CleanFiles(src, sfx) == [[src + sfx.cod, src + sfx.hex]]
  {
  }

  /** `Jal`: a missing source is a copy of the targets; every pair of
      `zip(target, source)` is built in order, and each call's nodes get
      one registration cleaning the `.cod` and `.hex` of its source. */
  function Jal(build: (string, string) -> seq<string>, target: Arg, source: Option<Arg>, sfx: Suffixes)
    : (r: Outcome)
    ensures var ts := ResolveCopy(target, source);
            r.result == Outputs(build, Zip(ts.0, ts.1))
    ensures var ts := ResolveCopy(target, source);
            var pairs := Zip(ts.0, ts.1);
            |r.cleans| == |pairs| &&
            forall c :: c in r.cleans <==>
              exists i :: 0 <= i < |pairs| &&
                c == Clean(build(pairs[i].0, pairs[i].1),
                             [Stem(pairs[i].1, sfx.jal) + sfx.cod, Stem(pairs[i].1, sfx.jal) + sfx.hex])
  {
    var ts := ResolveCopy(target, source);
    var pairs := Zip(ts.0, ts.1);
    var cleanFiles := s => CleanFiles(s, sfx);
    RunCleansMembers(build, cleanFiles, pairs);
    RunCleansCount(build, cleanFiles, pairs, 1);
    Run(build, cleanFiles, pairs)
  }

  /** `Jal("blink.jal")`: one assembler call on `blink.jal` for the target
      `blink.jal`, its nodes returned, and `blink.cod` and `blink.hex`
      cleaned with them. */
  lemma JalOneSource(build: (string, string) -> seq<string>, stem: string, sfx: Suffixes)
    ensures var src := stem + sfx.jal;
            var nodes := build(src, src);
            Jal(build, One(src), None, sfx) == Outcome(nodes, [Clean(nodes, [stem + sfx.cod, stem + sfx.hex])])
  {
    var src := stem + sfx.jal;
    assert Zip([src], [src]) == [(src, src)];
    RunOne(build, s => CleanFiles(s, sfx), src, src);
    CleanFilesOfSource(stem, sfx);
  }
}
