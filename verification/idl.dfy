/** The Orbix IDL tool's `IDL` pseudo-builder: one pre-compiler call per
    target/source pair and three generated files registered for
    cleaning. */
module Idl {
  import opened Wrappers
  import opened PyStr
  import opened Stems
  import opened PseudoBuilder

  /** `IDL_SUFFIX`, `IDL_CCSUFFIX` and `IDL_HHSUFFIX`. */
  datatype Suffixes = Suffixes(idl: string, cc: string, hh: string)

  const DefaultSuffixes := Suffixes(".idl", ".cc", ".hh")
  const DefaultCom := "$IDL -out $TARGET.dir -B $SOURCE "

  /** Three registrations, one file each: the header, the server skeleton
      (`S`) and the client stub (`C`). */
  function CleanFiles(src: string, sfx: Suffixes): (r: seq<seq<string>>)
    ensures |r| == 3 && |r[0]| == 1 && |r[1]| == 1 && |r[2]| == 1
    ensures EndsWith(r[0][0], sfx.hh) && EndsWith(r[1][0], "S" + sfx.cc) && EndsWith(r[2][0], "C" + sfx.cc)
  {
    var stem := Stem(src, sfx.idl);
    assert (stem + sfx.hh)[|stem|..] == sfx.hh;
    assert (stem + "S" + sfx.cc)[|stem|..] == "S" + sfx.cc;
    assert (stem + "C" + sfx.cc)[|stem|..] == "C" + sfx.cc;
    [[stem + sfx.hh], [stem + "S" + sfx.cc], [stem + "C" + sfx.cc]]
  }

  /** An `.idl` source cleans the files named after its stem. */
  lemma CleanFilesOfSource(stem: string, sfx: Suffixes)
    ensures CleanFiles(stem + sfx.idl, sfx) == [[stem + sfx.hh], [stem + "S" + sfx.cc], [stem + "C" + sfx.cc]]
  {
    StemOfAppended(stem, sfx.idl);
  }

  /** `IDL`: a missing source is a copy of the targets; every pair of
      `zip(target, source)` is built in order, and each call's nodes get
      three registrations: header, skeleton and stub of its source. */
  function Idl(build: (string, string) -> seq<string>, target: Arg, source: Option<Arg>, sfx: Suffixes)
    : (r: Outcome)
    ensures var ts := ResolveCopy(target, source);
            r.result == Outputs(build, Zip(ts.0, ts.1))
    ensures var ts := ResolveCopy(target, source);
            var pairs := Zip(ts.0, ts.1);
            |r.cleans| == 3 * |pairs| &&
            forall c :: c in r.cleans <==> exists i :: 0 <= i < |pairs| && CleanOfPair(build, pairs[i], sfx, c)
  {
    var ts := ResolveCopy(target, source);
    var pairs := Zip(ts.0, ts.1);
    RunCleans(build, pairs, sfx);
    Run(build, s => CleanFiles(s, sfx), pairs)
  }

  /** The registrations of a run: three per pair, the files of that pair's
      source on that pair's nodes. */
  lemma RunCleans(build: (string, string) -> seq<string>, pairs: seq<(string, string)>, sfx: Suffixes)
    ensures var r := Run(build, s => CleanFiles(s, sfx), pairs);
            |r.cleans| == 3 * |pairs| &&
            forall c :: c in r.cleans <==> exists i :: 0 <= i < |pairs| && CleanOfPair(build, pairs[i], sfx, c)
  {
    var cleanFiles := s => CleanFiles(s, sfx);
    var r := Run(build, cleanFiles, pairs);
    RunCleansMembers(build, cleanFiles, pairs);
    RunCleansCount(build, cleanFiles, pairs, 3);
    forall c | c in r.cleans
      ensures exists i :: 0 <= i < |pairs| && CleanOfPair(build, pairs[i], sfx, c)
    {
      var i, k :| 0 <= i < |pairs| && 0 <= k < |cleanFiles(pairs[i].1)| &&
                  c == Clean(build(pairs[i].0, pairs[i].1), cleanFiles(pairs[i].1)[k]);
      PairCleans(build, pairs[i], sfx, c);
    }
    forall i, c | 0 <= i < |pairs| && CleanOfPair(build, pairs[i], sfx, c)
      ensures c in r.cleans
    {
      PairCleans(build, pairs[i], sfx, c);
    }
  }

  /** `c` is one of the three registrations made for the pair `p`. */
  predicate CleanOfPair(build: (string, string) -> seq<string>, p: (string, string), sfx: Suffixes, c: Clean) {
    var nodes := build(p.0, p.1);
    var stem := Stem(p.1, sfx.idl);
    c == Clean(nodes, [stem + sfx.hh]) || c == Clean(nodes, [stem + "S" + sfx.cc]) ||
    c == Clean(nodes, [stem + "C" + sfx.cc])
  }

  lemma PairCleans(build: (string, string) -> seq<string>, p: (string, string), sfx: Suffixes, c: Clean)
    ensures CleanOfPair(build, p, sfx, c) <==>
            exists k :: 0 <= k < 3 && c == Clean(build(p.0, p.1), CleanFiles(p.1, sfx)[k])
  {
    var files := CleanFiles(p.1, sfx);
    if CleanOfPair(build, p, sfx, c) {
      var k := if c.files == files[0] then 0 else if c.files == files[1] then 1 else 2;
      assert c == Clean(build(p.0, p.1), files[k]);
    }
  }

  /** `IDL("api.idl")`: one call, and three cleaning registrations on its
      nodes. */
  lemma IdlOneSource(build: (string, string) -> seq<string>, stem: string, sfx: Suffixes)
    ensures var src := stem + sfx.idl;
            var nodes := build(src, src);
            Idl(build, One(src), None, sfx) ==
              Outcome(nodes, [Clean(nodes, [stem + sfx.hh]), Clean(nodes, [stem + "S" + sfx.cc]),
                              Clean(nodes, [stem + "C" + sfx.cc])])
  {
    var src := stem + sfx.idl;
    assert Zip([src], [src]) == [(src, src)];
    RunOne(build, s => CleanFiles(s, sfx), src, src);
    CleanFilesOfSource(stem, sfx);
  }
}
