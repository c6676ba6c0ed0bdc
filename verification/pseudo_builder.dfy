/** What the pseudo-builders of the gob2, jal, IDL, ProC and rest tools
    share: the target/source argument defaulting, the pairing of targets
    with sources by `zip`, and the record of the builder calls and `Clean`
    registrations made for each pair. A builder call itself belongs to the
    host build system and is a parameter here: a function from the pair
    to the nodes it returns. */
module PseudoBuilder {
  import opened Wrappers
  import PyPath

  /** A builder argument: one name or a list of names. */
  datatype Arg = One(name: string) | Many(names: seq<string>)

  /** `if not is_List(x): x = [x]`. */
  function AsList(a: Arg): (r: seq<string>)
    ensures a.One? ==> r == [a.name]
    ensures a.Many? ==> r == a.names
  {
    match a
    case One(n) => [n]
    case Many(ns) => ns
  }

  /** `not source`: no source, an empty name or an empty list. */
  predicate Falsy(source: Option<Arg>) {
    source.None? || source.value == One("") || source.value == Many([])
  }

  /** The Jal, IDL and ProC defaulting: a missing source is a copy of the
      targets, names unchanged. */
  function ResolveCopy(target: Arg, source: Option<Arg>): (r: (seq<string>, seq<string>))
    ensures r.0 == AsList(target)
    ensures Falsy(source) ==> r.1 == AsList(target)
    ensures !Falsy(source) ==> r.1 == AsList(source.value)
  {
    var ts := AsList(target);
    if Falsy(source) then (ts, ts) else (ts, AsList(source.value))
  }

  /** Each name without its extension, as `os.path.splitext` cuts it. */
  function Bases(names: seq<string>): (r: seq<string>)
    ensures |r| == |names|
    ensures forall i :: 0 <= i < |r| ==> r[i] + PyPath.Splitext(names[i]).1 == names[i]
  {
    if |names| == 0 then []
    else [PyPath.Splitext(names[0]).0] + Bases(names[1..])
  }

  /** The gob2 and rest defaulting: a missing source means the given names
      are the sources and their extension-stripped forms the targets. */
  function ResolveSplit(target: Arg, source: Option<Arg>): (r: (seq<string>, seq<string>))
    ensures Falsy(source) ==> r.1 == AsList(target) && r.0 == Bases(AsList(target))
    ensures !Falsy(source) ==> r == (AsList(target), AsList(source.value))
  {
    var ts := AsList(target);
    if Falsy(source) then (Bases(ts), ts) else (ts, AsList(source.value))
  }

  /** A source named `stem.ext`, given alone, gets the target `stem`. */
  lemma ResolveSplitOfName(stem: string, ext: string)
    requires stem != "" && '.' !in stem && '/' !in stem
    requires '.' !in ext && '/' !in ext
    ensures ResolveSplit(One(stem + "." + ext), None) == ([stem], [stem + "." + ext])
  {
    PyPath.SplitextName(stem, ext);
    var names := [stem + "." + ext];
    assert names[1..] == [];
    assert Bases(names[1..]) == [];
    assert Bases(names) == [stem];
    assert AsList(One(stem + "." + ext)) == names;
    assert Falsy(None);
  }

  function Min(a: nat, b: nat): nat {
    if a <= b then a else b
  }

  /** `zip(a, b)`: pairs up to the shorter length. */
  function Zip<A, B>(a: seq<A>, b: seq<B>): (r: seq<(A, B)>)
    ensures |r| == Min(|a|, |b|)
    ensures forall i :: 0 <= i < |r| ==> r[i] == (a[i], b[i])
  {
    if |a| == 0 || |b| == 0 then [] else [(a[0], b[0])] + Zip(a[1..], b[1..])
  }

  /** Entries beyond the shorter list are never looked at. */
  lemma ZipIgnoresExtra<A, B>(a: seq<A>, b: seq<B>, extraA: seq<A>, extraB: seq<B>)
    requires |a| == |b|
    requires extraA == [] || extraB == []
    ensures Zip(a + extraA, b + extraB) == Zip(a, b)
  {
    var l := a + extraA;
    var m := b + extraB;
    assert Min(|l|, |m|) == |a|;
    assert forall i :: 0 <= i < |a| ==> l[i] == a[i] && m[i] == b[i];
  }

  /** A `Clean(nodes, files)` registration. */
  datatype Clean = Clean(nodes: seq<string>, files: seq<string>)

  /** What a pseudo-builder hands back and registers. */
  datatype Outcome = Outcome(result: seq<string>, cleans: seq<Clean>)

  /** The nodes every builder call returns, in pair order: `result.extend`. */
  function Outputs(build: (string, string) -> seq<string>, pairs: seq<(string, string)>): seq<string> {
    if |pairs| == 0 then [] else build(pairs[0].0, pairs[0].1) + Outputs(build, pairs[1..])
  }

  /** One `Clean` per file group, all on the same nodes. */
  function CleansOn(nodes: seq<string>, groups: seq<seq<string>>): (r: seq<Clean>)
    ensures |r| == |groups|
    ensures forall i :: 0 <= i < |r| ==> r[i] == Clean(nodes, groups[i])
  {
    if |groups| == 0 then [] else [Clean(nodes, groups[0])] + CleansOn(nodes, groups[1..])
  }

  /** The loop over the pairs: call the builder on each, keep its nodes,
      and register the clean files computed from the source name. */
  function Run(build: (string, string) -> seq<string>, cleanFiles: string -> seq<seq<string>>,
               pairs: seq<(string, string)>): (r: Outcome)
    ensures r.result == Outputs(build, pairs)
  {
    if |pairs| == 0 then Outcome([], [])
    else
      var out := build(pairs[0].0, pairs[0].1);
      var rest := Run(build, cleanFiles, pairs[1..]);
      Outcome(out + rest.result, CleansOn(out, cleanFiles(pairs[0].1)) + rest.cleans)
  }

  /** Running over two runs of pairs is running over each in turn. */
  lemma {:induction false} RunAppend(build: (string, string) -> seq<string>,
                                     cleanFiles: string -> seq<seq<string>>,
                                     a: seq<(string, string)>, b: seq<(string, string)>)
    ensures Run(build, cleanFiles, a + b).result == Run(build, cleanFiles, a).result + Run(build, cleanFiles, b).result
    ensures Run(build, cleanFiles, a + b).cleans == Run(build, cleanFiles, a).cleans + Run(build, cleanFiles, b).cleans
    decreases |a|
  {
    if |a| == 0 {
      assert a + b == b;
    } else {
      assert (a + b)[0] == a[0];
      assert (a + b)[1..] == a[1..] + b;
      RunAppend(build, cleanFiles, a[1..], b);
    }
  }

  /** The registrations made over a run of pairs: for each pair, one per
      file group of its source, on the nodes built for that pair, and
      nothing else. */
  lemma {:induction false} RunCleansMembers(build: (string, string) -> seq<string>,
                                            cleanFiles: string -> seq<seq<string>>,
                                            pairs: seq<(string, string)>)
    ensures forall c :: c in Run(build, cleanFiles, pairs).cleans <==>
      exists i, k :: 0 <= i < |pairs| && 0 <= k < |cleanFiles(pairs[i].1)| &&
        c == Clean(build(pairs[i].0, pairs[i].1), cleanFiles(pairs[i].1)[k])
    decreases |pairs|
  {
    if |pairs| > 0 {
      RunCleansMembers(build, cleanFiles, pairs[1..]);
      var head := CleansOn(build(pairs[0].0, pairs[0].1), cleanFiles(pairs[0].1));
      var tail := Run(build, cleanFiles, pairs[1..]).cleans;
      assert Run(build, cleanFiles, pairs).cleans == head + tail;
      forall c | c in head + tail
        ensures exists i, k :: 0 <= i < |pairs| && 0 <= k < |cleanFiles(pairs[i].1)| &&
                  c == Clean(build(pairs[i].0, pairs[i].1), cleanFiles(pairs[i].1)[k])
      {
        if c in head {
          var k :| 0 <= k < |head| && head[k] == c;
          assert cleanFiles(pairs[0].1)[k] == head[k].files;
        } else {
          var i, k :| 0 <= i < |pairs[1..]| && 0 <= k < |cleanFiles(pairs[1..][i].1)| &&
                      c == Clean(build(pairs[1..][i].0, pairs[1..][i].1), cleanFiles(pairs[1..][i].1)[k]);
          assert pairs[1..][i] == pairs[i + 1];
        }
      }
      forall i, k | 0 <= i < |pairs| && 0 <= k < |cleanFiles(pairs[i].1)|
        ensures Clean(build(pairs[i].0, pairs[i].1), cleanFiles(pairs[i].1)[k]) in head + tail
      {
        if i == 0 {
          assert head[k] == Clean(build(pairs[i].0, pairs[i].1), cleanFiles(pairs[i].1)[k]);
        } else {
          assert pairs[1..][i - 1] == pairs[i];
        }
      }
    }
  }

  /** With `n` file groups for every source, there are `n` registrations
      per pair. */
  lemma {:induction false} RunCleansCount(build: (string, string) -> seq<string>,
                                          cleanFiles: string -> seq<seq<string>>,
                                          pairs: seq<(string, string)>, n: nat)
    requires forall i :: 0 <= i < |pairs| ==> |cleanFiles(pairs[i].1)| == n
    ensures |Run(build, cleanFiles, pairs).cleans| == n * |pairs|
    decreases |pairs|
  {
    if |pairs| > 0 {
      assert forall i :: 0 <= i < |pairs[1..]| ==> pairs[1..][i] == pairs[i + 1];
      RunCleansCount(build, cleanFiles, pairs[1..], n);
      assert n * |pairs| == n + n * |pairs[1..]|;
    }
  }

  /** One pair: the builder's nodes, and one `Clean` per file group on
      exactly those nodes. */
  lemma RunOne(build: (string, string) -> seq<string>, cleanFiles: string -> seq<seq<string>>,
               t: string, s: string)
    ensures Run(build, cleanFiles, [(t, s)]) ==
              Outcome(build(t, s), CleansOn(build(t, s), cleanFiles(s)))
  {
    assert [(t, s)][1..] == [];
  }
}
