/** The Haskell tool: the emitter that adds the `.hi` interface file and
    the reading of the dependency file `ghc -M` writes. Running `ghc`
    itself is outside the model; the dependency file's text is the input. */
module Haskell {
  import opened Wrappers
  import opened PyStr
  import PyPath

  /** `addHaskellInterface`: the first target without its extension,
      plus `.hi`, goes after the targets. With no target, `target[0]`
      raises IndexError. */
  function AddHaskellInterface(target: seq<string>, source: seq<string>)
    : (r: Result<(seq<string>, seq<string>), string>)
    ensures r.Failure? <==> |target| == 0
    ensures r.Success? ==> r.value.1 == source
    ensures r.Success? ==> |r.value.0| == |target| + 1 && r.value.0[..|target|] == target
    ensures r.Success? ==>
              var split := PyPath.Splitext(target[0]);
              split.0 + split.1 == target[0] && r.value.0[|target|] == split.0 + ".hi"
  {
    if |target| == 0 then Failure("IndexError")
    else
      var name := PyPath.Splitext(target[0]).0;
      var t := target + [name + ".hi"];
      assert t[..|target|] == target;
      Success((t, source))
  }

  /** `Main.o` gets the interface `Main.hi`. */
  lemma InterfaceOfObject(stem: string, rest: seq<string>, source: seq<string>)
    requires stem != "" && '.' !in stem && '/' !in stem
    ensures AddHaskellInterface([stem + ".o"] + rest, source) ==
              Success(([stem + ".o"] + rest + [stem + ".hi"], source))
  {
    PyPath.SplitextName(stem, "o");
    assert stem + "." + "o" == stem + ".o";
  }

  /** The dependency file for a module: a hidden `.<name>.dep` beside it. */
  function DepFileName(node: string): (r: string)
    ensures PyPath.Basename(r) == PyPath.Basename("." + PyPath.Basename(node) + ".dep")
  {
    var r := PyPath.Join(PyPath.Dirname(node), "." + PyPath.Basename(node) + ".dep");
    PyPath.BasenameJoin(PyPath.Dirname(node), "." + PyPath.Basename(node) + ".dep");
    r
  }

  /** The name of the dependency file starts with a dot. */
  lemma DepNameRelative(name: string)
    ensures !StartsWith("." + name + ".dep", "/")
  {
    var dep := "." + name + ".dep";
    assert dep[..1] == ".";
  }

  /** For `dir/Name.hs` the dependency file is `dir/.Name.hs.dep`. */
  lemma DepFileNameBeside(dir: string, name: string)
    requires dir != "" && !EndsWith(dir, "/") && '/' !in name
    ensures DepFileName(PyPath.Join(dir, name)) == dir + "/." + name + ".dep"
  {
    PyPath.DirnameJoin(dir, name);
    DepFileNameParts(PyPath.Join(dir, name), dir, name);
    DepJoinPlain(dir, name);
  }

  /** The dependency file is assembled from the node's directory and name. */
  lemma DepFileNameParts(node: string, dir: string, name: string)
    requires PyPath.Dirname(node) == dir && PyPath.Basename(node) == name
    ensures DepFileName(node) == PyPath.Join(dir, "." + name + ".dep")
  {
  }

  /** Joining a directory and the dotted name puts one slash between them. */
  lemma DepJoinPlain(dir: string, name: string)
    requires dir != "" && !EndsWith(dir, "/")
    ensures PyPath.Join(dir, "." + name + ".dep") == dir + "/." + name + ".dep"
  {
    DepNameRelative(name);
    var dep := "." + name + ".dep";
    assert PyPath.Join(dir, dep) == dir + "/" + dep;
    assert dir + "/" + dep == dir + "/." + name + ".dep";
  }

  /** For a bare `Name.hs` it is `.Name.hs.dep`. */
  lemma DepFileNameBare(name: string)
    requires '/' !in name
    ensures DepFileName(name) == "." + name + ".dep"
  {
    DepNameRelative(name);
    assert PyPath.Dirname(name) == "";
    assert PyPath.TailStart(name) == 0;
    assert PyPath.Basename(name) == name;
  }

  /** A line that is read: not empty and not a `#` comment. */
  predicate ContentLine(line: string) {
    |line| > 0 && line[0] != '#'
  }

  /** One line: `target : source`, stripped; the source's base name is a
      dependency unless the source is the scanned module itself. A content
      line without `:` has no `files[1]`: IndexError. */
  function ParseDepLine(line: string, node: string): (r: Result<seq<string>, string>)
    ensures !ContentLine(line) ==> r == Success([])
    ensures ContentLine(line) ==> (r.Failure? <==> ':' !in line)
    ensures r.Success? ==> |r.value| <= 1 && forall k :: 0 <= k < |r.value| ==> '/' !in r.value[k]
  {
    if !ContentLine(line) then Success([])
    else
      var files := Split(line, ":");
      SplitCount(line, ':');
      if |files| < 2 then Failure("IndexError")
      else
        var source := Strip(files[1]);
        if source != node then Success([PyPath.Basename(source)]) else Success([])
  }

  /** A split on a character has a second piece exactly when the
      character occurs. */
  lemma SplitCount(s: string, c: char)
    ensures |Split(s, [c])| >= 2 <==> c in s
  {
    match Find(s, [c])
    case None =>
      forall i | 0 <= i < |s| ensures s[i] != c {
        OccursAtSingle(s, i, c);
      }
    case Some(i) =>
      OccursAtSingle(s, i, c);
  }

  /** The lines in order, each read by `parse`, the dependencies
      collected in turn; the first failing line stops the scan. */
  function Scan(lines: seq<string>, parse: string -> Result<seq<string>, string>): (r: Result<seq<string>, string>)
    ensures |lines| > 0 && parse(lines[0]).Failure? ==> r == Failure(parse(lines[0]).error)
    ensures r.Success? ==> forall i :: 0 <= i < |lines| ==> parse(lines[i]).Success?
  {
    if |lines| == 0 then Success([])
    else
      var here := parse(lines[0]);
      var rest := Scan(lines[1..], parse);
      if here.Failure? then Failure(here.error)
      else if rest.Failure? then rest
      else Success(here.value + rest.value)
  }

  /** The scan fails exactly when some line fails. */
  lemma {:induction false} ScanFails(lines: seq<string>, parse: string -> Result<seq<string>, string>)
    ensures Scan(lines, parse).Failure? <==> exists i :: 0 <= i < |lines| && parse(lines[i]).Failure?
  {
    if |lines| > 0 {
      var tail := lines[1..];
      ScanFails(tail, parse);
      assert forall i :: 1 <= i < |lines| ==> lines[i] == tail[i - 1];
      if exists i :: 0 <= i < |tail| && parse(tail[i]).Failure? {
        var i :| 0 <= i < |tail| && parse(tail[i]).Failure?;
        assert lines[i + 1] == tail[i];
      }
    }
  }

  /** Scanning two parts of the file is scanning each in turn. */
  lemma {:induction false} ScanAppend(a: seq<string>, b: seq<string>, parse: string -> Result<seq<string>, string>)
    requires Scan(a, parse).Success? && Scan(b, parse).Success?
    ensures Scan(a + b, parse) == Success(Scan(a, parse).value + Scan(b, parse).value)
  {
    if |a| == 0 {
      assert a + b == b;
      assert Scan(a, parse).value == [];
      assert [] + Scan(b, parse).value == Scan(b, parse).value;
    } else {
      var ab := a + b;
      assert ab[0] == a[0];
      assert ab[1..] == a[1..] + b;
      ScanAppend(a[1..], b, parse);
      var here := parse(a[0]);
      var restA := Scan(a[1..], parse);
      assert Scan(a, parse) == Success(here.value + restA.value);
      assert Scan(ab, parse) == Success(here.value + Scan(ab[1..], parse).value);
      assert here.value + (restA.value + Scan(b, parse).value) ==
             (here.value + restA.value) + Scan(b, parse).value;
    }
  }

  /** A line reader that yields at most one plain name per line keeps the
      scan within one name per line, all plain. */
  lemma {:induction false} ScanPlain(lines: seq<string>, parse: string -> Result<seq<string>, string>)
    requires forall l :: parse(l).Success? ==>
               |parse(l).value| <= 1 && forall k :: 0 <= k < |parse(l).value| ==> '/' !in parse(l).value[k]
    ensures var r := Scan(lines, parse);
            r.Success? ==> |r.value| <= |lines| && forall k :: 0 <= k < |r.value| ==> '/' !in r.value[k]
  {
    if |lines| > 0 {
      ScanPlain(lines[1..], parse);
    }
  }

  /** The dependencies listed in the file's lines. */
  function ParseDeps(lines: seq<string>, node: string): (r: Result<seq<string>, string>)
    ensures r.Success? ==> |r.value| <= |lines|
    ensures r.Success? ==> forall k :: 0 <= k < |r.value| ==> '/' !in r.value[k]
  {
    ScanPlain(lines, l => ParseDepLine(l, node));
    Scan(lines, l => ParseDepLine(l, node))
  }

  /** The scan fails exactly when some read line has no `:`. */
  lemma ParseDepsFails(lines: seq<string>, node: string)
    ensures ParseDeps(lines, node).Failure? <==>
              exists i :: 0 <= i < |lines| && ContentLine(lines[i]) && ':' !in lines[i]
  {
    ScanFails(lines, l => ParseDepLine(l, node));
  }

  /** Reading two parts of the file is reading each in turn. */
  lemma ParseDepsAppend(a: seq<string>, b: seq<string>, node: string)
    requires ParseDeps(a, node).Success? && ParseDeps(b, node).Success?
    ensures ParseDeps(a + b, node) == Success(ParseDeps(a, node).value + ParseDeps(b, node).value)
  {
    ScanAppend(a, b, l => ParseDepLine(l, node));
  }

  /** `Main.o : Lib/Util.hi` read while scanning `Main.hs` records
      `Util.hi`; the module's own line records nothing. */
  lemma DepLineRecorded(t: string, s: string, node: string)
    requires ':' !in t && ':' !in s
    requires ContentLine(t + ":" + s)
    ensures Strip(s) != node ==> ParseDeps([t + ":" + s], node) == Success([PyPath.Basename(Strip(s))])
    ensures Strip(s) == node ==> ParseDeps([t + ":" + s], node) == Success([])
  {
    var line := t + ":" + s;
    SplitColonLine(t, s);
    var parse := l => ParseDepLine(l, node);
    ScanOne(line, parse);
    assert parse(line) == ParseDepLine(line, node);
  }

  lemma ScanOne(line: string, parse: string -> Result<seq<string>, string>)
    ensures Scan([line], parse) == parse(line)
  {
    assert [line][1..] == [];
    if parse(line).Success? {
      assert parse(line).value + [] == parse(line).value;
    }
  }

  /** A line with one colon splits into the text before and after it. */
  lemma SplitColonLine(t: string, s: string)
    requires ':' !in t && ':' !in s
    ensures Split(t + ":" + s, ":") == [t, s]
  {
    var line := t + ":" + s;
    assert line[|t|] == ':';
    OccursAtSingle(line, |t|, ':');
    forall j | 0 <= j < |t| ensures !OccursAt(line, j, ":") {
      OccursAtSingle(line, j, ':');
      assert line[j] == t[j];
    }
    assert Find(line, ":") == Some(|t|);
    assert line[..|t|] == t;
    assert line[|t| + 1..] == s;
    SplitCount(s, ':');
    assert Split(s, ":") == [s];
  }

  /** `importedModules` on the dependency file's text. */
  function ImportedModules(contents: string, node: string): (r: Result<seq<string>, string>)
    ensures r.Success? ==> forall k :: 0 <= k < |r.value| ==> '/' !in r.value[k]
  {
    ParseDeps(Split(contents, "\n"), node)
  }
}
