/** The Sphinx tool's `HTML` pseudo-builder: from the source directories
    it plans one `sphinx-build` command per directory, with one HTML page
    per reStructuredText file and a fixed list of extra build files. The
    directory walk is host I/O and is given as a function from a
    directory to the `(root, files)` entries `os.walk` yields. */
module Sphinx {
  import opened Wrappers
  import opened PyStr
  import PyPath
  import opened PyValue
  import opened PseudoBuilder

  const DefaultSourceDirectory := "source"
  const DefaultBuildDirectory := "build"

  /** The files a Sphinx HTML build leaves besides the pages. */
  const KnownExtraFiles: seq<string> := [
    "doctrees/environment.pickle", "doctrees/index.doctree",
    "html/.buildinfo", "html/genindex.html", "html/objects.inv", "html/search.html",
    "html/searchindex.js", "html/_sources/index.txt",
    "html/_static/basic.css", "html/_static/default.css", "html/_static/doctools.js",
    "html/_static/file.png", "html/_static/jquery.js", "html/_static/minus.png",
    "html/_static/plus.png", "html/_static/pygments.css", "html/_static/searchtools.js",
    "html/_static/sidebar.js", "html/_static/underscore.js"]

  /** One entry of `os.walk`: a directory and the files directly in it. */
  datatype Walked = Walked(root: string, files: seq<string>)

  /** One `env.Command(targets, sources, action)`. */
  datatype Command = Command(targets: seq<string>, sources: seq<string>, action: string)

  /** What `HTML` registers: the extra files (made precious and a side
      effect of every command) and the commands. */
  datatype Plan = Plan(extraFiles: seq<string>, commands: seq<Command>)

  /** The checks `Source` and `HTML` share: at least one source directory,
      and a target that is absent or a string, which then replaces the
      build directory. */
  function BuildDirectory(source: seq<string>, target: Value): (r: Result<string, string>)
    ensures |source| == 0 ==> r == Failure("ValueError")
    ensures |source| > 0 && target == VNone ==> r == Success(DefaultBuildDirectory)
    ensures |source| > 0 && target.VStr? ==> r == Success(target.s)
    ensures r.Success? <==> |source| > 0 && (target == VNone || target.VStr?)
  {
    if |source| == 0 then Failure("ValueError")
    else if target == VNone then Success(DefaultBuildDirectory)
    else if target.VStr? then Success(target.s)
    else Failure("ValueError")
  }

  /** The `source` argument of `Source` and `HTML`: as given, or
      `[defaultSourceDirectory]` when it is left out. */
  function SourceArg(source: Option<Arg>): (r: Arg)
    ensures source.Some? ==> r == source.value
    ensures source.None? ==> AsList(r) == [DefaultSourceDirectory]
  {
    if source.Some? then source.value else Many([DefaultSourceDirectory])
  }

  /** `HTML()` with every argument left out builds `source` into `build`
      with a single command. */
  lemma HtmlDefaults(walk: string -> seq<Walked>, sphinx: string, flags: string)
    ensures var r := Html(SourceArg(None), VNone, walk, sphinx, flags);
            r.Success? && r.value.extraFiles == ExtraFiles(DefaultBuildDirectory) &&
            |r.value.commands| == 1 &&
            DirectoryCommand(r.value.commands[0], sphinx, flags, DefaultBuildDirectory,
                             DefaultSourceDirectory, walk(DefaultSourceDirectory))
  {
    assert BuildDirectory([DefaultSourceDirectory], VNone) == Success(DefaultBuildDirectory);
  }

  /** `Source`: the same checks, then nothing to build. */
  function Source(source: Arg, target: Value): (r: Result<seq<string>, string>)
    ensures r.Success? ==> r.value == []
    ensures r.Failure? <==> BuildDirectory(AsList(source), target).Failure?
  {
    var b := BuildDirectory(AsList(source), target);
    if b.Failure? then Failure(b.error) else Success([])
  }

  /** The file names `keep` accepts, in order: the `if ext == '.rst'` test
      of the walk, with the test as a parameter. */
  function Filter(names: seq<string>, keep: string -> bool): (r: seq<string>)
    ensures |r| <= |names|
    ensures forall k :: 0 <= k < |r| ==> r[k] in names && keep(r[k])
  {
    if |names| == 0 then []
    else if keep(names[0]) then [names[0]] + Filter(names[1..], keep)
    else Filter(names[1..], keep)
  }

  /** Every accepted name is kept. */
  lemma {:induction false} FilterComplete(names: seq<string>, keep: string -> bool)
    ensures forall i :: 0 <= i < |names| && keep(names[i]) ==> names[i] in Filter(names, keep)
  {
    if |names| > 0 {
      FilterComplete(names[1..], keep);
      assert forall i :: 1 <= i < |names| ==> names[i] == names[1..][i - 1];
    }
  }

  /** The walk's test on a file name. */
  predicate IsRst(name: string) {
    PyPath.Splitext(name).1 == ".rst"
  }

  /** The page for one file found under `root`: the directory part with the
      source directory's name replaced by `html`, and the stem plus `.html`. */
  function PageFor(buildDir: string, directoryName: string, root: string, name: string): string {
    PyPath.Join3(buildDir, ReplaceAll(root, directoryName, "html"), PyPath.Splitext(name).0 + ".html")
  }

  function Pages(buildDir: string, directoryName: string, root: string, names: seq<string>): (r: seq<string>)
    ensures |r| == |names|
    ensures forall i :: 0 <= i < |r| ==> r[i] == PageFor(buildDir, directoryName, root, names[i])
  {
    if |names| == 0 then [] else [PageFor(buildDir, directoryName, root, names[0])] + Pages(buildDir, directoryName, root, names[1..])
  }

  /** The reStructuredText files of one walk entry, as sources and pages. */
  function EntryFiles(buildDir: string, directoryName: string, root: string, files: seq<string>)
    : (r: (seq<string>, seq<string>))
    ensures |r.0| == |r.1| <= |files|
  {
    var rst := Filter(files, IsRst);
    (PrefixEach(root + "/", rst), Pages(buildDir, directoryName, root, rst))
  }

  /** Sources and pages correspond one to one, each from a `.rst` file of
      the entry. */
  lemma EntryFilesSound(buildDir: string, directoryName: string, root: string, files: seq<string>)
    ensures var r := EntryFiles(buildDir, directoryName, root, files);
            forall k :: 0 <= k < |r.0| ==>
              exists f :: f in files && IsRst(f) && r.0[k] == root + "/" + f &&
                          r.1[k] == PageFor(buildDir, directoryName, root, f)
  {
    var rst := Filter(files, IsRst);
    var r := EntryFiles(buildDir, directoryName, root, files);
    assert r.0 == PrefixEach(root + "/", rst);
    assert r.1 == Pages(buildDir, directoryName, root, rst);
    forall k | 0 <= k < |r.0|
      ensures exists f :: f in files && IsRst(f) && r.0[k] == root + "/" + f &&
                          r.1[k] == PageFor(buildDir, directoryName, root, f)
    {
      var f := rst[k];
      assert f in files && IsRst(f);
      assert r.0[k] == root + "/" + f;
      assert r.1[k] == PageFor(buildDir, directoryName, root, f);
    }
  }

  /** Every `.rst` file of the entry is among the sources. */
  lemma EntryFilesComplete(buildDir: string, directoryName: string, root: string, files: seq<string>)
    ensures forall i :: 0 <= i < |files| && IsRst(files[i]) ==>
              root + "/" + files[i] in EntryFiles(buildDir, directoryName, root, files).0
  {
    var rst := Filter(files, IsRst);
    FilterComplete(files, IsRst);
    PrefixEachContains(root + "/", rst);
  }

  /** All walk entries of one source directory, in walk order. */
  function DirectoryFiles(buildDir: string, directoryName: string, walked: seq<Walked>): (r: (seq<string>, seq<string>))
    ensures |r.0| == |r.1|
  {
    if |walked| == 0 then ([], [])
    else
      var here := EntryFiles(buildDir, directoryName, walked[0].root, walked[0].files);
      var rest := DirectoryFiles(buildDir, directoryName, walked[1..]);
      (here.0 + rest.0, here.1 + rest.1)
  }

  /** `src` and `page` are the source and the page the walk entry `e`
      gives for its `.rst` file `f`. */
  predicate FromEntry(buildDir: string, directoryName: string, e: Walked, f: string, src: string, page: string) {
    f in e.files && IsRst(f) && src == e.root + "/" + f && page == PageFor(buildDir, directoryName, e.root, f)
  }

  /** `src` and `page` come from an `.rst` file of one of the walk's entries. */
  ghost predicate FromWalk(buildDir: string, directoryName: string, walked: seq<Walked>, src: string, page: string) {
    exists e, f :: e in walked && FromEntry(buildDir, directoryName, e, f, src, page)
  }

  lemma FromWalkTail(buildDir: string, directoryName: string, walked: seq<Walked>, src: string, page: string)
    requires |walked| > 0 && FromWalk(buildDir, directoryName, walked[1..], src, page)
    ensures FromWalk(buildDir, directoryName, walked, src, page)
  {
    var e, f :| e in walked[1..] && FromEntry(buildDir, directoryName, e, f, src, page);
    assert e in walked;
  }

  /** Every source of a directory, with its page, comes from an `.rst` file
      of one of the walk's entries. */
  lemma {:induction false} DirectoryFilesSound(buildDir: string, directoryName: string, walked: seq<Walked>)
    ensures forall k :: 0 <= k < |DirectoryFiles(buildDir, directoryName, walked).0| ==>
              FromWalk(buildDir, directoryName, walked, DirectoryFiles(buildDir, directoryName, walked).0[k],
                       DirectoryFiles(buildDir, directoryName, walked).1[k])
    decreases |walked|
  {
    if |walked| > 0 {
      var r := DirectoryFiles(buildDir, directoryName, walked);
      var here := EntryFiles(buildDir, directoryName, walked[0].root, walked[0].files);
      var rest := DirectoryFiles(buildDir, directoryName, walked[1..]);
      assert r == (here.0 + rest.0, here.1 + rest.1);
      EntrySound(buildDir, directoryName, walked);
      DirectoryFilesSound(buildDir, directoryName, walked[1..]);
      forall k | 0 <= k < |r.0| ensures FromWalk(buildDir, directoryName, walked, r.0[k], r.1[k]) {
        if k < |here.0| {
          assert r.0[k] == here.0[k] && r.1[k] == here.1[k];
        } else {
          var k' := k - |here.0|;
          assert r.0[k] == rest.0[k'] && r.1[k] == rest.1[k'];
          FromWalkTail(buildDir, directoryName, walked, rest.0[k'], rest.1[k']);
        }
      }
    }
  }

  /** The files of the first walk entry come from the walk. */
  lemma EntrySound(buildDir: string, directoryName: string, walked: seq<Walked>)
    requires |walked| > 0
    ensures var here := EntryFiles(buildDir, directoryName, walked[0].root, walked[0].files);
            forall k :: 0 <= k < |here.0| ==> FromWalk(buildDir, directoryName, walked, here.0[k], here.1[k])
  {
    var e := walked[0];
    var here := EntryFiles(buildDir, directoryName, e.root, e.files);
    EntryFilesSound(buildDir, directoryName, e.root, e.files);
    forall k | 0 <= k < |here.0| ensures FromWalk(buildDir, directoryName, walked, here.0[k], here.1[k]) {
      var f :| f in e.files && IsRst(f) && here.0[k] == e.root + "/" + f &&
               here.1[k] == PageFor(buildDir, directoryName, e.root, f);
      assert FromEntry(buildDir, directoryName, e, f, here.0[k], here.1[k]);
    }
  }

  /** Every `.rst` file of every walk entry is a source of the directory. */
  lemma {:induction false} DirectoryFilesComplete(buildDir: string, directoryName: string, walked: seq<Walked>)
    ensures forall e, f :: e in walked && f in e.files && IsRst(f) ==>
              e.root + "/" + f in DirectoryFiles(buildDir, directoryName, walked).0
    decreases |walked|
  {
    if |walked| > 0 {
      var r := DirectoryFiles(buildDir, directoryName, walked);
      var here := EntryFiles(buildDir, directoryName, walked[0].root, walked[0].files);
      var rest := DirectoryFiles(buildDir, directoryName, walked[1..]);
      assert r.0 == here.0 + rest.0;
      EntryFilesComplete(buildDir, directoryName, walked[0].root, walked[0].files);
      DirectoryFilesComplete(buildDir, directoryName, walked[1..]);
      forall e, f | e in walked && f in e.files && IsRst(f) ensures e.root + "/" + f in r.0 {
        if e == walked[0] {
          var i :| 0 <= i < |e.files| && e.files[i] == f;
          assert e.root + "/" + f in here.0;
        } else {
          assert e in walked[1..];
        }
      }
    }
  }

  /** What one directory's command reads and writes: each source with its
      page comes from an `.rst` file of the walk, every such file is a
      source, and the action builds the directory. */
  ghost predicate DirectoryCommand(c: Command, sphinx: string, flags: string, buildDir: string,
                                   directoryName: string, walked: seq<Walked>) {
    |c.targets| == |c.sources|
    && (forall k :: 0 <= k < |c.sources| ==> FromWalk(buildDir, directoryName, walked, c.sources[k], c.targets[k]))
    && (forall e, f :: e in walked && f in e.files && IsRst(f) ==> e.root + "/" + f in c.sources)
    && c.action == Action(sphinx, flags, buildDir, directoryName)
  }

  /** The command line for one source directory. */
  function Action(sphinx: string, flags: string, buildDir: string, directoryName: string): string {
    sphinx + " " + flags + " -b html -d " + buildDir + "/doctrees " + directoryName + " " + buildDir + "/html"
  }

  function CommandsFor(sphinx: string, flags: string, buildDir: string, dirs: seq<string>,
                       walk: string -> seq<Walked>): (r: seq<Command>)
    ensures |r| == |dirs|
    ensures forall i :: 0 <= i < |r| ==>
              var files := DirectoryFiles(buildDir, dirs[i], walk(dirs[i]));
              r[i] == Command(files.1, files.0, Action(sphinx, flags, buildDir, dirs[i]))
  {
    if |dirs| == 0 then []
    else
      var files := DirectoryFiles(buildDir, dirs[0], walk(dirs[0]));
      [Command(files.1, files.0, Action(sphinx, flags, buildDir, dirs[0]))] +
        CommandsFor(sphinx, flags, buildDir, dirs[1..], walk)
  }

  /** The command built from a directory's files has the shape
      `DirectoryCommand` describes. */
  lemma DirectoryCommandOf(sphinx: string, flags: string, buildDir: string, directoryName: string,
                           walked: seq<Walked>)
    ensures var files := DirectoryFiles(buildDir, directoryName, walked);
            DirectoryCommand(Command(files.1, files.0, Action(sphinx, flags, buildDir, directoryName)),
                             sphinx, flags, buildDir, directoryName, walked)
  {
    DirectoryFilesSound(buildDir, directoryName, walked);
    DirectoryFilesComplete(buildDir, directoryName, walked);
  }

  /** Each command of `CommandsFor` reads exactly the `.rst` files its
      directory's walk yields and writes their pages. */
  lemma CommandsForDirectories(sphinx: string, flags: string, buildDir: string, dirs: seq<string>,
                               walk: string -> seq<Walked>)
    ensures forall i :: 0 <= i < |dirs| ==>
              DirectoryCommand(CommandsFor(sphinx, flags, buildDir, dirs, walk)[i], sphinx, flags, buildDir,
                               dirs[i], walk(dirs[i]))
  {
    var r := CommandsFor(sphinx, flags, buildDir, dirs, walk);
    forall i | 0 <= i < |dirs|
      ensures DirectoryCommand(r[i], sphinx, flags, buildDir, dirs[i], walk(dirs[i]))
    {
      DirectoryCommandOf(sphinx, flags, buildDir, dirs[i], walk(dirs[i]));
    }
  }

  /** `buildDirectory + "/" + name` for each known extra file. */
  function ExtraFiles(buildDir: string): (r: seq<string>)
    ensures |r| == |KnownExtraFiles|
    ensures forall i :: 0 <= i < |r| ==> r[i] == buildDir + "/" + KnownExtraFiles[i]
  {
    PrefixEach(buildDir + "/", KnownExtraFiles)
  }

  /** `HTML`: the shared checks, then one command per source directory
      whose targets are the pages and whose sources the `.rst` files. */
  function Html(source: Arg, target: Value, walk: string -> seq<Walked>, sphinx: string, flags: string)
    : (r: Result<Plan, string>)
    ensures r.Failure? <==> BuildDirectory(AsList(source), target).Failure?
    ensures r.Success? ==>
              var b := BuildDirectory(AsList(source), target).value;
              |r.value.commands| == |AsList(source)| &&
              r.value.extraFiles == ExtraFiles(b) &&
              forall i :: 0 <= i < |r.value.commands| ==>
                DirectoryCommand(r.value.commands[i], sphinx, flags, b, AsList(source)[i], walk(AsList(source)[i]))
  {
    var dirs := AsList(source);
    var b := BuildDirectory(dirs, target);
    if b.Failure? then Failure(b.error)
    else
      CommandsForDirectories(sphinx, flags, b.value, dirs, walk);
      Success(Plan(ExtraFiles(b.value), CommandsFor(sphinx, flags, b.value, dirs, walk)))
  }

  /** A source `stem.rst` gets a page named `stem.html`. */
  lemma PageName(buildDir: string, directoryName: string, root: string, stem: string)
    requires stem != "" && '.' !in stem && '/' !in stem
    ensures IsRst(stem + ".rst")
    ensures PyPath.Basename(PageFor(buildDir, directoryName, root, stem + ".rst")) == stem + ".html"
  {
    PyPath.SplitextName(stem, "rst");
    assert stem + "." + "rst" == stem + ".rst";
    assert PyPath.Splitext(stem + ".rst") == (stem, ".rst");
    var page := stem + ".html";
    assert '/' !in page by {
      assert forall j :: |stem| <= j < |page| ==> page[j] in ".html";
    }
    PyPath.BasenameJoin(PyPath.Join(buildDir, ReplaceAll(root, directoryName, "html")), page);
    PyPath.BasenameOfName(page);
  }
}
