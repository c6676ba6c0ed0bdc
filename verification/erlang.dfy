/** The Erlang tool's target naming: the `.beam`, `.script` and `.boot`
    outputs of a compilation, the `erlc` command line, and the files that
    `edoc` leaves behind. */
module Erlang {
  import opened Wrappers
  import opened PyStr
  import PyPath

  /** `ERLLIBPATH` holds either a list of directories or a single one. */
  datatype LibSetting = LibList(paths: seq<string>) | LibScalar(path: string)

  /** The construction variables the tool reads. */
  datatype ErlEnv = ErlEnv(output: Option<string>, libPath: Option<LibSetting>)

  /** `dirOf`: the directory part of a file name with a trailing `/`, or
      `./` for a bare name. */
  function DirOf(filename: string): (r: string)
    ensures |r| > 0 && r[|r| - 1] == '/'
    ensures '/' !in filename ==> r == "./"
    ensures '/' in filename ==> r == PyPath.Dirname(filename) + "/"
  {
    var directory := PyPath.Dirname(filename);
    if directory == "" then "./" else directory + "/"
  }

  /** The directory `dirOf` gives for a file joined onto a directory is
      that directory. */
  lemma DirOfJoin(dir: string, name: string)
    requires dir != "" && !EndsWith(dir, "/") && '/' !in name
    ensures DirOf(PyPath.Join(dir, name)) == dir + "/"
  {
    PyPath.DirnameJoin(dir, name);
  }

  /** `outputDir`: `$OUTPUT` when set, otherwise the source's directory. */
  function OutputDir(source: string, env: ErlEnv): (r: string)
    ensures env.output.Some? ==> r == env.output.value
    ensures env.output.None? ==> r == DirOf(source)
  {
    match env.output
    case Some(o) => o
    case None => DirOf(source)
  }

  /** `libpath`: the list as given, a single directory wrapped in a list,
      or nothing when the variable is unset. */
  function LibPath(env: ErlEnv): (r: seq<string>)
    ensures env.libPath.None? ==> r == []
    ensures env.libPath.Some? && env.libPath.value.LibList? ==> r == env.libPath.value.paths
    ensures env.libPath.Some? && env.libPath.value.LibScalar? ==> r == [env.libPath.value.path]
  {
    match env.libPath
    case None => []
    case Some(LibList(ps)) => ps
    case Some(LibScalar(p)) => [p]
  }

  /** `addTarget`: the first source names the outputs, which go into the
      output directory; an unknown extension leaves everything as given.
      With no source at all, `source[0]` raises IndexError. */
  function AddTarget(target: seq<string>, source: seq<string>, env: ErlEnv)
    : (r: Result<(seq<string>, seq<string>), string>)
    ensures r.Failure? <==> |source| == 0
    ensures r.Success? ==> r.value.1 == source
    ensures r.Success? ==>
              var parts := PyPath.Splitext(PyPath.Basename(source[0]));
              var prefix := OutputDir(source[0], env);
              (parts.1 == ".erl" ==> r.value.0 == [prefix + parts.0 + ".beam"]) &&
              (parts.1 == ".rel" ==> r.value.0 == [prefix + parts.0 + ".script", prefix + parts.0 + ".boot"]) &&
              (parts.1 != ".erl" && parts.1 != ".rel" ==> r.value.0 == target)
  {
    if |source| == 0 then Failure("IndexError")
    else
      var sourceStr := source[0];
      var parts := PyPath.Splitext(PyPath.Basename(sourceStr));
      var prefix := OutputDir(sourceStr, env);
      if parts.1 == ".erl" then Success(([prefix + parts.0 + ".beam"], source))
      else if parts.1 == ".rel" then Success(([prefix + parts.0 + ".script", prefix + parts.0 + ".boot"], source))
      else Success((target, source))
  }

  /** `dir/name.erl` compiles to `dir/name.beam` next to it unless
      `$OUTPUT` redirects it. */
  lemma AddTargetErl(target: seq<string>, dir: string, name: string, env: ErlEnv)
    requires dir != "" && !EndsWith(dir, "/")
    requires name != "" && '/' !in name && '.' !in name
    ensures var src := PyPath.Join(dir, name + ".erl");
            AddTarget(target, [src], env) ==
              Success(([OutputDir(src, env) + name + ".beam"], [src]))
    ensures env.output.None? ==>
              AddTarget(target, [PyPath.Join(dir, name + ".erl")], env) ==
                Success(([dir + "/" + name + ".beam"], [PyPath.Join(dir, name + ".erl")]))
  {
    var file := name + ".erl";
    assert '/' !in file by {
      assert forall j :: |name| <= j < |file| ==> file[j] in ".erl";
      assert forall j :: 0 <= j < |name| ==> file[j] == name[j];
    }
    PyPath.DirnameJoin(dir, file);
    DirOfJoin(dir, file);
    PyPath.SplitextName(name, "erl");
    assert name + "." + "erl" == file;
  }

  /** A release file `dir/name.rel` gives its `.script` and then its
      `.boot`. */
  lemma AddTargetRel(target: seq<string>, dir: string, name: string)
    requires dir != "" && !EndsWith(dir, "/")
    requires name != "" && '/' !in name && '.' !in name
    ensures AddTarget(target, [PyPath.Join(dir, name + ".rel")], ErlEnv(None, None)).value.0 ==
              [dir + "/" + name + ".script", dir + "/" + name + ".boot"]
  {
    var file := name + ".rel";
    assert '/' !in file by {
      assert forall j :: |name| <= j < |file| ==> file[j] in ".rel";
      assert forall j :: 0 <= j < |name| ==> file[j] == name[j];
    }
    PyPath.DirnameJoin(dir, file);
    DirOfJoin(dir, file);
    PyPath.SplitextName(name, "rel");
    assert name + "." + "rel" == file;
  }

  /** The ` -I dir` options, one per library directory in order. */
  function IncludeFlags(paths: seq<string>): (r: string)
    ensures |r| == 4 * |paths| + SumLengths(paths)
  {
    if |paths| == 0 then "" else " -I " + paths[0] + IncludeFlags(paths[1..])
  }

  function SumLengths(paths: seq<string>): nat {
    if |paths| == 0 then 0 else |paths[0]| + SumLengths(paths[1..])
  }

  /** The options are the library directories joined by ` -I `, after an
      empty leading piece. */
  lemma {:induction false} IncludeFlagsJoin(paths: seq<string>)
    ensures IncludeFlags(paths) == Join([""] + paths, " -I ")
  {
    if |paths| > 0 {
      var sep := " -I ";
      var rest := paths[1..];
      IncludeFlagsJoin(rest);
      assert ([""] + paths)[1..] == paths;
      assert Join([""] + paths, sep) == "" + sep + Join(paths, sep);
      if |rest| > 0 {
        assert ([""] + rest)[1..] == rest;
        assert Join([""] + rest, sep) == "" + sep + Join(rest, sep);
        assert Join(paths, sep) == paths[0] + sep + Join(rest, sep);
      } else {
        assert Join(paths, sep) == paths[0];
      }
    }
  }

  /** `erlangGenerator`: `$ERLC -o <output directory>`, the library
      options, then the source. */
  function ErlangGenerator(source: seq<string>, env: ErlEnv): (r: Result<string, string>)
    ensures r.Failure? <==> |source| == 0
    ensures r.Success? ==> StartsWith(r.value, "$ERLC -o " + OutputDir(source[0], env))
    ensures r.Success? ==> EndsWith(r.value, " " + source[0])
    ensures r.Success? ==> |r.value| == 9 + |OutputDir(source[0], env)| + 4 * |LibPath(env)| + SumLengths(LibPath(env)) + 1 + |source[0]|
  {
    if |source| == 0 then Failure("IndexError")
    else
      var head := "$ERLC -o " + OutputDir(source[0], env);
      var flags := IncludeFlags(LibPath(env));
      var command := head + flags + " " + source[0];
      assert command[..|head|] == head;
      assert command[|command| - |source[0]| - 1..] == " " + source[0];
      Success(command)
  }

  /** The command's library options are exactly the directories `libpath`
      reports, in order. */
  lemma GeneratorUsesLibPath(source: seq<string>, env: ErlEnv)
    requires |source| > 0
    ensures ErlangGenerator(source, env).value ==
              "$ERLC -o " + OutputDir(source[0], env) + Join([""] + LibPath(env), " -I ") + " " + source[0]
  {
    IncludeFlagsJoin(LibPath(env));
  }

  /** The files `edoc` writes besides one page per module. */
  const EdocFiles: seq<string> := ["edoc-info", "modules-frame.html", "overview-summary.html",
                                   "overview-summary.html", "stylesheet.css", "packages-frame.html"]

  /** The page `edoc` writes for one source: its base name without
      extension, plus `.html`. */
  function DocPage(filename: string): (r: string)
    ensures '/' !in r
  {
    var b := PyPath.Basename(filename);
    var stem := PyPath.Splitext(b).0;
    assert forall j :: 0 <= j < |stem| ==> stem[j] == b[j];
    stem + ".html"
  }

  function DocPages(sources: seq<string>): (r: seq<string>)
    ensures |r| == |sources|
    ensures forall i :: 0 <= i < |r| ==> r[i] == DocPage(sources[i])
  {
    if |sources| == 0 then [] else [DocPage(sources[0])] + DocPages(sources[1..])
  }

  lemma EdocFilesPlain()
    ensures forall j :: 0 <= j < |EdocFiles| ==> '/' !in EdocFiles[j]
  {
    forall j | 0 <= j < |EdocFiles| ensures '/' !in EdocFiles[j] {
      var f := EdocFiles[j];
      assert forall k :: 0 <= k < |f| ==> f[k] != '/';
    }
  }

  /** The names of the documentation files: one page per source in
      order, then the fixed `edoc` files. */
  function DocNames(source: seq<string>): (r: seq<string>)
    ensures |r| == |source| + 6
    ensures forall i :: 0 <= i < |source| ==> r[i] == DocPage(source[i])
    ensures forall j :: 0 <= j < 6 ==> r[|source| + j] == EdocFiles[j]
    ensures forall i :: 0 <= i < |r| ==> '/' !in r[i]
  {
    EdocFilesPlain();
    DocPages(source) + EdocFiles
  }

  /** The documentation targets for a directory: the first target, then
      every documentation file in that directory. */
  function DocumentFiles(tdir: string, first: string, source: seq<string>): (r: seq<string>)
    ensures |r| == 1 + |source| + 6
    ensures r[0] == first
    ensures forall i :: 0 <= i < |source| ==> r[1 + i] == tdir + DocPage(source[i])
    ensures forall j :: 0 <= j < 6 ==> r[1 + |source| + j] == tdir + EdocFiles[j]
  {
    var names := DocNames(source);
    InDirAfter(first, tdir, names);
    [first] + PrefixEach(tdir, names)
  }

  lemma InDirAfter(first: string, dir: string, names: seq<string>)
    ensures var r := [first] + PrefixEach(dir, names);
      |r| == 1 + |names| && r[0] == first && forall i :: 0 <= i < |names| ==> r[1 + i] == dir + names[i]
  {
  }

  /** `documentTargets` as written: the directory is `dirname + "/"`,
      which for a target without a directory is the root `/`. */
  function DocumentTargetsAsWritten(target: seq<string>, source: seq<string>): (r: Result<seq<string>, string>)
    ensures r.Failure? <==> |target| == 0
    ensures r.Success? ==> r.value == DocumentFiles(PyPath.Dirname(target[0]) + "/", target[0], source)
  {
    if |target| == 0 then Failure("IndexError")
    else Success(DocumentFiles(PyPath.Dirname(target[0]) + "/", target[0], source))
  }

  /** A documentation target `t` in the current directory puts the page
      for a source `m` at the file-system root, as `/m.html`. */
  lemma DocumentTargetsAsWrittenAtRoot(t: string, m: string)
    requires '/' !in t && '/' !in m && '.' !in m
    ensures DocumentTargetsAsWritten([t], [m]).Success?
    ensures DocumentTargetsAsWritten([t], [m]).value[1] == "/" + m + ".html"
  {
    PyPath.DirnameOfName(t);
    assert "" + "/" == "/";
    DocPageOfName(m);
    var r := DocumentFiles("/", t, [m]);
    assert DocumentTargetsAsWritten([t], [m]).value == r;
    assert r[1] == "/" + DocPage([m][0]);
    assert [m][0] == m;
    assert "/" + (m + ".html") == "/" + m + ".html";
  }

  /** The page of a plain module name is that name plus `.html`. */
  lemma DocPageOfName(m: string)
    requires '/' !in m && '.' !in m
    ensures DocPage(m) == m + ".html"
  {
    PyPath.BasenameOfName(m);
    PyPath.SplitextNoDot(m);
  }

  /** The evidently intended `documentTargets`: the pages go where the
      first target is, as `dirOf` names that directory. */
  function DocumentTargets(target: seq<string>, source: seq<string>): (r: Result<seq<string>, string>)
    ensures r.Failure? <==> |target| == 0
    ensures r.Success? ==> |r.value| == 1 + |source| + 6 && r.value[0] == target[0]
    ensures r.Success? ==> forall i :: 1 <= i < |r.value| ==>
              StartsWith(r.value[i], DirOf(target[0])) && '/' !in r.value[i][|DirOf(target[0])|..]
    ensures r.Success? && !StartsWith(target[0], "/") ==>
              forall i :: 0 <= i < |r.value| ==> !StartsWith(r.value[i], "/")
  {
    if |target| == 0 then Failure("IndexError")
    else
      var tdir := DirOf(target[0]);
      var files := DocumentFiles(tdir, target[0], source);
      DocumentFilesPlaced(tdir, target[0], source);
      DocumentFilesRelative(target[0], source);
      Success(files)
  }

  lemma DocumentFilesPlaced(tdir: string, first: string, source: seq<string>)
    ensures var r := DocumentFiles(tdir, first, source);
            forall i :: 1 <= i < |r| ==> StartsWith(r[i], tdir) && '/' !in r[i][|tdir|..]
  {
    var names := DocNames(source);
    var r := DocumentFiles(tdir, first, source);
    assert r == [first] + PrefixEach(tdir, names);
    forall i | 1 <= i < |r| ensures StartsWith(r[i], tdir) && '/' !in r[i][|tdir|..] {
      assert r[i] == tdir + names[i - 1];
      assert r[i][..|tdir|] == tdir;
      assert r[i][|tdir|..] == names[i - 1];
    }
  }

  lemma DocumentFilesRelative(first: string, source: seq<string>)
    ensures var r := DocumentFiles(DirOf(first), first, source);
            !StartsWith(first, "/") ==> forall i :: 0 <= i < |r| ==> !StartsWith(r[i], "/")
  {
    var tdir := DirOf(first);
    var files := DocumentFiles(tdir, first, source);
    if !StartsWith(first, "/") {
      DirOfRelative(first);
      DocumentFilesPlaced(tdir, first, source);
      forall i | 0 <= i < |files| ensures !StartsWith(files[i], "/") {
        if i > 0 {
          assert files[i][0] == tdir[0];
        }
      }
    }
  }

  /** The directory of a relative name is relative. */
  lemma DirOfRelative(filename: string)
    requires !StartsWith(filename, "/")
    ensures !StartsWith(DirOf(filename), "/")
  {
    var d := PyPath.Dirname(filename);
    if d != "" {
      assert filename[..1] == [filename[0]];
      assert d[0] == filename[0];
      assert DirOf(filename)[..1] == [d[0]];
    } else {
      assert DirOf(filename)[..1] == ".";
    }
  }

  /** Where the first target names a directory both readings agree. */
  lemma DocumentTargetsAgree(target: seq<string>, source: seq<string>)
    requires |target| > 0 && '/' in target[0]
    ensures DocumentTargets(target, source) == DocumentTargetsAsWritten(target, source)
  {
  }
}
