/** The reStructuredText tool: the docutils actions that publish each
    source to its target, the settings they pass on, and the three
    pseudo-builders `Rst2Latex`, `Rst2Html` and `Rst2Odt`. Publishing is
    recorded rather than performed. */
module Rest {
  import opened Wrappers
  import opened PyValue
  import opened PseudoBuilder

  /** The construction variables the LaTeX and HTML actions pass on. */
  const LatexOptions: seq<string> := ["stylesheet", "embed_stylesheet"]
  const HtmlOptions: seq<string> := ["stylesheet", "embed_stylesheet"]

  /** One docutils call: `publish_file` with a writer and overrides, or
      `publish_cmdline_to_binary` with the ODT reader and writer. */
  datatype Publication =
    | ToFile(source: string, destination: string, writer: string, settings: Env)
    | ToBinary(argv: seq<string>)

  /** The variables of the environment named in `valid`; a `stylesheet`
      among them switches `stylesheet_path` off, since docutils accepts
      only one of the two. */
  function Settings(env: Env, valid: seq<string>): (r: Env)
    ensures forall k :: k in r <==>
              (k in env && k in valid) || (k == "stylesheet_path" && "stylesheet" in env && "stylesheet" in valid)
    ensures forall k :: k in r && k != "stylesheet_path" ==> r[k] == env[k]
    ensures "stylesheet" in r ==> r["stylesheet_path"] == VNone
    ensures "stylesheet" !in r && "stylesheet_path" in r ==> r["stylesheet_path"] == env["stylesheet_path"]
  {
    var picked := map k | k in env && k in valid :: env[k];
    if "stylesheet" in picked then picked["stylesheet_path" := VNone] else picked
  }

  /** The publications `source[i] -> target[i]`, in order. */
  function PublishFiles(target: seq<string>, source: seq<string>, writer: string, settings: Env): (r: seq<Publication>)
    requires |source| <= |target|
    ensures |r| == |source|
    ensures forall i :: 0 <= i < |r| ==> r[i] == ToFile(source[i], target[i], writer, settings)
  {
    if |source| == 0 then []
    else [ToFile(source[0], target[0], writer, settings)] + PublishFiles(target[1..], source[1..], writer, settings)
  }

  /** `rst2something`: nothing without docutils; otherwise one publication
      per source, and an `IndexError` when there are fewer targets than
      sources (the publications before it have then already happened). */
  function Rst2Something(target: seq<string>, source: seq<string>, env: Env, valid: seq<string>,
                         writer: string, hasDocutils: bool): (r: Result<seq<Publication>, string>)
    ensures !hasDocutils ==> r == Success([])
    ensures hasDocutils ==> (r.Failure? <==> |target| < |source|)
    ensures r.Failure? ==> r.error == "IndexError"
    ensures hasDocutils && r.Success? ==>
              |r.value| == |source| &&
              forall i :: 0 <= i < |source| ==>
                r.value[i].ToFile? && r.value[i].source == source[i] && r.value[i].destination == target[i] &&
                r.value[i].writer == writer && r.value[i].settings == Settings(env, valid)
  {
    if !hasDocutils then Success([])
    else if |target| < |source| then Failure("IndexError")
    else Success(PublishFiles(target, source, writer, Settings(env, valid)))
  }

  function Rst2LatexAction(target: seq<string>, source: seq<string>, env: Env, hasDocutils: bool)
    : (r: Result<seq<Publication>, string>)
  {
    Rst2Something(target, source, env, LatexOptions, "latex", hasDocutils)
  }

  function Rst2HtmlAction(target: seq<string>, source: seq<string>, env: Env, hasDocutils: bool)
    : (r: Result<seq<Publication>, string>)
  {
    Rst2Something(target, source, env, HtmlOptions, "html4css1", hasDocutils)
  }

  /** The LaTeX and HTML actions never pass both stylesheet settings. */
  lemma StylesheetExclusive(target: seq<string>, source: seq<string>, env: Env, hasDocutils: bool, i: nat)
    requires Rst2HtmlAction(target, source, env, hasDocutils).Success?
    requires i < |Rst2HtmlAction(target, source, env, hasDocutils).value|
    ensures var p := Rst2HtmlAction(target, source, env, hasDocutils).value[i];
            p.ToFile? && ("stylesheet" in p.settings ==> p.settings["stylesheet_path"] == VNone)
    ensures var p := Rst2HtmlAction(target, source, env, hasDocutils).value[i];
            p.ToFile? && (forall k :: k in p.settings ==> k in HtmlOptions || k == "stylesheet_path")
  {
  }

  function PublishBinary(target: seq<string>, source: seq<string>): (r: seq<Publication>)
    requires |source| <= |target|
    ensures |r| == |source|
    ensures forall i :: 0 <= i < |r| ==> r[i] == ToBinary([source[i], target[i]])
  {
    if |source| == 0 then []
    else [ToBinary([source[0], target[0]])] + PublishBinary(target[1..], source[1..])
  }

  /** `rst2odt`: the same shape, each call with `argv = [source, target]`. */
  function Rst2Odt(target: seq<string>, source: seq<string>, hasDocutils: bool): (r: Result<seq<Publication>, string>)
    ensures !hasDocutils ==> r == Success([])
    ensures hasDocutils ==> (r.Failure? <==> |target| < |source|)
    ensures r.Failure? ==> r.error == "IndexError"
    ensures hasDocutils && r.Success? ==>
              |r.value| == |source| &&
              forall i :: 0 <= i < |source| ==> r.value[i] == ToBinary([source[i], target[i]])
  {
    if !hasDocutils then Success([])
    else if |target| < |source| then Failure("IndexError")
    else Success(PublishBinary(target, source))
  }

  /** What `rst2odt` has published when it returns or raises: the loop
      publishes `source[i] -> target[i]` until `target[i]` is missing, so
      with fewer targets than sources the first `|target|` files are out
      before the `IndexError`. */
  function Rst2OdtPublished(target: seq<string>, source: seq<string>, hasDocutils: bool): (r: seq<Publication>)
    ensures !hasDocutils ==> r == []
    ensures hasDocutils ==> |r| == (if |target| < |source| then |target| else |source|)
    ensures forall i :: 0 <= i < |r| ==> i < |source| && i < |target| && r[i] == ToBinary([source[i], target[i]])
  {
    if !hasDocutils then []
    else if |target| < |source| then PublishBinary(target, source[..|target|])
    else PublishBinary(target, source)
  }

  /** When the action completes, its publications are all it published. */
  lemma Rst2OdtPublishedAll(target: seq<string>, source: seq<string>, hasDocutils: bool)
    ensures Rst2Odt(target, source, hasDocutils).Success? ==>
              Rst2Odt(target, source, hasDocutils).value == Rst2OdtPublished(target, source, hasDocutils)
  {
  }

  /** One target for two sources: `a.rst` is published, then `target[1]` raises. */
  lemma Rst2OdtPartial()
    ensures Rst2Odt(["out"], ["a.rst", "b.rst"], true) == Failure("IndexError")
    ensures Rst2OdtPublished(["out"], ["a.rst", "b.rst"], true) == [ToBinary(["a.rst", "out"])]
  {
  }

  /** Which of the three builders a pseudo-builder calls. */
  datatype Kind = Latex | Html | Odt

  /** `Rst2Latex`, `Rst2Html` and `Rst2Odt`: default the targets from the
      sources, pair them up and call the builder of the given kind on each
      pair, collecting what it returns. */
  function Rst2(kind: Kind, build: (Kind, string, string) -> seq<string>, target: Arg, source: Option<Arg>)
    : (r: seq<string>)
    ensures var ts := ResolveSplit(target, source);
            r == Outputs((t, s) => build(kind, t, s), Zip(ts.0, ts.1))
  {
    var ts := ResolveSplit(target, source);
    Run((t, s) => build(kind, t, s), _ => [], Zip(ts.0, ts.1)).result
  }

  /** `Rst2Html("index.rst")`: one builder call, target `index`. */
  lemma Rst2OneSource(kind: Kind, build: (Kind, string, string) -> seq<string>, stem: string)
    requires stem != "" && '.' !in stem && '/' !in stem
    ensures Rst2(kind, build, One(stem + ".rst"), None) == build(kind, stem, stem + ".rst")
  {
    ResolveSplitOfName(stem, "rst");
    assert stem + "." + "rst" == stem + ".rst";
    var src := stem + ".rst";
    assert Zip([stem], [src]) == [(stem, src)];
    RunOne((t, s) => build(kind, t, s), _ => [], stem, src);
  }

  /** With both lists given, the pairs beyond the shorter list are dropped. */
  lemma Rst2IgnoresExtraTargets(kind: Kind, build: (Kind, string, string) -> seq<string>,
                                targets: seq<string>, sources: seq<string>, extra: seq<string>)
    requires |targets| == |sources| && |sources| > 0
    ensures Rst2(kind, build, Many(targets + extra), Some(Many(sources))) ==
              Rst2(kind, build, Many(targets), Some(Many(sources)))
  {
    assert !Falsy(Some(Many(sources)));
    ZipIgnoresExtra(targets, sources, extra, []);
    assert sources + [] == sources;
  }
}
