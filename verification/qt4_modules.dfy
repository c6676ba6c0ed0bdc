/** The platform-independent part of the Qt4 `EnableQt4Modules` method:
    module-name validation, which raises before the environment changes,
    and the preprocessor defines each module brings. */
module Qt4Modules {
  import opened Wrappers

  /** `validModules`, including its repeated `QtScript`. */
  const ValidModules: seq<string> := [
    "QtCore", "QtGui", "QtOpenGL", "Qt3Support", "QtAssistant",
    "QtAssistantClient", "QtScript", "QtDBus", "QtSql", "QtSvg",
    "QtNetwork", "QtTest", "QtXml", "QtXmlPatterns", "QtUiTools",
    "QtDesigner", "QtDesignerComponents", "QtWebKit", "QtHelp",
    "QtScript", "QtScriptTools", "QtMultimedia"]

  /** The requested names that are not valid, in request order. */
  function InvalidModules(modules: seq<string>): (r: seq<string>)
    ensures forall m :: m in r <==> m in modules && m !in ValidModules
    ensures |r| <= |modules|
  {
    if |modules| == 0 then []
    else
      (if modules[0] in ValidModules then [] else [modules[0]]) + InvalidModules(modules[1..])
  }

  /** `moduleDefines`; a module without an entry contributes nothing (the
      `KeyError` is swallowed). */
  function ModuleDefines(m: string): seq<string> {
    match m
    case "QtScript" => ["QT_SCRIPT_LIB"]
    case "QtSvg" => ["QT_SVG_LIB"]
    case "Qt3Support" => ["QT_QT3SUPPORT_LIB", "QT3_SUPPORT"]
    case "QtSql" => ["QT_SQL_LIB"]
    case "QtXml" => ["QT_XML_LIB"]
    case "QtOpenGL" => ["QT_OPENGL_LIB"]
    case "QtGui" => ["QT_GUI_LIB"]
    case "QtNetwork" => ["QT_NETWORK_LIB"]
    case "QtCore" => ["QT_CORE_LIB"]
    case _ => []
  }

  predicate NoDuplicates(xs: seq<string>) {
    forall i, j :: 0 <= i < j < |xs| ==> xs[i] != xs[j]
  }

  /** `AppendUnique` on a list variable: each new value not yet present is
      appended. */
  function AppendUnique(existing: seq<string>, add: seq<string>): (r: seq<string>)
    ensures existing <= r
    ensures forall x :: x in r <==> x in existing || x in add
    ensures NoDuplicates(existing) ==> NoDuplicates(r)
    decreases |add|
  {
    if |add| == 0 then existing
    else if add[0] in existing then AppendUnique(existing, add[1..])
    else
      var next := existing + [add[0]];
      assert forall i :: 0 <= i < |existing| ==> next[i] == existing[i];
      AppendUnique(next, add[1..])
  }

  /** The defines loop over the requested modules. */
  function AddDefines(defines: seq<string>, modules: seq<string>): (r: seq<string>)
    ensures defines <= r
    ensures forall x :: x in r <==> x in defines || exists m :: m in modules && x in ModuleDefines(m)
    ensures NoDuplicates(defines) ==> NoDuplicates(r)
    decreases |modules|
  {
    if |modules| == 0 then defines
    else
      var r := AddDefines(AppendUnique(defines, ModuleDefines(modules[0])), modules[1..]);
      assert forall m :: m in modules <==> m == modules[0] || m in modules[1..];
      r
  }

  /** `enable_modules` up to its platform branches: any unknown name raises,
      listing every unknown name, and leaves `CPPDEFINES` as it was;
      otherwise the defines of the requested modules are appended once
      each. */
  function EnableModules(defines: seq<string>, modules: seq<string>): (r: Result<seq<string>, seq<string>>)
    ensures r.Failure? <==> exists m :: m in modules && m !in ValidModules
    ensures r.Failure? ==> r.error == InvalidModules(modules) && |r.error| > 0
    ensures r.Success? ==> defines <= r.value
    ensures r.Success? ==> forall m, x :: m in modules && x in ModuleDefines(m) ==> x in r.value
    ensures r.Success? ==> forall x :: x in r.value && x !in defines ==>
      exists m :: m in modules && x in ModuleDefines(m)
  {
    var invalid := InvalidModules(modules);
    if |invalid| > 0 then
      assert invalid[0] in invalid;
      Failure(invalid)
    else
      assert forall m :: m in modules ==> m in ValidModules;
      Success(AddDefines(defines, modules))
  }
}
