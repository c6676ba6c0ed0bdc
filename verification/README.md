# scons-contrib build-step naming and planning, in Dafny

This project models the part of the scons-contrib tools that decides which
files a build step reads and writes. None of it is about running compilers.
It is all string, list and path manipulation. Every operation is a pure
function, and what it computes is stated in its contract or in lemmas
about it.

What is covered:

- **Qt4 automoc.** The `_Automoc` emitter works over a map from path to
  file contents. It has the `Q_OBJECT` marker search, the comment
  "gobbling", the include search, both scan strategies and the loop of
  `__call__`. The module validation of `enable_modules` is here too
  (`Qt4Scan`, `Qt4Automoc`, `Qt4Modules`).
- **Protoc.** `_removeAll`, the line scanner `_getJavaTargets` (a file is
  its sequence of lines), `_checkEnv`, `_getIncludes`, `_protoc_emitter`,
  `_multiGet` and the defaults of `generate` (`Protoc`).
- **Xcode.** `_escape`, `_escape_comment`, `_escape_xml`,
  `_settings_from_env` and `all_group_files` (`Xcode`).
- **Small emitters and pseudo-builders:**
  - erlang (`Erlang`), gob2 (`Gob2`), jal (`Jal`), IDL (`Idl`), ProC (`ProC`);
  - lyx (`Lyx`), gccavr (`GccAvr`), inkscape (`Inkscape`);
  - haskell (`Haskell`), rest (`Rest`), sphinx (`Sphinx`).
  
  Target/source defaulting, `zip` pairing and the builder and `Clean`
  records are shared in `PseudoBuilder`. The "strip the configured suffix"
  rule is shared in `Stems`.
- **Python library behaviour** the tools rely on. `PyStr` has `find`,
  `split`, `join`, `strip`, `replace` and `title`. `PyPath` has `basename`,
  `dirname`, `join`, `splitext`, `SCons.Util.splitext` and
  `pathlib.Path.suffix`. `PyValue` has Python values and truthiness.
  `Wrappers` has `Option` and `Result`.

How the host is represented:

- Host nodes are strings.
- A Python exception is a `Result` failure carrying the exception's name.
- A builder call is a function parameter (`build`), and its result is
  taken as given.
- `Clean`, `Ignore`, `SideEffect` and `Precious` registrations are
  recorded in the result.
- `env.subst('$X')` is a lookup in a map of substituted values.
- The file system is a map from path to contents, and `os.walk` is a
  parameter.

## Model

| member | source | states |
|---|---|---|
| Qt4Scan.SearchMarker | __init__.py:100 | true exactly when some `Q_OBJECT` has a character outside `[A-Za-z0-9]` immediately before and after it |
| Qt4Scan.MarkerAtEdgesMissed | __init__.py:100 | a marker at the very start or very end of the text, or glued to a letter, is not found; `_` counts as a boundary character |
| Qt4Scan.StripBlockComments | __init__.py:102 | the `ccomment` removal never lengthens the text and leaves a text without `/*` unchanged |
| Qt4Scan.StripBlockKeepsLines | __init__.py:102 | removing `/* ... */` never removes a line break: without DOTALL a comment spanning lines is not matched |
| Qt4Scan.StripBlockNotIdempotent | __init__.py:102 | one removal can create a new comment: `//**/**/` becomes `/**/`, which a second removal empties |
| Qt4Scan.StripLineComment | __init__.py:103 | text where `//.*$` cannot match is unchanged; otherwise the text from the first match up to the final newline is cut; the line count never changes |
| Qt4Scan.LineCommentOnLastLine | __init__.py:103 | without MULTILINE a `//` comment is only matched on the last line of the text |
| Qt4Scan.GobbleComments | __init__.py:152-154 | gobbling comments never adds lines |
| Qt4Scan.SearchInclude | __init__.py:189-193 | true exactly when `#include`, one or more `\s` characters and the quoted moc name occur, with every `.` of the name matching any character |
| Qt4Scan.IncludeDotIsWildcard | __init__.py:189-190 | because the moc name is not escaped, `"moc_mainXcpp"` satisfies the pattern built for `moc_main.cpp`; tabs count as whitespace |
| Qt4Automoc.ParseInt | __init__.py:117 | Python 2 `int()` on a string succeeds only when the string holds a digit |
| Qt4Automoc.ParseIntAccepts | __init__.py:117 | `int()` succeeds exactly when the text without its surrounding whitespace is decimal digits, or a sign, whitespace and decimal digits; so `"1 2"`, `"1a"` and `"+"` raise |
| Qt4Automoc.ParseIntLeadingZeros | __init__.py:117 | leading zeros are accepted and add nothing: `int("007") == 7` |
| Qt4Automoc.ParseIntDecimal | __init__.py:117 | `int()` reads back any natural number's decimal text, ignoring whitespace around it |
| Qt4Automoc.ParseIntNegative | __init__.py:122 | `int("-" + str(n))` is `-n` |
| Qt4Automoc.ParseIntSignGap | __init__.py:117 | a sign, any whitespace after it and a decimal number parse as the signed number, as Python 2 skips blanks after the sign |
| Qt4Automoc.InitEnvVars | __init__.py:111-132 | `auto_scan` is switched off only by a value reading as 0 and never switched back on; each other setting becomes the value its text parses to, and an unparsable value leaves it as it was |
| Qt4Automoc.FirstExisting | __init__.py:83-88 | `find_file` gives the first existing path: every earlier one is missing, and none when none exists |
| Qt4Automoc.FindHeader | __init__.py:144-156 | the header is the first existing same-stem file tried in the order `.h`, `.hxx`, `.hpp`, `.hh` (then `.H` where case matters) |
| Qt4Automoc.Analyse | __init__.py:181-193 | the scan facts of one source: its header, the two marker results, the two generated moc names and the two include results, on text gobbled when asked |
| Qt4Automoc.Simple | __init__.py:159-172 | a marked header appends exactly one moc object after the existing list and registers one `Moc4` step; a marked source registers an ignored `Moc4` step and appends nothing |
| Qt4Automoc.RemoveFirstBuiltFrom | __init__.py:221-225 | removes exactly the first entry whose first source is the generated name; with no such entry the list is unchanged |
| Qt4Automoc.RemoveFirstAtMostOne | __init__.py:221-225 | the removal takes away at most one entry, and it is the first one built from the name |
| Qt4Automoc.IncludeDriven | __init__.py:181-246 | header case: the first entry built from the header's moc file is removed and the next step is an ignored `XMoc4` of the header; source case: the last step is an ignored `XMoc4` targeting the source's moc file; when either fires, exactly one step per firing case is added; neither: the marker-driven strategy |
| Qt4Automoc.Visit | __init__.py:268-297 | strings, prebuilt objects, non-C++ and unreadable sources leave the plan unchanged; a built object without sources raises; otherwise the configured strategy runs; registered steps are never taken back |
| Qt4Automoc.Automoc | __init__.py:248-304 | the target comes back unchanged; the call fails exactly when some built object has no sources |
| Qt4Automoc.AutomocSimpleAppends | __init__.py:276-304 | with strategy 0 the original sources stay a prefix of the result and only moc objects follow, at most one per source |
| Qt4Automoc.AutomocUnmarked | __init__.py:159-246 | when no file holds the marker, whatever the strategy, the result is the copy of the sources and no moc step is registered |
| Qt4Automoc.AutomocIgnoresAutoScan | __init__.py:106-119 | `auto_scan` and `debug` are read but never change the plan |
| Qt4Modules.InvalidModules | __init__.py:568-571 | exactly the requested names outside `validModules`, never more than requested |
| Qt4Modules.AppendUnique | __init__.py:588 | the existing defines stay a prefix; the result holds exactly the old and new values, without creating duplicates |
| Qt4Modules.AddDefines | __init__.py:576-589 | the result holds exactly the old defines and those of the requested modules; modules without an entry add nothing |
| Qt4Modules.EnableModules | __init__.py:568-589 | fails, listing every invalid name, exactly when a name is invalid and before any define changes; otherwise every requested module's defines are present and nothing else is added |
| Protoc.RemoveAll | sconscontrib/SCons/Tool/Protoc/__init__.py:20-23 | no occurrence of the value is left |
| Protoc.RemoveAllIsFiltered | sconscontrib/SCons/Tool/Protoc/__init__.py:20-23 | `_removeAll` equals the reference filter: all other elements, in their order |
| Protoc.CutDropsComment | sconscontrib/SCons/Tool/Protoc/__init__.py:43 | the text after the first `//` never reaches the parser; the code part is stripped |
| Protoc.JavaPackageValue | sconscontrib/SCons/Tool/Protoc/__init__.py:79-86 | the `java_package` path holds no dot, `;` or quote |
| Protoc.JavaPackageValueOf | sconscontrib/SCons/Tool/Protoc/__init__.py:79-86 | `option java_package = "a.b.c";` gives the path `a/b/c`: the quoted word with every dot turned into `/` |
| Protoc.PackageValue | sconscontrib/SCons/Tool/Protoc/__init__.py:103-108 | the `package` path holds no dot or `;` |
| Protoc.PackageValueOf | sconscontrib/SCons/Tool/Protoc/__init__.py:103-108 | `package a.b.c;` gives the path `a/b/c` |
| Protoc.OuterClassValue | sconscontrib/SCons/Tool/Protoc/__init__.py:123-129 | the outer class option's value holds no `;` or quote |
| Protoc.OuterClassValueOf | sconscontrib/SCons/Tool/Protoc/__init__.py:123-129 | `option java_outer_classname = "Outer";` gives `Outer`, the word between the quotes |
| Protoc.DefaultOuterClass | sconscontrib/SCons/Tool/Protoc/__init__.py:32-34 | the default outer class name holds no underscore |
| Protoc.ParseLine | sconscontrib/SCons/Tool/Protoc/__init__.py:40-158 | multiple files turns on only on a valid `java_multiple_files` line; the package path changes only on a package statement and never gains a dot; the outer class changes only on its option line; conversely a `java_package` line sets the path to its value and turns on `java_package`, a `package` line sets the path to its value unless `java_package` was seen, and the outer class line sets the class to its value |
| Protoc.PackageStatement | sconscontrib/SCons/Tool/Protoc/__init__.py:103-108 | the line `package a.b;` before any `java_package` sets the package path to `a/b` |
| Protoc.JavaPackageStatement | sconscontrib/SCons/Tool/Protoc/__init__.py:79-86 | the line `option java_package = "a.b";` sets the package path to `a/b` and records that `java_package` was given |
| Protoc.OuterClassStatement | sconscontrib/SCons/Tool/Protoc/__init__.py:123-129 | the line `option java_outer_classname = "Outer";` sets the outer class to `Outer` |
| Protoc.MultipleFilesIff | sconscontrib/SCons/Tool/Protoc/__init__.py:53-65 | multiple files is on after the scan exactly when some line is a valid `option java_multiple_files = true;` statement |
| Protoc.PackageIgnoredAfterJavaPackage | sconscontrib/SCons/Tool/Protoc/__init__.py:93-109 | once a `java_package` option was seen, `package` lines no longer change the output sub-path |
| Protoc.MessagesCollected | sconscontrib/SCons/Tool/Protoc/__init__.py:134-144 | the messages are exactly the second words of the message lines, in file order |
| Protoc.ServicesCollected | sconscontrib/SCons/Tool/Protoc/__init__.py:148-158 | the services are exactly the second words of the service lines, in file order |
| Protoc.Place | sconscontrib/SCons/Tool/Protoc/__init__.py:160-164 | a placed file keeps its own name as base name |
| Protoc.PlaceLayout | sconscontrib/SCons/Tool/Protoc/__init__.py:160-164 | a file is placed at `out/package/file`, or at `out/file` when there is no package path |
| Protoc.MessageFilesAt | sconscontrib/SCons/Tool/Protoc/__init__.py:170-172 | message `i` gives `Msg` + suffix at `2i` and `MsgOrBuilder` + suffix at `2i+1` |
| Protoc.JavaFiles | sconscontrib/SCons/Tool/Protoc/__init__.py:169-177 | two classes per message only with multiple files, and the outer class always last |
| Protoc.JavaTargets | sconscontrib/SCons/Tool/Protoc/__init__.py:160-179 | each Java file placed under the output and package path; one gRPC class per service, in the gRPC list only |
| Protoc.JavaTargetsOf | sconscontrib/SCons/Tool/Protoc/__init__.py:37-40 | opening a missing `.proto` file fails; otherwise the targets of the scanned options |
| Protoc.SingleJavaTarget | sconscontrib/SCons/Tool/Protoc/__init__.py:169-179 | without a multiple-files statement a file gives exactly one Java target and one gRPC target per service |
| Protoc.LanguageFlags | sconscontrib/SCons/Tool/Protoc/__init__.py:191-201 | the output option exactly when the output is set, the plug-in option exactly when the plug-in is set, and the gRPC output option exactly when both are |
| Protoc.CompilerFlags | sconscontrib/SCons/Tool/Protoc/__init__.py:183-235 | an option is generated exactly when its reference condition holds, for C++, Python and Java |
| Protoc.CheckedFlags | sconscontrib/SCons/Tool/Protoc/__init__.py:183-238 | a user-given `PROTOC_FLAGS` is kept; otherwise the generated options joined by spaces |
| Protoc.CheckedPathFlags | sconscontrib/SCons/Tool/Protoc/__init__.py:240-259 | given path flags are kept; otherwise one `--proto_path=` option per `PROTOC_PATH` entry, or nothing |
| Protoc.Includes | sconscontrib/SCons/Tool/Protoc/__init__.py:262-265 | no path flags give no includes; otherwise one include per piece of the split on `--proto_path=` |
| Protoc.IncludesOfPathFlags | sconscontrib/SCons/Tool/Protoc/__init__.py:240-265 | `_getIncludes` reads back exactly the paths `_checkEnv` wrote, after an empty first piece |
| Protoc.OutputInDirectory | sconscontrib/SCons/Tool/Protoc/__init__.py:321-322 | a generated file lies directly in its output directory and is named stem plus suffix |
| Protoc.SourceStem | sconscontrib/SCons/Tool/Protoc/__init__.py:303-313 | the stem is the base name without `PROTOC_SUFFIX` when it ends with it, else the whole base name |
| Protoc.CppTargets | sconscontrib/SCons/Tool/Protoc/__init__.py:319-327 | `.pb.h` then `.pb.cc` when the C++ output is set, plus the gRPC pair only when the C++ plug-in is set |
| Protoc.PyTargets | sconscontrib/SCons/Tool/Protoc/__init__.py:332-337 | `_pb2.py` when the Python output is set, plus `_pb2_grpc.py` only when the Python plug-in is set |
| Protoc.CppTargetsInOutputDirectory | sconscontrib/SCons/Tool/Protoc/__init__.py:319-327 | every C++ target lies in the C++ output directory |
| Protoc.PyTargetsInOutputDirectory | sconscontrib/SCons/Tool/Protoc/__init__.py:332-337 | every Python target lies in the Python output directory |
| Protoc.SourceTargets | sconscontrib/SCons/Tool/Protoc/__init__.py:301-354 | it raises AttributeError when an output directory in use is still a plain string (flags given by the user, so `_checkEnv` did not turn it into a node), and otherwise fails only for a missing source when Java output is on; on success the targets are the C++ targets, then the Python targets, then the Java files `_getJavaTargets` gives for the source, then its gRPC Java files when that plug-in is set |
| Protoc.AllTargets | sconscontrib/SCons/Tool/Protoc/__init__.py:301-354 | with some source, a plain-string output directory raises AttributeError; otherwise fails exactly when Java output is on and some source is missing |
| Protoc.AllTargetsOne | sconscontrib/SCons/Tool/Protoc/__init__.py:320-354 | the targets of a single source are that source's targets |
| Protoc.AllTargetsAppend | sconscontrib/SCons/Tool/Protoc/__init__.py:301-354 | the targets of `a + b` are the targets of `a` followed by those of `b`: the emitter adds each source's targets in source order |
| Protoc.ProtoDirsDistinct | sconscontrib/SCons/Tool/Protoc/__init__.py:306-307 | no source directory is added to the proto path twice |
| Protoc.ProtoDirsNotIncluded | sconscontrib/SCons/Tool/Protoc/__init__.py:306-307 | no directory already on the include path is added |
| Protoc.ProtoDirsCover | sconscontrib/SCons/Tool/Protoc/__init__.py:303-307 | every source directory ends up on the include path or the proto path |
| Protoc.ProtoDirsFromSources | sconscontrib/SCons/Tool/Protoc/__init__.py:303-307 | only source directories are added |
| Protoc.Emit | sconscontrib/SCons/Tool/Protoc/__init__.py:268-363 | fails exactly as `AllTargets` does, with AttributeError for a plain-string output directory; the given targets are dropped, the sources are kept, the flags are checked, and the source path flags are made from the added directories |
| Protoc.MultiGet | sconscontrib/SCons/Tool/Protoc/__init__.py:403-404 | the first truthy of the two lookups, else the default |
| Protoc.SetDefaults | sconscontrib/SCons/Tool/Protoc/__init__.py:414-469 | variables already set are untouched; every listed variable is set; an unset one takes its first listed value |
| Protoc.DetectProtoc | sconscontrib/SCons/Tool/Protoc/__init__.py:407-409 | a truthy `PROTOC` in the environment wins; else a truthy `PROTOC` passed to `generate`; with neither, what detection found |
| Protoc.Generate | sconscontrib/SCons/Tool/Protoc/__init__.py:412-469 | no variable already set changes, and `PROTOC` and every other variable of the call are set |
| Protoc.GenerateSets | sconscontrib/SCons/Tool/Protoc/__init__.py:414-469 | an unset variable takes the value its keyword resolves to |
| Protoc.DefaultSuffix | sconscontrib/SCons/Tool/Protoc/__init__.py:427 | with the suffix set nowhere, `PROTOC_SUFFIX` becomes `.proto` |
| Xcode.Escape | sconscontrib/SCons/Tool/xcode/__init__.py:236-239 | the result equals the input exactly when the input is a simple token |
| Xcode.EscapeRoundTrip | sconscontrib/SCons/Tool/xcode/__init__.py:236-239 | unquoting and unescaping the result gives back the input |
| Xcode.EscapeUnquotedIsToken | sconscontrib/SCons/Tool/xcode/__init__.py:232-238 | an unquoted result holds no whitespace and no quote |
| Xcode.Quote | sconscontrib/SCons/Tool/xcode/__init__.py:239 | the quoted form starts and ends with `"` |
| Xcode.EscapeAsWritten | sconscontrib/SCons/Tool/xcode/__init__.py:232-239 | as written, a string the `$`-anchored match accepts is returned unchanged, and any other is quoted |
| Xcode.EscapeAsWrittenKeepsNewline | sconscontrib/SCons/Tool/xcode/__init__.py:232 | `"abc\n"` is returned unquoted, with its newline |
| Xcode.EscapeCommentSafe | sconscontrib/SCons/Tool/xcode/__init__.py:242-246 | the result holds no `*/`, and escaping twice equals escaping once |
| Xcode.EscapeXmlAsWritten | sconscontrib/SCons/Tool/xcode/__init__.py:249-254 | as written, it succeeds exactly when the text has no `<`, `&` or `>`, and then returns it unchanged |
| Xcode.EscapeXmlAsWrittenFails | sconscontrib/SCons/Tool/xcode/__init__.py:254 | `"a<b"` makes the lookup fail |
| Xcode.EscapeXml | sconscontrib/SCons/Tool/xcode/__init__.py:249-254 | the result holds no `<` or `>`, and text without `<`, `&`, `>` is unchanged; `"` is never escaped |
| Xcode.EscapeXmlRoundTrip | sconscontrib/SCons/Tool/xcode/__init__.py:249-254 | decoding the entities gives back the input |
| Xcode.SettingsFromEnv | sconscontrib/SCons/Tool/xcode/__init__.py:273-305 | name from the environment or the target's stem; products `[]`, `[s]` or the list; groups `{}` and variants `["Default"]` when missing or None |
| Xcode.DefaultNameIsStem | sconscontrib/SCons/Tool/xcode/__init__.py:276-279 | for `dir/stem.ext` the default name is `stem` |
| Xcode.CollectItem | sconscontrib/SCons/Tool/xcode/__init__.py:427-431 | a plain value is collected as itself, and only hashable values are collected |
| Xcode.AllGroupFiles | sconscontrib/SCons/Tool/xcode/__init__.py:417-433 | groups that are not a dict fail; a dict of groups succeeds exactly when no list sits inside a list value, and then the result is exactly the set of files reachable through nested dicts, with `None` values skipped and single values taken as one-element lists |
| Xcode.CollectEntriesSpec | sconscontrib/SCons/Tool/xcode/__init__.py:417-433 | the entries of a group succeed exactly when none holds a list inside a list, and then give exactly the files of the entries |
| Xcode.CollectItemsSpec | sconscontrib/SCons/Tool/xcode/__init__.py:426-431 | the items of a list value succeed exactly when none is a list or holds one in a nested group, and then give exactly their files |
| Xcode.CollectEntriesAppend | sconscontrib/SCons/Tool/xcode/__init__.py:422-431 | collecting two parts of a group is the union of collecting each |
| Xcode.EntryOrderIrrelevant | sconscontrib/SCons/Tool/xcode/__init__.py:422-431 | the collected set does not depend on the order of the entries |
| Xcode.FlatGroup | sconscontrib/SCons/Tool/xcode/__init__.py:417-433 | a group of plain file names collects exactly those names |
| Erlang.DirOf | sconscontrib/SCons/Tool/erlang/erlang.py:123-129 | `./` for a bare name, else the directory plus `/`; always ends in `/` |
| Erlang.DirOfJoin | sconscontrib/SCons/Tool/erlang/erlang.py:123-129 | a file joined onto a directory gets that directory plus `/` |
| Erlang.DirOfRelative | sconscontrib/SCons/Tool/erlang/erlang.py:123-129 | the directory of a relative name is relative |
| Erlang.OutputDir | sconscontrib/SCons/Tool/erlang/erlang.py:106-111 | `$OUTPUT` when set, else the source's `dirOf` |
| Erlang.LibPath | sconscontrib/SCons/Tool/erlang/erlang.py:113-121 | the list as given, a scalar wrapped, or `[]` when unset |
| Erlang.AddTarget | sconscontrib/SCons/Tool/erlang/erlang.py:36-67 | `.erl` gives `[prefix+base.beam]`, `.rel` gives `.script` then `.boot`, an unknown extension leaves the target; the source is unchanged; no source raises |
| Erlang.AddTargetErl | sconscontrib/SCons/Tool/erlang/erlang.py:57-59 | `dir/name.erl` gives exactly `dir/name.beam` unless `$OUTPUT` redirects it |
| Erlang.AddTargetRel | sconscontrib/SCons/Tool/erlang/erlang.py:60-62 | `dir/name.rel` gives `dir/name.script` then `dir/name.boot` |
| Erlang.IncludeFlagsJoin | sconscontrib/SCons/Tool/erlang/erlang.py:88-92 | the library options are the directories joined by ` -I `, each after one |
| Erlang.ErlangGenerator | sconscontrib/SCons/Tool/erlang/erlang.py:69-95 | starts with `$ERLC -o <outdir>`, ends with ` <source>`, and exactly as long as the library options between require; no source raises |
| Erlang.GeneratorUsesLibPath | sconscontrib/SCons/Tool/erlang/erlang.py:81-95 | the command's library options are exactly those of `libpath`, a scalar wrapped, in order |
| Erlang.DocumentFiles | sconscontrib/SCons/Tool/erlang/erlang.py:216-224 | the first target, then one page per source in order, then the six fixed edoc files (`overview-summary.html` twice) |
| Erlang.DocumentTargetsAsWritten | sconscontrib/SCons/Tool/erlang/erlang.py:214-227 | as written, the directory is `dirname(target[0]) + "/"` |
| Erlang.DocumentTargetsAsWrittenAtRoot | sconscontrib/SCons/Tool/erlang/erlang.py:216 | a target with no directory puts the page of module `m` at `/m.html` |
| Erlang.DocumentTargets | sconscontrib/SCons/Tool/erlang/erlang.py:214-227 | the pages lie directly in the first target's directory, and a relative target gives only relative paths |
| Erlang.DocumentFilesPlaced | sconscontrib/SCons/Tool/erlang/erlang.py:220-224 | every generated name lies directly in the chosen directory |
| Erlang.DocumentFilesRelative | sconscontrib/SCons/Tool/erlang/erlang.py:216-224 | with `dirOf` as the directory, a relative first target gives no absolute name |
| Gob2.Emitter | sconscontrib/SCons/Tool/gob2/__init__.py:69-74 | the existing targets, then base plus `GOB2_HSUFFIX`, then base plus `GOB2_PRIVATESUFFIX`; the source unchanged; no source raises |
| Gob2.EmitterOfGobFile | sconscontrib/SCons/Tool/gob2/__init__.py:69-74 | with the default suffixes, `stem.gob` adds `stem.h` and `stem-private.h` |
| Gob2.OutDir | sconscontrib/SCons/Tool/gob2/__init__.py:114-117 | the source's directory part, or `.` when it has none |
| Gob2.OutDirJoin | sconscontrib/SCons/Tool/gob2/__init__.py:114-117 | the directory the loop assigns for a source inside a directory is that directory |
| Gob2.Calls | sconscontrib/SCons/Tool/gob2/__init__.py:99-117 | one builder call per `zip` pair of the resolved targets and sources, each run with its own source's directory as output directory |
| Gob2.CallsAsWritten | sconscontrib/SCons/Tool/gob2/__init__.py:113-117 | as written, every call of one run reads the shared `GOB2_OUTDIR` when its command runs, so all use the directory of the last pair's source |
| Gob2.CallsAsWrittenSharedDir | sconscontrib/SCons/Tool/gob2/__init__.py:113-117 | sources `a/x.gob` and `b/y.gob`: as written the first command gets `-o b`, where its own directory is `a` |
| Gob2.Gob2 | sconscontrib/SCons/Tool/gob2/__init__.py:95-150 | the result is every call's nodes, in pair order |
| Gob2.Gob2OneSource | sconscontrib/SCons/Tool/gob2/__init__.py:99-106 | `Gob2("widget.gob")` makes one call with target `widget` and output directory `.` |
| Jal.CleanFiles | sconscontrib/SCons/Tool/jal/__init__.py:118-123 | one registration with two files, ending in the `.cod` and `.hex` suffixes |
| Jal.CleanFilesOfSource | sconscontrib/SCons/Tool/jal/__init__.py:118-123 | a `stem.jal` source cleans exactly `stem.cod` and `stem.hex` |
| Jal.Jal | sconscontrib/SCons/Tool/jal/__init__.py:97-125 | a missing source is a copy of the targets; the result is the builder outputs in pair order; exactly one registration per pair, cleaning that source's stem plus `.cod` and `.hex` on that call's nodes |
| Jal.JalOneSource | sconscontrib/SCons/Tool/jal/__init__.py:102-123 | `Jal("blink.jal")` makes one call on `blink.jal` and cleans its `.cod` and `.hex` with its nodes |
| Idl.CleanFiles | sconscontrib/SCons/Tool/IDL/__init__.py:88-97 | three registrations: the header, the `S` skeleton and the `C` stub |
| Idl.CleanFilesOfSource | sconscontrib/SCons/Tool/IDL/__init__.py:88-97 | `stem.idl` cleans exactly `stem.hh`, `stemS.cc` and `stemC.cc` |
| Idl.Idl | sconscontrib/SCons/Tool/IDL/__init__.py:66-99 | a missing source is a copy of the targets; the result is the builder outputs in pair order; three registrations per pair, exactly the header, `S` skeleton and `C` stub of that source on that call's nodes |
| Idl.RunCleans | sconscontrib/SCons/Tool/IDL/__init__.py:86-97 | over a run of pairs: three registrations per pair, and a registration is made exactly when it is one of the three files of a pair's source on that pair's nodes |
| Idl.IdlOneSource | sconscontrib/SCons/Tool/IDL/__init__.py:73-97 | one call, and three cleaning registrations on its nodes |
| ProC.CleanFiles | sconscontrib/SCons/Tool/ProC/__init__.py:90-97 | exactly one cleaned file, ending in the listing suffix |
| ProC.CleanFilesOfSource | sconscontrib/SCons/Tool/ProC/__init__.py:90-97 | `stem.pc` cleans exactly `stem.lis` |
| ProC.ProC | sconscontrib/SCons/Tool/ProC/__init__.py:70-99 | a missing source is a copy of the targets; the result is the builder outputs in pair order; exactly one registration per pair, cleaning that source's listing on that call's nodes |
| ProC.ProCOneSource | sconscontrib/SCons/Tool/ProC/__init__.py:77-97 | one call, and its listing cleaned with its nodes |
| Lyx.NameLyxTarget | sconscontrib/SCons/Tool/lyx/__init__.py:45-51 | any number of sources other than one fails the assertion; a `.lyx` source with no target raises IndexError; a `.lyx` source sets only `target[0]` to `stem.tex`; any other source leaves the target; the source is unchanged |
| Lyx.NameOfLyxSource | sconscontrib/SCons/Tool/lyx/__init__.py:49-50 | `paper.lyx` turns the first target into `paper.tex` and keeps the rest |
| GccAvr.AsmEmitter | sconscontrib/SCons/Tool/gccavr/__init__.py:52-61 | the source is unchanged; the target is either unchanged or the object name of a matching source |
| GccAvr.LastMatch | sconscontrib/SCons/Tool/gccavr/__init__.py:56-60 | the position of the last source ending in the suffix, or none |
| GccAvr.AsmEmitterLastWins | sconscontrib/SCons/Tool/gccavr/__init__.py:56-61 | the last matching source decides the target, as stem + `_S` + `OBJSUFFIX`; with no match the target is unchanged |
| Inkscape.CompanionsSound | sconscontrib/SCons/Tool/inkscape/__init__.py:127-131 | every companion is `t + "_tex"` for some selected target `t` |
| Inkscape.CompanionsComplete | sconscontrib/SCons/Tool/inkscape/__init__.py:127-131 | every selected target has its companion; the tool selects suffixes `.pdf`, `.ps` and `.eps` |
| Inkscape.Emitter | sconscontrib/SCons/Tool/inkscape/__init__.py:124-133 | without `--export-latex` the target is unchanged; with it the companions follow the original targets; the source is unchanged |
| Inkscape.CompanionHasNoLatexSuffix | sconscontrib/SCons/Tool/inkscape/__init__.py:129 | a companion name never has a LaTeX-exporting suffix |
| Inkscape.CompanionsOfCompanions | sconscontrib/SCons/Tool/inkscape/__init__.py:127-131 | the companions need no companions of their own |
| Haskell.AddHaskellInterface | sconscontrib/SCons/Tool/haskell/haskell_pupeno.py:46-49 | exactly one `.hi` name, the first target's stem, after the existing targets; the source unchanged; no target raises |
| Haskell.InterfaceOfObject | sconscontrib/SCons/Tool/haskell/haskell_pupeno.py:48-49 | `Main.o` gets `Main.hi` |
| Haskell.DepFileName | sconscontrib/SCons/Tool/haskell/haskell_pupeno.py:66-68 | the dependency file's base name is `.` + base name + `.dep` |
| Haskell.DepFileNameBeside | sconscontrib/SCons/Tool/haskell/haskell_pupeno.py:66-68 | for `dir/Name.hs` it is `dir/.Name.hs.dep` |
| Haskell.DepFileNameBare | sconscontrib/SCons/Tool/haskell/haskell_pupeno.py:66-68 | for a bare `Name.hs` it is `.Name.hs.dep` |
| Haskell.ParseDepLine | sconscontrib/SCons/Tool/haskell/haskell_pupeno.py:109-114 | empty and `#` lines give nothing; a content line without `:` raises; at most one plain base name per line |
| Haskell.ParseDeps | sconscontrib/SCons/Tool/haskell/haskell_pupeno.py:104-114 | at most one dependency per line, each a plain base name |
| Haskell.ParseDepsFails | sconscontrib/SCons/Tool/haskell/haskell_pupeno.py:109-112 | the scan fails exactly when some content line has no `:` |
| Haskell.ParseDepsAppend | sconscontrib/SCons/Tool/haskell/haskell_pupeno.py:107-114 | reading two parts of the file is reading each in turn, order kept |
| Haskell.DepLineRecorded | sconscontrib/SCons/Tool/haskell/haskell_pupeno.py:110-114 | `t : s` records the base name of the stripped `s` unless it is the scanned node |
| Haskell.ImportedModules | sconscontrib/SCons/Tool/haskell/haskell_pupeno.py:104-121 | every dependency read from the file is a plain base name |
| Rest.Settings | sconscontrib/SCons/Tool/rest/__init__.py:62-66 | exactly the valid items are passed; a `stylesheet` among them forces `stylesheet_path` to None |
| Rest.PublishFiles | sconscontrib/SCons/Tool/rest/__init__.py:68-72 | one publication `source[i] -> target[i]` per source, in order |
| Rest.Rst2Something | sconscontrib/SCons/Tool/rest/__init__.py:57-72 | nothing without docutils; fewer targets than sources raises IndexError; otherwise one publication per source with the filtered settings |
| Rest.Rst2Odt | sconscontrib/SCons/Tool/rest/__init__.py:112-120 | nothing without docutils; fewer targets than sources raises IndexError; otherwise one binary publication with argv `[source[i], target[i]]` per source |
| Rest.Rst2OdtPublished | sconscontrib/SCons/Tool/rest/__init__.py:118-119 | what the loop has published when it returns or raises: `source[i] -> target[i]` for every index both lists have, so the first `len(target)` files when targets run out |
| Rest.Rst2OdtPublishedAll | sconscontrib/SCons/Tool/rest/__init__.py:112-120 | when the action completes, its result is everything it published |
| Rest.Rst2OdtPartial | sconscontrib/SCons/Tool/rest/__init__.py:118-119 | one target for `a.rst` and `b.rst`: `a.rst` is published, then IndexError |
| Rest.Rst2 | sconscontrib/SCons/Tool/rest/__init__.py:140-207 | the builder outputs of the `zip` pairs of the split-resolved targets and sources, in order |
| Rest.Rst2OneSource | sconscontrib/SCons/Tool/rest/__init__.py:144-159 | `Rst2Latex("doc.rst")` makes one call with target `doc` |
| Rest.Rst2IgnoresExtraTargets | sconscontrib/SCons/Tool/rest/__init__.py:157-159 | targets beyond the sources are ignored |
| Sphinx.BuildDirectory | sconscontrib/SCons/Tool/sphinx/__init__.py:79-88 | no source raises ValueError; no target gives `build`; a string target replaces it; any other target raises |
| Sphinx.Source | sconscontrib/SCons/Tool/sphinx/__init__.py:46-75 | the same argument checks as `HTML`, and an empty result |
| Sphinx.SourceArg | sconscontrib/SCons/Tool/sphinx/__init__.py:78 | a left-out `source` argument is `[defaultSourceDirectory]`, `source` |
| Sphinx.HtmlDefaults | sconscontrib/SCons/Tool/sphinx/__init__.py:78-142 | `HTML()` with no arguments succeeds, building the directory `source` into `build` with one command |
| Sphinx.FilterComplete | sconscontrib/SCons/Tool/sphinx/__init__.py:94-97 | every kept file is selected by the filter |
| Sphinx.EntryFilesSound | sconscontrib/SCons/Tool/sphinx/__init__.py:94-104 | sources and pages pair up, each from a `.rst` file of the walked entry |
| Sphinx.EntryFilesComplete | sconscontrib/SCons/Tool/sphinx/__init__.py:94-97 | every `.rst` file of the walked entry is a source |
| Sphinx.PageName | sconscontrib/SCons/Tool/sphinx/__init__.py:98-104 | the page of `stem.rst` is named `stem.html` |
| Sphinx.ExtraFiles | sconscontrib/SCons/Tool/sphinx/__init__.py:128-130 | the build directory plus `/` plus each known extra file, in order |
| Sphinx.CommandsFor | sconscontrib/SCons/Tool/sphinx/__init__.py:133-141 | one command per source directory, with that directory's pages as targets and its `.rst` files as sources |
| Sphinx.DirectoryFilesSound | sconscontrib/SCons/Tool/sphinx/__init__.py:90-104 | every source and page of a directory comes from a `.rst` file of one walked entry: the source is the entry's root plus the file, the page its `.html` under the build directory |
| Sphinx.DirectoryFilesComplete | sconscontrib/SCons/Tool/sphinx/__init__.py:90-97 | every `.rst` file of every walked entry is among the directory's sources |
| Sphinx.CommandsForDirectories | sconscontrib/SCons/Tool/sphinx/__init__.py:133-141 | the command of each directory pairs its sources and pages one to one, each from a walked `.rst` file, holds every such file, and runs `sphinx-build` on that directory |
| Sphinx.Html | sconscontrib/SCons/Tool/sphinx/__init__.py:78-142 | fails exactly when the argument checks fail; otherwise one command per source directory, each holding exactly the walked `.rst` files of that directory as sources with their pages as targets, and the extra files under the build directory |
| PseudoBuilder.ResolveCopy | sconscontrib/SCons/Tool/jal/__init__.py:102-107 | a scalar target is wrapped; a missing source is a copy of the targets, names unchanged |
| PseudoBuilder.ResolveSplit | sconscontrib/SCons/Tool/gob2/__init__.py:99-109 | a missing source makes the given names the sources and their extension-stripped forms the targets |
| PseudoBuilder.ResolveSplitOfName | sconscontrib/SCons/Tool/gob2/__init__.py:101-106 | a lone `stem.ext` gets the target `stem` |
| PseudoBuilder.Zip | sconscontrib/SCons/Tool/gob2/__init__.py:112 | pairs up to the shorter list, index by index |
| PseudoBuilder.ZipIgnoresExtra | sconscontrib/SCons/Tool/gob2/__init__.py:112 | entries beyond the shorter list are never looked at |
| PseudoBuilder.RunAppend | sconscontrib/SCons/Tool/jal/__init__.py:113-123 | the outputs and cleans over two runs of pairs are those of each in turn |
| PseudoBuilder.RunCleansMembers | sconscontrib/SCons/Tool/jal/__init__.py:113-123 | a registration is made exactly for each pair and each file group of its source, on that pair's nodes |
| PseudoBuilder.RunCleansCount | sconscontrib/SCons/Tool/jal/__init__.py:113-123 | with `n` file groups per source there are `n` registrations per pair |
| PseudoBuilder.RunOne | sconscontrib/SCons/Tool/jal/__init__.py:113-123 | one pair gives the builder's nodes and one `Clean` per file group on those nodes |
| Stems.StemAsWritten | sconscontrib/SCons/Tool/jal/__init__.py:118-121 | as written, the stem is never longer than the name |
| Stems.StemAsWrittenCounterexample | sconscontrib/SCons/Tool/jal/__init__.py:119-120 | `blink.jal` with an empty `JAL_SUFFIX` gets the stem `""` |
| Stems.Stem | sconscontrib/SCons/Tool/jal/__init__.py:118-121 | stem plus suffix is the name when it ends with the suffix; otherwise the name itself |
| Stems.StemOfAppended | sconscontrib/SCons/Tool/jal/__init__.py:118-121 | stripping a suffix just appended gives back the stem, for every suffix including the empty one |

## Left out

- Tool detection (`_detect`, `exists`, `WhereIs`, `Detect`, `locateQt4Command`) looks at the host. Protoc's detected compiler is a parameter.
- Subprocess work is not modelled:
  - the haskell `ghc -M` run (the dependency file's text is a parameter);
  - erlang's `relModules`/`appModules`;
  - the pandoc, perl5 and sip tools;
  - qt4 `transformToWinePath` and `ParseConfig`.
- File writing and randomness are not modelled: the Xcode `build`/`write_*` project writer and its `os.urandom` UUIDs, and qt4 `scanResources` and `checkMocIncluded`.
- The `sys.platform`, pkg-config and win32 branches of `enable_modules` depend on the host platform. Only validation and the defines are modelled.
- `os.path.abspath` is not modelled: Protoc source paths and output directories are taken as already absolute, and `${X.abspath}` in flags is kept as text. Xcode.SettingsFromEnv likewise records the target name as given, where the tool stores `get_abspath()` or `os.path.abspath(str(target))`.
- Debug printing (`debug`, `PROTOC_DEBUG`) is not modelled, because it has no effect on the plan. Neither are the warnings Erlang's `addTarget` and `erlangGenerator` print for more than one source or an unknown extension; they print and then go on as the model does.
- Builder registration in each tool's `generate` is left out (host internals), along with the configuration-only tools (xetex, noweb, swift, vala, sip, perl5) and the gccavr `generate`/`createRomBuilder`.
- Gob2.OutDirJoin, Gob2.Calls and Gob2.Gob2 model the intended per-source output directory; the shared `GOB2_OUTDIR` of the code as written is `Gob2.CallsAsWritten` (see Findings). That the variable also stays set for later builder calls on the same environment is not modelled.
- PyStr.Strip: uses Python 3's `str.strip()` whitespace, as Protoc reads its files with. Haskell.ParseDepLine uses it for Python 2's `string.strip` on a byte string, which does not strip `\x1c`-`\x1f`, `\x85` or `\xa0`; that difference is not modelled.
- The rest tool's default suffixes (`REST_SUFFIX` and the writer suffixes) only feed the builder registration in `generate`, which is left out.
- Rest.Rst2Odt: when there are fewer targets than sources, the failure result carries no publications; the files published before the `IndexError` are given separately by Rest.Rst2OdtPublished.
- Rest.Rst2Something: when there are fewer targets than sources, docutils has already published the first files before the `IndexError`. The model returns the failure without the partial publications.
- Protoc.DefaultOuterClass: states only that no underscore is left. The title-casing is modelled for ASCII letters only, as `PyStr.Title`.
- Qt4Automoc.ParseInt: follows Python 2's `int()` on ASCII decimal text: whitespace around the text and between the sign and the digits is skipped. Other bases, underscores and non-ASCII digits are not modelled.
- Qt4Scan.SearchInclude: only the `.` of the unescaped moc name is treated as a regular-expression wildcard. Other metacharacters are taken literally, and the default prefixes and suffixes hold none.
- Qt4 moc objects appended to the list are `NodeList`s. Their first source never renders as the plain moc name, so a later include-driven removal can only remove entries of the original list. The model records appended moc objects as their own entry kind with this behaviour.
- Protoc.SourceStem: uses the corrected `Stems.Stem`, so with an empty configured suffix the stem is the whole name; the source's `src[:-0]` gives the empty stem there (see Findings).
- Jal.CleanFiles: uses the corrected `Stems.Stem`, so with an empty configured suffix the stem is the whole name; the source's `src[:-0]` gives the empty stem there (see Findings).
- Jal.Jal: uses the corrected `Stems.Stem`, so with an empty configured suffix the stem is the whole name; the source's `src[:-0]` gives the empty stem there (see Findings).
- Idl.CleanFiles: uses the corrected `Stems.Stem`, so with an empty configured suffix the stem is the whole name; the source's `src[:-0]` gives the empty stem there (see Findings).
- Idl.Idl: uses the corrected `Stems.Stem`, so with an empty configured suffix the stem is the whole name; the source's `src[:-0]` gives the empty stem there (see Findings).
- Idl.RunCleans: uses the corrected `Stems.Stem`, so with an empty configured suffix the stem is the whole name; the source's `src[:-0]` gives the empty stem there (see Findings).
- ProC.CleanFiles: uses the corrected `Stems.Stem`, so with an empty configured suffix the stem is the whole name; the source's `src[:-0]` gives the empty stem there (see Findings).
- ProC.ProC: uses the corrected `Stems.Stem`, so with an empty configured suffix the stem is the whole name; the source's `src[:-0]` gives the empty stem there (see Findings).
- GccAvr.AsmEmitter: uses the corrected `Stems.Stem`, so with an empty configured suffix the stem is the whole name; the source's `src[:-0]` gives the empty stem there (see Findings).
- GccAvr.AsmEmitterLastWins: uses the corrected `Stems.Stem`, so with an empty configured suffix the stem is the whole name; the source's `src[:-0]` gives the empty stem there (see Findings).
- Rest's `env.items()` is modelled as a map, and `stylesheet_path` forced to None is modelled as `VNone`.

## Findings

| source | as written | input that shows it | evidently intended | confidence | as-written member | corrected member |
|---|---|---|---|---|---|---|
| sconscontrib/SCons/Tool/xcode/__init__.py:254 | the substitution callback indexes `_xml_escs` with the match object itself, which is never a key, so any `<`, `&` or `>` raises KeyError | `_escape_xml("a<b")` | look up the matched character and substitute its entity | not executed | Xcode.EscapeXmlAsWrittenFails | Xcode.EscapeXmlRoundTrip |
| sconscontrib/SCons/Tool/jal/__init__.py:119-120 | `src[:-len(suffix)]` with an empty configured suffix is `src[:0]`, the empty stem (the same slice is in IDL, ProC, Protoc and gccavr) | `JAL_SUFFIX = ""` and source `blink.jal` gives the clean files `.cod` and `.hex` | strip the suffix only when it is non-empty, keeping the name otherwise | not executed | Stems.StemAsWrittenCounterexample | Stems.StemOfAppended |
| sconscontrib/SCons/Tool/xcode/__init__.py:232-238 | `$` also matches before a final newline, so a simple name followed by a newline is written unquoted, newline included | `_escape("abc\n")` returns `"abc\n"` unquoted | quote everything that is not exactly a simple token | not executed | Xcode.EscapeAsWrittenKeepsNewline | Xcode.EscapeUnquotedIsToken |
| sconscontrib/SCons/Tool/erlang/erlang.py:216 | the page directory is `dirname(target[0]) + "/"`, which is `/` for a target without a directory, so the pages land in the file-system root | target `doc`, source `mod.erl` gives `/mod.html` | use the target's own directory, `./` for a bare name, as `dirOf` does | not executed | Erlang.DocumentTargetsAsWrittenAtRoot | Erlang.DocumentTargets |
| sconscontrib/SCons/Tool/gob2/__init__.py:113-117 | each turn of the loop assigns `GOB2_OUTDIR` on the shared environment, but `$GOB2_OUTDIR` in `GOB2_COM` is substituted only when the command runs, so every call made by one `Gob2`/`Gob2Cpp` uses the last source's directory | `Gob2(["x", "y"], ["a/x.gob", "b/y.gob"])` runs both commands with `-o b` | run each source with its own directory as output directory | not executed | Gob2.CallsAsWrittenSharedDir | Gob2.Calls |
