/** Google's protoc builder: which files a `.proto` source gives for C++,
    Python and Java, the line-oriented scan of the source for Java options,
    and the `--proto_path=` flags the emitter derives. Nodes are paths, the
    file system maps a path to its lines. */
module Protoc {
  import opened Wrappers
  import opened PyStr
  import PyPath
  import Stems
  import opened PyValue

  // ---------------------------------------------------------------------
  // `_removeAll`

  /** `xs.remove(v)`: drop the first `v`. */
  function RemoveFirst<T(==)>(xs: seq<T>, v: T): (r: seq<T>)
    requires v in xs
    ensures |r| == |xs| - 1
  {
    if xs[0] == v then xs[1..] else [xs[0]] + RemoveFirst(xs[1..], v)
  }

  /** `_removeAll(xs, v)`: `remove` repeated while `v` is still present. */
  function RemoveAll<T(==)>(xs: seq<T>, v: T): (r: seq<T>)
    ensures v !in r
    ensures |r| <= |xs|
    decreases |xs|
  {
    if v in xs then RemoveAll(RemoveFirst(xs, v), v) else xs
  }

  /** Reference definition: the elements other than `v`, in their order. */
  function Filtered<T(==)>(xs: seq<T>, v: T): (r: seq<T>)
    ensures forall i :: 0 <= i < |r| ==> r[i] != v && r[i] in xs
    ensures forall i :: 0 <= i < |xs| && xs[i] != v ==> xs[i] in r
  {
    if |xs| == 0 then [] else (if xs[0] == v then [] else [xs[0]]) + Filtered(xs[1..], v)
  }

  lemma {:induction false} FilteredAbsent<T>(xs: seq<T>, v: T)
    requires v !in xs
    ensures Filtered(xs, v) == xs
  {
    if |xs| > 0 {
      FilteredAbsent(xs[1..], v);
      assert Filtered(xs, v) == [xs[0]] + Filtered(xs[1..], v);
      assert xs == [xs[0]] + xs[1..];
    }
  }

  lemma {:induction false} FilteredRemoveFirst<T>(xs: seq<T>, v: T)
    requires v in xs
    ensures Filtered(RemoveFirst(xs, v), v) == Filtered(xs, v)
  {
    if xs[0] != v {
      var rest := RemoveFirst(xs[1..], v);
      FilteredRemoveFirst(xs[1..], v);
      assert ([xs[0]] + rest)[1..] == rest;
    }
  }

  /** `_removeAll` leaves exactly the other elements, in their order. */
  lemma {:induction false} RemoveAllIsFiltered<T>(xs: seq<T>, v: T)
    ensures RemoveAll(xs, v) == Filtered(xs, v)
    decreases |xs|
  {
    if v in xs {
      RemoveAllIsFiltered(RemoveFirst(xs, v), v);
      FilteredRemoveFirst(xs, v);
    } else {
      FilteredAbsent(xs, v);
    }
  }

  // ---------------------------------------------------------------------
  // Scanning a `.proto` source for Java options (`_getJavaTargets`)

  /** The part of a line before the first `//`, stripped. */
  function Cut(line: string): string {
    Strip(Before(line, "//"))
  }

  /** A comment after the code never reaches the parser. */
  lemma CutDropsComment(code: string, comment: string)
    requires '/' !in code
    ensures Cut(code + "//" + comment) == Strip(code)
  {
    var s := code + "//" + comment;
    assert OccursAt(s, |code|, "//");
    forall j | 0 <= j < |code| ensures !OccursAt(s, j, "//") {
      assert s[j] == code[j];
    }
    assert Find(s, "//") == Some(|code|);
    assert s[..|code|] == code;
  }

  /** A non-empty result of `Cut`: no whitespace at either end. */
  predicate Trimmed(s: string) {
    |s| > 0 && !IsSpace(s[0]) && !IsSpace(s[|s| - 1])
  }

  lemma CutTrimmed(line: string)
    ensures Cut(line) != "" ==> Trimmed(Cut(line))
  {
  }

  predicate HasQuote(s: string) {
    '"' in s || '\'' in s
  }

  /** `option java_multiple_files = true;` without quotes. */
  predicate MultipleFilesLine(s: string) {
    StartsWith(s, "option java_multiple_files") && Contains(s, "true")
    && !HasQuote(s) && '=' in s && ';' in s
  }

  /** `option java_package = "a.b.c";` with a quoted value. */
  predicate JavaPackageLine(s: string) {
    StartsWith(s, "option java_package") && HasQuote(s) && '=' in s && ';' in s
  }

  /** `package a.b.c;` with no quote and no `=`. */
  predicate PackageLine(s: string) {
    StartsWith(s, "package") && !HasQuote(s) && '=' !in s && ';' in s
  }

  /** `option java_outer_classname = "Name";` with a quoted value. */
  predicate OuterClassLine(s: string) {
    StartsWith(s, "option java_outer_classname") && HasQuote(s) && '=' in s && ';' in s
  }

  /** `message Name {`: no quote, no `=`, no `;`. */
  predicate MessageLine(s: string) {
    StartsWith(s, "message ") && !HasQuote(s) && '=' !in s && ';' !in s
  }

  /** `service Name {`: no quote, no `=`, no `;`. */
  predicate ServiceLine(s: string) {
    StartsWith(s, "service ") && !HasQuote(s) && '=' !in s && ';' !in s
  }

  /** `s.split("=")[1]`: the text between the first and the second `=`. */
  function RightOfEquals(s: string): string
    requires '=' in s
  {
    match Find(s, "=")
    case Some(i) => Before(s[i + 1..], "=")
    case None => ""
  }

  /** Deleting or replacing characters other than `x` by text without `x`
      never introduces `x`. */
  lemma KeepsAbsent(s: string, c: char, rep: string, x: char)
    requires x != c && x !in rep && x !in s
    ensures x !in ReplaceAll(s, [c], rep)
  {
    ReplaceCharKeeps(s, c, rep, x);
  }

  lemma StripSub(s: string, x: char)
    ensures x in Strip(s) ==> x in s
  {
    var r := Strip(s);
    var a := LeadingSpaces(s);
    if x in r {
      var k :| 0 <= k < |r| && r[k] == x;
      assert s[a + k] == x;
    }
  }

  /** The `java_package` value: quotes and `;` removed, dots made slashes. */
  function JavaPackageValue(s: string): (r: string)
    requires '=' in s
    ensures '.' !in r && ';' !in r && !HasQuote(r)
  {
    var v0 := RightOfEquals(s);
    var v1 := ReplaceAll(v0, "\"", "");
    ReplaceCharGone(v0, '"', "");
    var v2 := ReplaceAll(v1, "'", "");
    ReplaceCharGone(v1, '\'', "");
    KeepsAbsent(v1, '\'', "", '"');
    var v3 := ReplaceAll(v2, ";", "");
    ReplaceCharGone(v2, ';', "");
    KeepsAbsent(v2, ';', "", '"');
    KeepsAbsent(v2, ';', "", '\'');
    var v4 := ReplaceAll(v3, ".", "/");
    ReplaceCharGone(v3, '.', "/");
    KeepsAbsent(v3, '.', "/", '"');
    KeepsAbsent(v3, '.', "/", '\'');
    KeepsAbsent(v3, '.', "/", ';');
    StripSub(v4, '.');
    StripSub(v4, ';');
    StripSub(v4, '"');
    StripSub(v4, '\'');
    Strip(v4)
  }

  /** The `java_outer_classname` value: quotes and `;` removed. */
  function OuterClassValue(s: string): (r: string)
    requires '=' in s
    ensures ';' !in r && !HasQuote(r)
  {
    var v0 := RightOfEquals(s);
    var v1 := ReplaceAll(v0, "\"", "");
    ReplaceCharGone(v0, '"', "");
    var v2 := ReplaceAll(v1, "'", "");
    ReplaceCharGone(v1, '\'', "");
    KeepsAbsent(v1, '\'', "", '"');
    var v3 := ReplaceAll(v2, ";", "");
    ReplaceCharGone(v2, ';', "");
    KeepsAbsent(v2, ';', "", '"');
    KeepsAbsent(v2, ';', "", '\'');
    StripSub(v3, ';');
    StripSub(v3, '"');
    StripSub(v3, '\'');
    Strip(v3)
  }

  /** `_removeAll(s.split(" "), "")`: the space-separated words. */
  function Words(s: string): seq<string> {
    RemoveAll(Split(s, " "), "")
  }

  /** A text ending in a non-space has a non-empty last piece. */
  lemma {:induction false} LastPieceNonEmpty(t: string)
    requires |t| > 0 && t[|t| - 1] != ' '
    ensures Split(t, " ")[|Split(t, " ")| - 1] != ""
    decreases |t|
  {
    match Find(t, " ")
    case None =>
    case Some(i) =>
      OccursAtSingle(t, i, ' ');
      var rest := t[i + 1..];
      assert rest[|rest| - 1] == t[|t| - 1];
      LastPieceNonEmpty(rest);
  }

  /** The first piece of a text not starting with a space is not empty. */
  lemma FirstPieceNonEmpty(t: string)
    requires |t| > 0 && t[0] != ' '
    ensures Split(t, " ")[0] != ""
  {
    match Find(t, " ")
    case None =>
    case Some(i) =>
      OccursAtSingle(t, i, ' ');
      assert i > 0;
  }

  lemma OneWord(s: string)
    requires |s| > 0 && s[0] != ' '
    ensures |Words(s)| >= 1
  {
    var pieces := Split(s, " ");
    FirstPieceNonEmpty(s);
    RemoveAllIsFiltered(pieces, "");
    assert pieces[0] in Filtered(pieces, "");
  }

  lemma TwoWords(s: string)
    requires |s| > 1 && s[0] != ' ' && s[|s| - 1] != ' ' && ' ' in s
    ensures |Words(s)| >= 2
  {
    var k :| 0 <= k < |s| && s[k] == ' ';
    OccursAtSingle(s, k, ' ');
    var i := Find(s, " ").value;
    OccursAtSingle(s, i, ' ');
    assert 0 < i < |s| - 1;
    var rest := s[i + 1..];
    var tail := Split(rest, " ");
    var pieces := Split(s, " ");
    assert pieces == [s[..i]] + tail;
    assert s[..i][0] == s[0];
    assert pieces[1..] == tail;
    LastPieceNonEmpty(rest);
    assert tail[|tail| - 1] in Filtered(tail, "");
    assert Filtered(pieces, "") == [s[..i]] + Filtered(tail, "");
    RemoveAllIsFiltered(pieces, "");
  }

  /** `_removeAll(s.split(" "), "")[-1]`. */
  function LastWord(s: string): string
    requires |s| > 0 && s[0] != ' '
  {
    OneWord(s);
    var w := Words(s);
    w[|w| - 1]
  }

  /** `_removeAll(s.split(" "), "")[1]`. */
  function SecondWord(s: string): string
    requires |s| > 1 && s[0] != ' ' && s[|s| - 1] != ' ' && ' ' in s
  {
    TwoWords(s);
    Words(s)[1]
  }

  /** The `package` value: `;` removed, dots made slashes. */
  function PackageValue(s: string): (r: string)
    requires |s| > 0 && s[0] != ' '
    ensures '.' !in r && ';' !in r
  {
    var v0 := LastWord(s);
    var v1 := ReplaceAll(v0, ";", "");
    ReplaceCharGone(v0, ';', "");
    var v2 := ReplaceAll(v1, ".", "/");
    ReplaceCharGone(v1, '.', "/");
    KeepsAbsent(v1, '.', "/", ';');
    StripSub(v2, '.');
    StripSub(v2, ';');
    Strip(v2)
  }

  // Values of single statements.

  /** A name as written in a statement: no whitespace, no quote, and none of
      `;`, `=` or `/`. */
  predicate PlainWord(w: string) {
    |w| > 0 && (forall j :: 0 <= j < |w| ==> !IsSpace(w[j]))
    && !HasQuote(w) && ';' !in w && '=' !in w && '/' !in w
  }

  /** A dotted name read as a path: every dot becomes `os.sep`. */
  function Slashed(w: string): (r: string)
    ensures |r| == |w|
    ensures forall j :: 0 <= j < |w| ==> r[j] == if w[j] == '.' then '/' else w[j]
  {
    SlashedPointwise(w);
    ReplaceChar(w, '.', "/")
  }

  lemma {:induction false} SlashedPointwise(w: string)
    ensures |ReplaceChar(w, '.', "/")| == |w|
    ensures forall j :: 0 <= j < |w| ==>
              ReplaceChar(w, '.', "/")[j] == if w[j] == '.' then '/' else w[j]
    decreases |w|
  {
    if |w| > 0 {
      SlashedPointwise(w[1..]);
    }
  }

  /** A name without whitespace keeps that property as a path. */
  lemma SlashedPlain(w: string)
    requires PlainWord(w)
    ensures |Slashed(w)| > 0 && forall j :: 0 <= j < |Slashed(w)| ==> !IsSpace(Slashed(w)[j])
  {
  }

  /** `" " + q + w + q + ";"` loses both quotes, whichever quote `q` is. */
  lemma DropQuotes(q: char, w: string)
    requires q == '"' || q == '\''
    requires !HasQuote(w)
    ensures ReplaceAll(ReplaceAll(" " + [q] + w + [q] + ";", "\"", ""), "'", "") == " " + w + ";"
  {
    var t := " " + [q] + w + [q] + ";";
    ReplaceAllChar(t, '"', "");
    DropAround(" ", q, w, ";");
    if q == '"' {
      ReplaceAllChar(" " + w + ";", '\'', "");
    } else {
      ReplaceAllChar(" " + [q] + w + [q] + ";", '\'', "");
    }
  }

  /** Deleting `q` from `pre + q + w + q + post` when only those two are `q`. */
  lemma DropAround(pre: string, q: char, w: string, post: string)
    requires q !in pre && q !in w && q !in post
    ensures ReplaceChar(pre + [q] + w + [q] + post, q, "") == pre + w + post
  {
    var a := pre + [q];
    var b := a + w;
    var c := b + [q];
    ReplaceCharSingle(q, q, "");
    ReplaceCharAppend(pre, [q], q, "");
    assert ReplaceChar(a, q, "") == pre;
    ReplaceCharAppend(a, w, q, "");
    assert ReplaceChar(b, q, "") == pre + w;
    ReplaceCharAppend(b, [q], q, "");
    assert ReplaceChar(c, q, "") == pre + w;
    ReplaceCharAppend(c, post, q, "");
  }

  /** `s.replace(c, "")` on `a + c` when `a` holds no `c`. */
  lemma DropLast(a: string, c: char)
    requires c !in a
    ensures ReplaceAll(a + [c], [c], "") == a
  {
    ReplaceAllChar(a + [c], c, "");
    ReplaceCharAppend(a, [c], c, "");
    ReplaceCharSingle(c, c, "");
  }

  /** `(head + "=" + tail).split("=")[1]` is `tail` when neither part holds `=`. */
  lemma RightOfEqualsOf(head: string, tail: string)
    requires '=' !in head && '=' !in tail
    ensures RightOfEquals(head + "=" + tail) == tail
  {
    var s := head + "=" + tail;
    OccursAtSingle(s, |head|, '=');
    forall j | 0 <= j < |head| ensures !OccursAt(s, j, "=") {
      OccursAtSingle(s, j, '=');
    }
    assert Find(s, "=").value == |head|;
    assert s[|head| + 1..] == tail;
    var b := Before(tail, "=");
    if b != tail {
      OccursAtSingle(tail, |b|, '=');
    }
  }

  /** The words of `a + " " + b` for two words without spaces. */
  lemma WordsOfTwo(a: string, b: string)
    requires |a| > 0 && |b| > 0 && ' ' !in a && ' ' !in b
    ensures Words(a + " " + b) == [a, b]
  {
    var s := a + " " + b;
    OccursAtSingle(s, |a|, ' ');
    forall j | 0 <= j < |a| ensures !OccursAt(s, j, " ") {
      OccursAtSingle(s, j, ' ');
    }
    assert Find(s, " ").value == |a|;
    assert s[..|a|] == a && s[|a| + 1..] == b;
    forall j | 0 <= j < |b| ensures !OccursAt(b, j, " ") {
      OccursAtSingle(b, j, ' ');
    }
    assert Find(b, " ").None?;
    assert Split(s, " ") == [a, b];
    assert "" !in [a, b];
  }

  /** Dots become slashes after a leading space, which then strips away. */
  lemma SlashedAfterSpace(w: string)
    requires PlainWord(w)
    ensures Strip(ReplaceAll(" " + w, ".", "/")) == Slashed(w)
  {
    ReplaceAllChar(" " + w, '.', "/");
    ReplaceCharAppend(" ", w, '.', "/");
    SlashedPlain(w);
    StripAfterSpace(Slashed(w));
  }

  /** `option java_package = "a.b";` places the Java files under `a/b`. */
  lemma JavaPackageValueOf(q: char, w: string)
    requires q == '"' || q == '\''
    requires PlainWord(w)
    ensures JavaPackageValue("option java_package = " + [q] + w + [q] + ";") == Slashed(w)
  {
    var s := "option java_package = " + [q] + w + [q] + ";";
    var tail := " " + [q] + w + [q] + ";";
    assert s == "option java_package " + "=" + tail;
    RightOfEqualsOf("option java_package ", tail);
    assert RightOfEquals(s) == tail;
    DropQuotes(q, w);
    DropLast(" " + w, ';');
    SlashedAfterSpace(w);
  }

  /** `option java_outer_classname = "Name";` names the outer class `Name`. */
  lemma OuterClassValueOf(q: char, w: string)
    requires q == '"' || q == '\''
    requires PlainWord(w)
    ensures OuterClassValue("option java_outer_classname = " + [q] + w + [q] + ";") == w
  {
    var s := "option java_outer_classname = " + [q] + w + [q] + ";";
    var tail := " " + [q] + w + [q] + ";";
    assert s == "option java_outer_classname " + "=" + tail;
    RightOfEqualsOf("option java_outer_classname ", tail);
    assert RightOfEquals(s) == tail;
    DropQuotes(q, w);
    DropLast(" " + w, ';');
    StripAfterSpace(w);
  }

  /** `package a.b;` places the Java files under `a/b`. */
  lemma PackageValueOf(w: string)
    requires PlainWord(w)
    ensures PackageValue("package " + w + ";") == Slashed(w)
  {
    assert "package " + w + ";" == "package" + " " + (w + ";");
    WordsOfTwo("package", w + ";");
    DropLast(w, ';');
    ReplaceAllChar(w, '.', "/");
    SlashedPlain(w);
    StripTrimmed(Slashed(w));
  }

  /** A `message ` or `service ` line that `Cut` produced has a second word. */
  lemma KeywordLineShape(s: string, keyword: string)
    requires keyword == "message " || keyword == "service "
    requires Trimmed(s) && StartsWith(s, keyword)
    ensures |s| > 1 && s[0] != ' ' && s[|s| - 1] != ' ' && ' ' in s
  {
    assert s[7] == keyword[7];
  }

  /** What the scan has found so far. */
  datatype JavaOptions = JavaOptions(
    multipleFiles: bool,
    javaPackage: bool,
    packagePath: string,
    outerClass: string,
    messages: seq<string>,
    services: seq<string>)

  /** The outer class name protoc derives from the file name: the base name
      with every occurrence of the suffix removed, title-cased, with the
      underscores deleted. */
  function DefaultOuterClass(filePath: string, suffix: string): (r: string)
    ensures '_' !in r
  {
    var t := Title(ReplaceAll(PyPath.Basename(filePath), suffix, ""));
    ReplaceCharGone(t, '_', "");
    ReplaceAll(t, "_", "")
  }

  function InitialOptions(filePath: string, suffix: string): JavaOptions {
    JavaOptions(false, false, "", DefaultOuterClass(filePath, suffix), [], [])
  }

  /** The message name a line declares, if it is a message line. */
  function MessageName(s: string): Option<string> {
    if Trimmed(s) && MessageLine(s) then
      KeywordLineShape(s, "message ");
      Some(SecondWord(s))
    else None
  }

  /** The service name a line declares, if it is a service line. */
  function ServiceName(s: string): Option<string> {
    if Trimmed(s) && ServiceLine(s) then
      KeywordLineShape(s, "service ");
      Some(SecondWord(s))
    else None
  }

  /** One line of the scan: the first of the six statement forms the cut
      line matches decides what it contributes; a `package` line counts
      only while no `java_package` option has been seen. */
  function ParseLine(o: JavaOptions, line: string): (r: JavaOptions)
    ensures r.multipleFiles <==> o.multipleFiles || MultipleFilesLine(Cut(line))
    ensures r.javaPackage <==> o.javaPackage || (JavaPackageLine(Cut(line)) && !MultipleFilesLine(Cut(line)))
    ensures r.packagePath != o.packagePath ==>
              JavaPackageLine(Cut(line)) || (!o.javaPackage && PackageLine(Cut(line)))
    ensures '.' !in o.packagePath ==> '.' !in r.packagePath
    ensures r.outerClass != o.outerClass ==> OuterClassLine(Cut(line))
    ensures JavaPackageLine(Cut(line)) ==> r.javaPackage && r.packagePath == JavaPackageValue(Cut(line))
    ensures PackageLine(Cut(line)) && !o.javaPackage ==> r.packagePath == PackageValue(Cut(line))
    ensures OuterClassLine(Cut(line)) ==> r.outerClass == OuterClassValue(Cut(line))
  {
    var s := Cut(line);
    CutTrimmed(line);
    OptionFormsDisjoint(s);
    if s == "" then o
    else if MultipleFilesLine(s) then o.(multipleFiles := true)
    else if JavaPackageLine(s) then o.(packagePath := JavaPackageValue(s), javaPackage := true)
    else if !o.javaPackage && PackageLine(s) then o.(packagePath := PackageValue(s))
    else if OuterClassLine(s) then o.(outerClass := OuterClassValue(s))
    else if MessageLine(s) then o.(messages := o.messages + [MessageName(s).value])
    else if ServiceLine(s) then o.(services := o.services + [ServiceName(s).value])
    else o
  }

  /** The statement forms that set options exclude each other: their
      keywords differ at a fixed position. */
  lemma OptionFormsDisjoint(s: string)
    ensures MultipleFilesLine(s) ==> !JavaPackageLine(s) && !PackageLine(s) && !OuterClassLine(s)
    ensures JavaPackageLine(s) ==> !PackageLine(s) && !OuterClassLine(s)
    ensures PackageLine(s) ==> !OuterClassLine(s) && |s| > 0 && s[0] == 'p'
  {
    if StartsWith(s, "option java_multiple_files") { assert s[12] == 'm'; }
    if StartsWith(s, "option java_package") { assert s[12] == 'p'; }
    if StartsWith(s, "option java_outer_classname") { assert s[12] == 'o'; }
    if StartsWith(s, "package") { assert s[0] == 'p'; }
  }

  /** A line with no `/` and no whitespace at its ends reaches the parser
      unchanged. */
  lemma CutPlainLine(line: string)
    requires '/' !in line && Trimmed(line)
    ensures Cut(line) == line
  {
    StripTrimmed(line);
  }

  /** `package a.b;` moves the output to `a/b` while no `java_package`
      option has been seen. */
  lemma PackageStatement(o: JavaOptions, w: string)
    requires PlainWord(w) && !o.javaPackage
    ensures ParseLine(o, "package " + w + ";").packagePath == Slashed(w)
  {
    PackageLineOf(w);
    PackageValueOf(w);
  }

  lemma PackageLineOf(w: string)
    requires PlainWord(w)
    ensures Cut("package " + w + ";") == "package " + w + ";"
    ensures PackageLine("package " + w + ";")
  {
    PackageLineText(w);
    CutPlainLine("package " + w + ";");
    PackageLineShape(w);
  }

  lemma PackageLineText(w: string)
    requires PlainWord(w)
    ensures '/' !in "package " + w + ";" && Trimmed("package " + w + ";")
  {
    var line := "package " + w + ";";
    assert line[0] == 'p' && line[|line| - 1] == ';';
  }

  lemma PackageLineShape(w: string)
    requires PlainWord(w)
    ensures PackageLine("package " + w + ";")
  {
    var line := "package " + w + ";";
    assert line[..7] == "package";
    assert line[|line| - 1] == ';';
  }

  /** `option java_package = "a.b";` moves the output to `a/b`, whatever
      was seen before. */
  lemma JavaPackageStatement(o: JavaOptions, q: char, w: string)
    requires q == '"' || q == '\''
    requires PlainWord(w)
    ensures var r := ParseLine(o, "option java_package = " + [q] + w + [q] + ";");
            r.javaPackage && r.packagePath == Slashed(w)
  {
    JavaPackageLineOf(q, w);
    JavaPackageValueOf(q, w);
  }

  lemma JavaPackageLineOf(q: char, w: string)
    requires q == '"' || q == '\''
    requires PlainWord(w)
    ensures Cut("option java_package = " + [q] + w + [q] + ";") == "option java_package = " + [q] + w + [q] + ";"
    ensures JavaPackageLine("option java_package = " + [q] + w + [q] + ";")
  {
    var line := "option java_package = " + [q] + w + [q] + ";";
    assert line[0] == 'o' && line[|line| - 1] == ';';
    CutPlainLine(line);
    assert line[..19] == "option java_package";
    assert line[22] == q && line[20] == '=';
  }

  /** `option java_outer_classname = "Name";` names the outer class. */
  lemma OuterClassStatement(o: JavaOptions, q: char, w: string)
    requires q == '"' || q == '\''
    requires PlainWord(w)
    ensures ParseLine(o, "option java_outer_classname = " + [q] + w + [q] + ";").outerClass == w
  {
    OuterClassLineOf(q, w);
    OuterClassValueOf(q, w);
  }

  lemma OuterClassLineOf(q: char, w: string)
    requires q == '"' || q == '\''
    requires PlainWord(w)
    ensures Cut("option java_outer_classname = " + [q] + w + [q] + ";")
         == "option java_outer_classname = " + [q] + w + [q] + ";"
    ensures OuterClassLine("option java_outer_classname = " + [q] + w + [q] + ";")
  {
    var line := "option java_outer_classname = " + [q] + w + [q] + ";";
    assert line[0] == 'o' && line[|line| - 1] == ';';
    CutPlainLine(line);
    assert line[..27] == "option java_outer_classname";
    assert line[30] == q && line[28] == '=';
  }

  /** The scan over all lines of the file, in order. */
  function ParseLines(o: JavaOptions, lines: seq<string>): (r: JavaOptions)
    ensures o.javaPackage ==> r.javaPackage
    ensures '.' !in o.packagePath ==> '.' !in r.packagePath
    decreases |lines|
  {
    if |lines| == 0 then o else ParseLines(ParseLine(o, lines[0]), lines[1..])
  }

  // Facts about the scan.

  /** Some line of the file, cut at its comment, satisfies `p`. */
  ghost predicate SomeLine(lines: seq<string>, p: string -> bool) {
    exists k :: 0 <= k < |lines| && p(Cut(lines[k]))
  }

  lemma SomeLineCons(lines: seq<string>, p: string -> bool)
    requires |lines| > 0
    ensures SomeLine(lines, p) <==> p(Cut(lines[0])) || SomeLine(lines[1..], p)
  {
    if SomeLine(lines, p) {
      var k :| 0 <= k < |lines| && p(Cut(lines[k]));
      if k > 0 {
        assert lines[1..][k - 1] == lines[k];
      }
    }
    if SomeLine(lines[1..], p) {
      var k :| 0 <= k < |lines[1..]| && p(Cut(lines[1..][k]));
      assert lines[1..][k] == lines[k + 1];
    }
  }

  /** `java_multiple_files` is on after the scan exactly when it was on
      before or some line is a valid `java_multiple_files` statement. */
  lemma {:induction false} MultipleFilesIff(o: JavaOptions, lines: seq<string>)
    ensures ParseLines(o, lines).multipleFiles <==> o.multipleFiles || SomeLine(lines, MultipleFilesLine)
    decreases |lines|
  {
    if |lines| > 0 {
      var o1 := ParseLine(o, lines[0]);
      MultipleFilesIff(o1, lines[1..]);
      SomeLineCons(lines, MultipleFilesLine);
      assert ParseLines(o, lines) == ParseLines(o1, lines[1..]);
    }
  }

  /** Once a `java_package` option has been seen, later `package` lines do
      not move the output: only another `java_package` option does. */
  lemma {:induction false} PackageIgnoredAfterJavaPackage(o: JavaOptions, lines: seq<string>)
    requires o.javaPackage
    requires forall k :: 0 <= k < |lines| ==> !JavaPackageLine(Cut(lines[k]))
    ensures ParseLines(o, lines).packagePath == o.packagePath
    decreases |lines|
  {
    if |lines| > 0 {
      var o1 := ParseLine(o, lines[0]);
      assert forall k :: 0 <= k < |lines[1..]| ==> lines[1..][k] == lines[k + 1];
      PackageIgnoredAfterJavaPackage(o1, lines[1..]);
    }
  }

  /** What one line adds to the message list. */
  function MessageOfLine(line: string): seq<string> {
    match MessageName(Cut(line))
    case Some(m) => [m]
    case None => []
  }

  /** What one line adds to the service list. */
  function ServiceOfLine(line: string): seq<string> {
    match ServiceName(Cut(line))
    case Some(m) => [m]
    case None => []
  }

  /** Reference definition of the messages: the names of the message lines,
      in file order, whatever the other lines say. */
  function MessagesOf(lines: seq<string>): seq<string> {
    if |lines| == 0 then [] else MessageOfLine(lines[0]) + MessagesOf(lines[1..])
  }

  /** Reference definition of the services. */
  function ServicesOf(lines: seq<string>): seq<string> {
    if |lines| == 0 then [] else ServiceOfLine(lines[0]) + ServicesOf(lines[1..])
  }

  /** A line starting with `message ` or `service ` matches none of the
      option and package forms that are checked before it. */
  lemma DeclarationIsNotOption(s: string)
    requires StartsWith(s, "message ") || StartsWith(s, "service ")
    ensures !MultipleFilesLine(s) && !JavaPackageLine(s) && !PackageLine(s) && !OuterClassLine(s)
  {
    assert s[0] == 'm' || s[0] == 's';
  }

  lemma DeclarationStep(o: JavaOptions, line: string)
    ensures ParseLine(o, line).messages == o.messages + MessageOfLine(line)
    ensures ParseLine(o, line).services == o.services + ServiceOfLine(line)
  {
    var s := Cut(line);
    CutTrimmed(line);
    if MessageLine(s) || ServiceLine(s) {
      DeclarationIsNotOption(s);
    }
  }

  lemma AppendAssoc(a: seq<string>, b: seq<string>, c: seq<string>)
    ensures (a + b) + c == a + (b + c)
  {
  }

  /** The messages the scan collects are exactly those the reference
      definition lists, appended in file order. */
  lemma {:induction false} MessagesCollected(o: JavaOptions, lines: seq<string>)
    ensures ParseLines(o, lines).messages == o.messages + MessagesOf(lines)
    decreases |lines|
  {
    if |lines| > 0 {
      var o1 := ParseLine(o, lines[0]);
      var here := MessageOfLine(lines[0]);
      var tail := MessagesOf(lines[1..]);
      DeclarationStep(o, lines[0]);
      MessagesCollected(o1, lines[1..]);
      assert ParseLines(o, lines) == ParseLines(o1, lines[1..]);
      assert MessagesOf(lines) == here + tail;
      assert ParseLines(o, lines).messages == (o.messages + here) + tail;
      AppendAssoc(o.messages, here, tail);
    }
  }

  /** The same for services. */
  lemma {:induction false} ServicesCollected(o: JavaOptions, lines: seq<string>)
    ensures ParseLines(o, lines).services == o.services + ServicesOf(lines)
    decreases |lines|
  {
    if |lines| > 0 {
      var o1 := ParseLine(o, lines[0]);
      var here := ServiceOfLine(lines[0]);
      var tail := ServicesOf(lines[1..]);
      DeclarationStep(o, lines[0]);
      ServicesCollected(o1, lines[1..]);
      assert ParseLines(o, lines) == ParseLines(o1, lines[1..]);
      assert ServicesOf(lines) == here + tail;
      assert ParseLines(o, lines).services == (o.services + here) + tail;
      AppendAssoc(o.services, here, tail);
    }
  }

  // ---------------------------------------------------------------------
  // Java targets

  /** `_append`: the output directory, then the package path when one was
      found, then the file name. */
  function Place(outPath: string, packagePath: string, fileName: string): (r: string)
    ensures PyPath.Basename(r) == PyPath.Basename(fileName)
  {
    if packagePath != "" then
      PyPath.BasenameJoin(PyPath.Join(outPath, packagePath), fileName);
      PyPath.Join3(outPath, packagePath, fileName)
    else
      PyPath.BasenameJoin(outPath, fileName);
      PyPath.Join(outPath, fileName)
  }

  /** With a plain output directory and package path, a Java file lands at
      `out/package/name`, or at `out/name` when no package was found. */
  lemma PlaceLayout(outPath: string, packagePath: string, fileName: string)
    requires outPath != "" && !EndsWith(outPath, "/")
    requires !StartsWith(packagePath, "/") && !EndsWith(packagePath, "/")
    requires !StartsWith(fileName, "/")
    ensures packagePath != "" ==> Place(outPath, packagePath, fileName) == outPath + "/" + packagePath + "/" + fileName
    ensures packagePath == "" ==> Place(outPath, packagePath, fileName) == outPath + "/" + fileName
  {
    if packagePath != "" {
      var d := outPath + "/" + packagePath;
      SlashLast(outPath, packagePath);
      assert PyPath.Join(outPath, packagePath) == d;
    }
  }

  /** Gluing with `/` keeps whether the right part ends in `/`. */
  lemma SlashLast(a: string, b: string)
    requires b != "" && !EndsWith(b, "/")
    ensures a + "/" + b != "" && !EndsWith(a + "/" + b, "/")
  {
    var d := a + "/" + b;
    assert d[|d| - 1] == b[|b| - 1];
    assert b[|b| - 1..] == [b[|b| - 1]];
    assert d[|d| - 1..] == [d[|d| - 1]];
  }

  /** The class files each message gives with `java_multiple_files`: the
      message class, then its `OrBuilder` interface. */
  function MessageFiles(messages: seq<string>, suffix: string): (r: seq<string>)
    ensures |r| == 2 * |messages|
  {
    if |messages| == 0 then []
    else [messages[0] + suffix, messages[0] + "OrBuilder" + suffix] + MessageFiles(messages[1..], suffix)
  }

  lemma ShiftTwo<T>(r: seq<T>, rest: seq<T>, k: nat)
    requires 2 <= k < |r| && r[2..] == rest
    ensures r[k] == rest[k - 2]
  {
  }

  /** Message `i` gives the files at `2 * i` and `2 * i + 1`. */
  lemma {:induction false} MessageFilesAt(messages: seq<string>, suffix: string, i: nat)
    requires i < |messages|
    ensures MessageFiles(messages, suffix)[2 * i] == messages[i] + suffix
    ensures MessageFiles(messages, suffix)[2 * i + 1] == messages[i] + "OrBuilder" + suffix
    decreases i
  {
    var r := MessageFiles(messages, suffix);
    var rest := MessageFiles(messages[1..], suffix);
    assert r[2..] == rest;
    if i > 0 {
      MessageFilesAt(messages[1..], suffix, i - 1);
      assert messages[1..][i - 1] == messages[i];
      ShiftTwo(r, rest, 2 * i);
      ShiftTwo(r, rest, 2 * i + 1);
    }
  }

  lemma MessageFilesAll(messages: seq<string>, suffix: string)
    ensures forall i :: 0 <= i < |messages| ==>
              MessageFiles(messages, suffix)[2 * i] == messages[i] + suffix
              && MessageFiles(messages, suffix)[2 * i + 1] == messages[i] + "OrBuilder" + suffix
  {
    forall i | 0 <= i < |messages|
      ensures MessageFiles(messages, suffix)[2 * i] == messages[i] + suffix
      ensures MessageFiles(messages, suffix)[2 * i + 1] == messages[i] + "OrBuilder" + suffix
    {
      MessageFilesAt(messages, suffix, i);
    }
  }

  /** The gRPC class file each service gives. */
  function ServiceFiles(services: seq<string>, suffix: string): (r: seq<string>)
    ensures |r| == |services|
    ensures forall i :: 0 <= i < |services| ==> r[i] == services[i] + suffix
  {
    if |services| == 0 then [] else [services[0] + suffix] + ServiceFiles(services[1..], suffix)
  }

  /** `_append` for every file name, in order. */
  function PlaceAll(outPath: string, packagePath: string, names: seq<string>): (r: seq<string>)
    ensures |r| == |names|
    ensures forall i :: 0 <= i < |names| ==> r[i] == Place(outPath, packagePath, names[i])
  {
    if |names| == 0 then [] else [Place(outPath, packagePath, names[0])] + PlaceAll(outPath, packagePath, names[1..])
  }

  /** The Java class files of a scanned file: the message classes only
      with `java_multiple_files`, the outer class always and always last. */
  function JavaFiles(o: JavaOptions, javaSuffix: string): (r: seq<string>)
    ensures |r| == (if o.multipleFiles then 2 * |o.messages| else 0) + 1
    ensures r[|r| - 1] == o.outerClass + javaSuffix
    ensures o.multipleFiles ==> forall i :: 0 <= i < |o.messages| ==>
              r[2 * i] == o.messages[i] + javaSuffix && r[2 * i + 1] == o.messages[i] + "OrBuilder" + javaSuffix
  {
    MessageFilesAll(o.messages, javaSuffix);
    var m := if o.multipleFiles then MessageFiles(o.messages, javaSuffix) else [];
    var r := m + [o.outerClass + javaSuffix];
    assert forall k :: 0 <= k < |m| ==> r[k] == m[k];
    r
  }

  /** `_getJavaTargets`' result: the Java targets, then the gRPC Java
      targets, one per service and nowhere else. */
  function JavaTargets(o: JavaOptions, outPath: string, javaSuffix: string, grpcSuffix: string): (r: (seq<string>, seq<string>))
    ensures |r.0| == |JavaFiles(o, javaSuffix)|
    ensures forall i :: 0 <= i < |r.0| ==> r.0[i] == Place(outPath, o.packagePath, JavaFiles(o, javaSuffix)[i])
    ensures |r.1| == |o.services|
    ensures forall i :: 0 <= i < |o.services| ==> r.1[i] == Place(outPath, o.packagePath, o.services[i] + grpcSuffix)
  {
    (PlaceAll(outPath, o.packagePath, JavaFiles(o, javaSuffix)),
     PlaceAll(outPath, o.packagePath, ServiceFiles(o.services, grpcSuffix)))
  }

  /** Source files: a path maps to the lines of the file. */
  type Files = map<string, seq<string>>

  /** `_getJavaTargets`: opening a file that is not there raises. */
  function JavaTargetsOf(fs: Files, filePath: string, outPath: string, suffix: string,
                         javaSuffix: string, grpcSuffix: string): (r: Result<(seq<string>, seq<string>), string>)
    ensures r.Failure? <==> filePath !in fs
    ensures r.Success? ==> r.value == JavaTargets(ParseLines(InitialOptions(filePath, suffix), fs[filePath]), outPath, javaSuffix, grpcSuffix)
  {
    if filePath !in fs then Failure("IOError")
    else Success(JavaTargets(ParseLines(InitialOptions(filePath, suffix), fs[filePath]), outPath, javaSuffix, grpcSuffix))
  }

  /** Without a `java_multiple_files` statement a file gives one Java
      class, the outer class, and one gRPC class per service line. */
  lemma SingleJavaTarget(fs: Files, filePath: string, outPath: string, suffix: string, javaSuffix: string, grpcSuffix: string)
    requires filePath in fs
    requires forall k :: 0 <= k < |fs[filePath]| ==> !MultipleFilesLine(Cut(fs[filePath][k]))
    ensures JavaTargetsOf(fs, filePath, outPath, suffix, javaSuffix, grpcSuffix).Success?
    ensures |JavaTargetsOf(fs, filePath, outPath, suffix, javaSuffix, grpcSuffix).value.0| == 1
    ensures |JavaTargetsOf(fs, filePath, outPath, suffix, javaSuffix, grpcSuffix).value.1| == |ServicesOf(fs[filePath])|
  {
    var o := InitialOptions(filePath, suffix);
    MultipleFilesIff(o, fs[filePath]);
    assert !SomeLine(fs[filePath], MultipleFilesLine);
    ServicesCollected(o, fs[filePath]);
  }

  // ---------------------------------------------------------------------
  // Compiler flags and path flags (`_checkEnv`, `_getIncludes`)

  /** The construction variables the emitter reads. An output directory is
      the empty string when unset and an absolute path otherwise; the
      `...Node` fields say whether the user gave it as a directory node
      rather than as a plain string. For a gRPC plug-in only whether it is
      set matters. */
  datatype Settings = Settings(
    suffix: string,
    hSuffix: string, ccSuffix: string, grpcHSuffix: string, grpcCcSuffix: string,
    pySuffix: string, grpcPySuffix: string,
    javaSuffix: string, grpcJavaSuffix: string,
    ccOut: string, pyOut: string, javaOut: string,
    ccOutNode: bool, pyOutNode: bool, javaOutNode: bool,
    grpcCc: bool, grpcPy: bool, grpcJava: bool,
    flags: string, pathFlags: string, protocPath: seq<string>)

  /** The compiler options `_checkEnv` may add. */
  datatype Flag =
    | CppOut | CppPlugin | GrpcCppOut
    | PythonOut | PythonPlugin | GrpcPythonOut
    | JavaOut | JavaPlugin | GrpcJavaOut

  function FlagText(f: Flag): string {
    match f
    case CppOut => "--cpp_out=${PROTOC_CCOUT.abspath}"
    case CppPlugin => "--plugin=protoc-gen-grpc-cpp=${PROTOC_GRPC_CC.abspath}"
    case GrpcCppOut => "--grpc-cpp_out=${PROTOC_CCOUT.abspath}"
    case PythonOut => "--python_out=${PROTOC_PYOUT.abspath}"
    case PythonPlugin => "--plugin=protoc-gen-grpc-python=${PROTOC_GRPC_PY.abspath}"
    case GrpcPythonOut => "--grpc-python_out=${PROTOC_PYOUT.abspath}"
    case JavaOut => "--java_out=${PROTOC_JAVAOUT.abspath}"
    case JavaPlugin => "--plugin=protoc-gen-grpc-java=${PROTOC_GRPC_JAVA.abspath}"
    case GrpcJavaOut => "--grpc-java_out=${PROTOC_JAVAOUT.abspath}"
  }

  /** One language's options: the output option, then the plug-in option
      and, when there is an output directory too, the gRPC output option. */
  function LanguageFlags(out: bool, plugin: bool, outFlag: Flag, pluginFlag: Flag, grpcFlag: Flag): (r: seq<Flag>)
    ensures forall f :: f in r <==> (f == outFlag && out) || (f == pluginFlag && plugin) || (f == grpcFlag && plugin && out)
  {
    (if out then [outFlag] else [])
    + (if plugin then [pluginFlag] + (if out then [grpcFlag] else []) else [])
  }

  /** Reference definition: whether `_checkEnv` asks for an option. */
  predicate Wanted(v: Settings, f: Flag) {
    match f
    case CppOut => v.ccOut != ""
    case CppPlugin => v.grpcCc
    case GrpcCppOut => v.ccOut != "" && v.grpcCc
    case PythonOut => v.pyOut != ""
    case PythonPlugin => v.grpcPy
    case GrpcPythonOut => v.pyOut != "" && v.grpcPy
    case JavaOut => v.javaOut != ""
    case JavaPlugin => v.grpcJava
    case GrpcJavaOut => v.javaOut != "" && v.grpcJava
  }

  /** The options for C++, Python and Java, in that order: an option is
      present exactly when it is wanted, so a gRPC output option needs both
      the plug-in and the output directory. */
  function CompilerFlags(v: Settings): (r: seq<Flag>)
    ensures forall f :: f in r <==> Wanted(v, f)
  {
    LanguageFlags(v.ccOut != "", v.grpcCc, CppOut, CppPlugin, GrpcCppOut)
    + LanguageFlags(v.pyOut != "", v.grpcPy, PythonOut, PythonPlugin, GrpcPythonOut)
    + LanguageFlags(v.javaOut != "", v.grpcJava, JavaOut, JavaPlugin, GrpcJavaOut)
  }

  function FlagTexts(fs: seq<Flag>): (r: seq<string>)
    ensures |r| == |fs|
    ensures forall i :: 0 <= i < |fs| ==> r[i] == FlagText(fs[i])
  {
    if |fs| == 0 then [] else [FlagText(fs[0])] + FlagTexts(fs[1..])
  }

  /** `PROTOC_FLAGS` after `_checkEnv`: a value the user gave is kept,
      otherwise the generated options joined by spaces. */
  function CheckedFlags(v: Settings): (r: string)
    ensures v.flags != "" ==> r == v.flags
    ensures v.flags == "" ==> r == Join(FlagTexts(CompilerFlags(v)), " ")
  {
    if v.flags != "" then v.flags else Join(FlagTexts(CompilerFlags(v)), " ")
  }

  const ProtoPathOption: string := "--proto_path="

  /** `str(CLVar(["--proto_path=" + p for p in paths]))`. */
  function ProtoPathFlags(paths: seq<string>): string {
    Join(PrefixEach(ProtoPathOption, paths), " ")
  }

  /** `PROTOC_PATH_FLAGS` after `_checkEnv`: generated from `PROTOC_PATH`
      only when it is empty and `PROTOC_PATH` is not. */
  function CheckedPathFlags(v: Settings): (r: string)
    ensures v.pathFlags != "" ==> r == v.pathFlags
    ensures v.pathFlags == "" && |v.protocPath| == 0 ==> r == ""
    ensures v.pathFlags == "" && |v.protocPath| > 0 ==> r == ProtoPathFlags(v.protocPath)
  {
    if v.pathFlags == "" && |v.protocPath| > 0 then ProtoPathFlags(v.protocPath) else v.pathFlags
  }

  function StripAll(xs: seq<string>): (r: seq<string>)
    ensures |r| == |xs|
    ensures forall i :: 0 <= i < |xs| ==> r[i] == Strip(xs[i])
  {
    if |xs| == 0 then [] else [Strip(xs[0])] + StripAll(xs[1..])
  }

  /** `_getIncludes`: the stripped pieces between `--proto_path=` options;
      the text before the first option gives a leading piece. */
  function Includes(pathFlags: string): (r: seq<string>)
    ensures pathFlags == "" ==> r == []
    ensures pathFlags != "" ==> |r| == |Split(pathFlags, ProtoPathOption)|
  {
    if pathFlags == "" then [] else StripAll(Split(pathFlags, ProtoPathOption))
  }

  /** A path that survives the round trip: no whitespace and no option text. */
  predicate PlainPath(p: string) {
    (forall j :: 0 <= j < |p| ==> !IsSpace(p[j])) && !Contains(p, ProtoPathOption)
  }

  /** The pieces `split` gives after the leading option: every path but the
      last keeps the space that separated it from the next option. */
  function Padded(paths: seq<string>): seq<string>
    requires |paths| > 0
  {
    if |paths| == 1 then [paths[0]] else [paths[0] + " "] + Padded(paths[1..])
  }

  lemma OptionHasNoSpace()
    ensures ' ' !in ProtoPathOption
  {
  }

  /** The flags for two or more paths, unrolled once. */
  lemma FlagsUnroll(paths: seq<string>)
    requires |paths| >= 2
    ensures ProtoPathFlags(paths) == ProtoPathOption + paths[0] + " " + ProtoPathFlags(paths[1..])
  {
    assert PrefixEach(ProtoPathOption, paths)[1..] == PrefixEach(ProtoPathOption, paths[1..]);
  }

  /** After a path with no whitespace and no option text, the next option
      is the first occurrence. */
  lemma NextOption(p: string, rest: string)
    requires PlainPath(p)
    ensures Find(p + " " + ProtoPathOption + rest, ProtoPathOption) == Some(|p| + 1)
  {
    var t := p + " " + ProtoPathOption + rest;
    var n := |ProtoPathOption|;
    assert t[|p| + 1..|p| + 1 + n] == ProtoPathOption;
    assert OccursAt(t, |p| + 1, ProtoPathOption);
    OptionHasNoSpace();
    forall j | 0 <= j <= |p| ensures !OccursAt(t, j, ProtoPathOption) {
      if j + n <= |p| {
        assert t[j..j + n] == p[j..j + n];
        assert !OccursAt(p, j, ProtoPathOption);
      } else if j + n <= |t| {
        assert t[j..j + n][|p| - j] == t[|p|] == ' ';
      }
    }
    var r := Find(t, ProtoPathOption);
    assert r.Some?;
    assert r.value == |p| + 1;
  }

  lemma {:induction false} SplitPaths(paths: seq<string>)
    requires |paths| > 0
    requires forall i :: 0 <= i < |paths| ==> PlainPath(paths[i])
    ensures Split(ProtoPathFlags(paths)[|ProtoPathOption|..], ProtoPathOption) == Padded(paths)
    decreases |paths|
  {
    var n := |ProtoPathOption|;
    var p := paths[0];
    if |paths| == 1 {
      assert ProtoPathFlags(paths) == ProtoPathOption + p;
      assert ProtoPathFlags(paths)[n..] == p;
    } else {
      var rest := ProtoPathFlags(paths[1..]);
      FlagsUnroll(paths);
      FlagsUnroll2(paths[1..]);
      var t := ProtoPathFlags(paths)[n..];
      assert t == p + " " + rest;
      assert rest == ProtoPathOption + rest[n..];
      assert t == p + " " + ProtoPathOption + rest[n..];
      NextOption(p, rest[n..]);
      assert t[..|p| + 1] == p + " ";
      assert t[|p| + 1 + n..] == rest[n..];
      SplitPaths(paths[1..]);
    }
  }

  /** The flags for one or more paths start with the option. */
  lemma FlagsUnroll2(paths: seq<string>)
    requires |paths| >= 1
    ensures StartsWith(ProtoPathFlags(paths), ProtoPathOption)
  {
    if |paths| >= 2 {
      FlagsUnroll(paths);
    }
  }

  lemma StripPlain(p: string)
    requires forall j :: 0 <= j < |p| ==> !IsSpace(p[j])
    ensures Strip(p) == p
    ensures Strip(p + " ") == p
  {
    if |p| > 0 {
      assert LeadingSpaces(p) == 0;
      assert LeadingSpaces(p + " ") == 0 by {
        assert (p + " ")[0] == p[0];
      }
      assert TrailingSpaces(p) == 0;
      assert (p + " ")[..|p|] == p;
      assert TrailingSpaces(p + " ") == 1;
    } else {
      assert p + " " == " ";
    }
  }

  lemma {:induction false} StripPadded(paths: seq<string>)
    requires |paths| > 0
    requires forall i :: 0 <= i < |paths| ==> PlainPath(paths[i])
    ensures StripAll(Padded(paths)) == paths
    decreases |paths|
  {
    assert PlainPath(paths[0]);
    StripPlain(paths[0]);
    if |paths| == 1 {
      assert Padded(paths) == [paths[0]];
      assert StripAll([paths[0]]) == [Strip(paths[0])];
    } else {
      var tail := paths[1..];
      PlainTail(paths);
      StripPadded(tail);
      StripPaddedStep(paths[0], tail);
      assert [paths[0]] + tail == paths;
    }
  }

  lemma PlainTail(paths: seq<string>)
    requires |paths| > 0
    requires forall i :: 0 <= i < |paths| ==> PlainPath(paths[i])
    ensures forall i :: 0 <= i < |paths[1..]| ==> PlainPath(paths[1..][i])
  {
    forall i | 0 <= i < |paths[1..]| ensures PlainPath(paths[1..][i]) {
      assert paths[1..][i] == paths[i + 1];
    }
  }

  lemma StripPaddedStep(head: string, rest: seq<string>)
    requires |rest| > 0
    requires Strip(head + " ") == head
    requires StripAll(Padded(rest)) == rest
    ensures StripAll(Padded([head] + rest)) == [head] + rest
  {
    assert ([head] + rest)[1..] == rest;
    assert Padded([head] + rest) == [head + " "] + Padded(rest);
    StripAllCons(head + " ", Padded(rest));
  }

  lemma StripAllCons(x: string, xs: seq<string>)
    ensures StripAll([x] + xs) == [Strip(x)] + StripAll(xs)
  {
    assert ([x] + xs)[1..] == xs;
  }

  /** `_getIncludes` reads back the paths `_checkEnv` wrote, after an empty
      leading piece, whenever the paths hold no whitespace and no option
      text. */
  lemma IncludesOfPathFlags(paths: seq<string>)
    requires |paths| > 0
    requires forall i :: 0 <= i < |paths| ==> PlainPath(paths[i])
    ensures Includes(ProtoPathFlags(paths)) == [""] + paths
  {
    var f := ProtoPathFlags(paths);
    var n := |ProtoPathOption|;
    FlagsUnroll2(paths);
    assert OccursAt(f, 0, ProtoPathOption);
    assert Find(f, ProtoPathOption) == Some(0);
    assert Split(f, ProtoPathOption) == [""] + Split(f[n..], ProtoPathOption);
    SplitPaths(paths);
    StripPadded(paths);
    assert StripAll([""] + Padded(paths)) == [Strip("")] + StripAll(Padded(paths));
  }

  // ---------------------------------------------------------------------
  // The emitter (`_protoc_emitter`)

  /** `os.path.join(out, stem) + suffix`: one generated file. */
  function Output(outDir: string, stem: string, suffix: string): string {
    PyPath.Join(outDir, stem) + suffix
  }

  /** A generated file sits directly in its output directory and is named
      after the stem. */
  lemma OutputInDirectory(outDir: string, stem: string, suffix: string)
    requires outDir != "" && !EndsWith(outDir, "/") && '/' !in stem && '/' !in suffix
    ensures PyPath.Dirname(Output(outDir, stem, suffix)) == outDir
    ensures PyPath.Basename(Output(outDir, stem, suffix)) == stem + suffix
  {
    var name := stem + suffix;
    assert !StartsWith(stem, "/") by {
      if |stem| > 0 {
        assert stem[0] != '/';
      }
    }
    assert !StartsWith(name, "/") by {
      if |name| > 0 {
        assert name[0] in name;
      }
    }
    assert '/' !in name;
    assert !EndsWith(outDir, "/");
    assert PyPath.Join(outDir, stem) == outDir + "/" + stem;
    assert PyPath.Join(outDir, name) == outDir + "/" + name;
    assert Output(outDir, stem, suffix) == PyPath.Join(outDir, name);
    PyPath.DirnameJoin(outDir, name);
  }

  /** The stem of a source: its base name without `PROTOC_SUFFIX` when it
      ends with it. */
  function SourceStem(v: Settings, src: string): (r: string)
    ensures '/' !in r
    ensures EndsWith(PyPath.Basename(src), v.suffix) ==> r + v.suffix == PyPath.Basename(src)
    ensures !EndsWith(PyPath.Basename(src), v.suffix) ==> r == PyPath.Basename(src)
  {
    var name := PyPath.Basename(src);
    var r := Stems.Stem(name, v.suffix);
    assert forall k :: 0 <= k < |r| ==> r[k] == name[k];
    r
  }

  /** The C++ files: header then source, and the gRPC header and source
      after them only when the gRPC plug-in is set. */
  function CppTargets(v: Settings, stem: string): (r: seq<string>)
    ensures |r| == (if v.ccOut == "" then 0 else if v.grpcCc then 4 else 2)
    ensures |r| >= 2 ==> r[0] == Output(v.ccOut, stem, v.hSuffix) && r[1] == Output(v.ccOut, stem, v.ccSuffix)
    ensures |r| == 4 ==> r[2] == Output(v.ccOut, stem, v.grpcHSuffix) && r[3] == Output(v.ccOut, stem, v.grpcCcSuffix)
  {
    if v.ccOut == "" then []
    else
      [Output(v.ccOut, stem, v.hSuffix), Output(v.ccOut, stem, v.ccSuffix)]
      + (if v.grpcCc then [Output(v.ccOut, stem, v.grpcHSuffix), Output(v.ccOut, stem, v.grpcCcSuffix)] else [])
  }

  /** The Python files: the message module, and the gRPC module after it
      only when the gRPC plug-in is set. */
  function PyTargets(v: Settings, stem: string): (r: seq<string>)
    ensures |r| == (if v.pyOut == "" then 0 else if v.grpcPy then 2 else 1)
    ensures |r| >= 1 ==> r[0] == Output(v.pyOut, stem, v.pySuffix)
    ensures |r| == 2 ==> r[1] == Output(v.pyOut, stem, v.grpcPySuffix)
  {
    if v.pyOut == "" then []
    else [Output(v.pyOut, stem, v.pySuffix)] + (if v.grpcPy then [Output(v.pyOut, stem, v.grpcPySuffix)] else [])
  }

  /** Every C++ target lies in the C++ output directory. */
  lemma CppTargetsInOutputDirectory(v: Settings, stem: string)
    requires !EndsWith(v.ccOut, "/") && '/' !in stem
    requires '/' !in v.hSuffix && '/' !in v.ccSuffix && '/' !in v.grpcHSuffix && '/' !in v.grpcCcSuffix
    ensures forall t :: t in CppTargets(v, stem) ==> PyPath.Dirname(t) == v.ccOut
  {
    var r := CppTargets(v, stem);
    forall t | t in r ensures PyPath.Dirname(t) == v.ccOut {
      var k :| 0 <= k < |r| && r[k] == t;
      var suffix := if k == 0 then v.hSuffix else if k == 1 then v.ccSuffix
                    else if k == 2 then v.grpcHSuffix else v.grpcCcSuffix;
      assert t == Output(v.ccOut, stem, suffix);
      OutputInDirectory(v.ccOut, stem, suffix);
    }
  }

  /** Every Python target lies in the Python output directory. */
  lemma PyTargetsInOutputDirectory(v: Settings, stem: string)
    requires !EndsWith(v.pyOut, "/") && '/' !in stem
    requires '/' !in v.pySuffix && '/' !in v.grpcPySuffix
    ensures forall t :: t in PyTargets(v, stem) ==> PyPath.Dirname(t) == v.pyOut
  {
    var r := PyTargets(v, stem);
    forall t | t in r ensures PyPath.Dirname(t) == v.pyOut {
      var k :| 0 <= k < |r| && r[k] == t;
      var suffix := if k == 0 then v.pySuffix else v.grpcPySuffix;
      assert t == Output(v.pyOut, stem, suffix);
      OutputInDirectory(v.pyOut, stem, suffix);
    }
  }

  /** After `_checkEnv`, an output directory is a node when the user gave
      one, or when `_checkEnv` made it one: it does so only while
      `PROTOC_FLAGS` is empty. */
  predicate DirNode(v: Settings, given: bool) {
    v.flags == "" || given
  }

  /** Some output directory in use is still a plain string, so reading its
      `abspath` raises `AttributeError`. */
  predicate PlainOutDir(v: Settings) {
    (v.ccOut != "" && !DirNode(v, v.ccOutNode))
    || (v.pyOut != "" && !DirNode(v, v.pyOutNode))
    || (v.javaOut != "" && !DirNode(v, v.javaOutNode))
  }

  /** The targets of one source: C++, then Python, then Java (with the
      gRPC Java classes only when that plug-in is set). Reading `abspath`
      of an output directory that is still a string raises first; then
      only the Java part reads the source, which raises when the file is
      missing. */
  function SourceTargets(v: Settings, fs: Files, src: string): (r: Result<seq<string>, string>)
    ensures r.Failure? <==> PlainOutDir(v) || (v.javaOut != "" && src !in fs)
    ensures PlainOutDir(v) ==> r == Failure("AttributeError")
    ensures r.Success? ==> CppTargets(v, SourceStem(v, src)) + PyTargets(v, SourceStem(v, src)) <= r.value
    ensures r.Success? && v.javaOut == "" ==> r.value == CppTargets(v, SourceStem(v, src)) + PyTargets(v, SourceStem(v, src))
    ensures r.Success? && v.javaOut != "" ==>
              var jt := JavaTargetsOf(fs, src, v.javaOut, v.suffix, v.javaSuffix, v.grpcJavaSuffix);
              jt.Success? &&
              r.value == CppTargets(v, SourceStem(v, src)) + PyTargets(v, SourceStem(v, src))
                         + jt.value.0 + (if v.grpcJava then jt.value.1 else [])
  {
    var stem := SourceStem(v, src);
    var head := CppTargets(v, stem) + PyTargets(v, stem);
    if PlainOutDir(v) then Failure("AttributeError")
    else if v.javaOut == "" then Success(head)
    else
      match JavaTargetsOf(fs, src, v.javaOut, v.suffix, v.javaSuffix, v.grpcJavaSuffix)
      case Failure(e) => Failure(e)
      case Success(jt) => Success(head + jt.0 + (if v.grpcJava then jt.1 else []))
  }

  /** Some source is not in the file system. */
  ghost predicate Missing(fs: Files, sources: seq<string>) {
    exists i :: 0 <= i < |sources| && sources[i] !in fs
  }

  lemma MissingUnfold(fs: Files, sources: seq<string>)
    requires |sources| > 0
    ensures Missing(fs, sources) <==> sources[0] !in fs || Missing(fs, sources[1..])
  {
    if Missing(fs, sources[1..]) {
      var i :| 0 <= i < |sources[1..]| && sources[1..][i] !in fs;
      assert sources[i + 1] !in fs;
    }
    if Missing(fs, sources) && sources[0] in fs {
      var i :| 0 <= i < |sources| && sources[i] !in fs;
      assert sources[1..][i - 1] !in fs;
    }
  }

  /** The targets of all sources, in source order; the emitter fails when
      there is a source and an output directory is still a string, and when
      Java output is requested and a source is missing. */
  function AllTargets(v: Settings, fs: Files, sources: seq<string>): (r: Result<seq<string>, string>)
    ensures r.Failure? <==> (|sources| > 0 && PlainOutDir(v)) || (v.javaOut != "" && Missing(fs, sources))
    ensures |sources| > 0 && PlainOutDir(v) ==> r == Failure("AttributeError")
    decreases |sources|
  {
    if |sources| == 0 then Success([])
    else
      MissingUnfold(fs, sources);
      match SourceTargets(v, fs, sources[0])
      case Failure(e) => Failure(e)
      case Success(t) =>
        match AllTargets(v, fs, sources[1..])
        case Failure(e) => Failure(e)
        case Success(ts) => Success(t + ts)
  }

  /** The targets of one source alone are that source's targets. */
  lemma AllTargetsOne(v: Settings, fs: Files, src: string)
    ensures AllTargets(v, fs, [src]) == SourceTargets(v, fs, src)
  {
    assert [src][1..] == [];
    assert AllTargets(v, fs, [src][1..]) == Success([]);
    if SourceTargets(v, fs, src).Success? {
      var t := SourceTargets(v, fs, src).value;
      assert t + [] == t;
    }
  }

  /** A successful run over a non-empty list succeeded on its first source
      and on the rest, and glues the two. */
  lemma AllTargetsCons(v: Settings, fs: Files, s: seq<string>)
    requires |s| > 0 && AllTargets(v, fs, s).Success?
    ensures SourceTargets(v, fs, s[0]).Success? && AllTargets(v, fs, s[1..]).Success?
    ensures AllTargets(v, fs, s).value == SourceTargets(v, fs, s[0]).value + AllTargets(v, fs, s[1..]).value
  {
  }

  lemma AllTargetsConsBack(v: Settings, fs: Files, s: seq<string>)
    requires |s| > 0 && SourceTargets(v, fs, s[0]).Success? && AllTargets(v, fs, s[1..]).Success?
    ensures AllTargets(v, fs, s) == Success(SourceTargets(v, fs, s[0]).value + AllTargets(v, fs, s[1..]).value)
  {
  }

  /** The emitter's targets concatenate over the sources: the targets of
      `a + b` are those of `a` followed by those of `b`. */
  lemma {:induction false} AllTargetsAppend(v: Settings, fs: Files, a: seq<string>, b: seq<string>)
    requires AllTargets(v, fs, a).Success? && AllTargets(v, fs, b).Success?
    ensures AllTargets(v, fs, a + b) == Success(AllTargets(v, fs, a).value + AllTargets(v, fs, b).value)
    decreases |a|
  {
    if |a| == 0 {
      AllTargetsAppendNil(v, fs, a, b);
    } else {
      AllTargetsCons(v, fs, a);
      AllTargetsAppend(v, fs, a[1..], b);
      AllTargetsAppendStep(v, fs, a, b);
    }
  }

  lemma AllTargetsAppendNil(v: Settings, fs: Files, a: seq<string>, b: seq<string>)
    requires |a| == 0 && AllTargets(v, fs, b).Success?
    ensures AllTargets(v, fs, a).Success?
    ensures AllTargets(v, fs, a + b) == Success(AllTargets(v, fs, a).value + AllTargets(v, fs, b).value)
  {
    assert a + b == b;
    var rb := AllTargets(v, fs, b).value;
    assert AllTargets(v, fs, a).value + rb == rb;
  }

  lemma AllTargetsAppendStep(v: Settings, fs: Files, a: seq<string>, b: seq<string>)
    requires |a| > 0 && SourceTargets(v, fs, a[0]).Success?
    requires AllTargets(v, fs, a[1..]).Success? && AllTargets(v, fs, b).Success?
    requires AllTargets(v, fs, a).value == SourceTargets(v, fs, a[0]).value + AllTargets(v, fs, a[1..]).value
    requires AllTargets(v, fs, a[1..] + b) == Success(AllTargets(v, fs, a[1..]).value + AllTargets(v, fs, b).value)
    ensures AllTargets(v, fs, a + b) == Success(AllTargets(v, fs, a).value + AllTargets(v, fs, b).value)
  {
    ConsAppend(a, b);
    AllTargetsConsBack(v, fs, a + b);
    AppendAssoc(SourceTargets(v, fs, a[0]).value, AllTargets(v, fs, a[1..]).value, AllTargets(v, fs, b).value);
  }

  lemma ConsAppend<T>(a: seq<T>, b: seq<T>)
    requires |a| > 0
    ensures (a + b)[0] == a[0] && (a + b)[1..] == a[1..] + b
  {
  }

  /** `os.path.dirname` of a source path. */
  function SourceDir(src: string): string {
    PyPath.Dirname(src)
  }

  predicate Distinct(xs: seq<string>) {
    forall i, j :: 0 <= i < j < |xs| ==> xs[i] != xs[j]
  }

  /** The step of the emitter's loop: a source's directory is added when it
      is neither on the include path nor already added. */
  function AddDir(includes: seq<string>, acc: seq<string>, d: string): seq<string> {
    if d !in includes && d !in acc then acc + [d] else acc
  }

  /** The directories of the sources that are not on the include path, in
      order of first appearance, after those in `acc`. */
  function ProtoDirs(includes: seq<string>, sources: seq<string>, acc: seq<string>): (r: seq<string>)
    ensures acc <= r
    decreases |sources|
  {
    if |sources| == 0 then acc
    else ProtoDirs(includes, sources[1..], AddDir(includes, acc, SourceDir(sources[0])))
  }

  /** No directory is added twice. */
  lemma {:induction false} ProtoDirsDistinct(includes: seq<string>, sources: seq<string>, acc: seq<string>)
    requires Distinct(acc)
    ensures Distinct(ProtoDirs(includes, sources, acc))
    decreases |sources|
  {
    if |sources| > 0 {
      ProtoDirsDistinct(includes, sources[1..], AddDir(includes, acc, SourceDir(sources[0])));
    }
  }

  /** No directory on the include path is added. */
  lemma {:induction false} ProtoDirsNotIncluded(includes: seq<string>, sources: seq<string>, acc: seq<string>)
    ensures forall k :: |acc| <= k < |ProtoDirs(includes, sources, acc)| ==> ProtoDirs(includes, sources, acc)[k] !in includes
    decreases |sources|
  {
    if |sources| > 0 {
      var acc' := AddDir(includes, acc, SourceDir(sources[0]));
      ProtoDirsNotIncluded(includes, sources[1..], acc');
    }
  }

  /** Every source directory ends up on the include path or in the list. */
  lemma {:induction false} ProtoDirsCover(includes: seq<string>, sources: seq<string>, acc: seq<string>)
    ensures forall i :: 0 <= i < |sources| ==>
              SourceDir(sources[i]) in includes || SourceDir(sources[i]) in ProtoDirs(includes, sources, acc)
    decreases |sources|
  {
    if |sources| > 0 {
      var acc' := AddDir(includes, acc, SourceDir(sources[0]));
      var r := ProtoDirs(includes, sources, acc);
      ProtoDirsCover(includes, sources[1..], acc');
      forall i | 0 <= i < |sources| ensures SourceDir(sources[i]) in includes || SourceDir(sources[i]) in r {
        if i > 0 {
          assert sources[i] == sources[1..][i - 1];
        } else {
          var d := SourceDir(sources[0]);
          if d !in includes {
            assert d in acc';
            var k :| 0 <= k < |acc'| && acc'[k] == d;
            assert r[k] == d;
          }
        }
      }
    }
  }

  /** Only source directories are added. */
  lemma {:induction false} ProtoDirsFromSources(includes: seq<string>, sources: seq<string>, acc: seq<string>)
    ensures forall k :: |acc| <= k < |ProtoDirs(includes, sources, acc)| ==>
              exists i :: 0 <= i < |sources| && ProtoDirs(includes, sources, acc)[k] == SourceDir(sources[i])
    decreases |sources|
  {
    if |sources| > 0 {
      var d := SourceDir(sources[0]);
      var acc' := AddDir(includes, acc, d);
      var r := ProtoDirs(includes, sources, acc);
      ProtoDirsFromSources(includes, sources[1..], acc');
      assert r == ProtoDirs(includes, sources[1..], acc');
      forall k | |acc| <= k < |r| ensures exists i :: 0 <= i < |sources| && r[k] == SourceDir(sources[i]) {
        if k < |acc'| {
          assert acc' == acc + [d];
          assert r[k] == acc'[k] == d;
          assert r[k] == SourceDir(sources[0]);
        } else {
          var i :| 0 <= i < |sources[1..]| && r[k] == SourceDir(sources[1..][i]);
          assert sources[1..][i] == sources[i + 1];
          assert r[k] == SourceDir(sources[i + 1]);
        }
      }
    } else {
      assert ProtoDirs(includes, sources, acc) == acc;
    }
  }

  /** What the emitter leaves behind: the targets (the given targets are
      always discarded), the sources unchanged, and the flag variables. */
  datatype Emitted = Emitted(
    targets: seq<string>,
    sources: seq<string>,
    flags: string,
    pathFlags: string,
    sourcesPathFlags: string)

  /** `_protoc_emitter`. */
  function Emit(v: Settings, fs: Files, sources: seq<string>): (r: Result<Emitted, string>)
    ensures r.Failure? <==> (|sources| > 0 && PlainOutDir(v)) || (v.javaOut != "" && Missing(fs, sources))
    ensures |sources| > 0 && PlainOutDir(v) ==> r == Failure("AttributeError")
    ensures r.Success? ==> r.value.sources == sources
    ensures r.Success? ==> r.value.flags == CheckedFlags(v) && r.value.pathFlags == CheckedPathFlags(v)
    ensures r.Success? ==> r.value.targets == AllTargets(v, fs, sources).value
    ensures r.Success? ==>
              r.value.sourcesPathFlags == ProtoPathFlags(ProtoDirs(Includes(CheckedPathFlags(v)), sources, []))
  {
    var pathFlags := CheckedPathFlags(v);
    var dirs := ProtoDirs(Includes(pathFlags), sources, []);
    match AllTargets(v, fs, sources)
    case Failure(e) => Failure(e)
    case Success(ts) => Success(Emitted(ts, sources, CheckedFlags(v), pathFlags, ProtoPathFlags(dirs)))
  }

  // ---------------------------------------------------------------------
  // Defaults (`_multiGet`, `generate`)

  /** `_multiGet(kwd, default, first, second)`: the first truthy value of
      `first[kwd]` and `second[kwd]`, else the default. */
  function MultiGet(kwd: string, default: Value, first: Env, second: Env): (r: Value)
    ensures Truthy(Get(first, kwd)) ==> r == first[kwd]
    ensures !Truthy(Get(first, kwd)) && Truthy(Get(second, kwd)) ==> r == second[kwd]
    ensures !Truthy(Get(first, kwd)) && !Truthy(Get(second, kwd)) ==> r == default
  {
    if Truthy(Get(first, kwd)) then Get(first, kwd)
    else if Truthy(Get(second, kwd)) then Get(second, kwd)
    else default
  }

  /** `env.SetDefault(k=v)`: only an absent variable is set. */
  function SetDefault(env: Env, k: string, v: Value): (r: Env)
    ensures k in r
    ensures k in env ==> r == env
    ensures k !in env ==> r[k] == v && forall k' :: k' in env ==> k' in r && r[k'] == env[k']
  {
    if k in env then env else env[k := v]
  }

  /** `generate` passes the environment where `_multiGet` expects the
      keyword arguments and the other way round. Through `SetDefault` the
      swap cannot be seen: a variable the environment already has is kept,
      and for one it lacks its `get` gives `None`, so both orders give the
      keyword argument or else the default. */
  lemma SwappedArgumentsUnobservable(env: Env, kwargs: Env, kwd: string, default: Value)
    ensures SetDefault(env, kwd, MultiGet(kwd, default, env, kwargs))
            == SetDefault(env, kwd, MultiGet(kwd, default, kwargs, env))
  {
  }

  /** `SetDefault` over several variables: earlier entries win over later
      ones for the same name, and the environment wins over all. */
  function SetDefaults(env: Env, ds: seq<(string, Value)>): (r: Env)
    ensures forall k :: k in env ==> k in r && r[k] == env[k]
    ensures forall i :: 0 <= i < |ds| ==> ds[i].0 in r
    ensures forall k :: k in r ==> k in env || exists i :: 0 <= i < |ds| && ds[i].0 == k
    ensures forall i :: 0 <= i < |ds| && ds[i].0 !in env && (forall j :: 0 <= j < i ==> ds[j].0 != ds[i].0)
              ==> r[ds[i].0] == ds[i].1
    decreases |ds|
  {
    if |ds| == 0 then env
    else
      var e1 := SetDefault(env, ds[0].0, ds[0].1);
      var r := SetDefaults(e1, ds[1..]);
      assert forall i :: 1 <= i < |ds| ==> ds[i] == ds[1..][i - 1];
      r
  }

  /** One keyword of the `SetDefault` call in `generate`: a value looked up
      with `_multiGet`, or a fixed command string. */
  datatype Default = Pick(name: string, fallback: Value) | Fixed(name: string, value: Value)

  const Command := "$PROTOC $PROTOC_FLAGS $PROTOC_PATH_FLAGS $PROTOC_SOURCES_PATH_FLAGS $SOURCES.abspath"

  /** Every variable `generate` defaults apart from `PROTOC`, in the order
      of the call; `CLVar("")` is the empty list. */
  const Defaults: seq<Default> := [
    Pick("PROTOC_FLAGS", VList([])),
    Pick("PROTOC_PATH_FLAGS", VList([])),
    Pick("PROTOC_SOURCES_PATH_FLAGS", VList([])),
    Pick("PROTOC_PATH", VList([])),
    Pick("PROTOC_SUFFIX", VStr(".proto")),
    Fixed("PROTOC_COM", VStr(Command)),
    Fixed("PROTOC_COMSTR", VStr(Command)),
    Pick("PROTOC_HSUFFIX", VStr(".pb.h")),
    Pick("PROTOC_CCSUFFIX", VStr(".pb.cc")),
    Pick("PROTOC_GRPC_HSUFFIX", VStr(".grpc.pb.h")),
    Pick("PROTOC_GRPC_CCSUFFIX", VStr(".grpc.pb.cc")),
    Pick("PROTOC_GRPC_CC", VStr("")),
    Pick("PROTOC_CCOUT", VStr("")),
    Pick("PROTOC_PYSUFFIX", VStr("_pb2.py")),
    Pick("PROTOC_GRPC_PYSUFFIX", VStr("_pb2_grpc.py")),
    Pick("PROTOC_GRPC_PY", VStr("")),
    Pick("PROTOC_PYOUT", VStr("")),
    Pick("PROTOC_JAVASUFFIX", VStr(".java")),
    Pick("PROTOC_GRPC_JAVASUFFIX", VStr("Grpc.java")),
    Pick("PROTOC_GRPC_JAVA", VStr("")),
    Pick("PROTOC_JAVAOUT", VStr(""))]

  /** The value one keyword gets. */
  function Resolve(d: Default, env: Env, kwargs: Env): Value {
    match d
    case Pick(name, fallback) => MultiGet(name, fallback, env, kwargs)
    case Fixed(_, value) => value
  }

  /** The keywords with their values, in order. */
  function ResolveAll(ds: seq<Default>, env: Env, kwargs: Env): (r: seq<(string, Value)>)
    ensures |r| == |ds|
    ensures forall i :: 0 <= i < |ds| ==> r[i] == (ds[i].name, Resolve(ds[i], env, kwargs))
  {
    if |ds| == 0 then [] else [(ds[0].name, Resolve(ds[0], env, kwargs))] + ResolveAll(ds[1..], env, kwargs)
  }

  /** `_detect`: a `PROTOC` set in the environment, else one passed to
      `generate`, else what searching the path finds. */
  function DetectProtoc(env: Env, kwargs: Env, detected: Value): (r: Value)
    ensures Truthy(Get(env, "PROTOC")) ==> r == env["PROTOC"]
    ensures !Truthy(Get(env, "PROTOC")) && Truthy(Get(kwargs, "PROTOC")) ==> r == kwargs["PROTOC"]
    ensures !Truthy(Get(env, "PROTOC")) && !Truthy(Get(kwargs, "PROTOC")) ==> r == detected
  {
    var protoc := MultiGet("PROTOC", VStr(""), env, kwargs);
    if Truthy(protoc) then protoc else detected
  }

  /** The variables `generate` defaults, with what each defaults to. */
  function Assignments(env: Env, kwargs: Env, detected: Value): (ds: seq<(string, Value)>)
    ensures |ds| == 1 + |Defaults|
    ensures ds[0] == ("PROTOC", DetectProtoc(env, kwargs, detected))
    ensures forall i :: 0 <= i < |Defaults| ==> ds[i + 1] == (Defaults[i].name, Resolve(Defaults[i], env, kwargs))
  {
    [("PROTOC", DetectProtoc(env, kwargs, detected))] + ResolveAll(Defaults, env, kwargs)
  }

  /** `generate` without the builder registration: `detected` stands for
      what searching the path for `protoc` finds. Every variable of the
      call is set afterwards, and nothing already set changes. */
  function Generate(env: Env, kwargs: Env, detected: Value): (r: Env)
    ensures forall k :: k in env ==> k in r && r[k] == env[k]
    ensures "PROTOC" in r
    ensures forall i :: 0 <= i < |Defaults| ==> Defaults[i].name in r
  {
    var ds := Assignments(env, kwargs, detected);
    var r := SetDefaults(env, ds);
    assert forall i :: 0 <= i < |Defaults| ==> ds[i + 1].0 == Defaults[i].name;
    r
  }

  /** A variable not yet set gets the value of its first keyword in the call. */
  lemma GenerateSets(env: Env, kwargs: Env, detected: Value, i: nat)
    requires i < |Defaults| && Defaults[i].name !in env && Defaults[i].name != "PROTOC"
    requires forall j :: 0 <= j < i ==> Defaults[j].name != Defaults[i].name
    ensures Generate(env, kwargs, detected)[Defaults[i].name] == Resolve(Defaults[i], env, kwargs)
  {
    var ds := Assignments(env, kwargs, detected);
    assert ds[i + 1] == (Defaults[i].name, Resolve(Defaults[i], env, kwargs));
    forall j | 0 <= j < i + 1 ensures ds[j].0 != ds[i + 1].0 {
      if j > 0 {
        assert ds[j].0 == Defaults[j - 1].name;
      }
    }
  }

  /** With the suffix set neither in the environment nor as a keyword
      argument, sources are taken to end in `.proto`. */
  lemma DefaultSuffix(env: Env, kwargs: Env, detected: Value)
    requires "PROTOC_SUFFIX" !in env && !Truthy(Get(kwargs, "PROTOC_SUFFIX"))
    ensures var r := Generate(env, kwargs, detected); "PROTOC_SUFFIX" in r && r["PROTOC_SUFFIX"] == VStr(".proto")
  {
    var d := Defaults[4];
    assert d == Pick("PROTOC_SUFFIX", VStr(".proto"));
    forall j | 0 <= j < 4 ensures Defaults[j].name != d.name {
      assert |Defaults[j].name| != |d.name|;
    }
    GenerateSets(env, kwargs, detected, 4);
  }
}
