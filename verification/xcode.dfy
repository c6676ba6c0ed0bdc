/** The Xcode project generator's value escaping for `project.pbxproj` and
    scheme files, its settings normalisation, and the collection of the
    files named in the group tree. */
module Xcode {
  import opened Wrappers
  import opened PyStr
  import PyPath
  import opened PyValue

  // ---------------------------------------------------------------------
  // `_escape`

  predicate SimpleHead(c: char) {
    IsLetter(c) || c == '_' || c == '/' || c == '.'
  }

  predicate SimpleTail(c: char) {
    IsAlnum(c) || c == '_' || c == '/' || c == '.'
  }

  /** The whole text is `[A-Za-z_/.][A-Za-z0-9_/.]*`. */
  predicate Simple(s: string) {
    |s| > 0 && SimpleHead(s[0]) && forall k :: 1 <= k < |s| ==> SimpleTail(s[k])
  }

  /** What `re.match` of `^[A-Za-z_/.][A-Za-z0-9_/.]*$` accepts: `$` also
      matches just before a final newline. */
  predicate SimpleMatch(s: string) {
    Simple(s) || (|s| > 0 && s[|s| - 1] == '\n' && Simple(s[..|s| - 1]))
  }

  /** Every `"` preceded by a backslash; nothing else changes. */
  function EscapeQuotes(s: string): (r: string)
    ensures |r| >= |s|
    ensures |r| > 0 ==> r[0] != '"'
  {
    if |s| == 0 then ""
    else (if s[0] == '"' then "\\\"" else [s[0]]) + EscapeQuotes(s[1..])
  }

  function Quote(s: string): (r: string)
    ensures |r| >= 2 && r[0] == '"' && r[|r| - 1] == '"'
  {
    "\"" + EscapeQuotes(s) + "\""
  }

  /** `_escape` as written: a text `re.match` accepts is returned as it is,
      anything else is quoted with its double quotes escaped. */
  function EscapeAsWritten(s: string): (r: string)
    ensures SimpleMatch(s) ==> r == s
    ensures !SimpleMatch(s) ==> r == Quote(s)
  {
    if SimpleMatch(s) then s else Quote(s)
  }

  /** An unquoted result may end in a newline: `abc` followed by a newline
      comes back as it is. */
  lemma EscapeAsWrittenKeepsNewline()
    ensures EscapeAsWritten("abc\n") == "abc\n"
    ensures '\n' in EscapeAsWritten("abc\n")
  {
    var s := "abc\n";
    assert s[..3] == "abc";
    assert Simple("abc");
    assert s[3] == '\n';
  }

  /** The evidently intended `_escape`: only a text that is entirely a
      simple token stays unquoted. */
  function Escape(s: string): (r: string)
    ensures r == s <==> Simple(s)
  {
    if Simple(s) then s else Quote(s)
  }

  /** An unquoted result of the intended `_escape` is a simple token, so it
      holds no whitespace and no quote. */
  lemma EscapeUnquotedIsToken(s: string)
    requires Escape(s) == s
    ensures forall k :: 0 <= k < |s| ==> !IsSpace(s[k]) && s[k] != '"'
  {
    assert Simple(s);
    forall k | 0 <= k < |s| ensures !IsSpace(s[k]) && s[k] != '"' {
      if k == 0 {
        assert SimpleHead(s[0]);
      } else {
        assert SimpleTail(s[k]);
      }
    }
  }

  /** Reading a quoted body back: a backslash before `"` is dropped. */
  function UnescapeQuotes(t: string): (r: string)
  {
    if |t| == 0 then ""
    else if |t| >= 2 && t[0] == '\\' && t[1] == '"' then "\"" + UnescapeQuotes(t[2..])
    else [t[0]] + UnescapeQuotes(t[1..])
  }

  /** Reading a value back: quotes around it are removed and its body
      unescaped; a bare token is taken as it is. */
  function Unescape(t: string): string {
    if |t| >= 2 && t[0] == '"' && t[|t| - 1] == '"' then UnescapeQuotes(t[1..|t| - 1]) else t
  }

  lemma {:induction false} UnescapeEscapeQuotes(s: string)
    ensures UnescapeQuotes(EscapeQuotes(s)) == s
  {
    if |s| > 0 {
      var rest := EscapeQuotes(s[1..]);
      UnescapeEscapeQuotes(s[1..]);
      if s[0] == '"' {
        var t := "\\\"" + rest;
        assert t[2..] == rest;
      } else {
        var t := [s[0]] + rest;
        assert t[1..] == rest;
        assert s[0] == '\\' ==> |t| < 2 || t[1] != '"';
      }
      assert s == [s[0]] + s[1..];
    }
  }

  /** The escaping is undone by `Unescape`: a quoted value never begins
      with an unescaped simple token and a simple token never starts with
      a quote. */
  lemma EscapeRoundTrip(s: string)
    ensures Unescape(Escape(s)) == s
  {
    if Simple(s) {
      assert SimpleHead(s[0]);
    } else {
      var q := Quote(s);
      assert q[1..|q| - 1] == EscapeQuotes(s);
      UnescapeEscapeQuotes(s);
    }
  }

  // ---------------------------------------------------------------------
  // `_escape_comment`

  // Every star followed by a slash is written with the star in
  // parentheses, so the text can sit inside a block comment.
  function EscapeComment(s: string): string {
    ReplaceAll(s, "*/", "(*)/")
  }

  /** No `*` directly before a `/`. */
  predicate NoCloser(s: string) {
    forall k :: 0 <= k < |s| - 1 ==> !(s[k] == '*' && s[k + 1] == '/')
  }

  lemma NoCloserContains(s: string)
    ensures NoCloser(s) <==> !Contains(s, "*/")
  {
    if !NoCloser(s) {
      var k :| 0 <= k < |s| - 1 && s[k] == '*' && s[k + 1] == '/';
      assert s[k..k + 2] == "*/";
      assert OccursAt(s, k, "*/");
    }
    if Contains(s, "*/") {
      var k := Find(s, "*/").value;
      assert s[k..k + 2] == "*/";
      assert s[k] == '*' && s[k + 1] == '/';
    }
  }

  lemma NoCloserConcat(a: string, b: string)
    requires NoCloser(a) && NoCloser(b)
    requires |a| == 0 || |b| == 0 || a[|a| - 1] != '*' || b[0] != '/'
    ensures NoCloser(a + b)
  {
    var ab := a + b;
    forall k | 0 <= k < |ab| - 1 ensures !(ab[k] == '*' && ab[k + 1] == '/') {
      if k + 1 < |a| {
        assert ab[k] == a[k] && ab[k + 1] == a[k + 1];
      } else if k >= |a| {
        assert ab[k] == b[k - |a|] && ab[k + 1] == b[k + 1 - |a|];
      }
    }
  }

  lemma {:induction false} EscapeCommentNoCloser(s: string)
    ensures NoCloser(EscapeComment(s))
    decreases |s|
  {
    match Find(s, "*/")
    case None =>
      NoCloserContains(s);
    case Some(i) =>
      var rest := s[i + 2..];
      EscapeCommentNoCloser(rest);
      var pre := s[..i];
      PrefixFree(s, i, "*/");
      NoCloserContains(pre);
      var mid: string := "(*)/";
      assert NoCloser(mid) by {
        assert mid[0] == '(' && mid[1] == '*' && mid[2] == ')' && mid[3] == '/';
      }
      var e := EscapeComment(rest);
      assert e == [] || e[0] != '*' || mid[3] != '*';
      NoCloserConcat(mid, e);
      NoCloserConcat(pre, mid + e);
      assert EscapeComment(s) == pre + (mid + e);
  }

  // An escaped comment holds no star-slash, and escaping it again
  // changes nothing.
  lemma EscapeCommentSafe(s: string)
    ensures !Contains(EscapeComment(s), "*/")
    ensures EscapeComment(EscapeComment(s)) == EscapeComment(s)
  {
    var e := EscapeComment(s);
    EscapeCommentNoCloser(s);
    NoCloserContains(e);
    assert Find(e, "*/").None?;
  }

  // ---------------------------------------------------------------------
  // `_escape_xml`

  predicate XmlSpecial(c: char) {
    c == '<' || c == '&' || c == '>'
  }

  /** `_escape_xml` as written: the replacement looks the match object up
      in a table keyed by characters, so any `<`, `&` or `>` raises
      KeyError; a text without them comes back unchanged. */
  function EscapeXmlAsWritten(s: string): (r: Result<string, string>)
    ensures r.Success? <==> forall k :: 0 <= k < |s| ==> !XmlSpecial(s[k])
    ensures r.Success? ==> r.value == s
  {
    if exists k :: 0 <= k < |s| && XmlSpecial(s[k]) then Failure("KeyError") else Success(s)
  }

  /** A scheme for a product named `a<b` cannot be written. */
  lemma EscapeXmlAsWrittenFails()
    ensures EscapeXmlAsWritten("a<b").Failure?
  {
    assert XmlSpecial("a<b"[1]);
  }

  function XmlEntity(c: char): string {
    if c == '<' then "&lt;" else if c == '&' then "&amp;" else if c == '>' then "&gt;" else [c]
  }

  /** The evidently intended `_escape_xml`: `<`, `&` and `>` become their
      entities; `"` is not matched and stays. */
  function EscapeXml(s: string): (r: string)
    ensures forall k :: 0 <= k < |r| ==> r[k] != '<' && r[k] != '>'
    ensures (forall k :: 0 <= k < |s| ==> !XmlSpecial(s[k])) ==> r == s
  {
    if |s| == 0 then ""
    else
      var rest := EscapeXml(s[1..]);
      var e := XmlEntity(s[0]);
      assert forall k :: 0 <= k < |e| ==> e[k] != '<' && e[k] != '>';
      assert (forall k :: 0 <= k < |s| ==> !XmlSpecial(s[k])) ==> e + rest == s by {
        if forall k :: 0 <= k < |s| ==> !XmlSpecial(s[k]) {
          assert forall k :: 0 <= k < |s[1..]| ==> !XmlSpecial(s[1..][k]) by {
            forall k | 0 <= k < |s[1..]| ensures !XmlSpecial(s[1..][k]) {
              assert s[1..][k] == s[k + 1];
            }
          }
          assert !XmlSpecial(s[0]);
          assert s == [s[0]] + s[1..];
        }
      }
      e + rest
  }

  /** Reading entities back. */
  function UnescapeXml(t: string): string {
    if |t| == 0 then ""
    else if StartsWith(t, "&lt;") then "<" + UnescapeXml(t[4..])
    else if StartsWith(t, "&amp;") then "&" + UnescapeXml(t[5..])
    else if StartsWith(t, "&gt;") then ">" + UnescapeXml(t[4..])
    else [t[0]] + UnescapeXml(t[1..])
  }

  lemma EntityLt(rest: string)
    ensures UnescapeXml("&lt;" + rest) == "<" + UnescapeXml(rest)
  {
    var t := "&lt;" + rest;
    assert t[..4] == "&lt;";
    assert t[4..] == rest;
  }

  lemma EntityAmp(rest: string)
    ensures UnescapeXml("&amp;" + rest) == "&" + UnescapeXml(rest)
  {
    var t := "&amp;" + rest;
    assert t[1] == 'a';
    assert t[..4] != "&lt;" by { assert t[..4][1] == 'a'; }
    assert t[..5] == "&amp;";
    assert t[5..] == rest;
  }

  lemma EntityGt(rest: string)
    ensures UnescapeXml("&gt;" + rest) == ">" + UnescapeXml(rest)
  {
    var t := "&gt;" + rest;
    assert t[..4] != "&lt;" by { assert t[..4][1] == 'g'; }
    assert |t| < 5 || t[..5] != "&amp;" by {
      if |t| >= 5 {
        assert t[..5][1] == 'g';
      }
    }
    assert t[..4] == "&gt;";
    assert t[4..] == rest;
  }

  lemma EntityPlain(c: char, rest: string)
    requires c != '&'
    ensures UnescapeXml([c] + rest) == [c] + UnescapeXml(rest)
  {
    var t := [c] + rest;
    assert !StartsWith(t, "&lt;") && !StartsWith(t, "&amp;") && !StartsWith(t, "&gt;") by {
      assert t[0] == c;
    }
    assert t[1..] == rest;
  }

  lemma EntityStep(c: char, rest: string)
    ensures UnescapeXml(XmlEntity(c) + rest) == [c] + UnescapeXml(rest)
  {
    if c == '<' {
      EntityLt(rest);
    } else if c == '&' {
      EntityAmp(rest);
    } else if c == '>' {
      EntityGt(rest);
    } else {
      EntityPlain(c, rest);
    }
  }

  /** Unescaping the entities gives back the text. */
  lemma {:induction false} EscapeXmlRoundTrip(s: string)
    ensures UnescapeXml(EscapeXml(s)) == s
    decreases |s|
  {
    if |s| > 0 {
      EscapeXmlRoundTrip(s[1..]);
      EntityStep(s[0], EscapeXml(s[1..]));
      assert s == [s[0]] + s[1..];
    }
  }

  // ---------------------------------------------------------------------
  // `_settings_from_env`

  /** The settings the generator reads. `products` is absent when the
      variable holds something that is neither a string nor a list. */
  datatype ProjectSettings = ProjectSettings(
    name: Value,
    products: Option<Value>,
    groups: Value,
    variants: Value,
    target: string)

  /** The default project name: the target's base name without its
      extension. */
  function DefaultName(target: string): string {
    PyPath.Basename(PyPath.SConsSplitext(target).0)
  }

  /** `_settings_from_env` for a target given by its absolute path. */
  function SettingsFromEnv(target: string, env: Env): (r: ProjectSettings)
    ensures "name" in env ==> r.name == env["name"]
    ensures "name" !in env ==> r.name == VStr(DefaultName(target))
    ensures Get(env, "products") == VNone ==> r.products == Some(VList([]))
    ensures Get(env, "products").VStr? ==> r.products == Some(VList([env["products"]]))
    ensures Get(env, "products").VList? ==> r.products == Some(env["products"])
    ensures r.products.None? <==> Get(env, "products") !in {VNone} && !Get(env, "products").VStr? && !Get(env, "products").VList?
    ensures Get(env, "groups") == VNone ==> r.groups == VDict([])
    ensures Get(env, "groups") != VNone ==> r.groups == env["groups"]
    ensures Get(env, "variants") == VNone ==> r.variants == VList([VStr("Default")])
    ensures Get(env, "variants") != VNone ==> r.variants == env["variants"]
    ensures r.target == target
  {
    var products := Get(env, "products");
    var groups := Get(env, "groups");
    var variants := Get(env, "variants");
    ProjectSettings(
      if "name" in env then env["name"] else VStr(DefaultName(target)),
      if products == VNone then Some(VList([]))
      else if products.VStr? then Some(VList([products]))
      else if products.VList? then Some(products)
      else None,
      if groups == VNone then VDict([]) else groups,
      if variants == VNone then VList([VStr("Default")]) else variants,
      target)
  }

  /** For a project path `dir/stem.ext` whose stem has no dot and whose
      extension is not all digits, the default name is the stem. */
  lemma DefaultNameIsStem(dir: string, stem: string, ext: string)
    requires stem != "" && '/' !in stem && '.' !in stem
    requires '/' !in ext && '.' !in ext && !PyPath.IsDigits(ext)
    ensures DefaultName(dir + "/" + stem + "." + ext) == stem
  {
    PyPath.SConsSplitextName(dir, stem, ext);
    PyPath.BasenameAfterSlash(dir, stem);
  }

  // ---------------------------------------------------------------------
  // `all_group_files`

  /** A value `set.add` accepts: lists and dictionaries are unhashable. */
  predicate Hashable(v: Value) {
    !v.VList? && !v.VDict?
  }

  function Union(a: Result<set<Value>, string>, b: Result<set<Value>, string>): (r: Result<set<Value>, string>)
    ensures r.Success? <==> a.Success? && b.Success?
  {
    if a.Failure? then a else if b.Failure? then b else Success(a.value + b.value)
  }

  /** `collect_files` over one group: `None` values are skipped, a scalar
      stands for a one-element list, a dictionary item is a sub-group, a
      list item cannot be added to the set. */
  function CollectEntries(entries: seq<(string, Value)>): (r: Result<set<Value>, string>)
    ensures r.Success? ==> forall x :: x in r.value ==> Hashable(x)
    decreases entries
  {
    if |entries| == 0 then Success({})
    else
      Union(CollectEntry(entries[0]), CollectEntries(entries[1..]))
  }

  /** One `key, value` pair of a group. */
  function CollectEntry(e: (string, Value)): (r: Result<set<Value>, string>)
    ensures r.Success? ==> forall x :: x in r.value ==> Hashable(x)
    decreases e
  {
    var v := e.1;
    if v == VNone then Success({})
    else if v.VList? then CollectItems(v.items)
    else CollectItem(v)
  }

  function CollectItems(items: seq<Value>): (r: Result<set<Value>, string>)
    ensures r.Success? ==> forall x :: x in r.value ==> Hashable(x)
    decreases items
  {
    if |items| == 0 then Success({})
    else Union(CollectItem(items[0]), CollectItems(items[1..]))
  }

  function CollectItem(item: Value): (r: Result<set<Value>, string>)
    ensures r.Success? ==> forall x :: x in r.value ==> Hashable(x)
    ensures Hashable(item) ==> r == Success({item})
    decreases item
  {
    match item
    case VDict(entries) => CollectEntries(entries)
    case VList(_) => Failure("TypeError")
    case _ => Success({item})
  }

  // Reference definitions for the collected files.

  /** `x` is a file of the group tree `item`: a non-dictionary reached
      through dictionaries, skipping `None` values and looking inside a
      list value one level down. */
  ghost predicate ItemHas(item: Value, x: Value)
    decreases item
  {
    match item
    case VDict(entries) => exists i :: 0 <= i < |entries| && EntryHas(entries[i], x)
    case _ => x == item
  }

  ghost predicate EntryHas(e: (string, Value), x: Value)
    decreases e
  {
    e.1 != VNone &&
    if e.1.VList? then exists j :: 0 <= j < |e.1.items| && ItemHas(e.1.items[j], x)
    else ItemHas(e.1, x)
  }

  /** Somewhere in the tree `item`, a list item is itself a list: the one
      thing a set cannot take. */
  ghost predicate ItemBad(item: Value)
    decreases item
  {
    match item
    case VDict(entries) => exists i :: 0 <= i < |entries| && EntryBad(entries[i])
    case VList(_) => true
    case _ => false
  }

  ghost predicate EntryBad(e: (string, Value))
    decreases e
  {
    e.1 != VNone &&
    if e.1.VList? then exists j :: 0 <= j < |e.1.items| && ItemBad(e.1.items[j])
    else ItemBad(e.1)
  }

  /** `collect_files` collects exactly the files of the tree, and fails
      exactly when a list sits inside a list. */
  lemma {:induction false} CollectItemSpec(item: Value)
    ensures CollectItem(item).Success? <==> !ItemBad(item)
    ensures CollectItem(item).Success? ==> forall x :: x in CollectItem(item).value <==> ItemHas(item, x)
    decreases item
  {
    match item
    case VDict(entries) => CollectEntriesSpec(entries);
    case VList(_) =>
    case _ =>
  }

  lemma {:induction false} CollectEntriesSpec(entries: seq<(string, Value)>)
    ensures CollectEntries(entries).Success? <==> !exists i :: 0 <= i < |entries| && EntryBad(entries[i])
    ensures CollectEntries(entries).Success? ==>
              forall x :: x in CollectEntries(entries).value <==> exists i :: 0 <= i < |entries| && EntryHas(entries[i], x)
    decreases entries
  {
    if |entries| > 0 {
      var tail := entries[1..];
      CollectEntrySpec(entries[0]);
      CollectEntriesSpec(tail);
      assert forall i :: 0 < i < |entries| ==> entries[i] == tail[i - 1];
      if exists i :: 0 <= i < |entries| && EntryBad(entries[i]) {
        var i :| 0 <= i < |entries| && EntryBad(entries[i]);
        if i > 0 { assert EntryBad(tail[i - 1]); }
      }
      if exists i :: 0 <= i < |tail| && EntryBad(tail[i]) {
        var i :| 0 <= i < |tail| && EntryBad(tail[i]);
        assert EntryBad(entries[i + 1]);
      }
      if CollectEntries(entries).Success? {
        forall x ensures x in CollectEntries(entries).value <==> exists i :: 0 <= i < |entries| && EntryHas(entries[i], x) {
          if exists i :: 0 <= i < |entries| && EntryHas(entries[i], x) {
            var i :| 0 <= i < |entries| && EntryHas(entries[i], x);
            if i > 0 { assert EntryHas(tail[i - 1], x); }
          }
          if exists i :: 0 <= i < |tail| && EntryHas(tail[i], x) {
            var i :| 0 <= i < |tail| && EntryHas(tail[i], x);
            assert EntryHas(entries[i + 1], x);
          }
        }
      }
    }
  }

  lemma {:induction false} CollectEntrySpec(e: (string, Value))
    ensures CollectEntry(e).Success? <==> !EntryBad(e)
    ensures CollectEntry(e).Success? ==> forall x :: x in CollectEntry(e).value <==> EntryHas(e, x)
    decreases e
  {
    if e.1 != VNone {
      if e.1.VList? {
        CollectItemsSpec(e.1.items);
      } else {
        CollectItemSpec(e.1);
      }
    }
  }

  lemma {:induction false} CollectItemsSpec(items: seq<Value>)
    ensures CollectItems(items).Success? <==> !exists j :: 0 <= j < |items| && ItemBad(items[j])
    ensures CollectItems(items).Success? ==>
              forall x :: x in CollectItems(items).value <==> exists j :: 0 <= j < |items| && ItemHas(items[j], x)
    decreases items
  {
    if |items| > 0 {
      var tail := items[1..];
      CollectItemSpec(items[0]);
      CollectItemsSpec(tail);
      assert forall j :: 0 < j < |items| ==> items[j] == tail[j - 1];
      if exists j :: 0 <= j < |items| && ItemBad(items[j]) {
        var j :| 0 <= j < |items| && ItemBad(items[j]);
        if j > 0 { assert ItemBad(tail[j - 1]); }
      }
      if exists j :: 0 <= j < |tail| && ItemBad(tail[j]) {
        var j :| 0 <= j < |tail| && ItemBad(tail[j]);
        assert ItemBad(items[j + 1]);
      }
      if CollectItems(items).Success? {
        forall x ensures x in CollectItems(items).value <==> exists j :: 0 <= j < |items| && ItemHas(items[j], x) {
          if exists j :: 0 <= j < |items| && ItemHas(items[j], x) {
            var j :| 0 <= j < |items| && ItemHas(items[j], x);
            if j > 0 { assert ItemHas(tail[j - 1], x); }
          }
          if exists j :: 0 <= j < |tail| && ItemHas(tail[j], x) {
            var j :| 0 <= j < |tail| && ItemHas(tail[j], x);
            assert ItemHas(items[j + 1], x);
          }
        }
      }
    }
  }

  /** `all_group_files`: a group tree that is not a dictionary has no
      `items` to iterate; a dictionary gives exactly its files, and fails
      exactly when a list sits inside a list. */
  function AllGroupFiles(groups: Value): (r: Result<set<Value>, string>)
    ensures r.Success? ==> forall x :: x in r.value ==> Hashable(x)
    ensures !groups.VDict? ==> r.Failure?
    ensures groups.VDict? ==> (r.Success? <==> !ItemBad(groups))
    ensures r.Success? ==> forall x :: x in r.value <==> ItemHas(groups, x)
  {
    match groups
    case VDict(entries) =>
      CollectItemSpec(groups);
      CollectEntries(entries)
    case _ => Failure("AttributeError")
  }

  /** Splitting a group's entries splits what is collected. */
  lemma {:induction false} CollectEntriesAppend(a: seq<(string, Value)>, b: seq<(string, Value)>)
    ensures CollectEntries(a + b).Success? <==> CollectEntries(a).Success? && CollectEntries(b).Success?
    ensures CollectEntries(a + b).Success? ==>
              CollectEntries(a + b).value == CollectEntries(a).value + CollectEntries(b).value
    decreases |a|
  {
    if |a| == 0 {
      assert a + b == b;
    } else {
      assert (a + b)[0] == a[0];
      assert (a + b)[1..] == a[1..] + b;
      CollectEntriesAppend(a[1..], b);
    }
  }

  /** The order of a group's entries does not change the collected set. */
  lemma EntryOrderIrrelevant(a: seq<(string, Value)>, b: seq<(string, Value)>)
    ensures CollectEntries(a + b).Success? <==> CollectEntries(b + a).Success?
    ensures CollectEntries(a + b).Success? ==> CollectEntries(a + b).value == CollectEntries(b + a).value
  {
    CollectEntriesAppend(a, b);
    CollectEntriesAppend(b, a);
  }

  /** A group whose values are all file names collects exactly those names. */
  lemma {:induction false} FlatGroup(entries: seq<(string, Value)>)
    requires forall i :: 0 <= i < |entries| ==> entries[i].1.VStr?
    ensures CollectEntries(entries).Success?
    ensures forall x :: x in CollectEntries(entries).value <==> exists i :: 0 <= i < |entries| && entries[i].1 == x
    decreases |entries|
  {
    if |entries| > 0 {
      var tail := entries[1..];
      assert forall i :: 0 <= i < |tail| ==> tail[i] == entries[i + 1];
      FlatGroup(tail);
      var v := entries[0].1;
      assert CollectEntry(entries[0]) == Success({v});
      assert CollectEntries(entries) == Union(Success({v}), CollectEntries(tail));
      assert CollectEntries(entries).value == {v} + CollectEntries(tail).value;
      forall x | x in CollectEntries(entries).value
        ensures exists i :: 0 <= i < |entries| && entries[i].1 == x
      {
        if x != entries[0].1 {
          var i :| 0 <= i < |tail| && tail[i].1 == x;
          assert entries[i + 1].1 == x;
        }
      }
      forall x | exists i :: 0 <= i < |entries| && entries[i].1 == x
        ensures x in CollectEntries(entries).value
      {
        var i :| 0 <= i < |entries| && entries[i].1 == x;
        if i > 0 {
          assert tail[i - 1].1 == x;
        }
      }
    }
  }
}
