/** The Qt4 automoc emitter (`_Automoc`): given the object list of a program
    or library, it plans which moc steps are registered and which moc
    objects join the object list. Nodes are represented by their rendered
    paths, the file system by a map from path to contents, and the builder
    calls (`Moc4`, `XMoc4`, `Ignore`) by appended `Step` records. */
module Qt4Automoc {
  import opened Wrappers
  import opened PyStr
  import opened PyPath
  import opened Qt4Scan

  // ------------------------------------------------------------ int parsing

  /** The value of a string of decimal digits. */
  function DigitsValue(d: string): nat
    requires forall j :: 0 <= j < |d| ==> IsDigit(d[j])
  {
    if |d| == 0 then 0
    else
      assert IsDigit(d[|d| - 1]);
      10 * DigitsValue(d[..|d| - 1]) + (d[|d| - 1] as int - '0' as int)
  }

  /** `str(n)` for a natural number. */
  function Decimal(n: nat): (d: string)
    ensures IsDigits(d)
    decreases n
  {
    var last := ('0' as int + n % 10) as char;
    if n < 10 then [last] else Decimal(n / 10) + [last]
  }

  /** The number of characters C's `isspace` accepts at the start of `s`. */
  function LeadingBlanks(s: string): (n: nat)
    ensures n <= |s|
    ensures forall j :: 0 <= j < n ==> RegexSpace(s[j])
    ensures n < |s| ==> !RegexSpace(s[n])
  {
    if |s| > 0 && RegexSpace(s[0]) then 1 + LeadingBlanks(s[1..]) else 0
  }

  /** The number of characters C's `isspace` accepts at the end of `s`. */
  function TrailingBlanks(s: string): (n: nat)
    ensures n <= |s|
    ensures forall j :: |s| - n <= j < |s| ==> RegexSpace(s[j])
    ensures n < |s| ==> !RegexSpace(s[|s| - n - 1])
  {
    if |s| > 0 && RegexSpace(s[|s| - 1]) then 1 + TrailingBlanks(s[..|s| - 1]) else 0
  }

  /** `s` without its leading whitespace. */
  function TrimLeft(s: string): string {
    s[LeadingBlanks(s)..]
  }

  /** `s` without its trailing whitespace. */
  function TrimRight(s: string): string {
    s[..|s| - TrailingBlanks(s)]
  }

  /** Python 2's `int(s)`: optional surrounding whitespace, an optional sign,
      optional whitespace after the sign (`PyOS_strtoul` skips it again) and
      at least one decimal digit; anything else raises `ValueError`, written
      `None`. */
  function ParseInt(s: string): (r: Option<int>)
    ensures r.Some? ==> exists j :: 0 <= j < |s| && IsDigit(s[j])
  {
    var t := TrimRight(TrimLeft(s));
    var r := ParseTrimmed(t);
    if r.Some? then
      TrimmedLast(s, t);
      r
    else r
  }

  /** `int()` on text with no whitespace at either end; it ends in a digit
      whenever it is accepted. */
  function ParseTrimmed(t: string): (r: Option<int>)
    ensures r.Some? ==> |t| > 0 && IsDigit(t[|t| - 1])
  {
    if |t| > 0 && (t[0] == '-' || t[0] == '+') then
      var d := TrimLeft(t[1..]);
      var r := Signed(t[0], d);
      if r.Some? then
        assert d[|d| - 1] == t[|t| - 1];
        r
      else r
    else if IsDigits(t) then
      assert IsDigit(t[|t| - 1]);
      Some(DigitsValue(t))
    else None
  }

  /** The value after a sign and any whitespace following it. */
  function Signed(sign: char, d: string): (r: Option<int>)
    ensures r.Some? <==> IsDigits(d)
  {
    if IsDigits(d) then
      Some(if sign == '-' then -(DigitsValue(d) as int) else DigitsValue(d) as int)
    else None
  }

  lemma TrimmedLast(s: string, t: string)
    requires t == TrimRight(TrimLeft(s)) && |t| > 0 && IsDigit(t[|t| - 1])
    ensures exists j :: 0 <= j < |s| && IsDigit(s[j])
  {
    var i := |t| - 1;
    assert t[i] == s[LeadingBlanks(s) + i];
  }

  /** Reference grammar of the text `int()` accepts once its surrounding
      whitespace is gone: decimal digits, or a sign, whitespace, and
      decimal digits. */
  predicate IntText(t: string) {
    IsDigits(t)
    || (|t| > 0 && (t[0] == '-' || t[0] == '+') &&
        exists k :: 1 <= k < |t| && (forall j :: 1 <= j < k ==> RegexSpace(t[j])) && IsDigits(t[k..]))
  }

  /** `int(s)` succeeds exactly on text of the reference grammar: so
      `"1 2"`, `"1a"` and a lone `"+"` are rejected. */
  lemma ParseIntAccepts(s: string)
    ensures ParseInt(s).Some? <==> IntText(TrimRight(TrimLeft(s)))
  {
    var t := TrimRight(TrimLeft(s));
    if |t| > 0 && (t[0] == '-' || t[0] == '+') {
      assert !IsDigits(t);
      SignedAccepts(t);
    }
  }

  /** After a sign, the digits found past the blanks are exactly the
      grammar's sign-blanks-digits form. */
  lemma SignedAccepts(t: string)
    requires |t| > 0 && (t[0] == '-' || t[0] == '+')
    ensures IsDigits(TrimLeft(t[1..])) <==>
              exists k :: 1 <= k < |t| && (forall j :: 1 <= j < k ==> RegexSpace(t[j])) && IsDigits(t[k..])
  {
    var u := t[1..];
    if IsDigits(TrimLeft(u)) {
      var k := 1 + LeadingBlanks(u);
      assert t[k..] == TrimLeft(u);
      assert forall j :: 1 <= j < k ==> t[j] == u[j - 1];
    }
    if exists k :: 1 <= k < |t| && (forall j :: 1 <= j < k ==> RegexSpace(t[j])) && IsDigits(t[k..]) {
      var k :| 1 <= k < |t| && (forall j :: 1 <= j < k ==> RegexSpace(t[j])) && IsDigits(t[k..]);
      SignedAcceptsBack(t, k);
    }
  }

  lemma SignedAcceptsBack(t: string, k: nat)
    requires 1 <= k < |t| && (forall j :: 1 <= j < k ==> RegexSpace(t[j])) && IsDigits(t[k..])
    ensures IsDigits(TrimLeft(t[1..]))
  {
    var u := t[1..];
    assert forall j :: 0 <= j < k - 1 ==> u[j] == t[j + 1];
    assert IsDigit(t[k..][0]) && u[k - 1] == t[k];
    LeadingBlanksExact(u, k - 1);
    assert TrimLeft(u) == t[k..];
  }

  /** The blank run at the start of `u` is exactly `m` long. */
  lemma LeadingBlanksExact(u: string, m: nat)
    requires m < |u| && !RegexSpace(u[m])
    requires forall j :: 0 <= j < m ==> RegexSpace(u[j])
    ensures LeadingBlanks(u) == m
  {
  }

  /** `count` zero digits. */
  function Zeros(count: nat): (z: string)
    ensures |z| == count && forall j :: 0 <= j < count ==> z[j] == '0'
  {
    seq(count, _ => '0')
  }

  /** Leading zeros add nothing to the value of digits. */
  lemma {:induction false} DigitsValueZeros(count: nat, d: string)
    requires forall j :: 0 <= j < |d| ==> IsDigit(d[j])
    ensures var zd := Zeros(count) + d;
            (forall j :: 0 <= j < |zd| ==> IsDigit(zd[j])) && DigitsValue(zd) == DigitsValue(d)
    decreases |d|, count
  {
    var zd := Zeros(count) + d;
    if |d| > 0 {
      DigitsValueZeros(count, d[..|d| - 1]);
      assert zd[..|zd| - 1] == Zeros(count) + d[..|d| - 1];
    } else if count > 0 {
      DigitsValueZeros(count - 1, d);
      assert zd[..|zd| - 1] == Zeros(count - 1) + d;
    }
  }

  /** `int("007") == 7`: leading zeros are accepted and ignored. */
  lemma ParseIntLeadingZeros(count: nat, n: nat)
    ensures ParseInt(Zeros(count) + Decimal(n)) == Some(n)
  {
    var d := Decimal(n);
    var zd := Zeros(count) + d;
    DigitsValueZeros(count, d);
    DigitsValueDecimal(n);
    assert zd[0] == if count > 0 then '0' else d[0];
    assert zd[|zd| - 1] == d[|d| - 1];
    TrimLeftKeeps(zd);
    TrimRightKeeps(zd);
    ParseIntDigits(zd, zd);
  }

  lemma {:induction false} DigitsValueDecimal(n: nat)
    ensures DigitsValue(Decimal(n)) == n
    decreases n
  {
    if n >= 10 {
      DigitsValueDecimal(n / 10);
      var d := Decimal(n);
      assert d[..|d| - 1] == Decimal(n / 10);
    }
  }

  /** `int(str(n)) == n`, and whitespace around the digits is ignored. */
  lemma ParseIntDecimal(n: nat, pre: string, post: string)
    requires forall j :: 0 <= j < |pre| ==> RegexSpace(pre[j])
    requires forall j :: 0 <= j < |post| ==> RegexSpace(post[j])
    ensures ParseInt(pre + Decimal(n) + post) == Some(n)
  {
    var d := Decimal(n);
    DigitsValueDecimal(n);
    TrimLeftSpaces(pre, d + post);
    assert pre + d + post == pre + (d + post);
    TrimRightSpaces(d, post);
    assert TrimRight(TrimLeft(pre + d + post)) == d;
    ParseIntDigits(pre + d + post, d);
  }

  lemma ParseIntDigits(s: string, t: string)
    requires TrimRight(TrimLeft(s)) == t && IsDigits(t)
    ensures ParseInt(s).Some? && ParseInt(s).value == DigitsValue(t)
  {
    assert IsDigit(t[0]);
    assert ParseTrimmed(t) == Some(DigitsValue(t));
  }

  /** `int("-" + str(n)) == -n`. */
  lemma ParseIntNegative(n: nat)
    ensures ParseInt("-" + Decimal(n)) == Some(-(n as int))
  {
    ParseIntSignGap(n, '-', "");
    assert ['-'] + "" + Decimal(n) == "-" + Decimal(n);
  }

  /** Whitespace between the sign and the digits is skipped:
      `int("- 1") == -1` and `int("+ 2") == 2`. */
  lemma ParseIntSignGap(n: nat, sign: char, gap: string)
    requires sign == '-' || sign == '+'
    requires forall j :: 0 <= j < |gap| ==> RegexSpace(gap[j])
    ensures ParseInt([sign] + gap + Decimal(n)) == Some(if sign == '-' then -(n as int) else n)
  {
    SignGapText(sign, gap, Decimal(n));
    SignedDecimal(sign, n);
  }

  /** A sign, whitespace and digits parse as the signed digits. */
  lemma SignGapText(sign: char, gap: string, d: string)
    requires sign == '-' || sign == '+'
    requires forall j :: 0 <= j < |gap| ==> RegexSpace(gap[j])
    requires IsDigits(d)
    ensures ParseInt([sign] + gap + d) == Signed(sign, d)
  {
    var rest := gap + d;
    var m := [sign] + rest;
    assert [sign] + gap + d == m;
    EndsInDigit(gap, d);
    SignedTextTrimmed(sign, rest);
    GapTrimmed(gap, d);
    assert m[1..] == rest;
    ParseIntSigned(m, d);
  }

  lemma EndsInDigit(gap: string, d: string)
    requires IsDigits(d)
    ensures |gap + d| > 0 && IsDigit((gap + d)[|gap + d| - 1])
  {
    assert (gap + d)[|gap + d| - 1] == d[|d| - 1];
  }

  lemma GapTrimmed(gap: string, d: string)
    requires forall j :: 0 <= j < |gap| ==> RegexSpace(gap[j])
    requires IsDigits(d)
    ensures TrimLeft(gap + d) == d
  {
    assert IsDigit(d[0]);
    TrimLeftSpaces(gap, d);
  }

  lemma SignedDecimal(sign: char, n: nat)
    ensures Signed(sign, Decimal(n)) == Some(if sign == '-' then -(n as int) else n)
  {
    DigitsValueDecimal(n);
  }

  /** A sign followed by text ending in a digit has no whitespace to trim. */
  lemma SignedTextTrimmed(sign: char, rest: string)
    requires sign == '-' || sign == '+'
    requires |rest| > 0 && IsDigit(rest[|rest| - 1])
    ensures TrimLeft([sign] + rest) == [sign] + rest
    ensures TrimRight([sign] + rest) == [sign] + rest
  {
    var m := [sign] + rest;
    assert m[0] == sign;
    assert m[|m| - 1] == rest[|rest| - 1];
    TrimLeftKeeps(m);
    TrimRightKeeps(m);
  }

  lemma ParseIntSigned(t: string, d: string)
    requires |t| > 1 && (t[0] == '-' || t[0] == '+')
    requires TrimLeft(t) == t && TrimRight(t) == t
    requires TrimLeft(t[1..]) == d && IsDigits(d)
    ensures ParseInt(t) == Signed(t[0], d)
  {
    assert ParseTrimmed(t) == Signed(t[0], d);
  }

  lemma TrimLeftKeeps(s: string)
    requires |s| > 0 && !RegexSpace(s[0])
    ensures TrimLeft(s) == s
  {
  }

  lemma TrimRightKeeps(s: string)
    requires |s| > 0 && !RegexSpace(s[|s| - 1])
    ensures TrimRight(s) == s
  {
  }

  lemma {:induction false} TrimLeftSpaces(pre: string, s: string)
    requires forall j :: 0 <= j < |pre| ==> RegexSpace(pre[j])
    requires |s| > 0 && !RegexSpace(s[0])
    ensures TrimLeft(pre + s) == s
  {
    LeadingBlanksOf(pre, s);
    assert (pre + s)[|pre|..] == s;
  }

  lemma {:induction false} LeadingBlanksOf(pre: string, s: string)
    requires forall j :: 0 <= j < |pre| ==> RegexSpace(pre[j])
    requires |s| > 0 && !RegexSpace(s[0])
    ensures LeadingBlanks(pre + s) == |pre|
    decreases |pre|
  {
    if |pre| > 0 {
      assert (pre + s)[1..] == pre[1..] + s;
      LeadingBlanksOf(pre[1..], s);
    } else {
      assert pre + s == s;
    }
  }

  lemma {:induction false} TrimRightSpaces(s: string, post: string)
    requires forall j :: 0 <= j < |post| ==> RegexSpace(post[j])
    requires |s| > 0 && !RegexSpace(s[|s| - 1])
    ensures TrimRight(s + post) == s
  {
    TrailingBlanksOf(s, post);
    assert (s + post)[..|s|] == s;
  }

  lemma {:induction false} TrailingBlanksOf(s: string, post: string)
    requires forall j :: 0 <= j < |post| ==> RegexSpace(post[j])
    requires |s| > 0 && !RegexSpace(s[|s| - 1])
    ensures TrailingBlanks(s + post) == |post|
    decreases |post|
  {
    if |post| > 0 {
      assert (s + post)[..|s + post| - 1] == s + post[..|post| - 1];
      TrailingBlanksOf(s, post[..|post| - 1]);
    } else {
      assert s + post == s;
    }
  }

  // ------------------------------------------------------------ configuration

  /** The substituted construction variables: `env.subst('$NAME')`, which is
      empty for an unset variable. */
  type Vars = map<string, string>

  function Subst(vars: Vars, name: string): string {
    if name in vars then vars[name] else ""
  }

  /** The four settings an `_Automoc` object keeps between calls. */
  datatype ScanState = ScanState(autoScan: bool, strategy: int, gobbleComments: int, debug: int)

  /** The settings of a fresh `_Automoc` object. */
  const InitialState := ScanState(true, 0, 0, 0)

  /** `init_env_vars`: each setting takes the integer value of its variable;
      a value `int()` rejects keeps the previous setting, and `auto_scan` can
      only be switched off. */
  function InitEnvVars(st: ScanState, vars: Vars): (r: ScanState)
    ensures r.autoScan ==> st.autoScan
    ensures ParseInt(Subst(vars, "QT4_AUTOSCAN")) == Some(0) ==> !r.autoScan
    ensures ParseInt(Subst(vars, "QT4_AUTOSCAN")) != Some(0) ==> r.autoScan == st.autoScan
    ensures ParseInt(Subst(vars, "QT4_AUTOSCAN_STRATEGY")).None? ==> r.strategy == st.strategy
    ensures ParseInt(Subst(vars, "QT4_GOBBLECOMMENTS")).None? ==> r.gobbleComments == st.gobbleComments
    ensures ParseInt(Subst(vars, "QT4_DEBUG")).None? ==> r.debug == st.debug
    ensures var v := ParseInt(Subst(vars, "QT4_AUTOSCAN_STRATEGY"));
            v.Some? ==> r.strategy == v.value
    ensures var v := ParseInt(Subst(vars, "QT4_GOBBLECOMMENTS"));
            v.Some? ==> r.gobbleComments == v.value
    ensures var v := ParseInt(Subst(vars, "QT4_DEBUG"));
            v.Some? ==> r.debug == v.value
  {
    var a := ParseInt(Subst(vars, "QT4_AUTOSCAN"));
    ScanState(
      if a == Some(0) then false else st.autoScan,
      ParseInt(Subst(vars, "QT4_AUTOSCAN_STRATEGY")).GetOr(st.strategy),
      ParseInt(Subst(vars, "QT4_GOBBLECOMMENTS")).GetOr(st.gobbleComments),
      ParseInt(Subst(vars, "QT4_DEBUG")).GetOr(st.debug))
  }

  // ------------------------------------------------------------ headers

  /** `cxx_suffixes`. */
  const CxxSuffixes: seq<string> := [".c", ".cxx", ".cpp", ".cc"]

  /** `header_extensions`, with `.H` last where the host tells `.h` and `.H`
      apart. */
  function HeaderExtensions(caseSensitive: bool): seq<string> {
    [".h", ".hxx", ".hpp", ".hh"] + (if caseSensitive then [".H"] else [])
  }

  /** The files map: a path exists exactly when it is a key. */
  type Files = map<string, string>

  /** The stem `SCons.Util.splitext(cpp.name)[0]`. */
  function BaseStem(cpp: string): string {
    SConsSplitext(Basename(cpp)).0
  }

  /** The same-stem header names in the source's directory, in the order
      they are tried. */
  function HeaderCandidates(cpp: string, caseSensitive: bool): (c: seq<string>)
    ensures |c| == |HeaderExtensions(caseSensitive)|
  {
    var exts := HeaderExtensions(caseSensitive);
    seq(|exts|, k requires 0 <= k < |exts| => PyPath.Join(Dirname(cpp), BaseStem(cpp) + exts[k]))
  }

  /** `find_file` over a list: the index of the first existing path. */
  function FirstExisting(fs: Files, paths: seq<string>): (r: Option<nat>)
    ensures r.Some? ==> r.value < |paths| && paths[r.value] in fs
    ensures r.Some? ==> forall j :: 0 <= j < r.value ==> paths[j] !in fs
    ensures r.None? ==> forall j :: 0 <= j < |paths| ==> paths[j] !in fs
  {
    if |paths| == 0 then None
    else if paths[0] in fs then Some(0)
    else match FirstExisting(fs, paths[1..])
      case None => None
      case Some(j) => Some(j + 1)
  }

  /** `paths[k]` is the first of `paths` that exists. */
  predicate FirstIn(fs: Files, paths: seq<string>, k: int) {
    0 <= k < |paths| && paths[k] in fs && forall j :: 0 <= j < k ==> paths[j] !in fs
  }

  /** The header loop of both strategies: the first candidate that exists. */
  function FindHeader(fs: Files, cpp: string, caseSensitive: bool): (h: Option<string>)
    ensures h.Some? ==> h.value in fs
    ensures h == HeaderCascade(fs, HeaderCandidates(cpp, caseSensitive))
  {
    var c := HeaderCandidates(cpp, caseSensitive);
    FirstPathIsCascade(fs, c);
    FirstPath(fs, c)
  }

  /** The first existing path itself. */
  function FirstPath(fs: Files, paths: seq<string>): (h: Option<string>)
    ensures h.Some? ==> h.value in fs
  {
    match FirstExisting(fs, paths)
    case None => None
    case Some(k) => Some(paths[k])
  }

  lemma FirstPathIsCascade(fs: Files, c: seq<string>)
    requires 4 <= |c| <= 5
    ensures FirstPath(fs, c) == HeaderCascade(fs, c)
  {
    match FirstExisting(fs, c)
    case None =>
    case Some(k) =>
      assert k < 5;
      assert k >= 1 ==> c[0] !in fs;
      assert k >= 2 ==> c[1] !in fs;
      assert k >= 3 ==> c[2] !in fs;
      assert k >= 4 ==> c[3] !in fs;
  }

  /** The same lookup written out extension by extension. */
  function HeaderCascade(fs: Files, c: seq<string>): Option<string>
    requires 4 <= |c| <= 5
  {
    if c[0] in fs then Some(c[0])
    else if c[1] in fs then Some(c[1])
    else if c[2] in fs then Some(c[2])
    else if c[3] in fs then Some(c[3])
    else if |c| == 5 && c[4] in fs then Some(c[4])
    else None
  }

  /** The text the scans see: comments gobbled when `QT4_GOBBLECOMMENTS`
      is non-zero. */
  function Scanned(text: string, gobble: int): string {
    if gobble != 0 then GobbleComments(text) else text
  }

  /** The generated names the include-driven strategy looks for. */
  function HeaderMocName(vars: Vars, cpp: string): string {
    Subst(vars, "QT4_XMOCHPREFIX") + BaseStem(cpp) + Subst(vars, "QT4_XMOCHSUFFIX")
  }

  function SourceMocName(vars: Vars, cpp: string): string {
    Subst(vars, "QT4_XMOCCXXPREFIX") + BaseStem(cpp) + Subst(vars, "QT4_XMOCCXXSUFFIX")
  }

  /** What the scans of both strategies find out about one readable C++
      source. */
  datatype Facts = Facts(
    cpp: string,               // the source
    cxx: bool,                 // its suffix is one of `cxx_suffixes`
    header: Option<string>,    // the same-stem header, if one exists
    headerMarked: bool,        // that header holds the marker
    sourceMarked: bool,        // the source holds the marker
    headerMoc: string,         // the name of the header's moc file
    sourceMoc: string,         // the name of the source's own moc file
    includesHeaderMoc: bool,   // the source includes `headerMoc`
    includesSourceMoc: bool)   // the source includes `sourceMoc`

  /** Runs the scans on `cpp`, with comments gobbled when `gobble` is
      non-zero. */
  function Analyse(gobble: int, vars: Vars, fs: Files, cs: bool, cpp: string): (f: Facts)
    requires cpp in fs
    ensures f.cpp == cpp && f.header == FindHeader(fs, cpp, cs)
    ensures f.cxx <==> SConsSplitext(cpp).1 in CxxSuffixes
    ensures f.headerMarked <==> f.header.Some? && HasMarker(Scanned(fs[f.header.value], gobble))
    ensures f.sourceMarked <==> HasMarker(Scanned(fs[cpp], gobble))
    ensures f.headerMoc == HeaderMocName(vars, cpp) && f.sourceMoc == SourceMocName(vars, cpp)
    ensures f.includesHeaderMoc <==> Includes(Scanned(fs[cpp], gobble), f.headerMoc)
    ensures f.includesSourceMoc <==> Includes(Scanned(fs[cpp], gobble), f.sourceMoc)
  {
    var text := Scanned(fs[cpp], gobble);
    var h := FindHeader(fs, cpp, cs);
    var hMoc := HeaderMocName(vars, cpp);
    var cMoc := SourceMocName(vars, cpp);
    Facts(cpp, SConsSplitext(cpp).1 in CxxSuffixes, h,
          h.Some? && SearchMarker(Scanned(fs[h.value], gobble)),
          SearchMarker(text), hMoc, cMoc,
          SearchInclude(text, hMoc), SearchInclude(text, cMoc))
  }

  // ------------------------------------------------------------ plans

  /** An entry of the object list. */
  datatype Entry =
    | Name(name: string)                          // a plain string; skipped
    | Prebuilt(path: string)                      // a node without a builder
    | Object(path: string, sources: seq<string>)  // a node built from sources
    | MocObject(header: string)                   // the object of a moc'ed header

  datatype MocBuilder = Moc4 | XMoc4

  /** A moc builder call: its source, an explicit target when one is given,
      and whether the result is `Ignore`d. */
  datatype Step = Step(builder: MocBuilder, source: string, target: Option<string>, ignored: bool)

  /** The object list being built and the builder calls registered so far. */
  datatype Plan = Plan(out: seq<Entry>, steps: seq<Step>)

  /** A header was found and holds the marker. */
  predicate HeaderFires(f: Facts) {
    f.header.Some? && f.headerMarked
  }

  /** `__automoc_strategy_simple`: a marked header adds one moc object to the
      list and a `Moc4` step; a marked source adds an ignored `Moc4` step of
      its own and nothing to the list. */
  function Simple(f: Facts, p: Plan): (r: Plan)
    ensures p.out <= r.out && p.steps <= r.steps
    ensures HeaderFires(f) ==> r.out == p.out + [MocObject(f.header.value)]
    ensures !HeaderFires(f) ==> r.out == p.out
    ensures |r.steps| == |p.steps| + (if HeaderFires(f) then 1 else 0) + (if f.sourceMarked then 1 else 0)
    ensures HeaderFires(f) ==> r.steps[|p.steps|] == Step(Moc4, f.header.value, None, false)
    ensures f.sourceMarked ==> r.steps[|r.steps| - 1] == Step(Moc4, f.cpp, None, true)
  {
    var p1 :=
      if HeaderFires(f) then
        Plan(p.out + [MocObject(f.header.value)], p.steps + [Step(Moc4, f.header.value, None, false)])
      else p;
    if f.sourceMarked then Plan(p1.out, p1.steps + [Step(Moc4, f.cpp, None, true)])
    else p1
  }

  /** The first entry built from `name`: its first source renders as `name`. */
  predicate BuiltFrom(e: Entry, name: string) {
    e.Object? && |e.sources| > 0 && e.sources[0] == name
  }

  /** `out[i]` is the first entry built from `name`. */
  predicate FirstBuiltAt(out: seq<Entry>, name: string, i: int) {
    0 <= i < |out| && BuiltFrom(out[i], name) && forall j :: 0 <= j < i ==> !BuiltFrom(out[j], name)
  }

  /** The removal loop of the include-driven strategy: the first entry built
      from `name` is dropped, and nothing else changes. */
  function RemoveFirstBuiltFrom(out: seq<Entry>, name: string): (r: seq<Entry>)
    ensures (forall j :: 0 <= j < |out| ==> !BuiltFrom(out[j], name)) ==> r == out
    ensures forall i :: FirstBuiltAt(out, name, i) ==> r == out[..i] + out[i + 1..]
  {
    if |out| == 0 then out
    else if BuiltFrom(out[0], name) then out[1..]
    else
      var rest := RemoveFirstBuiltFrom(out[1..], name);
      forall i | FirstBuiltAt(out, name, i) ensures [out[0]] + rest == out[..i] + out[i + 1..] {
        FirstBuiltShift(out, name, i);
      }
      [out[0]] + rest
  }

  lemma FirstBuiltShift(out: seq<Entry>, name: string, i: int)
    requires FirstBuiltAt(out, name, i) && !BuiltFrom(out[0], name)
    ensures FirstBuiltAt(out[1..], name, i - 1)
    ensures out[..i] + out[i + 1..] == [out[0]] + (out[1..][..i - 1] + out[1..][i..])
  {
    assert out[..i] == [out[0]] + out[1..][..i - 1];
    assert out[i + 1..] == out[1..][i..];
  }

  /** At most one entry goes, and it is the first one built from `name`. */
  lemma RemoveFirstAtMostOne(out: seq<Entry>, name: string)
    ensures var r := RemoveFirstBuiltFrom(out, name);
      r == out || exists i :: FirstBuiltAt(out, name, i) && r == out[..i] + out[i + 1..]
  {
    if exists j :: 0 <= j < |out| && BuiltFrom(out[j], name) {
      var i := FirstBuiltFrom(out, name);
      assert FirstBuiltAt(out, name, i);
    }
  }

  function FirstBuiltFrom(out: seq<Entry>, name: string): (i: nat)
    requires exists j :: 0 <= j < |out| && BuiltFrom(out[j], name)
    ensures i < |out| && BuiltFrom(out[i], name)
    ensures forall j :: 0 <= j < i ==> !BuiltFrom(out[j], name)
  {
    if BuiltFrom(out[0], name) then 0
    else
      assert exists j :: 0 <= j < |out[1..]| && BuiltFrom(out[1..][j], name) by {
        var j :| 0 <= j < |out| && BuiltFrom(out[j], name);
        assert out[1..][j - 1] == out[j];
      }
      1 + FirstBuiltFrom(out[1..], name)
  }

  /** The header case fires: the source includes the header's moc file and
      the header holds the marker. */
  predicate HeaderCaseFires(f: Facts) {
    f.includesHeaderMoc && HeaderFires(f)
  }

  /** The source case fires: the source includes its own moc file and holds
      the marker. */
  predicate SourceCaseFires(f: Facts) {
    f.includesSourceMoc && f.sourceMarked
  }

  /** `__automoc_strategy_include_driven`: the header case registers an
      ignored `XMoc4` step and removes the first entry built from the header's
      moc file; the source case registers an ignored `XMoc4` step with the
      source's moc file as target; when neither fires the marker-driven
      strategy runs instead. */
  function IncludeDriven(f: Facts, p: Plan): (r: Plan)
    ensures !f.cxx ==> r == p
    ensures f.cxx && !HeaderCaseFires(f) && !SourceCaseFires(f) ==> r == Simple(f, p)
    ensures f.cxx && HeaderCaseFires(f) ==> r.out == RemoveFirstBuiltFrom(p.out, f.headerMoc)
    ensures !HeaderCaseFires(f) && SourceCaseFires(f) ==> r.out == p.out
    ensures HeaderCaseFires(f) || SourceCaseFires(f) ==>
      p.steps <= r.steps && |r.steps| <= |p.steps| + 2
      && forall j :: |p.steps| <= j < |r.steps| ==> r.steps[j].builder == XMoc4 && r.steps[j].ignored
    ensures f.cxx && SourceCaseFires(f) ==>
      |r.steps| > |p.steps| && r.steps[|r.steps| - 1] == Step(XMoc4, f.cpp, Some(f.sourceMoc), true)
    ensures f.cxx && HeaderCaseFires(f) ==>
      |r.steps| > |p.steps| && r.steps[|p.steps|] == Step(XMoc4, f.header.value, None, true)
    ensures f.cxx && (HeaderCaseFires(f) || SourceCaseFires(f)) ==>
      |r.steps| == |p.steps| + (if HeaderCaseFires(f) then 1 else 0) + (if SourceCaseFires(f) then 1 else 0)
  {
    if !f.cxx then p
    else
      var p1 :=
        if HeaderCaseFires(f) then
          Plan(RemoveFirstBuiltFrom(p.out, f.headerMoc), p.steps + [Step(XMoc4, f.header.value, None, true)])
        else p;
      var p2 :=
        if SourceCaseFires(f) then Plan(p1.out, p1.steps + [Step(XMoc4, f.cpp, Some(f.sourceMoc), true)])
        else p1;
      if HeaderCaseFires(f) || SourceCaseFires(f) then p2
      else Simple(f, p)
  }

  /** The emitter looks at an entry only when it is a node with a builder
      whose first source has a C++ suffix and can be read. A `MocObject`
      given as input renders its first source as a list, which has no C++
      suffix. */
  predicate Scannable(fs: Files, e: Entry) {
    e.Object? && |e.sources| > 0 && SConsSplitext(e.sources[0]).1 in CxxSuffixes && e.sources[0] in fs
  }

  /** One turn of the loop of `__call__` over the original sources. A built
      node without sources fails with `IndexError` at `obj.sources[0]`. */
  function Visit(st: ScanState, vars: Vars, fs: Files, cs: bool, e: Entry, p: Plan): (r: Result<Plan, string>)
    ensures r.Failure? <==> e.Object? && |e.sources| == 0
    ensures r.Success? ==> p.steps <= r.value.steps
    ensures !Scannable(fs, e) && r.Success? ==> r.value == p
    ensures Scannable(fs, e) && st.strategy == 0 ==>
      r == Success(Simple(Analyse(st.gobbleComments, vars, fs, cs, e.sources[0]), p))
    ensures Scannable(fs, e) && st.strategy != 0 ==>
      r == Success(IncludeDriven(Analyse(st.gobbleComments, vars, fs, cs, e.sources[0]), p))
  {
    match e
    case Name(_) => Success(p)
    case Prebuilt(_) => Success(p)
    case MocObject(_) => Success(p)
    case Object(_, sources) =>
      if |sources| == 0 then Failure("IndexError")
      else
        var cpp := sources[0];
        if SConsSplitext(cpp).1 !in CxxSuffixes then Success(p)
        else if cpp !in fs then Success(p)
        else
          var f := Analyse(st.gobbleComments, vars, fs, cs, cpp);
          if st.strategy == 0 then Success(Simple(f, p))
          else Success(IncludeDriven(f, p))
  }

  /** The loop of `__call__` from the `i`-th source on. */
  function VisitFrom(st: ScanState, vars: Vars, fs: Files, cs: bool, source: seq<Entry>, i: nat, p: Plan): (r: Result<Plan, string>)
    requires i <= |source|
    ensures r.Success? ==> p.steps <= r.value.steps
    decreases |source| - i
  {
    if i == |source| then Success(p)
    else
      match Visit(st, vars, fs, cs, source[i], p)
      case Failure(e) => Failure(e)
      case Success(p1) =>
        var r := VisitFrom(st, vars, fs, cs, source, i + 1, p1);
        if r.Success? then
          PrefixTrans(p.steps, p1.steps, r.value.steps);
          r
        else r
  }

  lemma PrefixTrans<T>(a: seq<T>, b: seq<T>, c: seq<T>)
    requires a <= b && b <= c
    ensures a <= c
  {
    assert c[..|a|] == b[..|a|];
  }

  /** `_Automoc.__call__(target, source, env)`: returns the settings kept for
      the next call, the unchanged target, and the planned object list and
      builder calls, which start from a copy of the sources. */
  function Automoc(st: ScanState, vars: Vars, fs: Files, cs: bool, target: seq<string>, source: seq<Entry>)
    : (r: Result<(ScanState, seq<string>, Plan), string>)
    ensures r.Success? ==> r.value.0 == InitEnvVars(st, vars) && r.value.1 == target
    ensures r.Failure? <==> BareObjectFrom(source, 0)
  {
    match Loop(st, vars, fs, cs, source)
    case Failure(e) => Failure(e)
    case Success(p) => Success((InitEnvVars(st, vars), target, p))
  }

  /** Some built node from the `i`-th source on has no sources. */
  predicate BareObjectFrom(source: seq<Entry>, i: nat) {
    exists j :: i <= j < |source| && source[j].Object? && |source[j].sources| == 0
  }

  /** The whole loop, under the settings `init_env_vars` read, starting
      from a copy of the sources. */
  function Loop(st: ScanState, vars: Vars, fs: Files, cs: bool, source: seq<Entry>): (v: Result<Plan, string>)
    ensures v.Failure? <==> BareObjectFrom(source, 0)
  {
    FailsIffEmptySources(InitEnvVars(st, vars), vars, fs, cs, source, 0, Plan(source, []));
    VisitFrom(InitEnvVars(st, vars), vars, fs, cs, source, 0, Plan(source, []))
  }

  lemma AutomocUnfold(st: ScanState, vars: Vars, fs: Files, cs: bool, target: seq<string>, source: seq<Entry>)
    ensures var v := VisitFrom(InitEnvVars(st, vars), vars, fs, cs, source, 0, Plan(source, []));
      var r := Automoc(st, vars, fs, cs, target, source);
      r.Success? == v.Success? && (r.Success? ==> r.value.2 == v.value)
  {
  }

  lemma {:induction false} FailsIffEmptySources(st: ScanState, vars: Vars, fs: Files, cs: bool, source: seq<Entry>, i: nat, p: Plan)
    requires i <= |source|
    ensures VisitFrom(st, vars, fs, cs, source, i, p).Failure?
      <==> BareObjectFrom(source, i)
    decreases |source| - i
  {
    if i < |source| {
      assert BareObjectFrom(source, i) <==>
        (source[i].Object? && |source[i].sources| == 0) || BareObjectFrom(source, i + 1);
      match Visit(st, vars, fs, cs, source[i], p)
      case Failure(_) =>
      case Success(p1) => FailsIffEmptySources(st, vars, fs, cs, source, i + 1, p1);
    }
  }

  // ------------------------------------------------------------ properties

  /** One turn with strategy 0 appends at most one entry, a moc object. */
  lemma VisitSimpleAppends(st: ScanState, vars: Vars, fs: Files, cs: bool, e: Entry, p: Plan)
    requires st.strategy == 0
    ensures var v := Visit(st, vars, fs, cs, e, p);
      v.Success? ==> (p.out <= v.value.out && |v.value.out| <= |p.out| + 1
        && forall j :: |p.out| <= j < |v.value.out| ==> v.value.out[j].MocObject?)
  {
    if Scannable(fs, e) {
      SimpleOutAppends(Analyse(st.gobbleComments, vars, fs, cs, e.sources[0]), p);
    }
  }

  lemma SimpleOutAppends(f: Facts, p: Plan)
    ensures var q := Simple(f, p);
      p.out <= q.out && |q.out| <= |p.out| + 1
      && forall j :: |p.out| <= j < |q.out| ==> q.out[j].MocObject?
  {
    var q := Simple(f, p);
    if HeaderFires(f) {
      assert forall j :: |p.out| <= j < |q.out| ==> q.out[j] == MocObject(f.header.value);
    }
  }

  lemma {:induction false} SimpleOnlyAppends(st: ScanState, vars: Vars, fs: Files, cs: bool, source: seq<Entry>, i: nat, p: Plan, base: seq<Entry>)
    requires st.strategy == 0 && i <= |source|
    requires base <= p.out && |p.out| <= |base| + i
    requires forall j :: |base| <= j < |p.out| ==> p.out[j].MocObject?
    ensures var r := VisitFrom(st, vars, fs, cs, source, i, p);
      r.Success? ==> (base <= r.value.out && |r.value.out| <= |base| + |source|
        && forall j :: |base| <= j < |r.value.out| ==> r.value.out[j].MocObject?)
    decreases |source| - i
  {
    if i < |source| {
      var v := Visit(st, vars, fs, cs, source[i], p);
      VisitSimpleAppends(st, vars, fs, cs, source[i], p);
      if v.Success? {
        var p1 := v.value;
        assert forall j :: |base| <= j < |p.out| ==> p1.out[j] == p.out[j];
        SimpleOnlyAppends(st, vars, fs, cs, source, i + 1, p1, base);
      }
    }
  }

  /** `__call__` with strategy 0 keeps the sources as a prefix of the result
      and appends moc objects only, at most one per source. */
  lemma AutomocSimpleAppends(st: ScanState, vars: Vars, fs: Files, cs: bool, target: seq<string>, source: seq<Entry>)
    requires InitEnvVars(st, vars).strategy == 0
    ensures var r := Automoc(st, vars, fs, cs, target, source);
      r.Success? ==> (source <= r.value.2.out && |r.value.2.out| <= 2 * |source|
        && forall j :: |source| <= j < |r.value.2.out| ==> r.value.2.out[j].MocObject?)
  {
    SimpleOnlyAppends(InitEnvVars(st, vars), vars, fs, cs, source, 0, Plan(source, []), source);
  }

  /** No file whose scanned text holds the marker. */
  ghost predicate Unmarked(fs: Files, gobble: int) {
    forall path :: path in fs ==> !HasMarker(Scanned(fs[path], gobble))
  }

  lemma VisitUnmarked(st: ScanState, vars: Vars, fs: Files, cs: bool, e: Entry, p: Plan)
    requires Unmarked(fs, st.gobbleComments)
    ensures Visit(st, vars, fs, cs, e, p).Success? ==> Visit(st, vars, fs, cs, e, p) == Success(p)
  {
    if Scannable(fs, e) {
      var cpp := e.sources[0];
      var f := Analyse(st.gobbleComments, vars, fs, cs, cpp);
      assert !f.sourceMarked;
      assert !f.headerMarked by {
        if f.header.Some? { assert f.header.value in fs; }
      }
      assert Simple(f, p) == p;
      assert IncludeDriven(f, p) == p;
    }
  }

  lemma {:induction false} VisitFromUnmarked(st: ScanState, vars: Vars, fs: Files, cs: bool, source: seq<Entry>, i: nat, p: Plan)
    requires Unmarked(fs, st.gobbleComments) && i <= |source|
    ensures VisitFrom(st, vars, fs, cs, source, i, p).Success? ==> VisitFrom(st, vars, fs, cs, source, i, p) == Success(p)
    decreases |source| - i
  {
    if i < |source| {
      VisitUnmarked(st, vars, fs, cs, source[i], p);
      VisitFromUnmarked(st, vars, fs, cs, source, i + 1, p);
    }
  }

  /** Without the marker in any file, whatever the strategy, no moc step is
      registered and the object list is the copy of the sources. */
  lemma AutomocUnmarked(st: ScanState, vars: Vars, fs: Files, cs: bool, target: seq<string>, source: seq<Entry>)
    requires Unmarked(fs, InitEnvVars(st, vars).gobbleComments)
    ensures var r := Automoc(st, vars, fs, cs, target, source);
      r.Success? ==> r.value.2 == Plan(source, [])
  {
    VisitFromUnmarked(InitEnvVars(st, vars), vars, fs, cs, source, 0, Plan(source, []));
  }

  lemma {:induction false} VisitFromIgnoresFlags(st: ScanState, st2: ScanState, vars: Vars, fs: Files, cs: bool, source: seq<Entry>, i: nat, p: Plan)
    requires st2.strategy == st.strategy && st2.gobbleComments == st.gobbleComments
    requires i <= |source|
    ensures VisitFrom(st, vars, fs, cs, source, i, p) == VisitFrom(st2, vars, fs, cs, source, i, p)
    decreases |source| - i
  {
    if i < |source| {
      assert Visit(st, vars, fs, cs, source[i], p) == Visit(st2, vars, fs, cs, source[i], p);
      match Visit(st, vars, fs, cs, source[i], p)
      case Failure(_) =>
      case Success(p1) => VisitFromIgnoresFlags(st, st2, vars, fs, cs, source, i + 1, p1);
    }
  }

  /** `auto_scan` and `debug` are read from the environment but never
      consulted: the plan does not depend on them. */
  lemma AutomocIgnoresAutoScan(st: ScanState, vars: Vars, fs: Files, cs: bool, target: seq<string>, source: seq<Entry>, autoScan: bool, debug: int)
    ensures var a := Automoc(st, vars, fs, cs, target, source);
      var b := Automoc(st.(autoScan := autoScan, debug := debug), vars, fs, cs, target, source);
      a.Success? == b.Success? && (a.Success? ==> a.value.2 == b.value.2)
  {
    var s1 := InitEnvVars(st, vars);
    var s2 := InitEnvVars(st.(autoScan := autoScan, debug := debug), vars);
    InitEnvVarsKeepsStrategy(st, vars, autoScan, debug);
    VisitFromIgnoresFlags(s1, s2, vars, fs, cs, source, 0, Plan(source, []));
    AutomocUnfold(st, vars, fs, cs, target, source);
    AutomocUnfold(st.(autoScan := autoScan, debug := debug), vars, fs, cs, target, source);
  }

  lemma InitEnvVarsKeepsStrategy(st: ScanState, vars: Vars, autoScan: bool, debug: int)
    ensures InitEnvVars(st.(autoScan := autoScan, debug := debug), vars).strategy == InitEnvVars(st, vars).strategy
    ensures InitEnvVars(st.(autoScan := autoScan, debug := debug), vars).gobbleComments == InitEnvVars(st, vars).gobbleComments
  {
  }
}
