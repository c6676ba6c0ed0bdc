/** POSIX path handling as the tools use it: `os.path.basename`, `dirname`,
    `split`, `join`, `splitext`, SCons' own `splitext` and `pathlib`'s
    `suffix`. The separator is always '/'. */
module PyPath {
  import opened Wrappers
  import opened PyStr

  /** `s.rfind(c)`: the index of the last `c`. */
  function RFind(s: string, c: char): (r: Option<nat>)
    ensures r.Some? ==> r.value < |s| && s[r.value] == c
    ensures r.Some? ==> forall j :: r.value < j < |s| ==> s[j] != c
    ensures r.None? ==> forall j :: 0 <= j < |s| ==> s[j] != c
  {
    if |s| == 0 then None
    else if s[|s| - 1] == c then Some(|s| - 1)
    else RFind(s[..|s| - 1], c)
  }

  /** Where the last path component starts: one past the last '/', or 0. */
  function TailStart(p: string): (k: nat)
    ensures k <= |p|
    ensures forall j :: k <= j < |p| ==> p[j] != '/'
    ensures k > 0 ==> p[k - 1] == '/'
  {
    match RFind(p, '/')
    case None => 0
    case Some(i) => i + 1
  }

  /** `os.path.basename(p)`. */
  function Basename(p: string): (r: string)
    ensures '/' !in r
    ensures EndsWith(p, r)
    ensures |r| < |p| ==> p[|p| - |r| - 1] == '/'
  {
    p[TailStart(p)..]
  }

  /** A name without '/' is its own last component. */
  lemma BasenameOfName(p: string)
    requires '/' !in p
    ensures Basename(p) == p
  {
    var r := Basename(p);
    assert p[|p| - |r|..] == r;
  }

  predicate AllSlashes(s: string) {
    forall j :: 0 <= j < |s| ==> s[j] == '/'
  }

  function RStripSlashes(s: string): (r: string)
    ensures |r| <= |s| && r == s[..|r|]
    ensures |r| > 0 ==> r[|r| - 1] != '/'
    ensures forall j :: |r| <= j < |s| ==> s[j] == '/'
  {
    if |s| > 0 && s[|s| - 1] == '/' then RStripSlashes(s[..|s| - 1]) else s
  }

  /** `os.path.dirname(p)`, which is also the head of `os.path.split(p)`:
      everything before the last component, trailing slashes removed unless
      the head is made of slashes only. */
  function Dirname(p: string): (r: string)
    ensures r == "" <==> '/' !in p
    ensures |r| <= |p| && r == p[..|r|]
  {
    var head := p[..TailStart(p)];
    assert TailStart(p) > 0 ==> head[|head| - 1] == '/';
    if |head| > 0 && !AllSlashes(head) then
      RStripSlashes(head)
    else head
  }

  /** `os.path.join(a, b)`: an absolute `b` replaces `a`; otherwise a single
      '/' is put between them unless `a` is empty or already ends in one. */
  function Join(a: string, b: string): string {
    if StartsWith(b, "/") then b
    else if a == "" || EndsWith(a, "/") then a + b
    else a + "/" + b
  }

  /** `os.path.join(a, b, c)`. */
  function Join3(a: string, b: string, c: string): string {
    Join(Join(a, b), c)
  }

  /** Joining never changes the last component. */
  lemma BasenameJoin(a: string, b: string)
    ensures Basename(Join(a, b)) == Basename(b)
  {
    var j := Join(a, b);
    if !StartsWith(b, "/") {
      var pre := j[..|j| - |b|];
      assert j == pre + b;
      assert pre == "" || pre[|pre| - 1] == '/';
      var tb := TailStart(b);
      var tj := TailStart(j);
      if tb > 0 {
        assert j[|pre| + tb - 1] == b[tb - 1];
      } else if |pre| > 0 {
        assert j[|pre| - 1] == '/';
      }
      assert tj == |pre| + tb;
    }
  }

  /** Joining a directory that does not end in '/' with a bare file name
      gives a path whose directory is that directory. */
  lemma DirnameJoin(a: string, b: string)
    requires a != "" && !EndsWith(a, "/") && '/' !in b
    ensures Dirname(Join(a, b)) == a
    ensures Basename(Join(a, b)) == b
  {
    var j := Join(a, b);
    assert !StartsWith(b, "/");
    assert j == a + "/" + b;
    assert a[|a| - 1] != '/';
    assert TailStart(j) == |a| + 1 by {
      assert j[|a|] == '/';
      forall k | |a| < k < |j| ensures j[k] != '/' {
        assert j[k] == b[k - |a| - 1];
      }
    }
    var head := j[..|a| + 1];
    assert head == a + "/";
    assert !AllSlashes(head) by {
      assert head[|a| - 1] == a[|a| - 1];
    }
    assert RStripSlashes(head) == RStripSlashes(a);
    assert RStripSlashes(a) == a;
    BasenameJoin(a, b);
    assert Basename(b) == b;
  }

  /** True when some character of `s` is not a dot. */
  predicate HasNonDot(s: string) {
    exists j :: 0 <= j < |s| && s[j] != '.'
  }

  /** A file name `stem.ext` whose stem is not empty and neither part holds
      a dot or a slash splits at that dot. */
  lemma SplitextName(stem: string, ext: string)
    requires stem != "" && '.' !in stem && '/' !in stem
    requires '.' !in ext && '/' !in ext
    ensures Splitext(stem + "." + ext) == (stem, "." + ext)
  {
    var p := stem + "." + ext;
    var d := |stem|;
    assert p[d] == '.';
    assert forall j :: d < j < |p| ==> p[j] == ext[j - d - 1];
    assert RFind(p, '.') == Some(d);
    assert forall j :: 0 <= j < |p| ==> p[j] != '/' by {
      forall j | 0 <= j < |p| ensures p[j] != '/' {
        if j < d {
          assert p[j] == stem[j];
        }
      }
    }
    assert TailStart(p) == 0;
    assert p[0..d] == stem;
    assert stem[0] != '.';
    assert HasNonDot(p[0..d]);
    assert p[..d] == stem;
    assert p[d..] == "." + ext;
  }

  /** `os.path.splitext(p)`: the extension starts at the last dot of the last
      component, provided something other than dots precedes it there. */
  function Splitext(p: string): (r: (string, string))
    ensures r.0 + r.1 == p
    ensures r.1 == "" || (r.1[0] == '.' && '/' !in r.1 && '.' !in r.1[1..])
  {
    var sep := TailStart(p);
    match RFind(p, '.')
    case None => (p, "")
    case Some(d) =>
      if d >= sep && HasNonDot(p[sep..d]) then
        assert p[..d] + p[d..] == p;
        assert forall j :: 0 <= j < |p[d..]| ==> p[d..][j] == p[d + j];
        (p[..d], p[d..])
      else (p, "")
  }

  /** A name without '/' has no directory part. */
  lemma DirnameOfName(p: string)
    requires '/' !in p
    ensures Dirname(p) == ""
  {
  }

  /** A name without a dot has no extension. */
  lemma SplitextNoDot(p: string)
    requires '.' !in p
    ensures Splitext(p) == (p, "")
  {
    assert RFind(p, '.').None?;
  }

  /** Python's `str.isdigit()` over ASCII: non-empty and all digits. */
  predicate IsDigits(s: string) {
    |s| > 0 && forall j :: 0 <= j < |s| ==> IsDigit(s[j])
  }

  /** `SCons.Util.splitext(p)`: the last dot of the last component starts the
      extension unless everything after that dot is a digit. */
  function SConsSplitext(p: string): (r: (string, string))
    ensures r.0 + r.1 == p
    ensures r.1 == "" || (r.1[0] == '.' && '/' !in r.1 && '.' !in r.1[1..])
    ensures r.1 != "" ==> !IsDigits(r.1[1..])
  {
    var sep := TailStart(p);
    match RFind(p, '.')
    case None => (p, "")
    case Some(d) =>
      if d >= sep && !IsDigits(p[d + 1..]) then
        assert p[..d] + p[d..] == p;
        assert p[d..][1..] == p[d + 1..];
        assert forall j :: 0 <= j < |p[d..]| ==> p[d..][j] == p[d + j];
        (p[..d], p[d..])
      else (p, "")
  }

  /** A name after a '/' is the last component. */
  lemma BasenameAfterSlash(dir: string, name: string)
    requires '/' !in name
    ensures TailStart(dir + "/" + name) == |dir| + 1
    ensures Basename(dir + "/" + name) == name
  {
    var p := dir + "/" + name;
    assert p[|dir|] == '/';
    forall j | |dir| < j < |p| ensures p[j] != '/' {
      assert p[j] == name[j - |dir| - 1];
    }
    assert p[|dir| + 1..] == name;
  }

  /** `SCons.Util.splitext` of `dir/stem.ext`, for a dotless stem and an
      extension that is not all digits, cuts at that dot. */
  lemma SConsSplitextName(dir: string, stem: string, ext: string)
    requires '/' !in stem && '.' !in stem
    requires '/' !in ext && '.' !in ext && !IsDigits(ext)
    ensures SConsSplitext(dir + "/" + stem + "." + ext).0 == dir + "/" + stem
  {
    var name := stem + "." + ext;
    var pre := dir + "/";
    var t := pre + name;
    assert dir + "/" + stem + "." + ext == t;
    LastDotOfName(stem, ext);
    var d := |pre| + |stem|;
    DotAfterPrefix(pre, name, |stem|);
    RFindLast(t, '.', d);
    BasenameAfterSlash(dir, name);
    SConsSplitextAt(t, d);
  }

  /** In `stem.ext`, with no dot in either part, the dot sits right after
      the stem. */
  lemma LastDotOfName(stem: string, ext: string)
    requires '.' !in stem && '.' !in ext
    ensures var name := stem + "." + ext;
            name[|stem|] == '.' && (forall j :: |stem| < j < |name| ==> name[j] != '.') &&
            name[..|stem|] == stem && name[|stem| + 1..] == ext
  {
    var name := stem + "." + ext;
    assert forall j :: |stem| < j < |name| ==> name[j] == ext[j - |stem| - 1];
  }

  /** A prefix shifts the position of the last dot and keeps what is around it. */
  lemma DotAfterPrefix(pre: string, name: string, k: nat)
    requires k < |name| && name[k] == '.' && forall j :: k < j < |name| ==> name[j] != '.'
    ensures var t := pre + name;
            var d := |pre| + k;
            t[d] == '.' && (forall j :: d < j < |t| ==> t[j] != '.') &&
            t[d + 1..] == name[k + 1..] && t[..d] == pre + name[..k]
  {
    var t := pre + name;
    assert forall j :: |pre| <= j < |t| ==> t[j] == name[j - |pre|];
  }

  /** The last `c` of `s` is at `d`. */
  lemma RFindLast(s: string, c: char, d: nat)
    requires d < |s| && s[d] == c && forall j :: d < j < |s| ==> s[j] != c
    ensures RFind(s, c).Some? && RFind(s, c).value == d
  {
  }

  lemma SConsSplitextAt(p: string, d: nat)
    requires RFind(p, '.').Some? && RFind(p, '.').value == d
    requires d >= TailStart(p) && !IsDigits(p[d + 1..])
    ensures SConsSplitext(p).0 == p[..d]
  {
  }

  lemma EndsWithTail(s: string, t: string, i: nat)
    requires EndsWith(s, t) && i <= |t|
    ensures EndsWith(s, t[i..])
  {
    assert s[|s| - |t[i..]|..] == s[|s| - |t|..][i..];
  }

  /** `pathlib.PurePath(p).suffix`: from the last dot of the final component,
      provided that dot is neither its first nor its last character. */
  function PathSuffix(p: string): (r: string)
    ensures r == "" || (|r| >= 2 && r[0] == '.' && '.' !in r[1..] && '/' !in r)
    ensures r != "" ==> EndsWith(RStripSlashes(p), r)
  {
    var stripped := RStripSlashes(p);
    var name := Basename(stripped);
    match RFind(name, '.')
    case None => ""
    case Some(i) =>
      if 0 < i < |name| - 1 then
        assert forall j :: 0 <= j < |name[i..]| ==> name[i..][j] == name[i + j];
        EndsWithTail(stripped, name, i);
        name[i..]
      else ""
  }
}
