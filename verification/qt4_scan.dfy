/** The three text scans of the Qt4 automoc emitter, written as explicit
    string predicates in place of its regular expressions: the `Q_OBJECT`
    marker search, the C and C++ comment removal, and the detection of
    `#include "<name>"` lines. */
module Qt4Scan {
  import opened Wrappers
  import opened PyStr

  /** `qo_search` matches at `i`: `Q_OBJECT` starts at `i`, with a character
      outside [A-Za-z0-9] right before and right after it. */
  predicate MarkerAt(s: string, i: int) {
    1 <= i && i + 8 < |s| && s[i..i + 8] == "Q_OBJECT"
    && !IsAlnum(s[i - 1]) && !IsAlnum(s[i + 8])
  }

  /** The declarative reading of `qo_search.search(s)`. */
  ghost predicate HasMarker(s: string) {
    exists i :: MarkerAt(s, i)
  }

  /** The left-to-right search from index `i`. */
  function MarkerFrom(s: string, i: nat): (r: bool)
    decreases |s| - i
    ensures r <==> exists j :: i <= j && MarkerAt(s, j)
  {
    if i + 8 >= |s| then false
    else MarkerAt(s, i) || MarkerFrom(s, i + 1)
  }

  /** `qo_search.search(s)` as a search, which agrees with `HasMarker`. */
  function SearchMarker(s: string): (r: bool)
    ensures r <==> HasMarker(s)
  {
    MarkerFrom(s, 1)
  }

  /** The boundary characters are required: a marker at the very start or
      the very end of the text is not found, while the same marker with any
      non-alphanumeric character around it is. */
  lemma MarkerAtEdgesMissed()
    ensures !HasMarker("Q_OBJECT\n")
    ensures !HasMarker("\nQ_OBJECT")
    ensures !HasMarker("xQ_OBJECT ")
    ensures HasMarker(" Q_OBJECT\n")
    ensures HasMarker("_Q_OBJECT_")
  {
    assert MarkerAt(" Q_OBJECT\n", 1);
    assert MarkerAt("_Q_OBJECT_", 1);
  }

  // ---------------------------------------------------------------- comments

  /** The number of newlines in `s`. */
  function Newlines(s: string): nat {
    if |s| == 0 then 0 else (if s[|s| - 1] == '\n' then 1 else 0) + Newlines(s[..|s| - 1])
  }

  lemma {:induction false} NewlinesAppend(a: string, b: string)
    ensures Newlines(a + b) == Newlines(a) + Newlines(b)
    decreases |b|
  {
    if |b| == 0 {
      assert a + b == a;
    } else {
      assert (a + b)[..|a + b| - 1] == a + b[..|b| - 1];
      NewlinesAppend(a, b[..|b| - 1]);
    }
  }

  lemma {:induction false} NewlinesNone(s: string)
    requires forall j :: 0 <= j < |s| ==> s[j] != '\n'
    ensures Newlines(s) == 0
    decreases |s|
  {
    if |s| > 0 {
      NewlinesNone(s[..|s| - 1]);
    }
  }

  // Where the lazy `(.*?)\*\/` part of `ccomment` ends when the comment
  // body starts at `j`: the first `*/` at or after `j`, provided no
  // newline comes before it (`.` does not match a newline).
  function CloseFrom(s: string, j: nat): (r: Option<nat>)
    decreases |s| - j
    ensures r.Some? ==> j <= r.value && OccursAt(s, r.value, "*/")
    ensures r.Some? ==> forall m :: j <= m < r.value ==> s[m] != '\n'
    ensures r.Some? ==> forall m :: j <= m < r.value ==> !OccursAt(s, m, "*/")
  {
    if j + 2 > |s| then None
    else if s[j] == '*' && s[j + 1] == '/' then Some(j)
    else if s[j] == '\n' then None
    else
      assert s[j..j + 2] == [s[j], s[j + 1]];
      CloseFrom(s, j + 1)
  }

  // `ccomment.sub('', s)`: every single-line `/* ... */`, taken leftmost
  // first and without overlap, is deleted.
  function StripBlockComments(s: string): (r: string)
    decreases |s|
    ensures |r| <= |s|
    ensures !Contains(s, "/*") ==> r == s
  {
    if |s| < 2 then s
    else if s[0] == '/' && s[1] == '*' then
      match CloseFrom(s, 2)
      case Some(k) => StripBlockComments(s[k + 2..])
      case None => NoOpenAfterFirst(s); [s[0]] + StripBlockComments(s[1..])
    else NoOpenAfterFirst(s); [s[0]] + StripBlockComments(s[1..])
  }

  lemma NoOpenAfterFirst(s: string)
    requires |s| > 0
    ensures !Contains(s, "/*") ==> !Contains(s[1..], "/*")
  {
    if !Contains(s, "/*") && Contains(s[1..], "/*") {
      var j := Find(s[1..], "/*").value;
      assert s[1..][j..j + 2] == s[j + 1..j + 3];
      assert OccursAt(s, j + 1, "/*");
    }
  }

  /** Removing block comments never removes a line break, so every line
      keeps its number. */
  lemma {:induction false} StripBlockKeepsLines(s: string)
    ensures Newlines(StripBlockComments(s)) == Newlines(s)
    decreases |s|
  {
    if |s| >= 2 {
      StripBlockUnfold(s);
      if s[0] == '/' && s[1] == '*' && CloseFrom(s, 2).Some? {
        var k := CloseFrom(s, 2).value;
        StripBlockKeepsLines(s[k + 2..]);
        DropLineless(s, k + 2);
      } else {
        StripBlockKeepsLines(s[1..]);
        ConsLines(s[0], s[1..]);
        ConsLines(s[0], StripBlockComments(s[1..]));
      }
    }
  }

  /** One step of `StripBlockComments`: a comment at the front is skipped as
      a whole, anything else keeps its first character. */
  lemma StripBlockUnfold(s: string)
    requires |s| >= 2
    ensures s[0] == '/' && s[1] == '*' && CloseFrom(s, 2).Some? ==>
      var k := CloseFrom(s, 2).value;
      && k + 2 <= |s|
      && (forall m :: 0 <= m < k + 2 ==> s[m] != '\n')
      && StripBlockComments(s) == StripBlockComments(s[k + 2..])
    ensures !(s[0] == '/' && s[1] == '*' && CloseFrom(s, 2).Some?) ==>
      s == [s[0]] + s[1..] && StripBlockComments(s) == [s[0]] + StripBlockComments(s[1..])
  {
    if s[0] == '/' && s[1] == '*' && CloseFrom(s, 2).Some? {
      StripBlockSkip(s);
    } else {
      StripBlockKeep(s);
    }
  }

  lemma StripBlockSkip(s: string)
    requires |s| >= 2 && s[0] == '/' && s[1] == '*' && CloseFrom(s, 2).Some?
    ensures var k := CloseFrom(s, 2).value;
      && k + 2 <= |s|
      && (forall m :: 0 <= m < k + 2 ==> s[m] != '\n')
      && StripBlockComments(s) == StripBlockComments(s[k + 2..])
  {
    CommentLineless(s);
    StripBlockSkipStep(s);
  }

  lemma CommentLineless(s: string)
    requires |s| >= 2 && s[0] == '/' && s[1] == '*' && CloseFrom(s, 2).Some?
    ensures var k := CloseFrom(s, 2).value;
      && k + 2 <= |s|
      && (forall m :: 0 <= m < k + 2 ==> s[m] != '\n')
  {
    var k := CloseFrom(s, 2).value;
    assert OccursAt(s, k, "*/");
    assert s[k] == s[k..k + 2][0] == '*';
    assert s[k + 1] == s[k..k + 2][1] == '/';
  }

  lemma StripBlockSkipStep(s: string)
    requires |s| >= 2 && s[0] == '/' && s[1] == '*' && CloseFrom(s, 2).Some?
    ensures CloseFrom(s, 2).value + 2 <= |s|
    ensures StripBlockComments(s) == StripBlockComments(s[CloseFrom(s, 2).value + 2..])
  {
  }

  lemma StripBlockKeep(s: string)
    requires |s| >= 2 && !(s[0] == '/' && s[1] == '*' && CloseFrom(s, 2).Some?)
    ensures s == [s[0]] + s[1..] && StripBlockComments(s) == [s[0]] + StripBlockComments(s[1..])
  {
  }

  lemma ConsLines(c: char, t: string)
    ensures Newlines([c] + t) == (if c == '\n' then 1 else 0) + Newlines(t)
  {
    NewlinesAppend([c], t);
    assert [c][..0] == "";
  }

  lemma DropLineless(s: string, n: nat)
    requires n <= |s| && forall m :: 0 <= m < n ==> s[m] != '\n'
    ensures Newlines(s) == Newlines(s[n..])
  {
    assert s == s[..n] + s[n..];
    NewlinesAppend(s[..n], s[n..]);
    NewlinesNone(s[..n]);
  }

  /** Removal is not idempotent: deleting one comment can join a `/` and a
      `*` into the opening of another. */
  lemma StripBlockNotIdempotent()
    ensures StripBlockComments("//**/**/") == "/**/"
    ensures StripBlockComments("/**/") == ""
  {
    var t := "/**/**/";
    assert CloseFrom(t, 2) == Some(2);
    assert t[4..] == "**/";
    assert StripBlockComments("/") == "/";
    assert StripBlockComments("*/") == "*/";
    assert StripBlockComments("**/") == "**/";
    assert StripBlockComments(t) == "**/";
    assert "//**/**/"[1..] == t;
    assert CloseFrom("/**/", 2) == Some(2);
    assert "/**/"[4..] == "";
  }

  /** The text `cxxcomment` looks at: `$` without MULTILINE matches only at
      the end or just before a final newline, so the last line is the one
      before that newline. */
  function Body(s: string): (b: string)
    ensures StartsWith(s, b) && |s| - 1 <= |b| <= |s|
  {
    if |s| > 0 && s[|s| - 1] == '\n' then s[..|s| - 1] else s
  }

  /** The final newline that `$` leaves in place, if any. */
  function FinalNewline(s: string): (t: string)
    ensures Body(s) + t == s
  {
    if |s| > 0 && s[|s| - 1] == '\n' then "\n" else ""
  }

  /** `cxxcomment` matches at `i`: `//` starts there and no newline follows
      it except the final one. */
  predicate LineCommentAt(s: string, i: int) {
    OccursAt(Body(s), i, "//") && forall j :: i <= j < |Body(s)| ==> Body(s)[j] != '\n'
  }

  /** Where the last line of `Body(s)` starts. */
  function LastLineStart(b: string): (k: nat)
    ensures k <= |b|
    ensures forall j :: k <= j < |b| ==> b[j] != '\n'
    ensures k > 0 ==> b[k - 1] == '\n'
  {
    if |b| == 0 then 0
    else if b[|b| - 1] == '\n' then |b|
    else LastLineStart(b[..|b| - 1])
  }

  /** `cxxcomment.sub('', s)`: the first `//` on the last line and the rest
      of that line are deleted; a final newline stays. Earlier lines are
      never touched. */
  function StripLineComment(s: string): (r: string)
    ensures (forall i :: !LineCommentAt(s, i)) ==> r == s
    ensures forall i :: LineCommentAt(s, i) && (forall j :: 0 <= j < i ==> !LineCommentAt(s, j))
              ==> r == s[..i] + FinalNewline(s)
    ensures Newlines(r) == Newlines(s)
  {
    if HasLineComment(s) then
      FoundFirstLineComment(s);
      CutLineComment(s)
    else
      NotFoundNoLineComment(s);
      s
  }

  /** The last line of the body holds `//`. */
  predicate HasLineComment(s: string) {
    Find(Body(s)[LastLineStart(Body(s))..], "//").Some?
  }

  /** Where the first `//` of the last line starts. */
  function LineCommentStart(s: string): (i: nat)
    requires HasLineComment(s)
    ensures LastLineStart(Body(s)) <= i && i + 2 <= |Body(s)|
  {
    LastLineStart(Body(s)) + Find(Body(s)[LastLineStart(Body(s))..], "//").value
  }

  /** The cut when the last line holds `//`: everything from the first one
      on that line up to the final newline goes. */
  function CutLineComment(s: string): (r: string)
    requires HasLineComment(s)
    ensures forall i :: LineCommentAt(s, i) && (forall j :: 0 <= j < i ==> !LineCommentAt(s, j))
              ==> r == s[..i] + FinalNewline(s)
    ensures Newlines(r) == Newlines(s)
  {
    FoundFirstLineComment(s);
    FoundCutLines(s);
    Body(s)[..LineCommentStart(s)] + FinalNewline(s)
  }

  lemma FoundCutLines(s: string)
    requires HasLineComment(s)
    ensures var i0 := LineCommentStart(s);
      && i0 <= |s|
      && s[..i0] == Body(s)[..i0]
      && Newlines(Body(s)[..i0] + FinalNewline(s)) == Newlines(s)
  {
    var i0 := LineCommentStart(s);
    var b := Body(s);
    assert forall j :: i0 <= j < |b| ==> b[j] != '\n';
    NewlinesCut(b, i0, FinalNewline(s));
    BodyPrefix(s, i0);
  }

  lemma BodyPrefix(s: string, i: nat)
    requires i <= |Body(s)|
    ensures s[..i] == Body(s)[..i]
  {
    var b := Body(s);
    assert s[..|b|] == b;
    assert s[..i] == s[..|b|][..i];
  }

  lemma NotFoundNoLineComment(s: string)
    requires !HasLineComment(s)
    ensures forall i :: !LineCommentAt(s, i)
  {
    forall i | LineCommentAt(s, i) ensures false {
      LineCommentOnLastLine(s, i);
    }
  }

  lemma FoundFirstLineComment(s: string)
    requires HasLineComment(s)
    ensures var i0 := LineCommentStart(s);
      && LineCommentAt(s, i0)
      && forall i :: LineCommentAt(s, i) && (forall j :: 0 <= j < i ==> !LineCommentAt(s, j)) ==> i == i0
  {
    var b := Body(s);
    var k := LastLineStart(b);
    var m := Find(b[k..], "//").value;
    var i0 := k + m;
    assert b[i0..i0 + 2] == b[k..][m..m + 2];
    assert LineCommentAt(s, i0);
    forall i | LineCommentAt(s, i) && (forall j :: 0 <= j < i ==> !LineCommentAt(s, j)) ensures i == i0 {
      LineCommentOnLastLine(s, i);
    }
  }

  /** A line comment can only start on the last line. */
  lemma LineCommentOnLastLine(s: string, i: int)
    requires LineCommentAt(s, i)
    ensures var k := LastLineStart(Body(s)); k <= i && OccursAt(Body(s)[k..], i - k, "//")
  {
    var b := Body(s);
    var k := LastLineStart(b);
    assert b[k..][i - k..i - k + 2] == b[i..i + 2];
  }

  /** The comment removal of `gobble_comments`: block comments first, then
      the line comment. */
  function GobbleComments(s: string): (r: string)
    ensures Newlines(r) <= Newlines(s)
  {
    var t := StripBlockComments(s);
    StripBlockKeepsLines(s);
    StripLineComment(t)
  }

  /** Cutting off a tail without line breaks keeps the count. */
  lemma NewlinesCut(b: string, i: nat, t: string)
    requires i <= |b| && forall j :: i <= j < |b| ==> b[j] != '\n'
    ensures Newlines(b[..i] + t) == Newlines(b + t)
  {
    assert b == b[..i] + b[i..];
    NewlinesNone(b[i..]);
    NewlinesAppend(b[..i], b[i..]);
    NewlinesAppend(b[..i], t);
    NewlinesAppend(b, t);
  }

  // ---------------------------------------------------------------- includes

  /** `\s` in a byte-string pattern. */
  predicate RegexSpace(c: char) {
    c == ' ' || c == '\t' || c == '\n' || c == '\r' || c == '\U{B}' || c == '\U{C}'
  }

  /** The name, used unescaped as a pattern, matches at `i`: a `.` in it
      stands for any character but a newline, every other character for
      itself. */
  predicate NameAt(s: string, i: int, name: string) {
    0 <= i && i + |name| <= |s|
    && forall k :: 0 <= k < |name| ==>
         if name[k] == '.' then s[i + k] != '\n' else s[i + k] == name[k]
  }

  /** `#include\s+"<name>"` matches at `i` with `w` whitespace characters. */
  predicate IncludeAt(s: string, i: int, w: int, name: string) {
    OccursAt(s, i, "#include") && w >= 1 && i + 8 + w < |s|
    && (forall j :: i + 8 <= j < i + 8 + w ==> RegexSpace(s[j]))
    && s[i + 8 + w] == '"' && NameAt(s, i + 9 + w, name)
    && i + 9 + w + |name| < |s| && s[i + 9 + w + |name|] == '"'
  }

  /** The declarative reading of `re.search(r'#include\s+"<name>"', s)`. */
  ghost predicate Includes(s: string, name: string) {
    exists i, w :: IncludeAt(s, i, w, name)
  }

  /** The length of the run of `\s` characters starting at `j`. */
  function SpaceRun(s: string, j: nat): (n: nat)
    decreases |s| - j
    ensures j + n <= |s| || (j > |s| && n == 0)
    ensures forall m :: j <= m < j + n ==> RegexSpace(s[m])
    ensures j + n < |s| ==> !RegexSpace(s[j + n])
  {
    if j < |s| && RegexSpace(s[j]) then 1 + SpaceRun(s, j + 1) else 0
  }

  /** Checks for the include at `i`: the whitespace run is the only possible
      `w`, because the quote after it is not whitespace. */
  function IncludeHere(s: string, i: nat, name: string): (r: bool)
    ensures r <==> exists w :: IncludeAt(s, i, w, name)
  {
    var w := SpaceRun(s, i + 8);
    var r := OccursAt(s, i, "#include") && w >= 1 && i + 8 + w < |s|
      && s[i + 8 + w] == '"' && NameAt(s, i + 9 + w, name)
      && i + 9 + w + |name| < |s| && s[i + 9 + w + |name|] == '"';
    assert r ==> IncludeAt(s, i, w, name);
    assert forall v :: IncludeAt(s, i, v, name) ==> v == w;
    r
  }

  function IncludeFrom(s: string, name: string, i: nat): (r: bool)
    decreases |s| - i
    ensures r <==> exists j, w :: i <= j && IncludeAt(s, j, w, name)
  {
    if i >= |s| then false
    else IncludeHere(s, i, name) || IncludeFrom(s, name, i + 1)
  }

  /** The include search, which agrees with `Includes`. */
  function SearchInclude(s: string, name: string): (r: bool)
    ensures r <==> Includes(s, name)
  {
    IncludeFrom(s, name, 0)
  }

  /** The unescaped `.` of the default `.cpp` suffix matches any character:
      an include of `moc_mainXcpp` satisfies the search for `moc_main.cpp`. */
  lemma IncludeDotIsWildcard()
    ensures Includes("#include \"moc_mainXcpp\"", "moc_main.cpp")
    ensures Includes("#include\t\t\"moc_main.cpp\"\n", "moc_main.cpp")
  {
    assert IncludeAt("#include \"moc_mainXcpp\"", 0, 1, "moc_main.cpp");
    assert IncludeAt("#include\t\t\"moc_main.cpp\"\n", 0, 2, "moc_main.cpp");
  }
}
