/** The Python `str` operations the tools rely on, over `seq<char>`:
    prefix/suffix tests, `find`, `in`, `replace`, `split`, `join`, `strip`
    and an ASCII `title`. */
module PyStr {
  import opened Wrappers

  predicate StartsWith(s: string, p: string) {
    |p| <= |s| && s[..|p|] == p
  }

  predicate EndsWith(s: string, p: string) {
    |p| <= |s| && s[|s| - |p|..] == p
  }

  /** `p` occurs in `s` starting at index `i`. */
  predicate OccursAt(s: string, i: int, p: string) {
    0 <= i && i + |p| <= |s| && s[i..i + |p|] == p
  }

  /** `s.find(p)` from index `i` on: the first occurrence at or after `i`. */
  function FindFrom(s: string, p: string, i: nat): (r: Option<nat>)
    decreases |s| - i
    ensures r.Some? ==> i <= r.value && OccursAt(s, r.value, p)
    ensures r.Some? ==> forall j :: i <= j < r.value ==> !OccursAt(s, j, p)
    ensures r.None? ==> forall j :: i <= j ==> !OccursAt(s, j, p)
  {
    if i + |p| > |s| then None
    else if s[i..i + |p|] == p then Some(i)
    else FindFrom(s, p, i + 1)
  }

  /** `s.find(p)`, `None` standing for Python's -1. */
  function Find(s: string, p: string): (r: Option<nat>)
    ensures r.Some? ==> OccursAt(s, r.value, p) && forall j :: 0 <= j < r.value ==> !OccursAt(s, j, p)
    ensures r.None? ==> forall j :: !OccursAt(s, j, p)
  {
    FindFrom(s, p, 0)
  }

  /** Python's `p in s`. */
  predicate Contains(s: string, p: string) {
    Find(s, p).Some?
  }

  /** `s.replace("", x)`: `x` before every character and at the end. */
  function Interleave(s: string, x: string): (r: string)
  {
    if |s| == 0 then x else x + [s[0]] + Interleave(s[1..], x)
  }

  /** `s.replace(pat, rep)`: every leftmost, non-overlapping occurrence of
      `pat` becomes `rep`; an empty `pat` inserts `rep` around every character. */
  function ReplaceAll(s: string, pat: string, rep: string): (r: string)
    decreases |s|
  {
    if |pat| == 0 then Interleave(s, rep)
    else
      match Find(s, pat)
      case None => s
      case Some(i) => s[..i] + rep + ReplaceAll(s[i + |pat|..], pat, rep)
  }

  lemma OccursAtSingle(s: string, i: int, c: char)
    ensures OccursAt(s, i, [c]) <==> 0 <= i < |s| && s[i] == c
  {
    if 0 <= i < |s| {
      assert s[i..i + 1] == [s[i]];
    }
  }

  /** Replacing a single character by text that does not hold it leaves no
      occurrence of that character. */
  lemma {:induction false} ReplaceCharGone(s: string, c: char, rep: string)
    requires c !in rep
    ensures c !in ReplaceAll(s, [c], rep)
    decreases |s|
  {
    match Find(s, [c])
    case None =>
      forall j | 0 <= j < |s| ensures s[j] != c {
        OccursAtSingle(s, j, c);
      }
    case Some(i) =>
      forall j | 0 <= j < i ensures s[j] != c {
        OccursAtSingle(s, j, c);
      }
      ReplaceCharGone(s[i + 1..], c, rep);
  }

  /** A character other than the replaced one and absent from the
      replacement survives only where it already was. */
  lemma {:induction false} ReplaceCharKeeps(s: string, c: char, rep: string, x: char)
    requires x != c && x !in rep
    ensures x in ReplaceAll(s, [c], rep) <==> x in s
    decreases |s|
  {
    match Find(s, [c])
    case None =>
    case Some(i) =>
      OccursAtSingle(s, i, c);
      ReplaceCharKeeps(s[i + 1..], c, rep, x);
      assert s == s[..i] + [c] + s[i + 1..];
  }

  /** Reference definition of replacing one character: each `c` becomes
      `rep`, every other character stays, read left to right. */
  function ReplaceChar(s: string, c: char, rep: string): (r: string)
    ensures c !in rep ==> c !in r
    ensures c !in s ==> r == s
  {
    if |s| == 0 then ""
    else (if s[0] == c then rep else [s[0]]) + ReplaceChar(s[1..], c, rep)
  }

  lemma {:induction false} ReplaceCharAppend(a: string, b: string, c: char, rep: string)
    ensures ReplaceChar(a + b, c, rep) == ReplaceChar(a, c, rep) + ReplaceChar(b, c, rep)
    decreases |a|
  {
    if |a| == 0 {
      assert a + b == b;
    } else {
      assert (a + b)[1..] == a[1..] + b;
      ReplaceCharAppend(a[1..], b, c, rep);
    }
  }

  /** `s.replace(c, rep)` for a one-character pattern is the per-character
      replacement. */
  lemma {:induction false} ReplaceAllChar(s: string, c: char, rep: string)
    ensures ReplaceAll(s, [c], rep) == ReplaceChar(s, c, rep)
    decreases |s|
  {
    match Find(s, [c])
    case None =>
      forall j | 0 <= j < |s| ensures s[j] != c {
        OccursAtSingle(s, j, c);
      }
    case Some(i) =>
      OccursAtSingle(s, i, c);
      forall j | 0 <= j < i ensures s[..i][j] != c {
        OccursAtSingle(s, j, c);
      }
      ReplaceAllChar(s[i + 1..], c, rep);
      ReplaceCharAt(s, i, c, rep);
  }

  /** Splitting the per-character replacement at the first `c`. */
  lemma ReplaceCharAt(s: string, i: nat, c: char, rep: string)
    requires i < |s| && s[i] == c && c !in s[..i]
    ensures ReplaceChar(s, c, rep) == s[..i] + rep + ReplaceChar(s[i + 1..], c, rep)
  {
    var rest := s[i + 1..];
    assert s == s[..i] + ([c] + rest);
    ReplaceCharAppend(s[..i], [c] + rest, c, rep);
    assert ([c] + rest)[1..] == rest;
  }

  /** A character that is neither replaced nor produced is kept in place. */
  lemma ReplaceCharSingle(x: char, c: char, rep: string)
    ensures ReplaceChar([x], c, rep) == if x == c then rep else [x]
  {
    assert [x][1..] == "";
  }

  /** `s.split(sep)` for a non-empty separator. */
  function Split(s: string, sep: string): (r: seq<string>)
    requires |sep| > 0
    ensures |r| >= 1
    decreases |s|
  {
    match Find(s, sep)
    case None => [s]
    case Some(i) => [s[..i]] + Split(s[i + |sep|..], sep)
  }

  /** `sep.join(parts)`. */
  function Join(parts: seq<string>, sep: string): string {
    if |parts| == 0 then ""
    else if |parts| == 1 then parts[0]
    else parts[0] + sep + Join(parts[1..], sep)
  }

  /** `[prefix + n for n in names]`. */
  function PrefixEach(prefix: string, names: seq<string>): (r: seq<string>)
    ensures |r| == |names|
    ensures forall i :: 0 <= i < |r| ==> r[i] == prefix + names[i]
  {
    if |names| == 0 then [] else [prefix + names[0]] + PrefixEach(prefix, names[1..])
  }

  /** Every name shows up, prefixed, in the result. */
  lemma PrefixEachContains(prefix: string, names: seq<string>)
    ensures forall n :: n in names ==> prefix + n in PrefixEach(prefix, names)
  {
    forall n | n in names ensures prefix + n in PrefixEach(prefix, names) {
      var k :| 0 <= k < |names| && names[k] == n;
      assert PrefixEach(prefix, names)[k] == prefix + n;
    }
  }

  /** Splitting then joining with the same separator gives back the text. */
  lemma {:induction false} JoinSplit(s: string, sep: string)
    requires |sep| > 0
    ensures Join(Split(s, sep), sep) == s
    decreases |s|
  {
    match Find(s, sep)
    case None =>
    case Some(i) =>
      var rest := s[i + |sep|..];
      var tail := Split(rest, sep);
      JoinSplit(rest, sep);
      assert Split(s, sep) == [s[..i]] + tail;
      assert ([s[..i]] + tail)[1..] == tail;
      assert Join([s[..i]] + tail, sep) == s[..i] + sep + Join(tail, sep);
      assert s[i..i + |sep|] == sep;
      assert s == s[..i] + s[i..i + |sep|] + rest;
  }

  /** No piece of a split holds the separator. */
  lemma {:induction false} SplitPiecesFree(s: string, sep: string)
    requires |sep| > 0
    ensures forall k :: 0 <= k < |Split(s, sep)| ==> !Contains(Split(s, sep)[k], sep)
    decreases |s|
  {
    match Find(s, sep)
    case None =>
    case Some(i) =>
      SplitPiecesFree(s[i + |sep|..], sep);
      PrefixFree(s, i, sep);
  }

  lemma PrefixFree(s: string, i: nat, sep: string)
    requires |sep| > 0 && i <= |s|
    requires forall j :: 0 <= j < i ==> !OccursAt(s, j, sep)
    ensures !Contains(s[..i], sep)
  {
    if Contains(s[..i], sep) {
      var j := Find(s[..i], sep).value;
      assert s[..i][j..j + |sep|] == s[j..j + |sep|];
      assert OccursAt(s, j, sep);
    }
  }

  /** The text before the first `sep`: `s.split(sep)[0]`. */
  function Before(s: string, sep: string): (r: string)
    requires |sep| > 0
    ensures StartsWith(s, r)
    ensures !Contains(r, sep)
    ensures r != s ==> OccursAt(s, |r|, sep)
  {
    SplitPiecesFree(s, sep);
    var r := Split(s, sep)[0];
    match Find(s, sep)
    case None => r
    case Some(i) => r
  }

  /** Python 3's whitespace for `str.strip()`: the characters
      `str.isspace()` accepts. */
  predicate IsSpace(c: char) {
    c == ' ' || c == '\t' || c == '\n' || c == '\r' || c == '\U{B}' || c == '\U{C}'
    || ('\U{1C}' <= c <= '\U{1F}') || c == '\U{85}' || c == '\U{A0}' || c == '\U{1680}'
    || ('\U{2000}' <= c <= '\U{200A}') || c == '\U{2028}' || c == '\U{2029}'
    || c == '\U{202F}' || c == '\U{205F}' || c == '\U{3000}'
  }

  /** The number of whitespace characters `s` starts with. */
  function LeadingSpaces(s: string): (n: nat)
    ensures n <= |s|
    ensures forall j :: 0 <= j < n ==> IsSpace(s[j])
    ensures n < |s| ==> !IsSpace(s[n])
  {
    if |s| > 0 && IsSpace(s[0]) then 1 + LeadingSpaces(s[1..]) else 0
  }

  /** The number of whitespace characters `s` ends with. */
  function TrailingSpaces(s: string): (n: nat)
    ensures n <= |s|
    ensures forall j :: |s| - n <= j < |s| ==> IsSpace(s[j])
    ensures n < |s| ==> !IsSpace(s[|s| - n - 1])
  {
    if |s| > 0 && IsSpace(s[|s| - 1]) then 1 + TrailingSpaces(s[..|s| - 1]) else 0
  }

  /** `s.strip()`: the text with leading and trailing whitespace removed. */
  function Strip(s: string): (r: string)
    ensures |r| > 0 ==> !IsSpace(r[0]) && !IsSpace(r[|r| - 1])
    ensures r == "" <==> forall j :: 0 <= j < |s| ==> IsSpace(s[j])
    ensures LeadingSpaces(s) + |r| <= |s|
    ensures r == s[LeadingSpaces(s)..LeadingSpaces(s) + |r|]
  {
    var a := LeadingSpaces(s);
    var t := s[a..];
    var b := TrailingSpaces(t);
    assert a < |s| ==> t[0] == s[a];
    s[a..|s| - b]
  }

  /** Text with no whitespace at either end is its own strip. */
  lemma StripTrimmed(s: string)
    requires |s| > 0 && !IsSpace(s[0]) && !IsSpace(s[|s| - 1])
    ensures Strip(s) == s
  {
    assert LeadingSpaces(s) == 0;
    assert s[0..] == s;
    assert TrailingSpaces(s) == 0;
  }

  /** One leading space goes, and nothing else, from text that is otherwise
      trimmed. */
  lemma StripAfterSpace(s: string)
    requires |s| > 0 && !IsSpace(s[0]) && !IsSpace(s[|s| - 1])
    ensures Strip(" " + s) == s
  {
    var t := " " + s;
    assert t[1..] == s;
    assert LeadingSpaces(s) == 0;
    assert LeadingSpaces(t) == 1;
    assert t[1..] == s;
    assert TrailingSpaces(s) == 0;
  }

  predicate IsUpper(c: char) { 'A' <= c <= 'Z' }
  predicate IsLower(c: char) { 'a' <= c <= 'z' }
  predicate IsLetter(c: char) { IsUpper(c) || IsLower(c) }
  predicate IsDigit(c: char) { '0' <= c <= '9' }
  predicate IsAlnum(c: char) { IsLetter(c) || IsDigit(c) }

  function ToUpper(c: char): (r: char)
    ensures IsLetter(c) ==> IsUpper(r)
    ensures !IsLetter(c) ==> r == c
  {
    if IsLower(c) then (c as int - 32) as char else c
  }

  function ToLower(c: char): (r: char)
    ensures IsLetter(c) ==> IsLower(r)
    ensures !IsLetter(c) ==> r == c
  {
    if IsUpper(c) then (c as int + 32) as char else c
  }

  function TitleFrom(s: string, prevCased: bool): (r: string)
    ensures |r| == |s|
    ensures forall j :: 0 <= j < |s| ==> (IsLetter(s[j]) <==> IsLetter(r[j]))
    ensures forall j :: 0 <= j < |s| && !IsLetter(s[j]) ==> r[j] == s[j]
    ensures |s| > 0 && IsLetter(s[0]) ==> (if prevCased then IsLower(r[0]) else IsUpper(r[0]))
  {
    if |s| == 0 then ""
    else
      var c := s[0];
      [if !IsLetter(c) then c else if prevCased then ToLower(c) else ToUpper(c)]
        + TitleFrom(s[1..], IsLetter(c))
  }

  /** `s.title()` over ASCII: a letter is upper-cased when it starts a run of
      letters and lower-cased otherwise; every other character is kept. */
  function Title(s: string): (r: string)
    ensures |r| == |s|
    ensures forall j :: 0 <= j < |s| && !IsLetter(s[j]) ==> r[j] == s[j]
    ensures forall j :: 0 <= j < |s| ==> (IsLetter(s[j]) <==> IsLetter(r[j]))
  {
    TitleFrom(s, false)
  }
}
