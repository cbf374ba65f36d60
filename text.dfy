/** String primitives the analyzer relies on: JavaScript's `trim`, `\s`,
    `toLowerCase`, `indexOf`/`includes`, global `match` counting, whitespace
    splitting, `split(',')` and `replace(/\s+/g, '-')`, stated over `seq<char>`. */
module SeoText {

  /** The characters JavaScript's `trim` and the regex class `\s` treat as white
      space: the WhiteSpace and LineTerminator productions of ECMAScript. */
  const WhitespaceChars: set<char> :=
    {' ', '\t', '\n', '\r', '\U{B}', '\U{C}', '\U{A0}', '\U{1680}',
     '\U{2000}', '\U{2001}', '\U{2002}', '\U{2003}', '\U{2004}', '\U{2005}',
     '\U{2006}', '\U{2007}', '\U{2008}', '\U{2009}', '\U{200A}',
     '\U{2028}', '\U{2029}', '\U{202F}', '\U{205F}', '\U{3000}', '\U{FEFF}'}

  predicate IsWhitespace(c: char) {
    c in WhitespaceChars
  }

  /** Every character is white space (the empty string included). */
  predicate Blank(s: string) {
    forall i :: 0 <= i < |s| ==> IsWhitespace(s[i])
  }

  predicate NoWhitespace(s: string) {
    forall i :: 0 <= i < |s| ==> !IsWhitespace(s[i])
  }

  // ---------------------------------------------------------------- trim

  /** The number of white-space characters at the start of `s`. */
  function LeadingWhitespace(s: string): (n: nat)
    ensures n <= |s|
    ensures forall k :: 0 <= k < n ==> IsWhitespace(s[k])
    ensures n == |s| || !IsWhitespace(s[n])
  {
    if s != [] && IsWhitespace(s[0]) then 1 + LeadingWhitespace(s[1..]) else 0
  }

  /** The index where the white space at the end of `s` begins. */
  function TrailingWhitespace(s: string): (n: nat)
    ensures n <= |s|
    ensures forall k :: n <= k < |s| ==> IsWhitespace(s[k])
    ensures n == 0 || !IsWhitespace(s[n - 1])
  {
    if s != [] && IsWhitespace(s[|s| - 1]) then TrailingWhitespace(s[..|s| - 1]) else |s|
  }

  /** What is left after the leading white space is blank only when empty. */
  lemma LeadingWhitespaceIsMaximal(s: string)
    ensures Blank(s[LeadingWhitespace(s)..]) ==> LeadingWhitespace(s) == |s|
  {
    var i := LeadingWhitespace(s);
    if i < |s| {
      assert s[i..][0] == s[i];
    }
  }

  /** The pieces `Trim` is made of: the leading white space, the kept slice
      and the trailing white space. */
  lemma TrimPieces(s: string, i: nat, j: nat)
    requires i == LeadingWhitespace(s) && j == TrailingWhitespace(s[i..])
    ensures i + j <= |s|
    ensures Blank(s[..i]) && Blank(s[i + j..])
    ensures s[i..][..j] == s[i..i + j]
    ensures j == 0 ==> Blank(s)
  {
    TrailingPiece(s, i, j);
    if j == 0 {
      LeadingWhitespaceIsMaximal(s);
      assert s[..i] == s;
    }
  }

  lemma TrailingPiece(s: string, i: nat, j: nat)
    requires i <= |s| && j == TrailingWhitespace(s[i..])
    ensures Blank(s[i + j..])
    ensures j == 0 ==> Blank(s[i..])
  {
    var t := s[i..];
    forall k | i + j <= k < |s| ensures IsWhitespace(s[k]) {
      assert s[k] == t[k - i];
    }
  }

  /** `s.trim()`: the slice of `s` left after removing leading and trailing
      white space. */
  function Trim(s: string): (r: string)
    ensures exists i :: 0 <= i <= |s| - |r| && r == s[i..i + |r|]
                        && Blank(s[..i]) && Blank(s[i + |r|..])
    ensures r != [] ==> !IsWhitespace(r[0]) && !IsWhitespace(r[|r| - 1])
    ensures r == [] <==> Blank(s)
  {
    var i := LeadingWhitespace(s);
    var j := TrailingWhitespace(s[i..]);
    TrimPieces(s, i, j);
    s[i..][..j]
  }

  // ---------------------------------------------------------------- case

  predicate IsUpper(c: char) {
    'A' <= c <= 'Z'
  }

  /** `toLowerCase` on one character, restricted to the ASCII letters. */
  function LowerChar(c: char): (d: char)
    ensures !IsUpper(d)
    ensures IsUpper(c) ==> d != c && d as int - 'a' as int == c as int - 'A' as int
    ensures !IsUpper(c) ==> d == c
  {
    if IsUpper(c) then (c as int + 32) as char else c
  }

  /** `s.toLowerCase()`, character by character. */
  function Lower(s: string): (r: string)
    ensures |r| == |s| && forall i :: 0 <= i < |s| ==> r[i] == LowerChar(s[i])
  {
    seq(|s|, i requires 0 <= i < |s| => LowerChar(s[i]))
  }

  predicate HasUpper(s: string) {
    exists i :: 0 <= i < |s| && IsUpper(s[i])
  }

  lemma {:induction false} LowerIdentity(s: string)
    requires !HasUpper(s)
    ensures Lower(s) == s
  {
    forall i | 0 <= i < |s| ensures Lower(s)[i] == s[i] {
      assert !IsUpper(s[i]);
    }
  }

  // ---------------------------------------------------------------- search

  /** `s.startsWith(prefix)`. */
  predicate StartsWith(s: string, prefix: string) {
    |prefix| <= |s| && s[..|prefix|] == prefix
  }

  lemma NotStartsWith(s: string, prefix: string)
    requires |prefix| > 0 && |s| > 0 && s[0] != prefix[0]
    ensures !StartsWith(s, prefix)
  {
    if |prefix| <= |s| {
      assert s[..|prefix|][0] == s[0];
    }
  }

  /** The pattern `p` occurs in `t` starting at index `i`. */
  predicate MatchesAt(t: string, p: string, i: int) {
    0 <= i && i + |p| <= |t| && t[i..i + |p|] == p
  }

  ghost predicate Occurs(t: string, p: string) {
    exists i :: MatchesAt(t, p, i)
  }

  function IndexFrom(t: string, p: string, i: nat): (r: int)
    requires i <= |t|
    ensures r == -1 || (i <= r && MatchesAt(t, p, r))
    ensures forall j :: i <= j < (if r == -1 then |t| + 1 else r) ==> !MatchesAt(t, p, j)
    decreases |t| - i
  {
    if MatchesAt(t, p, i) then i
    else if i == |t| then -1
    else IndexFrom(t, p, i + 1)
  }

  /** `t.indexOf(p)`: the first index where `p` occurs, or -1. `t.includes(p)`
      is `IndexOf(t, p) >= 0`. */
  function IndexOf(t: string, p: string): (r: int)
    ensures -1 <= r <= |t|
    ensures r >= 0 ==> MatchesAt(t, p, r) && forall j :: 0 <= j < r ==> !MatchesAt(t, p, j)
    ensures r == -1 <==> !Occurs(t, p)
  {
    var r := IndexFrom(t, p, 0);
    assert r == -1 ==> forall j :: !MatchesAt(t, p, j) by {
      if r == -1 {
        forall j ensures !MatchesAt(t, p, j) {
          if 0 <= j <= |t| { } else { assert !MatchesAt(t, p, j); }
        }
      }
    }
    r
  }

  // ---------------------------------------------------------------- counting

  /** The number of matches of a global regular expression for the literal
      `p`: non-overlapping occurrences, scanned left to right. */
  function CountMatches(t: string, p: string): (n: nat)
    requires |p| > 0
    ensures n * |p| <= |t|
    decreases |t|
  {
    if |t| < |p| then 0
    else if t[..|p|] == p then 1 + CountMatches(t[|p|..], p)
    else CountMatches(t[1..], p)
  }

  /** Matching under the `i` flag: characters are compared after case folding. */
  predicate MatchesAtIgnoringCase(t: string, p: string, i: int) {
    0 <= i && i + |p| <= |t| && forall k :: 0 <= k < |p| ==> LowerChar(t[i + k]) == LowerChar(p[k])
  }

  /** The number of matches of a global, case-insensitive regular expression
      for the literal `p`. */
  function CountMatchesIgnoringCase(t: string, p: string): (n: nat)
    requires |p| > 0
    ensures n * |p| <= |t|
    decreases |t|
  {
    if |t| < |p| then 0
    else if MatchesAtIgnoringCase(t, p, 0) then 1 + CountMatchesIgnoringCase(t[|p|..], p)
    else CountMatchesIgnoringCase(t[1..], p)
  }

  lemma MatchesAtShift(t: string, p: string, j: int)
    requires |t| > 0 && j >= 0
    ensures MatchesAt(t[1..], p, j) <==> MatchesAt(t, p, j + 1)
  {
    if j + 1 + |p| <= |t| {
      assert t[1..][j..j + |p|] == t[j + 1..j + 1 + |p|];
    }
  }

  /** No occurrence at all exactly when the global match finds nothing. */
  lemma {:induction false} CountZeroIffAbsent(t: string, p: string)
    requires |p| > 0
    ensures CountMatches(t, p) == 0 <==> !Occurs(t, p)
    decreases |t|
  {
    if |t| < |p| {
      assert forall i :: !MatchesAt(t, p, i);
    } else if t[..|p|] == p {
      assert MatchesAt(t, p, 0);
    } else {
      CountZeroIffAbsent(t[1..], p);
      if Occurs(t, p) {
        var i :| MatchesAt(t, p, i);
        assert i != 0;
        MatchesAtShift(t, p, i - 1);
        assert Occurs(t[1..], p);
      }
      if Occurs(t[1..], p) {
        var j :| MatchesAt(t[1..], p, j);
        MatchesAtShift(t, p, j);
        assert Occurs(t, p);
      }
    }
  }

  /** Skipping a prefix in which no occurrence starts does not change the count. */
  lemma {:induction false} CountSkip(t: string, p: string, k: nat)
    requires |p| > 0 && k <= |t|
    requires forall j :: 0 <= j < k ==> !MatchesAt(t, p, j)
    ensures CountMatches(t, p) == CountMatches(t[k..], p)
    decreases k
  {
    if k > 0 {
      assert !MatchesAt(t, p, 0);
      if |t| < |p| {
        assert CountMatches(t[k..], p) == 0;
      } else {
        forall j | 0 <= j < k - 1 ensures !MatchesAt(t[1..], p, j) {
          MatchesAtShift(t, p, j);
        }
        CountSkip(t[1..], p, k - 1);
        assert t[1..][k - 1..] == t[k..];
      }
    }
  }

  /** The scan is left to right and non-overlapping: the first match found is
      the first occurrence, and counting resumes right after it. */
  lemma CountFromFirstOccurrence(t: string, p: string)
    requires |p| > 0 && IndexOf(t, p) >= 0
    ensures CountMatches(t, p) == 1 + CountMatches(t[IndexOf(t, p) + |p|..], p)
  {
    var i := IndexOf(t, p);
    CountSkip(t, p, i);
    var u := t[i..];
    assert u[..|p|] == t[i..i + |p|];
    assert u[|p|..] == t[i + |p|..];
  }

  lemma FirstMatchIgnoringCase(t: string, p: string)
    requires |t| >= |p|
    ensures Lower(t)[..|p|] == Lower(p) <==> MatchesAtIgnoringCase(t, p, 0)
  {
    var lt, lp := Lower(t), Lower(p);
    if MatchesAtIgnoringCase(t, p, 0) {
      assert forall k :: 0 <= k < |p| ==> lt[..|p|][k] == lp[k];
    }
    if lt[..|p|] == lp {
      forall k | 0 <= k < |p| ensures LowerChar(t[k]) == LowerChar(p[k]) {
        assert lt[..|p|][k] == lp[k];
      }
    }
  }

  /** Case-insensitive matching is exact matching of the lower-cased texts. */
  lemma {:induction false} CountIgnoringCaseIsCountOfLowered(t: string, p: string)
    requires |p| > 0
    ensures CountMatchesIgnoringCase(t, p) == CountMatches(Lower(t), Lower(p))
    decreases |t|
  {
    var lt, lp := Lower(t), Lower(p);
    if |t| >= |p| {
      FirstMatchIgnoringCase(t, p);
      var m := MatchesAtIgnoringCase(t, p, 0);
      var k := if m then |p| else 1;
      var rest := t[k..];
      CountIgnoringCaseIsCountOfLowered(rest, p);
      assert Lower(rest) == lt[k..];
      assert CountMatchesIgnoringCase(t, p)
          == (if m then 1 else 0) + CountMatchesIgnoringCase(rest, p);
      assert CountMatches(lt, lp) == (if m then 1 else 0) + CountMatches(lt[k..], lp);
    }
  }

  /** A pattern holding an ASCII capital never matches a lower-cased text. */
  lemma UpperPatternNeverMatchesLowered(t: string, p: string)
    requires |p| > 0 && HasUpper(p)
    ensures CountMatches(Lower(t), p) == 0
  {
    var k :| 0 <= k < |p| && IsUpper(p[k]);
    assert forall i :: !MatchesAt(Lower(t), p, i);
    CountZeroIffAbsent(Lower(t), p);
  }

  // ---------------------------------------------------------------- words

  /** The characters of `s` that are not white space, in order. */
  function NonWhitespace(s: string): (r: string)
    ensures NoWhitespace(r)
  {
    if s == [] then []
    else (if IsWhitespace(s[0]) then [] else [s[0]]) + NonWhitespace(s[1..])
  }

  function Flatten(ws: seq<string>): string {
    if ws == [] then [] else ws[0] + Flatten(ws[1..])
  }

  lemma {:induction false} NonWhitespaceAppend(a: string, b: string)
    ensures NonWhitespace(a + b) == NonWhitespace(a) + NonWhitespace(b)
    decreases |a|
  {
    if a != [] {
      assert (a + b)[1..] == a[1..] + b;
      NonWhitespaceAppend(a[1..], b);
    } else {
      assert a + b == b;
    }
  }

  lemma {:induction false} NonWhitespaceOfWord(w: string)
    requires NoWhitespace(w)
    ensures NonWhitespace(w) == w
    decreases |w|
  {
    if w != [] { NonWhitespaceOfWord(w[1..]); }
  }

  lemma {:induction false} NonWhitespaceEmptyIffBlank(s: string)
    ensures NonWhitespace(s) == [] <==> Blank(s)
    decreases |s|
  {
    if s != [] {
      NonWhitespaceEmptyIffBlank(s[1..]);
      if Blank(s) { assert Blank(s[1..]) by { assert forall i :: 0 <= i < |s| - 1 ==> s[1..][i] == s[i + 1]; } }
      if !IsWhitespace(s[0]) { assert NonWhitespace(s)[0] == s[0]; }
      if IsWhitespace(s[0]) && Blank(s[1..]) {
        forall i | 0 <= i < |s| ensures IsWhitespace(s[i]) { if i > 0 { assert s[i] == s[1..][i - 1]; } }
      }
    }
  }

  /** The length of the longest prefix of `s` without white space. */
  function RunLength(s: string): (n: nat)
    ensures n <= |s| && NoWhitespace(s[..n])
    ensures n == |s| || IsWhitespace(s[n])
  {
    if s == [] || IsWhitespace(s[0]) then 0
    else
      var m := RunLength(s[1..]);
      assert s[..m + 1] == [s[0]] + s[1..][..m];
      m + 1
  }

  /** `s.split(/\s+/).filter(w => w.length > 0)`: the maximal runs of
      non-white-space characters, in order. */
  function Words(s: string): (r: seq<string>)
    ensures forall k :: 0 <= k < |r| ==> r[k] != [] && NoWhitespace(r[k])
    ensures Flatten(r) == NonWhitespace(s)
    ensures |r| <= |s|
    decreases |s|
  {
    if s == [] then []
    else if IsWhitespace(s[0]) then
      assert NonWhitespace(s) == NonWhitespace(s[1..]);
      Words(s[1..])
    else
      var n := RunLength(s);
      var rest := Words(s[n..]);
      var r := [s[..n]] + rest;
      assert r[1..] == rest;
      assert s == s[..n] + s[n..];
      NonWhitespaceAppend(s[..n], s[n..]);
      NonWhitespaceOfWord(s[..n]);
      r
  }

  function WordCount(s: string): (n: nat)
    ensures n <= |s|
  {
    |Words(s)|
  }

  /** No words exactly when the text is blank. */
  lemma WordCountZeroIffBlank(s: string)
    ensures WordCount(s) == 0 <==> Blank(s)
  {
    NonWhitespaceEmptyIffBlank(s);
    if Words(s) != [] {
      assert Words(s)[0] != [];
      assert |Flatten(Words(s))| > 0;
    }
  }

  lemma RunLengthAppend(a: string, b: string)
    requires RunLength(a) < |a|
    ensures RunLength(a + b) == RunLength(a)
    decreases |a|
  {
    if !IsWhitespace(a[0]) {
      assert (a + b)[1..] == a[1..] + b;
      RunLengthAppend(a[1..], b);
    }
  }

  lemma RunLengthAppendWord(a: string, b: string)
    requires RunLength(a) == |a|
    requires b != [] && IsWhitespace(b[0])
    ensures RunLength(a + b) == |a|
    decreases |a|
  {
    if a == [] {
      assert a + b == b;
    } else {
      assert (a + b)[1..] == a[1..] + b;
      RunLengthAppendWord(a[1..], b);
    }
  }

  /** Splitting at a white-space character splits the word list there. */
  lemma {:induction false} WordsSplitAtWhitespace(a: string, c: char, b: string)
    requires IsWhitespace(c)
    ensures Words(a + [c] + b) == Words(a) + Words(b)
    decreases |a|
  {
    var s := a + [c] + b;
    if a == [] {
      assert s == [c] + b;
      assert s[1..] == b;
    } else if IsWhitespace(a[0]) {
      assert s[1..] == a[1..] + [c] + b;
      WordsSplitAtWhitespace(a[1..], c, b);
    } else {
      var n := RunLength(a);
      if n < |a| {
        RunLengthAppend(a, [c] + b);
        assert s == a + ([c] + b);
        assert s[..n] == a[..n];
        assert s[n..] == a[n..] + [c] + b;
        WordsSplitAtWhitespace(a[n..], c, b);
      } else {
        RunLengthAppendWord(a, [c] + b);
        assert s == a + ([c] + b);
        assert s[..n] == a;
        assert s[n..] == [c] + b;
        assert ([c] + b)[1..] == b;
        assert Words([c] + b) == Words(b);
        assert a[n..] == [] && a[..n] == a;
        assert Words(a) == [a];
      }
    }
  }

  /** A non-empty run without white space is one word. */
  lemma WordsOfWord(w: string)
    requires w != [] && NoWhitespace(w)
    ensures Words(w) == [w]
  {
    assert RunLength(w) == |w|;
    assert w[..|w|] == w && w[|w|..] == [];
  }

  /** A blank text has no words. */
  lemma WordsOfBlank(s: string)
    requires Blank(s)
    ensures Words(s) == []
  {
    WordCountZeroIffBlank(s);
  }

  // ---------------------------------------------------------------- splitting

  /** The `parts` glued back together with `sep` between neighbours. */
  function Join(parts: seq<string>, sep: char): string {
    if |parts| == 0 then []
    else if |parts| == 1 then parts[0]
    else parts[0] + [sep] + Join(parts[1..], sep)
  }

  /** `s.split(sep)` for a one-character separator. */
  function Split(s: string, sep: char): (r: seq<string>)
    ensures |r| >= 1
    ensures forall k :: 0 <= k < |r| ==> sep !in r[k]
    ensures Join(r, sep) == s
    decreases |s|
  {
    if s == [] then [[]]
    else
      var rest := Split(s[1..], sep);
      if s[0] == sep then
        var r := [[]] + rest;
        assert r[1..] == rest;
        r
      else
        var r := [[s[0]] + rest[0]] + rest[1..];
        assert |r| > 1 ==> r[1..] == rest[1..];
        r
  }

  /** Splitting at one occurrence of the separator splits the pieces there. */
  lemma {:induction false} SplitAround(a: string, sep: char, b: string)
    ensures Split(a + [sep] + b, sep) == Split(a, sep) + Split(b, sep)
    decreases |a|
  {
    var s := a + [sep] + b;
    if a == [] {
      assert s == [sep] + b && s[1..] == b;
    } else {
      assert s[1..] == a[1..] + [sep] + b;
      SplitAround(a[1..], sep, b);
    }
  }

  /** A string without the separator is a single piece. */
  lemma {:induction false} SplitWithoutSeparator(s: string, sep: char)
    requires sep !in s
    ensures Split(s, sep) == [s]
    decreases |s|
  {
    if s != [] {
      assert sep !in s[1..] by {
        forall i | 0 <= i < |s| - 1 ensures s[1..][i] != sep { assert s[1..][i] == s[i + 1]; }
      }
      SplitWithoutSeparator(s[1..], sep);
      assert [s[0]] + s[1..] == s;
    }
  }

  lemma {:induction false} JoinKeepsCharacters(parts: seq<string>, sep: char, k: nat, i: nat)
    requires k < |parts| && i < |parts[k]|
    ensures parts[k][i] in Join(parts, sep)
    decreases |parts|
  {
    if |parts| > 1 {
      var j := Join(parts, sep);
      if k == 0 {
        assert j[i] == parts[0][i];
      } else {
        JoinKeepsCharacters(parts[1..], sep, k - 1, i);
        var tail := Join(parts[1..], sep);
        assert j == parts[0] + [sep] + tail;
        var m :| 0 <= m < |tail| && tail[m] == parts[k][i];
        assert j[|parts[0]| + 1 + m] == tail[m];
      }
    }
  }

  /** `s.replace(/\s+/g, '-')`: every maximal run of white space becomes one '-'. */
  function HyphenateWhitespace(s: string): (r: string)
    ensures NoWhitespace(r)
    ensures NoWhitespace(s) ==> r == s
    ensures |r| <= |s|
    decreases |s|
  {
    if s == [] then []
    else if IsWhitespace(s[0]) then
      var t := s[LeadingWhitespace(s)..];
      var tail := HyphenateWhitespace(t);
      var r := "-" + tail;
      assert forall i :: 1 <= i < |r| ==> r[i] == tail[i - 1];
      r
    else
      var tail := HyphenateWhitespace(s[1..]);
      var r := [s[0]] + tail;
      assert forall i :: 1 <= i < |r| ==> r[i] == tail[i - 1];
      r
  }

  lemma {:induction false} LeadingWhitespaceAppend(a: string, b: string)
    ensures LeadingWhitespace(a) < |a| ==> LeadingWhitespace(a + b) == LeadingWhitespace(a)
    ensures LeadingWhitespace(a) == |a| && (b == [] || !IsWhitespace(b[0]))
            ==> LeadingWhitespace(a + b) == |a|
    decreases |a|
  {
    if a == [] {
      assert a + b == b;
    } else {
      assert (a + b)[1..] == a[1..] + b;
      LeadingWhitespaceAppend(a[1..], b);
    }
  }

  /** A non-empty blank string becomes a single '-'. */
  lemma HyphenateBlank(ws: string)
    requires ws != [] && Blank(ws)
    ensures HyphenateWhitespace(ws) == "-"
  {
    assert LeadingWhitespace(ws) == |ws| by { LeadingWhitespaceIsMaximal(ws); }
  }

  lemma HyphenateStepWhitespace(s: string, n: nat)
    requires s != [] && IsWhitespace(s[0]) && n == LeadingWhitespace(s)
    ensures HyphenateWhitespace(s) == "-" + HyphenateWhitespace(s[n..])
  {
  }

  lemma HyphenateStepWord(s: string)
    requires s != [] && !IsWhitespace(s[0])
    ensures HyphenateWhitespace(s) == [s[0]] + HyphenateWhitespace(s[1..])
  {
  }

  /** The replacement works piece by piece, unless the two pieces meet inside
      one white-space run. */
  lemma {:induction false} HyphenateAppend(a: string, b: string)
    requires a == [] || b == [] || !IsWhitespace(a[|a| - 1]) || !IsWhitespace(b[0])
    ensures HyphenateWhitespace(a + b) == HyphenateWhitespace(a) + HyphenateWhitespace(b)
    decreases |a|
  {
    if a == [] {
      assert a + b == b;
    } else if IsWhitespace(a[0]) {
      var n := LeadingWhitespace(a);
      LeadingWhitespaceAppend(a, b);
      if n < |a| {
        HyphenateAppend(a[n..], b);
        HyphenateAfterRun(a, b, n);
      } else {
        HyphenateRunThenWord(a, b);
      }
    } else {
      HyphenateAppend(a[1..], b);
      HyphenateAfterWordChar(a, b);
    }
  }

  lemma HyphenateAfterWordChar(a: string, b: string)
    requires a != [] && !IsWhitespace(a[0])
    requires HyphenateWhitespace(a[1..] + b) == HyphenateWhitespace(a[1..]) + HyphenateWhitespace(b)
    ensures HyphenateWhitespace(a + b) == HyphenateWhitespace(a) + HyphenateWhitespace(b)
  {
    DropOfAppend(a, b, 1);
    HyphenateStepWord(a + b);
    HyphenateStepWord(a);
    AppendAssoc([a[0]], HyphenateWhitespace(a[1..]), HyphenateWhitespace(b));
  }

  lemma HyphenateAfterRun(a: string, b: string, n: nat)
    requires a != [] && IsWhitespace(a[0]) && n == LeadingWhitespace(a) < |a|
    requires LeadingWhitespace(a + b) == n
    requires HyphenateWhitespace(a[n..] + b) == HyphenateWhitespace(a[n..]) + HyphenateWhitespace(b)
    ensures HyphenateWhitespace(a + b) == HyphenateWhitespace(a) + HyphenateWhitespace(b)
  {
    DropOfAppend(a, b, n);
    HyphenateStepWhitespace(a + b, n);
    HyphenateStepWhitespace(a, n);
    AppendAssoc("-", HyphenateWhitespace(a[n..]), HyphenateWhitespace(b));
  }

  lemma HyphenateRunThenWord(a: string, b: string)
    requires a != [] && LeadingWhitespace(a) == |a|
    requires LeadingWhitespace(a + b) == |a|
    ensures HyphenateWhitespace(a + b) == HyphenateWhitespace(a) + HyphenateWhitespace(b)
  {
    DropOfAppend(a, b, |a|);
    assert a[|a|..] == [];
    HyphenateStepWhitespace(a + b, |a|);
    HyphenateStepWhitespace(a, |a|);
  }

  lemma DropOfAppend<T>(a: seq<T>, b: seq<T>, n: nat)
    requires n <= |a|
    ensures (a + b)[n..] == a[n..] + b
    ensures n < |a| ==> (a + b)[n] == a[n]
  {
  }

  lemma AppendAssoc<T>(u: seq<T>, v: seq<T>, w: seq<T>)
    ensures u + (v + w) == u + v + w
  {
  }

  /** A white-space run between two pieces that do not touch it with white
      space of their own becomes exactly one '-'. */
  lemma HyphenateAroundRun(a: string, ws: string, b: string)
    requires ws != [] && Blank(ws)
    requires a == [] || !IsWhitespace(a[|a| - 1])
    requires b == [] || !IsWhitespace(b[0])
    ensures HyphenateWhitespace(a + ws + b) == HyphenateWhitespace(a) + "-" + HyphenateWhitespace(b)
  {
    var t := ws + b;
    assert HyphenateWhitespace(t) == "-" + HyphenateWhitespace(b) by {
      HyphenateAppend(ws, b);
      HyphenateBlank(ws);
    }
    assert a + ws + b == a + t;
    HyphenateAppend(a, t);
    AppendAssoc(HyphenateWhitespace(a), "-", HyphenateWhitespace(b));
  }

  // ---------------------------------------------------------------- numbers

  function DigitChar(d: nat): (c: char)
    requires d < 10
    ensures '0' <= c <= '9'
  {
    ('0' as int + d) as char
  }

  /** The decimal rendering a template string gives a non-negative integer. */
  function NatToString(n: nat): (r: string)
    ensures |r| >= 1 && forall i :: 0 <= i < |r| ==> '0' <= r[i] <= '9'
    decreases n
  {
    if n < 10 then [DigitChar(n)] else NatToString(n / 10) + [DigitChar(n % 10)]
  }
}
