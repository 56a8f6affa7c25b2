/**
 * The JavaScript string operations the core relies on, over `string` (= `seq<char>`):
 * `trim`, `toLowerCase`, `includes`, `startsWith`, `split` with a string separator and the
 * newline-run rewrites `replace(/\n/g, ...)`, `replace(/\n\n+/g, ...)`, `replace(/\n+/g, ...)`.
 */
module Text {

  /** The code points of ECMAScript's WhiteSpace and LineTerminator productions: what `trim` strips. */
  predicate IsWhitespace(c: char) {
    || '\t' <= c <= '\r'
    || c == ' ' || c == '\U{00A0}' || c == '\U{1680}'
    || '\U{2000}' <= c <= '\U{200A}'
    || c == '\U{2028}' || c == '\U{2029}' || c == '\U{202F}' || c == '\U{205F}' || c == '\U{3000}' || c == '\U{FEFF}'
  }

  /** How many whitespace characters `s` starts with. */
  function LeadingSpaces(s: string): (k: nat)
    ensures k <= |s|
    ensures forall i :: 0 <= i < k ==> IsWhitespace(s[i])
    ensures k < |s| ==> !IsWhitespace(s[k])
  {
    if s != [] && IsWhitespace(s[0]) then 1 + LeadingSpaces(s[1..]) else 0
  }

  /** The length of `s` without its trailing whitespace. */
  function TrailingStart(s: string): (n: nat)
    ensures n <= |s|
    ensures forall i :: n <= i < |s| ==> IsWhitespace(s[i])
    ensures n > 0 ==> !IsWhitespace(s[n - 1])
  {
    if s != [] && IsWhitespace(s[|s| - 1]) then TrailingStart(s[..|s| - 1]) else |s|
  }

  /** `s.trimStart()`. */
  function TrimStart(s: string): (r: string)
    ensures |r| <= |s| && (r == [] || !IsWhitespace(r[0]))
  {
    s[LeadingSpaces(s)..]
  }

  /** A string that does not start with whitespace is its own `trimStart`. */
  lemma TrimStartNoop(s: string)
    requires s == [] || !IsWhitespace(s[0])
    ensures TrimStart(s) == s
  {
  }

  /** `s.trimEnd()`. */
  function TrimEnd(s: string): (r: string)
    ensures |r| <= |s| && (r == [] || !IsWhitespace(r[|r| - 1]))
  {
    s[..TrailingStart(s)]
  }

  /** `s.trim()`: what lies between the leading and the trailing whitespace. */
  function Trim(s: string): string {
    var k := LeadingSpaces(s);
    if k == |s| then [] else s[k..TrailingStart(s)]
  }

  /**
   * `trim` drops exactly the whitespace at both ends: the result is a slice of `s` that neither
   * starts nor ends with whitespace, and everything before and after it is whitespace.
   */
  lemma TrimSpec(s: string)
    ensures LeadingSpaces(s) + |Trim(s)| <= |s|
    ensures Trim(s) == s[LeadingSpaces(s)..LeadingSpaces(s) + |Trim(s)|]
    ensures forall i :: 0 <= i < LeadingSpaces(s) ==> IsWhitespace(s[i])
    ensures forall i :: LeadingSpaces(s) + |Trim(s)| <= i < |s| ==> IsWhitespace(s[i])
    ensures Trim(s) == [] || (!IsWhitespace(Trim(s)[0]) && !IsWhitespace(Trim(s)[|Trim(s)| - 1]))
  {
    var k := LeadingSpaces(s);
    var r := Trim(s);
    if k < |s| {
      var n := TrailingStart(s);
      assert k < n by {
        assert !IsWhitespace(s[k]);
      }
      assert r == s[k..n];
      assert r[0] == s[k] && r[|r| - 1] == s[n - 1];
    }
  }

  /** `trim` is `trimEnd` after `trimStart`. */
  lemma TrimIsBothEnds(s: string)
    ensures Trim(s) == TrimEnd(TrimStart(s))
  {
    var k := LeadingSpaces(s);
    var t := TrimStart(s);
    var r := Trim(s);
    TrimSpec(s);
    TrailingOfSuffix(s, k);
    if k < |s| {
      assert r == t[..TrailingStart(t)];
    } else {
      assert t == [];
    }
  }

  /** Dropping a prefix moves the start of the trailing whitespace by its length, when something is left. */
  lemma {:induction false} TrailingOfSuffix(s: string, k: nat)
    requires k <= |s|
    requires k < |s| ==> !IsWhitespace(s[k])
    ensures k < |s| ==> TrailingStart(s[k..]) == TrailingStart(s) - k
    decreases |s|
  {
    if k < |s| && IsWhitespace(s[|s| - 1]) {
      assert s[k..][..|s[k..]| - 1] == s[..|s| - 1][k..];
      TrailingOfSuffix(s[..|s| - 1], k);
    }
  }

  /** Trimming twice is trimming once. */
  lemma TrimIdempotent(s: string)
    ensures Trim(Trim(s)) == Trim(s)
  {
    var r := Trim(s);
    TrimSpec(s);
    if r != [] {
      assert LeadingSpaces(r) == 0;
      assert TrailingStart(r) == |r|;
    }
  }

  /** A substring has no more occurrences of any character than the whole string. */
  lemma SliceMultiset(s: string, i: int, j: int)
    requires 0 <= i <= j <= |s|
    ensures multiset(s[i..j]) <= multiset(s)
  {
    assert s == s[..i] + s[i..j] + s[j..];
  }

  lemma TrimMultiset(s: string)
    ensures multiset(Trim(s)) <= multiset(s)
  {
    TrimSpec(s);
    SliceMultiset(s, LeadingSpaces(s), LeadingSpaces(s) + |Trim(s)|);
  }

  function LowerChar(c: char): char {
    if 'A' <= c <= 'Z' then (c as int + 32) as char else c
  }

  /** `s.toLowerCase()` on the ASCII letters; every other character is kept. */
  function Lower(s: string): (r: string)
    ensures |r| == |s|
    ensures forall i :: 0 <= i < |s| ==> r[i] == LowerChar(s[i])
  {
    seq(|s|, i requires 0 <= i < |s| => LowerChar(s[i]))
  }

  /** Lower-casing changes exactly the ASCII capitals, leaves none behind, and a second pass changes nothing. */
  lemma LowerSpec(s: string)
    ensures forall i :: 0 <= i < |s| ==> (Lower(s)[i] != s[i] <==> 'A' <= s[i] <= 'Z')
    ensures forall i :: 0 <= i < |s| ==> !('A' <= Lower(s)[i] <= 'Z')
    ensures Lower(Lower(s)) == Lower(s)
  {
  }

  /** `sub` occurs in `s` starting at position `i`. */
  predicate OccursAt(s: string, sub: string, i: int) {
    0 <= i <= |s| - |sub| && s[i..i + |sub|] == sub
  }

  /** `s.includes(sub)`: `sub` occurs in `s` at some position. */
  predicate Contains(s: string, sub: string) {
    exists i :: 0 <= i <= |s| - |sub| && OccursAt(s, sub, i)
  }

  /** Containment is transitive: a string containing `mid` contains everything `mid` contains. */
  lemma ContainsTransitive(s: string, mid: string, sub: string)
    requires Contains(s, mid) && Contains(mid, sub)
    ensures Contains(s, sub)
  {
    var i :| 0 <= i <= |s| - |mid| && OccursAt(s, mid, i);
    var j :| 0 <= j <= |mid| - |sub| && OccursAt(mid, sub, j);
    forall k | 0 <= k < |sub| ensures s[i + j + k] == sub[k] {
      assert s[i + j + k] == s[i..i + |mid|][j + k];
      assert mid[j + k] == mid[j..j + |sub|][k];
    }
    assert s[i + j..i + j + |sub|] == sub;
    assert OccursAt(s, sub, i + j);
  }

  lemma ContainsLeft(a: string, b: string, sub: string)
    requires Contains(a, sub)
    ensures Contains(a + b, sub)
  {
    var i :| 0 <= i <= |a| - |sub| && OccursAt(a, sub, i);
    assert (a + b)[i..i + |sub|] == a[i..i + |sub|];
    assert OccursAt(a + b, sub, i);
  }

  lemma ContainsRight(a: string, b: string, sub: string)
    requires Contains(b, sub)
    ensures Contains(a + b, sub)
  {
    var i :| 0 <= i <= |b| - |sub| && OccursAt(b, sub, i);
    assert (a + b)[|a| + i..|a| + i + |sub|] == b[i..i + |sub|];
    assert OccursAt(a + b, sub, |a| + i);
  }

  /** `s.startsWith(p)`; also what an anchored pattern `^p` tests. */
  predicate StartsWith(s: string, p: string) {
    |p| <= |s| && s[..|p|] == p
  }

  /** Each `from` replaced by `to`, as `s.replace(/x/g, y)` does for a single character. */
  function ReplaceChar(s: string, from: char, to: char): (r: string)
    ensures |r| == |s|
    ensures forall i :: 0 <= i < |s| ==> r[i] == (if s[i] == from then to else s[i])
  {
    seq(|s|, i requires 0 <= i < |s| => if s[i] == from then to else s[i])
  }

  lemma ReplaceCharRemoves(s: string, from: char, to: char)
    requires from != to
    ensures from !in ReplaceChar(s, from, to)
  {
  }

  /** The number of newlines `s` starts with. */
  function NewlineRun(s: string): (n: nat)
    ensures n <= |s|
    ensures forall i :: 0 <= i < n ==> s[i] == '\n'
    ensures n < |s| ==> s[n] != '\n'
  {
    if s != [] && s[0] == '\n' then 1 + NewlineRun(s[1..]) else 0
  }

  /**
   * `s.replace(/\n{min,}/g, rep)` for `min >= 1`: every maximal run of at least `min` newlines
   * becomes `rep`; shorter runs and all other characters stay as they are.
   */
  function ReplaceNewlineRuns(s: string, min: nat, rep: string): string
    requires min >= 1
    decreases |s|
  {
    if s == [] then []
    else if s[0] == '\n' then
      var n := NewlineRun(s);
      (if n >= min then rep else s[..n]) + ReplaceNewlineRuns(s[n..], min, rep)
    else [s[0]] + ReplaceNewlineRuns(s[1..], min, rep)
  }

  /** A replacement without newlines for every run of one or more leaves no newline at all. */
  lemma {:induction false} ReplaceAllNewlineRuns(s: string, rep: string)
    requires '\n' !in rep
    ensures '\n' !in ReplaceNewlineRuns(s, 1, rep)
    decreases |s|
  {
    if s != [] {
      if s[0] == '\n' {
        ReplaceAllNewlineRuns(s[NewlineRun(s)..], rep);
      } else {
        ReplaceAllNewlineRuns(s[1..], rep);
      }
    }
  }

  /** The characters of `s` other than newlines, in order. */
  function NonNewlines(s: string): string {
    if s == [] then [] else (if s[0] == '\n' then [] else [s[0]]) + NonNewlines(s[1..])
  }

  lemma {:induction false} NonNewlinesAppend(a: string, b: string)
    ensures NonNewlines(a + b) == NonNewlines(a) + NonNewlines(b)
    decreases |a|
  {
    if a != [] {
      var head := if a[0] == '\n' then [] else [a[0]];
      assert (a + b)[0] == a[0];
      assert (a + b)[1..] == a[1..] + b;
      NonNewlinesAppend(a[1..], b);
      calc {
        NonNewlines(a + b);
        head + NonNewlines(a[1..] + b);
        head + (NonNewlines(a[1..]) + NonNewlines(b));
        (head + NonNewlines(a[1..])) + NonNewlines(b);
        NonNewlines(a) + NonNewlines(b);
      }
    } else {
      assert a + b == b;
    }
  }

  lemma {:induction false} NonNewlinesOfNewlines(s: string)
    requires forall i :: 0 <= i < |s| ==> s[i] == '\n'
    ensures NonNewlines(s) == []
    decreases |s|
  {
    if s != [] {
      NonNewlinesOfNewlines(s[1..]);
    }
  }

  predicate NoTripleNewline(s: string) {
    forall i :: 0 <= i < |s| - 2 ==> !(s[i] == '\n' && s[i + 1] == '\n' && s[i + 2] == '\n')
  }

  /** `s.replace(/\n\n+/g, '\n\n')`. */
  function CollapseBlankLines(s: string): string {
    ReplaceNewlineRuns(s, 2, "\n\n")
  }

  lemma NoTripleAfterChar(c: char, t: string)
    requires c != '\n' && NoTripleNewline(t)
    ensures NoTripleNewline([c] + t)
  {
    var r := [c] + t;
    forall i | 0 <= i < |r| - 2
      ensures !(r[i] == '\n' && r[i + 1] == '\n' && r[i + 2] == '\n')
    {
      if i >= 1 {
        assert r[i] == t[i - 1] && r[i + 1] == t[i] && r[i + 2] == t[i + 1];
      }
    }
  }

  lemma NoTripleAfterShortRun(p: string, t: string)
    requires |p| <= 2 && NoTripleNewline(t) && (t == [] || t[0] != '\n')
    ensures NoTripleNewline(p + t)
  {
    var r := p + t;
    forall i | 0 <= i < |r| - 2
      ensures !(r[i] == '\n' && r[i + 1] == '\n' && r[i + 2] == '\n')
    {
      if i >= |p| {
        assert r[i] == t[i - |p|] && r[i + 1] == t[i - |p| + 1] && r[i + 2] == t[i - |p| + 2];
      } else {
        assert r[|p|] == t[0];
      }
    }
  }

  /** A collapsed non-empty input that does not start with a newline starts with the same character. */
  lemma CollapseHead(s: string)
    ensures s == [] ==> CollapseBlankLines(s) == []
    ensures s != [] && s[0] != '\n' ==> CollapseBlankLines(s) != [] && CollapseBlankLines(s)[0] == s[0]
  {
  }

  /** Collapsing leaves no run of three or more newlines. */
  lemma {:induction false} CollapseNoTriple(s: string)
    ensures NoTripleNewline(CollapseBlankLines(s))
    decreases |s|
  {
    if s == [] {
    } else if s[0] == '\n' {
      var n := NewlineRun(s);
      var piece := if n >= 2 then "\n\n" else s[..n];
      CollapseNoTriple(s[n..]);
      CollapseHead(s[n..]);
      assert CollapseBlankLines(s) == piece + CollapseBlankLines(s[n..]);
      NoTripleAfterShortRun(piece, CollapseBlankLines(s[n..]));
    } else {
      CollapseNoTriple(s[1..]);
      assert CollapseBlankLines(s) == [s[0]] + CollapseBlankLines(s[1..]);
      NoTripleAfterChar(s[0], CollapseBlankLines(s[1..]));
    }
  }

  /** Collapsing changes newlines only: every other character is kept, in order. */
  lemma {:induction false} CollapseKeepsText(s: string)
    ensures NonNewlines(CollapseBlankLines(s)) == NonNewlines(s)
    decreases |s|
  {
    if s == [] {
    } else if s[0] == '\n' {
      var n := NewlineRun(s);
      var piece := if n >= 2 then "\n\n" else s[..n];
      var t := CollapseBlankLines(s[n..]);
      CollapseKeepsText(s[n..]);
      assert CollapseBlankLines(s) == piece + t;
      NonNewlinesAppend(piece, t);
      NonNewlinesOfNewlines(piece);
      assert s == s[..n] + s[n..];
      NonNewlinesAppend(s[..n], s[n..]);
      NonNewlinesOfNewlines(s[..n]);
    } else {
      var t := CollapseBlankLines(s[1..]);
      CollapseKeepsText(s[1..]);
      assert CollapseBlankLines(s) == [s[0]] + t;
      NonNewlinesAppend([s[0]], t);
      assert s == [s[0]] + s[1..];
      NonNewlinesAppend([s[0]], s[1..]);
    }
  }

  /** An occurrence past the first character is an occurrence in the rest. */
  lemma OccursShift(s: string, sep: string, j: int)
    requires s != [] && 1 <= j
    ensures OccursAt(s, sep, j) == OccursAt(s[1..], sep, j - 1)
  {
    if j <= |s| - |sep| {
      var a, b := s[j..j + |sep|], s[1..][j - 1..j - 1 + |sep|];
      forall m | 0 <= m < |sep| ensures a[m] == b[m] {
        assert a[m] == s[j + m] && b[m] == s[1..][j - 1 + m];
      }
      assert a == b;
    }
  }

  /** The first position where `sep` occurs in `s`, or -1: `s.indexOf(sep)`. */
  function IndexOf(s: string, sep: string): (r: int)
    requires |sep| > 0
    ensures r < 0 ==> r == -1 && !Contains(s, sep)
    ensures r >= 0 ==> OccursAt(s, sep, r)
    ensures r >= 0 ==> forall j :: 0 <= j < r ==> !OccursAt(s, sep, j)
    decreases |s|
  {
    if |s| < |sep| then -1
    else if s[..|sep|] == sep then 0
    else
      var r := IndexOf(s[1..], sep);
      assert forall j :: 1 <= j ==> OccursAt(s, sep, j) == OccursAt(s[1..], sep, j - 1) by {
        forall j | 1 <= j {
          OccursShift(s, sep, j);
        }
      }
      if r < 0 then -1 else r + 1
  }

  /** `s.split(sep)` for a non-empty separator: the pieces between successive leftmost occurrences. */
  function SplitOn(s: string, sep: string): (parts: seq<string>)
    requires |sep| > 0
    ensures |parts| >= 1
    decreases |s|
  {
    var i := IndexOf(s, sep);
    if i < 0 then [s] else [s[..i]] + SplitOn(s[i + |sep|..], sep)
  }

  /** `parts.join(sep)`. */
  function JoinWith(parts: seq<string>, sep: string): string {
    if |parts| == 0 then ""
    else if |parts| == 1 then parts[0]
    else parts[0] + sep + JoinWith(parts[1..], sep)
  }

  lemma JoinCons(x: string, parts: seq<string>, sep: string)
    requires |parts| >= 1
    ensures JoinWith([x] + parts, sep) == x + sep + JoinWith(parts, sep)
  {
    assert ([x] + parts)[1..] == parts;
  }

  lemma AroundOccurrence(s: string, sep: string, i: int)
    requires OccursAt(s, sep, i)
    ensures s == s[..i] + sep + s[i + |sep|..]
  {
    assert s == s[..i] + s[i..i + |sep|] + s[i + |sep|..];
  }

  /** Joining the pieces of a split with the same separator gives back the string. */
  lemma {:induction false} SplitJoin(s: string, sep: string)
    requires |sep| > 0
    ensures JoinWith(SplitOn(s, sep), sep) == s
    decreases |s|
  {
    var i := IndexOf(s, sep);
    if i >= 0 {
      var rest := s[i + |sep|..];
      var parts := SplitOn(rest, sep);
      SplitJoin(rest, sep);
      assert SplitOn(s, sep) == [s[..i]] + parts;
      JoinCons(s[..i], parts, sep);
      AroundOccurrence(s, sep, i);
    } else {
      assert SplitOn(s, sep) == [s];
    }
  }

  /** The text before the first occurrence of `sep` does not contain `sep`. */
  lemma NoneBefore(s: string, sep: string, i: int)
    requires 0 <= i <= |s| && |sep| > 0
    requires forall j :: 0 <= j < i ==> !OccursAt(s, sep, j)
    ensures !Contains(s[..i], sep)
  {
    var pre := s[..i];
    forall j | 0 <= j <= |pre| - |sep| ensures !OccursAt(pre, sep, j) {
      assert pre[j..j + |sep|] == s[j..j + |sep|];
      assert !OccursAt(s, sep, j);
    }
  }

  /** No piece of a split contains the separator. */
  lemma {:induction false} SplitPiecesFree(s: string, sep: string)
    requires |sep| > 0
    ensures forall k :: 0 <= k < |SplitOn(s, sep)| ==> !Contains(SplitOn(s, sep)[k], sep)
    decreases |s|
  {
    var i := IndexOf(s, sep);
    var parts := SplitOn(s, sep);
    if i >= 0 {
      var rest := SplitOn(s[i + |sep|..], sep);
      SplitPiecesFree(s[i + |sep|..], sep);
      NoneBefore(s, sep, i);
      assert parts == [s[..i]] + rest;
      forall k | 0 <= k < |parts| ensures !Contains(parts[k], sep) {
        if k > 0 {
          assert parts[k] == rest[k - 1];
        }
      }
    } else {
      assert parts == [s];
    }
  }

  /** Occurrences of the space character. */
  function SpaceCount(s: string): nat {
    multiset(s)[' ']
  }

  /** `s.split(' ').length`, the source's word count. */
  function WordCount(s: string): nat {
    |SplitOn(s, " ")|
  }

  /** The word count is one more than the number of spaces, whatever the text. */
  lemma {:induction false} WordCountIsSpacesPlusOne(s: string)
    ensures WordCount(s) == SpaceCount(s) + 1
    decreases |s|
  {
    var i := IndexOf(s, " ");
    if i < 0 {
      forall k | 0 <= k < |s| ensures s[k] != ' ' {
        assert s[k..k + 1] == [s[k]];
        assert !OccursAt(s, " ", k);
      }
    } else {
      var rest := s[i + 1..];
      WordCountIsSpacesPlusOne(rest);
      assert s == s[..i] + " " + rest;
      forall k | 0 <= k < i ensures s[..i][k] != ' ' {
        assert s[k..k + 1] == [s[k]];
        assert !OccursAt(s, " ", k);
      }
      assert OccursAt(s, " ", i);
    }
  }

  function DigitChar(d: nat): (c: char)
    requires d < 10
    ensures '0' <= c <= '9' && c as int - '0' as int == d
  {
    ('0' as int + d) as char
  }

  /** The decimal form of `n`, as a template literal renders a non-negative integer. */
  function DecimalString(n: nat): (r: string)
    ensures |r| >= 1
  {
    if n < 10 then [DigitChar(n)] else DecimalString(n / 10) + [DigitChar(n % 10)]
  }
}
