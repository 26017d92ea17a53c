/**
 * The handful of Python `str` operations that the grading scripts rely on,
 * written over `string` (= `seq<char>`): `strip`, `strip(c)`, `split(c)`,
 * `c.join`, `count`, the `in` substring test, `replace(p, '')`,
 * `splitlines(keepends=True)` and `str(int)`.
 */
module Text {

  // ---------------------------------------------------------------------
  // Character classes
  // ---------------------------------------------------------------------

  /** The characters for which Python's `str.isspace()` holds (also what `\s` matches). */
  predicate IsSpace(c: char) {
    var n := c as int;
    n == 0x20 || 0x09 <= n <= 0x0D || 0x1C <= n <= 0x1F || n == 0x85 || n == 0xA0 ||
    n == 0x1680 || 0x2000 <= n <= 0x200A || n == 0x2028 || n == 0x2029 ||
    n == 0x202F || n == 0x205F || n == 0x3000
  }

  /** The line boundaries recognised by Python's `str.splitlines`. */
  predicate IsLineBreak(c: char) {
    var n := c as int;
    0x0A <= n <= 0x0D || 0x1C <= n <= 0x1E || n == 0x85 || n == 0x2028 || n == 0x2029
  }

  predicate IsAsciiDigit(c: char) { '0' <= c <= '9' }
  predicate IsAsciiLower(c: char) { 'a' <= c <= 'z' }
  predicate IsAsciiUpper(c: char) { 'A' <= c <= 'Z' }
  predicate IsAsciiAlnum(c: char) { IsAsciiDigit(c) || IsAsciiLower(c) || IsAsciiUpper(c) }

  /** `str.isdigit()`, on ASCII text. */
  predicate IsDigitWord(s: string) {
    |s| > 0 && forall k :: 0 <= k < |s| ==> IsAsciiDigit(s[k])
  }

  /** The regular-expression class `\w` restricted to ASCII. */
  predicate IsWordChar(c: char) { IsAsciiAlnum(c) || c == '_' }

  // ---------------------------------------------------------------------
  // Substrings
  // ---------------------------------------------------------------------

  /** The end of the longest run of characters in the class `inClass` starting at `i`. */
  function RunEnd(s: string, i: nat, inClass: char -> bool): (j: nat)
    requires i <= |s|
    ensures i <= j <= |s|
    ensures forall k :: i <= k < j ==> inClass(s[k])
    ensures j == |s| || !inClass(s[j])
    decreases |s| - i
  {
    if i < |s| && inClass(s[i]) then RunEnd(s, i + 1, inClass) else i
  }

  /** A run that stops at a character outside the class ends there. */
  lemma {:induction false} RunEndAt(s: string, a: nat, b: nat, inClass: char -> bool)
    requires a <= b <= |s| && (b == |s| || !inClass(s[b]))
    requires forall k :: a <= k < b ==> inClass(s[k])
    ensures RunEnd(s, a, inClass) == b
    decreases b - a
  {
    if a < b {
      RunEndAt(s, a + 1, b, inClass);
    }
  }

  /** `p` occurs in `s` starting at offset `i`. */
  predicate HasPrefixAt(s: string, i: nat, p: string) {
    i + |p| <= |s| && s[i..i + |p|] == p
  }

  /** An occurrence inside a slice is an occurrence in the whole text, at the shifted position. */
  lemma PrefixInSlice(s: string, w: nat, e: nat, j: nat, p: string)
    requires w <= j && j + |p| <= e <= |s|
    ensures HasPrefixAt(s[w..e], j - w, p) <==> HasPrefixAt(s, j, p)
  {
    var a := s[w..e][j - w..j - w + |p|];
    var b := s[j..j + |p|];
    assert |a| == |b|;
    forall d | 0 <= d < |p| ensures a[d] == b[d] {
      assert a[d] == s[w..e][j - w + d] == s[j + d];
    }
    assert a == b;
  }

  /** Python's `s.endswith(p)`. */
  predicate EndsWith(s: string, p: string) {
    |p| <= |s| && s[|s| - |p|..] == p
  }

  lemma Assoc(p: string, q: string, r: string)
    ensures p + (q + r) == p + q + r
  {
  }

  /** A string placed between two others occurs where it was placed. */
  lemma PrefixAtConcat(a: string, p: string, b: string)
    ensures HasPrefixAt(a + p + b, |a|, p)
  {
    assert (a + p + b)[|a|..|a| + |p|] == p;
  }

  /** Python's `p in s` for two strings. */
  predicate IsSubstring(p: string, s: string) {
    exists i: nat | i <= |s| :: HasPrefixAt(s, i, p)
  }

  lemma SubstringOfConcat(a: string, p: string, b: string)
    ensures IsSubstring(p, a + p + b)
  {
    assert (a + p + b)[|a|..|a| + |p|] == p;
    assert HasPrefixAt(a + p + b, |a|, p);
  }

  /** A substring of a part is a substring of the whole. */
  lemma SubstringMonotone(p: string, a: string, s: string, i: nat)
    requires IsSubstring(p, a)
    requires i + |a| <= |s| && s[i..i + |a|] == a
    ensures IsSubstring(p, s)
  {
    var k: nat :| k <= |a| && HasPrefixAt(a, k, p);
    assert k + |p| <= |a|;
    forall j | 0 <= j < |p|
      ensures s[i + k..i + k + |p|][j] == p[j]
    {
      assert s[i + k + j] == s[i..i + |a|][k + j] == a[k + j] == a[k..k + |p|][j];
    }
    assert HasPrefixAt(s, i + k, p);
  }

  // ---------------------------------------------------------------------
  // count, strip
  // ---------------------------------------------------------------------

  /** Python's `s.count(c)` for a one-character argument. */
  function Count(s: string, c: char): (n: nat)
    ensures n <= |s|
    ensures n == 0 <==> c !in s
  {
    if s == [] then 0 else (if s[0] == c then 1 else 0) + Count(s[1..], c)
  }

  lemma {:induction false} CountAppend(a: string, b: string, c: char)
    ensures Count(a + b, c) == Count(a, c) + Count(b, c)
  {
    if a == [] {
      assert a + b == b;
    } else {
      assert (a + b)[1..] == a[1..] + b;
      CountAppend(a[1..], b, c);
    }
  }

  /** Drops the leading characters satisfying `drop`. */
  function StripLeftBy(s: string, drop: char -> bool): (r: string)
    ensures |r| <= |s| && r == s[|s| - |r|..]
    ensures r == [] || !drop(r[0])
    ensures forall k :: 0 <= k < |s| - |r| ==> drop(s[k])
  {
    if s != [] && drop(s[0]) then StripLeftBy(s[1..], drop) else s
  }

  /** Drops the trailing characters satisfying `drop`. */
  function StripRightBy(s: string, drop: char -> bool): (r: string)
    ensures |r| <= |s| && r == s[..|r|]
    ensures r == [] || !drop(r[|r| - 1])
    ensures forall k :: |r| <= k < |s| ==> drop(s[k])
  {
    if s != [] && drop(s[|s| - 1]) then StripRightBy(s[..|s| - 1], drop) else s
  }

  /** Python's `s.strip()`: whitespace removed at both ends. */
  function Strip(s: string): (r: string)
    ensures |r| <= |s|
    ensures r == [] || (!IsSpace(r[0]) && !IsSpace(r[|r| - 1]))
  {
    StripRightBy(StripLeftBy(s, IsSpace), IsSpace)
  }

  /** Python's `s.strip(c)` for a one-character argument. */
  function StripChar(s: string, c: char): (r: string)
    ensures |r| <= |s|
    ensures r == [] || (r[0] != c && r[|r| - 1] != c)
  {
    StripRightBy(StripLeftBy(s, x => x == c), x => x == c)
  }

  /** Stripping returns a contiguous slice of its input. */
  lemma StripIsSlice(s: string, drop: char -> bool)
    ensures var l := StripLeftBy(s, drop);
            var r := StripRightBy(l, drop);
            |s| - |l| + |r| <= |s| && r == s[|s| - |l|..|s| - |l| + |r|]
  {
  }

  // ---------------------------------------------------------------------
  // split and join on one character
  // ---------------------------------------------------------------------

  /** The first position of `c` in `s`. */
  function IndexOf(s: string, c: char): (i: nat)
    requires c in s
    ensures i < |s| && s[i] == c && c !in s[..i]
  {
    if s[0] == c then 0 else 1 + IndexOf(s[1..], c)
  }

  /** A position holding `c` with no earlier `c` is the first position. */
  lemma {:induction false} IndexOfUnique(s: string, c: char, i: nat)
    requires i < |s| && s[i] == c && c !in s[..i]
    ensures IndexOf(s, c) == i
  {
    if i > 0 {
      assert s[0] == s[..i][0];
      assert s[1..][..i - 1] == s[..i][1..];
      IndexOfUnique(s[1..], c, i - 1);
    }
  }

  /** Python's `s.split(sep)` for a one-character separator. */
  function Split(s: string, sep: char): (parts: seq<string>)
    ensures |parts| >= 1
    ensures forall k :: 0 <= k < |parts| ==> sep !in parts[k]
    decreases |s|
  {
    if sep in s then
      var i := IndexOf(s, sep);
      [s[..i]] + Split(s[i + 1..], sep)
    else
      [s]
  }

  /** Python's `sep.join(parts)` for a one-character separator. */
  function Join(parts: seq<string>, sep: char): string {
    if |parts| == 0 then ""
    else if |parts| == 1 then parts[0]
    else parts[0] + [sep] + Join(parts[1..], sep)
  }

  lemma {:induction false} JoinSnoc(parts: seq<string>, x: string, c: char)
    requires |parts| >= 1
    ensures Join(parts + [x], c) == Join(parts, c) + [c] + x
  {
    if |parts| > 1 {
      assert (parts + [x])[1..] == parts[1..] + [x];
      JoinSnoc(parts[1..], x, c);
    }
  }

  lemma JoinCons(a: string, rest: seq<string>, c: char)
    requires |rest| >= 1
    ensures Join([a] + rest, c) == a + ([c] + Join(rest, c))
  {
    assert ([a] + rest)[1..] == rest;
  }

  /** Joining two non-empty lists puts one separator between their joins. */
  lemma {:induction false} JoinAppend(a: seq<string>, b: seq<string>, c: char)
    requires |a| >= 1 && |b| >= 1
    ensures Join(a + b, c) == Join(a, c) + [c] + Join(b, c)
  {
    if |a| == 1 {
      assert a + b == [a[0]] + b;
      JoinCons(a[0], b, c);
    } else {
      assert (a + b)[1..] == a[1..] + b;
      JoinAppend(a[1..], b, c);
    }
  }

  /** Joining the pieces of a split gives the string back. */
  lemma {:induction false} JoinSplit(s: string, sep: char)
    ensures Join(Split(s, sep), sep) == s
    decreases |s|
  {
    if sep in s {
      var i := IndexOf(s, sep);
      JoinSplit(s[i + 1..], sep);
      var rest := Split(s[i + 1..], sep);
      assert Split(s, sep) == [s[..i]] + rest;
      assert ([s[..i]] + rest)[1..] == rest;
      assert s == s[..i] + [sep] + s[i + 1..];
    }
  }

  /** Splitting a join of separator-free pieces gives the pieces back. */
  lemma {:induction false} SplitJoin(parts: seq<string>, sep: char)
    requires |parts| >= 1
    requires forall k :: 0 <= k < |parts| ==> sep !in parts[k]
    ensures Split(Join(parts, sep), sep) == parts
  {
    if |parts| == 1 {
    } else {
      var tail := Join(parts[1..], sep);
      var s := parts[0] + [sep] + tail;
      SplitJoin(parts[1..], sep);
      assert s[|parts[0]|] == sep;
      assert s[..|parts[0]|] == parts[0];
      IndexOfUnique(s, sep, |parts[0]|);
      assert s[|parts[0]| + 1..] == tail;
    }
  }

  /** The last piece of a split is a suffix without separators, preceded by a separator unless it is the whole text. */
  lemma LastPiece(s: string, sep: char)
    ensures var ps := Split(s, sep);
      && sep !in ps[|ps| - 1]
      && EndsWith(s, ps[|ps| - 1])
      && (|ps[|ps| - 1]| < |s| ==> s[|s| - |ps[|ps| - 1]| - 1] == sep)
  {
    var ps := Split(s, sep);
    var l := ps[|ps| - 1];
    if |ps| > 1 {
      var init := ps[..|ps| - 1];
      assert s == Join(init, sep) + [sep] + l by {
        assert ps == init + [l];
        JoinSplit(s, sep);
        JoinSnoc(init, l, sep);
      }
      assert s[|s| - |l|..] == l;
    } else {
      assert s == l by {
        JoinSplit(s, sep);
      }
    }
  }

  /** The number of pieces is one more than the number of separators. */
  lemma {:induction false} SplitLength(s: string, sep: char)
    ensures |Split(s, sep)| == Count(s, sep) + 1
    decreases |s|
  {
    if sep in s {
      var i := IndexOf(s, sep);
      SplitLength(s[i + 1..], sep);
      assert s == s[..i] + ([sep] + s[i + 1..]);
      CountAppend(s[..i], [sep] + s[i + 1..], sep);
      assert ([sep] + s[i + 1..])[1..] == s[i + 1..];
    }
  }

  // ---------------------------------------------------------------------
  // replace(p, '') and splitlines(keepends=True)
  // ---------------------------------------------------------------------

  /**
   * Python's `s.replace(p, '')`: occurrences of `p` are found left to
   * right without overlap and deleted.
   */
  function RemoveAll(s: string, p: string): (r: string)
    requires |p| > 0
    ensures |r| <= |s|
    decreases |s|
  {
    if |s| < |p| then s
    else if s[..|p|] == p then RemoveAll(s[|p|..], p)
    else [s[0]] + RemoveAll(s[1..], p)
  }

  /** With no occurrence of `p` there is nothing to delete. */
  lemma {:induction false} RemoveAllAbsent(s: string, p: string)
    requires |p| > 0 && !IsSubstring(p, s)
    ensures RemoveAll(s, p) == s
    decreases |s|
  {
    if |s| >= |p| {
      assert !HasPrefixAt(s, 0, p);
      assert !IsSubstring(p, s[1..]) by {
        if IsSubstring(p, s[1..]) {
          SubstringMonotone(p, s[1..], s, 1);
        }
      }
      RemoveAllAbsent(s[1..], p);
      assert s == [s[0]] + s[1..];
    }
  }

  /** When `s` does not start with `p`, its first character is kept. */
  lemma RemoveAllKeepsHead(s: string, p: string)
    requires |p| > 0 && |s| > 0 && !HasPrefixAt(s, 0, p)
    ensures RemoveAll(s, p) == [s[0]] + RemoveAll(s[1..], p)
  {
    if |s| < |p| {
      assert s == [s[0]] + s[1..];
    }
  }

  lemma RemoveAllDropsPrefix(s: string, p: string)
    requires |p| > 0 && HasPrefixAt(s, 0, p)
    ensures RemoveAll(s, p) == RemoveAll(s[|p|..], p)
  {
  }

  lemma RemoveAllShort(s: string, p: string)
    requires 0 < |p| && |s| < |p|
    ensures RemoveAll(s, p) == s
  {
  }

  /** Deleting `p` at the front of `p + t` leaves the deletion of `t`. */
  lemma RemoveAllAfterPrefix(p: string, t: string)
    requires |p| > 0
    ensures RemoveAll(p + t, p) == RemoveAll(t, p)
  {
    var s := p + t;
    assert s[..|p|] == p;
    assert s[|p|..] == t;
    RemoveAllDropsPrefix(s, p);
  }

  /** A character that does not start `p` is kept in front. */
  lemma RemoveAllCons(a: char, t: string, p: string)
    requires |p| > 0 && a != p[0]
    ensures RemoveAll([a] + t, p) == [a] + RemoveAll(t, p)
  {
    var s := [a] + t;
    assert s[1..] == t;
    assert |p| <= |s| ==> s[..|p|][0] == a;
    RemoveAllKeepsHead(s, p);
  }

  lemma RemoveAllExampleTail(p: string)
    requires |p| > 3
    ensures RemoveAll(p + "ynb", p) == "ynb"
  {
    RemoveAllShort("ynb", p);
    RemoveAllAfterPrefix(p, "ynb");
  }

  /** Two characters that do not start `p` are both kept in front. */
  lemma RemoveAllConsTwo(a: char, b: char, t: string, p: string)
    requires |p| > 0 && a != p[0] && b != p[0]
    ensures RemoveAll([a, b] + t, p) == [a, b] + RemoveAll(t, p)
  {
    RemoveAllCons(b, t, p);
    assert [a, b] + t == [a] + ([b] + t);
    RemoveAllCons(a, [b] + t, p);
    assert [a] + ([b] + RemoveAll(t, p)) == [a, b] + RemoveAll(t, p);
  }

  /** Deleting can bring two halves of the pattern together: the result may still contain it. */
  lemma RemoveAllCanLeaveOccurrence(s: string, p: string)
    requires s == ".ip.ipynbynb" && p == ".ipynb"
    ensures RemoveAll(s, p) == p
  {
    var t := p + "ynb";
    var u := ['i', 'p'] + t;
    assert s == ['.'] + u;
    RemoveAllExampleTail(p);
    RemoveAllConsTwo('i', 'p', t, p);
    assert !HasPrefixAt(s, 0, p) by {
      assert s[3] != p[3];
    }
    RemoveAllKeepsHead(s, p);
    assert s[1..] == u;
  }

  /** The end of the first line of `s` (just past its line break), or `|s|`. */
  function LineEnd(s: string): (k: nat)
    requires |s| > 0
    ensures 0 < k <= |s|
    ensures forall j :: 0 <= j < k - 1 ==> !IsLineBreak(s[j]) || (j == k - 2 && s[j] == '\r' && s[k - 1] == '\n')
    ensures k < |s| ==> IsLineBreak(s[k - 1])
  {
    if IsLineBreak(s[0]) then
      (if s[0] == '\r' && |s| > 1 && s[1] == '\n' then 2 else 1)
    else if |s| == 1 then 1
    else 1 + LineEnd(s[1..])
  }

  /** Python's `s.splitlines(keepends=True)`. */
  function SplitLinesKeepEnds(s: string): (lines: seq<string>)
    ensures forall k :: 0 <= k < |lines| ==> |lines[k]| > 0
    decreases |s|
  {
    if s == [] then []
    else
      var k := LineEnd(s);
      [s[..k]] + SplitLinesKeepEnds(s[k..])
  }

  predicate EndsInBreak(line: string) {
    |line| > 0 && IsLineBreak(line[|line| - 1])
  }

  /** When the text ends with a line break, so does every one of its lines. */
  lemma {:induction false} LinesEndWithBreak(s: string)
    requires EndsInBreak(s)
    ensures forall k :: 0 <= k < |SplitLinesKeepEnds(s)| ==> EndsInBreak(SplitLinesKeepEnds(s)[k])
    decreases |s|
  {
    var e := LineEnd(s);
    var rest := SplitLinesKeepEnds(s[e..]);
    assert SplitLinesKeepEnds(s) == [s[..e]] + rest;
    assert EndsInBreak(s[..e]);
    if e < |s| {
      assert s[e..][|s[e..]| - 1] == s[|s| - 1];
      LinesEndWithBreak(s[e..]);
    }
  }

  /** The concatenation of a list of strings (`''.join(lines)`). */
  function Concat(lines: seq<string>): string {
    if lines == [] then "" else lines[0] + Concat(lines[1..])
  }

  /** Keeping the line ends loses nothing: concatenating the lines gives the text back. */
  lemma {:induction false} SplitLinesRoundTrip(s: string)
    ensures Concat(SplitLinesKeepEnds(s)) == s
    decreases |s|
  {
    if s != [] {
      var k := LineEnd(s);
      SplitLinesRoundTrip(s[k..]);
      var lines := SplitLinesKeepEnds(s);
      assert lines[1..] == SplitLinesKeepEnds(s[k..]);
      assert s == s[..k] + s[k..];
    }
  }

  // ---------------------------------------------------------------------
  // str(int)
  // ---------------------------------------------------------------------

  function DigitChar(d: nat): (c: char)
    requires d < 10
    ensures IsAsciiDigit(c)
  {
    ['0', '1', '2', '3', '4', '5', '6', '7', '8', '9'][d]
  }

  function DigitValue(c: char): nat
    requires IsAsciiDigit(c)
  {
    (c as int) - ('0' as int)
  }

  /** Decimal rendering of a natural number, as Python's `str` writes it. */
  function NatToString(n: nat): (r: string)
    ensures |r| >= 1 && (r[0] != '0' || r == "0")
    ensures forall k :: 0 <= k < |r| ==> IsAsciiDigit(r[k])
  {
    if n < 10 then [DigitChar(n)] else NatToString(n / 10) + [DigitChar(n % 10)]
  }

  /** The value of a string of decimal digits. */
  function DecimalValue(s: string): nat
    requires forall k :: 0 <= k < |s| ==> IsAsciiDigit(s[k])
  {
    if s == [] then 0 else 10 * DecimalValue(s[..|s| - 1]) + DigitValue(s[|s| - 1])
  }

  /** Reading back a rendered number gives the number. */
  lemma {:induction false} NatToStringRoundTrip(n: nat)
    ensures DecimalValue(NatToString(n)) == n
  {
    var r := NatToString(n);
    if n < 10 {
      assert r[..0] == [];
    } else {
      NatToStringRoundTrip(n / 10);
      assert r[..|r| - 1] == NatToString(n / 10);
    }
  }

  /** Python's `str(n)` for an `int`. */
  function IntToString(n: int): (r: string)
    ensures ',' !in r && '\n' !in r
    ensures |r| >= 1
  {
    if n < 0 then "-" + NatToString(-n) else NatToString(n)
  }
}
