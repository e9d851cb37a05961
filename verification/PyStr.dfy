/** The Python string primitives the core relies on: `str.isspace`, `str.strip`,
    the whitespace `int()` and `float()` skip, `str.find`, `str.lower` (ASCII only),
    the `in` test for substrings, code-point ordering of strings, `str(int)`, and
    `str.split` / `str.join` on a one-character separator. */
module PyStr {

  /** `str.isspace()` for one character: the characters CPython strips in `str.strip()`. */
  predicate IsSpace(c: char)
  {
    || c == ' '
    || ('\t' <= c <= '\r')
    || ('\U{1C}' <= c <= '\U{1F}')
    || c == '\U{85}' || c == '\U{A0}' || c == '\U{1680}'
    || ('\U{2000}' <= c <= '\U{200A}')
    || c == '\U{2028}' || c == '\U{2029}' || c == '\U{202F}' || c == '\U{205F}' || c == '\U{3000}'
  }

  /** Which whitespace a trim removes: `str.strip()` removes every `str.isspace()`
      character, while `int()` and `float()` skip all of them except the four
      information separators U+001C..U+001F, which they refuse. */
  datatype Blanks = TextBlanks | NumberBlanks

  predicate Blank(b: Blanks, c: char)
  {
    IsSpace(c) && (b == NumberBlanks ==> !('\U{1C}' <= c <= '\U{1F}'))
  }

  /** Index of the first character at or after `i` that is not blank (|s| if there is none). */
  function LeftEdge(b: Blanks, s: string, i: nat): (j: nat)
    requires i <= |s|
    ensures i <= j <= |s|
    ensures forall k :: i <= k < j ==> Blank(b, s[k])
    ensures j < |s| ==> !Blank(b, s[j])
    decreases |s| - i
  {
    if i < |s| && Blank(b, s[i]) then LeftEdge(b, s, i + 1) else i
  }

  /** One past the last character before `hi` that is not blank, looking no further
      left than `lo` (`lo` if there is none). */
  function RightEdge(b: Blanks, s: string, lo: nat, hi: nat): (j: nat)
    requires lo <= hi <= |s|
    ensures lo <= j <= hi
    ensures forall k :: j <= k < hi ==> Blank(b, s[k])
    ensures j > lo ==> !Blank(b, s[j - 1])
    decreases hi
  {
    if hi > lo && Blank(b, s[hi - 1]) then RightEdge(b, s, lo, hi - 1) else hi
  }

  /** Drop the blanks of kind `b` at both ends of `s`. */
  function Trim(b: Blanks, s: string): (r: string)
    ensures |r| <= |s|
    ensures r != [] ==> !Blank(b, r[0]) && !Blank(b, r[|r| - 1])
  {
    var i := LeftEdge(b, s, 0);
    s[i..RightEdge(b, s, i, |s|)]
  }

  /** `s.strip()`. */
  function Strip(s: string): (r: string)
    ensures r != [] ==> !IsSpace(r[0]) && !IsSpace(r[|r| - 1])
  {
    Trim(TextBlanks, s)
  }

  /** The text `int()` and `float()` read a number from. */
  function NumberStrip(s: string): string
  {
    Trim(NumberBlanks, s)
  }

  /** A trim removes exactly the blanks at the two ends: the result is the slice
      of `s` between two edges outside which every character is blank. */
  lemma TrimIsMaximalSlice(b: Blanks, s: string)
    ensures exists i, j ::
              && 0 <= i <= j <= |s| && Trim(b, s) == s[i..j]
              && (forall k :: 0 <= k < i ==> Blank(b, s[k]))
              && (forall k :: j <= k < |s| ==> Blank(b, s[k]))
  {
    var i := LeftEdge(b, s, 0);
    var j := RightEdge(b, s, i, |s|);
    assert Trim(b, s) == s[i..j];
  }

  /** A string with no blank at either end is its own trim. */
  lemma TrimTrimmed(b: Blanks, s: string)
    requires s != [] ==> !Blank(b, s[0]) && !Blank(b, s[|s| - 1])
    ensures Trim(b, s) == s
  {
    assert LeftEdge(b, s, 0) == 0;
    assert RightEdge(b, s, 0, |s|) == |s|;
  }

  /** Trimming twice is trimming once. */
  lemma TrimIdempotent(b: Blanks, s: string)
    ensures Trim(b, Trim(b, s)) == Trim(b, s)
  {
    TrimTrimmed(b, Trim(b, s));
  }

  /** Index of the first `c` in `s`, or |s| (`s.find(c)` with |s| for -1). */
  function FirstIndex(s: string, c: char): (i: nat)
    ensures i <= |s|
    ensures forall k :: 0 <= k < i ==> s[k] != c
    ensures i < |s| ==> s[i] == c
  {
    if s == [] || s[0] == c then 0 else 1 + FirstIndex(s[1..], c)
  }

  lemma {:induction false} FirstIndexAbsent(s: string, c: char)
    requires c !in s
    ensures FirstIndex(s, c) == |s|
  {
    if s != [] {
      assert s[0] != c && c !in s[1..];
      FirstIndexAbsent(s[1..], c);
    }
  }

  /** The first `c` of `p + [c] + q` is the one after `p` when `p` holds none. */
  lemma {:induction false} FirstIndexAfter(p: string, c: char, q: string)
    requires c !in p
    ensures FirstIndex(p + [c] + q, c) == |p|
    decreases |p|
  {
    if p != [] {
      assert (p + [c] + q)[1..] == p[1..] + [c] + q;
      assert c !in p[1..];
      FirstIndexAfter(p[1..], c, q);
    }
  }

  /** `c.lower()` for ASCII letters; every other character is left alone. */
  function LowerChar(c: char): (r: char)
    ensures 'A' <= c <= 'Z' ==> 'a' <= r <= 'z'
    ensures !('A' <= c <= 'Z') ==> r == c
  {
    if 'A' <= c <= 'Z' then (c as int + 32) as char else c
  }

  function Lower(s: string): (r: string)
    ensures |r| == |s|
    ensures forall k :: 0 <= k < |s| ==> r[k] == LowerChar(s[k])
  {
    seq(|s|, k requires 0 <= k < |s| => LowerChar(s[k]))
  }

  /** `needle` occurs in `hay` starting at index `i`. */
  predicate OccursAt(needle: string, hay: string, i: int)
  {
    0 <= i && i + |needle| <= |hay| && hay[i..i + |needle|] == needle
  }

  /** Python's `needle in hay` for strings. */
  predicate IsSubstring(needle: string, hay: string)
  {
    exists i | 0 <= i <= |hay| - |needle| :: OccursAt(needle, hay, i)
  }

  /** Python's `a < b` on `str`: lexicographic by code point. */
  predicate CodeLess(a: string, b: string)
    decreases |a|
  {
    if a == [] then b != []
    else if b == [] then false
    else if a[0] != b[0] then a[0] < b[0]
    else CodeLess(a[1..], b[1..])
  }

  /** Code-point order is irreflexive and total: exactly one of a < b, a == b, b < a. */
  lemma {:induction false} CodeLessTrichotomy(a: string, b: string)
    ensures !CodeLess(a, a)
    ensures a != b ==> (CodeLess(a, b) <==> !CodeLess(b, a))
    decreases |a|
  {
    if a != [] && b != [] {
      CodeLessTrichotomy(a[1..], b[1..]);
      if a[0] == b[0] && a != b {
        assert a == [a[0]] + a[1..] && b == [b[0]] + b[1..];
        assert a[1..] != b[1..];
      }
    } else if a != [] {
      CodeLessTrichotomy(a[1..], a[1..]);
    }
  }

  predicate IsDigit(c: char)
  {
    '0' <= c <= '9'
  }

  function DigitValue(c: char): (n: nat)
    requires IsDigit(c)
    ensures n < 10
  {
    c as int - '0' as int
  }

  function DigitChar(n: nat): (c: char)
    requires n < 10
    ensures IsDigit(c) && DigitValue(c) == n
  {
    ('0' as int + n) as char
  }

  /** `str(n)` for a natural number: its decimal digits, most significant first. */
  function NatToText(n: nat): (r: string)
    ensures |r| > 0
    ensures forall k :: 0 <= k < |r| ==> IsDigit(r[k])
  {
    if n < 10 then [DigitChar(n)] else NatToText(n / 10) + [DigitChar(n % 10)]
  }

  /** `str(i)` for a Python int. */
  function IntToText(i: int): (r: string)
    ensures |r| > 0
  {
    if i < 0 then "-" + NatToText(-i) else NatToText(i)
  }

  /** `sep.join(pieces)`. */
  function Join(pieces: seq<string>, sep: char): string
  {
    if pieces == [] then []
    else if |pieces| == 1 then pieces[0]
    else pieces[0] + [sep] + Join(pieces[1..], sep)
  }

  /** Number of occurrences of `c` in `s`. */
  function Count(s: string, c: char): nat
  {
    if s == [] then 0 else (if s[0] == c then 1 else 0) + Count(s[1..], c)
  }

  /** `s.split(sep)` for a one-character separator: the pieces between separators,
      in order; there is one more piece than there are separators and no piece
      holds the separator. */
  function Split(s: string, sep: char): (r: seq<string>)
    ensures |r| == Count(s, sep) + 1
    ensures forall p :: p in r ==> sep !in p
    decreases |s|
  {
    if s == [] then [[]]
    else
      var rest := Split(s[1..], sep);
      if s[0] == sep then [[]] + rest
      else [[s[0]] + rest[0]] + rest[1..]
  }

  /** Joining the pieces of a split with the same separator gives the string back. */
  lemma {:induction false} JoinSplit(s: string, sep: char)
    ensures Join(Split(s, sep), sep) == s
    decreases |s|
  {
    if s != [] {
      var rest := Split(s[1..], sep);
      JoinSplit(s[1..], sep);
      if s[0] == sep {
        assert Split(s, sep) == [[]] + rest;
      } else {
        var r := Split(s, sep);
        assert r == [[s[0]] + rest[0]] + rest[1..];
        if |rest| == 1 {
          assert Join(rest, sep) == rest[0];
        } else {
          assert Join(rest, sep) == rest[0] + [sep] + Join(rest[1..], sep);
          assert r[1..] == rest[1..];
        }
      }
    }
  }
}
