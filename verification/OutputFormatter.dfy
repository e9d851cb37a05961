/** `title_cleaner` (src/output_formatter.py): drops the parenthesised series note
    from a title with the regular expression `\(.*\)` and strips the rest. */
module OutputFormatter {
  import opened Wrappers
  import opened PyStr

  /** Index of the last `)` among the first `hi` characters of `s`. */
  function LastCloseIn(s: string, hi: nat): (r: Option<nat>)
    requires hi <= |s|
    ensures r.Some? ==> r.value < hi && s[r.value] == ')'
    ensures r.Some? ==> forall k :: r.value < k < hi ==> s[k] != ')'
    ensures r.None? ==> forall k :: 0 <= k < hi ==> s[k] != ')'
  {
    if hi == 0 then None
    else if s[hi - 1] == ')' then Some(hi - 1)
    else LastCloseIn(s, hi - 1)
  }

  /** Where a match of `\(.*\)` that starts at the head of `s` ends: `.` is greedy
      and does not cross a line break, so the match runs to the last `)` before
      the first newline. */
  function GroupEnd(s: string): (r: Option<nat>)
    ensures r.Some? ==> 0 < r.value < |s| && s[0] == '(' && s[r.value] == ')'
    ensures r.Some? ==> forall k :: 0 <= k < r.value ==> s[k] != '\n'
    ensures r.None? && s != [] && s[0] == '(' ==>
              forall k :: 0 < k < FirstIndex(s, '\n') ==> s[k] != ')'
  {
    if s != [] && s[0] == '(' then LastCloseIn(s, FirstIndex(s, '\n')) else None
  }

  /** `re.sub(r"\(.*\)", "", s)`: scans left to right, deleting each match and
      resuming after it. */
  function Sub(s: string): (r: string)
    ensures |r| <= |s|
    decreases |s|
  {
    if s == [] then []
    else match GroupEnd(s)
      case Some(j) => Sub(s[j + 1..])
      case None => [s[0]] + Sub(s[1..])
  }

  /** `title_cleaner`. */
  function TitleCleaner(title: string): (r: string)
    ensures |r| <= |title|
    ensures r != [] ==> !IsSpace(r[0]) && !IsSpace(r[|r| - 1])
  {
    Strip(Sub(title))
  }

  /** No `(` comes before a `)`: nothing for the expression to match. */
  predicate NoGroup(s: string)
  {
    forall i, j :: 0 <= i < j < |s| ==> !(s[i] == '(' && s[j] == ')')
  }

  /** On text with no `(` before a `)` the substitution changes nothing. */
  lemma {:induction false} SubIdentity(s: string)
    requires NoGroup(s)
    ensures Sub(s) == s
    decreases |s|
  {
    if s == [] {
      return;
    }
    assert GroupEnd(s).None?;
    assert NoGroup(s[1..]);
    SubIdentity(s[1..]);
    assert [s[0]] + s[1..] == s;
  }

  /** A title with no `(` only loses its surrounding whitespace. */
  lemma NoOpenUnchanged(title: string)
    requires '(' !in title
    ensures TitleCleaner(title) == Strip(title)
  {
    SubIdentity(title);
  }

  /** The substitution copies a prefix that holds no `(`. */
  lemma {:induction false} SubCopiesPrefix(p: string, t: string)
    requires '(' !in p
    ensures Sub(p + t) == p + Sub(t)
    decreases |p|
  {
    if p == [] {
      assert p + t == t;
      return;
    }
    var s := p + t;
    assert s[0] == p[0] && p[0] != '(';
    assert s[1..] == p[1..] + t;
    SubCopiesPrefix(p[1..], t);
    assert [p[0]] + (p[1..] + Sub(t)) == p + Sub(t);
  }

  lemma {:induction false} LastCloseAt(s: string, hi: nat, j: nat)
    requires j < hi <= |s| && s[j] == ')'
    requires forall k :: j < k < hi ==> s[k] != ')'
    ensures LastCloseIn(s, hi) == Some(j)
    decreases hi
  {
    if hi - 1 != j {
      LastCloseAt(s, hi - 1, j);
    }
  }

  /** On a single line, everything from the first `(` through the last `)` goes,
      provided that `)` comes after that `(`. */
  lemma SingleLineRemoval(s: string, i: nat, j: nat)
    requires '\n' !in s
    requires i < j < |s| && s[i] == '(' && s[j] == ')'
    requires forall k :: 0 <= k < i ==> s[k] != '('
    requires forall k :: j < k < |s| ==> s[k] != ')'
    ensures Sub(s) == s[..i] + s[j + 1..]
  {
    assert s == s[..i] + s[i..];
    assert '(' !in s[..i];
    SubCopiesPrefix(s[..i], s[i..]);
    GroupAtHead(s, i, j);
    TailNoGroup(s, j + 1);
    SubIdentity(s[j + 1..]);
  }

  /** On a line, the text from a `(` on loses everything through the line's last `)`. */
  lemma GroupAtHead(s: string, i: nat, j: nat)
    requires '\n' !in s
    requires i < j < |s| && s[i] == '(' && s[j] == ')'
    requires forall k :: j < k < |s| ==> s[k] != ')'
    ensures Sub(s[i..]) == Sub(s[j + 1..])
  {
    var rest := s[i..];
    forall k | 0 <= k < |rest|
      ensures rest[k] == s[i + k]
    {
    }
    assert '\n' !in rest;
    FirstIndexAbsent(rest, '\n');
    LastCloseAt(rest, |rest|, j - i);
    assert GroupEnd(rest) == Some(j - i);
    assert rest[j - i + 1..] == s[j + 1..];
  }

  /** The text after the last `)` has no group. */
  lemma TailNoGroup(s: string, lo: nat)
    requires lo <= |s|
    requires forall k :: lo <= k < |s| ==> s[k] != ')'
    ensures NoGroup(s[lo..])
  {
    var q := s[lo..];
    forall a, b | 0 <= a < b < |q|
      ensures !(q[a] == '(' && q[b] == ')')
    {
      assert q[b] == s[lo + b];
    }
  }

  /** On a single line the substitution leaves no `(` before a `)`. */
  lemma SingleLineNoGroup(s: string)
    requires '\n' !in s
    ensures NoGroup(Sub(s))
  {
    if NoGroup(s) {
      SubIdentity(s);
      return;
    }
    var i0, j0 :| 0 <= i0 < j0 < |s| && s[i0] == '(' && s[j0] == ')';
    var i := FirstIndex(s, '(');
    ReverseIndex(s, ')');
    var j := |s| - 1 - FirstIndex(Reverse(s), ')');
    assert i <= i0 < j0 <= j;
    SingleLineRemoval(s, i, j);
    assert '(' !in s[..i];
    assert ')' !in s[j + 1..];
    JoinNoGroup(s[..i], s[j + 1..]);
  }

  /** Text with no `(` followed by text with no `)` has no group. */
  lemma JoinNoGroup(p: string, q: string)
    requires '(' !in p && ')' !in q
    ensures NoGroup(p + q)
  {
    var r := p + q;
    forall a, b | 0 <= a < b < |r|
      ensures !(r[a] == '(' && r[b] == ')')
    {
      if a < |p| {
        assert r[a] == p[a];
      } else {
        assert r[b] == q[b - |p|];
      }
    }
  }

  function Reverse(s: string): (r: string)
    ensures |r| == |s|
    ensures forall k :: 0 <= k < |s| ==> r[k] == s[|s| - 1 - k]
  {
    seq(|s|, k requires 0 <= k < |s| => s[|s| - 1 - k])
  }

  /** The last `c` of `s` read off the reversed text. */
  lemma ReverseIndex(s: string, c: char)
    requires c in s
    ensures FirstIndex(Reverse(s), c) < |s|
    ensures s[|s| - 1 - FirstIndex(Reverse(s), c)] == c
    ensures forall k :: |s| - 1 - FirstIndex(Reverse(s), c) < k < |s| ==> s[k] != c
  {
    var k :| 0 <= k < |s| && s[k] == c;
    assert Reverse(s)[|s| - 1 - k] == c;
    var r := Reverse(s);
    forall m | |s| - 1 - FirstIndex(r, c) < m < |s|
      ensures s[m] != c
    {
      assert r[|s| - 1 - m] == s[m];
    }
  }

  /** A slice of text with no group has no group. */
  lemma NoGroupSlice(s: string, lo: nat, hi: nat)
    requires NoGroup(s) && lo <= hi <= |s|
    ensures NoGroup(s[lo..hi])
  {
    var t := s[lo..hi];
    forall a, b | 0 <= a < b < |t|
      ensures !(t[a] == '(' && t[b] == ')')
    {
      assert t[a] == s[lo + a] && t[b] == s[lo + b];
    }
  }

  /** On a single-line title, cleaning twice is cleaning once. */
  lemma TitleCleanerIdempotent(title: string)
    requires '\n' !in title
    ensures TitleCleaner(TitleCleaner(title)) == TitleCleaner(title)
  {
    var once := Sub(title);
    SingleLineNoGroup(title);
    TrimIsMaximalSlice(TextBlanks, once);
    var i, j :| 0 <= i <= j <= |once| && Strip(once) == once[i..j];
    NoGroupSlice(once, i, j);
    SubIdentity(Strip(once));
    TrimIdempotent(TextBlanks, once);
  }

  /** A one-line title `name (note)`, with no parenthesis in the name and none
      closing inside the note, loses the note and the space before it. */
  lemma SeriesNoteRemoved(name: string, note: string)
    requires '\n' !in name && '\n' !in note && '(' !in name && ')' !in note
    ensures TitleCleaner(name + " (" + note + ")") == Strip(name + " ")
  {
    var s := name + " (" + note + ")";
    var i, j := |name| + 1, |s| - 1;
    assert s[..i] == name + " ";
    assert s[j + 1..] == [];
    assert forall k :: 0 <= k < |name| ==> s[k] == name[k];
    assert forall k :: i < k < j ==> s[k] == note[k - i - 1];
    SingleLineRemoval(s, i, j);
    assert s[..i] + s[j + 1..] == name + " ";
  }

  lemma FeetOfClayStrip()
    ensures Strip("Feet of Clay ") == "Feet of Clay"
  {
    var once := "Feet of Clay ";
    assert LeftEdge(TextBlanks, once, 0) == 0;
    assert RightEdge(TextBlanks, once, 0, 12) == 12;
    assert RightEdge(TextBlanks, once, 0, 13) == 12;
    assert once[..12] == "Feet of Clay";
  }

  lemma FeetOfClayParts()
    ensures "Feet of Clay" + " (" + "Discworld, #19" + ")" == "Feet of Clay (Discworld, #19)"
    ensures "Feet of Clay" + " " == "Feet of Clay "
  {
  }

  lemma FeetOfClayChars()
    ensures '\n' !in "Feet of Clay" && '\n' !in "Discworld, #19"
    ensures '(' !in "Feet of Clay" && ')' !in "Discworld, #19"
  {
  }

  /** The series note of a title goes. */
  lemma FeetOfClayTitle()
    ensures TitleCleaner("Feet of Clay (Discworld, #19)") == "Feet of Clay"
  {
    FeetOfClayParts();
    FeetOfClayChars();
    SeriesNoteRemoved("Feet of Clay", "Discworld, #19");
    FeetOfClayStrip();
  }
}
