/** The handful of Python `str` operations the pipeline relies on, on `seq<char>`. */
module Text {
  import opened Base

  /** Python's `str.isspace()`, which is also what `\s` matches in a `str` pattern. */
  predicate IsSpace(c: char) {
    ('\U{9}' <= c <= '\U{D}') || ('\U{1C}' <= c <= ' ') || c == '\U{85}' || c == '\U{A0}' ||
    c == '\U{1680}' || ('\U{2000}' <= c <= '\U{200A}') || c == '\U{2028}' || c == '\U{2029}' ||
    c == '\U{202F}' || c == '\U{205F}' || c == '\U{3000}'
  }

  /** Number of leading characters of `s` that are whitespace. */
  function LeadingSpace(s: string): (n: nat)
    ensures n <= |s|
    ensures forall k :: 0 <= k < n ==> IsSpace(s[k])
    ensures n == |s| || !IsSpace(s[n])
  {
    if s != [] && IsSpace(s[0]) then 1 + LeadingSpace(s[1..]) else 0
  }

  /** Number of trailing characters of `s` that are whitespace. */
  function TrailingSpace(s: string): (n: nat)
    ensures n <= |s|
    ensures forall k :: |s| - n <= k < |s| ==> IsSpace(s[k])
    ensures n == |s| || !IsSpace(s[|s| - 1 - n])
  {
    if s != [] && IsSpace(s[|s| - 1]) then 1 + TrailingSpace(s[..|s| - 1]) else 0
  }

  /** Python's `str.strip()` with no argument. */
  function Strip(s: string): (r: string)
    ensures r == [] || (!IsSpace(r[0]) && !IsSpace(r[|r| - 1]))
    ensures exists i, j :: 0 <= i <= j <= |s| && r == s[i..j]
  {
    var i := LeadingSpace(s);
    var j := |s| - TrailingSpace(s[i..]);
    s[i..j]
  }

  /** Printable ASCII and everything from Latin-1 letters up to U+167F, Cyrillic included, is not whitespace. */
  lemma NotSpace(c: char)
    requires (' ' < c < '\U{85}') || ('\U{A0}' < c < '\U{1680}')
    ensures !IsSpace(c)
  {
  }

  /** A text with no whitespace at either end is its own strip. */
  lemma StripUnchanged(s: string)
    requires |s| > 0 ==> !IsSpace(s[0]) && !IsSpace(s[|s| - 1])
    ensures Strip(s) == s
  {
    assert s[0..] == s;
  }

  /** The strip is what lies between the leading and the trailing whitespace. */
  lemma StripAt(s: string, i: nat, n: nat)
    requires i == LeadingSpace(s) && n == TrailingSpace(s[i..])
    ensures Strip(s) == s[i..|s| - n]
  {
  }

  /** Stripping removes only whitespace: every other character keeps its number of occurrences. */
  lemma StripCount(s: string, c: char)
    requires !IsSpace(c)
    ensures Count(Strip(s), c) == Count(s, c)
  {
    var front, back := StripSplit(s);
    AllSpaceCount(front, c);
    AllSpaceCount(back, c);
    CountAppend(front + Strip(s), back, c);
    CountAppend(front, Strip(s), c);
  }

  /** `s` is its stripped text with whitespace before and after. */
  lemma StripSplit(s: string) returns (front: string, back: string)
    ensures s == front + Strip(s) + back
    ensures forall k :: 0 <= k < |front| ==> IsSpace(front[k])
    ensures forall k :: 0 <= k < |back| ==> IsSpace(back[k])
  {
    var i, j := StripBounds(s);
    front, back := s[..i], s[j..];
    assert s[..j] == front + s[i..j];
    assert s == s[..j] + back;
  }

  /** Where Strip cuts `s`: everything before `i` and from `j` on is whitespace. */
  lemma StripBounds(s: string) returns (i: nat, j: nat)
    ensures i <= j <= |s| && Strip(s) == s[i..j]
    ensures forall k :: 0 <= k < i ==> IsSpace(s[k])
    ensures forall k :: j <= k < |s| ==> IsSpace(s[k])
  {
    i := LeadingSpace(s);
    var n := TrailingSpace(s[i..]);
    j := |s| - n;
    forall k | j <= k < |s| ensures IsSpace(s[k]) {
      assert s[k] == s[i..][k - i];
    }
  }

  lemma AllSpaceCount(u: string, c: char)
    requires !IsSpace(c) && forall k :: 0 <= k < |u| ==> IsSpace(u[k])
    ensures Count(u, c) == 0
  {
  }

  /** Position of the first occurrence of `c` in `s`, which must occur. */
  function IndexOf(s: string, c: char): (k: nat)
    requires c in s
    ensures k < |s| && s[k] == c && c !in s[..k]
  {
    if s[0] == c then 0
    else
      var k := 1 + IndexOf(s[1..], c);
      assert s[..k] == [s[0]] + s[1..][..k - 1];
      k
  }

  /** The first occurrence is the only position holding `c` with no `c` before it. */
  lemma IndexOfUnique(s: string, c: char, k: nat)
    requires k < |s| && s[k] == c && c !in s[..k]
    ensures IndexOf(s, c) == k
  {
  }

  /** Python's `str.lower()` for the scripts the corpus is written in: ASCII, Latin-1 and Cyrillic. */
  function LowerChar(c: char): (r: char)
    ensures !IsUpperChar(r)
  {
    if 'A' <= c <= 'Z' || ('À' <= c <= 'Þ' && c != '×') || ('А' <= c <= 'Я') then
      (c as int + 32) as char
    else if 'Ѐ' <= c <= 'Џ' then
      (c as int + 80) as char
    else c
  }

  /** The characters LowerChar changes. */
  predicate IsUpperChar(c: char) {
    'A' <= c <= 'Z' || ('À' <= c <= 'Þ' && c != '×') || ('Ѐ' <= c <= 'Я')
  }

  function Lower(s: string): (r: string)
    ensures |r| == |s|
    ensures forall k :: 0 <= k < |s| ==> r[k] == LowerChar(s[k])
  {
    seq(|s|, k requires 0 <= k < |s| => LowerChar(s[k]))
  }

  /** Lowering twice is lowering once: a lowered string has no upper-case characters left. */
  lemma LowerIdempotent(s: string)
    ensures Lower(Lower(s)) == Lower(s)
  {
    forall k | 0 <= k < |s| ensures LowerChar(LowerChar(s[k])) == LowerChar(s[k]) {
      LowerCharFixed(LowerChar(s[k]));
    }
  }

  lemma LowerCharFixed(c: char)
    requires !IsUpperChar(c)
    ensures LowerChar(c) == c
  {
  }

  /** Python's `str.endswith`. */
  predicate EndsWith(s: string, suffix: string) {
    |suffix| <= |s| && s[|s| - |suffix|..] == suffix
  }

  /** Python's `str.strip(ch)`: the slice of `s` left after removing every `ch` from both ends. */
  function StripChar(s: string, ch: char): (r: string)
    ensures r == [] || (r[0] != ch && r[|r| - 1] != ch)
    ensures |r| <= |s|
  {
    if s == [] then []
    else if s[0] == ch then StripChar(s[1..], ch)
    else if s[|s| - 1] == ch then StripChar(s[..|s| - 1], ch)
    else s
  }

  /** What StripChar removes: a prefix and a suffix made of `ch` only, so the result is a slice of `s`. */
  lemma {:induction false} StripCharSlice(s: string, ch: char) returns (i: nat, j: nat)
    ensures i <= j <= |s| && StripChar(s, ch) == s[i..j]
    ensures forall k :: 0 <= k < i ==> s[k] == ch
    ensures forall k :: j <= k < |s| ==> s[k] == ch
  {
    if s == [] {
      i, j := 0, 0;
    } else if s[0] == ch {
      var t := s[1..];
      var i', j' := StripCharSlice(t, ch);
      i, j := i' + 1, j' + 1;
      assert t[i'..j'] == s[i..j];
      forall k | 0 < k < i ensures s[k] == ch {
        assert s[k] == t[k - 1];
      }
      forall k | j <= k < |s| ensures s[k] == ch {
        assert s[k] == t[k - 1];
      }
    } else if s[|s| - 1] == ch {
      var t := s[..|s| - 1];
      i, j := StripCharSlice(t, ch);
      assert t[i..j] == s[i..j];
      forall k | j <= k < |s| - 1 ensures s[k] == ch {
        assert s[k] == t[k];
      }
    } else {
      i, j := 0, |s|;
    }
  }

  /** Python's `<=` on `str`: lexicographic by code point, a prefix first. */
  predicate LexLe(a: string, b: string) {
    a == [] || (b != [] && (a[0] < b[0] || (a[0] == b[0] && LexLe(a[1..], b[1..]))))
  }

  lemma {:induction false} LexLeTotal(a: string, b: string)
    ensures LexLe(a, b) || LexLe(b, a)
  {
    if a != [] && b != [] && a[0] == b[0] {
      LexLeTotal(a[1..], b[1..]);
    }
  }

  lemma {:induction false} LexLeAntisymmetric(a: string, b: string)
    requires LexLe(a, b) && LexLe(b, a)
    ensures a == b
  {
    if a != [] && b != [] {
      LexLeAntisymmetric(a[1..], b[1..]);
      assert a == [a[0]] + a[1..] && b == [b[0]] + b[1..];
    }
  }

  lemma {:induction false} LexLePrefix(a: string, b: string)
    requires |a| <= |b| && a == b[..|a|]
    ensures LexLe(a, b)
  {
    if a != [] {
      assert a[1..] == b[1..][..|a| - 1];
      LexLePrefix(a[1..], b[1..]);
    }
  }

  lemma {:induction false} LexLeTransitive(a: string, b: string, c: string)
    requires LexLe(a, b) && LexLe(b, c)
    ensures LexLe(a, c)
  {
    if a != [] && b != [] && c != [] && a[0] == b[0] && b[0] == c[0] {
      LexLeTransitive(a[1..], b[1..], c[1..]);
    }
  }
}
