/**
 * The handful of Python string operations the core relies on, restricted to
 * ASCII: `str.lower`, `str.title`, `str.strip`, `str.split()` (no argument)
 * and the substring test `a in b`.
 */
module Text {

  /** Python's `str.isspace` on ASCII: space, \t \n \v \f \r and the separators 0x1c-0x1f. */
  predicate IsSpace(c: char) {
    c == ' ' || (9 <= c as int <= 13) || (28 <= c as int <= 31)
  }

  predicate IsUpper(c: char) { 'A' <= c <= 'Z' }

  predicate IsLower(c: char) { 'a' <= c <= 'z' }

  /** The cased characters of ASCII. */
  predicate IsLetter(c: char) { IsUpper(c) || IsLower(c) }

  predicate AllSpace(s: string) {
    forall i :: 0 <= i < |s| ==> IsSpace(s[i])
  }

  function LowerChar(c: char): (d: char)
    ensures IsLetter(d) == IsLetter(c) && IsSpace(d) == IsSpace(c)
    ensures !IsUpper(d)
  {
    if IsUpper(c) then (c as int + 32) as char else c
  }

  function UpperChar(c: char): (d: char)
    ensures IsLetter(d) == IsLetter(c)
    ensures !IsLower(d)
  {
    if IsLower(c) then (c as int - 32) as char else c
  }

  /** `str.lower()`. */
  function Lower(s: string): (r: string)
    ensures |r| == |s|
  {
    seq(|s|, i requires 0 <= i < |s| => LowerChar(s[i]))
  }

  /**
   * `str.title()`: a letter is upper-cased when the character before it is
   * not a letter (or it is first), and lower-cased otherwise; everything
   * else is kept.
   */
  function Title(s: string): (r: string)
    ensures |r| == |s|
  {
    seq(|s|, i requires 0 <= i < |s| =>
      if !IsLetter(s[i]) then s[i]
      else if i > 0 && IsLetter(s[i - 1]) then LowerChar(s[i])
      else UpperChar(s[i]))
  }

  /** `str.lstrip()`: drops the leading whitespace and nothing else. */
  function LStrip(s: string): (r: string)
    ensures |r| <= |s| && r == s[|s| - |r|..]
    ensures r == [] || !IsSpace(r[0])
    ensures AllSpace(s[..|s| - |r|])
  {
    if |s| > 0 && IsSpace(s[0]) then
      var r := LStrip(s[1..]);
      assert s[..|s| - |r|] == [s[0]] + s[1..][..|s[1..]| - |r|];
      r
    else s
  }

  /** `str.rstrip()`: drops the trailing whitespace and nothing else. */
  function RStrip(s: string): (r: string)
    ensures |r| <= |s| && r == s[..|r|]
    ensures r == [] || !IsSpace(r[|r| - 1])
    ensures AllSpace(s[|r|..])
  {
    if |s| > 0 && IsSpace(s[|s| - 1]) then
      var r := RStrip(s[..|s| - 1]);
      assert s[|r|..] == s[..|s| - 1][|r|..] + [s[|s| - 1]];
      r
    else s
  }

  /** `str.strip()`. */
  function Strip(s: string): string {
    RStrip(LStrip(s))
  }

  /** `pat in s` for strings: `pat` occurs at some position of `s` (the empty string occurs everywhere). */
  predicate IsSubstring(pat: string, s: string) {
    exists i :: 0 <= i <= |s| - |pat| && OccursAt(pat, s, i)
  }

  /** `pat` is found in `s` starting at index `i`. */
  predicate OccursAt(pat: string, s: string, i: int) {
    0 <= i <= |s| - |pat| && s[i..i + |pat|] == pat
  }

  /** Number of leading characters of `s` that are not whitespace. */
  function TokenLength(s: string): (n: nat)
    ensures n <= |s|
    ensures forall i :: 0 <= i < n ==> !IsSpace(s[i])
    ensures n == |s| || IsSpace(s[n])
  {
    if s == [] || IsSpace(s[0]) then 0 else 1 + TokenLength(s[1..])
  }

  /** `str.split()` with no separator: the maximal runs of non-whitespace, in order. */
  function Words(s: string): (ws: seq<string>)
    ensures forall k :: 0 <= k < |ws| ==> |ws[k]| > 0
    ensures forall k, i :: 0 <= k < |ws| && 0 <= i < |ws[k]| ==> !IsSpace(ws[k][i])
    decreases |s|
  {
    if s == [] then []
    else if IsSpace(s[0]) then Words(s[1..])
    else
      var n := TokenLength(s);
      var rest := Words(s[n..]);
      assert forall i :: 0 <= i < n ==> !IsSpace(s[..n][i]);
      [s[..n]] + rest
  }

  /** `str(n)` for a natural number. */
  function NatToString(n: nat): (r: string)
    ensures |r| > 0
  {
    var d := ['0', '1', '2', '3', '4', '5', '6', '7', '8', '9'][n % 10];
    if n < 10 then [d] else NatToString(n / 10) + [d]
  }

  // ----- Facts about the operations above -----

  lemma LowerIdempotent(s: string)
    ensures Lower(Lower(s)) == Lower(s)
  {
  }

  /** Title-casing only changes the case of letters. */
  lemma LowerOfTitle(s: string)
    ensures Lower(Title(s)) == Lower(s)
  {
  }

  lemma {:induction false} LStripOfLower(s: string)
    ensures LStrip(Lower(s)) == Lower(LStrip(s))
  {
    if |s| > 0 && IsSpace(s[0]) {
      assert Lower(s)[1..] == Lower(s[1..]);
      LStripOfLower(s[1..]);
    }
  }

  lemma {:induction false} RStripOfLower(s: string)
    ensures RStrip(Lower(s)) == Lower(RStrip(s))
  {
    if |s| > 0 && IsSpace(s[|s| - 1]) {
      assert Lower(s)[..|s| - 1] == Lower(s[..|s| - 1]);
      RStripOfLower(s[..|s| - 1]);
    }
  }

  /** Stripping and lower-casing commute. */
  lemma StripOfLower(s: string)
    ensures Strip(Lower(s)) == Lower(Strip(s))
  {
    LStripOfLower(s);
    RStripOfLower(LStrip(s));
  }

  lemma {:induction false} LStripAfterSpace(p: string, x: string)
    requires AllSpace(p)
    ensures LStrip(p + x) == LStrip(x)
  {
    if p != [] {
      assert (p + x)[0] == p[0] && IsSpace(p[0]);
      assert (p + x)[1..] == p[1..] + x;
      assert LStrip(p + x) == LStrip((p + x)[1..]);
      LStripAfterSpace(p[1..], x);
    } else {
      assert p + x == x;
    }
  }

  lemma {:induction false} RStripBeforeSpace(x: string, q: string)
    requires AllSpace(q)
    ensures RStrip(x + q) == RStrip(x)
  {
    if q != [] {
      assert (x + q)[|x + q| - 1] == q[|q| - 1] && IsSpace(q[|q| - 1]);
      assert (x + q)[..|x + q| - 1] == x + q[..|q| - 1];
      assert RStrip(x + q) == RStrip((x + q)[..|x + q| - 1]);
      RStripBeforeSpace(x, q[..|q| - 1]);
    } else {
      assert x + q == x;
    }
  }

  lemma {:induction false} LStripAppend(s: string, q: string)
    requires !AllSpace(s)
    ensures LStrip(s + q) == LStrip(s) + q
  {
    if IsSpace(s[0]) {
      assert (s + q)[1..] == s[1..] + q;
      LStripAppend(s[1..], q);
    }
  }

  lemma LStripAllSpace(s: string)
    requires AllSpace(s)
    ensures LStrip(s) == []
  {
  }

  /** Whitespace around a string does not change what `strip` returns. */
  lemma StripIgnoresPadding(p: string, s: string, q: string)
    requires AllSpace(p) && AllSpace(q)
    ensures Strip(p + s + q) == Strip(s)
  {
    assert p + s + q == p + (s + q);
    LStripAfterSpace(p, s + q);
    if AllSpace(s) {
      assert AllSpace(s + q);
      LStripAllSpace(s + q);
      LStripAllSpace(s);
    } else {
      LStripAppend(s, q);
      RStripBeforeSpace(LStrip(s), q);
    }
  }

  /** A non-empty stripped string starts and ends with a non-whitespace character. */
  lemma StrippedEnds(s: string)
    requires Strip(s) == s && |s| > 0
    ensures !IsSpace(s[0]) && !IsSpace(s[|s| - 1])
  {
    var l := LStrip(s);
    assert |RStrip(l)| <= |l| <= |s|;
    assert l == s;
  }

  lemma TitleKeepsSpace(s: string, i: int)
    requires 0 <= i < |s|
    ensures IsSpace(Title(s)[i]) == IsSpace(s[i])
  {
  }

  /** Title-casing keeps whitespace where it was, so a stripped string stays stripped. */
  lemma StripOfTitle(s: string)
    requires Strip(s) == s
    ensures Strip(Title(s)) == Title(s)
  {
    if |s| > 0 {
      StrippedEnds(s);
      StripOfTitleEnds(s);
    } else {
      StripOfEmpty(Title(s));
    }
  }

  lemma StripOfTitleEnds(s: string)
    requires |s| > 0 && !IsSpace(s[0]) && !IsSpace(s[|s| - 1])
    ensures Strip(Title(s)) == Title(s)
  {
    TitleKeepsSpace(s, 0);
    TitleKeepsSpace(s, |s| - 1);
    StripKeepsInner(Title(s));
  }

  lemma LStripSplit(s: string) returns (p: string)
    ensures AllSpace(p) && s == p + LStrip(s)
  {
    var l := LStrip(s);
    p := s[..|s| - |l|];
    assert l == s[|s| - |l|..];
  }

  lemma RStripSplit(s: string) returns (q: string)
    ensures AllSpace(q) && s == RStrip(s) + q
  {
    var r := RStrip(s);
    q := s[|r|..];
    assert r == s[..|r|];
  }

  /** Any string is its stripped form between a whitespace prefix and a whitespace suffix. */
  lemma StripSplit(s: string) returns (p: string, q: string)
    ensures AllSpace(p) && AllSpace(q)
    ensures s == p + Strip(s) + q
  {
    var l := LStrip(s);
    p := LStripSplit(s);
    q := RStripSplit(l);
    var r := RStrip(l);
    assert s == p + (r + q);
    ConcatAssoc(p, r, q);
  }

  lemma ConcatAssoc(a: string, b: string, c: string)
    ensures a + (b + c) == a + b + c
  {
  }

  /** Stripping twice is stripping once. */
  lemma {:induction false} StripIdempotent(s: string)
    ensures Strip(Strip(s)) == Strip(s)
  {
    var l := LStrip(s);
    var r := RStrip(l);
    if r != [] {
      assert r[0] == l[0];
      StripKeepsInner(r);
    } else {
      StripOfEmpty(r);
    }
  }

  lemma StripOfEmpty(s: string)
    requires s == []
    ensures Strip(s) == s
  {
    assert LStrip(s) == s;
  }

  /** A string with no whitespace at either end is already stripped. */
  lemma StripKeepsInner(s: string)
    requires |s| > 0 && !IsSpace(s[0]) && !IsSpace(s[|s| - 1])
    ensures Strip(s) == s
  {
    assert LStrip(s) == s;
  }

  /** A string with no upper-case letter is already lower-case. */
  lemma LowerOfNoUpper(s: string)
    requires forall i :: 0 <= i < |s| ==> !IsUpper(s[i])
    ensures Lower(s) == s
  {
  }

  /** Leading whitespace separates nothing: `split()` skips it. */
  lemma WordsAfterSpace(s: string)
    requires |s| > 0 && IsSpace(s[0])
    ensures Words(s) == Words(s[1..])
  {
  }

  /** A run of non-whitespace ended by whitespace (or the end) is the first word. */
  lemma WordsOfToken(w: string, rest: string)
    requires |w| > 0 && forall i :: 0 <= i < |w| ==> !IsSpace(w[i])
    requires rest == [] || IsSpace(rest[0])
    ensures Words(w + rest) == [w] + Words(rest)
  {
    var s := w + rest;
    assert forall i :: 0 <= i < |w| ==> s[i] == w[i];
    assert rest != [] ==> s[|w|] == rest[0];
    assert TokenLength(s) == |w|;
    assert s[..|w|] == w && s[|w|..] == rest;
  }
}
