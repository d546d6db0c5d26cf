/**
 * String primitives both programs take from their runtime libraries: the substring test
 * (Python `in`, Java `String.contains`), lower-casing, `str.strip` / `String.trim`,
 * decimal rendering of integers and `", ".join`.
 */
module Text {

  /** `w` occurs in `s` at index `i`. */
  ghost predicate OccursAt(s: string, w: string, i: int)
  {
    0 <= i && i + |w| <= |s| && s[i..i + |w|] == w
  }

  /** The substring test, computed by trying every start position in turn. */
  function Contains(s: string, w: string): bool
    decreases |s|
  {
    if |s| < |w| then false
    else if w <= s then true
    else Contains(s[1..], w)
  }

  /** `Contains` finds an occurrence exactly when there is one. */
  lemma {:induction false} ContainsIsOccurrence(s: string, w: string)
    ensures Contains(s, w) <==> exists i :: OccursAt(s, w, i)
    decreases |s|
  {
    if |s| < |w| {
      NoRoom(s, w);
    } else if w <= s {
      assert OccursAt(s, w, 0);
    } else {
      ShiftOccurrence(s, w);
      ContainsIsOccurrence(s[1..], w);
    }
  }

  lemma NoRoom(s: string, w: string)
    requires |s| < |w|
    ensures forall i :: !OccursAt(s, w, i)
  {
  }

  /** Occurrences in `s[1..]` are the occurrences in `s` past index 0. */
  lemma ShiftOccurrence(s: string, w: string)
    requires |w| <= |s| && !(w <= s)
    ensures (exists i :: OccursAt(s, w, i)) <==> (exists i :: OccursAt(s[1..], w, i))
  {
    assert !OccursAt(s, w, 0);
    forall i | OccursAt(s, w, i) ensures OccursAt(s[1..], w, i - 1) {
      assert s[1..][i - 1..i - 1 + |w|] == s[i..i + |w|];
    }
    forall i | OccursAt(s[1..], w, i) ensures OccursAt(s, w, i + 1) {
      assert s[1..][i..i + |w|] == s[i + 1..i + 1 + |w|];
    }
  }

  /** A text built around `w` contains it. */
  lemma Found(a: string, w: string, b: string)
    ensures Contains(a + w + b, w)
  {
    assert (a + w + b)[|a|..|a| + |w|] == w;
    assert OccursAt(a + w + b, w, |a|);
    ContainsIsOccurrence(a + w + b, w);
  }

  /** A text that starts with `w` contains it. */
  lemma StartsWith(w: string, rest: string)
    ensures Contains(w + rest, w)
  {
    assert "" + w + rest == w + rest;
    Found("", w, rest);
  }

  /** An occurrence survives any text added before or after. */
  lemma ContainsWithin(s: string, w: string, p: string, q: string)
    requires Contains(s, w)
    ensures Contains(p + s + q, w)
  {
    ContainsIsOccurrence(s, w);
    var i :| OccursAt(s, w, i);
    assert (p + s + q)[|p| + i..|p| + i + |w|] == s[i..i + |w|];
    assert OccursAt(p + s + q, w, |p| + i);
    ContainsIsOccurrence(p + s + q, w);
  }

  /** A text that lacks one of the characters of `w` does not contain `w`. */
  lemma LacksChar(s: string, w: string, c: char)
    requires c in w && c !in s
    ensures !Contains(s, w)
  {
    var k :| 0 <= k < |w| && w[k] == c;
    forall i | 0 <= i && i + |w| <= |s| ensures !OccursAt(s, w, i) {
      assert s[i..i + |w|][k] == s[i + k] != c;
    }
    ContainsIsOccurrence(s, w);
  }

  /** An occurrence of `w` cannot straddle a character that `w` lacks. */
  lemma NotAcross(a: string, c: char, b: string, w: string)
    requires c !in w && !Contains(a, w) && !Contains(b, w)
    ensures !Contains(a + [c] + b, w)
  {
    var s := a + [c] + b;
    ContainsIsOccurrence(a, w);
    ContainsIsOccurrence(b, w);
    forall i | 0 <= i && i + |w| <= |s| ensures !OccursAt(s, w, i) {
      NotAcrossAt(a, c, b, w, i);
    }
    ContainsIsOccurrence(s, w);
  }

  lemma NotAcrossAt(a: string, c: char, b: string, w: string, i: int)
    requires c !in w && (forall j :: !OccursAt(a, w, j)) && (forall j :: !OccursAt(b, w, j))
    requires 0 <= i && i + |w| <= |a| + 1 + |b|
    ensures !OccursAt(a + [c] + b, w, i)
  {
    var s := a + [c] + b;
    if i + |w| <= |a| {
      assert s[i..i + |w|] == a[i..i + |w|];
      assert !OccursAt(a, w, i);
    } else if i > |a| {
      assert s[i..i + |w|] == b[i - |a| - 1..i - |a| - 1 + |w|];
      assert !OccursAt(b, w, i - |a| - 1);
    } else {
      assert s[i..i + |w|][|a| - i] == c;
    }
  }

  /** ASCII lower-casing, plus the one non-ASCII letter whose lower case is ASCII (KELVIN SIGN). */
  function LowerChar(c: char): char
  {
    if 'A' <= c <= 'Z' then (c as int + 32) as char
    else if c == '\U{212A}' then 'k'
    else c
  }

  /** `str.lower()` / `String.toLowerCase()` as far as ASCII keyword tests can tell them apart. */
  function Lower(s: string): (r: string)
    ensures |r| == |s|
    ensures forall i :: 0 <= i < |s| ==> r[i] == LowerChar(s[i])
  {
    seq(|s|, i requires 0 <= i < |s| => LowerChar(s[i]))
  }

  lemma LowerConcat(a: string, b: string)
    ensures Lower(a + b) == Lower(a) + Lower(b)
  {
  }

  /** An occurrence in the lower case of `s` survives any text added around `s`. */
  lemma ContainsLowerWithin(p: string, s: string, q: string, w: string)
    requires Contains(Lower(s), w)
    ensures Contains(Lower(p + s + q), w)
  {
    LowerConcat(p, s);
    LowerConcat(p + s, q);
    ContainsWithin(Lower(s), w, Lower(p), Lower(q));
  }

  /** A text holding a word `w` has, in lower case, the lower case `lw` of that word. */
  lemma LowerMentions(a: string, w: string, b: string, t: string, lw: string)
    requires Lower(w) == lw
    ensures Contains(Lower(a + w + b + t), lw)
  {
    LowerConcat(a + w + b, t);
    LowerConcat(a + w, b);
    LowerConcat(a, w);
    assert Lower(a + w + b + t) == Lower(a) + lw + (Lower(b) + Lower(t));
    Found(Lower(a), lw, Lower(b) + Lower(t));
  }

  /** The characters `str.isspace()` accepts: what `str.strip()` removes and Python's `\s` matches. */
  predicate IsPySpace(c: char)
  {
    c == ' ' || '\t' <= c <= '\r' || '\U{1C}' <= c <= '\U{1F}' || c == '\U{85}' || c == '\U{A0}'
    || c == '\U{1680}' || '\U{2000}' <= c <= '\U{200A}' || c == '\U{2028}' || c == '\U{2029}'
    || c == '\U{202F}' || c == '\U{205F}' || c == '\U{3000}'
  }

  /** What `String.trim()` removes: every code point up to U+0020. */
  predicate IsJavaTrimmed(c: char)
  {
    c as int <= 0x20
  }

  /** Removes the leading characters that satisfy `p`. */
  function DropLeading(s: string, p: char -> bool): (r: string)
    ensures |r| <= |s| && r == s[|s| - |r|..]
    ensures forall i :: 0 <= i < |s| - |r| ==> p(s[i])
    ensures r == [] || !p(r[0])
    decreases |s|
  {
    if s != [] && p(s[0]) then DropLeading(s[1..], p) else s
  }

  /** Removes the trailing characters that satisfy `p`. */
  function DropTrailing(s: string, p: char -> bool): (r: string)
    ensures |r| <= |s| && r == s[..|r|]
    ensures forall i :: |r| <= i < |s| ==> p(s[i])
    ensures r == [] || !p(r[|r| - 1])
    decreases |s|
  {
    if s != [] && p(s[|s| - 1]) then DropTrailing(s[..|s| - 1], p) else s
  }

  /** Removes the characters that satisfy `p` from both ends. */
  function Strip(s: string, p: char -> bool): (r: string)
    ensures |r| <= |s|
    ensures r == [] || (!p(r[0]) && !p(r[|r| - 1]))
  {
    DropTrailing(DropLeading(s, p), p)
  }

  /** `r` is `s[lo..hi]`, and every character of `s` outside that slice satisfies `p`. */
  ghost predicate TrimmedSlice(s: string, p: char -> bool, r: string, lo: int, hi: int)
  {
    && 0 <= lo <= hi <= |s| && r == s[lo..hi]
    && (forall i :: 0 <= i < lo ==> p(s[i]))
    && (forall i :: hi <= i < |s| ==> p(s[i]))
  }

  /** What `Strip` keeps is one slice of `s`, and everything it removes around it satisfies `p`. */
  lemma StripKeepsOneSlice(s: string, p: char -> bool)
    ensures exists lo, hi :: TrimmedSlice(s, p, Strip(s, p), lo, hi)
  {
    var lo := |s| - |DropLeading(s, p)|;
    StripIsSlice(s, p);
    StripDropsTail(s, p);
    assert TrimmedSlice(s, p, Strip(s, p), lo, lo + |Strip(s, p)|);
  }

  lemma StripIsSlice(s: string, p: char -> bool)
    ensures var lo := |s| - |DropLeading(s, p)|; Strip(s, p) == s[lo..lo + |Strip(s, p)|]
  {
    var left := DropLeading(s, p);
    var r := DropTrailing(left, p);
    assert r == left[..|r|];
  }

  lemma StripDropsTail(s: string, p: char -> bool)
    ensures forall i :: |s| - |DropLeading(s, p)| + |Strip(s, p)| <= i < |s| ==> p(s[i])
  {
    var left := DropLeading(s, p);
    var lo := |s| - |left|;
    forall i | lo + |Strip(s, p)| <= i < |s| ensures p(s[i]) {
      assert s[i] == left[i - lo];
    }
  }

  predicate IsDigit(c: char)
  {
    '0' <= c <= '9'
  }

  function DigitChar(d: nat): (c: char)
    requires d < 10
    ensures IsDigit(c)
  {
    ('0' as int + d) as char
  }

  /** The number a string of decimal digits denotes. */
  function DigitsValue(s: string): nat
    requires forall i :: 0 <= i < |s| ==> IsDigit(s[i])
  {
    if s == [] then 0
    else
      assert IsDigit(s[|s| - 1]);
      DigitsValue(s[..|s| - 1]) * 10 + (s[|s| - 1] as int - '0' as int)
  }

  /** Decimal rendering of a natural number, as `str(n)` and Java string concatenation print it. */
  function NatToString(n: nat): (r: string)
    ensures |r| >= 1 && forall i :: 0 <= i < |r| ==> IsDigit(r[i])
    ensures DigitsValue(r) == n
    ensures |r| > 1 ==> r[0] != '0'
    decreases n
  {
    if n < 10 then [DigitChar(n)]
    else
      var r := NatToString(n / 10) + [DigitChar(n % 10)];
      assert r[..|r| - 1] == NatToString(n / 10);
      r
  }

  /** Decimal rendering of an integer, with a leading `-` when it is negative. */
  function IntToString(n: int): (r: string)
    ensures |r| >= 1
    ensures n < 0 <==> r[0] == '-'
  {
    if n < 0 then "-" + NatToString(-n) else NatToString(n)
  }

  /** `sep.join(parts)`. */
  function Join(parts: seq<string>, sep: string): string
  {
    if |parts| == 0 then ""
    else if |parts| == 1 then parts[0]
    else parts[0] + sep + Join(parts[1..], sep)
  }
}
