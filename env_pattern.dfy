/**
 * The one regular expression both loaders apply to a configuration line,
 * `export\s+(\w+)='(.+)'`, written out by hand.
 *
 * Python applies it with `re.match`, which anchors only at the start of the line, so any
 * text after the closing quote is accepted; `.+` is greedy, so the value runs to the LAST
 * quote before the first newline. Java applies it with `Matcher.matches()`, which must
 * consume the whole line, so the value runs to the quote that ends the line.
 */
module EnvPattern {
  import opened Wrappers
  import opened Text

  /** One `export NAME='VALUE'` binding: group 1 and group 2 of the pattern. */
  datatype Entry = Entry(name: string, value: string)

  /** `\w`: ASCII letters, digits and `_`. */
  predicate IsWordChar(c: char)
  {
    'a' <= c <= 'z' || 'A' <= c <= 'Z' || '0' <= c <= '9' || c == '_'
  }

  /** Java's `\s`: `[ \t\n\x0B\f\r]`. */
  predicate IsJavaRegexSpace(c: char)
  {
    c == ' ' || '\t' <= c <= '\r'
  }

  /** Python's `.`: anything but a newline. */
  predicate IsPyDotChar(c: char)
  {
    c != '\n'
  }

  /** Java's `.`: anything but a line terminator. */
  predicate IsJavaDotChar(c: char)
  {
    !(c == '\n' || c == '\r' || c == '\U{85}' || c == '\U{2028}' || c == '\U{2029}')
  }

  ghost predicate AllChars(s: string, p: char -> bool)
  {
    forall i :: 0 <= i < |s| ==> p(s[i])
  }

  /** The first index at or after `i` whose character fails `p`, or `|s|`. */
  function SpanEnd(s: string, i: nat, p: char -> bool): (j: nat)
    requires i <= |s|
    ensures i <= j <= |s|
    ensures forall k :: i <= k < j ==> p(s[k])
    ensures j == |s| || !p(s[j])
    decreases |s| - i
  {
    if i == |s| || !p(s[i]) then i else SpanEnd(s, i + 1, p)
  }

  /** The largest index in `[lo, hi)` that holds a quote. */
  function LastQuote(s: string, lo: nat, hi: nat): (r: Option<nat>)
    requires lo <= hi <= |s|
    ensures r.Some? ==> lo <= r.value < hi && s[r.value] == '\''
    ensures r.Some? ==> forall k :: r.value < k < hi ==> s[k] != '\''
    ensures r.None? ==> forall k :: lo <= k < hi ==> s[k] != '\''
    decreases hi - lo
  {
    if hi == lo then None
    else if s[hi - 1] == '\'' then Some(hi - 1)
    else LastQuote(s, lo, hi - 1)
  }

  const Export := "export"

  /** Where group 1 lies in a line that starts with `export\s+(\w+)='`. */
  datatype Head = Head(nameStart: nat, nameEnd: nat)

  /** Matches `export\s+(\w+)='` at the start of `t`, with `space` as `\s`. */
  function MatchHead(t: string, space: char -> bool): (r: Option<Head>)
    ensures r.Some? ==>
              && 6 < r.value.nameStart < r.value.nameEnd && r.value.nameEnd + 2 <= |t|
              && t[..6] == Export
              && (forall k :: 6 <= k < r.value.nameStart ==> space(t[k]))
              && (forall k :: r.value.nameStart <= k < r.value.nameEnd ==> IsWordChar(t[k]))
              && t[r.value.nameEnd] == '=' && t[r.value.nameEnd + 1] == '\''
  {
    if !(Export <= t) then None
    else
      var s := SpanEnd(t, 6, space);
      var e := SpanEnd(t, s, IsWordChar);
      if s == 6 || e == s || |t| < e + 2 || t[e] != '=' || t[e + 1] != '\'' then None
      else Some(Head(s, e))
  }

  /**
   * Where the value that starts at `v` ends under `(.+)'`: `.+` runs greedily to the first
   * newline and backs off to the last quote it passed, leaving at least one value character.
   */
  function PyClose(t: string, v: nat): (r: Option<nat>)
    requires v <= |t|
    ensures r.Some? ==> v < r.value < |t| && t[r.value] == '\''
    ensures r.Some? ==> forall k :: v <= k < r.value ==> IsPyDotChar(t[k])
  {
    var lim := SpanEnd(t, v, IsPyDotChar);
    if lim <= v then None else LastQuote(t, v + 1, lim)
  }

  /** `re.match(r"export\s+(\w+)='(.+)'", t)`. */
  function PyMatch(t: string): (r: Option<Entry>)
    ensures r.Some? ==> r.value.name != [] && r.value.value != []
    ensures r.Some? ==> forall k :: 0 <= k < |r.value.name| ==> IsWordChar(r.value.name[k])
  {
    match MatchHead(t, IsPySpace)
    case None => None
    case Some(h) =>
      match PyClose(t, h.nameEnd + 2)
      case None => None
      case Some(q) => Some(Entry(t[h.nameStart..h.nameEnd], t[h.nameEnd + 2..q]))
  }

  /** `Pattern.compile("export\\s+(\\w+)='(.+)'").matcher(t).matches()`. */
  function JavaMatch(t: string): (r: Option<Entry>)
    ensures r.Some? ==> r.value.name != [] && r.value.value != []
    ensures r.Some? ==> forall k :: 0 <= k < |r.value.name| ==> IsWordChar(r.value.name[k])
  {
    match MatchHead(t, IsJavaRegexSpace)
    case None => None
    case Some(h) =>
      var v := h.nameEnd + 2;
      if |t| < v + 2 || t[|t| - 1] != '\'' || SpanEnd(t, v, IsJavaDotChar) < |t| - 1 then None
      else Some(Entry(t[h.nameStart..h.nameEnd], t[v..|t| - 1]))
  }

  // ---------------------------------------------------------------------------------------
  // The pattern as a set of decompositions of the line.

  /**
   * `t` reads `export`, `ws`, `name`, `='`, `value`, a quote and `rest`, stated by position;
   * LaidIsConcatenation shows this is `t == "export" + ws + name + "='" + value + "'" + rest`.
   */
  ghost predicate Laid(t: string, ws: string, name: string, value: string, rest: string)
  {
    var ns := 6 + |ws|;
    var ne := ns + |name|;
    var v := ne + 2;
    var q := v + |value|;
    && |t| == q + 1 + |rest|
    && t[..6] == Export && t[6..ns] == ws && t[ns..ne] == name
    && t[ne] == '=' && t[ne + 1] == '\'' && t[v..q] == value && t[q] == '\'' && t[q + 1..] == rest
  }

  lemma LaidIsConcatenation(t: string, ws: string, name: string, value: string, rest: string)
    ensures Laid(t, ws, name, value, rest) <==> t == Export + ws + name + "='" + value + "'" + rest
  {
    if Laid(t, ws, name, value, rest) {
      LaidIsJoined(t, ws, name, value, rest);
    }
    JoinedIsLaid(ws, name, value, rest);
  }

  lemma LaidIsJoined(t: string, ws: string, name: string, value: string, rest: string)
    requires Laid(t, ws, name, value, rest)
    ensures t == Export + ws + name + "='" + value + "'" + rest
  {
    var ns := 6 + |ws|;
    var ne := ns + |name|;
    var v := ne + 2;
    var q := v + |value|;
    assert t == t[..q + 1] + rest;
    assert t[..q + 1] == t[..q] + "'";
    assert t[..q] == t[..v] + value;
    assert t[..v] == t[..ne] + "='";
    assert t[..ne] == t[..ns] + name;
    assert t[..ns] == Export + ws;
  }

  lemma JoinedIsLaid(ws: string, name: string, value: string, rest: string)
    ensures Laid(Export + ws + name + "='" + value + "'" + rest, ws, name, value, rest)
  {
    var ns := 6 + |ws|;
    var ne := ns + |name|;
    var v := ne + 2;
    var q := v + |value|;
    var c := Export + ws + name + "='" + value + "'" + rest;
    assert c[..6] == Export;
    assert c[6..ns] == ws;
    assert c[ns..ne] == name;
    assert c[ne] == '=' && c[ne + 1] == '\'';
    assert c[v..q] == value;
    assert c[q] == '\'';
    assert c[q + 1..] == rest;
  }

  ghost predicate HeadShape(ws: string, name: string, space: char -> bool)
  {
    |ws| > 0 && AllChars(ws, space) && |name| > 0 && AllChars(name, IsWordChar)
  }

  /** `t` is `export`, whitespace, a name, `='`, a value, a quote and then anything at all. */
  ghost predicate PyShape(t: string, ws: string, name: string, value: string, rest: string)
  {
    && Laid(t, ws, name, value, rest)
    && HeadShape(ws, name, IsPySpace)
    && |value| > 0 && AllChars(value, IsPyDotChar)
  }

  /** `t` is exactly `export`, whitespace, a name, `='`, a value and a closing quote. */
  ghost predicate JavaShape(t: string, ws: string, name: string, value: string)
  {
    && Laid(t, ws, name, value, [])
    && HeadShape(ws, name, IsJavaRegexSpace)
    && |value| > 0 && AllChars(value, IsJavaDotChar)
  }

  /** The binding `re.match` reports: a decomposition whose value no other decomposition beats. */
  ghost predicate PyGreedy(t: string, name: string, value: string)
  {
    && (exists ws, rest :: PyShape(t, ws, name, value, rest))
    && forall ws, n, v, rest :: PyShape(t, ws, n, v, rest) ==> |v| <= |value|
  }

  /** The head of the line is determined: whitespace and name cannot trade characters. */
  lemma HeadDetermined(t: string, ws: string, name: string, space: char -> bool)
    requires forall c :: space(c) ==> !IsWordChar(c)
    requires HeadShape(ws, name, space)
    requires var ns := 6 + |ws|; var ne := ns + |name|;
      && ne + 2 <= |t| && t[..6] == Export && t[6..ns] == ws && t[ns..ne] == name
      && t[ne] == '=' && t[ne + 1] == '\''
    ensures MatchHead(t, space) == Some(Head(6 + |ws|, 6 + |ws| + |name|))
  {
    var s := 6 + |ws|;
    var e := s + |name|;
    assert Export <= t;
    forall k | 6 <= k < s ensures space(t[k]) {
      assert t[k] == t[6..s][k - 6];
    }
    assert t[s] == t[s..e][0];
    assert SpanEnd(t, 6, space) == s;
    forall k | s <= k < e ensures IsWordChar(t[k]) {
      assert t[k] == t[s..e][k - s];
    }
    assert SpanEnd(t, s, IsWordChar) == e;
  }

  lemma PySpaceIsNotWord()
    ensures forall c :: IsPySpace(c) ==> !IsWordChar(c)
  {
  }

  lemma JavaSpaceIsNotWord()
    ensures forall c :: IsJavaRegexSpace(c) ==> !IsWordChar(c)
  {
  }

  lemma SliceAll(t: string, lo: nat, hi: nat, p: char -> bool)
    requires lo <= hi <= |t|
    requires forall k :: lo <= k < hi ==> p(t[k])
    ensures AllChars(t[lo..hi], p)
  {
    forall i | 0 <= i < hi - lo ensures p(t[lo..hi][i]) {
      assert t[lo..hi][i] == t[lo + i];
    }
  }

  /** The slices of `t` at the positions the pattern matched are laid out as `Laid` says. */
  lemma LaidAt(t: string, ns: nat, ne: nat, q: nat)
    requires 6 <= ns <= ne && ne + 2 <= q < |t|
    requires t[..6] == Export && t[ne] == '=' && t[ne + 1] == '\'' && t[q] == '\''
    ensures Laid(t, t[6..ns], t[ns..ne], t[ne + 2..q], t[q + 1..])
  {
  }

  /** The pattern's character classes hold at positions `ns`, `ne` and `q` of `t`. */
  ghost predicate MatchedAt(t: string, ns: int, ne: int, q: int, space: char -> bool, dot: char -> bool)
  {
    && 6 < ns < ne && ne + 2 < q < |t|
    && t[..6] == Export && t[ne] == '=' && t[ne + 1] == '\'' && t[q] == '\''
    && (forall k :: 6 <= k < ns ==> space(t[k]))
    && (forall k :: ns <= k < ne ==> IsWordChar(t[k]))
    && (forall k :: ne + 2 <= k < q ==> dot(t[k]))
  }

  /** Positions that satisfy the pattern's character classes give a decomposition of `t`. */
  lemma ShapeAt(t: string, ns: int, ne: int, q: int, space: char -> bool, dot: char -> bool)
    requires MatchedAt(t, ns, ne, q, space, dot)
    ensures Laid(t, t[6..ns], t[ns..ne], t[ne + 2..q], t[q + 1..])
    ensures HeadShape(t[6..ns], t[ns..ne], space)
    ensures |t[ne + 2..q]| > 0 && AllChars(t[ne + 2..q], dot)
  {
    LaidAt(t, ns, ne, q);
    SliceAll(t, 6, ns, space);
    SliceAll(t, ns, ne, IsWordChar);
    SliceAll(t, ne + 2, q, dot);
  }

  lemma PyShapeAt(t: string, ns: int, ne: int, q: int, name: string, value: string)
    requires MatchedAt(t, ns, ne, q, IsPySpace, IsPyDotChar)
    requires name == t[ns..ne] && value == t[ne + 2..q]
    ensures exists ws, rest :: PyShape(t, ws, name, value, rest)
  {
    ShapeAt(t, ns, ne, q, IsPySpace, IsPyDotChar);
    assert PyShape(t, t[6..ns], name, value, t[q + 1..]);
  }

  /** A head and a closing quote found by `PyMatch` sit where `MatchedAt` wants them. */
  lemma PyPartsMatched(t: string, h: Head, q: nat)
    requires MatchHead(t, IsPySpace) == Some(h) && h.nameEnd + 2 <= |t| && PyClose(t, h.nameEnd + 2) == Some(q)
    ensures MatchedAt(t, h.nameStart, h.nameEnd, q, IsPySpace, IsPyDotChar)
  {
  }

  /** A head and a closing quote found by `PyMatch` give a decomposition with that name and value. */
  lemma PyPartsShape(t: string, h: Head, q: nat, name: string, value: string)
    requires MatchHead(t, IsPySpace) == Some(h) && h.nameEnd + 2 <= |t| && PyClose(t, h.nameEnd + 2) == Some(q)
    requires name == t[h.nameStart..h.nameEnd] && value == t[h.nameEnd + 2..q]
    ensures exists ws, rest :: PyShape(t, ws, name, value, rest)
  {
    PyPartsMatched(t, h, q);
    PyShapeAt(t, h.nameStart, h.nameEnd, q, name, value);
  }

  /** What `PyMatch` reports, in terms of the head and the closing quote it found. */
  lemma PyMatchParts(t: string)
    requires PyMatch(t).Some?
    ensures MatchHead(t, IsPySpace).Some?
    ensures var h := MatchHead(t, IsPySpace).value;
      && PyClose(t, h.nameEnd + 2).Some?
      && PyMatch(t).value == Entry(t[h.nameStart..h.nameEnd], t[h.nameEnd + 2..PyClose(t, h.nameEnd + 2).value])
  {
  }

  /** Every binding `PyMatch` reports is a decomposition of the line. */
  lemma PyMatchSound(t: string)
    requires PyMatch(t).Some?
    ensures exists ws, rest :: PyShape(t, ws, PyMatch(t).value.name, PyMatch(t).value.value, rest)
  {
    PyMatchParts(t);
    var h := MatchHead(t, IsPySpace).value;
    var q := PyClose(t, h.nameEnd + 2).value;
    PyPartsShape(t, h, q, PyMatch(t).value.name, PyMatch(t).value.value);
  }

  /** A decomposition fixes the head `PyMatch` finds. */
  lemma PyShapeHead(t: string, ws: string, name: string, value: string, rest: string)
    requires PyShape(t, ws, name, value, rest)
    ensures MatchHead(t, IsPySpace) == Some(Head(6 + |ws|, 6 + |ws| + |name|))
  {
    PySpaceIsNotWord();
    HeadDetermined(t, ws, name, IsPySpace);
  }

  /** A quote after a run of value characters is reached, and `PyClose` stops at it or later. */
  lemma PyCloseReaches(t: string, v: nat, close: nat)
    requires v < close < |t| && t[close] == '\''
    requires forall k :: v <= k < close ==> IsPyDotChar(t[k])
    ensures PyClose(t, v).Some? && close <= PyClose(t, v).value
  {
    var lim := SpanEnd(t, v, IsPyDotChar);
    assert lim > close;
  }

  /** The value of a decomposition ends at a quote `PyClose` reaches. */
  lemma PyShapeClose(t: string, ws: string, name: string, value: string, rest: string)
    requires PyShape(t, ws, name, value, rest)
    ensures var v := 6 + |ws| + |name| + 2;
      PyClose(t, v).Some? && v + |value| <= PyClose(t, v).value
  {
    var v := 6 + |ws| + |name| + 2;
    var close := v + |value|;
    forall k | v <= k < close ensures IsPyDotChar(t[k]) {
      assert t[k] == t[v..close][k - v];
    }
    PyCloseReaches(t, v, close);
  }

  /** What `PyMatch` reports once it has found a head and a closing quote. */
  lemma PyMatchFrom(t: string, h: Head, q: nat)
    requires MatchHead(t, IsPySpace) == Some(h) && h.nameEnd + 2 <= |t| && PyClose(t, h.nameEnd + 2) == Some(q)
    ensures PyMatch(t) == Some(Entry(t[h.nameStart..h.nameEnd], t[h.nameEnd + 2..q]))
  {
  }

  /** The name and the value of a decomposition, by position. */
  lemma PyShapeSlices(t: string, ws: string, name: string, value: string, rest: string)
    requires PyShape(t, ws, name, value, rest)
    ensures 6 + |ws| + |name| + 2 + |value| < |t|
    ensures var ns := 6 + |ws|; var v := ns + |name| + 2;
      t[ns..ns + |name|] == name && t[v..v + |value|] == value
  {
  }

  /** A value that lies at `v` is a prefix of any longer slice of `t` that starts at `v`. */
  lemma SlicePrefix(t: string, v: nat, value: string, q: nat, m: string)
    requires v + |value| <= q <= |t| && t[v..v + |value|] == value && m == t[v..q]
    ensures value <= m
  {
    assert m[..|value|] == value;
  }

  /** The conclusion of `PyMatchComplete`, from the positions a decomposition fixes. */
  lemma PyMatchAt(t: string, ws: string, name: string, value: string, q: nat)
    requires MatchHead(t, IsPySpace) == Some(Head(6 + |ws|, 6 + |ws| + |name|))
    requires var v := 6 + |ws| + |name| + 2;
      v + |value| <= q && v <= |t| && PyClose(t, v) == Some(q)
    requires var ns := 6 + |ws|; var v := ns + |name| + 2;
      t[ns..ns + |name|] == name && t[v..v + |value|] == value
    ensures PyMatch(t).Some? && PyMatch(t).value.name == name
    ensures value <= PyMatch(t).value.value
    ensures var close := 6 + |ws| + |name| + 2 + |PyMatch(t).value.value|; close < |t| && t[close] == '\''
  {
    var ns := 6 + |ws|;
    var v := ns + |name| + 2;
    PyMatchFrom(t, Head(ns, ns + |name|), q);
    SlicePrefix(t, v, value, q, PyMatch(t).value.value);
  }

  /** Every decomposition is found, and `PyMatch` reports one whose value extends it to a later quote. */
  lemma PyMatchComplete(t: string, ws: string, name: string, value: string, rest: string)
    requires PyShape(t, ws, name, value, rest)
    ensures PyMatch(t).Some? && PyMatch(t).value.name == name
    ensures value <= PyMatch(t).value.value
    ensures var close := 6 + |ws| + |name| + 2 + |PyMatch(t).value.value|; close < |t| && t[close] == '\''
  {
    PyShapeHead(t, ws, name, value, rest);
    PyShapeClose(t, ws, name, value, rest);
    PyShapeSlices(t, ws, name, value, rest);
    PyMatchAt(t, ws, name, value, PyClose(t, 6 + |ws| + |name| + 2).value);
  }

  /** A reported binding beats every decomposition. */
  lemma PyMatchBeatsEveryShape(t: string)
    requires PyMatch(t).Some?
    ensures PyGreedy(t, PyMatch(t).value.name, PyMatch(t).value.value)
  {
    PyMatchSound(t);
    forall ws, n, v, rest | PyShape(t, ws, n, v, rest) ensures |v| <= |PyMatch(t).value.value| {
      PyMatchComplete(t, ws, n, v, rest);
    }
  }

  /** A decomposition with a value no other decomposition beats is the one reported. */
  lemma GreedyShapeIsReported(t: string, name: string, value: string)
    requires PyGreedy(t, name, value)
    ensures PyMatch(t) == Some(Entry(name, value))
  {
    var ws, rest :| PyShape(t, ws, name, value, rest);
    PyMatchComplete(t, ws, name, value, rest);
    var m := PyMatch(t).value;
    PyMatchSound(t);
    var ws', rest' :| PyShape(t, ws', m.name, m.value, rest');
    assert |m.value| <= |value|;
    assert m.value == value;
  }

  /** `re.match` finds nothing exactly when the line has no decomposition. */
  lemma NoShapeNoMatch(t: string)
    ensures PyMatch(t).None? <==> forall ws, n, v, rest :: !PyShape(t, ws, n, v, rest)
  {
    if PyMatch(t).Some? {
      PyMatchSound(t);
    } else {
      forall ws, n, v, rest | PyShape(t, ws, n, v, rest) ensures false {
        PyMatchComplete(t, ws, n, v, rest);
      }
    }
  }

  /** `re.match` reports exactly the decomposition with the longest value, and nothing when there is none. */
  lemma {:induction false} PyMatchIsGreedy(t: string, name: string, value: string)
    ensures PyMatch(t) == Some(Entry(name, value)) <==> PyGreedy(t, name, value)
    ensures PyMatch(t).None? <==> forall ws, n, v, rest :: !PyShape(t, ws, n, v, rest)
  {
    if PyMatch(t) == Some(Entry(name, value)) {
      PyMatchBeatsEveryShape(t);
    }
    if PyGreedy(t, name, value) {
      GreedyShapeIsReported(t, name, value);
    }
    NoShapeNoMatch(t);
  }

  /** A line `JavaMatch` accepts has the pattern's character classes where `MatchedAt` wants them. */
  lemma JavaPartsMatched(t: string, h: Head)
    requires MatchHead(t, IsJavaRegexSpace) == Some(h) && JavaMatch(t).Some?
    ensures MatchedAt(t, h.nameStart, h.nameEnd, |t| - 1, IsJavaRegexSpace, IsJavaDotChar)
    ensures JavaMatch(t).value == Entry(t[h.nameStart..h.nameEnd], t[h.nameEnd + 2..|t| - 1])
  {
  }

  lemma JavaShapeAt(t: string, ns: int, ne: int, name: string, value: string)
    requires MatchedAt(t, ns, ne, |t| - 1, IsJavaRegexSpace, IsJavaDotChar)
    requires name == t[ns..ne] && value == t[ne + 2..|t| - 1]
    ensures exists ws :: JavaShape(t, ws, name, value)
  {
    ShapeAt(t, ns, ne, |t| - 1, IsJavaRegexSpace, IsJavaDotChar);
    assert t[|t|..] == [];
    assert JavaShape(t, t[6..ns], name, value);
  }

  /** Every binding `JavaMatch` reports is an exact decomposition of the line. */
  lemma JavaMatchSound(t: string)
    requires JavaMatch(t).Some?
    ensures exists ws :: JavaShape(t, ws, JavaMatch(t).value.name, JavaMatch(t).value.value)
  {
    var h := MatchHead(t, IsJavaRegexSpace).value;
    JavaPartsMatched(t, h);
    JavaShapeAt(t, h.nameStart, h.nameEnd, JavaMatch(t).value.name, JavaMatch(t).value.value);
  }

  /** Every exact decomposition is found, and it is the one `JavaMatch` reports. */
  lemma JavaMatchComplete(t: string, ws: string, name: string, value: string)
    requires JavaShape(t, ws, name, value)
    ensures JavaMatch(t) == Some(Entry(name, value))
  {
    JavaSpaceIsNotWord();
    HeadDetermined(t, ws, name, IsJavaRegexSpace);
    var v := 6 + |ws| + |name| + 2;
    forall k | v <= k < |t| - 1 ensures IsJavaDotChar(t[k]) {
      assert t[k] == t[v..|t| - 1][k - v];
    }
  }

  /** `matches()` accepts a line exactly when it is one decomposition, and the decomposition gives the binding. */
  lemma {:induction false} JavaMatchIsExact(t: string, name: string, value: string)
    ensures JavaMatch(t) == Some(Entry(name, value)) <==> exists ws :: JavaShape(t, ws, name, value)
  {
    if JavaMatch(t) == Some(Entry(name, value)) {
      JavaMatchSound(t);
    }
    if ws :| JavaShape(t, ws, name, value) {
      JavaMatchComplete(t, ws, name, value);
    }
  }

  /** An exact Java decomposition is a Python decomposition with nothing after the quote. */
  lemma JavaShapeIsPyShape(t: string, ws: string, name: string, value: string)
    requires JavaShape(t, ws, name, value)
    ensures PyShape(t, ws, name, value, [])
  {
    forall i | 0 <= i < |ws| ensures IsPySpace(ws[i]) {
      assert IsJavaRegexSpace(ws[i]);
    }
    forall i | 0 <= i < |value| ensures IsPyDotChar(value[i]) {
      assert IsJavaDotChar(value[i]);
    }
  }

  /** A value that extends `value` and still closes inside the line is `value` itself. */
  lemma NoRoomToExtend(value: string, m: string, close: nat, len: nat)
    requires value <= m && close == len - 1 - |value| + |m| && close < len && |value| < len
    ensures m == value
  {
  }

  /** Whatever Java accepts, Python accepts with the same binding. */
  lemma JavaAcceptedImpliesPyAccepted(t: string)
    requires JavaMatch(t).Some?
    ensures PyMatch(t) == JavaMatch(t)
  {
    var e := JavaMatch(t).value;
    JavaMatchSound(t);
    var ws :| JavaShape(t, ws, e.name, e.value);
    JavaShapeIsPyShape(t, ws, e.name, e.value);
    PyMatchComplete(t, ws, e.name, e.value, []);
    var m := PyMatch(t).value;
    assert |t| == 6 + |ws| + |e.name| + 2 + |e.value| + 1;
    NoRoomToExtend(e.value, m.value, 6 + |ws| + |e.name| + 2 + |m.value|, |t|);
  }

  const Commented := "export A='x'" + " # note"

  lemma CommentedShape()
    ensures PyShape(Commented, " ", "A", "x", " # note")
  {
    assert Commented == Export + " " + "A" + "='" + "x" + "'" + " # note";
    JoinedIsLaid(" ", "A", "x", " # note");
  }

  /** The only quotes of `Commented` close the value `x`. */
  lemma CommentedQuotes()
    ensures forall k :: 11 < k < |Commented| ==> Commented[k] != '\''
  {
  }

  /** Text after the closing quote: Python keeps the binding, Java rejects the line. */
  lemma TrailingTextSplitsTheDialects()
    ensures PyMatch(Commented) == Some(Entry("A", "x"))
    ensures JavaMatch(Commented).None?
  {
    CommentedShape();
    CommentedQuotes();
    PyMatchComplete(Commented, " ", "A", "x", " # note");
    var m := PyMatch(Commented).value;
    assert |m.value| == 1;
    assert Commented[|Commented| - 1] != '\'';
  }
}
