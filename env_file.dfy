/**
 * The configuration-file format both loaders read, one line at a time: each line is trimmed,
 * a blank line or one starting with `#` is skipped, and every other line must match
 * `export\s+(\w+)='(.+)'` or the load stops at it. Later bindings of a name replace earlier
 * ones. The two loaders differ only in how they trim and how they apply the pattern, which
 * is what `Dialect` selects.
 */
module EnvFile {
  import opened Wrappers
  import opened Text
  import opened EnvPattern

  datatype Dialect = Python | Java

  /** `str.strip()` for Python, `String.trim()` for Java. */
  function Trim(d: Dialect, raw: string): string
  {
    match d
    case Python => Strip(raw, IsPySpace)
    case Java => Strip(raw, IsJavaTrimmed)
  }

  /** A trimmed line that is blank or a comment. */
  predicate Skipped(t: string)
  {
    t == [] || t[0] == '#'
  }

  /** `re.match` for Python, `Matcher.matches()` for Java. */
  function MatchLine(d: Dialect, t: string): Option<Entry>
  {
    match d
    case Python => PyMatch(t)
    case Java => JavaMatch(t)
  }

  /** What one line of the file is, once trimmed. */
  datatype Line = Blank | Binds(entry: Entry) | Malformed(text: string)

  function Classify(d: Dialect, raw: string): (l: Line)
    ensures l.Blank? <==> Skipped(Trim(d, raw))
    ensures l.Malformed? ==> l.text == Trim(d, raw) && !Skipped(l.text)
  {
    var t := Trim(d, raw);
    if Skipped(t) then Blank
    else match MatchLine(d, t)
      case Some(e) => Binds(e)
      case None => Malformed(t)
  }

  lemma MalformedKeepsText(d: Dialect, raw: string)
    requires Classify(d, raw).Malformed?
    ensures Classify(d, raw).text == Trim(d, raw)
  {
  }

  /** The line classifier of a dialect. */
  function Classifier(d: Dialect): string -> Line
  {
    raw => Classify(d, raw)
  }

  predicate BindsName(c: string -> Line, raw: string, k: string)
  {
    c(raw).Binds? && c(raw).entry.name == k
  }

  /** Some line binds `k`. */
  ghost predicate IsBound(c: string -> Line, lines: seq<string>, k: string)
  {
    exists i :: 0 <= i < |lines| && BindsName(c, lines[i], k)
  }

  /** Line `i` binds `k` to `v` and no later line binds `k` again. */
  ghost predicate LastBindingAt(c: string -> Line, lines: seq<string>, i: int, k: string, v: string)
  {
    && 0 <= i < |lines|
    && c(lines[i]) == Binds(Entry(k, v))
    && forall j :: i < j < |lines| ==> !BindsName(c, lines[j], k)
  }

  /** The line that stopped a load: its 1-based number and its trimmed text. */
  datatype BadLine = BadLine(lineNum: nat, text: string)

  /** Processes line number `num` on top of the bindings read so far. */
  function Step(env: map<string, string>, line: Line, num: nat): Result<map<string, string>, BadLine>
  {
    match line
    case Blank => Ok(env)
    case Binds(e) => Ok(env[e.name := e.value])
    case Malformed(t) => Err(BadLine(num, t))
  }

  /** The parse of a file extended by one line, from the parse of the file. */
  function ThenLine(r: Result<map<string, string>, BadLine>, line: Line, num: nat): Result<map<string, string>, BadLine>
  {
    match r
    case Err(b) => Err(b)
    case Ok(env) => Step(env, line, num)
  }

  /** The bindings of a whole file, or the first line that does not fit, under classifier `c`. */
  function ParseBy(c: string -> Line, lines: seq<string>): (r: Result<map<string, string>, BadLine>)
    ensures r.Err? ==> 1 <= r.error.lineNum <= |lines|
    decreases |lines|
  {
    if lines == [] then Ok(map[])
    else ThenLine(ParseBy(c, lines[..|lines| - 1]), c(lines[|lines| - 1]), |lines|)
  }

  /** The bindings a loader of dialect `d` reads from `lines`, or the line it stops at. */
  function Parse(d: Dialect, lines: seq<string>): (r: Result<map<string, string>, BadLine>)
    ensures r.Err? ==> 1 <= r.error.lineNum <= |lines|
  {
    ParseBy(Classifier(d), lines)
  }

  /** A load either fails at its first malformed line, naming it by 1-based number and trimmed text, or has none. */
  lemma {:induction false} ParseFailsAtFirstBadLine(c: string -> Line, lines: seq<string>)
    ensures ParseBy(c, lines).Err? <==> exists i :: 0 <= i < |lines| && c(lines[i]).Malformed?
    ensures ParseBy(c, lines).Err? ==>
              var b := ParseBy(c, lines).error;
              && 1 <= b.lineNum <= |lines|
              && c(lines[b.lineNum - 1]) == Malformed(b.text)
              && forall j :: 0 <= j < b.lineNum - 1 ==> !c(lines[j]).Malformed?
    decreases |lines|
  {
    if lines != [] {
      var p := lines[..|lines| - 1];
      ParseFailsAtFirstBadLine(c, p);
      assert forall i :: 0 <= i < |p| ==> p[i] == lines[i];
    }
  }

  /** The first malformed line is the one reported. */
  lemma FirstBadLineIsFound(c: string -> Line, lines: seq<string>, i: nat)
    requires i < |lines| && c(lines[i]).Malformed?
    requires forall j :: 0 <= j < i ==> !c(lines[j]).Malformed?
    ensures ParseBy(c, lines) == Err(BadLine(i + 1, c(lines[i]).text))
  {
    ParseFailsAtFirstBadLine(c, lines);
    var b := ParseBy(c, lines).error;
    assert !(b.lineNum - 1 < i);
    assert !(b.lineNum - 1 > i);
  }

  /** After a failure, further lines change nothing. */
  lemma {:induction false} ErrorSticks(c: string -> Line, a: seq<string>, b: seq<string>)
    requires ParseBy(c, a).Err?
    ensures ParseBy(c, a + b) == ParseBy(c, a)
    decreases |b|
  {
    if b != [] {
      var b' := b[..|b| - 1];
      ErrorSticks(c, a, b');
      assert (a + b)[..|a + b| - 1] == a + b';
    } else {
      assert a + b == a;
    }
  }

  /** Unfolds `ParseBy` on a prefix one line longer. */
  lemma PrefixStep(c: string -> Line, lines: seq<string>, i: nat)
    requires i < |lines|
    ensures ParseBy(c, lines[..i + 1]) ==
              match ParseBy(c, lines[..i])
              case Err(b) => Err(b)
              case Ok(env) => Step(env, c(lines[i]), i + 1)
  {
    assert lines[..i + 1][..i] == lines[..i];
  }

  /** One more line read under classifier `c`: it is skipped, it binds a name, or the whole file stops at it. */
  lemma NextLineBy(c: string -> Line, lines: seq<string>, i: nat, env: map<string, string>)
    requires i < |lines| && ParseBy(c, lines[..i]) == Ok(env)
    ensures c(lines[i]).Blank? ==> ParseBy(c, lines[..i + 1]) == Ok(env)
    ensures c(lines[i]).Binds? ==> ParseBy(c, lines[..i + 1]) == Ok(env[c(lines[i]).entry.name := c(lines[i]).entry.value])
    ensures c(lines[i]).Malformed? ==> ParseBy(c, lines) == Err(BadLine(i + 1, c(lines[i]).text))
  {
    PrefixStep(c, lines, i);
    if c(lines[i]).Malformed? {
      BadLineStops(c, lines, i);
    }
  }

  /** A failure on a prefix of the file is the failure of the whole file. */
  lemma BadLineStops(c: string -> Line, lines: seq<string>, i: nat)
    requires i < |lines| && ParseBy(c, lines[..i + 1]).Err?
    ensures ParseBy(c, lines) == ParseBy(c, lines[..i + 1])
  {
    var a, b := lines[..i + 1], lines[i + 1..];
    assert a + b == lines;
    ErrorSticks(c, a, b);
  }

  /** The classifier of dialect `d` applied to a raw line, case by case. */
  lemma ClassifierCases(d: Dialect, raw: string)
    ensures var t := Trim(d, raw); var l := Classifier(d)(raw);
      && (Skipped(t) ==> l == Blank)
      && (!Skipped(t) && MatchLine(d, t).Some? ==> l == Binds(MatchLine(d, t).value))
      && (!Skipped(t) && MatchLine(d, t).None? ==> l == Malformed(t))
  {
    assert Classifier(d)(raw) == Classify(d, raw);
  }

  /** One more line read by dialect `d`: it is skipped, it binds a name, or the whole file stops at it. */
  lemma NextLine(d: Dialect, lines: seq<string>, i: nat, env: map<string, string>)
    requires i < |lines| && Parse(d, lines[..i]) == Ok(env)
    ensures var t := Trim(d, lines[i]);
      && (Skipped(t) ==> Parse(d, lines[..i + 1]) == Ok(env))
      && (!Skipped(t) && MatchLine(d, t).Some? ==>
            Parse(d, lines[..i + 1]) == Ok(env[MatchLine(d, t).value.name := MatchLine(d, t).value.value]))
      && (!Skipped(t) && MatchLine(d, t).None? ==> Parse(d, lines) == Err(BadLine(i + 1, t)))
  {
    NextLineBy(Classifier(d), lines, i, env);
    ClassifierCases(d, lines[i]);
  }


  /**
   * On success, a name is bound exactly when some line binds it, and it is bound to the value
   * of the last line that does: later bindings overwrite earlier ones.
   */
  lemma {:induction false} ParseBindsLastValue(c: string -> Line, lines: seq<string>, k: string, v: string)
    requires ParseBy(c, lines).Ok?
    ensures k in ParseBy(c, lines).value <==> exists i :: 0 <= i < |lines| && BindsName(c, lines[i], k)
    ensures (k in ParseBy(c, lines).value && ParseBy(c, lines).value[k] == v) <==> exists i :: LastBindingAt(c, lines, i, k, v)
    decreases |lines|
  {
    if lines != [] {
      var n := |lines| - 1;
      var p := lines[..n];
      ParseBindsLastValue(c, p, k, v);
      assert forall i :: 0 <= i < n ==> p[i] == lines[i];
      if BindsName(c, lines[n], k) {
        var w := c(lines[n]).entry.value;
        assert LastBindingAt(c, lines, n, k, w);
        forall i | LastBindingAt(c, lines, i, k, v) ensures v == w {
          assert i == n;
        }
      } else {
        forall i | LastBindingAt(c, lines, i, k, v) ensures LastBindingAt(c, p, i, k, v) {
        }
        forall i | LastBindingAt(c, p, i, k, v) ensures LastBindingAt(c, lines, i, k, v) {
        }
      }
    }
  }

  /** Without malformed lines a load succeeds, and the names it binds are those some line binds. */
  lemma BoundNames(c: string -> Line, lines: seq<string>)
    requires forall j :: 0 <= j < |lines| ==> !c(lines[j]).Malformed?
    ensures ParseBy(c, lines).Ok?
    ensures forall k :: k in ParseBy(c, lines).value <==> IsBound(c, lines, k)
  {
    ParseFailsAtFirstBadLine(c, lines);
    forall k ensures k in ParseBy(c, lines).value <==> IsBound(c, lines, k) {
      ParseBindsLastValue(c, lines, k, "");
    }
  }

  /** Renumbers an outcome after a skipped line is inserted after line `at`. */
  function Renumbered(r: Result<map<string, string>, BadLine>, at: nat): Result<map<string, string>, BadLine>
  {
    match r
    case Ok(env) => Ok(env)
    case Err(b) => Err(BadLine(if b.lineNum <= at then b.lineNum else b.lineNum + 1, b.text))
  }

  /**
   * A blank or comment line, inserted anywhere, adds no binding and causes no failure: the
   * outcome is the same, except that a reported line number after it moves down by one.
   */
  lemma {:induction false} SkippedLineChangesNothing(c: string -> Line, a: seq<string>, s: string, b: seq<string>)
    requires c(s) == Blank
    ensures ParseBy(c, a + [s] + b) == Renumbered(ParseBy(c, a + b), |a|)
    decreases |b|
  {
    if b == [] {
      assert (a + [s] + b)[..|a|] == a;
      assert a + b == a;
    } else {
      var b' := b[..|b| - 1];
      SkippedLineChangesNothing(c, a, s, b');
      assert (a + [s] + b)[..|a + [s] + b| - 1] == a + [s] + b';
      assert (a + b)[..|a + b| - 1] == a + b';
      LastLineAfterRenumbering(ParseBy(c, a + b'), c(b[|b| - 1]), |a|, |a + b|);
    }
  }

  /** Reading one more line commutes with renumbering the lines after `at`. */
  lemma LastLineAfterRenumbering(r: Result<map<string, string>, BadLine>, line: Line, at: nat, n: nat)
    requires at < n
    ensures ThenLine(Renumbered(r, at), line, n + 1) == Renumbered(ThenLine(r, line, n), at)
  {
  }

  /** `r` lists some of the elements of `s`, in the order they have there. */
  ghost predicate IsSubsequence(r: seq<string>, s: seq<string>)
    decreases |s|
  {
    if r == [] then true
    else if s == [] then false
    else if r[0] == s[0] then IsSubsequence(r[1..], s[1..])
    else IsSubsequence(r, s[1..])
  }

  /** The required names that are not bound, in the order they are required. */
  function Missing(required: seq<string>, env: map<string, string>): (r: seq<string>)
    ensures forall k :: k in r <==> k in required && k !in env
    ensures IsSubsequence(r, required)
    decreases |required|
  {
    if required == [] then []
    else if required[0] in env then Missing(required[1..], env)
    else [required[0]] + Missing(required[1..], env)
  }

  /** Every required name is present in `env`. */
  predicate HasAll(required: seq<string>, env: map<string, string>)
  {
    forall k :: k in required ==> k in env
  }

  /** When nothing is missing, every required name is present. */
  lemma NoneMissing(required: seq<string>, env: map<string, string>)
    requires Missing(required, env) == []
    ensures HasAll(required, env)
  {
    forall k | k in required ensures k in env {
      assert k !in Missing(required, env);
    }
  }

  /** The first required name that is not bound. */
  function FirstMissing(required: seq<string>, env: map<string, string>): (r: Option<string>)
    ensures r.None? <==> forall i :: 0 <= i < |required| ==> required[i] in env
    ensures r.Some? ==> exists i ::
              && 0 <= i < |required| && required[i] == r.value && r.value !in env
              && forall j :: 0 <= j < i ==> required[j] in env
    decreases |required|
  {
    if required == [] then None
    else if required[0] !in env then
      Some(required[0])
    else
      var r := FirstMissing(required[1..], env);
      if r.Some? then
        var i :| 0 <= i < |required[1..]| && required[1..][i] == r.value && r.value !in env
                 && forall j :: 0 <= j < i ==> required[1..][j] in env;
        assert required[i + 1] == r.value;
        r
      else
        r
  }

  /** When no required name is reported missing, every required name is present. */
  lemma NoneFirstMissing(required: seq<string>, env: map<string, string>)
    requires FirstMissing(required, env).None?
    ensures HasAll(required, env)
  {
    forall k | k in required ensures k in env {
      var i :| 0 <= i < |required| && required[i] == k;
    }
  }

  /** Without malformed lines, the first missing required name is the first one no line binds. */
  lemma FirstUnbound(c: string -> Line, lines: seq<string>, required: seq<string>)
    requires forall j :: 0 <= j < |lines| ==> !c(lines[j]).Malformed?
    ensures ParseBy(c, lines).Ok?
    ensures FirstMissing(required, ParseBy(c, lines).value).None? <==> forall k :: k in required ==> IsBound(c, lines, k)
    ensures FirstMissing(required, ParseBy(c, lines).value).Some? ==>
              exists r ::
                && 0 <= r < |required| && FirstMissing(required, ParseBy(c, lines).value).value == required[r]
                && !IsBound(c, lines, required[r])
                && forall q :: 0 <= q < r ==> IsBound(c, lines, required[q])
  {
    BoundNames(c, lines);
    var env := ParseBy(c, lines).value;
    assert (forall k :: k in required ==> k in env) <==> (forall i :: 0 <= i < |required| ==> required[i] in env);
  }

  /** Java's report names the head of Python's list. */
  lemma {:induction false} FirstMissingIsHeadOfMissing(required: seq<string>, env: map<string, string>)
    ensures FirstMissing(required, env).None? <==> Missing(required, env) == []
    ensures FirstMissing(required, env).Some? ==> FirstMissing(required, env).value == Missing(required, env)[0]
    decreases |required|
  {
    if required != [] && required[0] in env {
      FirstMissingIsHeadOfMissing(required[1..], env);
    }
  }
}
