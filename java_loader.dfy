/**
 * `loadEnvVars` of the Java connection test: reads `envVarsExtended.txt` (or the copy in the
 * parent directory), binds every line that is exactly `export NAME='VALUE'` and checks the
 * four cluster credentials, stopping at the first that is missing.
 */
module JavaLoader {
  import opened Wrappers
  import opened Text
  import opened EnvPattern
  import opened EnvFile
  import opened JavaErrors

  const EnvFileName := "envVarsExtended.txt"

  const Required: seq<string> := [
    "CAMUNDA_CLUSTER_ID",
    "CAMUNDA_CLIENT_ID",
    "CAMUNDA_CLIENT_SECRET",
    "CAMUNDA_CLUSTER_REGION"
  ]

  const NotFoundMessage := EnvFileName + " file not found. Double check that this file is available in this directory or parent directory"

  function IOError(message: string): JavaError
  {
    JavaError(IOExceptionClass, Some(message))
  }

  function FormatMessage(lineNum: nat, text: string): string
  {
    "Invalid format in " + EnvFileName + " at line " + NatToString(lineNum) + ": " + text
  }

  function MissingMessage(name: string): string
  {
    "Missing required environment variable: " + name
  }

  /**
   * What `loadEnvVars()` returns or throws. `found` says whether the existence checks found
   * the file here or in the parent directory; `lines` are that file's lines.
   */
  function LoadResult(found: bool, lines: seq<string>): (r: Result<map<string, string>, JavaError>)
    ensures r.Ok? ==> found && HasAll(Required, r.value)
    ensures !found ==> r == Err(IOError(NotFoundMessage))
  {
    if !found then Err(IOError(NotFoundMessage))
    else match Parse(Java, lines)
      case Err(b) => Err(IOError(FormatMessage(b.lineNum, b.text)))
      case Ok(env) =>
        match FirstMissing(Required, env)
        case Some(k) => Err(IOError(MissingMessage(k)))
        case None => NoneFirstMissing(Required, env); Ok(env)
  }

  /** The `for` loop over the required names: the first one absent from `env`, if any. */
  method CheckRequired(env: map<string, string>) returns (missing: Option<string>)
    ensures missing == FirstMissing(Required, env)
  {
    for i := 0 to |Required|
      invariant forall j :: 0 <= j < i ==> Required[j] in env
    {
      if Required[i] !in env {
        return Some(Required[i]);
      }
    }
    return None;
  }

  /** The `while` loop that reads, counts and binds every line, filling the map in place. */
  method ReadLines(lines: seq<string>) returns (r: Result<map<string, string>, BadLine>)
    ensures r == Parse(Java, lines)
  {
    var env: map<string, string> := map[];
    var lineNum := 0;
    while lineNum < |lines|
      invariant 0 <= lineNum <= |lines|
      invariant Parse(Java, lines[..lineNum]) == Ok(env)
    {
      var line := Strip(lines[lineNum], IsJavaTrimmed);
      NextLine(Java, lines, lineNum, env);
      lineNum := lineNum + 1;
      if line != [] && line[0] != '#' {
        var m := JavaMatch(line);
        if m.None? {
          return Err(BadLine(lineNum, line));
        }
        env := env[m.value.name := m.value.value];
      }
    }
    assert lines[..lineNum] == lines;
    return Ok(env);
  }

  /** The loader itself: the file check, the read loop and the required-name loop. */
  method LoadEnvVars(found: bool, lines: seq<string>) returns (r: Result<map<string, string>, JavaError>)
    ensures r == LoadResult(found, lines)
    ensures r.Ok? ==> HasAll(Required, r.value)
  {
    if !found {
      return Err(IOError(NotFoundMessage));
    }
    var read := ReadLines(lines);
    if read.Err? {
      return Err(IOError(FormatMessage(read.error.lineNum, read.error.text)));
    }
    var env := read.value;
    var missing := CheckRequired(env);
    if missing.Some? {
      return Err(IOError(MissingMessage(missing.value)));
    }
    return Ok(env);
  }

  /** The first malformed line, counted from 1 over all lines read, is the one the error names. */
  lemma FirstBadLineIsReported(lines: seq<string>, i: nat)
    requires i < |lines| && Classifier(Java)(lines[i]).Malformed?
    requires forall j :: 0 <= j < i ==> !Classifier(Java)(lines[j]).Malformed?
    ensures LoadResult(true, lines) == Err(IOError(FormatMessage(i + 1, Trim(Java, lines[i]))))
  {
    FirstBadLineIsFound(Classifier(Java), lines, i);
    MalformedKeepsText(Java, lines[i]);
  }

  /**
   * A file without malformed lines loads exactly when every required name is bound by some
   * line; otherwise the error names the first required name no line binds.
   */
  lemma LoadSucceedsWhenAllRequiredBound(lines: seq<string>)
    requires forall j :: 0 <= j < |lines| ==> !Classifier(Java)(lines[j]).Malformed?
    ensures LoadResult(true, lines).Ok? <==> forall k :: k in Required ==> IsBound(Classifier(Java), lines, k)
    ensures LoadResult(true, lines).Err? ==>
              exists r ::
                && 0 <= r < |Required|
                && LoadResult(true, lines).error == IOError(MissingMessage(Required[r]))
                && !IsBound(Classifier(Java), lines, Required[r])
                && forall q :: 0 <= q < r ==> IsBound(Classifier(Java), lines, Required[q])
  {
    FirstUnbound(Classifier(Java), lines, Required);
  }
}
