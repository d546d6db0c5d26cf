/**
 * `load_env_vars` of the Python connection test: reads `envVars.txt` (or the copy in the
 * parent directory), binds every `export NAME='VALUE'` line and checks that the five console
 * credentials are present.
 */
module PyLoader {
  import opened Wrappers
  import opened Text
  import opened EnvPattern
  import opened EnvFile
  import opened PyErrors

  const DefaultPath := "envVars.txt"

  const Required: seq<string> := [
    "CAMUNDA_CONSOLE_CLIENT_ID",
    "CAMUNDA_CONSOLE_CLIENT_SECRET",
    "CAMUNDA_OAUTH_URL",
    "CAMUNDA_CONSOLE_BASE_URL",
    "CAMUNDA_CONSOLE_OAUTH_AUDIENCE"
  ]

  const NotFoundTail := " file not found. Double check that this file is available in this directory or parent directory"

  function NotFoundMessage(filePath: string): string
  {
    filePath + NotFoundTail
  }

  /** The message of a malformed line, wrapped by the reader's `except` into "Error reading ...". */
  function FormatMessage(path: string, lineNum: nat, text: string): string
  {
    "Error reading " + path + ": Invalid format in " + path + " at line " + NatToString(lineNum) + ": " + text
  }

  function MissingMessage(missing: seq<string>): string
  {
    "Missing required environment variables: " + Join(missing, ", ")
  }

  /**
   * What `load_env_vars(filePath)` returns or raises. `located` is the file the existence
   * checks settled on (`filePath` itself or its copy under `..`), or `None` when neither
   * exists; `lines` are that file's lines.
   */
  function LoadResult(filePath: string, located: Option<string>, lines: seq<string>): (r: Result<map<string, string>, PyError>)
    ensures r.Ok? ==> located.Some? && HasAll(Required, r.value)
    ensures located.None? ==> r == Err(PyError(FileNotFound, NotFoundMessage(filePath)))
  {
    match located
    case None => Err(PyError(FileNotFound, NotFoundMessage(filePath)))
    case Some(path) =>
      match Parse(Python, lines)
      case Err(b) => Err(PyError(ValueErr, FormatMessage(path, b.lineNum, b.text)))
      case Ok(env) =>
        var missing := Missing(Required, env);
        if missing != [] then Err(PyError(ValueErr, MissingMessage(missing)))
        else NoneMissing(Required, env); Ok(env)
  }

  /** The `for` loop over the numbered lines, filling the dictionary in place. */
  method ReadLines(lines: seq<string>) returns (r: Result<map<string, string>, BadLine>)
    ensures r == Parse(Python, lines)
  {
    var env: map<string, string> := map[];
    var lineNum := 0;
    while lineNum < |lines|
      invariant 0 <= lineNum <= |lines|
      invariant Parse(Python, lines[..lineNum]) == Ok(env)
    {
      var line := Strip(lines[lineNum], IsPySpace);
      NextLine(Python, lines, lineNum, env);
      if line != [] && line[0] != '#' {
        var m := PyMatch(line);
        if m.None? {
          return Err(BadLine(lineNum + 1, line));
        }
        env := env[m.value.name := m.value.value];
      }
      lineNum := lineNum + 1;
    }
    assert lines[..lineNum] == lines;
    return Ok(env);
  }

  /** The loader itself: the file check, the read loop and the required-name check. */
  method LoadEnvVars(filePath: string, located: Option<string>, lines: seq<string>) returns (r: Result<map<string, string>, PyError>)
    ensures r == LoadResult(filePath, located, lines)
    ensures r.Ok? ==> HasAll(Required, r.value)
  {
    if located.None? {
      return Err(PyError(FileNotFound, NotFoundMessage(filePath)));
    }
    var path := located.value;
    var read := ReadLines(lines);
    if read.Err? {
      return Err(PyError(ValueErr, FormatMessage(path, read.error.lineNum, read.error.text)));
    }
    var env := read.value;
    var missing := Missing(Required, env);
    if missing != [] {
      return Err(PyError(ValueErr, MissingMessage(missing)));
    }
    return Ok(env);
  }

  /** The first malformed line, counted from 1 over all lines, is the one the error names. */
  lemma FirstBadLineIsReported(filePath: string, path: string, lines: seq<string>, i: nat)
    requires i < |lines| && Classifier(Python)(lines[i]).Malformed?
    requires forall j :: 0 <= j < i ==> !Classifier(Python)(lines[j]).Malformed?
    ensures LoadResult(filePath, Some(path), lines) ==
              Err(PyError(ValueErr, FormatMessage(path, i + 1, Trim(Python, lines[i]))))
  {
    FirstBadLineIsFound(Classifier(Python), lines, i);
    MalformedKeepsText(Python, lines[i]);
  }

  /**
   * A file without malformed lines loads exactly when every required name is bound by some
   * line, and otherwise the error lists exactly the unbound ones, in the order required.
   */
  lemma LoadSucceedsWhenAllRequiredBound(filePath: string, path: string, lines: seq<string>)
    requires forall j :: 0 <= j < |lines| ==> !Classifier(Python)(lines[j]).Malformed?
    ensures LoadResult(filePath, Some(path), lines).Ok? <==> forall k :: k in Required ==> IsBound(Classifier(Python), lines, k)
    ensures LoadResult(filePath, Some(path), lines).Err? ==>
              exists missing ::
                && LoadResult(filePath, Some(path), lines).error == PyError(ValueErr, MissingMessage(missing))
                && IsSubsequence(missing, Required) && missing != []
                && forall k :: k in missing <==> k in Required && !IsBound(Classifier(Python), lines, k)
  {
    BoundNames(Classifier(Python), lines);
    var missing := Missing(Required, Parse(Python, lines).value);
    if missing != [] {
      assert missing[0] in missing;
    }
  }
}
