# c8SaasTestTool connection checker, modelled in Dafny

The c8SaasTestTool connection checker is a small diagnostic program. It checks whether a machine can reach Camunda 8 SaaS with the credentials in a local `export NAME='VALUE'` file. It comes in two versions. Each prints a banner and exits with one of five codes: 0 success, 1 SSL error, 2 connection error, 3 authentication error, 4 anything else.

- **Python version** (`python/testConnection.py`). It loads `envVars.txt`, asks the OAuth endpoint for a client-credentials token, calls `<base url>/members` with it, and validates the reply.
- **Java version** (`TestConnection.java`). It checks the running Java version, loads `envVarsExtended.txt`, and asks the cluster for its topology through the Camunda client.

Whatever goes wrong is classified by keyword tests on the lower-cased error text, in a fixed order.

The model covers the logic both programs share and the logic unique to each:

- **Shared file handling.** The line-by-line parser of the env file is one definition over a `Dialect`. Python's `re.match` is a prefix, greedy match; Java's `Matcher.matches` is a whole-line match. The required-key checks are part of it too.
- **Loaders.** The two loaders are `method`s with loops, proved equal to that definition.
- **Python.** The transport-error wrappers of `get_access_token` and `test_api_connection`; `validate_response`; the `except` chain of `main`; `main` itself.
- **Java.** `checkJavaVersion`, built on a model of `String.split("\\.")` and `Integer.parseInt`; `maskCredential`; `testConnection`; `handleException`; `main`.

Modules:

| module | file | what it holds |
|---|---|---|
| `Wrappers` | `wrappers.dfy` | `Option`, `Result` |
| `Text` | `text.dfy` | substring test, lower-casing, strip/trim, decimal rendering, join |
| `ExitCodes` | `exit_codes.dfy` | the five exit codes, the two banners, `Outcome` |
| `PyErrors`, `JavaErrors` | `py_errors.dfy`, `java_errors.dfy` | how a raised exception is represented: a kind tag and its `str(e)`, or a class name and its `getMessage()` |
| `EnvPattern` | `env_pattern.dfy` | the regular expression `export\s+(\w+)='(.+)'` in both dialects |
| `EnvFile` | `env_file.dfy` | line classification, the fail-fast parse, required keys |
| `PyLoader` | `py_loader.dfy` | `load_env_vars` |
| `JavaLoader` | `java_loader.dfy` | `loadEnvVars` |
| `PyConnection` | `py_connection.dfy` | the rest of the Python program |
| `JavaVersion` | `java_version.dfy` | the rest of `checkJavaVersion` |
| `JavaConnection` | `java_connection.dfy` | the rest of the Java program |

Everything outside the program is a parameter:

- whether the env file was found, and where;
- the file's lines;
- the `java.version` property;
- what the HTTP calls or the topology request returned or raised.

## Model

| member | source | states |
|---|---|---|
| `Text.ContainsIsOccurrence` | python/testConnection.py:189 | the substring test used by `in` / `contains` is true exactly when the word occurs at some index |
| `Text.Strip` | python/testConnection.py:78 | the stripped line is no longer than the line and neither starts nor ends with whitespace |
| `Text.StripKeepsOneSlice` | python/testConnection.py:78 | the stripped line is one contiguous slice of the line, and every character removed before or after it is whitespace |
| `Text.NatToString` | python/testConnection.py:87 | the rendered line number is a non-empty run of digits, denotes the number, and has no leading zero |
| `EnvPattern.PyMatch` | python/testConnection.py:82 | a match has a non-empty name made of word characters and a non-empty value; `EnvPattern.PyMatchIsGreedy` characterises it completely |
| `EnvPattern.PyMatchIsGreedy` | python/testConnection.py:82 | `re.match` returns name and value exactly when the line is `export`, whitespace, a word, `='`, value, `'` and any tail, with the value running to the last quote it can reach; it returns nothing exactly when no such layout exists |
| `EnvPattern.LaidIsConcatenation` | python/testConnection.py:82 | the positional description of a layout holds exactly when the line is the concatenation `export` + whitespace + name + `='` + value + `'` + tail |
| `EnvPattern.PyMatchSound` | python/testConnection.py:82-84 | a match returned by the prefix matcher is a layout of the line |
| `EnvPattern.PyMatchComplete` | python/testConnection.py:82-84 | for every layout of the line the matcher returns the same name, and a value that extends the layout's value and ends at a quote |
| `EnvPattern.NoShapeNoMatch` | python/testConnection.py:82-87 | the line is rejected exactly when no layout of it exists |
| `EnvPattern.JavaMatch` | java/src/main/java/com/camunda/academy/TestConnection.java:118-121 | a match has a non-empty name made of word characters and a non-empty value; `EnvPattern.JavaMatchIsExact` characterises it completely |
| `EnvPattern.JavaMatchIsExact` | java/src/main/java/com/camunda/academy/TestConnection.java:118-121 | `matches()` yields name and value exactly when the whole line is `export`, Java whitespace, a word, `='`, a value without line terminators, `'` |
| `EnvPattern.JavaMatchSound` | java/src/main/java/com/camunda/academy/TestConnection.java:118-121 | a Java match is a whole-line layout |
| `EnvPattern.JavaMatchComplete` | java/src/main/java/com/camunda/academy/TestConnection.java:118-121 | every whole-line layout is matched with exactly its name and value |
| `EnvPattern.JavaAcceptedImpliesPyAccepted` | java/src/main/java/com/camunda/academy/TestConnection.java:104 | any line Java accepts, Python accepts with the same name and value |
| `EnvPattern.TrailingTextSplitsTheDialects` | python/testConnection.py:82 | `export A='x' # note` binds `A` to `x` in Python and is rejected by Java |
| `EnvFile.Classify` | python/testConnection.py:78-87 | a stripped line is skipped exactly when it is empty or starts with `#`; a rejected line is reported with its stripped text, which is neither |
| `EnvFile.ParseBy` | python/testConnection.py:77-87 | a failing parse names a line between 1 and the number of lines; `EnvFile.ParseFailsAtFirstBadLine` and `EnvFile.ParseBindsLastValue` characterise it |
| `EnvFile.Parse` | java/src/main/java/com/camunda/academy/TestConnection.java:110-126 | the parse in a loader's dialect names, when it fails, a line between 1 and the number of lines |
| `EnvFile.MalformedKeepsText` | python/testConnection.py:87 | a rejected line is reported with its stripped text |
| `EnvFile.ParseFailsAtFirstBadLine` | python/testConnection.py:77-87 | parsing fails exactly when some line is malformed; the reported 1-based line number points at a malformed line whose text is reported, and no earlier line is malformed |
| `EnvFile.FirstBadLineIsFound` | python/testConnection.py:77-87 | when line `i` is the first malformed one, the error is line `i + 1` with its text |
| `EnvFile.ErrorSticks` | python/testConnection.py:87 | once a prefix of the file fails, no later line changes the error |
| `EnvFile.ParseBindsLastValue` | python/testConnection.py:83-85 | a name is in the mapping exactly when some line binds it; its value is `v` exactly when the last line binding it binds `v` |
| `EnvFile.BoundNames` | python/testConnection.py:77-85 | with no malformed line, parsing succeeds and its keys are exactly the bound names |
| `EnvFile.SkippedLineChangesNothing` | python/testConnection.py:78-80 | inserting a blank or `#` line changes nothing except the numbering of a later error |
| `EnvFile.Missing` | python/testConnection.py:100 | the missing list holds exactly the required names absent from the mapping, in the required order |
| `EnvFile.FirstMissing` | java/src/main/java/com/camunda/academy/TestConnection.java:136-140 | nothing is reported exactly when every required name is present; otherwise the report is the first required name that is absent |
| `EnvFile.FirstUnbound` | java/src/main/java/com/camunda/academy/TestConnection.java:129-140 | over a well-formed file: nothing is missing exactly when every required name is bound by a line; otherwise the reported name is the first required one no line binds |
| `EnvFile.FirstMissingIsHeadOfMissing` | java/src/main/java/com/camunda/academy/TestConnection.java:136-140 | the name Java reports is the first one Python lists, and both report nothing on the same inputs |
| `PyLoader.ReadLines` | python/testConnection.py:77-87 | the read loop returns exactly what the fail-fast parse of the lines in the Python dialect returns |
| `PyLoader.LoadResult` | python/testConnection.py:65-104 | a load succeeds only when the file was found and then holds all five required names; without the file it is the `FileNotFoundError` naming the file |
| `PyLoader.LoadEnvVars` | python/testConnection.py:65-104 | the loop computes the loader's result, and every successful load contains all five required names |
| `PyLoader.FirstBadLineIsReported` | python/testConnection.py:87-90 | the first malformed line gives a `ValueError` `Error reading <path>: Invalid format in <path> at line <n>: <line>` |
| `PyLoader.LoadSucceedsWhenAllRequiredBound` | python/testConnection.py:92-102 | a well-formed file loads exactly when every required name is bound; otherwise the `ValueError` lists exactly the unbound required names, in order |
| `JavaLoader.ReadLines` | java/src/main/java/com/camunda/academy/TestConnection.java:106-127 | the read loop returns exactly what the fail-fast parse of the lines in the Java dialect returns |
| `JavaLoader.CheckRequired` | java/src/main/java/com/camunda/academy/TestConnection.java:136-140 | the loop finds the first required name missing from the mapping |
| `JavaLoader.LoadResult` | java/src/main/java/com/camunda/academy/TestConnection.java:90-143 | a load succeeds only when the file was found and then holds all four required names; without the file it is the `IOException` saying the file was not found |
| `JavaLoader.LoadEnvVars` | java/src/main/java/com/camunda/academy/TestConnection.java:90-143 | the read loop and check compute the loader's result, and every successful load contains all four required names |
| `JavaLoader.FirstBadLineIsReported` | java/src/main/java/com/camunda/academy/TestConnection.java:110-125 | the first malformed line gives `IOException` `Invalid format in envVarsExtended.txt at line <n>: <line>` |
| `JavaLoader.LoadSucceedsWhenAllRequiredBound` | java/src/main/java/com/camunda/academy/TestConnection.java:129-140 | a well-formed file loads exactly when every required name is bound; otherwise the `IOException` names the first unbound one |
| `PyConnection.ValidateResponse` | python/testConnection.py:184-193 | valid exactly when the status is 200 and the body contains both `"name"` and `"email"` |
| `PyConnection.ValidateResponseCases` | python/test_connection_unit_tests.py:81-108 | the three cases of the unit test: members reply valid, `{"id": "123"}` invalid, 404 invalid |
| `PyConnection.BothKeysValidate` | python/testConnection.py:189-190 | any 200 reply with `"name"` somewhere before `"email"` is valid |
| `PyConnection.GetAccessToken` | python/testConnection.py:107-151 | a returned token is non-empty and comes from a response; `PyConnection.TokenIssuedExactly` says exactly when one is returned |
| `PyConnection.TestApiConnection` | python/testConnection.py:154-181 | status and body are returned exactly when the GET answered; otherwise the error raised is a plain `Exception` or the original one |
| `PyConnection.TokenIssuedExactly` | python/testConnection.py:119-134 | a token is returned exactly when the POST answered with a non-failing status and a JSON body with a non-empty `access_token`; the token is that value |
| `PyConnection.MissingTokenIsAuthFailure` | python/testConnection.py:131-132 | a reply without a (non-empty) token raises `ValueError("Access token not found in response")`, which `main` reports as an authentication failure (exit 3) |
| `PyConnection.WrapTokenErrorAsWritten` | python/testConnection.py:136-151 | the `except` block as written raises a plain `Exception`, re-raises the exception unchanged, or fails with the `UnboundLocalError` about `response`; `PyConnection.AsWrittenWrapperRaises` says which |
| `PyConnection.AsWrittenWrapperRaises` | python/testConnection.py:136-151 | as written, a `requests` error raised by the POST itself whose text has `HTTP` and none of `SSL`, `Connection`, `Timeout` becomes the `UnboundLocalError`; every other `requests` or JSON error becomes a plain `Exception`; any other exception passes unchanged |
| `PyConnection.WrapTokenError` | python/testConnection.py:136-151 | the corrected block raises a plain `Exception` or re-raises the exception unchanged |
| `PyConnection.WrapApiError` | python/testConnection.py:170-181 | the block of `test_api_connection` raises a plain `Exception` or re-raises the exception unchanged |
| `PyConnection.WrappersRaisePlainExceptions` | python/testConnection.py:136-181 | with the corrected token wrapper, both wrappers turn exceptions from `requests` (and, for the token, JSON decode errors) into plain `Exception`s; every other exception passes through unchanged |
| `PyConnection.WrapTokenVersionsAgreeWithResponse` | python/testConnection.py:144-145 | when a response exists, the corrected wrapper and the one as written agree |
| `PyConnection.SslWrappedExitsOne` | python/testConnection.py:138-139 | a `requests` error mentioning `SSL`, from either call, ends with exit 1 |
| `PyConnection.ConnectionWrappedExitsOneOrTwo` | python/testConnection.py:140-141 | a `requests` error mentioning `Connection` but not `SSL` ends with exit 1 or 2 |
| `PyConnection.TimeoutWrappedExitsOneOrTwo` | python/testConnection.py:142-143 | a `requests` error mentioning `Timeout` but neither `SSL` nor `Connection` ends with exit 1 or 2 |
| `PyConnection.Classify` | python/testConnection.py:215-243 | every exception reaching `main` exits 1–4; a `FileNotFoundError` exits 4 with its own text; any exception outside the two named classes exits with the code `PyConnection.ExceptionCode` gives its lower-cased text |
| `PyConnection.ExceptionFirstFamilyWins` | python/testConnection.py:226-243 | outside the two named classes: exit 1 iff SSL words; 2 iff connection or timeout words and no SSL words; 3 iff authentication words and none before; 4 iff none |
| `PyConnection.ValueErrorCodes` | python/testConnection.py:218-225 | a `ValueError` exits 3 exactly when its text mentions a token word; otherwise it exits 4 with its own text |
| `PyConnection.TokenValueErrorIsAuthFailure` | python/testConnection.py:218-222 | a `ValueError` mentioning `token` is reported as `Authentication failed: <text>` with exit 3 |
| `PyConnection.ExceptionCode` | python/testConnection.py:227-243 | the `except Exception` chain picks one of the codes 1–4 |
| `PyConnection.ExceptionCodeMonotone` | python/testConnection.py:227-243 | adding text around a message never raises the code the keyword chain selects |
| `PyConnection.ClassifyMonotone` | python/testConnection.py:226-243 | for an exception outside the two named classes, adding text around its message never raises `main`'s exit code, e.g. a wrapper's prefix keeps or improves the category |
| `PyConnection.PyMain` | python/testConnection.py:196-243 | a run exits 0–4, and exits 0 only with the success banner and after a token was issued; `PyConnection.PyMainExitCodes` says exactly when |
| `PyConnection.PyMainExitCodes` | python/testConnection.py:196-213 | `main` exits 0 exactly when loading, the token and the call succeed and the reply validates, with the success banner; a reply that fails validation exits 4 |
| `PyConnection.MissingFileExitsFour` | python/testConnection.py:66-71 | without the file in either place, `main` exits 4 with the not-found message |
| `PyConnection.MockedSslFailure` | python/test_connection_unit_tests.py:172-206 | the mocked `SSLError` becomes `SSL certificate error: …` and exits 1 |
| `PyConnection.MockedConnectionFailure` | python/test_connection_unit_tests.py:209-243 | the mocked proxy `ConnectionError` becomes `Connection error: …` and exits 1 or 2 |
| `PyConnection.MockedTimeout` | python/test_connection_unit_tests.py:246-277 | the mocked read `Timeout` on the API call becomes `Request timeout: …` and exits 1 or 2 |
| `PyConnection.UnboundResponseLosesTheError` | python/testConnection.py:144-145 | a `requests` error whose text contains `HTTP` (and no keyword before it) raised by the POST itself becomes, as written, the `UnboundLocalError` about `response`; the corrected wrapper reports `Request error: <text>` |
| `PyConnection.InvalidUrlShowsUnboundResponse` | python/testConnection.py:144-145 | the `InvalidURL` error of any token URL containing `HTTP` (without `S`, `C` or `Timeout`) hits that branch: as written it hides the error, corrected it is reported |
| `PyConnection.SingleSlashUrlQualifies` | python/testConnection.py:121 | the token URL `HTTP:/login.cloud.camunda.io/oauth/token` meets those conditions |
| `JavaVersion.Pieces` | java/src/main/java/com/camunda/academy/TestConnection.java:66 | the pieces between dots hold no dot and join back with `.` to the version string |
| `JavaVersion.DropTrailingEmpty` | java/src/main/java/com/camunda/academy/TestConnection.java:66 | `split` keeps a prefix of the pieces, drops only empty ones, and ends on a non-empty piece |
| `JavaVersion.SplitOnDot` | java/src/main/java/com/camunda/academy/TestConnection.java:66 | no part of `split("\\.")` contains a dot |
| `JavaVersion.SplitOnDotRecovers` | java/src/main/java/com/camunda/academy/TestConnection.java:66 | the parts of `split("\\.")` have no dot; with no dot in the string the result is the string itself; joined back, the parts give the string minus the trailing dots |
| `JavaVersion.ParseInt` | java/src/main/java/com/camunda/academy/TestConnection.java:71-73 | a parsed number lies in the 32-bit `int` range |
| `JavaVersion.ParseIntReadsBack` | java/src/main/java/com/camunda/academy/TestConnection.java:71-73 | every `int`, rendered in decimal, parses back to itself |
| `JavaVersion.ParseIntRefusesNonDigits` | java/src/main/java/com/camunda/academy/TestConnection.java:85-87 | a non-digit after the optional sign makes `parseInt` fail (`NumberFormatException`) |
| `JavaVersion.MajorPiece` | java/src/main/java/com/camunda/academy/TestConnection.java:70-74 | the major part exists exactly when there are two parts or one that is not `1`; it is the second part of a legacy `1.…` version and the first part otherwise |
| `JavaVersion.CheckJavaVersion` | java/src/main/java/com/camunda/academy/TestConnection.java:64-88 | a too-old verdict carries a major number under 17, a passing one a number from 17 up to the largest `int` |
| `JavaVersion.ModernVersionRule` | java/src/main/java/com/camunda/academy/TestConnection.java:70-81 | a version `N` or `N.…` with `N ≠ 1` is judged by `N` against 17 |
| `JavaVersion.LegacyVersionRule` | java/src/main/java/com/camunda/academy/TestConnection.java:70-71 | a version `1.M` or `1.M.…` is judged by `M` |
| `JavaVersion.BareOneCrashes` | java/src/main/java/com/camunda/academy/TestConnection.java:70-71 | the version `1` indexes a missing second part: `ArrayIndexOutOfBoundsException` "Index 1 out of bounds for length 1" |
| `JavaVersion.Java8IsTooOld` | java/src/main/java/com/camunda/academy/TestConnection.java:76-81 | `1.8.0_292` is too old, with major 8 |
| `JavaVersion.Java11IsTooOld` | java/src/main/java/com/camunda/academy/TestConnection.java:76-81 | `11.0.21` is too old, with major 11 |
| `JavaVersion.Java17Passes` | java/src/main/java/com/camunda/academy/TestConnection.java:76-83 | `17.0.2` passes, with major 17 |
| `JavaVersion.Java21Passes` | java/src/main/java/com/camunda/academy/TestConnection.java:76-83 | `21` passes, with major 21 |
| `JavaConnection.HandleException` | java/src/main/java/com/camunda/academy/TestConnection.java:179-205 | the exit code is the one the lower-cased message (empty when `null`) and class name select, always 1–4 |
| `JavaConnection.FirstFamilyWins` | java/src/main/java/com/camunda/academy/TestConnection.java:183-204 | exit 1 iff SSL words in message or class; 2 iff connection words and no SSL words; 3 iff authentication words in the message and none before; 4 iff none |
| `JavaConnection.BannerQuotesMessage` | java/src/main/java/com/camunda/academy/TestConnection.java:184-199 | the failure banner is one of the four family tags (`SSL error: `, `Connection error: `, `Authentication error: `, `Unexpected error: `) followed by the message as given, `null` printed as `null` |
| `JavaConnection.NullMessageActsAsEmpty` | java/src/main/java/com/camunda/academy/TestConnection.java:180-181 | a `null` message is classified as the empty one, so only the class name can select 1, 2 or 4 |
| `JavaConnection.MonotoneInMessage` | java/src/main/java/com/camunda/academy/TestConnection.java:183-195 | adding text around a message never raises its exit code |
| `JavaConnection.ConnectMentioned` | java/src/main/java/com/camunda/academy/TestConnection.java:186-191 | a message mentioning `connect` and no SSL word is a connection error quoting the message |
| `JavaConnection.MaskCredential` | java/src/main/java/com/camunda/academy/TestConnection.java:172-177 | a missing or short (under 8) credential is `***`; otherwise the mask is the first four characters, `****`, the last four |
| `JavaConnection.MaskRevealsOnlyTheEnds` | java/src/main/java/com/camunda/academy/TestConnection.java:176 | two long credentials mask alike exactly when their first four and last four characters agree |
| `JavaConnection.ShortCredentialsMaskAlike` | java/src/main/java/com/camunda/academy/TestConnection.java:173-174 | all short credentials mask like a missing one |
| `JavaConnection.TestConnection` | java/src/main/java/com/camunda/academy/TestConnection.java:145-170 | nothing is thrown exactly when the topology request answered with at least one broker |
| `JavaConnection.JavaMain` | java/src/main/java/com/camunda/academy/TestConnection.java:46-62 | a run exits 0–4, and exits 0 only with the success banner and after the file loaded; `JavaConnection.JavaMainExitCodes` says exactly when |
| `JavaConnection.JavaMainExitCodes` | java/src/main/java/com/camunda/academy/TestConnection.java:46-62 | `main` exits 0 exactly when the version passes or cannot be parsed, the file loads, and the topology has brokers, with the success banner |
| `JavaConnection.TooOldExitsFour` | java/src/main/java/com/camunda/academy/TestConnection.java:76-81 | a too-old version exits 4 with the upgrade message before anything else happens |
| `JavaConnection.UnparsedVersionContinues` | java/src/main/java/com/camunda/academy/TestConnection.java:85-87 | an unparsable version behaves exactly like one that passes |
| `JavaConnection.BareOneReachesHandler` | java/src/main/java/com/camunda/academy/TestConnection.java:59-61 | the version `1` escapes the `NumberFormatException` catch and is classified by `handleException` |
| `JavaConnection.NoBrokersIsConnectionError` | java/src/main/java/com/camunda/academy/TestConnection.java:163-164 | the "Connected but no brokers found in topology" exception is a connection error (exit 2) quoting its message |
| `JavaConnection.EmptyTopologyExitsTwo` | java/src/main/java/com/camunda/academy/TestConnection.java:153-165 | with a passing version and a loaded file, an empty topology exits 2 |

## Left out

- **Outside world.** Network calls, file-system lookups, opening and reading the file, and console output are not modelled. The model takes as parameters what those calls returned or raised: where the env file was found; its lines, already split (universal newlines); the `java.version` property. Progress lines, the masked client ID line and the Java `Caused by:` line on standard error are not modelled, because they do not affect the exit code or the banner.
- **Python start-up.** The `sys.path` set-up, the `ImportError` fallback for `requests` and `check_python_version` run before the parts modelled here or depend on the interpreter. They are not part of this model. `PyConnection.PyMain` starts at loading the file.
- **Exception classes.** Class introspection (`'requests' in str(e.__class__)`, `isinstance`) becomes a kind tag on the exception. `requests.exceptions.JSONDecodeError`, which is both a `requests` class and a `json.JSONDecodeError`, is tagged as the `requests` kind.
- **Reading errors.** Errors raised while opening or decoding the file are not modelled. In Python (`IOError`, `UnicodeDecodeError`) they would be wrapped like a format error (python/testConnection.py:89-90). In Java a failure of the `FileReader` or `readLine` is not wrapped: it reaches `handleException` as its own `IOException`.
- **JSON bodies.** A JSON body that is not an object, and a truthy `access_token` that is not a string, are outside the `TokenBody` cases. The first can be given as a body that raised.
- **Regular expressions and lower-casing.**
  - `\w` is modelled as ASCII letters, digits and `_`. This is exact for Java, whose pattern is compiled without flags. Python's `\w` on a `str` pattern also accepts other Unicode word characters.
  - Lower-casing is modelled as ASCII plus KELVIN SIGN, the only non-ASCII characters whose lower case can complete an ASCII keyword.
  - Java's `toLowerCase()` is modelled for a non-Turkish default locale.
- **Character counts.** Dafny characters are code points. Java's `length()` and `substring` count UTF-16 units, so `JavaConnection.MaskCredential` differs from Java for credentials outside the Basic Multilingual Plane.
- **JavaVersion.ParseInt** accepts ASCII digits only. `Integer.parseInt` also accepts other Unicode decimal digits.
- **PyConnection.UnboundResponseMessage** is the text Python 3.11 and later give the `UnboundLocalError`. Earlier versions word it as "local variable 'response' referenced before assignment". With either wording no keyword matches.
- **CompletionException cause.** `testConnection` rethrows a `CompletionException`'s cause with a cast (TestConnection.java:168). A cause that is an `Error` makes the cast throw `ClassCastException`; a missing cause makes `throw` raise `NullPointerException`. Both are `Exception`s that `main` passes to `handleException` (59-61), so `Raised(e)` covers them with that exception as `e`. The wording of their messages is not modelled.
- **JavaConnection.BareOneReachesHandler** proves that the version `1` reaches `handleException`. The exact exit code this gives is not derived. It is known only to lie in 1–4, as for any `IOException` message (`JavaConnection.HandleException`).
- **PyConnection.PyMain** uses the corrected token wrapper (see Findings). `PyConnection.WrapTokenErrorAsWritten` keeps the original.

## Notes on the code

- **HTTP errors during the token request.** `get_access_token` takes its `HTTP` branch only when the exception text contains the upper-case word `HTTP` (python/testConnection.py:144). Any other failing status falls through to `Request error: …`. `PyConnection.WrapTokenError` follows this.
- **Extra names in the file.** A successful load returns every name the file binds, not only the required ones. Required names are only checked for presence (python/testConnection.py:100, TestConnection.java:136-140). The `(.+)` group already makes every value non-empty.
- **Validation.** `validate_response` accepts a reply only when it contains both markers (python/testConnection.py:189). Lacking either one makes the reply invalid.

## Findings

| source | as written | input that shows it | evidently intended | confidence | as-written member | corrected member |
|---|---|---|---|---|---|---|
| python/testConnection.py:144-145 | The `'HTTP' in str(e)` branch of `get_access_token` formats `response.status_code` and `response.text`. When `requests.post` itself raised, `response` was never assigned, so the handler raises `UnboundLocalError` and the original error is lost. | The token URL typed as `HTTP:/login.cloud.camunda.io/oauth/token` makes `requests` raise `InvalidURL("Invalid URL 'HTTP:/login.cloud.camunda.io/oauth/token': No host supplied")`. This text has `HTTP` and none of `SSL`, `Connection` or `Timeout`. | Report the request error (`Request error: <text>`) when there is no response to describe. | not executed | `PyConnection.InvalidUrlShowsUnboundResponse` | `PyConnection.WrapTokenError` |
