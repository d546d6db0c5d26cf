/**
 * The decisions of the Java connection test: how `handleException` turns any exception into an
 * exit code and a banner line, how `maskCredential` hides the client id, and how `main` chains
 * the version check, the loader and the topology request.
 *
 * The topology request is an input: a `TopologyCall` says how many brokers the cluster
 * reported, or which exception building the client or joining the request raised.
 */
module JavaConnection {
  import opened Wrappers
  import opened Text
  import opened ExitCodes
  import opened JavaErrors
  import opened JavaLoader
  import opened JavaVersion

  // ----- handleException -----

  /** `e.getMessage().toLowerCase()`, or the empty text for a null message. */
  function LoweredMessage(e: JavaError): string
  {
    match e.message
    case Some(m) => Lower(m)
    case None => ""
  }

  predicate SslFamily(msg: string, cls: string)
  {
    Contains(msg, "ssl") || Contains(msg, "certificate") || Contains(cls, "ssl")
  }

  predicate ConnectionFamily(msg: string, cls: string)
  {
    || Contains(msg, "connection") || Contains(msg, "connect") || Contains(msg, "network")
    || Contains(msg, "timeout") || Contains(msg, "timed out")
    || Contains(cls, "connection") || Contains(cls, "timeout")
  }

  predicate AuthFamily(msg: string)
  {
    || Contains(msg, "401") || Contains(msg, "403") || Contains(msg, "unauthorized")
    || Contains(msg, "forbidden") || Contains(msg, "authentication") || Contains(msg, "token")
    || Contains(msg, "credential")
  }

  /** The exit code the lower-cased message and class name select. */
  function ExceptionCode(msg: string, cls: string): (code: int)
    ensures 1 <= code <= 4
  {
    if SslFamily(msg, cls) then SslError
    else if ConnectionFamily(msg, cls) then ConnectionError
    else if AuthFamily(msg) then AuthError
    else OtherError
  }

  /** `handleException`: the exit code and the banner line naming the family and the raw message. */
  function HandleException(e: JavaError): (o: Outcome)
    ensures o.code == ExceptionCode(LoweredMessage(e), Lower(e.className))
    ensures 1 <= o.code <= 4
  {
    var msg := LoweredMessage(e);
    var cls := Lower(e.className);
    if SslFamily(msg, cls) then Outcome(SslError, FailureBanner("SSL error: " + MessageText(e)))
    else if ConnectionFamily(msg, cls) then Outcome(ConnectionError, FailureBanner("Connection error: " + MessageText(e)))
    else if AuthFamily(msg) then Outcome(AuthError, FailureBanner("Authentication error: " + MessageText(e)))
    else Outcome(OtherError, FailureBanner("Unexpected error: " + MessageText(e)))
  }

  /**
   * The first family the exception mentions decides, in the order SSL, connection,
   * authentication; the class name counts for the first two only.
   */
  lemma FirstFamilyWins(e: JavaError)
    ensures var msg := LoweredMessage(e); var cls := Lower(e.className); var c := HandleException(e).code;
      && (c == SslError <==> SslFamily(msg, cls))
      && (c == ConnectionError <==> !SslFamily(msg, cls) && ConnectionFamily(msg, cls))
      && (c == AuthError <==> !SslFamily(msg, cls) && !ConnectionFamily(msg, cls) && AuthFamily(msg))
      && (c == OtherError <==> !SslFamily(msg, cls) && !ConnectionFamily(msg, cls) && !AuthFamily(msg))
  {
  }

  /** The four banner prefixes of `handleException`, one per family. */
  const BannerTags: seq<string> := ["SSL error: ", "Connection error: ", "Authentication error: ", "Unexpected error: "]

  /** The banner always quotes the raw message, printing a null one as `null`. */
  lemma BannerQuotesMessage(e: JavaError)
    ensures exists tag :: tag in BannerTags && HandleException(e).banner == FailureBanner(tag + MessageText(e))
  {
    var msg := LoweredMessage(e);
    var cls := Lower(e.className);
    var k := if SslFamily(msg, cls) then 0 else if ConnectionFamily(msg, cls) then 1 else if AuthFamily(msg) then 2 else 3;
    assert HandleException(e).banner == FailureBanner(BannerTags[k] + MessageText(e));
  }

  /** A null message is classified as an empty one: only the class name can still select a family. */
  lemma NullMessageActsAsEmpty(className: string)
    ensures HandleException(JavaError(className, None)).code == HandleException(JavaError(className, Some(""))).code
    ensures HandleException(JavaError(className, None)).code ==
              (if Contains(Lower(className), "ssl") then SslError
               else if Contains(Lower(className), "connection") || Contains(Lower(className), "timeout") then ConnectionError
               else OtherError)
  {
    assert Lower("") == "";
  }

  /** More message text can only move an exception to an earlier family: the code never grows. */
  lemma {:induction false} MonotoneInMessage(cls: string, p: string, s: string, q: string)
    ensures ExceptionCode(Lower(p + s + q), cls) <= ExceptionCode(Lower(s), cls)
  {
    var m := Lower(s);
    if SslFamily(m, cls) {
      if Contains(m, "ssl") { ContainsLowerWithin(p, s, q, "ssl"); }
      else if Contains(m, "certificate") { ContainsLowerWithin(p, s, q, "certificate"); }
    } else if ConnectionFamily(m, cls) {
      if Contains(m, "connection") { ContainsLowerWithin(p, s, q, "connection"); }
      else if Contains(m, "connect") { ContainsLowerWithin(p, s, q, "connect"); }
      else if Contains(m, "network") { ContainsLowerWithin(p, s, q, "network"); }
      else if Contains(m, "timeout") { ContainsLowerWithin(p, s, q, "timeout"); }
      else if Contains(m, "timed out") { ContainsLowerWithin(p, s, q, "timed out"); }
    } else if AuthFamily(m) {
      if Contains(m, "401") { ContainsLowerWithin(p, s, q, "401"); }
      else if Contains(m, "403") { ContainsLowerWithin(p, s, q, "403"); }
      else if Contains(m, "unauthorized") { ContainsLowerWithin(p, s, q, "unauthorized"); }
      else if Contains(m, "forbidden") { ContainsLowerWithin(p, s, q, "forbidden"); }
      else if Contains(m, "authentication") { ContainsLowerWithin(p, s, q, "authentication"); }
      else if Contains(m, "token") { ContainsLowerWithin(p, s, q, "token"); }
      else { ContainsLowerWithin(p, s, q, "credential"); }
    }
  }

  // ----- maskCredential -----

  /** `maskCredential`: `***` for a missing or short credential, else its first and last four characters around `****`. */
  function MaskCredential(credential: Option<string>): (masked: string)
    ensures credential.None? || |credential.value| < 8 ==> masked == "***"
    ensures credential.Some? && |credential.value| >= 8 ==>
              var c := credential.value;
              |masked| == 12 && masked[..4] == c[..4] && masked[4..8] == "****" && masked[8..] == c[|c| - 4..]
  {
    match credential
    case None => "***"
    case Some(c) =>
      if |c| < 8 then "***"
      else
        var r := c[..4] + "****" + c[|c| - 4..];
        assert r[..4] == c[..4] && r[4..8] == "****" && r[8..] == c[|c| - 4..];
        r
  }

  /**
   * The mask tells two credentials of eight characters or more apart exactly by their first and
   * last four characters: nothing from the middle shows.
   */
  lemma MaskRevealsOnlyTheEnds(c: string, d: string)
    requires |c| >= 8 && |d| >= 8
    ensures MaskCredential(Some(c)) == MaskCredential(Some(d)) <==> c[..4] == d[..4] && c[|c| - 4..] == d[|d| - 4..]
  {
    var mc, md := MaskCredential(Some(c)), MaskCredential(Some(d));
    if mc == md {
      assert c[..4] == mc[..4] == md[..4] == d[..4];
      assert c[|c| - 4..] == mc[8..] == md[8..] == d[|d| - 4..];
    } else {
      assert mc == c[..4] + "****" + c[|c| - 4..];
      assert md == d[..4] + "****" + d[|d| - 4..];
    }
  }

  /** All credentials shorter than eight characters, and a missing one, mask alike. */
  lemma ShortCredentialsMaskAlike(c: string, d: string)
    requires |c| < 8 && |d| < 8
    ensures MaskCredential(Some(c)) == MaskCredential(Some(d)) == MaskCredential(None)
  {
  }

  // ----- main -----

  /** How the topology request went: the number of brokers the cluster reported, or what was raised. */
  datatype TopologyCall = Topology(brokers: nat) | Raised(err: JavaError)

  const NoBrokersMessage := "Connected but no" + " brokers" + " found in topology"

  /** What `testConnection` throws when the topology lists no broker. */
  const NoBrokersError := JavaError(ExceptionClass, Some(NoBrokersMessage))

  /** `testConnection`: nothing when the cluster reports a broker, else the exception it throws. */
  function TestConnection(call: TopologyCall): (r: Option<JavaError>)
    ensures r.None? <==> call.Topology? && call.brokers > 0
  {
    match call
    case Raised(e) => Some(e)
    case Topology(brokers) => if brokers == 0 then Some(NoBrokersError) else None
  }

  /**
   * One run of `main`: check the version, load `envVarsExtended.txt` (`found` says whether it
   * was located, `lines` is its text), ask for the topology.
   */
  function JavaMain(version: string, found: bool, lines: seq<string>, call: TopologyCall): (o: Outcome)
    ensures 0 <= o.code <= 4
    ensures o.code == Success ==> o.banner == SuccessBanner && LoadResult(found, lines).Ok?
  {
    match CheckJavaVersion(version)
    case TooOld(_) => Outcome(OtherError, FailureBanner(TooOldMessage(version)))
    case Crashed(e) => HandleException(e)
    case _ =>
      match LoadResult(found, lines)
      case Err(e) => HandleException(e)
      case Ok(_) =>
        match TestConnection(call)
        case Some(e) => HandleException(e)
        case None => Outcome(Success, SuccessBanner)
  }

  /**
   * A run exits with one of the five codes; it exits 0, announcing success, exactly when the
   * version is not refused, the file loads and the cluster reports at least one broker.
   */
  lemma JavaMainExitCodes(version: string, found: bool, lines: seq<string>, call: TopologyCall)
    ensures var o := JavaMain(version, found, lines, call);
      && 0 <= o.code <= 4
      && (o.code == Success <==>
            && (CheckJavaVersion(version).Passed? || CheckJavaVersion(version).Unparsed?)
            && LoadResult(found, lines).Ok?
            && call.Topology? && call.brokers > 0)
      && (o.code == Success ==> o.banner == SuccessBanner)
  {
  }

  /** A version below 17 stops the run with exit 4 before anything else happens. */
  lemma TooOldExitsFour(version: string, found: bool, lines: seq<string>, call: TopologyCall)
    requires CheckJavaVersion(version).TooOld?
    ensures JavaMain(version, found, lines, call) == Outcome(OtherError, FailureBanner(TooOldMessage(version)))
  {
  }

  /** A version text that does not parse only prints a warning: the run goes on as if it had passed. */
  lemma UnparsedVersionContinues(version: string, other: string, found: bool, lines: seq<string>, call: TopologyCall)
    requires CheckJavaVersion(version).Unparsed? && CheckJavaVersion(other).Passed?
    ensures JavaMain(version, found, lines, call) == JavaMain(other, found, lines, call)
  {
  }

  /** A legacy version text without a second piece escapes the version check and reaches `handleException`. */
  lemma BareOneReachesHandler(found: bool, lines: seq<string>, call: TopologyCall)
    ensures JavaMain("1", found, lines, call) == HandleException(IndexError(1, 1))
  {
    BareOneCrashes();
  }

  /** A message made of a part without `s` and one without `l`, around one space, holds no `ssl`. */
  lemma NoSslAcrossSpace(a: string, b: string)
    requires 's' !in a && 'l' !in b
    ensures !Contains(a + " " + b, "ssl")
  {
    LacksChar(a, "ssl", 's');
    LacksChar(b, "ssl", 'l');
    assert a + " " + b == a + [' '] + b;
    NotAcross(a, ' ', b, "ssl");
  }

  /** The same, joined by a space to a further part without `s`. */
  lemma NoSslAcrossSpaces(a: string, b: string, c: string)
    requires 's' !in a && 'l' !in b && 's' !in c
    ensures !Contains(a + " " + b + " " + c, "ssl")
  {
    NoSslAcrossSpace(a, b);
    LacksChar(c, "ssl", 's');
    assert a + " " + b + " " + c == (a + " " + b) + [' '] + c;
    NotAcross(a + " " + b, ' ', c, "ssl");
  }

  /** An exception without SSL keywords whose message mentions `connect` is a connection error. */
  lemma ConnectMentioned(e: JavaError)
    requires e.message.Some?
    requires !SslFamily(LoweredMessage(e), Lower(e.className)) && Contains(LoweredMessage(e), "connect")
    ensures HandleException(e) == Outcome(ConnectionError, FailureBanner("Connection error: " + e.message.value))
  {
  }

  lemma LowerOfThree(a: string, b: string, c: string, la: string, lb: string, lc: string)
    requires Lower(a) == la && Lower(b) == lb && Lower(c) == lc
    ensures Lower(a + b + c) == la + lb + lc
  {
    LowerConcat(a, b);
    LowerConcat(a + b, c);
  }

  /** The lower case of the message, cut after `connect` and at its spaces. */
  lemma NoBrokersLowered()
    ensures LoweredMessage(NoBrokersError) == ("connect" + "ed but no") + (" " + "brokers") + (" " + "found in topology")
  {
    SpelledLower();
    assert "connected but no" == "connect" + "ed but no";
    assert " brokers" == " " + "brokers";
    assert " found in topology" == " " + "found in topology";
  }

  lemma SpelledLower()
    ensures LoweredMessage(NoBrokersError) == "connected but no" + " brokers" + " found in topology"
  {
    assert Lower("Connected but no") == "connected but no";
    assert Lower(" brokers") == " brokers";
    assert Lower(" found in topology") == " found in topology";
    LowerOfThree("Connected but no", " brokers", " found in topology", "connected but no", " brokers", " found in topology");
  }

  /** `java.lang.Exception` in lower case has no `s`. */
  lemma ExceptionClassLacksS()
    ensures 's' !in Lower(ExceptionClass)
  {
    assert Lower(ExceptionClass) == "java.lang.exception";
  }

  /** A text of this shape mentions `connect` and neither SSL nor a certificate. */
  lemma ConnectText(a: string, b: string, c: string)
    requires 's' !in a && 'l' !in b && 's' !in c && 'a' !in a && 'a' !in b && 'a' !in c
    ensures var m := ("connect" + a) + (" " + b) + (" " + c);
      !Contains(m, "ssl") && !Contains(m, "certificate") && Contains(m, "connect")
  {
    var m := ("connect" + a) + (" " + b) + (" " + c);
    assert m == "connect" + a + " " + b + " " + c;
    assert 's' !in "connect" + a;
    NoSslAcrossSpaces("connect" + a, b, c);
    assert 'a' !in m;
    LacksChar(m, "certificate", 'a');
    StartsWith("connect", a + " " + b + " " + c);
    assert "connect" + (a + " " + b + " " + c) == m;
  }

  /** A text of this shape that starts with `connect` is a connection error when the class lacks `s`. */
  lemma ConnectShape(e: JavaError, a: string, b: string, c: string)
    requires e.message.Some? && LoweredMessage(e) == ("connect" + a) + (" " + b) + (" " + c)
    requires 's' !in a && 'l' !in b && 's' !in c && 'a' !in a && 'a' !in b && 'a' !in c
    requires 's' !in Lower(e.className)
    ensures HandleException(e) == Outcome(ConnectionError, FailureBanner("Connection error: " + e.message.value))
  {
    ConnectText(a, b, c);
    LacksChar(Lower(e.className), "ssl", 's');
    ConnectMentioned(e);
  }

  /** A cluster without brokers is reported as a connection error (exit 2). */
  lemma NoBrokersIsConnectionError()
    ensures HandleException(NoBrokersError) == Outcome(ConnectionError, FailureBanner("Connection error: " + NoBrokersMessage))
  {
    NoBrokersLowered();
    ExceptionClassLacksS();
    ConnectShape(NoBrokersError, "ed but no", "brokers", "found in topology");
  }

  /** Once the version passes and the file loads, an empty topology exits 2. */
  lemma EmptyTopologyExitsTwo(version: string, found: bool, lines: seq<string>)
    requires CheckJavaVersion(version).Passed? || CheckJavaVersion(version).Unparsed?
    requires LoadResult(found, lines).Ok?
    ensures JavaMain(version, found, lines, Topology(0)) == Outcome(ConnectionError, FailureBanner("Connection error: " + NoBrokersMessage))
  {
    NoBrokersIsConnectionError();
  }
}
