/**
 * The Java version rule of `checkJavaVersion`: the `java.version` text is cut at its dots with
 * `String.split("\\.")`, the major number is the second piece of a legacy `1.x` version and the
 * first piece otherwise, `Integer.parseInt` reads it, and anything below 17 is refused.
 */
module JavaVersion {
  import opened Wrappers
  import opened Text
  import opened ExitCodes
  import opened JavaErrors

  // ----- String.split("\\.") -----

  /** The texts between the dots of `s`, every piece kept, empty ones included. */
  function Pieces(s: string): (r: seq<string>)
    ensures |r| >= 1
    ensures forall i :: 0 <= i < |r| ==> '.' !in r[i]
    ensures Join(r, ".") == s
    decreases |s|
  {
    if s == [] then [""]
    else
      var rest := Pieces(s[1..]);
      if s[0] == '.' then
        assert s == "." + s[1..];
        [""] + rest
      else
        var r := [[s[0]] + rest[0]] + rest[1..];
        if |rest| == 1 then
          assert s == [s[0]] + s[1..];
          r
        else
          assert Join(rest, ".") == rest[0] + "." + Join(rest[1..], ".");
          assert r[1..] == rest[1..];
          assert s == [s[0]] + s[1..];
          r
  }

  /** Drops the empty pieces at the end, as `split` does with its limit of zero. */
  function DropTrailingEmpty(parts: seq<string>): (r: seq<string>)
    ensures |r| <= |parts| && r == parts[..|r|]
    ensures forall i :: |r| <= i < |parts| ==> parts[i] == ""
    ensures r == [] || r[|r| - 1] != ""
    decreases |parts|
  {
    if parts != [] && parts[|parts| - 1] == "" then DropTrailingEmpty(parts[..|parts| - 1]) else parts
  }

  /** `s.split("\\.")`: the text itself when it has no dot, otherwise its pieces without the empty ones at the end. */
  function SplitOnDot(s: string): (r: seq<string>)
    ensures forall k :: 0 <= k < |r| ==> '.' !in r[k]
  {
    if '.' !in s then [s] else DropTrailingEmpty(Pieces(s))
  }

  /** `Join` of a sequence extended by one piece. */
  lemma JoinSnoc(parts: seq<string>, p: string)
    requires parts != []
    ensures Join(parts + [p], ".") == Join(parts, ".") + "." + p
    decreases |parts|
  {
    if |parts| == 1 {
      assert parts + [p] == [parts[0], p];
      assert [parts[0], p][1..] == [p];
    } else {
      assert (parts + [p])[1..] == parts[1..] + [p];
      JoinSnoc(parts[1..], p);
    }
  }

  /** Joining the kept pieces with dots gives back `s` up to a run of dots at its end. */
  lemma {:induction false} DroppedAreTrailingDots(parts: seq<string>)
    requires parts != []
    ensures var j := Join(DropTrailingEmpty(parts), ".");
      var s := Join(parts, ".");
      j <= s && forall i :: |j| <= i < |s| ==> s[i] == '.'
    decreases |parts|
  {
    if parts[|parts| - 1] == "" {
      var init := parts[..|parts| - 1];
      assert parts == init + [""];
      if init == [] {
        assert Join(parts, ".") == "";
      } else {
        JoinSnoc(init, "");
        DroppedAreTrailingDots(init);
      }
    }
  }

  /**
   * The pieces of `split` never hold a dot, the last one is not empty when a dot was cut, and
   * joining them with dots gives back `s` up to the dots at its end that `split` drops.
   */
  lemma SplitOnDotRecovers(s: string)
    ensures var r := SplitOnDot(s);
      && (forall i :: 0 <= i < |r| ==> '.' !in r[i])
      && ('.' !in s ==> r == [s])
      && ('.' in s ==> r == [] || r[|r| - 1] != "")
      && var j := Join(r, ".");
         j <= s && forall i :: |j| <= i < |s| ==> s[i] == '.'
  {
    if '.' in s {
      DroppedAreTrailingDots(Pieces(s));
    }
  }

  /** A first piece that is not empty and holds no dot survives `split`. */
  lemma {:induction false} FirstPieceKept(a: string, t: string)
    requires a != [] && '.' !in a
    ensures var r := SplitOnDot(a + "." + t); |r| >= 1 && r[0] == a
    decreases |a|
  {
    var s := a + "." + t;
    assert s[|a|] == '.';
    FirstPiece(a, t);
    var p := Pieces(s);
    var r := DropTrailingEmpty(p);
    assert p[0] == a;
  }

  lemma {:induction false} FirstPiece(a: string, t: string)
    requires '.' !in a
    ensures Pieces(a + "." + t)[0] == a
    decreases |a|
  {
    var s := a + "." + t;
    if a == [] {
      assert s[0] == '.';
    } else {
      assert s[0] == a[0];
      assert s[1..] == a[1..] + "." + t;
      FirstPiece(a[1..], t);
      assert [a[0]] + a[1..] == a;
    }
  }

  // ----- Integer.parseInt -----

  const IntMin := -0x8000_0000
  const IntMax := 0x7FFF_FFFF

  predicate AllDigits(s: string)
  {
    forall i :: 0 <= i < |s| ==> IsDigit(s[i])
  }

  /**
   * `Integer.parseInt(s)`: an optional sign and at least one decimal digit denoting a value
   * within 32 bits; `None` where Java throws `NumberFormatException`.
   */
  function ParseInt(s: string): (r: Option<int>)
    ensures r.Some? ==> IntMin <= r.value <= IntMax
  {
    if s == [] then None
    else
      var digits := if s[0] == '-' || s[0] == '+' then s[1..] else s;
      if digits == [] || !AllDigits(digits) then None
      else
        var v := if s[0] == '-' then 0 - DigitsValue(digits) else DigitsValue(digits) as int;
        if IntMin <= v <= IntMax then Some(v) else None
  }

  /** `parseInt` reads back every 32-bit value from its decimal rendering. */
  lemma ParseIntReadsBack(n: int)
    requires IntMin <= n <= IntMax
    ensures ParseInt(IntToString(n)) == Some(n)
  {
    if n < 0 {
      var d := NatToString(-n);
      assert IntToString(n) == "-" + d;
      assert ("-" + d)[1..] == d;
      assert AllDigits(d) && DigitsValue(d) == -n;
    } else {
      var d := NatToString(n);
      assert IntToString(n) == d;
      assert IsDigit(d[0]);
      assert AllDigits(d) && DigitsValue(d) == n;
    }
  }

  /** A text with a character other than a digit after its optional sign is refused. */
  lemma ParseIntRefusesNonDigits(s: string, i: nat)
    requires 0 < i < |s| || (i == 0 < |s| && s[0] != '-' && s[0] != '+')
    requires !IsDigit(s[i])
    ensures ParseInt(s) == None
  {
    if s[0] == '-' || s[0] == '+' {
      assert s[1..][i - 1] == s[i];
    }
  }

  // ----- checkJavaVersion -----

  const MinimumMajor := 17

  /** What `checkJavaVersion` decides, or the exception it lets escape to `main`. */
  datatype VersionCheck =
    | Passed(major: int)
    | TooOld(major: int)
    | Unparsed
    | Crashed(err: JavaError)

  /** The exception indexing an array of length `length` at `index` raises. */
  function IndexError(index: nat, length: nat): JavaError
  {
    JavaError(IndexOutOfBoundsClass, Some("Index " + NatToString(index) + " out of bounds for length " + NatToString(length)))
  }

  /** The piece that holds the major number: the second of a legacy `1.x` version, the first otherwise. */
  function MajorPiece(parts: seq<string>): (r: Result<string, JavaError>)
    ensures r.Ok? <==> |parts| >= 2 || (|parts| == 1 && parts[0] != "1")
    ensures r.Ok? ==> r.value == parts[if parts[0] == "1" then 1 else 0]
  {
    if |parts| == 0 then Err(IndexError(0, 0))
    else if parts[0] == "1" then
      if |parts| < 2 then Err(IndexError(1, |parts|)) else Ok(parts[1])
    else Ok(parts[0])
  }

  /** The verdict on a major number read from the version text. */
  function Verdict(major: int): VersionCheck
  {
    if major < MinimumMajor then TooOld(major) else Passed(major)
  }

  /** `checkJavaVersion`: the major number judged against 17, or why none was judged. */
  function CheckJavaVersion(version: string): (r: VersionCheck)
    ensures r.TooOld? ==> r.major < MinimumMajor
    ensures r.Passed? ==> MinimumMajor <= r.major <= IntMax
  {
    match MajorPiece(SplitOnDot(version))
    case Err(e) => Crashed(e)
    case Ok(piece) =>
      match ParseInt(piece)
      case None => Unparsed
      case Some(major) => Verdict(major)
  }

  /** The message printed before exiting 4 when the version is too old. */
  function TooOldMessage(version: string): string
  {
    "Java 17 or higher is required. " + "Current version: " + version
    + "\nPlease upgrade Java or contact " + "your training manager."
    + "\nDownload Java from: " + "https://adoptium.net/"
  }

  /** A modern version `N.…` is judged by `N`, whatever follows its first dot. */
  lemma ModernVersionRule(n: nat, t: string)
    requires n != 1 && n <= IntMax
    ensures CheckJavaVersion(NatToString(n) + "." + t) == Verdict(n)
    ensures CheckJavaVersion(NatToString(n)) == Verdict(n)
  {
    NoDotInNumber(n);
    FirstPieceKept(NatToString(n), t);
    ParseIntReadsBack(n);
  }

  /** A legacy version `1.M.…` is judged by `M`. */
  lemma LegacyVersionRule(m: nat, t: string)
    requires m <= IntMax
    ensures CheckJavaVersion("1." + NatToString(m) + "." + t) == Verdict(m)
    ensures CheckJavaVersion("1." + NatToString(m)) == Verdict(m)
  {
    NoDotInNumber(m);
    var a := NatToString(m);
    LegacyPieces(a, t);
    ParseIntReadsBack(m);
  }

  lemma NoDotInNumber(n: nat)
    ensures '.' !in NatToString(n) && NatToString(n) != []
  {
    assert !IsDigit('.');
  }

  lemma LegacyPieces(a: string, t: string)
    requires a != [] && '.' !in a
    ensures var r := SplitOnDot("1." + a + "." + t); |r| >= 2 && r[0] == "1" && r[1] == a
    ensures var r := SplitOnDot("1." + a); |r| >= 2 && r[0] == "1" && r[1] == a
  {
    var s := "1." + a + "." + t;
    assert s == "1" + "." + (a + "." + t);
    assert s[1..] == "." + (a + "." + t);
    assert s[2..] == a + "." + t;
    FirstPiece(a, t);
    assert Pieces(s[2..])[0] == a;
    assert Pieces(s[1..]) == [""] + Pieces(s[2..]);
    assert Pieces(s)[0] == "1";
    assert Pieces(s)[1] == a;
    assert s[1] == '.';
    LegacyTail(s);
    var s2 := "1." + a;
    assert s2 == "1" + "." + a;
    assert s2[1] == '.';
    assert s2[2..] == a;
    assert SplitOnDot(s2) == DropTrailingEmpty(Pieces(s2));
    NoDotPieces(a);
    assert Pieces(s2[1..]) == [""] + Pieces(s2[2..]);
    assert Pieces(s2)[1] == a;
    LegacyTail(s2);
  }

  /** Dropping empty pieces at the end keeps a non-empty second piece. */
  lemma LegacyTail(s: string)
    requires '.' in s && |Pieces(s)| >= 2 && Pieces(s)[1] != []
    ensures var r := SplitOnDot(s); |r| >= 2 && r[0] == Pieces(s)[0] && r[1] == Pieces(s)[1]
  {
    var p := Pieces(s);
    var r := DropTrailingEmpty(p);
  }

  lemma NoDotPieces(a: string)
    requires '.' !in a
    ensures Pieces(a) == [a]
    decreases |a|
  {
    if a != [] {
      assert '.' !in a[1..] by {
        forall i | 0 <= i < |a[1..]| ensures a[1..][i] != '.' { assert a[1..][i] == a[i + 1]; }
      }
      NoDotPieces(a[1..]);
      assert [a[0]] + a[1..] == a;
    }
  }

  /** The bare version `1` has no second piece: indexing it escapes `checkJavaVersion`. */
  lemma BareOneCrashes()
    ensures CheckJavaVersion("1") == Crashed(IndexError(1, 1))
  {
    assert "1"[0] != '.';
  }

  /** The versions Java 8, 11, 17 and 21 report. */
  lemma Java8IsTooOld()
    ensures CheckJavaVersion("1.8.0_292") == TooOld(8)
  {
    assert "1." + NatToString(8) + "." + "0_292" == "1.8.0_292";
    LegacyVersionRule(8, "0_292");
  }

  lemma Java11IsTooOld()
    ensures CheckJavaVersion("11.0.21") == TooOld(11)
  {
    ModernVersionRule(11, "0.21");
    Java11Text();
  }

  lemma Java11Text()
    ensures NatToString(11) + "." + "0.21" == "11.0.21"
  {
    assert NatToString(11) == "11";
  }

  lemma Java17Passes()
    ensures CheckJavaVersion("17.0.2") == Passed(17)
  {
    ModernVersionRule(17, "0.2");
    Java17Text();
  }

  lemma Java17Text()
    ensures NatToString(17) + "." + "0.2" == "17.0.2"
  {
    assert NatToString(17) == "17";
  }

  lemma Java21Passes()
    ensures CheckJavaVersion("21") == Passed(21)
  {
    assert NatToString(21) == "21";
    ModernVersionRule(21, "");
  }
}
