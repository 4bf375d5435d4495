/**
 * The version arithmetic of the release script
 * (packages/opendoc/script/release.ts): the semver bump, the classification
 * of the command-line version argument, and the choice between an explicit
 * version and a bump.
 */
module Release {
  import opened Wrappers
  import opened Strings

  // ---------------------------------------------------------------- decimal numerals

  predicate IsDigit(ch: char) { '0' <= ch <= '9' }

  predicate AllDigits(s: string)
  {
    forall k :: 0 <= k < |s| ==> IsDigit(s[k])
  }

  function DigitValue(ch: char): nat
    requires IsDigit(ch)
  {
    ch as int - '0' as int
  }

  function DigitChar(d: nat): (ch: char)
    requires d < 10
    ensures IsDigit(ch) && DigitValue(ch) == d
  {
    ('0' as int + d) as char
  }

  /** A decimal numeral as JavaScript prints a number: digits, with no leading zero. */
  predicate IsNumeral(s: string)
  {
    s != [] && AllDigits(s) && (|s| == 1 || s[0] != '0')
  }

  /** The value of a decimal numeral. */
  function DigitsValue(s: string): nat
    requires AllDigits(s)
  {
    if s == [] then 0 else 10 * DigitsValue(s[..|s| - 1]) + DigitValue(s[|s| - 1])
  }

  /** The decimal numeral of `n`, as a template literal `${n}` prints it. */
  function ShowNat(n: nat): (s: string)
    ensures s != [] && AllDigits(s)
    ensures n > 0 ==> s[0] != '0'
    ensures IsNumeral(s)
  {
    if n < 10 then [DigitChar(n)] else ShowNat(n / 10) + [DigitChar(n % 10)]
  }

  /** The numeral of `n` reads back as `n`. */
  lemma {:induction false} ShowNatValue(n: nat)
    ensures DigitsValue(ShowNat(n)) == n
  {
    if n >= 10 {
      var s := ShowNat(n);
      assert s[..|s| - 1] == ShowNat(n / 10);
      ShowNatValue(n / 10);
    }
  }

  /**
   * `Number(x) || 0` on one version component: a decimal numeral gives its
   * value, anything else (including the empty string) gives 0.
   */
  function ComponentValue(x: string): nat
  {
    if x != [] && AllDigits(x) then DigitsValue(x) else 0
  }

  // ---------------------------------------------------------------- calculateNewVersion

  /** A `major.minor.patch` triple. */
  datatype Version = Version(major: nat, minor: nat, patch: nat)

  /** Strict semver precedence on the three numbers. */
  predicate Newer(a: Version, b: Version)
  {
    || a.major > b.major
    || (a.major == b.major && a.minor > b.minor)
    || (a.major == b.major && a.minor == b.minor && a.patch > b.patch)
  }

  /** The component at position `k` of a dotted string; a missing one counts as 0. */
  function ComponentAt(pieces: seq<string>, k: nat): nat
  {
    if k < |pieces| then ComponentValue(pieces[k]) else 0
  }

  /** The version a dotted string denotes: its first three components, the rest ignored. */
  function VersionOf(s: string): Version
  {
    var pieces := Split(s, '.');
    Version(ComponentAt(pieces, 0), ComponentAt(pieces, 1), ComponentAt(pieces, 2))
  }

  /** Three decimal numerals without leading zeros, separated by dots. */
  predicate IsCanonicalVersion(s: string)
  {
    var pieces := Split(s, '.');
    |pieces| == 3 && forall k :: 0 <= k < 3 ==> IsNumeral(pieces[k])
  }

  lemma NumeralHasNoDot(s: string)
    requires AllDigits(s)
    ensures '.' !in s
  {
  }

  /** Three dot-free pieces joined by dots split back into those pieces. */
  lemma SplitThree(x: string, y: string, z: string)
    requires '.' !in x && '.' !in y && '.' !in z
    ensures Split(x + "." + y + "." + z, '.') == [x, y, z]
  {
    SplitNoSeparator(z, '.');
    SplitAtFirst(y, '.', z);
    SplitAtFirst(x, '.', y + ['.'] + z);
    DotsAssociate(x, y, z);
  }

  /** A concatenation identity, stated apart so that it is proved without the surrounding facts. */
  lemma DotsAssociate(x: string, y: string, z: string)
    ensures x + "." + y + "." + z == x + ['.'] + (y + ['.'] + z)
  {
  }

  /** The numerals of three numbers joined by dots denote those numbers. */
  lemma ShowVersion(a: nat, b: nat, c: nat)
    ensures var s := ShowNat(a) + "." + ShowNat(b) + "." + ShowNat(c);
            IsCanonicalVersion(s) && VersionOf(s) == Version(a, b, c)
  {
    var x, y, z := ShowNat(a), ShowNat(b), ShowNat(c);
    NumeralHasNoDot(x);
    NumeralHasNoDot(y);
    NumeralHasNoDot(z);
    SplitThree(x, y, z);
    ShowNatValue(a);
    ShowNatValue(b);
    ShowNatValue(c);
  }

  /** `${major}.${minor}.${patch}`. */
  function Show(v: Version): string
  {
    ShowNat(v.major) + "." + ShowNat(v.minor) + "." + ShowNat(v.patch)
  }

  /** The semver bump: `major` and `minor` reset the lower components, anything else bumps the patch. */
  function Bumped(v: Version, bump: string): Version
  {
    if bump == "major" then Version(v.major + 1, 0, 0)
    else if bump == "minor" then Version(v.major, v.minor + 1, 0)
    else Version(v.major, v.minor, v.patch + 1)
  }

  /**
   * The literal `.0` suffixes of the code print the zero components. Stated apart
   * so that the string literals are reasoned about without the surrounding facts.
   */
  lemma ZeroSuffixes(x: string, y: string)
    ensures x + ".0.0" == x + "." + ShowNat(0) + "." + ShowNat(0)
    ensures x + "." + y + ".0" == x + "." + y + "." + ShowNat(0)
  {
    assert ShowNat(0) == "0";
  }

  /**
   * `calculateNewVersion`: the result is a plain `major.minor.patch` that
   * denotes the bumped version, and it is strictly newer than `current`.
   */
  function CalculateNewVersion(current: string, bump: string): (r: string)
    ensures IsCanonicalVersion(r)
    ensures var v := VersionOf(current);
            && (bump == "major" ==> VersionOf(r) == Version(v.major + 1, 0, 0))
            && (bump == "minor" ==> VersionOf(r) == Version(v.major, v.minor + 1, 0))
            && (bump != "major" && bump != "minor" ==> VersionOf(r) == Version(v.major, v.minor, v.patch + 1))
    ensures Newer(VersionOf(r), VersionOf(current))
  {
    var v := Bumped(VersionOf(current), bump);
    ShowVersion(v.major, v.minor, v.patch);
    Show(v)
  }

  // ---------------------------------------------------------------- calculateNewVersion as written

  /** A JavaScript value that a destructured component can hold. */
  datatype JsNumber = Num(n: nat) | Undefined | NaN

  /** Destructuring `[major, minor, patch]` leaves a missing position `undefined`. */
  function JsComponentAt(pieces: seq<string>, k: nat): JsNumber
  {
    if k < |pieces| then Num(ComponentValue(pieces[k])) else Undefined
  }

  /** `x + 1`: `undefined + 1` is `NaN`. */
  function JsIncrement(x: JsNumber): JsNumber
  {
    match x
    case Num(n) => Num(n + 1)
    case _ => NaN
  }

  /** `${x}` in a template literal. */
  function JsShow(x: JsNumber): string
  {
    match x
    case Num(n) => ShowNat(n)
    case Undefined => "undefined"
    case NaN => "NaN"
  }

  /** The template literals of `calculateNewVersion`, on the destructured components. */
  function BumpAsWritten(major: JsNumber, minor: JsNumber, patch: JsNumber, bump: string): string
  {
    if bump == "major" then JsShow(JsIncrement(major)) + ".0.0"
    else if bump == "minor" then JsShow(major) + "." + JsShow(JsIncrement(minor)) + ".0"
    else JsShow(major) + "." + JsShow(minor) + "." + JsShow(JsIncrement(patch))
  }

  /** `calculateNewVersion` as the code is written, with missing components left `undefined`. */
  function CalculateNewVersionAsWritten(current: string, bump: string): string
  {
    var pieces := Split(current, '.');
    BumpAsWritten(JsComponentAt(pieces, 0), JsComponentAt(pieces, 1), JsComponentAt(pieces, 2), bump)
  }

  /** On three numbers the template literals print the bumped version. */
  lemma BumpAsWrittenOnNumbers(a: nat, b: nat, c: nat, bump: string)
    ensures BumpAsWritten(Num(a), Num(b), Num(c), bump) == Show(Bumped(Version(a, b, c), bump))
  {
    ZeroSuffixes(ShowNat(a + 1), "");
    ZeroSuffixes(ShowNat(a), ShowNat(b + 1));
  }

  /** With three components present, every destructured position holds its number. */
  lemma FullVersionComponents(current: string)
    requires Count(current, '.') >= 2
    ensures var pieces := Split(current, '.');
            forall k :: 0 <= k < 3 ==> JsComponentAt(pieces, k) == Num(ComponentAt(pieces, k))
  {
  }

  /** The code as written, on a version whose three components are present. */
  lemma AsWrittenOnFullVersion(current: string, bump: string)
    requires Count(current, '.') >= 2
    ensures CalculateNewVersionAsWritten(current, bump) == Show(Bumped(VersionOf(current), bump))
  {
    var v := VersionOf(current);
    FullVersionComponents(current);
    BumpAsWrittenOnNumbers(v.major, v.minor, v.patch, bump);
  }

  /** On a version with at least three components the code as written computes the intended result. */
  lemma AsWrittenAgreesOnFullVersions(current: string, bump: string)
    requires Count(current, '.') >= 2
    ensures CalculateNewVersionAsWritten(current, bump) == CalculateNewVersion(current, bump)
  {
    AsWrittenOnFullVersion(current, bump);
  }

  /** A one-digit number prints as its digit, and that digit reads back as the number. */
  lemma OneDigit(d: nat)
    requires d < 10
    ensures ShowNat(d) == [DigitChar(d)] && ComponentValue([DigitChar(d)]) == d
  {
    assert DigitsValue([DigitChar(d)]) == 10 * DigitsValue([]) + d;
  }

  lemma SmallNumerals()
    ensures ShowNat(0) == "0" && ShowNat(1) == "1" && ShowNat(2) == "2"
    ensures ComponentValue("1") == 1 && ComponentValue("2") == 2
  {
    OneDigit(0);
    OneDigit(1);
    OneDigit(2);
    assert DigitChar(0) == '0' && DigitChar(1) == '1' && DigitChar(2) == '2';
  }

  /** The empty version string leaves `minor` and `patch` undefined. */
  lemma EmptyVersionAsWritten()
    ensures CalculateNewVersionAsWritten("", "patch") == "0.undefined.NaN"
  {
    assert Split("", '.') == [""];
    SmallNumerals();
  }

  /** A one-component version leaves `minor` undefined. */
  lemma OneComponentAsWritten()
    ensures CalculateNewVersionAsWritten("1", "minor") == "1.NaN.0"
  {
    SplitNoSeparator("1", '.');
    SmallNumerals();
  }

  lemma ShownSmallVersions()
    ensures Show(Version(0, 0, 1)) == "0.0.1"
    ensures Show(Version(1, 1, 0)) == "1.1.0"
    ensures Show(Version(1, 2, 1)) == "1.2.1"
  {
    SmallNumerals();
  }

  lemma BumpOfKnownVersion(current: string, v: Version, bump: string)
    requires VersionOf(current) == v
    ensures CalculateNewVersion(current, bump) == Show(Bumped(v, bump))
  {
  }

  lemma ShortVersions()
    ensures VersionOf("") == Version(0, 0, 0)
    ensures VersionOf("1") == Version(1, 0, 0)
  {
    assert Split("", '.') == [""];
    SplitNoSeparator("1", '.');
    SmallNumerals();
  }

  lemma MissingComponentsCorrected()
    ensures CalculateNewVersion("", "patch") == "0.0.1"
    ensures CalculateNewVersion("1", "minor") == "1.1.0"
  {
    ShortVersions();
    BumpOfKnownVersion("", Version(0, 0, 0), "patch");
    BumpOfKnownVersion("1", Version(1, 0, 0), "minor");
    ShownSmallVersions();
  }

  /** With fewer than three components the code as written prints `undefined` and `NaN`. */
  lemma AsWrittenMissingComponents()
    ensures CalculateNewVersionAsWritten("", "patch") == "0.undefined.NaN"
    ensures CalculateNewVersionAsWritten("1", "minor") == "1.NaN.0"
    ensures CalculateNewVersion("", "patch") == "0.0.1"
    ensures CalculateNewVersion("1", "minor") == "1.1.0"
  {
    EmptyVersionAsWritten();
    OneComponentAsWritten();
    MissingComponentsCorrected();
  }

  lemma PrereleasePieces()
    ensures Split("1.2.3-beta", '.') == ["1", "2", "3-beta"]
  {
    assert "1.2.3-beta" == "1" + "." + "2" + "." + "3-beta";
    SplitThree("1", "2", "3-beta");
  }

  lemma PrereleaseComponent()
    ensures ComponentValue("3-beta") == 0
  {
    assert !IsDigit("3-beta"[1]);
  }

  lemma PrereleaseVersion()
    ensures VersionOf("1.2.3-beta") == Version(1, 2, 0)
  {
    PrereleasePieces();
    PrereleaseComponent();
    SmallNumerals();
  }

  /** A component that is not a plain numeral counts as 0: `1.2.3-beta` bumps to `1.2.1`. */
  lemma PrereleaseComponentCountsAsZero()
    ensures VersionOf("1.2.3-beta") == Version(1, 2, 0)
    ensures CalculateNewVersion("1.2.3-beta", "patch") == "1.2.1"
  {
    PrereleaseVersion();
    BumpOfKnownVersion("1.2.3-beta", Version(1, 2, 0), "patch");
    ShownSmallVersions();
  }

  // ---------------------------------------------------------------- the version argument

  /** The length of the run of decimal digits at the start of `s`. */
  function LeadingDigits(s: string): (n: nat)
    ensures n <= |s|
    ensures n < |s| ==> !IsDigit(s[n])
  {
    if s != [] && IsDigit(s[0]) then 1 + LeadingDigits(s[1..]) else 0
  }

  /** The leading run is all digits. */
  lemma {:induction false} LeadingDigitsAreDigits(s: string)
    ensures AllDigits(s[..LeadingDigits(s)])
  {
    if s != [] && IsDigit(s[0]) {
      var n := LeadingDigits(s);
      LeadingDigitsAreDigits(s[1..]);
      assert s[..n] == [s[0]] + s[1..][..n - 1];
    }
  }

  /** What follows a leading numeral and the dot after it, if `s` starts that way. */
  function AfterNumeralDot(s: string): (r: Option<string>)
    ensures r.Some? ==> |r.value| < |s|
  {
    var a := LeadingDigits(s);
    if 0 < a < |s| && s[a] == '.' then Some(s[a + 1..]) else None
  }

  /** The test `/^\d+\.\d+\.\d+/`: the argument starts with three dot-separated numerals. */
  predicate HasSemverPrefix(s: string)
  {
    match AfterNumeralDot(s)
    case None => false
    case Some(t) =>
      match AfterNumeralDot(t)
      case None => false
      case Some(u) => LeadingDigits(u) > 0
  }

  /** The numeral `x`, a dot, then `t`. */
  function Dotted(x: string, t: string): string
  {
    x + "." + t
  }

  /** `s` is the numerals `x`, `y`, `z` joined by dots, followed by anything. */
  predicate SemverSplit(s: string, x: string, y: string, z: string, rest: string)
  {
    && x != [] && AllDigits(x) && y != [] && AllDigits(y) && z != [] && AllDigits(z)
    && s == Dotted(x, Dotted(y, z + rest))
  }

  lemma {:induction false} LeadingDigitsOfNumeral(x: string, rest: string)
    requires AllDigits(x) && (rest == [] || !IsDigit(rest[0]))
    ensures LeadingDigits(x + rest) == |x|
  {
    if x == [] {
      assert x + rest == rest;
    } else {
      assert (x + rest)[0] == x[0];
      assert (x + rest)[1..] == x[1..] + rest;
      LeadingDigitsOfNumeral(x[1..], rest);
    }
  }

  /** A numeral, a dot and more: the prefix test steps over exactly the numeral and the dot. */
  lemma NumeralThenDot(x: string, t: string)
    requires x != [] && AllDigits(x)
    ensures AfterNumeralDot(Dotted(x, t)) == Some(t)
  {
    LeadingDigitsOfNumeral(x, "." + t);
    assert x + "." + t == x + ("." + t);
  }

  /** A string that passes the one-numeral step is that numeral, a dot and the rest. */
  lemma AfterNumeralDotSplits(s: string)
    requires AfterNumeralDot(s).Some?
    ensures var a := LeadingDigits(s);
            a > 0 && AllDigits(s[..a]) && s == Dotted(s[..a], AfterNumeralDot(s).value)
  {
    LeadingDigitsAreDigits(s);
    var a := LeadingDigits(s);
    assert s == s[..a] + "." + s[a + 1..];
  }

  lemma SemverSplitAccepted(x: string, y: string, z: string, rest: string)
    requires SemverSplit(Dotted(x, Dotted(y, z + rest)), x, y, z, rest)
    ensures HasSemverPrefix(Dotted(x, Dotted(y, z + rest)))
  {
    NumeralThenDot(x, Dotted(y, z + rest));
    NumeralThenDot(y, z + rest);
    assert (z + rest)[0] == z[0];
  }

  /** A string that starts with a numeral is that numeral and the rest. */
  lemma LeadingNumeral(u: string)
    requires LeadingDigits(u) > 0
    ensures var c := LeadingDigits(u);
            u[..c] != [] && AllDigits(u[..c]) && u[..c] + u[c..] == u
  {
    LeadingDigitsAreDigits(u);
  }

  /** A string the prefix test accepts splits into its three numerals and the rest. */
  lemma SemverPrefixSplit(s: string)
    requires HasSemverPrefix(s)
    ensures var t := AfterNumeralDot(s).value;
            var u := AfterNumeralDot(t).value;
            var c := LeadingDigits(u);
            SemverSplit(s, s[..LeadingDigits(s)], t[..LeadingDigits(t)], u[..c], u[c..])
  {
    var t := AfterNumeralDot(s).value;
    var u := AfterNumeralDot(t).value;
    AfterNumeralDotSplits(s);
    AfterNumeralDotSplits(t);
    LeadingNumeral(u);
  }

  lemma SemverPrefixWitness(s: string)
    requires HasSemverPrefix(s)
    ensures exists x, y, z, rest :: SemverSplit(s, x, y, z, rest)
  {
    SemverPrefixSplit(s);
    var t := AfterNumeralDot(s).value;
    var u := AfterNumeralDot(t).value;
    var c := LeadingDigits(u);
    assert SemverSplit(s, s[..LeadingDigits(s)], t[..LeadingDigits(t)], u[..c], u[c..]);
  }

  /** The prefix test accepts exactly the strings that start with `digits.digits.digits`. */
  lemma SemverPrefixIff(s: string)
    ensures HasSemverPrefix(s) <==> exists x, y, z, rest :: SemverSplit(s, x, y, z, rest)
  {
    if HasSemverPrefix(s) {
      SemverPrefixWitness(s);
    }
    if exists x, y, z, rest :: SemverSplit(s, x, y, z, rest) {
      var x, y, z, rest :| SemverSplit(s, x, y, z, rest);
      SemverSplitAccepted(x, y, z, rest);
    }
  }

  /** What `getVersionBump` returns: `{ bump }` or `{ version }`. */
  datatype VersionBump = VersionBump(bump: Option<string>, version: Option<string>)

  /** How a command-line version argument is read. */
  datatype ArgOutcome =
    | Chosen(request: VersionBump)
    | Prompt   // no (or an empty) argument: the interactive selection, which is not modelled
    | Invalid  // "Invalid version argument", then process.exit(1)

  /** The version argument: the first argument that does not start with `--`. */
  function FindVersionArg(args: seq<string>): (r: Option<string>)
    ensures r.None? <==> forall k :: 0 <= k < |args| ==> StartsWith(args[k], "--")
    ensures r.Some? ==> exists k :: 0 <= k < |args| && args[k] == r.value && !StartsWith(r.value, "--")
                                     && forall j :: 0 <= j < k ==> StartsWith(args[j], "--")
  {
    if args == [] then None
    else if !StartsWith(args[0], "--") then Some(args[0])
    else
      var r := FindVersionArg(args[1..]);
      FindVersionArgStep(args, r);
      r
  }

  lemma FindVersionArgStep(args: seq<string>, r: Option<string>)
    requires args != [] && StartsWith(args[0], "--")
    requires r.None? <==> forall k :: 0 <= k < |args[1..]| ==> StartsWith(args[1..][k], "--")
    requires r.Some? ==> exists k :: 0 <= k < |args[1..]| && args[1..][k] == r.value && !StartsWith(r.value, "--")
                                     && forall j :: 0 <= j < k ==> StartsWith(args[1..][j], "--")
    ensures r.None? <==> forall k :: 0 <= k < |args| ==> StartsWith(args[k], "--")
    ensures r.Some? ==> exists k :: 0 <= k < |args| && args[k] == r.value && !StartsWith(r.value, "--")
                                     && forall j :: 0 <= j < k ==> StartsWith(args[j], "--")
  {
    assert forall k :: 1 <= k < |args| ==> args[k] == args[1..][k - 1];
    if r.Some? {
      var k :| 0 <= k < |args[1..]| && args[1..][k] == r.value && !StartsWith(r.value, "--")
               && forall j :: 0 <= j < k ==> StartsWith(args[1..][j], "--");
      assert args[k + 1] == r.value;
    }
  }

  /**
   * The classification in `getVersionBump`: a semver-prefixed argument is the
   * explicit version, verbatim; `major`, `minor` and `patch` are bumps;
   * anything else is invalid. A missing or empty argument leads to the prompt.
   */
  function ClassifyVersionArg(versionArg: Option<string>): (r: ArgOutcome)
    ensures r == Prompt <==> versionArg.None? || versionArg.value == ""
    ensures r.Chosen? && r.request.version.Some? ==>
              r.request == VersionBump(None, Some(versionArg.value)) && HasSemverPrefix(versionArg.value)
    ensures r.Chosen? && r.request.bump.Some? ==>
              r.request == VersionBump(Some(versionArg.value), None) && !HasSemverPrefix(versionArg.value)
              && versionArg.value in {"major", "minor", "patch"}
    ensures r.Chosen? ==> r.request.bump.Some? != r.request.version.Some?
    ensures r == Invalid <==> versionArg.Some? && versionArg.value != "" && !HasSemverPrefix(versionArg.value)
                              && versionArg.value !in {"major", "minor", "patch"}
  {
    match versionArg
    case None => Prompt
    case Some(arg) =>
      if arg == "" then Prompt
      else if HasSemverPrefix(arg) then Chosen(VersionBump(None, Some(arg)))
      else if arg in ["major", "minor", "patch"] then Chosen(VersionBump(Some(arg), None))
      else Invalid
  }

  /** The version argument `digits.digits.digits…` is taken verbatim, whatever follows. */
  lemma ExplicitVersionArgument(x: string, y: string, z: string, rest: string)
    requires x != [] && AllDigits(x) && y != [] && AllDigits(y) && z != [] && AllDigits(z)
    ensures var arg := Dotted(x, Dotted(y, z + rest));
            ClassifyVersionArg(Some(arg)) == Chosen(VersionBump(None, Some(arg)))
  {
    SemverSplitAccepted(x, y, z, rest);
  }

  // ---------------------------------------------------------------- choosing the new version

  /** The outcome of the selection in `main`. */
  datatype Selection =
    | NewVersion(version: string)
    | NoVersion  // "No version specified", then process.exit(1)

  /** A string that JavaScript treats as true in a condition. */
  predicate Truthy(s: Option<string>)
  {
    s.Some? && s.value != ""
  }

  /** `main`: an explicit version wins; otherwise the bump is applied to the current version. */
  function SelectNewVersion(request: VersionBump, currentVersion: string): (r: Selection)
    ensures Truthy(request.version) ==> r == NewVersion(request.version.value)
    ensures !Truthy(request.version) && Truthy(request.bump) ==>
              r == NewVersion(CalculateNewVersion(currentVersion, request.bump.value))
              && IsCanonicalVersion(r.version)
              && Newer(VersionOf(r.version), VersionOf(currentVersion))
    ensures r == NoVersion <==> !Truthy(request.version) && !Truthy(request.bump)
  {
    if Truthy(request.version) then NewVersion(request.version.value)
    else if Truthy(request.bump) then NewVersion(CalculateNewVersion(currentVersion, request.bump.value))
    else NoVersion
  }

  /** An explicit version is used unchanged, whatever the bump and the current version. */
  lemma ExplicitTakesPrecedence(version: string, bump: Option<string>, current1: string, current2: string)
    requires version != ""
    ensures SelectNewVersion(VersionBump(bump, Some(version)), current1) == NewVersion(version)
    ensures SelectNewVersion(VersionBump(bump, Some(version)), current1)
            == SelectNewVersion(VersionBump(None, Some(version)), current2)
  {
  }

  /**
   * From a command-line argument to the new version: "No version specified"
   * never follows an accepted argument; an explicit version is used as given,
   * and a bump keyword bumps the current version.
   */
  lemma ArgumentDecidesVersion(arg: string, current: string)
    requires ClassifyVersionArg(Some(arg)).Chosen?
    ensures var r := SelectNewVersion(ClassifyVersionArg(Some(arg)).request, current);
            && r.NewVersion?
            && (HasSemverPrefix(arg) ==> r.version == arg)
            && (!HasSemverPrefix(arg) ==> r.version == CalculateNewVersion(current, arg))
  {
  }

  /** An explicit version keeps its trailing text. */
  lemma ExplicitVersionKeepsSuffix()
    ensures ClassifyVersionArg(Some("1.2.3-beta")) == Chosen(VersionBump(None, Some("1.2.3-beta")))
  {
    BetaVersionDotted();
    ExplicitVersionArgument("1", "2", "3", "-beta");
  }

  /** The literal `1.2.3-beta` in pieces, stated apart so that it is proved without the surrounding facts. */
  lemma BetaVersionDotted()
    ensures Dotted("1", Dotted("2", "3" + "-beta")) == "1.2.3-beta"
    ensures AllDigits("1") && AllDigits("2") && AllDigits("3")
  {
  }

  /** Neither a `v` prefix nor a keyword in another case is accepted. */
  lemma InvalidVersionArguments()
    ensures ClassifyVersionArg(Some("v1.2.3")) == Invalid
    ensures ClassifyVersionArg(Some("Major")) == Invalid
  {
    assert AfterNumeralDot("v1.2.3") == None;
    assert AfterNumeralDot("Major") == None;
  }
}
