/**
 * The decision whether a newer release exists, taken by both update commands from the
 * latest release tag and the version the binary was built as. The two commands differ
 * only in the version constant they compare against.
 */
module Update {
  import opened Wrappers
  import opened Strings

  /** The version of the current command line tool. */
  const AppVersion: string := "v1.10.2"
  /** The version constant of the older command tree. */
  const CliVersion: string := "v1.0.0"

  /** A release component in the tag triggers an update when it is not a number or exceeds the current one. */
  predicate ComponentTriggers(tagPart: string, current: int)
  {
    match Atoi(tagPart)
    case None => true
    case Some(v) => v > current
  }

  /**
   * The flag of the update check. With three dot-separated parts in the tag, the flag is
   * raised when the tag's first part does not contain the current first part, then raised
   * again by the second part and by the third part; otherwise it is raised when the tag
   * differs from the current version. The current minor and patch are read with the
   * conversion error ignored.
   */
  function ShouldUpdate(latest: string, current: string): (r: bool)
    requires |Split(latest, ".")| == 3 ==> |Split(current, ".")| >= 3
    ensures |Split(latest, ".")| != 3 ==> (r <==> latest != current)
  {
    var parts := Split(latest, ".");
    if |parts| == 3 then
      var cur := Split(current, ".");
      var secondCurrent := AtoiIgnoringError(cur[1]);
      var thirdCurrent := AtoiIgnoringError(cur[2]);
      var flag0 := false;
      var flag1 := if !Contains(parts[0], cur[0]) then true else flag0;
      var flag2 := if ComponentTriggers(parts[1], secondCurrent) then true else flag1;
      var flag3 := if ComponentTriggers(parts[2], thirdCurrent) then true else flag2;
      flag3
    else latest != current
  }

  /** The reasons for an update with a three-part tag, any one of which suffices. */
  predicate UpdateReason(parts: seq<string>, cur: seq<string>)
    requires |parts| == 3 && |cur| >= 3
  {
    || !Contains(parts[0], cur[0])
    || ComponentTriggers(parts[1], AtoiIgnoringError(cur[1]))
    || ComponentTriggers(parts[2], AtoiIgnoringError(cur[2]))
  }

  /**
   * The flag is never reset once raised: with a three-part tag the decision is exactly
   * the disjunction of the three reasons.
   */
  lemma FlagIsDisjunction(latest: string, current: string)
    requires |Split(latest, ".")| == 3 && |Split(current, ".")| >= 3
    ensures ShouldUpdate(latest, current) <==> UpdateReason(Split(latest, "."), Split(current, "."))
  {
  }

  /** A component that does not convert is enough for an update. */
  lemma NonNumericComponent(latest: string, current: string)
    requires |Split(latest, ".")| == 3 && |Split(current, ".")| >= 3
    requires Atoi(Split(latest, ".")[1]).None? || Atoi(Split(latest, ".")[2]).None?
    ensures ShouldUpdate(latest, current)
  {
  }

  /** A greater minor component or a greater patch component is enough on its own. */
  lemma GreaterComponent(latest: string, current: string)
    requires |Split(latest, ".")| == 3 && |Split(current, ".")| >= 3
    requires var p, c := Split(latest, "."), Split(current, ".");
             (Atoi(p[1]).Some? && Atoi(p[1]).value > AtoiIgnoringError(c[1]))
             || (Atoi(p[2]).Some? && Atoi(p[2]).value > AtoiIgnoringError(c[2]))
    ensures ShouldUpdate(latest, current)
  {
  }

  /** Without any of the three reasons there is no update. */
  lemma NoReasonNoUpdate(latest: string, current: string)
    requires |Split(latest, ".")| == 3 && |Split(current, ".")| >= 3
    requires var p, c := Split(latest, "."), Split(current, ".");
             Contains(p[0], c[0])
             && Atoi(p[1]).Some? && Atoi(p[1]).value <= AtoiIgnoringError(c[1])
             && Atoi(p[2]).Some? && Atoi(p[2]).value <= AtoiIgnoringError(c[2])
    ensures !ShouldUpdate(latest, current)
  {
  }

  /** A three-part version with numeric minor and patch is not an update over itself. */
  lemma {:induction false} SameVersionNoUpdate(v: string)
    requires |Split(v, ".")| == 3
    requires Atoi(Split(v, ".")[1]).Some? && Atoi(Split(v, ".")[2]).Some?
    ensures !ShouldUpdate(v, v)
  {
    ContainsTrivial(Split(v, ".")[0]);
  }

  /** The three parts of "vA.B.C" when A and B hold no '.'. */
  lemma SplitVersion(major: string, minor: string, patch: string)
    requires '.' !in major && '.' !in minor && '.' !in patch
    ensures Split(major + "." + minor + "." + patch, ".") == [major, minor, patch]
  {
    SplitWithoutSep(patch, ".");
    SplitAfterFirst(minor, ".", patch);
    assert major + "." + minor + "." + patch == major + "." + (minor + "." + patch);
    SplitAfterFirst(major, ".", minor + "." + patch);
  }

  lemma OlderTagParts()
    ensures Split("v1.9.5", ".") == ["v1", "9", "5"]
  {
    assert "v1.9.5" == "v1" + "." + "9" + "." + "5";
    SplitVersion("v1", "9", "5");
  }

  lemma NewerMajorTagParts()
    ensures Split("v10.0.0", ".") == ["v10", "0", "0"]
  {
    assert "v10.0.0" == "v10" + "." + "0" + "." + "0";
    SplitVersion("v10", "0", "0");
  }

  lemma AppVersionParts()
    ensures Split(AppVersion, ".") == ["v1", "10", "2"]
  {
    assert AppVersion == "v1" + "." + "10" + "." + "2";
    SplitVersion("v1", "10", "2");
  }

  lemma CliVersionParts()
    ensures Split(CliVersion, ".") == ["v1", "0", "0"]
  {
    assert CliVersion == "v1" + "." + "0" + "." + "0";
    SplitVersion("v1", "0", "0");
  }

  lemma SmallNumbers()
    ensures Atoi("0") == Some(0) && Atoi("2") == Some(2) && Atoi("5") == Some(5)
    ensures Atoi("9") == Some(9) && Atoi("10") == Some(10)
  {
    assert DigitsValue("10") == DigitsValue("1") * 10 + DigitValue('0') by {
      assert "10"[..1] == "1";
    }
  }

  /** A tag equal to either tool's own version is not reported as an update. */
  lemma OwnVersionsNoUpdate()
    ensures Split(AppVersion, ".") == ["v1", "10", "2"] && !ShouldUpdate(AppVersion, AppVersion)
    ensures Split(CliVersion, ".") == ["v1", "0", "0"] && !ShouldUpdate(CliVersion, CliVersion)
  {
    AppVersionParts();
    CliVersionParts();
    SmallNumbers();
    SameVersionNoUpdate(AppVersion);
    SameVersionNoUpdate(CliVersion);
  }

  /** An older release "v1.9.5" is reported as an update over "v1.10.2": its patch 5 exceeds 2. */
  lemma OlderReleaseReported()
    ensures Split(AppVersion, ".") == ["v1", "10", "2"] && ShouldUpdate("v1.9.5", AppVersion)
  {
    var p := Split("v1.9.5", ".");
    OlderTagParts();
    AppVersionParts();
    assert Atoi(p[2]) == Some(5) && Atoi(Split(AppVersion, ".")[2]) == Some(2) by {
      SmallNumbers();
    }
    GreaterComponent("v1.9.5", AppVersion);
  }

  /** A newer major release "v10.0.0" is not reported over "v1.0.0": "v10" contains "v1". */
  lemma NewerMajorMissed()
    ensures Split(CliVersion, ".") == ["v1", "0", "0"] && !ShouldUpdate("v10.0.0", CliVersion)
  {
    var p := Split("v10.0.0", ".");
    NewerMajorTagParts();
    CliVersionParts();
    assert Atoi(p[1]) == Some(0) && Atoi(p[2]) == Some(0) by {
      SmallNumbers();
    }
    assert Contains(p[0], "v1") by {
      assert HasPrefix("v10", "v1");
    }
    NoReasonNoUpdate("v10.0.0", CliVersion);
  }

  /** A release version "v<major>.<minor>.<patch>". */
  datatype Version = Version(major: int, minor: int, patch: int)

  /** The version a three-part "v"-led tag names, if every component converts. */
  function ParseVersion(s: string): (r: Option<Version>)
    ensures r.Some? ==> |Split(s, ".")| == 3
  {
    var parts := Split(s, ".");
    if |parts| != 3 || !HasPrefix(parts[0], "v") then None
    else match (Atoi(parts[0][1..]), Atoi(parts[1]), Atoi(parts[2]))
      case (Some(a), Some(b), Some(c)) => Some(Version(a, b, c))
      case _ => None
  }

  /** `a` precedes `b` in release order: by major, then minor, then patch. */
  predicate Older(a: Version, b: Version)
  {
    a.major < b.major
    || (a.major == b.major && a.minor < b.minor)
    || (a.major == b.major && a.minor == b.minor && a.patch < b.patch)
  }

  /**
   * The decision the check evidently intends: an update exactly when the tag names a later
   * release than the current version; tags that are not versions fall back to inequality.
   */
  function IsNewerRelease(latest: string, current: string): (r: bool)
  {
    match (ParseVersion(latest), ParseVersion(current))
    case (Some(l), Some(c)) => Older(c, l)
    case _ => latest != current
  }

  /** Release order is a strict total order. */
  lemma OlderStrictTotal(a: Version, b: Version, c: Version)
    ensures !Older(a, a)
    ensures Older(a, b) ==> !Older(b, a)
    ensures Older(a, b) && Older(b, c) ==> Older(a, c)
    ensures a != b ==> Older(a, b) || Older(b, a)
  {
  }

  /** Never an update to one's own version, and never in both directions. */
  lemma IsNewerReleaseSound(x: string, y: string)
    ensures !IsNewerRelease(x, x)
    ensures ParseVersion(x).Some? && ParseVersion(y).Some? ==> !(IsNewerRelease(x, y) && IsNewerRelease(y, x))
  {
    if ParseVersion(x).Some? && ParseVersion(y).Some? {
      OlderStrictTotal(ParseVersion(x).value, ParseVersion(y).value, ParseVersion(x).value);
    }
  }

  lemma ParseVersionOf(major: string, minor: string, patch: string, v: Version)
    requires '.' !in major && '.' !in minor && '.' !in patch && HasPrefix(major, "v")
    requires Atoi(major[1..]) == Some(v.major) && Atoi(minor) == Some(v.minor) && Atoi(patch) == Some(v.patch)
    ensures ParseVersion(major + "." + minor + "." + patch) == Some(v)
  {
    SplitVersion(major, minor, patch);
  }

  lemma ParseMajorExample()
    ensures ParseVersion("v10.0.0") == Some(Version(10, 0, 0))
    ensures ParseVersion(CliVersion) == Some(Version(1, 0, 0))
  {
    SmallNumbers();
    assert Atoi("1") == Some(1);
    assert "v10"[1..] == "10" && "v1"[1..] == "1";
    assert "v10.0.0" == "v10" + "." + "0" + "." + "0";
    ParseVersionOf("v10", "0", "0", Version(10, 0, 0));
    assert CliVersion == "v1" + "." + "0" + "." + "0";
    ParseVersionOf("v1", "0", "0", Version(1, 0, 0));
  }

  lemma ParseMinorExample()
    ensures ParseVersion("v1.9.5") == Some(Version(1, 9, 5))
    ensures ParseVersion(AppVersion) == Some(Version(1, 10, 2))
  {
    SmallNumbers();
    assert Atoi("1") == Some(1);
    assert "v1"[1..] == "1";
    assert "v1.9.5" == "v1" + "." + "9" + "." + "5";
    ParseVersionOf("v1", "9", "5", Version(1, 9, 5));
    assert AppVersion == "v1" + "." + "10" + "." + "2";
    ParseVersionOf("v1", "10", "2", Version(1, 10, 2));
  }

  /** The corrected decision reports "v10.0.0" over "v1.0.0" and not "v1.9.5" over "v1.10.2". */
  lemma IsNewerReleaseExamples()
    ensures IsNewerRelease("v10.0.0", CliVersion)
    ensures !IsNewerRelease("v1.9.5", AppVersion)
  {
    ParseMajorExample();
    ParseMinorExample();
  }
}
