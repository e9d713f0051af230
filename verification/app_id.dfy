/**
 * Application identifiers `<name>[_<version>][_<buildNum>]` (`parseAppId`)
 * and the sortable weight of a version and build number (`genWeight`).
 *
 * The weight is kept scaled by 1000 so that it is an integer: the console's
 * `Σ part_i·1000^i + buildNum/1000` over the reversed dot-parts becomes
 * `Σ part_i·1000^(i+1) + buildNum`. `None` stands for JavaScript's NaN.
 * The weight is a function of the version and build alone, so it is
 * modelled as a derived member rather than a stored field.
 */
module AppId {
  import opened Wrappers
  import opened Strings

  /** The `name` field: a string, or (for two-segment identifiers) the array of remaining segments. */
  datatype Name = NameText(text: string) | NameArray(segments: seq<string>)

  /** The `buildNum` field: the number 0, a reported number, or a digit string kept as a string. */
  datatype BuildNum = BuildInt(n: nat) | BuildText(text: string)

  /** The object `parseAppId` returns. */
  datatype AppInfo = AppInfo(
    name: Name,
    version: string,
    buildNum: BuildNum,
    id: string,
    md5: string)
  {
    /** The `weight` field: `genWeight(version || '0.0.0.0', buildNum)`. */
    function Weight(): Option<int> {
      WeightFor(version, buildNum)
    }
  }

  /** A three-part version `major.minor.patch` read as numbers. */
  datatype Semver = Semver(major: nat, minor: nat, patch: nat)

  const DefaultVersion: string := "0.0.0"

  /** `Number(s)` on the strings the console produces: `""` is 0, digit runs are decimal, everything else is NaN. */
  function NumberOf(s: string): (r: Option<nat>)
    ensures s == "" ==> r == Some(0)
    ensures IsDigits(s) ==> r == Some(DecimalValue(s))
    ensures r.None? <==> s != "" && !IsDigits(s)
  {
    if s == "" then Some(0)
    else if IsDigits(s) then Some(DecimalValue(s))
    else None
  }

  /** `Number(buildNum)`. */
  function BuildValue(b: BuildNum): Option<nat> {
    match b
    case BuildInt(n) => Some(n)
    case BuildText(t) => NumberOf(t)
  }

  /** `String(buildNum)`, as produced by `version + '_' + buildNum`. */
  function BuildString(b: BuildNum): string {
    match b
    case BuildInt(n) => NatToString(n)
    case BuildText(t) => t
  }

  /** No part is NaN under `Number`. */
  predicate AllNumbers(parts: seq<string>) {
    forall i :: 0 <= i < |parts| ==> NumberOf(parts[i]).Some?
  }

  /** Σ Number(p)·1000^(k+1) over the parts `p`, where `k` counts from the last part (which
      `genWeight` reaches first after `_.reverse`), computed by Horner's rule from the front;
      NaN as soon as one part is not a number. */
  function PartsWeight(parts: seq<string>): (w: Option<int>)
    ensures w.Some? <==> AllNumbers(parts)
    decreases |parts|
  {
    if |parts| == 0 then Some(0)
    else
      var init := parts[..|parts| - 1];
      var pw := PartsWeight(init);
      var x := NumberOf(parts[|parts| - 1]);
      assert forall i :: 0 <= i < |init| ==> init[i] == parts[i];
      if pw.Some? && x.Some? then Some(1000 * (pw.value + x.value))
      else None
  }

  /** `genWeight(version, buildNum)`, scaled by 1000: NaN exactly when a dot-part or the build is not a number. */
  function GenWeight(version: string, b: BuildNum): (w: Option<int>)
    ensures w.Some? <==> AllNumbers(Split(version, '.')) && BuildValue(b).Some?
  {
    var parts := Split(version, '.');
    var pw := PartsWeight(parts);
    var n := BuildValue(b);
    if pw.Some? && n.Some? then Some(pw.value + n.value)
    else None
  }

  /** `genWeight(version || '0.0.0.0', buildNum)`, as both callers write it. */
  function WeightFor(version: string, b: BuildNum): (w: Option<int>)
    ensures w.Some? <==> BuildValue(b).Some? && (version == "" || AllNumbers(Split(version, '.')))
  {
    DefaultVersionNumbers();
    GenWeight(if version == "" then "0.0.0.0" else version, b)
  }

  /** Every dot-part of the fallback version `0.0.0.0` is a number. */
  lemma DefaultVersionNumbers()
    ensures AllNumbers(Split("0.0.0.0", '.'))
  {
    SemverShape("0", "0", "0");
    SplitAround("0", '.', "0.0.0");
    SplitNoSeparator("0", '.');
    assert "0" + ['.'] + "0.0.0" == "0.0.0.0";
    assert "0" + "." + "0" + "." + "0" == "0.0.0";
    assert Split("0.0.0.0", '.') == ["0", "0", "0", "0"];
    assert IsDigits("0");
  }

  /** The numbers of a string the semver test accepts. */
  function SemverOf(v: string): Semver
    requires IsSemver(v)
  {
    var p := Split(v, '.');
    Semver(DecimalValue(p[0]), DecimalValue(p[1]), DecimalValue(p[2]))
  }

  /** The scaled weight of a version and build: major·10^9 + minor·10^6 + patch·10^3 + build. */
  function Packed(s: Semver, build: nat): int {
    s.major * 1_000_000_000 + s.minor * 1_000_000 + s.patch * 1000 + build
  }

  /** Lexicographic order on (major, minor, patch, build). */
  predicate VersionBefore(s1: Semver, b1: nat, s2: Semver, b2: nat) {
    || s1.major < s2.major
    || (s1.major == s2.major && s1.minor < s2.minor)
    || (s1.major == s2.major && s1.minor == s2.minor && s1.patch < s2.patch)
    || (s1.major == s2.major && s1.minor == s2.minor && s1.patch == s2.patch && b1 < b2)
  }

  /** On a semver string the weight is the packed (major, minor, patch, build). */
  lemma SemverWeight(v: string, b: BuildNum)
    requires IsSemver(v) && BuildValue(b).Some?
    ensures v != ""
    ensures GenWeight(v, b) == Some(Packed(SemverOf(v), BuildValue(b).value))
    ensures WeightFor(v, b) == GenWeight(v, b)
  {
    var p := Split(v, '.');
    assert p[..2] == [p[0], p[1]] && p[..2][..1] == [p[0]] && p[..2][..1][..0] == [];
    assert PartsWeight(p[..1]) == Some(1000 * DecimalValue(p[0]));
    assert PartsWeight(p[..2]) == Some(1000 * (1000 * DecimalValue(p[0]) + DecimalValue(p[1])));
    SemverParts(v);
  }

  /** Appending one base-1000 digit preserves and refines the order. */
  lemma PackOrder(x1: int, d1: int, x2: int, d2: int)
    requires 0 <= d1 < 1000 && 0 <= d2 < 1000
    ensures x1 * 1000 + d1 < x2 * 1000 + d2 <==> x1 < x2 || (x1 == x2 && d1 < d2)
    ensures x1 * 1000 + d1 == x2 * 1000 + d2 <==> x1 == x2 && d1 == d2
  {
    if x1 < x2 {
      assert x1 * 1000 + d1 < (x1 + 1) * 1000 <= x2 * 1000 + d2;
    } else if x2 < x1 {
      assert x2 * 1000 + d2 < (x2 + 1) * 1000 <= x1 * 1000 + d1;
    }
  }

  /** With minor, patch and build below 1000, packing is an order embedding of (major, minor, patch, build). */
  lemma PackedOrder(s1: Semver, n1: nat, s2: Semver, n2: nat)
    requires s1.minor < 1000 && s1.patch < 1000 && n1 < 1000
    requires s2.minor < 1000 && s2.patch < 1000 && n2 < 1000
    ensures Packed(s1, n1) < Packed(s2, n2) <==> VersionBefore(s1, n1, s2, n2)
    ensures Packed(s1, n1) == Packed(s2, n2) <==> s1 == s2 && n1 == n2
  {
    PackOrder(s1.major, s1.minor, s2.major, s2.minor);
    PackOrder(s1.major * 1000 + s1.minor, s1.patch, s2.major * 1000 + s2.minor, s2.patch);
    PackOrder((s1.major * 1000 + s1.minor) * 1000 + s1.patch, n1, (s2.major * 1000 + s2.minor) * 1000 + s2.patch, n2);
    assert Packed(s1, n1) == ((s1.major * 1000 + s1.minor) * 1000 + s1.patch) * 1000 + n1;
    assert Packed(s2, n2) == ((s2.major * 1000 + s2.minor) * 1000 + s2.patch) * 1000 + n2;
  }

  /** With minor, patch and build below 1000, comparing weights compares versions lexicographically. */
  lemma WeightOrder(v1: string, b1: BuildNum, v2: string, b2: BuildNum)
    requires IsSemver(v1) && IsSemver(v2)
    requires BuildValue(b1).Some? && BuildValue(b2).Some?
    requires SemverOf(v1).minor < 1000 && SemverOf(v1).patch < 1000 && BuildValue(b1).value < 1000
    requires SemverOf(v2).minor < 1000 && SemverOf(v2).patch < 1000 && BuildValue(b2).value < 1000
    ensures GenWeight(v1, b1).Some? && GenWeight(v2, b2).Some?
    ensures GenWeight(v1, b1).value < GenWeight(v2, b2).value <==>
      VersionBefore(SemverOf(v1), BuildValue(b1).value, SemverOf(v2), BuildValue(b2).value)
    ensures GenWeight(v1, b1) == GenWeight(v2, b2) <==>
      SemverOf(v1) == SemverOf(v2) && BuildValue(b1) == BuildValue(b2)
  {
    SemverWeight(v1, b1);
    SemverWeight(v2, b2);
    PackedOrder(SemverOf(v1), BuildValue(b1).value, SemverOf(v2), BuildValue(b2).value);
  }

  /** For one version the weight grows strictly with the build number, with no bound on either. */
  lemma WeightIncreasesWithBuild(v: string, b1: BuildNum, b2: BuildNum)
    requires GenWeight(v, b1).Some? && GenWeight(v, b2).Some?
    requires BuildValue(b1).value < BuildValue(b2).value
    ensures GenWeight(v, b1).value < GenWeight(v, b2).value
  {
  }

  /** Build numbers of 1000 and more reach into the patch digit: build 1000 of x.y.z weighs as much as build 0 of x.y.(z+1). */
  lemma WeightCollidesPastBuild999(v1: string, v2: string)
    requires IsSemver(v1) && IsSemver(v2)
    requires SemverOf(v2) == SemverOf(v1).(patch := SemverOf(v1).patch + 1)
    ensures GenWeight(v1, BuildInt(1000)) == GenWeight(v2, BuildInt(0))
  {
    SemverWeight(v1, BuildInt(1000));
    SemverWeight(v2, BuildInt(0));
  }

  /** The object `parseAppId` builds once it has chosen name, version and build. */
  function Parsed(name: Name, version: string, b: BuildNum, appId: string): AppInfo {
    AppInfo(name, version, b, appId, "")
  }

  /** What an identifier the parser does not recognise yields: itself as the name, version 0.0.0, build 0. */
  function Fallback(appId: string): AppInfo {
    Parsed(NameText(appId), DefaultVersion, BuildInt(0), appId)
  }

  /** `parseAppId(appId)`: split on `_`, then decide by the segments. */
  function ParseAppId(appId: string): (r: AppInfo)
    ensures r.id == appId && r.md5 == ""
  {
    ParseSegments(Split(appId, '_'), appId)
  }

  /** The decisions `parseAppId` takes on the segments `segs` of `appId`. */
  function ParseSegments(segs: seq<string>, appId: string): (r: AppInfo)
    requires |segs| >= 1
    ensures r.id == appId && r.md5 == ""
    ensures r.version == DefaultVersion || IsSemver(r.version)
    ensures r.buildNum == BuildInt(0) || (r.buildNum.BuildText? && IsDigits(r.buildNum.text))
    ensures r.name.NameArray? ==> |segs| == 2 && r.name.segments == segs[..1]
  {
    if |segs| == 1 then Fallback(appId)
    else if |segs| == 2 then
      if !IsSemver(segs[1]) then Fallback(appId)
      else Parsed(NameArray(segs[..1]), segs[1], BuildInt(0), appId)
    else
      var build := segs[|segs| - 1];
      var rest := segs[..|segs| - 1];
      if !IsDigits(build) then
        if IsSemver(build) then Parsed(NameText(Join(rest, '_')), build, BuildInt(0), appId)
        else Fallback(appId)
      else
        var version := rest[|rest| - 1];
        if !IsSemver(version) then Parsed(NameText(Join(rest, '_')), DefaultVersion, BuildText(build), appId)
        else Parsed(NameText(Join(rest[..|rest| - 1], '_')), version, BuildText(build), appId)
  }

  /** The shapes the parser does not recognise. */
  predicate Unrecognised(segs: seq<string>) {
    || |segs| == 1
    || (|segs| == 2 && !IsSemver(segs[1]))
    || (|segs| >= 3 && !IsDigits(segs[|segs| - 1]) && !IsSemver(segs[|segs| - 1]))
  }

  /** Parsing falls back to the defaults exactly on the unrecognised shapes. */
  lemma ParseFallsBackIff(appId: string)
    ensures ParseAppId(appId) == Fallback(appId) <==> Unrecognised(Split(appId, '_'))
  {
    if !Unrecognised(Split(appId, '_')) {
      RecognisedNotFallback(appId);
    }
  }

  /** A recognised shape yields an array name, a digit-string build, or a name shorter than the identifier. */
  lemma RecognisedNotFallback(appId: string)
    requires !Unrecognised(Split(appId, '_'))
    ensures ParseAppId(appId) != Fallback(appId)
  {
    var segs := Split(appId, '_');
    if |segs| >= 3 && !IsDigits(segs[|segs| - 1]) {
      SplitLast(appId, '_');
      SemverTailNotFallback(segs, appId);
    }
  }

  /** `name_x.y.z`: the name is the identifier less its last segment, so it is shorter. */
  lemma SemverTailNotFallback(segs: seq<string>, appId: string)
    requires |segs| >= 3 && !IsDigits(segs[|segs| - 1]) && IsSemver(segs[|segs| - 1])
    requires Join(segs[..|segs| - 1], '_') + ['_'] + segs[|segs| - 1] == appId
    ensures ParseSegments(segs, appId).name != NameText(appId)
  {
    var name := Join(segs[..|segs| - 1], '_');
    assert ParseSegments(segs, appId).name == NameText(name);
    assert |name| < |appId|;
  }

  /** The extracted name, version and build always recombine into the identifier. */
  ghost predicate Reassembles(p: AppInfo, appId: string) {
    match p.name
    case NameArray(segs) =>
      |segs| == 1 && IsSemver(p.version) && segs[0] + "_" + p.version == appId
    case NameText(n) =>
      || (n == appId && p.version == DefaultVersion && p.buildNum == BuildInt(0))
      || (p.buildNum == BuildInt(0) && IsSemver(p.version) && n + "_" + p.version == appId)
      || (p.buildNum.BuildText? && IsSemver(p.version) && n + "_" + p.version + "_" + p.buildNum.text == appId)
      || (p.buildNum.BuildText? && p.version == DefaultVersion && n + "_" + p.buildNum.text == appId)
  }

  lemma ParseReassembles(appId: string)
    ensures Reassembles(ParseAppId(appId), appId)
  {
    var segs := Split(appId, '_');
    if |segs| == 2 {
      SplitLast(appId, '_');
    } else if |segs| >= 3 {
      SplitLast(appId, '_');
      LongIdReassembles(segs, appId);
    }
  }

  /** The case of three or more segments: the last one is a build or a version. */
  lemma LongIdReassembles(segs: seq<string>, appId: string)
    requires |segs| >= 3
    requires Join(segs[..|segs| - 1], '_') + ['_'] + segs[|segs| - 1] == appId
    ensures Reassembles(ParseSegments(segs, appId), appId)
  {
    var p := ParseSegments(segs, appId);
    var build := segs[|segs| - 1];
    var rest := segs[..|segs| - 1];
    assert Join(rest, '_') + "_" + build == appId;
    if IsDigits(build) {
      var version := rest[|rest| - 1];
      if IsSemver(version) {
        FullIdReassembles(rest, version, build, appId);
        assert p == Parsed(NameText(Join(rest[..|rest| - 1], '_')), version, BuildText(build), appId);
      } else {
        assert p == Parsed(NameText(Join(rest, '_')), DefaultVersion, BuildText(build), appId);
      }
    } else if IsSemver(build) {
      assert p == Parsed(NameText(Join(rest, '_')), build, BuildInt(0), appId);
    }
  }

  /** Name, version and build recombine when the version is the last segment before the build. */
  lemma FullIdReassembles(rest: seq<string>, version: string, build: string, appId: string)
    requires |rest| >= 2 && rest[|rest| - 1] == version
    requires Join(rest, '_') + "_" + build == appId
    ensures Join(rest[..|rest| - 1], '_') + "_" + version + "_" + build == appId
  {
    JoinInit(rest, '_');
    Regroup(Join(rest[..|rest| - 1], '_'), version, build, Join(rest, '_'), appId);
  }

  /** `(a_b)_c` is `a_b_c`. */
  lemma Regroup(a: string, b: string, c: string, ab: string, abc: string)
    requires a + ['_'] + b == ab && ab + "_" + c == abc
    ensures a + "_" + b + "_" + c == abc
  {
    assert "_" == ['_'];
  }

  /** Splitting `name_x` on `_` splits the name and keeps `x` whole. */
  lemma SplitWithTail(name: string, x: string)
    requires '_' !in x
    ensures Split(name + "_" + x, '_') == Split(name, '_') + [x]
  {
    SplitAround(name, '_', x);
    SplitNoSeparator(x, '_');
  }

  /** A full identifier `name_version_build` parses back into its parts, for any name. */
  lemma ParseFullId(name: string, v: string, b: string)
    requires IsSemver(v) && IsDigits(b)
    ensures ParseAppId(name + "_" + v + "_" + b)
      == Parsed(NameText(name), v, BuildText(b), name + "_" + v + "_" + b)
  {
    SemverHasNo(v, '_');
    DigitsHaveNo(b, '_');
    SplitWithTail(name, v);
    SplitWithTail(name + "_" + v, b);
    var segs := Split(name + "_" + v + "_" + b, '_');
    assert segs == Split(name, '_') + [v] + [b];
    assert segs[..|segs| - 1][..|segs| - 2] == Split(name, '_');
    JoinSplit(name, '_');
  }

  /** `name_version` parses back into its parts; a name without `_` comes back as a one-element array. */
  lemma ParseVersionOnly(name: string, v: string)
    requires IsSemver(v)
    ensures var p := ParseAppId(name + "_" + v);
      && p.version == v && p.buildNum == BuildInt(0)
      && p.name == (if '_' in name then NameText(name) else NameArray([name]))
  {
    SemverHasNo(v, '_');
    SplitWithTail(name, v);
    var segs := Split(name + "_" + v, '_');
    assert segs[..|segs| - 1] == Split(name, '_');
    JoinSplit(name, '_');
    if '_' in name {
      SplitsInTwo(name, '_');
      SemverParts(v);
      assert v[|Split(v, '.')[0]|] == '.';
    } else {
      SplitNoSeparator(name, '_');
    }
  }

  /** `name_build` keeps the build as a digit string when the name ends in a non-version segment after a `_`. */
  lemma ParseBuildOnly(name: string, b: string)
    requires IsDigits(b) && '_' in name
    requires var segs := Split(name, '_'); !IsSemver(segs[|segs| - 1])
    ensures ParseAppId(name + "_" + b) == Parsed(NameText(name), DefaultVersion, BuildText(b), name + "_" + b)
  {
    var segs := Split(name + "_" + b, '_');
    var pre := Split(name, '_');
    BuildOnlySegments(name, b);
    assert segs[|segs| - 2] == pre[|pre| - 1];
    DigitTail(segs, name + "_" + b);
    JoinSplit(name, '_');
  }

  /** `name_build` splits into the segments of the name followed by the build. */
  lemma BuildOnlySegments(name: string, b: string)
    requires IsDigits(b) && '_' in name
    ensures var segs := Split(name + "_" + b, '_');
      |segs| >= 3 && segs[..|segs| - 1] == Split(name, '_') && segs[|segs| - 1] == b
  {
    DigitsHaveNo(b, '_');
    SplitWithTail(name, b);
    SplitsInTwo(name, '_');
  }

  /** Segments ending in a digit run after a non-version segment: the build stays a string, the version defaults. */
  lemma DigitTail(segs: seq<string>, appId: string)
    requires |segs| >= 3 && IsDigits(segs[|segs| - 1]) && !IsSemver(segs[|segs| - 2])
    ensures ParseSegments(segs, appId)
      == Parsed(NameText(Join(segs[..|segs| - 1], '_')), DefaultVersion, BuildText(segs[|segs| - 1]), appId)
  {
    var rest := segs[..|segs| - 1];
    assert rest[|rest| - 1] == segs[|segs| - 2];
  }

  /** With no `_` in the name, `name_build` is not recognised: a digit run is not a version. */
  lemma ParseShortBuildFallsBack(name: string, b: string)
    requires IsDigits(b) && '_' !in name
    ensures ParseAppId(name + "_" + b) == Fallback(name + "_" + b)
  {
    DigitsHaveNo(b, '_');
    SplitWithTail(name, b);
    SplitNoSeparator(name, '_');
    DigitsHaveNo(b, '.');
    SplitNoSeparator(b, '.');
    assert Split(name + "_" + b, '_') == [name, b];
  }

  /** Every parse yields version 0.0.0 or a semver string, build 0 or a digit string,
      and an array name only for two segments ending in a version. */
  lemma ParseFields(appId: string)
    ensures var p := ParseAppId(appId);
      && (p.version == DefaultVersion || IsSemver(p.version))
      && (p.buildNum == BuildInt(0) || (p.buildNum.BuildText? && IsDigits(p.buildNum.text)))
      && (p.name.NameArray? ==> |Split(appId, '_')| == 2 && p.name.segments == Split(appId, '_')[..1])
  {
  }

  /** The weight of a parsed identifier is the packed (major, minor, patch, build) of what was extracted. */
  lemma ParseWeight(appId: string)
    ensures var p := ParseAppId(appId);
      && BuildValue(p.buildNum).Some?
      && IsSemver(p.version)
      && p.Weight() == Some(Packed(SemverOf(p.version), BuildValue(p.buildNum).value))
  {
    var p := ParseAppId(appId);
    SemverShape("0", "0", "0");
    assert "0" + "." + "0" + "." + "0" == DefaultVersion;
    SemverWeight(p.version, p.buildNum);
  }
}
