/** Release tags `vMAJOR.MINOR.PATCH`: the filter, the numeric order and the
    choice of the latest release tag (src/index.ts:44-46), and the bumped
    release tag (src/index.ts:60-68). */
module Versions {
  import opened Strings
  import opened Seqs
  import opened Bumps

  datatype Version = Version(major: nat, minor: nat, patch: nat)

  /** Numeric (major, minor, patch) order; for tags semver accepts this is `semver.compare(a, b) < 0`. */
  predicate Less(a: Version, b: Version) {
    a.major < b.major
    || (a.major == b.major && (a.minor < b.minor || (a.minor == b.minor && a.patch < b.patch)))
  }

  /** The pattern `^v\d+\.\d+\.\d+$`. */
  predicate IsReleaseTag(t: string) {
    |t| > 0 && t[0] == 'v' &&
    var parts := Split(t[1..], '.');
    |parts| == 3 && IsDigits(parts[0]) && IsDigits(parts[1]) && IsDigits(parts[2])
  }

  /** The three numeric fields of a release tag: `tag.replace(/^v/, '').split('.')`. */
  function Fields(t: string): (parts: seq<string>)
    requires IsReleaseTag(t)
    ensures |parts| == 3 && IsDigits(parts[0]) && IsDigits(parts[1]) && IsDigits(parts[2])
  {
    Split(t[1..], '.')
  }

  /** `.map(Number)` over the fields of a release tag. */
  function VersionOf(t: string): Version
    requires IsReleaseTag(t)
  {
    var p := Fields(t);
    Version(DigitsValue(p[0]), DigitsValue(p[1]), DigitsValue(p[2]))
  }

  /** `semver.clean` accepts the tag: no field has a leading zero. */
  predicate Cleanable(t: string)
    requires IsReleaseTag(t)
  {
    var p := Fields(t);
    IsCanonicalDigits(p[0]) && IsCanonicalDigits(p[1]) && IsCanonicalDigits(p[2])
  }

  /** The template `v${major}.${minor}.${patch}`. */
  function FormatRelease(v: Version): string {
    "v" + NatToString(v.major) + "." + NatToString(v.minor) + "." + NatToString(v.patch)
  }

  lemma JoinThree(a: string, b: string, c: string, sep: char)
    ensures Join([a, b, c], sep) == a + [sep] + b + [sep] + c
  {
    assert [a, b, c][1..] == [b, c];
    assert [b, c][1..] == [c];
    assert Join([b, c], sep) == b + [sep] + c;
  }

  /** Three digit runs joined as `v<a>.<b>.<c>` make a release tag whose fields are those runs. */
  lemma ReleaseTagFromFields(a: string, b: string, c: string)
    requires IsDigits(a) && IsDigits(b) && IsDigits(c)
    ensures IsReleaseTag("v" + a + "." + b + "." + c)
    ensures Fields("v" + a + "." + b + "." + c) == [a, b, c]
  {
    var t := "v" + a + "." + b + "." + c;
    JoinThree(a, b, c, '.');
    assert t[1..] == a + "." + b + "." + c;
    forall k | 0 <= k < 3 ensures '.' !in [a, b, c][k] {
      var f := [a, b, c][k];
      forall i | 0 <= i < |f| ensures f[i] != '.' {
        assert IsDigit(f[i]);
      }
    }
    JoinSplit([a, b, c], '.');
  }

  /** Every release tag is `v<a>.<b>.<c>` for its three fields. */
  lemma ReleaseTagShape(t: string)
    requires IsReleaseTag(t)
    ensures t == "v" + Fields(t)[0] + "." + Fields(t)[1] + "." + Fields(t)[2]
  {
    var rest := t[1..];
    var p := Split(rest, '.');
    SplitJoin(rest, '.');
    assert p == [p[0], p[1], p[2]];
    JoinThree(p[0], p[1], p[2], '.');
    assert rest == p[0] + "." + p[1] + "." + p[2];
    PrefixV(t, p[0], p[1], p[2]);
  }

  lemma PrefixV(t: string, a: string, b: string, c: string)
    requires |t| > 0 && t[0] == 'v' && t[1..] == a + "." + b + "." + c
    ensures t == "v" + a + "." + b + "." + c
  {
    assert t == [t[0]] + t[1..];
  }

  /** Outside the leading `v`, a release tag holds only digits and dots. */
  lemma ReleaseTagChars(t: string, i: nat)
    requires IsReleaseTag(t) && 1 <= i < |t|
    ensures IsDigit(t[i]) || t[i] == '.'
  {
    ReleaseTagShape(t);
    var p := Fields(t);
    var n0, n1 := 1 + |p[0]|, 2 + |p[0]| + |p[1]|;
    if i < n0 {
      assert t[i] == p[0][i - 1];
    } else if n0 < i < n1 {
      assert t[i] == p[1][i - n0 - 1];
    } else if n1 < i {
      assert t[i] == p[2][i - n1 - 1];
    }
  }

  /** Round trip: the formatted version is a release tag that semver accepts and reads back as the version. */
  lemma FormatReleaseRoundTrip(v: Version)
    ensures IsReleaseTag(FormatRelease(v))
    ensures Cleanable(FormatRelease(v))
    ensures VersionOf(FormatRelease(v)) == v
  {
    NatToStringRoundTrip(v.major);
    NatToStringRoundTrip(v.minor);
    NatToStringRoundTrip(v.patch);
    ReleaseTagFromFields(NatToString(v.major), NatToString(v.minor), NatToString(v.patch));
  }

  /** Round trip: a release tag semver accepts is the formatting of its version. */
  lemma ParseReleaseRoundTrip(t: string)
    requires IsReleaseTag(t) && Cleanable(t)
    ensures FormatRelease(VersionOf(t)) == t
  {
    var p := Fields(t);
    DigitsRoundTrip(p[0]);
    DigitsRoundTrip(p[1]);
    DigitsRoundTrip(p[2]);
    ReleaseTagShape(t);
  }

  /** Two release tags that semver accepts are equal exactly when their versions are. */
  lemma CleanableTagsEqual(s: string, t: string)
    requires IsReleaseTag(s) && Cleanable(s) && IsReleaseTag(t) && Cleanable(t)
    ensures s == t <==> VersionOf(s) == VersionOf(t)
  {
    ParseReleaseRoundTrip(s);
    ParseReleaseRoundTrip(t);
  }

  // ---------------------------------------------------------------------------
  // Latest release tag
  // ---------------------------------------------------------------------------

  /** `tags.filter(tag => /^v\d+\.\d+\.\d+$/.test(tag))`. */
  function ReleaseTags(tags: seq<string>): seq<string> {
    Filter(tags, IsReleaseTag)
  }

  /** The last element after sorting ascending with `semver.compare`: a greatest tag by version. */
  function MaxRelease(ts: seq<string>): (m: string)
    requires |ts| > 0
    requires forall k :: 0 <= k < |ts| ==> IsReleaseTag(ts[k])
    ensures m in ts
    ensures forall k :: 0 <= k < |ts| ==> !Less(VersionOf(m), VersionOf(ts[k]))
  {
    if |ts| == 1 then ts[0]
    else
      var m := MaxRelease(ts[1..]);
      assert forall k :: 1 <= k < |ts| ==> ts[k] == ts[1..][k - 1];
      if Less(VersionOf(m), VersionOf(ts[0])) then ts[0] else m
  }

  /** What lines 44-46 leave in `latestReleaseTag`: a tag, or the exception that
      `semver.compare` raises on a field with a leading zero. */
  datatype LatestRelease = Release(tag: string) | InvalidVersion

  /** The baseline used when no tag has the release shape. */
  const Baseline: string := "v0.0.0"

  /** `sortedTags[sortedTags.length - 1] || 'v0.0.0'`. The comparator reaches every
      tag as soon as there are two to sort, and throws on one semver cannot clean. */
  function LatestReleaseTag(tags: seq<string>): (r: LatestRelease)
    ensures r.Release? ==> IsReleaseTag(r.tag) && (r.tag == Baseline || r.tag in tags)
  {
    var rs := ReleaseTags(tags);
    if |rs| == 0 then
      FormatReleaseRoundTrip(Version(0, 0, 0));
      assert FormatRelease(Version(0, 0, 0)) == Baseline;
      Release(Baseline)
    else if |rs| >= 2 && exists t :: t in rs && !Cleanable(t) then InvalidVersion
    else Release(MaxRelease(rs))
  }

  /** Sorting fails exactly when there are two release tags to compare and one of them has a leading zero. */
  lemma LatestFailsIff(tags: seq<string>)
    ensures LatestReleaseTag(tags).InvalidVersion? <==>
      |ReleaseTags(tags)| >= 2 && exists t :: t in tags && IsReleaseTag(t) && !Cleanable(t)
  {
    var rs := ReleaseTags(tags);
    if exists t :: t in tags && IsReleaseTag(t) && !Cleanable(t) {
      var t :| t in tags && IsReleaseTag(t) && !Cleanable(t);
      assert t in rs;
    }
  }

  /** With no tag of the release shape, the latest release tag is `v0.0.0`. */
  lemma LatestWithoutReleases(tags: seq<string>)
    requires forall t :: t in tags ==> !IsReleaseTag(t)
    ensures LatestReleaseTag(tags) == Release(Baseline)
  {
  }

  /** Otherwise a successful result is one of the release tags, and no release tag is numerically greater. */
  lemma LatestIsGreatest(tags: seq<string>, t: string)
    requires t in tags && IsReleaseTag(t)
    requires LatestReleaseTag(tags).Release?
    ensures LatestReleaseTag(tags).tag in tags
    ensures !Less(VersionOf(LatestReleaseTag(tags).tag), VersionOf(t))
  {
    var rs := ReleaseTags(tags);
    assert t in rs;
    var k :| 0 <= k < |rs| && rs[k] == t;
  }

  /** A tag outside the release shape, such as one with a pre-release suffix, is never the latest release tag. */
  lemma LatestIsNeverPrerelease(tags: seq<string>, t: string)
    requires !IsReleaseTag(t)
    ensures LatestReleaseTag(tags) != Release(t)
  {
  }

  /** When semver accepts every release tag, the latest one is the only release tag
      that no other release tag exceeds. */
  lemma LatestIsTheMaximum(tags: seq<string>, m: string)
    requires forall t :: t in tags && IsReleaseTag(t) ==> Cleanable(t)
    requires m in tags && IsReleaseTag(m)
    requires forall t :: t in tags && IsReleaseTag(t) ==> !Less(VersionOf(m), VersionOf(t))
    ensures LatestReleaseTag(tags) == Release(m)
  {
    var r := LatestReleaseTag(tags);
    LatestFailsIff(tags);
    LatestIsGreatest(tags, m);
    LatestIsGreatest(tags, r.tag);
    var a, b := VersionOf(r.tag), VersionOf(m);
    assert !Less(a, b) && !Less(b, a);
    assert a == b;
    CleanableTagsEqual(r.tag, m);
  }

  // ---------------------------------------------------------------------------
  // Bumped release
  // ---------------------------------------------------------------------------

  /** The release that lines 62-68 format: the bumped field goes up by one and the lower ones restart at zero. */
  function ApplyBump(v: Version, bump: Bump): (w: Version)
    ensures Less(v, w)
  {
    match bump
    case Major => Version(v.major + 1, 0, 0)
    case Minor => Version(v.major, v.minor + 1, 0)
    case Patch => Version(v.major, v.minor, v.patch + 1)
  }

  /** The release branch's next tag, from the latest release tag split into numbers. */
  function NextReleaseTag(latest: string, bump: Bump): string
    requires IsReleaseTag(latest)
  {
    FormatRelease(ApplyBump(VersionOf(latest), bump))
  }

  /** The next release tag has the release shape, is accepted by semver, and is
      greater than the latest release tag by exactly the bump. */
  lemma NextReleaseTagIsBumped(latest: string, bump: Bump)
    requires IsReleaseTag(latest)
    ensures IsReleaseTag(NextReleaseTag(latest, bump)) && Cleanable(NextReleaseTag(latest, bump))
    ensures Less(VersionOf(latest), VersionOf(NextReleaseTag(latest, bump)))
    ensures var v, w := VersionOf(latest), VersionOf(NextReleaseTag(latest, bump));
      match bump
      case Major => w == Version(v.major + 1, 0, 0)
      case Minor => w == Version(v.major, v.minor + 1, 0)
      case Patch => w == Version(v.major, v.minor, v.patch + 1)
  {
    FormatReleaseRoundTrip(ApplyBump(VersionOf(latest), bump));
  }
}
