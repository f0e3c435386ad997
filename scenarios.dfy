/** Concrete runs: the cases of src/run.test.ts, the pull-request skip, and
    inputs that show how the code as written behaves at its edges. Each tag
    and message is a parameter fixed by a precondition; the building blocks
    below take the tags and messages apart so that every run lemma only
    combines them. Literals written directly into a lemma's statement let the
    verifier unfold the model's functions on them, which makes these proofs far
    more costly than the parameters do; a message is spelled as a concatenation
    such as `"feat" + "(minor)" + ": ..."` so that its marker is a visible part. */
module Scenarios {
  import opened Strings
  import opened Seqs
  import opened Bumps
  import opened Versions
  import opened JsNumbers
  import opened BranchTags
  import opened Resolver

  // ---------------------------------------------------------------------------
  // Building blocks
  // ---------------------------------------------------------------------------

  /** A tag written out as the formatting of a version is a release tag of that version. */
  lemma ReleaseTagOf(t: string, v: Version)
    requires t == FormatRelease(v)
    ensures IsReleaseTag(t) && Cleanable(t) && VersionOf(t) == v
  {
    FormatReleaseRoundTrip(v);
  }

  /** A tag of a branch, `<base>-<branch>.<counter>`, is never a release tag. */
  lemma BranchTagIsNoRelease(base: string, branch: string, counter: string)
    requires |base| > 0
    ensures !IsReleaseTag(base + BranchMarker(branch) + counter)
  {
    var t := base + BranchMarker(branch) + counter;
    assert t[|base|] == '-';
    if IsReleaseTag(t) {
      ReleaseTagChars(t, |base|);
    }
  }

  /** A message holding `(major)` makes a one-commit range a major bump. */
  lemma MajorMessage(m: string, before: string, after: string)
    requires m == before + "(major)" + after
    ensures ClassifyBump([m]) == Major
  {
    ContainsMiddle(before, "(major)", after);
  }

  /** A message holding `(minor)` and no `j`, hence no `(major)`, makes a one-commit range a minor bump. */
  lemma MinorMessage(m: string, before: string, after: string)
    requires m == before + "(minor)" + after && 'j' !in before && 'j' !in after
    ensures StopsScan(m) && !Contains(m, "(major)")
    ensures ClassifyBump([m]) == Minor
  {
    MissingChar(m, "(major)", 'j');
    ContainsMiddle(before, "(minor)", after);
  }

  /** A message lacking a character both markers have holds neither marker. */
  lemma UnmarkedMessage(m: string, c: char)
    requires c in "(major)" && c in "(minor)" && c !in m
    ensures !StopsScan(m)
    ensures ClassifyBump([m]) == Patch
  {
    MissingChar(m, "(major)", c);
    MissingChar(m, "(minor)", c);
    assert [m][1..] == [];
  }

  /** The current tag among a release tag and two tags of the branch on it is the one
      whose counter sorts last. */
  lemma CurrentOfTwo(r: string, branch: string, d1: string, d2: string, last: string, latest: string)
    requires !Contains(r, BranchMarker(branch))
    requires (last == d1 || last == d2) && LexLe(d1, last) && LexLe(d2, last)
    ensures CurrentBranchTag([r, r + BranchMarker(branch) + d1, r + BranchMarker(branch) + d2], branch, latest)
      == r + BranchMarker(branch) + last
  {
    ContainsMiddle(r, BranchMarker(branch), d1);
    ContainsMiddle(r, BranchMarker(branch), d2);
    LexLeSharedPrefix(r + BranchMarker(branch), d1, last);
    LexLeSharedPrefix(r + BranchMarker(branch), d2, last);
    CurrentBranchTagUnique([r, r + BranchMarker(branch) + d1, r + BranchMarker(branch) + d2], branch, latest,
                           r + BranchMarker(branch) + last);
  }

  /** The current tag among a release tag and one tag of the branch is that tag. */
  lemma CurrentOfOne(r: string, branch: string, base: string, d: string, latest: string)
    requires !Contains(r, BranchMarker(branch))
    ensures CurrentBranchTag([r, base + BranchMarker(branch) + d], branch, latest) == base + BranchMarker(branch) + d
  {
    var c := base + BranchMarker(branch) + d;
    ContainsMiddle(base, BranchMarker(branch), d);
    LexLeRefl(c);
    CurrentBranchTagUnique([r, c], branch, latest, c);
  }

  /** The counter of a tag of the branch that ends in a run of digits is that run's value. */
  lemma CounterOfBranchTag(base: string, branch: string, d: string)
    requires IsDigits(d)
    ensures Counter(base + BranchMarker(branch) + d) == Num(DigitsValue(d))
  {
    forall i | 0 <= i < |d| ensures d[i] != '.' {
      assert IsDigit(d[i]);
    }
    LastPartAfterSep(base, BranchMarker(branch), d, '.');
    ParseIntDigits(d);
  }

  /** After a tag of the branch whose counter is a run of digits, the next tag on the
      latest release counts one further. */
  lemma NextAfterDigits(latest: string, branch: string, base: string, d: string)
    requires |latest| > 0 && latest[0] == 'v' && IsDigits(d)
    ensures NextBranchTag(latest, branch, base + BranchMarker(branch) + d)
      == latest + BranchMarker(branch) + NatToString(DigitsValue(d) + 1)
  {
    var c := base + BranchMarker(branch) + d;
    CounterOfBranchTag(base, branch, d);
    NextBranchTagShape(latest, branch, c);
  }

  /** After a tag of the branch, the next tag on the latest release counts on from
      whatever `parseInt` reads in the tag's last part. */
  lemma NextAfterLastPart(latest: string, branch: string, base: string, d: string)
    requires |latest| > 0 && latest[0] == 'v' && d != "" && '.' !in d
    ensures NextBranchTag(latest, branch, base + BranchMarker(branch) + d)
      == latest + BranchMarker(branch) + NumberToString(Increment(ParseInt(d)))
  {
    LastPartAfterSep(base, BranchMarker(branch), d, '.');
    assert Counter(base + BranchMarker(branch) + d) == ParseInt(d);
    NextBranchTagShape(latest, branch, base + BranchMarker(branch) + d);
  }

  /** A formatted release tag holds no `-`, so it never holds a branch marker. */
  lemma ReleaseHoldsNoMarker(r: string, v: Version, branch: string)
    requires r == FormatRelease(v)
    ensures !Contains(r, BranchMarker(branch))
  {
    ReleaseTagOf(r, v);
    forall i | 0 <= i < |r| ensures r[i] != '-' {
      if i > 0 {
        ReleaseTagChars(r, i);
      }
    }
    MissingChar(r, BranchMarker(branch), '-');
  }

  /** Beside tags of a branch, a release tag is the latest release tag. */
  lemma LatestBesideTwo(r: string, v: Version, branch: string, d1: string, d2: string)
    requires r == FormatRelease(v)
    ensures LatestReleaseTag([r, r + BranchMarker(branch) + d1, r + BranchMarker(branch) + d2]) == Release(r)
  {
    ReleaseTagOf(r, v);
    BranchTagIsNoRelease(r, branch, d1);
    BranchTagIsNoRelease(r, branch, d2);
    LatestIsTheMaximum([r, r + BranchMarker(branch) + d1, r + BranchMarker(branch) + d2], r);
  }

  /** Beside one tag of a branch, on whatever base, a release tag is the latest release tag. */
  lemma LatestBesideOne(r: string, v: Version, base: string, branch: string, d: string)
    requires r == FormatRelease(v) && |base| > 0
    ensures LatestReleaseTag([r, base + BranchMarker(branch) + d]) == Release(r)
  {
    ReleaseTagOf(r, v);
    BranchTagIsNoRelease(base, branch, d);
    LatestIsTheMaximum([r, base + BranchMarker(branch) + d], r);
  }

  /** A run off the release branch over a release tag and two tags of the branch on it
      whose counters are digit runs: the counter that sorts last, plus one, comes next. */
  lemma TwoCountersRun(branch: string, r: string, v: Version, d1: string, d2: string, last: string, next: string,
                        messages: seq<string>)
    requires !StartsWith(branch, PullRequestPrefix) && branch != ReleaseBranchName("")
    requires r == FormatRelease(v) && IsDigits(d1) && IsDigits(d2)
    requires (last == d1 || last == d2) && LexLe(d1, last) && LexLe(d2, last)
    requires next == NatToString(DigitsValue(last) + 1)
    ensures Resolve(branch, "", [r, r + BranchMarker(branch) + d1, r + BranchMarker(branch) + d2], messages)
      == Tagged(BumpFor(branch, messages), r, r + BranchMarker(branch) + last, r + BranchMarker(branch) + next)
  {
    LatestBesideTwo(r, v, branch, d1, d2);
    ReleaseHoldsNoMarker(r, v, branch);
    CurrentOfTwo(r, branch, d1, d2, last, r);
    BranchRun(branch, "", [r, r + BranchMarker(branch) + d1, r + BranchMarker(branch) + d2], messages,
              r, r + BranchMarker(branch) + last);
    NextAfterDigits(r, branch, r, last);
  }

  /** A run off the release branch over a release tag and one tag of the branch on any
      base version: that tag's counter, plus one, comes next on the release. */
  lemma OneCounterRun(branch: string, r: string, v: Version, base: string, d: string, next: string,
                       messages: seq<string>)
    requires !StartsWith(branch, PullRequestPrefix) && branch != ReleaseBranchName("")
    requires r == FormatRelease(v) && |base| > 0 && IsDigits(d)
    requires next == NatToString(DigitsValue(d) + 1)
    ensures Resolve(branch, "", [r, base + BranchMarker(branch) + d], messages)
      == Tagged(BumpFor(branch, messages), r, base + BranchMarker(branch) + d, r + BranchMarker(branch) + next)
  {
    var c := base + BranchMarker(branch) + d;
    LatestBesideOne(r, v, base, branch, d);
    ReleaseHoldsNoMarker(r, v, branch);
    CurrentOfOne(r, branch, base, d, r);
    BranchRun(branch, "", [r, c], messages, r, c);
    NextAfterDigits(r, branch, base, d);
  }

  /** A tag of a branch alone leaves the baseline as the latest release and is the current tag. */
  lemma LoneBranchTag(base: string, branch: string, d: string)
    requires |base| > 0
    ensures LatestReleaseTag([base + BranchMarker(branch) + d]) == Release(Baseline)
    ensures CurrentBranchTag([base + BranchMarker(branch) + d], branch, Baseline) == base + BranchMarker(branch) + d
  {
    BranchTagIsNoRelease(base, branch, d);
    LatestWithoutReleases([base + BranchMarker(branch) + d]);
    ContainsMiddle(base, BranchMarker(branch), d);
    LexLeRefl(base + BranchMarker(branch) + d);
    CurrentBranchTagUnique([base + BranchMarker(branch) + d], branch, Baseline, base + BranchMarker(branch) + d);
  }

  /** A run off the release branch whose only tag is a tag of the branch: the baseline is the
      latest release, and the next tag counts on from that tag's last part. */
  lemma LoneBranchTagRun(branch: string, base: string, d: string, next: string, messages: seq<string>)
    requires !StartsWith(branch, PullRequestPrefix) && branch != ReleaseBranchName("")
    requires |base| > 0 && d != "" && '.' !in d
    requires next == NumberToString(Increment(ParseInt(d)))
    ensures Resolve(branch, "", [base + BranchMarker(branch) + d], messages)
      == Tagged(BumpFor(branch, messages), Baseline, base + BranchMarker(branch) + d, Baseline + BranchMarker(branch) + next)
  {
    LoneBranchTag(base, branch, d);
    BranchRun(branch, "", [base + BranchMarker(branch) + d], messages, Baseline, base + BranchMarker(branch) + d);
    NextAfterLastPart(Baseline, branch, base, d);
  }

  // ---------------------------------------------------------------------------
  // Facts about the literal tags and messages
  // ---------------------------------------------------------------------------

  /** The renderings of the versions the runs below use. */
  lemma FormatsOfOne()
    ensures FormatRelease(Version(1, 0, 0)) == "v1.0.0"
    ensures FormatRelease(Version(1, 1, 0)) == "v1.1.0"
    ensures FormatRelease(Version(1, 2, 0)) == "v1.2.0"
    ensures FormatRelease(Version(1, 3, 0)) == "v1.3.0"
  {
  }

  lemma FormatsOfPatches()
    ensures FormatRelease(Version(1, 0, 1)) == "v1.0.1"
    ensures FormatRelease(Version(1, 0, 2)) == "v1.0.2"
    ensures FormatRelease(Version(1, 2, 1)) == "v1.2.1"
    ensures FormatRelease(Version(1, 2, 2)) == "v1.2.2"
  {
  }

  lemma FormatsOfOthers()
    ensures FormatRelease(Version(1, 9, 0)) == "v1.9.0"
    ensures FormatRelease(Version(1, 10, 0)) == "v1.10.0"
  {
  }

  /** The release tags `v1.0.0`, `v1.1.0` and `v1.2.0` of three test cases. */
  lemma LatestOfThree(t0: string, t1: string, t2: string)
    requires t0 == "v1.0.0" && t1 == "v1.1.0" && t2 == "v1.2.0"
    ensures LatestReleaseTag([t0, t1, t2]) == Release(t2)
    ensures IsReleaseTag(t2) && VersionOf(t2) == Version(1, 2, 0)
  {
    FormatsOfOne();
    ReleaseTagOf(t0, Version(1, 0, 0));
    ReleaseTagOf(t1, Version(1, 1, 0));
    ReleaseTagOf(t2, Version(1, 2, 0));
    LatestIsTheMaximum([t0, t1, t2], t2);
  }

  /** The release tags of the last test case: the latest is `v1.2.2`. */
  lemma LatestOfFive(t0: string, t1: string, t2: string, t3: string, t4: string)
    requires t0 == "v1.0.1" && t1 == "v1.0.2" && t2 == "v1.2.0" && t3 == "v1.2.1" && t4 == "v1.2.2"
    ensures LatestReleaseTag([t0, t1, t2, t3, t4]) == Release(t4)
    ensures IsReleaseTag(t4) && VersionOf(t4) == Version(1, 2, 2)
  {
    FiveReleaseTags(t0, t1, t2, t3, t4);
    LatestOfPatches(t0, t1, t2, t3, t4);
  }

  lemma FiveReleaseTags(t0: string, t1: string, t2: string, t3: string, t4: string)
    requires t0 == "v1.0.1" && t1 == "v1.0.2" && t2 == "v1.2.0" && t3 == "v1.2.1" && t4 == "v1.2.2"
    ensures IsReleaseTag(t0) && Cleanable(t0) && VersionOf(t0) == Version(1, 0, 1)
    ensures IsReleaseTag(t1) && Cleanable(t1) && VersionOf(t1) == Version(1, 0, 2)
    ensures IsReleaseTag(t2) && Cleanable(t2) && VersionOf(t2) == Version(1, 2, 0)
    ensures IsReleaseTag(t3) && Cleanable(t3) && VersionOf(t3) == Version(1, 2, 1)
    ensures IsReleaseTag(t4) && Cleanable(t4) && VersionOf(t4) == Version(1, 2, 2)
  {
    FiveFormatted(t0, t1, t2, t3, t4);
    ReleaseTagOf(t0, Version(1, 0, 1));
    ReleaseTagOf(t1, Version(1, 0, 2));
    ReleaseTagOf(t2, Version(1, 2, 0));
    ReleaseTagOf(t3, Version(1, 2, 1));
    ReleaseTagOf(t4, Version(1, 2, 2));
  }

  lemma FiveFormatted(t0: string, t1: string, t2: string, t3: string, t4: string)
    requires t0 == "v1.0.1" && t1 == "v1.0.2" && t2 == "v1.2.0" && t3 == "v1.2.1" && t4 == "v1.2.2"
    ensures t0 == FormatRelease(Version(1, 0, 1)) && t1 == FormatRelease(Version(1, 0, 2))
    ensures t2 == FormatRelease(Version(1, 2, 0)) && t3 == FormatRelease(Version(1, 2, 1))
    ensures t4 == FormatRelease(Version(1, 2, 2))
  {
    FormatsOfOne();
    FormatsOfPatches();
  }

  /** Among releases 1.0.1, 1.0.2, 1.2.0, 1.2.1 and 1.2.2, the last one is the latest. */
  lemma LatestOfPatches(t0: string, t1: string, t2: string, t3: string, t4: string)
    requires IsReleaseTag(t0) && Cleanable(t0) && VersionOf(t0) == Version(1, 0, 1)
    requires IsReleaseTag(t1) && Cleanable(t1) && VersionOf(t1) == Version(1, 0, 2)
    requires IsReleaseTag(t2) && Cleanable(t2) && VersionOf(t2) == Version(1, 2, 0)
    requires IsReleaseTag(t3) && Cleanable(t3) && VersionOf(t3) == Version(1, 2, 1)
    requires IsReleaseTag(t4) && Cleanable(t4) && VersionOf(t4) == Version(1, 2, 2)
    ensures LatestReleaseTag([t0, t1, t2, t3, t4]) == Release(t4)
  {
    LatestIsTheMaximum([t0, t1, t2, t3, t4], t4);
  }

  /** The three bumps of `v1.2.0`. */
  lemma BumpsOfV120(t: string)
    requires IsReleaseTag(t) && VersionOf(t) == Version(1, 2, 0)
    ensures NextReleaseTag(t, Major) == "v2.0.0"
    ensures NextReleaseTag(t, Minor) == "v1.3.0"
    ensures NextReleaseTag(t, Patch) == "v1.2.1"
  {
    assert FormatRelease(Version(2, 0, 0)) == "v2.0.0";
    assert FormatRelease(Version(1, 3, 0)) == "v1.3.0";
    assert FormatRelease(Version(1, 2, 1)) == "v1.2.1";
  }

  /** A minor bump of `v1.2.2` gives `v1.3.0`. */
  lemma MinorBumpOfV122(t: string)
    requires IsReleaseTag(t) && VersionOf(t) == Version(1, 2, 2)
    ensures NextReleaseTag(t, Minor) == "v1.3.0"
  {
    assert FormatRelease(Version(1, 3, 0)) == "v1.3.0";
  }

  /** The baseline `v0.0.0` bumps to `v1.0.0` (major) and `v0.0.1` (patch). */
  lemma BumpsOfBaseline()
    ensures IsReleaseTag(Baseline)
    ensures NextReleaseTag(Baseline, Major) == "v1.0.0"
    ensures NextReleaseTag(Baseline, Patch) == "v0.0.1"
  {
    ReleaseTagOf(Baseline, Version(0, 0, 0));
    assert FormatRelease(Version(1, 0, 0)) == "v1.0.0";
    assert FormatRelease(Version(0, 0, 1)) == "v0.0.1";
  }

  /** The counters of the branch runs below: how they sort, and what follows each. */
  lemma CountersOneTwo()
    ensures IsDigits("1") && IsDigits("2") && LexLe("1", "2") && LexLe("2", "2")
    ensures NatToString(DigitsValue("2") + 1) == "3"
  {
  }

  lemma CountersNineTen()
    ensures IsDigits("9") && IsDigits("10") && LexLe("10", "9") && LexLe("9", "9")
    ensures NatToString(DigitsValue("9") + 1) == "10"
  {
    assert NatToString(10) == "10";
  }

  lemma CounterFive()
    ensures IsDigits("5") && NatToString(DigitsValue("5") + 1) == "6"
  {
  }

  /** `x` holds no dot and reads as `NaN`; the next counter renders as `NaN`. */
  lemma XIsNoCounter(x: string)
    requires x == "x"
    ensures '.' !in x && x != "" && NumberToString(Increment(ParseInt(x))) == "NaN"
  {
    assert !IsJsWhiteSpace(x[0]);
    ParseIntNaN(x);
  }

  /** A no-break space then `5` holds no dot and reads as 5; the next counter renders as `6`. */
  lemma NoBreakSpaceFive(d: string, w: string, five: string)
    requires w == "\U{00A0}" && five == "5" && d == w + five
    ensures '.' !in d && d != ""
    ensures NumberToString(Increment(ParseInt(d))) == "6"
  {
    ParseIntWhiteSpaceDigits(w, five);
  }

  lemma IsV120(r: string)
    requires r == "v1.2.0"
    ensures r == FormatRelease(Version(1, 2, 0))
  {
  }

  lemma IsV200(r: string)
    requires r == "v2.0.0"
    ensures r == FormatRelease(Version(2, 0, 0))
  {
  }

  /** `canary` is neither a pull-request ref nor the default release branch. */
  lemma CanaryIsABranch(branch: string)
    requires branch == "canary"
    ensures !StartsWith(branch, PullRequestPrefix) && branch != ReleaseBranchName("") && branch != "pull_request"
  {
  }

  lemma CanaryCommitIsPatch(m: string)
    requires m == "feat: Canary commit"
    ensures ClassifyBump([m]) == Patch
  {
    UnmarkedMessage(m, '(');
  }

  /** The messages of the test cases below. */
  lemma NewFeatureIsMinor(m: string)
    requires m == "feat" + "(minor)" + ": Add new feature"
    ensures ClassifyBump([m]) == Minor
  {
    MinorMessage(m, "feat", ": Add new feature");
  }

  lemma BugFixIsPatch(m: string)
    requires m == "fix" + "(patch)" + ": Bug fix"
    ensures ClassifyBump([m]) == Patch
  {
    UnmarkedMessage(m, 'm');
  }

  /** Of three commits only the second holds a marker, `(minor)`, and it decides. */
  lemma MergeIsMinor(m0: string, m1: string, m2: string)
    requires m0 == "feat: Add new feature" && m1 == "feat" + "(minor)" + ": Add another feature"
    ensures ClassifyBump([m0, m1, m2]) == Minor
  {
    PlainFeatureIsUnmarked(m0);
    AnotherFeatureIsMinor(m1);
    FirstStopDecides([m0, m1, m2], 1);
  }

  lemma PlainFeatureIsUnmarked(m: string)
    requires m == "feat: Add new feature"
    ensures !StopsScan(m)
  {
    UnmarkedMessage(m, '(');
  }

  lemma AnotherFeatureIsMinor(m: string)
    requires m == "feat" + "(minor)" + ": Add another feature"
    ensures StopsScan(m) && !Contains(m, "(major)")
  {
    MinorMessage(m, "feat", ": Add another feature");
  }

  // ---------------------------------------------------------------------------
  // The cases of src/run.test.ts
  // ---------------------------------------------------------------------------

  /** src/run.test.ts:41-54: a `(major)` commit on the release branch gives `v2.0.0`. */
  lemma MajorBumpOnRelease(branch: string, t0: string, t1: string, t2: string, m: string)
    requires branch == "release"
    requires t0 == "v1.0.0" && t1 == "v1.1.0" && t2 == "v1.2.0"
    requires m == "feat" + "(major)" + ": Add breaking feature"
    ensures Resolve(branch, "", [t0, t1, t2], [m]) == Tagged(Major, "v1.2.0", "v1.2.0", "v2.0.0")
  {
    LatestOfThree(t0, t1, t2);
    ReleaseRun(branch, "", [t0, t1, t2], [m], t2);
    MajorMessage(m, "feat", ": Add breaking feature");
    BumpsOfV120(t2);
  }

  /** src/run.test.ts:56-69: a `(minor)` commit gives `v1.3.0`. */
  lemma MinorBumpOnRelease(branch: string, t0: string, t1: string, t2: string, m: string)
    requires branch == "release"
    requires t0 == "v1.0.0" && t1 == "v1.1.0" && t2 == "v1.2.0"
    requires m == "feat" + "(minor)" + ": Add new feature"
    ensures Resolve(branch, "", [t0, t1, t2], [m]) == Tagged(Minor, "v1.2.0", "v1.2.0", "v1.3.0")
  {
    LatestOfThree(t0, t1, t2);
    ReleaseRun(branch, "", [t0, t1, t2], [m], t2);
    NewFeatureIsMinor(m);
    BumpsOfV120(t2);
  }

  /** src/run.test.ts:71-84: a `(patch)` commit gives `v1.2.1`. */
  lemma PatchBumpOnRelease(branch: string, t0: string, t1: string, t2: string, m: string)
    requires branch == "release"
    requires t0 == "v1.0.0" && t1 == "v1.1.0" && t2 == "v1.2.0"
    requires m == "fix" + "(patch)" + ": Bug fix"
    ensures Resolve(branch, "", [t0, t1, t2], [m]) == Tagged(Patch, "v1.2.0", "v1.2.0", "v1.2.1")
  {
    LatestOfThree(t0, t1, t2);
    ReleaseRun(branch, "", [t0, t1, t2], [m], t2);
    BugFixIsPatch(m);
    BumpsOfV120(t2);
  }

  /** src/run.test.ts:86-98: after `v1.2.0-canary.1` and `v1.2.0-canary.2` the next canary
      tag is `v1.2.0-canary.3`. */
  lemma CanaryCounter(branch: string, r: string, c1: string, c2: string, m: string)
    requires branch == "canary" && r == "v1.2.0"
    requires c1 == r + BranchMarker(branch) + "1" && c2 == r + BranchMarker(branch) + "2"
    requires m == "feat: Canary commit"
    ensures Resolve(branch, "", [r, c1, c2], [m]) == Tagged(Patch, r, c2, r + BranchMarker(branch) + "3")
  {
    IsV120(r);
    CountersOneTwo();
    CanaryCommitIsPatch(m);
    CanaryIsABranch(branch);
    TwoCountersRun(branch, r, Version(1, 2, 0), "1", "2", "2", "3", [m]);
  }

  /** src/run.test.ts:100-112: with no tags at all the baseline `v0.0.0` is bumped to `v1.0.0`. */
  lemma InitialRelease(branch: string, m: string)
    requires branch == "release"
    requires m == "feat" + "(major)" + ": Initial commit"
    ensures Resolve(branch, "", [], [m]) == Tagged(Major, "v0.0.0", "v0.0.0", "v1.0.0")
  {
    LatestWithoutReleases([]);
    ReleaseRun(branch, "", [], [m], Baseline);
    MajorMessage(m, "feat", ": Initial commit");
    BumpsOfBaseline();
  }

  /** src/run.test.ts:114-129: the `(minor)` in the second of three commits decides, on top of `v1.2.2`. */
  lemma MinorInsideMerge(branch: string, t0: string, t1: string, t2: string, t3: string, t4: string, m0: string, m1: string, m2: string)
    requires branch == "release"
    requires t0 == "v1.0.1" && t1 == "v1.0.2" && t2 == "v1.2.0" && t3 == "v1.2.1" && t4 == "v1.2.2"
    requires m0 == "feat: Add new feature" && m1 == "feat" + "(minor)" + ": Add another feature"
    requires m2 == "feat: Add yet another feature"
    ensures Resolve(branch, "", [t0, t1, t2, t3, t4], [m0, m1, m2]) == Tagged(Minor, "v1.2.2", "v1.2.2", "v1.3.0")
  {
    LatestOfFive(t0, t1, t2, t3, t4);
    ReleaseRun(branch, "", [t0, t1, t2, t3, t4], [m0, m1, m2], t4);
    MergeIsMinor(m0, m1, m2);
    MinorBumpOfV122(t4);
  }

  // ---------------------------------------------------------------------------
  // Further runs
  // ---------------------------------------------------------------------------

  /** A pull-request ref is skipped whatever the tags and commits are. */
  lemma PullRequestRefSkipped(branch: string, tags: seq<string>, messages: seq<string>)
    requires branch == PullRequestPrefix + "42/merge"
    ensures Resolve(branch, "", tags, messages) == Skipped
  {
  }

  /** A branch named exactly `pull_request`, made the release branch, never scans its commits: the bump stays `patch`. */
  lemma PullRequestNameKeepsPatch(branch: string, m: string)
    requires branch == "pull_request" && m == "feat" + "(major)" + ": x"
    ensures Resolve(branch, branch, [], [m]) == Tagged(Patch, "v0.0.0", "v0.0.0", "v0.0.1")
  {
    assert !StartsWith(branch, PullRequestPrefix) by {
      assert branch[..|PullRequestPrefix|][0] != PullRequestPrefix[0];
    }
    LatestWithoutReleases([]);
    BumpsOfBaseline();
  }

  /** A `(minor)` before a `(major)` wins: the scan stops at the first marker it meets. */
  lemma FirstMarkerWins(a: string, b: string)
    requires a == "feat" + "(minor)" + ": a" && b == "feat" + "(major)" + ": b"
    ensures ClassifyBump([a, b]) == Minor
  {
    MinorMessage(a, "feat", ": a");
    FirstStopDecides([a, b], 0);
  }

  /** Release tags are ordered by number, not by text: `v1.10.0` is later than `v1.9.0`. */
  lemma NumericReleaseOrder(t0: string, t1: string)
    requires t0 == "v1.9.0" && t1 == "v1.10.0"
    ensures LatestReleaseTag([t0, t1]) == Release(t1)
  {
    FormatsOfOthers();
    ReleaseTagOf(t0, Version(1, 9, 0));
    ReleaseTagOf(t1, Version(1, 10, 0));
    LatestIsTheMaximum([t0, t1], t1);
  }

  /** A release tag with a leading zero makes the sort throw once there is a second release tag. */
  lemma LeadingZeroFails(branch: string, good: string, bad: string)
    requires branch == "release"
    requires good == "v1.0.0" && bad == "v" + "01" + "." + "1" + "." + "0"
    ensures Resolve(branch, "", [good, bad], []) == Failed(Patch)
  {
    FormatsOfOne();
    ReleaseTagOf(good, Version(1, 0, 0));
    ReleaseTagFromFields("01", "1", "0");
    FilterKeepsTwo([good, bad], IsReleaseTag, 0, 1);
    FailedIffUncleanableRelease(branch, "", [good, bad], []);
  }

  /** Branch tags sort as text, so after `v1.2.0-canary.9` and `v1.2.0-canary.10` the next
      tag repeats `v1.2.0-canary.10`. */
  lemma TextOrderRepeatsTag(branch: string, r: string, c9: string, c10: string)
    requires branch == "canary" && r == "v1.2.0"
    requires c9 == r + BranchMarker(branch) + "9" && c10 == r + BranchMarker(branch) + "10"
    ensures Resolve(branch, "", [r, c9, c10], []) == Tagged(Patch, r, c9, c10)
  {
    IsV120(r);
    CountersNineTen();
    CanaryIsABranch(branch);
    TwoCountersRun(branch, r, Version(1, 2, 0), "9", "10", "9", "10", []);
  }

  /** The branch filter is not tied to the base version: after `v1.0.0-canary.5` the next tag
      on `v2.0.0` is `v2.0.0-canary.6`. */
  lemma CounterCrossesBaseVersions(branch: string, r: string, base: string, c5: string)
    requires branch == "canary" && r == "v2.0.0" && base == "v1.0.0"
    requires c5 == base + BranchMarker(branch) + "5"
    ensures Resolve(branch, "", [r, c5], []) == Tagged(Patch, r, c5, r + BranchMarker(branch) + "6")
  {
    IsV200(r);
    CounterFive();
    CanaryIsABranch(branch);
    OneCounterRun(branch, r, Version(2, 0, 0), base, "5", "6", []);
  }

  /** After `v1.0.0-canary.x`, whose last part is not a number, the counter is `NaN` and the
      next tag is `v0.0.0-canary.NaN`. */
  lemma NonNumericCounter(branch: string, base: string, cx: string)
    requires branch == "canary" && base == "v1.0.0" && cx == base + BranchMarker(branch) + "x"
    ensures Resolve(branch, "", [cx], []) == Tagged(Patch, Baseline, cx, Baseline + BranchMarker(branch) + "NaN")
  {
    XIsNoCounter("x");
    CanaryIsABranch(branch);
    LoneBranchTagRun(branch, base, "x", "NaN", []);
  }

  /** `parseInt` skips white space that Git allows in a ref name: after
      `v1.0.0-canary.<no-break space>5` the counter is 5 and the next tag is `v0.0.0-canary.6`. */
  lemma WhiteSpaceBeforeCounter(branch: string, base: string, c: string)
    requires branch == "canary" && base == "v1.0.0" && c == base + BranchMarker(branch) + ("\U{00A0}" + "5")
    ensures Resolve(branch, "", [c], []) == Tagged(Patch, Baseline, c, Baseline + BranchMarker(branch) + "6")
  {
    NoBreakSpaceFive("\U{00A0}" + "5", "\U{00A0}", "5");
    CanaryIsABranch(branch);
    LoneBranchTagRun(branch, base, "\U{00A0}" + "5", "6", []);
  }

}
