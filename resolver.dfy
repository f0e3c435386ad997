/** The decision logic of `run()` in src/index.ts, with the Git and Actions
    calls replaced by their results: the branch name, the `release_branch`
    input, the tag list and the commit messages of `origin/<branch>..HEAD`. */
module Resolver {
  import opened Strings
  import opened Bumps
  import opened Versions
  import opened JsNumbers
  import opened BranchTags

  /** What one run reports. `Skipped`: a pull-request ref, nothing is output.
      `Failed`: sorting the release tags threw after `bump_type` was already set.
      `Tagged`: the outputs `bump_type`, `latest_release_tag`, `latest_tag` and `NEXT_TAG`. */
  datatype Outcome =
    | Skipped
    | Failed(bumpType: Bump)
    | Tagged(bumpType: Bump, latestReleaseTag: string, latestTag: string, nextTag: string)

  const PullRequestPrefix: string := "refs/pull/"

  /** `core.getInput('release_branch') || 'release'`. */
  function ReleaseBranchName(input: string): (name: string)
    ensures name != ""
    ensures input == "" ==> name == "release"
    ensures input != "" ==> name == input
  {
    if input == "" then "release" else input
  }

  /** Lines 24-39: the scan runs for every branch except one literally named `pull_request`. */
  function BumpFor(branch: string, messages: seq<string>): Bump {
    if branch == "pull_request" then Patch else ClassifyBump(messages)
  }

  /** The whole resolution, as a function of its inputs. */
  function Resolve(branch: string, releaseInput: string, tags: seq<string>, messages: seq<string>): Outcome {
    if StartsWith(branch, PullRequestPrefix) then Skipped
    else
      var bump := BumpFor(branch, messages);
      match LatestReleaseTag(tags)
      case InvalidVersion => Failed(bump)
      case Release(latest) =>
        if branch == ReleaseBranchName(releaseInput) then
          Tagged(bump, latest, latest, NextReleaseTag(latest, bump))
        else
          var current := CurrentBranchTag(tags, branch, latest);
          Tagged(bump, latest, current, NextBranchTag(latest, branch, current))
  }

  /** `run()` step by step, with `bumpType`, `currentTag` and `nextTag` as the variables it reassigns. */
  method Run(branch: string, releaseInput: string, tags: seq<string>, messages: seq<string>)
    returns (outcome: Outcome)
    ensures outcome == Resolve(branch, releaseInput, tags, messages)
  {
    var releaseBranch := ReleaseBranchName(releaseInput);
    if StartsWith(branch, PullRequestPrefix) {
      return Skipped;
    }
    var bumpType := Patch;
    if branch != "pull_request" {
      bumpType := ScanBump(messages);
    }
    var latest := LatestReleaseTag(tags);
    if latest.InvalidVersion? {
      return Failed(bumpType);
    }
    var latestReleaseTag := latest.tag;
    var currentTag := latestReleaseTag;
    if branch != releaseBranch {
      currentTag := CurrentBranchTag(tags, branch, latestReleaseTag);
    }
    var nextTag: string;
    if branch == releaseBranch {
      nextTag := NextReleaseTag(latestReleaseTag, bumpType);
    } else {
      nextTag := NextBranchTag(latestReleaseTag, branch, currentTag);
    }
    outcome := Tagged(bumpType, latestReleaseTag, currentTag, nextTag);
  }

  // ---------------------------------------------------------------------------
  // Properties of a run
  // ---------------------------------------------------------------------------

  /** Proof step: `Resolve` unfolded on the release branch, given its latest release tag. */
  lemma ReleaseRun(branch: string, releaseInput: string, tags: seq<string>, messages: seq<string>, latest: string)
    requires !StartsWith(branch, PullRequestPrefix) && branch == ReleaseBranchName(releaseInput)
    requires LatestReleaseTag(tags) == Release(latest)
    ensures IsReleaseTag(latest)
    ensures Resolve(branch, releaseInput, tags, messages)
      == Tagged(BumpFor(branch, messages), latest, latest, NextReleaseTag(latest, BumpFor(branch, messages)))
  {
  }

  /** Proof step: `Resolve` unfolded off the release branch, given its latest release tag
      and its current tag. */
  lemma BranchRun(branch: string, releaseInput: string, tags: seq<string>, messages: seq<string>, latest: string, current: string)
    requires !StartsWith(branch, PullRequestPrefix) && branch != ReleaseBranchName(releaseInput)
    requires LatestReleaseTag(tags) == Release(latest)
    requires CurrentBranchTag(tags, branch, latest) == current
    ensures Resolve(branch, releaseInput, tags, messages)
      == Tagged(BumpFor(branch, messages), latest, current, NextBranchTag(latest, branch, current))
  {
  }

  /** A run is skipped exactly when the branch is a pull-request ref. */
  lemma SkippedIffPullRequest(branch: string, releaseInput: string, tags: seq<string>, messages: seq<string>)
    ensures Resolve(branch, releaseInput, tags, messages) == Skipped <==> StartsWith(branch, PullRequestPrefix)
  {
  }

  /** A run fails exactly when it is no pull-request ref and there are two release tags
      to sort, one of them with a field semver rejects; it has set `bump_type` by then. */
  lemma FailedIffUncleanableRelease(branch: string, releaseInput: string, tags: seq<string>, messages: seq<string>)
    ensures Resolve(branch, releaseInput, tags, messages).Failed? <==>
      !StartsWith(branch, PullRequestPrefix)
      && |ReleaseTags(tags)| >= 2
      && exists t :: t in tags && IsReleaseTag(t) && !Cleanable(t)
    ensures Resolve(branch, releaseInput, tags, messages).Failed? ==>
      Resolve(branch, releaseInput, tags, messages).bumpType == BumpFor(branch, messages)
  {
    if !StartsWith(branch, PullRequestPrefix) {
      LatestFailsIff(tags);
      assert Resolve(branch, releaseInput, tags, messages).Failed? <==> LatestReleaseTag(tags).InvalidVersion?;
    }
  }

  /** The reported bump is `major` or `minor` as the first message holding `(major)` or
      `(minor)` says, and `patch` when there is none or the branch is named `pull_request`. */
  lemma ReportedBump(branch: string, releaseInput: string, tags: seq<string>, messages: seq<string>)
    requires !Resolve(branch, releaseInput, tags, messages).Skipped?
    ensures var b := Resolve(branch, releaseInput, tags, messages).bumpType;
      && (branch == "pull_request" ==> b == Patch)
      && (branch != "pull_request" ==>
            (b == Patch <==> forall j :: 0 <= j < |messages| ==> !StopsScan(messages[j])))
      && (branch != "pull_request" ==>
            forall i :: (0 <= i < |messages| && StopsScan(messages[i]) &&
                         forall j :: 0 <= j < i ==> !StopsScan(messages[j])) ==>
              b == if Contains(messages[i], "(major)") then Major else Minor)
  {
    PatchIffNoStop(messages);
    forall i | 0 <= i < |messages| && StopsScan(messages[i]) && (forall j :: 0 <= j < i ==> !StopsScan(messages[j]))
      ensures ClassifyBump(messages) == if Contains(messages[i], "(major)") then Major else Minor
    {
      FirstStopDecides(messages, i);
    }
  }

  /** On the release branch the latest tag is the latest release tag, and the next tag is a
      release tag semver accepts, one bump above it. */
  lemma ReleaseBranchNextTag(branch: string, releaseInput: string, tags: seq<string>, messages: seq<string>)
    requires branch == ReleaseBranchName(releaseInput)
    requires Resolve(branch, releaseInput, tags, messages).Tagged?
    ensures var o := Resolve(branch, releaseInput, tags, messages);
      && o.latestTag == o.latestReleaseTag
      && IsReleaseTag(o.latestReleaseTag)
      && IsReleaseTag(o.nextTag) && Cleanable(o.nextTag)
      && Less(VersionOf(o.latestReleaseTag), VersionOf(o.nextTag))
      && var v, w := VersionOf(o.latestReleaseTag), VersionOf(o.nextTag);
         match o.bumpType
         case Major => w == Version(v.major + 1, 0, 0)
         case Minor => w == Version(v.major, v.minor + 1, 0)
         case Patch => w == Version(v.major, v.minor, v.patch + 1)
  {
    assert !StartsWith(branch, PullRequestPrefix) && LatestReleaseTag(tags).Release?;
    var latest, bump := LatestReleaseTag(tags).tag, BumpFor(branch, messages);
    ReleaseRun(branch, releaseInput, tags, messages, latest);
    var o := Resolve(branch, releaseInput, tags, messages);
    assert o.latestTag == latest && o.latestReleaseTag == latest && o.bumpType == bump;
    assert o.nextTag == NextReleaseTag(latest, bump);
    NextReleaseTagIsBumped(latest, bump);
  }

  /** Off the release branch the latest tag is the branch tag that sorts last (or the
      counter-zero tag on the latest release), and the next tag is the latest release,
      the branch marker and the current counter plus one. */
  lemma BranchNextTag(branch: string, releaseInput: string, tags: seq<string>, messages: seq<string>)
    requires branch != ReleaseBranchName(releaseInput)
    requires Resolve(branch, releaseInput, tags, messages).Tagged?
    ensures var o := Resolve(branch, releaseInput, tags, messages);
      && IsReleaseTag(o.latestReleaseTag)
      && ((exists t :: t in tags && Contains(t, BranchMarker(branch))) ==>
            o.latestTag in tags && Contains(o.latestTag, BranchMarker(branch)) &&
            forall t :: t in tags && Contains(t, BranchMarker(branch)) ==> LexLe(t, o.latestTag))
      && ((forall t :: t in tags ==> !Contains(t, BranchMarker(branch))) ==>
            o.latestTag == o.latestReleaseTag + "-" + branch + ".0" &&
            o.nextTag == o.latestReleaseTag + BranchMarker(branch) + "1")
      && o.nextTag == o.latestReleaseTag + BranchMarker(branch) + NumberToString(Increment(Counter(o.latestTag)))
      && Counter(o.nextTag) == Increment(Counter(o.latestTag))
      && forall k: nat :: Counter(o.latestTag) == Num(k) ==> Counter(o.nextTag) == Num(k + 1)
  {
    assert !StartsWith(branch, PullRequestPrefix) && LatestReleaseTag(tags).Release?;
    var latest := LatestReleaseTag(tags).tag;
    var current := CurrentBranchTag(tags, branch, latest);
    var next := NextBranchTag(latest, branch, current);
    BranchRun(branch, releaseInput, tags, messages, latest, current);
    CurrentBranchTagSpec(tags, branch, latest);
    NextBranchTagShape(latest, branch, current);
    if forall t :: t in tags ==> !Contains(t, BranchMarker(branch)) {
      FirstBranchTag(tags, branch, latest);
      assert NumberToString(Increment(Counter(current))) == "1";
    }
    NextCounterIsIncrement(latest, branch, current);
    forall k: nat | Counter(current) == Num(k) ensures Counter(next) == Num(k + 1) {
      NextCounterIsSuccessor(latest, branch, current, k);
    }
  }

}
