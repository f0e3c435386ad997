# auto-git-tag version resolver in Dafny

This project models the decision logic of `run()` in `src/index.ts` of the
auto-git-tag GitHub Action. From the current branch name, the `release_branch`
input, the repository's tag names and the commit messages of the range
`origin/<branch>..HEAD`, a run does one of three things:

- it skips a pull-request ref;
- it fails while sorting the release tags;
- it reports the bump type (`major`, `minor` or `patch`), the latest release
  tag, the branch's latest tag and the next tag to create.

The Git and Actions calls are replaced by their results, which become the
inputs of `Resolver.Resolve` and `Resolver.Run`. The result is the `Outcome`
datatype: `Skipped`, `Failed(bump)` or `Tagged(bump, latestRelease, latest, next)`.

Modules, in dependency order:

- `Strings`: `includes` and `startsWith`, `split('.')` and `join`, the last
  part after `.` (what `.pop()` returns), and decimal digit strings.
- `Seqs`: `Array.prototype.filter`.
- `JsNumbers`: `parseInt` with no radix (leading white space, sign, `0x` prefix
  and digit run), `+ 1`, and the rendering of a number,
  `NaN` included.
- `Bumps`: the commit-message scan. `ClassifyBump` is its functional
  specification. `ScanBump` is the `for … of` loop with its `break`s.
- `Versions`: the release-tag pattern `^v\d+\.\d+\.\d+$` and the numeric order
  of versions. It also holds the choice of the latest release tag, including
  the error `semver.compare` raises on a tag `semver.clean` rejects, and the
  bumped release tag.
- `BranchTags`: the default order of `sort()` and the current tag of a
  non-release branch, both as written. The branch filter is an unanchored
  `includes` of `-<branch>.`. The pick is `sort().reverse()[0]`, a text order.
  It also holds the next pre-release tag.
- `Resolver`: the whole run, both as a function (`Resolve`) and as a method
  (`Run`) that reassigns `bumpType`, `currentTag` and `nextTag` as the source
  does. The properties of a run are proved about `Resolve`.
- `Scenarios`: the six cases of `src/run.test.ts`, stated as lemmas about
  `Resolve`, plus runs that show the code's edge behaviour.

What the code does that a reader might not expect:

- The commit range is `origin/<branch>..HEAD` on every branch, the release
  branch included. It is an input here in either case.
- A branch tag is any tag that contains `-<branch>.`, whatever its base
  version (`Scenarios.CounterCrossesBaseVersions`).
- The current branch tag is the one that sorts last as text, not the one with
  the greatest counter, so `canary.9` beats `canary.10`
  (`Scenarios.TextOrderRepeatsTag`).
- A release-shaped tag with a leading zero is not ignored. Once there are two
  release tags to sort, it makes the run fail (`Scenarios.LeadingZeroFails`).
- A non-numeric counter is not read as 0. `parseInt` gives `NaN` and the next
  tag ends in `.NaN` (`Scenarios.NonNumericCounter`).
- `parseInt` skips leading white space, and Git allows non-ASCII white space
  such as U+00A0 in a ref name. A counter written as a no-break space and `5`
  reads as 5 (`Scenarios.WhiteSpaceBeforeCounter`).

## Model

| member | source | states |
|---|---|---|
| Strings.Contains | src/index.ts:29-35 | definition of `includes`: the pattern is a prefix of the message or of one of its suffixes, scanned left to right |
| Strings.ContainsIff | src/index.ts:29-35 | `includes` holds exactly when the pattern occurs at some index of the message |
| Strings.MissingChar | src/index.ts:29-35 | a string lacking a character of the pattern does not include the pattern |
| Strings.StartsWith | src/index.ts:14 | definition of `startsWith`: the string is at least as long as the pattern and begins with it |
| Strings.Split | src/index.ts:61 | definition of `split` on a one-character separator: the text up to the first separator, then the split of the rest; empty parts are kept |
| Strings.LastPart | src/index.ts:71 | definition of `.pop()` after `split`: the last part of the split |
| Strings.SplitJoin | src/index.ts:61 | joining the parts of `split('.')` with `.` gives back the string |
| Strings.JoinSplit | src/index.ts:61 | splitting a `.`-join of dot-free parts gives back the parts |
| Strings.SplitAppend | src/index.ts:61 | `split` distributes over a separator placed between two strings |
| Strings.LastPartAfter | src/index.ts:71 | the part `.pop()` returns is whatever follows the last `.` |
| Strings.DigitsValue | src/index.ts:61 | definition of `Number` on a digit run: its decimal value, most significant digit first, leading zeros adding nothing |
| Strings.NatToString | src/index.ts:63-67 | the decimal rendering of a natural, as a template string writes a number: a non-empty digit run without a `.` |
| Strings.NatToStringRoundTrip | src/index.ts:63-67 | the decimal rendering of a natural is canonical (no leading zero) and reads back as that natural |
| Strings.DigitsRoundTrip | src/index.ts:61 | a canonical digit string is the rendering of its value |
| Seqs.Filter | src/index.ts:44 | the filter keeps exactly the accepted elements, and no more than there were |
| Seqs.FilterAppend | src/index.ts:44 | the filter distributes over concatenation, so the kept elements keep their order |
| Seqs.FilterMultiplicity | src/index.ts:44 | a kept element occurs in the result as often as in the input; a rejected one never does |
| Bumps.ClassifyBump | src/index.ts:28-38 | definition of the scan: in order, the first message holding `(major)` or `(minor)` decides, `major` if it holds `(major)` and `minor` otherwise; with no such message the bump is `patch` |
| Bumps.ScanBump | src/index.ts:24-38 | the loop with its `break`s returns the bump `ClassifyBump` specifies |
| Bumps.FirstStopDecides | src/index.ts:28-34 | the first message that holds `(major)` or `(minor)` decides: `major` if it holds `(major)`, `minor` otherwise |
| Bumps.PatchIffNoStop | src/index.ts:24-38 | the bump is `patch` exactly when no message holds `(major)` or `(minor)`; `(patch)` changes nothing |
| Bumps.ClassifyAppend | src/index.ts:28-38 | messages after a stopping message are never read; messages before it that do not stop the scan change nothing |
| JsNumbers.ParseInt | src/index.ts:71 | definition of `parseInt` with no radix: leading white space skipped, an optional sign, base 16 after `0x`/`0X`, then the longest digit run; `NaN` when it is empty |
| JsNumbers.Increment | src/index.ts:71 | definition of `+ 1`: an integer grows by one and `NaN` stays `NaN` |
| JsNumbers.NumberToString | src/index.ts:72 | definition of `${branchSuffix}`: `NaN`, or the decimal digits of the integer with a `-` in front of a negative one |
| JsNumbers.ParseIntDigitsThen | src/index.ts:71 | `parseInt` reads a leading digit run as its decimal value and ignores what follows a non-digit |
| JsNumbers.ParseIntDigits | src/index.ts:71 | `parseInt` of a digit string is its decimal value |
| JsNumbers.ParseIntRoundTrip | src/index.ts:71 | `parseInt` reads back the rendering of every natural |
| JsNumbers.ParseIntNegative | src/index.ts:71 | a `-` then a digit run reads as the negated value of the run |
| JsNumbers.ParseIntReadsRendering | src/index.ts:71-72 | `parseInt` reads back the rendering of every number the counter can hold: any integer, and `NaN` |
| JsNumbers.TrimStartIsSuffix | src/index.ts:71 | the trim before `parseInt` removes a prefix made only of JavaScript white space and line terminators, and leaves no white space in front |
| JsNumbers.ParseIntSkipsWhiteSpace | src/index.ts:71 | leading white space does not change what `parseInt` reads |
| JsNumbers.ParseIntWhiteSpaceDigits | src/index.ts:71 | white space then a digit string reads as the digits' value |
| JsNumbers.ParseIntNaN | src/index.ts:71 | a string starting with neither white space, a sign nor a digit reads as `NaN` |
| Versions.Less | src/index.ts:45 | definition of `semver.compare(a, b) < 0` on the versions of cleanable tags: (major, minor, patch) compared numerically, major first |
| Versions.IsReleaseTag | src/index.ts:44 | definition of the pattern `^v\d+\.\d+\.\d+$`: a `v`, then exactly three non-empty digit runs split by `.` |
| Versions.ReleaseTags | src/index.ts:44 | definition of the filter: the tags matching the release pattern, in their order |
| Versions.Cleanable | src/index.ts:45 | definition of `semver.clean` succeeding on a release tag: no field has a leading zero |
| Versions.VersionOf | src/index.ts:61 | definition of `.map(Number)` over a release tag's fields: the three decimal values |
| Versions.Fields | src/index.ts:61 | a release tag has three digit runs after its `v` |
| Versions.ReleaseTagFromFields | src/index.ts:44 | `v<a>.<b>.<c>` with digit runs matches the release pattern, and its fields are `a`, `b` and `c` |
| Versions.ReleaseTagChars | src/index.ts:44 | after the `v`, a release tag holds only digits and dots |
| Versions.FormatRelease | src/index.ts:63-67 | definition of the template `v${major}.${minor}.${patch}` over the three rendered numbers |
| Versions.FormatReleaseRoundTrip | src/index.ts:63-67 | a formatted version is a release tag that `semver.clean` accepts and that reads back as the version |
| Versions.ParseReleaseRoundTrip | src/index.ts:45 | a release tag that `semver.clean` accepts is the formatting of its version |
| Versions.CleanableTagsEqual | src/index.ts:45 | two tags `semver.clean` accepts are equal exactly when their versions are |
| Versions.MaxRelease | src/index.ts:45-46 | the last tag after the numeric sort is one of the tags and no tag is numerically greater |
| Versions.LatestReleaseTag | src/index.ts:44-46 | a successful result is a release tag, either `v0.0.0` or one of the input tags |
| Versions.LatestFailsIff | src/index.ts:45 | the sort throws exactly when there are two release tags and one of them has a field with a leading zero |
| Versions.LatestWithoutReleases | src/index.ts:46 | with no release-shaped tag the latest release tag is `v0.0.0` |
| Versions.LatestIsGreatest | src/index.ts:44-46 | a successful result is one of the tags and no release tag is numerically greater |
| Versions.LatestIsNeverPrerelease | src/index.ts:44 | a tag outside the release pattern, such as `v1.2.0-canary.1`, is never the latest release tag |
| Versions.LatestIsTheMaximum | src/index.ts:44-46 | when every release tag is accepted by `semver.clean`, the latest one is the release tag no other exceeds |
| Versions.ApplyBump | src/index.ts:62-68 | the bumped version is strictly greater in numeric order |
| Versions.NextReleaseTag | src/index.ts:60-68 | definition of the release branch's next tag: the latest release tag's version, bumped, in the template `v<M>.<m>.<p>` |
| Versions.NextReleaseTagIsBumped | src/index.ts:60-68 | the next release tag matches the release pattern and is accepted by semver. It is strictly greater than the latest release, by `(M+1,0,0)`, `(M,m+1,0)` or `(M,m,p+1)` |
| BranchTags.LexLe | src/index.ts:53 | definition of the order of `sort()` without a comparator: character by character, a proper prefix first |
| BranchTags.LexLeTotal | src/index.ts:53 | any two tags are ordered by `sort()`'s order |
| BranchTags.LexLeTrans | src/index.ts:53 | that order is transitive |
| BranchTags.LexLeAntisym | src/index.ts:53 | two tags that sort no later than each other are equal |
| BranchTags.LexLeSharedPrefix | src/index.ts:53 | a shared prefix does not change how two tags sort |
| BranchTags.LexMax | src/index.ts:53 | `sort().reverse()[0]` is one of the tags, and every tag sorts no later than it |
| BranchTags.BranchTagsOf | src/index.ts:52 | definition of the branch filter: the tags that contain `-<branch>.`, in their order |
| BranchTags.CurrentBranchTag | src/index.ts:50-54 | definition of the current tag off the release branch: the branch tag that sorts last, or `<latest>-<branch>.0` when there is none |
| BranchTags.CurrentBranchTagSpec | src/index.ts:51-53 | the current tag is a tag holding `-<branch>.` that every such tag sorts no later than. With none, it is `<latest>-<branch>.0` |
| BranchTags.CurrentBranchTagUnique | src/index.ts:51-53 | the current tag is the only tag with that property |
| BranchTags.StripV | src/index.ts:70 | definition of `replace(/^v/, '')`: the string without a leading `v`, unchanged when it has none |
| BranchTags.Counter | src/index.ts:71 | definition of the counter: `parseInt` of the last `.`-part of the current tag, with `0` for an empty part |
| BranchTags.NextBranchTag | src/index.ts:70-72 | definition of the next tag off the release branch: `v`, the latest release without its `v`, `-<branch>.` and the counter plus one as rendered |
| BranchTags.CounterOfDigits | src/index.ts:71 | a tag ending in `.` and a digit run has that run's value as its counter |
| BranchTags.CounterAfterWhiteSpace | src/index.ts:71 | a tag ending in `.`, white space and a digit run has that run's value as its counter |
| BranchTags.NextBranchTagShape | src/index.ts:70-72 | the next tag is the latest release, `-<branch>.`, and the rendered counter plus one, so it holds the branch marker |
| BranchTags.NextCounterIsSuccessor | src/index.ts:71-72 | for a natural counter `k`, the counter of the next tag is `k + 1` |
| BranchTags.NextCounterIsIncrement | src/index.ts:71-72 | for every current tag, the counter of the next tag is the current counter plus one: a negative counter counts up and `NaN` stays `NaN` |
| BranchTags.FirstBranchTag | src/index.ts:53-72 | with no tag of the branch, the counter starts at 0 and the next tag ends in `.1` |
| Resolver.ReleaseBranchName | src/index.ts:10 | an empty input selects `release`; any other input is the name |
| Resolver.BumpFor | src/index.ts:24-39 | definition of the reported bump: `patch` for a branch named `pull_request`, the scan of the messages otherwise |
| Resolver.Resolve | src/index.ts:14-73 | definition of a whole run: skipped on a pull-request ref, failed when the release sort throws, and otherwise the four outputs on or off the release branch |
| Resolver.Run | src/index.ts:14-73 | the step-by-step run, with its reassigned variables, gives the outcome `Resolve` specifies |
| Resolver.SkippedIffPullRequest | src/index.ts:14-17 | a run is skipped exactly when the branch starts with `refs/pull/` |
| Resolver.FailedIffUncleanableRelease | src/index.ts:41-45 | a run fails exactly when it is not skipped and the release tags include two, one with a leading zero; `bump_type` is set by then |
| Resolver.ReportedBump | src/index.ts:24-41 | on a branch named `pull_request` the bump is `patch`. On any other branch it is `patch` exactly when no message holds `(major)` or `(minor)`, and otherwise the first such message decides: `major` if it holds `(major)`, `minor` if not |
| Resolver.ReleaseBranchNextTag | src/index.ts:50-68 | on the release branch the next tag is a release tag semver accepts, one bump above the latest release tag |
| Resolver.BranchNextTag | src/index.ts:44-73 | off the release branch: the latest release tag matches the release pattern, the latest tag is the last-sorting tag holding the branch marker, or `<latest>-<branch>.0`. The next tag is `<latest>-<branch>.<counter+1>`, and its counter is the current counter plus one, `NaN` included |
| Scenarios.TwoCountersRun | src/index.ts:50-73 | over a release tag and two of its branch tags with digit counters, the next tag follows the counter that sorts last |
| Scenarios.OneCounterRun | src/index.ts:50-73 | one branch tag on any base version sets the counter for the latest release |
| Scenarios.LoneBranchTagRun | src/index.ts:44-73 | a branch tag alone leaves `v0.0.0` as the latest release, and its last part sets the counter |
| Scenarios.MajorBumpOnRelease | src/run.test.ts:41-54 | `feat(major)` on `release` over `v1.0.0`, `v1.1.0`, `v1.2.0` gives `major` and `v2.0.0` |
| Scenarios.MinorBumpOnRelease | src/run.test.ts:56-69 | `feat(minor)` gives `minor` and `v1.3.0` |
| Scenarios.PatchBumpOnRelease | src/run.test.ts:71-84 | `fix(patch)` gives `patch` and `v1.2.1` |
| Scenarios.CanaryCounter | src/run.test.ts:86-98 | after `v1.2.0-canary.1` and `v1.2.0-canary.2` the next tag is `v1.2.0-canary.3` |
| Scenarios.InitialRelease | src/run.test.ts:100-112 | with no tags, `feat(major)` on `release` gives `v1.0.0` over the baseline `v0.0.0` |
| Scenarios.MinorInsideMerge | src/run.test.ts:114-129 | the `(minor)` of the second of three commits decides, and `v1.2.2` becomes `v1.3.0` |
| Scenarios.PullRequestRefSkipped | src/index.ts:14-17 | `refs/pull/42/merge` is skipped whatever the tags and commits |
| Scenarios.PullRequestNameKeepsPatch | src/index.ts:26 | a branch named `pull_request` ignores a `(major)` commit and bumps `v0.0.0` to `v0.0.1` |
| Scenarios.FirstMarkerWins | src/index.ts:28-34 | a `(minor)` commit before a `(major)` one makes the bump `minor` |
| Scenarios.NumericReleaseOrder | src/index.ts:45-46 | `v1.10.0` is later than `v1.9.0` |
| Scenarios.LeadingZeroFails | src/index.ts:45 | `v1.0.0` beside `v01.1.0` makes the run fail with `patch` already reported |
| Scenarios.TextOrderRepeatsTag | src/index.ts:52-72 | after `v1.2.0-canary.9` and `v1.2.0-canary.10` the next tag is `v1.2.0-canary.10` again |
| Scenarios.CounterCrossesBaseVersions | src/index.ts:52-72 | `v1.0.0-canary.5` makes the next tag on `v2.0.0` `v2.0.0-canary.6` |
| Scenarios.NonNumericCounter | src/index.ts:71-72 | after `v1.0.0-canary.x` alone the next tag is `v0.0.0-canary.NaN` |
| Scenarios.WhiteSpaceBeforeCounter | src/index.ts:71-72 | after `v1.0.0-canary.` with a no-break space and `5` alone, the counter reads as 5 and the next tag is `v0.0.0-canary.6` |

## Left out

- Git and Actions I/O are replaced by their results, which become the inputs.
  This covers `core.getInput`, `getBooleanInput`, `git.revparse`, `addConfig`,
  `git.log`, `git.tags`, `core.setOutput`, `core.info` and `core.setFailed`.
  The branch name is taken as `revparse` returns it after `trim()`.
- The dry-run flag, `addTag`, and `pushTags` with the token-bearing URL are left
  out. They publish a tag and decide nothing about it.
- The try/catch of lines 84-86 is represented only by the `Failed` outcome. A
  failing Git call is not modelled.
- The second `git.tags()` call at line 52 is taken to return the same tags as
  the first one.
- `semver` internals are replaced by the numeric (major, minor, patch) order.
  `semver.clean` is modelled only as the leading-zero check. Its limits on
  length and on numbers above 2^53 - 1 are left out.
- JavaScript numbers are modelled as unbounded integers or `NaN`, with no
  floating-point precision. `Number` on a digit string and `parseInt` never
  round here.
- The `Failed` outcome assumes the sort compares every element once there are two
  to sort, as the engine's insertion sort does for short arrays. Which
  comparison throws first is not modelled.
- `BranchTags.LexLe` compares characters as code points, while `sort()`
  compares UTF-16 code units. They differ only for characters outside the
  Basic Multilingual Plane.
- The Jest mocking of `src/run.test.ts` is left out. Its cases appear only as
  lemmas about `Resolve`.
