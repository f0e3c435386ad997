/** Bump classification: the scan of commit messages for `(major)`, `(minor)`
    and `(patch)` markers in src/index.ts:24-38. */
module Bumps {
  import opened Strings

  datatype Bump = Major | Minor | Patch

  /** A message that ends the scan: it holds `(major)` or `(minor)`. */
  predicate StopsScan(message: string) {
    Contains(message, "(major)") || Contains(message, "(minor)")
  }

  /** The bump the scan settles on, one message at a time: `(major)` is looked for
      before `(minor)`, either one ends the scan, and everything else (a `(patch)`
      marker included) leaves the default `patch` in place. */
  function ClassifyBump(messages: seq<string>): Bump
  {
    if |messages| == 0 then Patch
    else if Contains(messages[0], "(major)") then Major
    else if Contains(messages[0], "(minor)") then Minor
    else ClassifyBump(messages[1..])
  }

  /** The `for ... of` loop with its `break`s, over the mutable `bumpType`. */
  method ScanBump(messages: seq<string>) returns (bumpType: Bump)
    ensures bumpType == ClassifyBump(messages)
  {
    bumpType := Patch;
    var i := 0;
    while i < |messages|
      invariant 0 <= i <= |messages|
      invariant bumpType == Patch
      invariant ClassifyBump(messages) == ClassifyBump(messages[i..])
    {
      var message := messages[i];
      if Contains(message, "(major)") {
        bumpType := Major;
        break;
      } else if Contains(message, "(minor)") {
        bumpType := Minor;
        break;
      } else if Contains(message, "(patch)") {
        bumpType := Patch;
      }
      assert messages[i + 1..] == messages[i..][1..];
      i := i + 1;
    }
  }

  /** The first message that stops the scan decides: `major` if it holds `(major)`,
      `minor` otherwise. */
  lemma {:induction false} FirstStopDecides(messages: seq<string>, i: nat)
    requires i < |messages| && StopsScan(messages[i])
    requires forall j :: 0 <= j < i ==> !StopsScan(messages[j])
    ensures ClassifyBump(messages) == if Contains(messages[i], "(major)") then Major else Minor
  {
    if i > 0 {
      assert !StopsScan(messages[0]);
      FirstStopDecides(messages[1..], i - 1);
    }
  }

  /** The result is `patch` exactly when no message holds `(major)` or `(minor)`. */
  lemma {:induction false} PatchIffNoStop(messages: seq<string>)
    ensures ClassifyBump(messages) == Patch <==> forall j :: 0 <= j < |messages| ==> !StopsScan(messages[j])
  {
    if |messages| > 0 {
      PatchIffNoStop(messages[1..]);
      assert forall j :: 1 <= j < |messages| ==> messages[j] == messages[1..][j - 1];
    }
  }

  /** Messages after a stop are never read; messages before one that do not stop
      the scan change nothing. */
  lemma {:induction false} ClassifyAppend(front: seq<string>, back: seq<string>)
    ensures ClassifyBump(front + back) ==
      if ClassifyBump(front) == Patch then ClassifyBump(back) else ClassifyBump(front)
  {
    if |front| == 0 {
      assert front + back == back;
    } else {
      assert (front + back)[0] == front[0];
      assert (front + back)[1..] == front[1..] + back;
      ClassifyAppend(front[1..], back);
    }
  }
}
