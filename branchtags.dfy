/** Tags of a non-release branch: the current branch tag (src/index.ts:50-54)
    and the next pre-release tag (src/index.ts:70-72). */
module BranchTags {
  import opened Strings
  import opened Seqs
  import opened JsNumbers

  // ---------------------------------------------------------------------------
  // The default order of Array.prototype.sort
  // ---------------------------------------------------------------------------

  /** `a` sorts no later than `b`: character by character, a proper prefix first. */
  predicate LexLe(a: string, b: string) {
    |a| == 0 || (|b| > 0 && (a[0] < b[0] || (a[0] == b[0] && LexLe(a[1..], b[1..]))))
  }

  lemma {:induction false} LexLeRefl(a: string)
    ensures LexLe(a, a)
  {
    if |a| > 0 {
      LexLeRefl(a[1..]);
    }
  }

  lemma {:induction false} LexLeTotal(a: string, b: string)
    ensures LexLe(a, b) || LexLe(b, a)
  {
    if |a| > 0 && |b| > 0 && a[0] == b[0] {
      LexLeTotal(a[1..], b[1..]);
    }
  }

  lemma {:induction false} LexLeTrans(a: string, b: string, c: string)
    requires LexLe(a, b) && LexLe(b, c)
    ensures LexLe(a, c)
  {
    if |a| > 0 && a[0] == b[0] && b[0] == c[0] {
      LexLeTrans(a[1..], b[1..], c[1..]);
    }
  }

  lemma {:induction false} LexLeAntisym(a: string, b: string)
    requires LexLe(a, b) && LexLe(b, a)
    ensures a == b
  {
    if |a| > 0 {
      LexLeAntisym(a[1..], b[1..]);
      assert a == [a[0]] + a[1..] && b == [b[0]] + b[1..];
    }
  }

  /** A shared prefix does not change how two strings sort. */
  lemma {:induction false} LexLeSharedPrefix(p: string, a: string, b: string)
    ensures LexLe(p + a, p + b) <==> LexLe(a, b)
  {
    if |p| > 0 {
      assert (p + a)[1..] == p[1..] + a && (p + b)[1..] == p[1..] + b;
      LexLeSharedPrefix(p[1..], a, b);
    } else {
      assert p + a == a && p + b == b;
    }
  }

  /** `ts.sort().reverse()[0]`: the tag that sorts last. */
  function LexMax(ts: seq<string>): (m: string)
    requires |ts| > 0
    ensures m in ts
    ensures forall k :: 0 <= k < |ts| ==> LexLe(ts[k], m)
  {
    if |ts| == 1 then
      LexLeRefl(ts[0]);
      ts[0]
    else
      var m := LexMax(ts[1..]);
      assert forall k :: 1 <= k < |ts| ==> ts[k] == ts[1..][k - 1];
      LexLeTotal(m, ts[0]);
      LexLeRefl(ts[0]);
      if LexLe(m, ts[0]) then
        assert forall k :: 1 <= k < |ts| ==> LexLe(ts[k], ts[0]) by {
          forall k | 1 <= k < |ts| ensures LexLe(ts[k], ts[0]) {
            LexLeTrans(ts[k], m, ts[0]);
          }
        }
        ts[0]
      else m
  }

  // ---------------------------------------------------------------------------
  // Current branch tag
  // ---------------------------------------------------------------------------

  /** The substring `-${branch}.` that marks a tag of the branch. */
  function BranchMarker(branch: string): string {
    "-" + branch + "."
  }

  /** `tags.filter(tag => tag.includes(`-${branch}.`))`. */
  function BranchTagsOf(tags: seq<string>, branch: string): seq<string> {
    Filter(tags, t => Contains(t, BranchMarker(branch)))
  }

  /** `branchTags.sort().reverse()[0] || `${latestReleaseTag}-${branch}.0``: the tag
      holding the marker that sorts last, or a counter-zero tag on the latest release. */
  function CurrentBranchTag(tags: seq<string>, branch: string, latest: string): string {
    var bt := BranchTagsOf(tags, branch);
    if |bt| == 0 then latest + "-" + branch + ".0" else LexMax(bt)
  }

  /** The current tag is the tag holding the marker that every such tag sorts no
      later than, or `<latest>-<branch>.0` when no tag holds the marker. */
  lemma CurrentBranchTagSpec(tags: seq<string>, branch: string, latest: string)
    ensures var r := CurrentBranchTag(tags, branch, latest);
      && ((exists t :: t in tags && Contains(t, BranchMarker(branch))) ==>
            r in tags && Contains(r, BranchMarker(branch)) &&
            forall t :: t in tags && Contains(t, BranchMarker(branch)) ==> LexLe(t, r))
      && ((forall t :: t in tags ==> !Contains(t, BranchMarker(branch))) ==>
            r == latest + "-" + branch + ".0")
  {
    var bt := BranchTagsOf(tags, branch);
    if |bt| > 0 {
      var m := LexMax(bt);
      forall t | t in tags && Contains(t, BranchMarker(branch)) ensures LexLe(t, m) {
        assert t in bt;
        var k :| 0 <= k < |bt| && bt[k] == t;
      }
    }
  }

  /** The current tag is determined by the tags alone: it is the one tag holding the
      marker that every tag holding the marker sorts no later than. */
  lemma CurrentBranchTagUnique(tags: seq<string>, branch: string, latest: string, m: string)
    requires m in tags && Contains(m, BranchMarker(branch))
    requires forall t :: t in tags && Contains(t, BranchMarker(branch)) ==> LexLe(t, m)
    ensures CurrentBranchTag(tags, branch, latest) == m
  {
    var r := CurrentBranchTag(tags, branch, latest);
    CurrentBranchTagSpec(tags, branch, latest);
    LexLeAntisym(m, r);
  }

  // ---------------------------------------------------------------------------
  // Next branch tag
  // ---------------------------------------------------------------------------

  /** `latestReleaseTag.replace(/^v/, '')`. */
  function StripV(s: string): string {
    if |s| > 0 && s[0] == 'v' then s[1..] else s
  }

  /** `parseInt(currentTag.split('.').pop() || '0')`: an empty last part counts as `0`. */
  function Counter(current: string): JsNumber {
    var last := LastPart(current, '.');
    ParseInt(if last == "" then "0" else last)
  }

  /** `v${baseVersion}-${branch}.${branchSuffix}`. */
  function NextBranchTag(latest: string, branch: string, current: string): string {
    "v" + StripV(latest) + "-" + branch + "." + NumberToString(Increment(Counter(current)))
  }

  /** A tag that ends in `.` and a run of digits has that run's value as its counter. */
  lemma CounterOfDigits(prefix: string, d: string)
    requires IsDigits(d)
    ensures Counter(prefix + "." + d) == Num(DigitsValue(d))
  {
    forall i | 0 <= i < |d| ensures d[i] != '.' {
      assert IsDigit(d[i]);
    }
    LastPartAfter(prefix, d, '.');
    ParseIntDigits(d);
  }

  /** White space between the last `.` and the digits is skipped: the counter is the digits' value. */
  lemma CounterAfterWhiteSpace(prefix: string, w: string, d: string)
    requires forall i :: 0 <= i < |w| ==> IsJsWhiteSpace(w[i])
    requires IsDigits(d)
    ensures Counter(prefix + "." + (w + d)) == Num(DigitsValue(d))
  {
    forall i | 0 <= i < |w + d| ensures (w + d)[i] != '.' {
      if i < |w| {
        assert IsJsWhiteSpace(w[i]);
      } else {
        assert IsDigit(d[i - |w|]);
      }
    }
    LastPartAfter(prefix, w + d, '.');
    ParseIntSkipsWhiteSpace(w, d);
    ParseIntDigits(d);
  }

  /** On the latest release `v<base>`, the next tag is `<latest>-<branch>.<counter + 1>`:
      it keeps the release's base version and the branch marker. */
  lemma NextBranchTagShape(latest: string, branch: string, current: string)
    requires |latest| > 0 && latest[0] == 'v'
    ensures NextBranchTag(latest, branch, current) ==
      latest + BranchMarker(branch) + NumberToString(Increment(Counter(current)))
    ensures Contains(NextBranchTag(latest, branch, current), BranchMarker(branch))
  {
    assert "v" + StripV(latest) == latest by {
      assert latest == [latest[0]] + latest[1..];
    }
    var n := NumberToString(Increment(Counter(current)));
    assert "v" + StripV(latest) + "-" + branch + "." + n == latest + ("-" + branch + ".") + n;
    ContainsMiddle(latest, BranchMarker(branch), n);
  }

  /** Each new tag of a branch counts one past the tag it follows: the counter of
      the next tag is the current counter plus one. */
  lemma NextCounterIsSuccessor(latest: string, branch: string, current: string, k: nat)
    requires Counter(current) == Num(k)
    ensures Counter(NextBranchTag(latest, branch, current)) == Num(k + 1)
  {
    NatToStringRoundTrip(k + 1);
    var prefix := "v" + StripV(latest) + "-" + branch;
    assert NextBranchTag(latest, branch, current) == prefix + "." + NatToString(k + 1);
    CounterOfDigits(prefix, NatToString(k + 1));
  }

  /** Each new tag of a branch counts one past the tag it follows, whatever its counter:
      the counter read back from the next tag is the current counter plus one, so a
      negative counter counts up and `NaN` stays `NaN`. */
  lemma NextCounterIsIncrement(latest: string, branch: string, current: string)
    ensures Counter(NextBranchTag(latest, branch, current)) == Increment(Counter(current))
  {
    var n := Increment(Counter(current));
    var prefix := "v" + StripV(latest) + "-" + branch;
    assert NextBranchTag(latest, branch, current) == prefix + "." + NumberToString(n);
    assert '.' !in NumberToString(n) && NumberToString(n) != "" by {
      if n.Num? && n.value < 0 {
        assert NumberToString(n) == "-" + NatToString(-n.value);
      }
    }
    LastPartAfter(prefix, NumberToString(n), '.');
    ParseIntReadsRendering(n);
  }

  /** Without an earlier tag of the branch, the counter starts from zero and the next tag ends in `.1`. */
  lemma FirstBranchTag(tags: seq<string>, branch: string, latest: string)
    requires forall t :: t in tags ==> !Contains(t, BranchMarker(branch))
    ensures Counter(CurrentBranchTag(tags, branch, latest)) == Num(0)
    ensures NextBranchTag(latest, branch, CurrentBranchTag(tags, branch, latest)) ==
      "v" + StripV(latest) + "-" + branch + ".1"
  {
    var current := CurrentBranchTag(tags, branch, latest);
    CurrentBranchTagSpec(tags, branch, latest);
    assert current == (latest + "-" + branch) + "." + "0";
    CounterOfDigits(latest + "-" + branch, "0");
    assert NumberToString(Increment(Counter(current))) == "1";
  }
}
