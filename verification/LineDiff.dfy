/** The single changed region of a text comparison. */
module LineDiff {
  import opened OrderedMaps

  datatype Region = Region(beforeStart: nat, before: seq<string>, afterStart: nat, after: seq<string>)

  // ---------- regions ----------

  function FromEnd<T>(a: seq<T>, i: nat): T
    requires i < |a|
  {
    a[|a| - 1 - i]
  }

  /** `p` leading and `s` trailing lines are shared, and the rest is one region. */
  ghost predicate Shares<T>(a: seq<T>, b: seq<T>, p: nat, s: nat) {
    && p + s <= |a| && p + s <= |b|
    && (forall i :: 0 <= i < p ==> a[i] == b[i])
    && (forall i :: 0 <= i < s ==> FromEnd(a, i) == FromEnd(b, i))
  }

  /** The lines with `removed` of them from `start` on, counted from 1, replaced by `inserted`. */
  function Replace(lines: seq<string>, start: nat, removed: nat, inserted: seq<string>): seq<string>
    requires 1 <= start && start - 1 + removed <= |lines|
  {
    lines[..start - 1] + inserted + lines[start - 1 + removed..]
  }

  /** Turning one list into the other by replacing one contiguous region. */
  ghost predicate Patches(before: seq<string>, after: seq<string>, r: Region) {
    && 1 <= r.beforeStart && r.beforeStart - 1 + |r.before| <= |before|
    && before[r.beforeStart - 1..r.beforeStart - 1 + |r.before|] == r.before
    && Replace(before, r.beforeStart, |r.before|, r.after) == after
  }

  function Reverse(r: Region): Region {
    Region(r.afterStart, r.after, r.beforeStart, r.before)
  }

  function RegionBetween(a: seq<string>, b: seq<string>, p: nat, s: nat): Region
    requires p + s <= |a| && p + s <= |b|
  {
    Region(p + 1, a[p..|a| - s], p + 1, b[p..|b| - s])
  }

  lemma SharesPatches(a: seq<string>, b: seq<string>, p: nat, s: nat)
    requires Shares(a, b, p, s)
    ensures Patches(a, b, RegionBetween(a, b, p, s))
  {
    var r := Replace(a, p + 1, |a| - s - p, b[p..|b| - s]);
    assert |r| == |b|;
    forall i | 0 <= i < |b| ensures r[i] == b[i] {
      if |b| - s <= i {
        assert FromEnd(a, |b| - 1 - i) == FromEnd(b, |b| - 1 - i);
      }
    }
  }

  /** The longest shared prefix, then the longest shared suffix beside it, leave the least to replace. */
  lemma GreedyRegionIsLeast(a: seq<string>, b: seq<string>, p: nat, s: nat, other: Region)
    requires Shares(a, b, p, s) && Patches(a, b, other)
    requires p < |a| && p < |b| ==> a[p] != b[p]
    requires p + s < |a| && p + s < |b| ==> FromEnd(a, s) != FromEnd(b, s)
    ensures |a| - p - s <= |other.before| && |b| - p - s <= |other.after|
  {
  }

  lemma NoSmallerRegion(a: seq<string>, b: seq<string>, p: nat, s: nat)
    requires Shares(a, b, p, s)
    requires p < |a| && p < |b| ==> a[p] != b[p]
    requires p + s < |a| && p + s < |b| ==> FromEnd(a, s) != FromEnd(b, s)
    ensures forall other :: Patches(a, b, other) ==>
              |a| - p - s <= |other.before| && |b| - p - s <= |other.after|
  {
    forall other | Patches(a, b, other) ensures |a| - p - s <= |other.before| && |b| - p - s <= |other.after| {
      GreedyRegionIsLeast(a, b, p, s, other);
    }
  }

  method ChangedLineRegion(before: seq<string>, after: seq<string>) returns (region: Option<Region>)
    ensures region.None? <==> before == after
    ensures region.Some? ==> Patches(before, after, region.value) && Patches(after, before, Reverse(region.value))
    ensures region.Some? ==> forall other :: Patches(before, after, other) ==>
              |region.value.before| <= |other.before| && |region.value.after| <= |other.after|
  {
    var prefix := 0;
    var sharedLength := if |before| <= |after| then |before| else |after|;
    while prefix < sharedLength && before[prefix] == after[prefix]
      invariant 0 <= prefix <= sharedLength
      invariant Shares(before, after, prefix, 0)
    {
      prefix := prefix + 1;
    }
    if prefix == |before| && prefix == |after| {
      return None;
    }
    var suffix := 0;
    while suffix < |before| - prefix && suffix < |after| - prefix
          && before[|before| - suffix - 1] == after[|after| - suffix - 1]
      invariant 0 <= suffix
      invariant Shares(before, after, prefix, suffix)
    {
      suffix := suffix + 1;
    }
    region := Some(Region(prefix + 1, before[prefix..|before| - suffix], prefix + 1, after[prefix..|after| - suffix]));
    SharesPatches(before, after, prefix, suffix);
    SharesPatches(after, before, prefix, suffix);
    NoSmallerRegion(before, after, prefix, suffix);
  }

  // ---------- lines ----------

  function SplitLines(text: string): (lines: seq<string>)
    ensures lines != []
  {
    if text == "" then [""]
    else
      var rest := SplitLines(text[1..]);
      if text[0] == '\n' then [""] + rest else [[text[0]] + rest[0]] + rest[1..]
  }

  function JoinLines(lines: seq<string>): string
    requires lines != []
  {
    if |lines| == 1 then lines[0] else lines[0] + "\n" + JoinLines(lines[1..])
  }

  /** Splitting loses nothing: joining the lines gives the text, and no line holds a newline. */
  lemma {:induction false} JoinSplit(text: string)
    ensures JoinLines(SplitLines(text)) == text
    ensures forall line :: line in SplitLines(text) ==> '\n' !in line
  {
    if text != "" {
      JoinSplit(text[1..]);
      var rest := SplitLines(text[1..]);
      assert rest == [rest[0]] + rest[1..];
      assert text == [text[0]] + text[1..];
      var lines := SplitLines(text);
      if text[0] == '\n' {
        assert lines[1..] == rest;
      } else {
        assert lines[1..] == rest[1..];
        assert JoinLines(lines) == [text[0]] + JoinLines(rest);
      }
    }
  }

  /** Lines without newlines survive a join: splitting is the exact inverse. */
  lemma {:induction false} SplitJoin(lines: seq<string>)
    requires lines != [] && forall line :: line in lines ==> '\n' !in line
    ensures SplitLines(JoinLines(lines)) == lines
    decreases |lines|, |lines[0]|
  {
    if lines[0] != "" {
      var line := lines[0];
      assert line in lines;
      assert forall i :: 0 <= i < |line| ==> line[i] in line;
      var shorter := [line[1..]] + lines[1..];
      forall l | l in shorter ensures '\n' !in l {
        if l == line[1..] { } else { assert l in lines; }
      }
      SplitJoin(shorter);
      assert shorter[1..] == lines[1..];
      assert line == [line[0]] + line[1..];
      assert JoinLines(lines) == [line[0]] + JoinLines(shorter);
      assert JoinLines(lines)[1..] == JoinLines(shorter);
    } else if |lines| > 1 {
      SplitJoin(lines[1..]);
      assert JoinLines(lines) == "\n" + JoinLines(lines[1..]);
      assert JoinLines(lines)[1..] == JoinLines(lines[1..]);
    }
  }

  /** The whole comparison: splitting, patching any region that patches the lines, and joining gives the other text. */
  lemma PatchedTextIsAfter(before: string, after: string, r: Region)
    requires Patches(SplitLines(before), SplitLines(after), r)
    ensures JoinLines(Replace(SplitLines(before), r.beforeStart, |r.before|, r.after)) == after
  {
    JoinSplit(after);
  }
}
