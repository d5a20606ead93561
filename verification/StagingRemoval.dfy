/** Which expired uploads can still be removed, and which are there for ever. */
module StagingRemoval {
  import opened Collections
  import opened OrderedMaps
  import opened StagingListing
  import opened StagingProtocol

  /** Some run removes the upload row. */
  ghost predicate Removable(c: Config, s: State, u: string) {
    exists steps, s' :: Runs(c, s, steps, s') && u !in s'.uploads
  }

  /** The pass has the upload in its list and may still claim it. */
  ghost predicate Waits(c: Config, s: State, p: nat, u: string) {
    && p in s.passes && Claimable(c, s, s.passes[p].now, u)
    && IsListed(s.passes[p].todo, u)
  }

  ghost predicate InHand(c: Config, s: State, u: string) {
    exists p :: Holds(s, p, u) || Waits(c, s, p, u)
  }

  /** No file row left to be listed by, and no pass that holds it or may still claim it. */
  ghost predicate Doomed(c: Config, s: State, u: string) {
    u in s.uploads && !HasFile(s.rows, u) && !InHand(c, s, u)
  }

  ghost function DoomedAhead(c: Config, s: State, u: string): (doomed: set<string>)
    requires u in s.uploads
  {
    set v | v in Ahead(s.uploads, u) && Doomed(c, s, v)
  }

  /** Not in hand, and not to be listed: no file row, or the limit is used up by doomed uploads ahead of it. */
  ghost predicate Blocked(c: Config, s: State, u: string) {
    && u in s.uploads && !InHand(c, s, u)
    && (HasFile(s.rows, u) ==> |DoomedAhead(c, s, u)| >= c.limit)
  }

  // ---------- blocked for good ----------

  /** The upload's file rows are the same, and it lost no object. */
  ghost predicate KeepsFiles(s: State, s': State, u: string) {
    && (forall key: FileKey :: key.upload == u ==> (key in s'.rows <==> key in s.rows))
    && (forall key :: key in s.objects && key.upload == u ==> key in s'.objects)
  }

  /** Nothing but a listing brings an upload into a hand, and nothing changes it otherwise. */
  lemma OutOfHandStays(c: Config, s: State, step: Step, u: string)
    requires Safe(c, s) && Enabled(c, s, step) && u in s.uploads && !InHand(c, s, u)
    requires step.List? ==> !IsListed(step.listed, u)
    ensures var s' := Take(c, s, step);
            && u in s'.uploads && s'.uploads[u] == s.uploads[u] && !InHand(c, s', u)
            && KeepsFiles(s, s', u)
  {
    var s' := Take(c, s, step);
    assert forall p :: !Holds(s, p, u) && !Waits(c, s, p, u);
    OutOfHandUnchanged(c, s, step, u);
    forall p ensures !Holds(s', p, u) && !Waits(c, s', p, u) {
      if p in s.passes {
        assert !Holds(s, p, u) && !Waits(c, s, p, u);
        NoNewHand(c, s, step, u, p);
      }
    }
  }

  lemma OutOfHandUnchanged(c: Config, s: State, step: Step, u: string)
    requires Safe(c, s) && Enabled(c, s, step) && u in s.uploads && forall p :: !Holds(s, p, u) && !Waits(c, s, p, u)
    ensures var s' := Take(c, s, step);
            && u in s'.uploads && s'.uploads[u] == s.uploads[u]
            && KeepsFiles(s, s', u)
  {
    if step.Claim? {
      assert !Waits(c, s, step.p, u);
      if s.passes[step.p].todo[0].upload == u { assert IsListed(s.passes[step.p].todo, u); }
    }
    if step.RemoveObject? || step.RemoveRow? || step.RemoveUpload? || step.Release? {
      assert !Holds(s, step.p, u);
    }
  }

  lemma NoNewHand(c: Config, s: State, step: Step, u: string, p: nat)
    requires Enabled(c, s, step) && p in s.passes && !Holds(s, p, u) && !Waits(c, s, p, u)
    requires u in s.uploads && u in Take(c, s, step).uploads && Take(c, s, step).uploads[u] == s.uploads[u]
    requires step.List? ==> !IsListed(step.listed, u)
    ensures !Holds(Take(c, s, step), p, u) && !Waits(c, Take(c, s, step), p, u)
  {
    var s' := Take(c, s, step);
    if step.Claim? && step.p == p && s.passes[p].todo[0].upload == u {
      assert IsListed(s.passes[p].todo, u);
    }
    if p in s'.passes && IsListed(s'.passes[p].todo, u) && !(step.List? && step.p == p) {
      var l :| l in s'.passes[p].todo && l.upload == u;
      assert l in s.passes[p].todo;
    }
  }

  lemma DoomedStays(c: Config, s: State, step: Step, u: string)
    requires Safe(c, s) && Enabled(c, s, step) && Doomed(c, s, u)
    ensures Doomed(c, Take(c, s, step), u) && Take(c, s, step).uploads[u] == s.uploads[u]
  {
    if step.List? { DoomedIsNotListed(c, s, step, u); }
    OutOfHandStays(c, s, step, u);
  }

  lemma DoomedIsNotListed(c: Config, s: State, step: Step, u: string)
    requires Enabled(c, s, step) && step.List? && !HasFile(s.rows, u)
    ensures !IsListed(step.listed, u)
  {
    forall l | l in step.listed ensures l.upload != u {
      assert ListsFiles(s.rows, l);
      assert l.files[0] in l.files;
    }
  }

  /** An upload behind as many doomed ones as the limit is never listed. */
  lemma BlockedIsNotListed(c: Config, s: State, step: Step, u: string)
    requires Enabled(c, s, step) && step.List? && Blocked(c, s, u)
    ensures !IsListed(step.listed, u)
  {
    if !HasFile(s.rows, u) {
      DoomedIsNotListed(c, s, step, u);
    } else {
      SubsetSize(DoomedAhead(c, s, u), Ahead(s.uploads, u));
    }
  }

  lemma BlockedStays(c: Config, s: State, step: Step, u: string)
    requires Safe(c, s) && Enabled(c, s, step) && Blocked(c, s, u)
    ensures Blocked(c, Take(c, s, step), u)
    ensures forall key :: key in s.objects && key.upload == u ==> key in Take(c, s, step).objects
  {
    var s' := Take(c, s, step);
    if step.List? { BlockedIsNotListed(c, s, step, u); }
    OutOfHandStays(c, s, step, u);
    forall v | v in DoomedAhead(c, s, u) ensures v in DoomedAhead(c, s', u) {
      DoomedStays(c, s, step, v);
    }
    SubsetSize(DoomedAhead(c, s, u), DoomedAhead(c, s', u));
    if HasFile(s'.rows, u) {
      var key :| key in s'.rows && key.upload == u;
      assert key in s.rows;
    }
  }

  /** A blocked upload is there for ever, with whatever objects it has. */
  lemma {:induction false} BlockedForGood(c: Config, s: State, steps: seq<Step>, s': State, u: string)
    requires Safe(c, s) && Blocked(c, s, u) && Runs(c, s, steps, s')
    ensures Blocked(c, s', u)
    ensures forall key :: key in s.objects && key.upload == u ==> key in s'.objects
    decreases |steps|
  {
    if steps != [] {
      BlockedStays(c, s, steps[0], u);
      StepKeepsSafe(c, s, steps[0]);
      BlockedForGood(c, Take(c, s, steps[0]), steps[1..], s', u);
    }
  }

  // ---------- one pass finishes its work ----------

  lemma {:induction false} RunsConcat(c: Config, s: State, a: seq<Step>, mid: State, b: seq<Step>, s': State)
    requires Runs(c, s, a, mid) && Runs(c, mid, b, s')
    ensures Runs(c, s, a + b, s')
    decreases |a|
  {
    if a == [] {
      assert a + b == b;
    } else {
      assert (a + b)[1..] == a[1..] + b;
      RunsConcat(c, Take(c, s, a[0]), a[1..], mid, b, s');
    }
  }

  lemma RunsCons(c: Config, s: State, step: Step, rest: seq<Step>, s': State)
    requires Enabled(c, s, step) && Runs(c, Take(c, s, step), rest, s')
    ensures Runs(c, s, [step] + rest, s')
  {
    assert ([step] + rest)[1..] == rest;
  }

  /** What is left of the store after one pass worked alone: some uploads are gone with their file rows. */
  ghost predicate Cleared(s: State, p: nat, s': State) {
    && p in s.passes && p in s'.passes && s'.passes[p].now == s.passes[p].now
    && (forall q :: q != p ==> (q in s'.passes <==> q in s.passes))
    && (forall q :: q in s.passes && q != p ==> s'.passes[q] == s.passes[q])
    && (forall v :: v in s'.uploads ==> v in s.uploads && s'.uploads[v] == s.uploads[v])
    && (forall key :: key in s'.rows ==> key in s.rows)
    && (forall key :: key in s.rows && key.upload in s'.uploads ==> key in s'.rows)
  }

  lemma ClearedTwice(s: State, p: nat, mid: State, s': State)
    requires Cleared(s, p, mid) && Cleared(mid, p, s')
    ensures Cleared(s, p, s')
  {
  }

  /** A pass that holds an upload can remove it. */
  lemma {:induction false} FinishHolding(c: Config, s: State, p: nat) returns (steps: seq<Step>, s': State)
    requires p in s.passes && s.passes[p].holding.Some?
    requires var h := s.passes[p].holding.value;
             h.done <= |h.listed.files| && (h.objectGone ==> h.done < |h.listed.files|)
    ensures Runs(c, s, steps, s') && Cleared(s, p, s')
    ensures s'.passes[p] == s.passes[p].(holding := None)
    ensures s.passes[p].holding.value.listed.upload !in s'.uploads
    decreases |s.passes[p].holding.value.listed.files| - s.passes[p].holding.value.done,
              !s.passes[p].holding.value.objectGone
  {
    var h := s.passes[p].holding.value;
    var step := if h.done == |h.listed.files| then RemoveUpload(p)
                else if h.objectGone then RemoveRow(p) else RemoveObject(p);
    var mid, rest := Take(c, s, step), [];
    s' := mid;
    if step.RemoveUpload? {
      assert Runs(c, mid, [], s');
    } else {
      rest, s' := FinishHolding(c, mid, p);
    }
    RunsCons(c, s, step, rest, s');
    steps := [step] + rest;
  }

  /** A pass that holds nothing can work off its list: everything it may claim is removed. */
  lemma {:induction false} WorkOff(c: Config, s: State, p: nat) returns (steps: seq<Step>, s': State)
    requires p in s.passes && s.passes[p].holding.None?
    ensures Runs(c, s, steps, s') && Cleared(s, p, s')
    ensures s'.passes[p].todo == [] && s'.passes[p].holding.None?
    ensures forall u :: Waits(c, s, p, u) ==> u !in s'.uploads
    decreases |s.passes[p].todo|
  {
    var pass := s.passes[p];
    if pass.todo == [] {
      steps, s' := [], s;
      return;
    }
    var a, mid := ClaimFirst(c, s, p);
    var b;
    b, s' := WorkOff(c, mid, p);
    ClearedTwice(s, p, mid, s');
    RunsConcat(c, s, a, mid, b, s');
    steps := a + b;
    forall v | Waits(c, s, p, v) ensures v !in s'.uploads {
      if v in mid.uploads { StillWaits(c, s, p, mid, v); }
    }
  }

  lemma StillWaits(c: Config, s: State, p: nat, mid: State, u: string)
    requires Cleared(s, p, mid) && s.passes[p].todo != [] && Waits(c, s, p, u) && u in mid.uploads
    requires mid.passes[p] == s.passes[p].(todo := s.passes[p].todo[1..]) && s.passes[p].todo[0].upload != u
    ensures Waits(c, mid, p, u)
  {
    var l :| l in s.passes[p].todo && l.upload == u;
    assert l in mid.passes[p].todo;
  }

  /** The first upload of the list is claimed and removed, or skipped if it may not be claimed. */
  lemma ClaimFirst(c: Config, s: State, p: nat) returns (steps: seq<Step>, s': State)
    requires p in s.passes && s.passes[p].holding.None? && s.passes[p].todo != []
    ensures Runs(c, s, steps, s') && Cleared(s, p, s')
    ensures s'.passes[p] == s.passes[p].(todo := s.passes[p].todo[1..])
    ensures Claimable(c, s, s.passes[p].now, s.passes[p].todo[0].upload) ==> s.passes[p].todo[0].upload !in s'.uploads
  {
    var pass := s.passes[p];
    var l := pass.todo[0];
    var step := if Claimable(c, s, pass.now, l.upload) then Claim(p) else SkipUpload(p);
    var mid, rest := Take(c, s, step), [];
    s' := mid;
    if step.Claim? {
      rest, s' := FinishHolding(c, mid, p);
    } else {
      assert Runs(c, mid, [], s');
    }
    RunsCons(c, s, step, rest, s');
    steps := [step] + rest;
  }

  /** A pass with anything in hand can remove all of it. */
  lemma FinishPass(c: Config, s: State, p: nat) returns (steps: seq<Step>, s': State)
    requires Safe(c, s) && p in s.passes
    ensures Runs(c, s, steps, s') && Cleared(s, p, s')
    ensures s'.passes[p].todo == [] && s'.passes[p].holding.None?
    ensures forall u :: Holds(s, p, u) || Waits(c, s, p, u) ==> u !in s'.uploads
  {
    assert PassSettled(c, s, s.passes[p]);
    var a, mid := [], s;
    if s.passes[p].holding.Some? {
      a, mid := FinishHolding(c, s, p);
    }
    var b;
    b, s' := WorkOff(c, mid, p);
    ClearedTwice(s, p, mid, s');
    RunsConcat(c, s, a, mid, b, s');
    steps := a + b;
    forall u | Holds(s, p, u) || Waits(c, s, p, u) ensures u !in s'.uploads {
      if u in s'.uploads && Waits(c, s, p, u) {
        assert Waits(c, mid, p, u);
      }
    }
  }

  /** Finishing a pass dooms nothing that stays. */
  lemma FinishedDoomsNothing(c: Config, s: State, p: nat, s': State, u: string)
    requires Cleared(s, p, s') && s'.passes[p].todo == [] && s'.passes[p].holding.None?
    requires forall v :: Holds(s, p, v) || Waits(c, s, p, v) ==> v !in s'.uploads
    requires u in s'.uploads
    ensures HasFile(s'.rows, u) <==> HasFile(s.rows, u)
    ensures DoomedAhead(c, s', u) <= DoomedAhead(c, s, u)
  {
    FilesStay(s, p, s', u);
    forall v | v in DoomedAhead(c, s', u) ensures v in DoomedAhead(c, s, u) {
      FilesStay(s, p, s', v);
      forall q ensures !Holds(s, q, v) && !Waits(c, s, q, v) {
        assert !Holds(s', q, v) && !Waits(c, s', q, v);
      }
    }
  }

  lemma FilesStay(s: State, p: nat, s': State, u: string)
    requires Cleared(s, p, s') && u in s'.uploads
    ensures HasFile(s'.rows, u) <==> HasFile(s.rows, u)
  {
    if HasFile(s.rows, u) {
      var key :| key in s.rows && key.upload == u;
      assert key in s'.rows;
    }
    if HasFile(s'.rows, u) {
      var key :| key in s'.rows && key.upload == u;
      assert key in s.rows;
    }
  }

  // ---------- a new pass ----------

  /** An instant after every expiry and every claim. */
  lemma {:induction false} AfterEverything(uploads: Uploads, some: set<string>) returns (t: int)
    requires some <= uploads.Keys
    ensures forall u :: u in some ==>
      uploads[u].expiresAt <= t && (uploads[u].claimedAt.Some? ==> uploads[u].claimedAt.value <= t)
    decreases some
  {
    t := 0;
    if some != {} {
      var u :| u in some;
      t := AfterEverything(uploads, some - {u});
      if uploads[u].expiresAt > t { t := uploads[u].expiresAt; }
      if uploads[u].claimedAt.Some? && uploads[u].claimedAt.value > t { t := uploads[u].claimedAt.value; }
    }
  }

  lemma {:induction false} UnusedPass(some: set<nat>) returns (p: nat)
    ensures forall q :: q in some ==> q < p
    decreases some
  {
    p := 0;
    if some != {} {
      var q :| q in some;
      var above := UnusedPass(some - {q});
      p := if q >= above then q + 1 else above;
      assert forall r :: r in some ==> r == q || r in some - {q};
    }
  }

  /** A pass begun late enough may claim whatever it lists, and lists by file rows within the limit. */
  lemma FreshPass(c: Config, s: State) returns (steps: seq<Step>, s': State, p: nat)
    requires Safe(c, s) && c.limit > 0
    ensures Runs(c, s, steps, s') && s'.uploads == s.uploads && s'.rows == s.rows
    ensures p !in s.passes && p in s'.passes
    ensures forall q :: q in s.passes ==> q in s'.passes && s'.passes[q] == s.passes[q]
    ensures forall u :: u in s.uploads && HasFile(s.rows, u) && |Ahead(s.uploads, u)| < c.limit ==> Waits(c, s', p, u)
  {
    var t := AfterEverything(s.uploads, s.uploads.Keys);
    p := UnusedPass(s.passes.Keys);
    var elapsed := if t + c.settle > s.now then t + c.settle - s.now else 0;
    var now := s.now + elapsed;
    var listed := ListingExists(s.uploads, s.rows, now - c.settle, c.limit);
    var s1 := Take(c, s, Tick(elapsed));
    var s2 := Take(c, s1, StartPass(p));
    s' := Take(c, s2, List(p, c.limit, listed));
    RunsCons(c, s2, List(p, c.limit, listed), [], s');
    RunsCons(c, s1, StartPass(p), [List(p, c.limit, listed)], s');
    RunsCons(c, s, Tick(elapsed), [StartPass(p)] + [List(p, c.limit, listed)], s');
    steps := [Tick(elapsed)] + ([StartPass(p)] + [List(p, c.limit, listed)]);
    forall u | u in s.uploads && HasFile(s.rows, u) && |Ahead(s.uploads, u)| < c.limit ensures Waits(c, s', p, u) {
      assert Selected(s.uploads, now - c.settle, c.limit, u);
    }
  }

  /** More passes on the same store doom nothing. */
  lemma FreshPassDoomsNothing(c: Config, s: State, s': State, u: string)
    requires s'.uploads == s.uploads && s'.rows == s.rows && u in s.uploads
    requires forall q :: q in s.passes ==> q in s'.passes && s'.passes[q] == s.passes[q]
    ensures DoomedAhead(c, s', u) <= DoomedAhead(c, s, u)
  {
    forall v | v in DoomedAhead(c, s', u) ensures v in DoomedAhead(c, s, u) {
      forall q ensures !Holds(s, q, v) && !Waits(c, s, q, v) {
        assert !Holds(s', q, v) && !Waits(c, s', q, v);
      }
    }
  }

  // ---------- removable exactly when not blocked ----------

  /** One round towards `u`: something in hand, or the first upload that is not doomed, is removed. */
  lemma OneRound(c: Config, s: State, u: string) returns (steps: seq<Step>, s': State)
    requires Safe(c, s) && u in s.uploads && !Blocked(c, s, u)
    ensures Runs(c, s, steps, s') && s'.uploads.Keys < s.uploads.Keys
    ensures u in s'.uploads ==> !Blocked(c, s', u)
  {
    if v, p :| v in s.uploads && (v == u || v in Ahead(s.uploads, u)) && (Holds(s, p, v) || Waits(c, s, p, v)) {
      steps, s' := FinishPass(c, s, p);
      if u in s'.uploads { FinishedUnblocks(c, s, p, s', u); }
    } else {
      assert !InHand(c, s, u);
      var w := FirstUndoomed(c, s, u);
      var a, mid, p := FreshPass(c, s);
      FreshPassDoomsNothing(c, s, mid, u);
      RunKeepsSafe(c, s, a, mid);
      var b;
      b, s' := FinishPass(c, mid, p);
      RunsConcat(c, s, a, mid, b, s');
      steps := a + b;
      if u in s'.uploads { FinishedUnblocksAfter(c, s, mid, p, s', u); }
    }
  }

  /** With a file row and fewer doomed uploads ahead than the limit, `u` is still not blocked. */
  lemma StillOpen(c: Config, s: State, s': State, u: string)
    requires u in s.uploads && u in s'.uploads && HasFile(s'.rows, u)
    requires DoomedAhead(c, s', u) <= DoomedAhead(c, s, u) && |DoomedAhead(c, s, u)| < c.limit
    ensures !Blocked(c, s', u)
  {
    SubsetSize(DoomedAhead(c, s', u), DoomedAhead(c, s, u));
  }

  lemma FinishedUnblocks(c: Config, s: State, p: nat, s': State, u: string)
    requires Cleared(s, p, s') && s'.passes[p].todo == [] && s'.passes[p].holding.None?
    requires forall v :: Holds(s, p, v) || Waits(c, s, p, v) ==> v !in s'.uploads
    requires u in s'.uploads && !Blocked(c, s, u)
    ensures !Blocked(c, s', u)
  {
    FinishedDoomsNothing(c, s, p, s', u);
    if InHand(c, s, u) {
      var q :| Holds(s, q, u) || Waits(c, s, q, u);
      assert Holds(s', q, u) || Waits(c, s', q, u);
    } else {
      StillOpen(c, s, s', u);
    }
  }

  lemma FinishedUnblocksAfter(c: Config, s: State, mid: State, p: nat, s': State, u: string)
    requires u in s.uploads && !Blocked(c, s, u) && !InHand(c, s, u)
    requires mid.uploads == s.uploads && mid.rows == s.rows && DoomedAhead(c, mid, u) <= DoomedAhead(c, s, u)
    requires Cleared(mid, p, s') && s'.passes[p].todo == [] && s'.passes[p].holding.None?
    requires forall v :: Holds(mid, p, v) || Waits(c, mid, p, v) ==> v !in s'.uploads
    requires u in s'.uploads
    ensures !Blocked(c, s', u)
  {
    FinishedDoomsNothing(c, mid, p, s', u);
    StillOpen(c, s, s', u);
  }

  /** Of `u` and the uploads ahead of it that are not doomed, the first has only doomed ones ahead. */
  lemma FirstUndoomed(c: Config, s: State, u: string) returns (w: string)
    requires u in s.uploads && !Blocked(c, s, u)
    requires forall v :: v == u || v in Ahead(s.uploads, u) ==> !InHand(c, s, v)
    ensures w in s.uploads && HasFile(s.rows, w) && |Ahead(s.uploads, w)| < c.limit
  {
    var undoomed := set v | v in Ahead(s.uploads, u) && !Doomed(c, s, v);
    if undoomed == {} {
      w := u;
      forall v | v in Ahead(s.uploads, u) ensures v in DoomedAhead(c, s, u) {
        assert v in undoomed <==> !Doomed(c, s, v);
      }
      SubsetSize(Ahead(s.uploads, u), DoomedAhead(c, s, u));
    } else {
      w := First(s.uploads, undoomed);
      AheadIsTransitive(s.uploads, w, u);
      forall v | v in Ahead(s.uploads, w) ensures v in DoomedAhead(c, s, u) {
        assert v in Ahead(s.uploads, u);
        assert v in undoomed <==> !Doomed(c, s, v);
        assert v !in Ahead(s.uploads, w) * undoomed;
      }
      SubsetSize(Ahead(s.uploads, w), DoomedAhead(c, s, u));
    }
  }

  lemma {:induction false} OpenIsRemovable(c: Config, s: State, u: string) returns (steps: seq<Step>, s': State)
    requires Safe(c, s) && u in s.uploads && !Blocked(c, s, u)
    ensures Runs(c, s, steps, s') && u !in s'.uploads
    decreases s.uploads.Keys
  {
    steps, s' := OneRound(c, s, u);
    if u in s'.uploads {
      var mid, a := s', steps;
      RunKeepsSafe(c, s, a, mid);
      var b;
      b, s' := OpenIsRemovable(c, mid, u);
      RunsConcat(c, s, a, mid, b, s');
      steps := a + b;
    }
  }

  /**
   * In every reachable state, some run removes an upload exactly when it is not blocked: a pass holds it, a pass that
   * lists it may still claim it, or it has a file row and fewer doomed uploads ahead of it than the limit.
   */
  lemma RemovableIffNotBlocked(c: Config, s: State, u: string)
    requires Safe(c, s) && u in s.uploads
    ensures Removable(c, s, u) <==>
              InHand(c, s, u) || (HasFile(s.rows, u) && |DoomedAhead(c, s, u)| < c.limit)
  {
    if Blocked(c, s, u) {
      forall steps, s' | Runs(c, s, steps, s') ensures u in s'.uploads {
        BlockedForGood(c, s, steps, s', u);
      }
    } else {
      var steps, s' := OpenIsRemovable(c, s, u);
    }
  }

  // ---------- stops ----------

  /** A pass ends its work on the upload it holds without removing it. */
  predicate IsStop(step: Step) {
    step.Crash? || step.Release? || step.LoseRelease?
  }

  /** The claim a stop leaves behind: a release dates it back a settle delay if it is still the pass's own. */
  function ClaimLeft(c: Config, s: State, step: Step, u: string): (claim: Option<int>)
    requires IsStop(step) && step.p in s.passes && u in s.uploads
  {
    if step.Release? && s.uploads[u].claimedAt == Some(s.passes[step.p].now)
    then Some(s.passes[step.p].now - c.settle) else s.uploads[u].claimedAt
  }

  /** A pass that lists the upload, begun late enough to claim it over `claim`. */
  predicate LateEnough(c: Config, s: State, q: nat, u: string, claim: Option<int>)
    requires q in s.passes && u in s.uploads
  {
    && s.uploads[u].expiresAt <= s.passes[q].now - c.settle
    && (claim.Some? ==> claim.value <= s.passes[q].now - c.settle)
  }

  /** Somebody else holds the upload, or a pass that goes on lists it and began late enough. */
  ghost predicate LeftInHand(c: Config, s: State, step: Step, u: string)
    requires IsStop(step) && step.p in s.passes && u in s.uploads
  {
    || (exists q :: q != step.p && Holds(s, q, u))
    || (exists q :: q in s.passes && (step.Crash? ==> q != step.p) && IsListed(s.passes[q].todo, u)
          && LateEnough(c, s, q, u, ClaimLeft(c, s, step, u)))
  }

  lemma InHandAfterStop(c: Config, s: State, step: Step, u: string)
    requires Enabled(c, s, step) && IsStop(step) && Holds(s, step.p, u) && u in s.uploads
    ensures InHand(c, Take(c, s, step), u) <==> LeftInHand(c, s, step, u)
  {
    var s' := Take(c, s, step);
    forall q ensures Holds(s', q, u) <==> q != step.p && Holds(s, q, u) { }
    forall q
      ensures Waits(c, s', q, u) <==>
              && q in s.passes && (step.Crash? ==> q != step.p) && IsListed(s.passes[q].todo, u)
              && LateEnough(c, s, q, u, ClaimLeft(c, s, step, u))
    {
    }
  }

  /**
   * Exactly which stops strand the upload a pass holds, by a crash, a release or a lost release: those that leave it
   * in nobody's hand, with its last file row gone or behind as many doomed uploads as the limit.
   */
  lemma StopStrandsIff(c: Config, s: State, step: Step, u: string)
    requires Safe(c, s) && Enabled(c, s, step) && IsStop(step) && Holds(s, step.p, u) && u in s.uploads
    ensures !Removable(c, Take(c, s, step), u) <==>
              && !LeftInHand(c, s, step, u)
              && (HasFile(s.rows, u) ==> |DoomedAhead(c, Take(c, s, step), u)| >= c.limit)
  {
    StepKeepsSafe(c, s, step);
    InHandAfterStop(c, s, step, u);
    RemovableIffNotBlocked(c, Take(c, s, step), u);
  }

  // ---------- the failing inputs ----------

  lemma RunsTwo(c: Config, s: State, a: Step, b: Step)
    requires Enabled(c, s, a) && Enabled(c, Take(c, s, a), b)
    ensures Runs(c, s, [a, b], Take(c, Take(c, s, a), b))
  {
    assert [a, b][1..] == [b] && [b][1..] == [];
  }

  const FIRST := FileKey("u", "t")

  /** The first pass, begun a settle delay after the upload `u` expired. */
  function FirstPass(c: Config, listed: bool, todo: seq<Listed>, holding: Option<Holding>): Pass {
    Pass(c.settle, listed, todo, holding)
  }

  function WithUpload(c: Config, claim: Option<int>, rows: set<FileKey>, passes: map<nat, Pass>): State {
    State(c.settle, {"u"}, map["u" := Upload(0, claim)], rows, {}, passes)
  }

  lemma OnlyListing(c: Config)
    requires c.limit > 0
    ensures Lists(map["u" := Upload(0, None)], {FIRST}, 0, c.limit, [Listed("u", ["t"])])
  {
    var uploads := map["u" := Upload(0, None)];
    PrecedesIsStrict(uploads, "u", "u");
    assert Ahead(uploads, "u") == {};
    assert Listed("u", ["t"]) in [Listed("u", ["t"])];
  }

  lemma ExpiredUploadRun(c: Config) returns (s: State)
    ensures Initial(s)
    ensures Runs(c, s, [CreateUpload("u", {"t"}, 0), Tick(c.settle)], WithUpload(c, None, {FIRST}, map[]))
  {
    s := State(0, {}, map[], {}, {}, map[]);
    assert Take(c, s, CreateUpload("u", {"t"}, 0)).rows == {FIRST};
    RunsTwo(c, s, CreateUpload("u", {"t"}, 0), Tick(c.settle));
  }

  lemma ListedRun(c: Config)
    requires c.limit > 0
    ensures Runs(c, WithUpload(c, None, {FIRST}, map[]), [StartPass(0), List(0, c.limit, [Listed("u", ["t"])])],
                 WithUpload(c, None, {FIRST}, map[0 := FirstPass(c, true, [Listed("u", ["t"])], None)]))
  {
    OnlyListing(c);
    RunsTwo(c, WithUpload(c, None, {FIRST}, map[]), StartPass(0), List(0, c.limit, [Listed("u", ["t"])]));
  }

  lemma ClaimedRun(c: Config)
    ensures Runs(c, WithUpload(c, None, {FIRST}, map[0 := FirstPass(c, true, [Listed("u", ["t"])], None)]),
                 [Claim(0), RemoveObject(0)],
                 WithUpload(c, Some(c.settle), {FIRST},
                            map[0 := FirstPass(c, true, [], Some(Holding(Listed("u", ["t"]), 0, true)))]))
  {
    var s := WithUpload(c, None, {FIRST}, map[0 := FirstPass(c, true, [Listed("u", ["t"])], None)]);
    var mid := Take(c, s, Claim(0));
    assert mid.passes[0] == FirstPass(c, true, [], Some(Holding(Listed("u", ["t"]), 0, false)));
    RunsTwo(c, s, Claim(0), RemoveObject(0));
  }

  lemma StoppedRun(c: Config)
    ensures Runs(c, WithUpload(c, Some(c.settle), {FIRST},
                               map[0 := FirstPass(c, true, [], Some(Holding(Listed("u", ["t"]), 0, true)))]),
                 [RemoveRow(0), Crash(0)], WithUpload(c, Some(c.settle), {}, map[]))
  {
    var s := WithUpload(c, Some(c.settle), {FIRST},
                        map[0 := FirstPass(c, true, [], Some(Holding(Listed("u", ["t"]), 0, true)))]);
    RunsTwo(c, s, RemoveRow(0), Crash(0));
  }

  /** One file, one pass, stopped between the removals of the file row and the upload row. */
  lemma StrandingRun(c: Config) returns (s: State, steps: seq<Step>)
    requires c.limit > 0
    ensures Initial(s) && Runs(c, s, steps, WithUpload(c, Some(c.settle), {}, map[]))
  {
    s := ExpiredUploadRun(c);
    ListedRun(c);
    ClaimedRun(c);
    StoppedRun(c);
    var s1 := WithUpload(c, None, {FIRST}, map[]);
    var s2 := WithUpload(c, None, {FIRST}, map[0 := FirstPass(c, true, [Listed("u", ["t"])], None)]);
    var s3 := WithUpload(c, Some(c.settle), {FIRST},
                         map[0 := FirstPass(c, true, [], Some(Holding(Listed("u", ["t"]), 0, true)))]);
    var s4 := WithUpload(c, Some(c.settle), {}, map[]);
    var a := [CreateUpload("u", {"t"}, 0), Tick(c.settle)];
    var b := [StartPass(0), List(0, c.limit, [Listed("u", ["t"])])];
    RunsConcat(c, s, a, s1, b, s2);
    RunsConcat(c, s, a + b, s2, [Claim(0), RemoveObject(0)], s3);
    RunsConcat(c, s, a + b + [Claim(0), RemoveObject(0)], s3, [RemoveRow(0), Crash(0)], s4);
    steps := a + b + [Claim(0), RemoveObject(0)] + [RemoveRow(0), Crash(0)];
  }

  /** A stop strands an upload row: it is reachable, and no later run removes it. */
  lemma AStopStrands(c: Config)
    requires c.limit > 0
    ensures exists s, steps, s' :: Initial(s) && Runs(c, s, steps, s') && "u" in s'.uploads && !Removable(c, s', "u")
  {
    var s, steps := StrandingRun(c);
    var s' := WithUpload(c, Some(c.settle), {}, map[]);
    RunKeepsSafe(c, s, steps, s');
    assert !InHand(c, s', "u");
    RemovableIffNotBlocked(c, s', "u");
  }

  /**
   * One stranded row blocks a pass with limit 1 for good: another expired upload keeps its row, its file and its
   * object through every later run.
   */
  lemma AStrandedRowBlocks(c: Config)
    requires c.limit == 1
    ensures exists s, steps, s' ::
      && Initial(s) && Runs(c, s, steps, s')
      && FileKey("v", "t") in s'.objects && HasFile(s'.rows, "v") && "v" in s'.uploads
      && forall later, s'' :: Runs(c, s', later, s'') ==> "v" in s''.uploads && FileKey("v", "t") in s''.objects
  {
    var s, a := StrandingRun(c);
    var mid := WithUpload(c, Some(c.settle), {}, map[]);
    var key := FileKey("v", "t");
    var b, s' := SecondUploadRun(c, mid);
    RunsConcat(c, s, a, mid, b, s');
    RunKeepsSafe(c, s, a + b, s');
    BehindAStrandedRow(c, s');
    forall later, s'' | Runs(c, s', later, s'') ensures "v" in s''.uploads && key in s''.objects {
      BlockedForGood(c, s', later, s'', "v");
    }
    assert HasFile(s'.rows, "v");
  }

  lemma SecondUploadRun(c: Config, s: State) returns (steps: seq<Step>, s': State)
    requires s == WithUpload(c, Some(c.settle), {}, map[])
    ensures Runs(c, s, steps, s') && FileKey("v", "t") in s'.objects && s'.passes == map[]
    ensures s'.rows == {FileKey("v", "t")}
    ensures s'.uploads == map["u" := Upload(0, Some(c.settle)), "v" := Upload(c.settle + 1, None)]
  {
    var create, put := CreateUpload("v", {"t"}, c.settle + 1), PutObject(FileKey("v", "t"));
    assert Take(c, s, create).rows == {FileKey("v", "t")};
    RunsTwo(c, s, create, put);
    steps, s' := [create, put], Take(c, Take(c, s, create), put);
  }

  lemma BehindAStrandedRow(c: Config, s: State)
    requires c.limit == 1 && s.passes == map[] && s.rows == {FileKey("v", "t")}
    requires s.uploads == map["u" := Upload(0, Some(c.settle)), "v" := Upload(c.settle + 1, None)]
    ensures Blocked(c, s, "v")
  {
    assert !InHand(c, s, "u") && !InHand(c, s, "v");
    assert Doomed(c, s, "u");
    assert "u" in DoomedAhead(c, s, "v");
    SubsetSize({"u"}, DoomedAhead(c, s, "v"));
  }
}
