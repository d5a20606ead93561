/**
 * Expired-staging cleanup as a protocol: any number of passes, started in any process and stopped anywhere,
 * interleave their claims, removals and releases with uploads being created and written.
 */
module StagingProtocol {
  import opened OrderedMaps
  import opened StagingListing

  /** The settle delay, and the largest limit a pass is run with. */
  datatype Config = Config(settle: nat, limit: nat)

  /** A claimed upload: `done` files are gone, and the next one's object is too when `objectGone`. */
  datatype Holding = Holding(listed: Listed, done: nat, objectGone: bool)

  /** A pass keeps the one clock reading it started with, and lists once. */
  datatype Pass = Pass(now: int, listed: bool, todo: seq<Listed>, holding: Option<Holding>)

  datatype State = State(
    now: int,
    created: set<string>,
    uploads: Uploads,
    rows: set<FileKey>,
    objects: set<FileKey>,
    passes: map<nat, Pass>)

  datatype Step =
    | Tick(elapsed: nat)
    | CreateUpload(upload: string, tokens: set<string>, expiresAt: int)
    | PutObject(key: FileKey)
    | StartPass(p: nat)
    | List(p: nat, limit: nat, listed: seq<Listed>)
    | Claim(p: nat)
    | SkipUpload(p: nat)
    | RemoveObject(p: nat)
    | RemoveRow(p: nat)
    | RemoveUpload(p: nat)
    | Release(p: nat)
    | LoseRelease(p: nat)
    | Crash(p: nat)

  ghost predicate Holds(s: State, p: nat, upload: string) {
    p in s.passes && s.passes[p].holding.Some? && s.passes[p].holding.value.listed.upload == upload
  }

  /** Open, expired a settle delay before the pass began, and not claimed since. */
  ghost predicate Claimable(c: Config, s: State, now: int, upload: string) {
    && upload in s.uploads
    && s.uploads[upload].expiresAt <= now - c.settle
    && (s.uploads[upload].claimedAt.Some? ==> s.uploads[upload].claimedAt.value <= now - c.settle)
  }

  ghost predicate Enabled(c: Config, s: State, step: Step) {
    match step
    case Tick(_) => true
    case CreateUpload(upload, _, _) => upload !in s.created
    // Writing stops at the upload's expiry; the settle delay covers a write still in flight.
    case PutObject(key) =>
      key in s.rows && key.upload in s.uploads && s.now < s.uploads[key.upload].expiresAt + c.settle
    case StartPass(p) => p !in s.passes
    case List(p, limit, listed) =>
      && p in s.passes && !s.passes[p].listed && 1 <= limit <= c.limit
      && Lists(s.uploads, s.rows, s.passes[p].now - c.settle, limit, listed)
    case Claim(p) =>
      && p in s.passes && s.passes[p].holding.None? && s.passes[p].todo != []
      && Claimable(c, s, s.passes[p].now, s.passes[p].todo[0].upload)
    // The claim is refused or fails, or a budget stop leaves the upload untouched.
    case SkipUpload(p) => p in s.passes && s.passes[p].holding.None? && s.passes[p].todo != []
    case RemoveObject(p) =>
      p in s.passes && s.passes[p].holding.Some? &&
      var h := s.passes[p].holding.value; h.done < |h.listed.files| && !h.objectGone
    case RemoveRow(p) =>
      p in s.passes && s.passes[p].holding.Some? &&
      var h := s.passes[p].holding.value; h.done < |h.listed.files| && h.objectGone
    case RemoveUpload(p) =>
      p in s.passes && s.passes[p].holding.Some? &&
      var h := s.passes[p].holding.value; h.done == |h.listed.files|
    case Release(p) => p in s.passes && s.passes[p].holding.Some?
    case LoseRelease(p) => p in s.passes && s.passes[p].holding.Some?
    case Crash(p) => p in s.passes
  }

  ghost function Take(c: Config, s: State, step: Step): State
    requires Enabled(c, s, step)
  {
    match step
    case Tick(elapsed) => s.(now := s.now + elapsed)
    case CreateUpload(upload, tokens, expiresAt) =>
      s.(created := s.created + {upload}, uploads := s.uploads[upload := Upload(expiresAt, None)],
         rows := s.rows + (set token | token in tokens :: FileKey(upload, token)))
    case PutObject(key) => s.(objects := s.objects + {key})
    case StartPass(p) => s.(passes := s.passes[p := Pass(s.now, false, [], None)])
    case List(p, _, listed) => s.(passes := s.passes[p := s.passes[p].(listed := true, todo := listed)])
    case Claim(p) =>
      var pass := s.passes[p];
      var l := pass.todo[0];
      s.(uploads := s.uploads[l.upload := s.uploads[l.upload].(claimedAt := Some(pass.now))],
         passes := s.passes[p := pass.(todo := pass.todo[1..], holding := Some(Holding(l, 0, false)))])
    case SkipUpload(p) => s.(passes := s.passes[p := s.passes[p].(todo := s.passes[p].todo[1..])])
    case RemoveObject(p) =>
      var pass := s.passes[p];
      var h := pass.holding.value;
      s.(objects := s.objects - {FileKey(h.listed.upload, h.listed.files[h.done])},
         passes := s.passes[p := pass.(holding := Some(h.(objectGone := true)))])
    case RemoveRow(p) =>
      var pass := s.passes[p];
      var h := pass.holding.value;
      s.(rows := s.rows - {FileKey(h.listed.upload, h.listed.files[h.done])},
         passes := s.passes[p := pass.(holding := Some(h.(done := h.done + 1, objectGone := false)))])
    case RemoveUpload(p) =>
      var upload := s.passes[p].holding.value.listed.upload;
      s.(rows := (set key | key in s.rows && key.upload != upload), uploads := s.uploads - {upload},
         passes := s.passes[p := s.passes[p].(holding := None)])
    case Release(p) =>
      var pass := s.passes[p];
      var upload := pass.holding.value.listed.upload;
      s.(uploads :=
           if upload in s.uploads && s.uploads[upload].claimedAt == Some(pass.now)
           then s.uploads[upload := s.uploads[upload].(claimedAt := Some(pass.now - c.settle))] else s.uploads,
         passes := s.passes[p := pass.(holding := None)])
    case LoseRelease(p) => s.(passes := s.passes[p := s.passes[p].(holding := None)])
    case Crash(p) => s.(passes := s.passes - {p})
  }

  ghost predicate Runs(c: Config, s: State, steps: seq<Step>, s': State)
    decreases |steps|
  {
    if steps == [] then s' == s
    else Enabled(c, s, steps[0]) && Runs(c, Take(c, s, steps[0]), steps[1..], s')
  }

  ghost predicate Initial(s: State) {
    s.created == {} && s.uploads == map[] && s.rows == {} && s.objects == {} && s.passes == map[]
  }

  // ---------- nothing is orphaned ----------

  /** What a crash must never break: a staged object can still be found through its rows. */
  ghost predicate NoOrphans(s: State) {
    && (forall key :: key in s.objects ==> key in s.rows)
    && (forall key :: key in s.rows ==> key.upload in s.uploads)
  }

  /** An upload nobody can write to any more, whose objects all have their token in `files` from `done` on. */
  ghost predicate Settled(c: Config, s: State, now: int, l: Listed, done: nat) {
    && done <= |l.files| && l.upload in s.created && now <= s.now
    && (l.upload in s.uploads ==> s.uploads[l.upload].expiresAt <= now - c.settle)
    && forall key :: key in s.objects && key.upload == l.upload ==> key.token in l.files[done..]
  }

  /** A holding whose remaining objects are settled, and whose current file has no object once it is gone. */
  ghost predicate HoldingSettled(c: Config, s: State, now: int, h: Holding) {
    && h.done <= |h.listed.files| && (h.objectGone ==> h.done < |h.listed.files|)
    && Settled(c, s, now, h.listed, if h.objectGone then h.done + 1 else h.done)
    && (h.objectGone ==> FileKey(h.listed.upload, h.listed.files[h.done]) !in s.objects)
  }

  ghost predicate PassSettled(c: Config, s: State, pass: Pass) {
    && pass.now <= s.now
    && (forall l :: l in pass.todo ==> Settled(c, s, pass.now, l, 0))
    && (pass.holding.Some? ==> HoldingSettled(c, s, pass.now, pass.holding.value))
  }

  ghost predicate Safe(c: Config, s: State) {
    && NoOrphans(s)
    && s.uploads.Keys <= s.created
    && forall p :: p in s.passes ==> PassSettled(c, s, s.passes[p])
  }

  /** No step makes a settled upload writable again or gives it an object. */
  lemma StaysSettled(c: Config, s: State, step: Step, now: int, l: Listed, done: nat)
    requires Safe(c, s) && Enabled(c, s, step) && Settled(c, s, now, l, done)
    ensures Settled(c, Take(c, s, step), now, l, done)
  {
  }

  lemma TodoStaysSettled(c: Config, s: State, step: Step, p: nat, l: Listed)
    requires Safe(c, s) && Enabled(c, s, step) && p in s.passes
    requires p in Take(c, s, step).passes && l in Take(c, s, step).passes[p].todo
    ensures Settled(c, Take(c, s, step), s.passes[p].now, l, 0)
  {
    assert PassSettled(c, s, s.passes[p]);
    if step.List? && step.p == p {
      assert Selected(s.uploads, s.passes[p].now - c.settle, step.limit, l.upload) && ListsFiles(s.rows, l);
      ListedIsSettled(c, s, s.passes[p].now, l);
    } else {
      assert l in s.passes[p].todo;
    }
    StaysSettled(c, s, step, s.passes[p].now, l, 0);
  }

  lemma PassStaysSettled(c: Config, s: State, step: Step, p: nat)
    requires Safe(c, s) && Enabled(c, s, step) && p in Take(c, s, step).passes
    ensures PassSettled(c, Take(c, s, step), Take(c, s, step).passes[p])
  {
    var s' := Take(c, s, step);
    if p in s.passes {
      assert PassSettled(c, s, s.passes[p]);
      forall l | l in s'.passes[p].todo ensures Settled(c, s', s'.passes[p].now, l, 0) {
        TodoStaysSettled(c, s, step, p, l);
      }
      if s'.passes[p].holding.Some? {
        HoldingStaysSettled(c, s, step, p);
      }
    }
  }

  lemma ListedIsSettled(c: Config, s: State, now: int, l: Listed)
    requires NoOrphans(s) && s.uploads.Keys <= s.created && now <= s.now
    requires l.upload in s.uploads && s.uploads[l.upload].expiresAt <= now - c.settle
    requires ListsFiles(s.rows, l)
    ensures Settled(c, s, now, l, 0)
  {
    assert l.files[0..] == l.files;
    forall key | key in s.objects && key.upload == l.upload ensures key.token in l.files[0..] {
      assert key == FileKey(l.upload, key.token);
    }
  }

  lemma RemovalStaysSettled(c: Config, s: State, step: Step, p: nat)
    requires Safe(c, s) && Enabled(c, s, step) && (step == RemoveObject(p) || step == RemoveRow(p))
    ensures HoldingSettled(c, Take(c, s, step), s.passes[p].now, Take(c, s, step).passes[p].holding.value)
  {
    assert PassSettled(c, s, s.passes[p]);
    var h := s.passes[p].holding.value;
    assert h.listed.files[h.done..] == [h.listed.files[h.done]] + h.listed.files[h.done + 1..];
  }

  lemma KeptStaysSettled(c: Config, s: State, step: Step, now: int, h: Holding)
    requires Safe(c, s) && Enabled(c, s, step) && HoldingSettled(c, s, now, h)
    ensures HoldingSettled(c, Take(c, s, step), now, h)
  {
    StaysSettled(c, s, step, now, h.listed, if h.objectGone then h.done + 1 else h.done);
  }

  lemma HoldingStaysSettled(c: Config, s: State, step: Step, p: nat)
    requires Safe(c, s) && Enabled(c, s, step) && p in s.passes
    requires p in Take(c, s, step).passes && Take(c, s, step).passes[p].holding.Some?
    ensures HoldingSettled(c, Take(c, s, step), s.passes[p].now, Take(c, s, step).passes[p].holding.value)
  {
    var pass := s.passes[p];
    assert PassSettled(c, s, pass);
    if step.Claim? && step.p == p {
      assert pass.todo[0] in pass.todo;
      StaysSettled(c, s, step, pass.now, pass.todo[0], 0);
    } else if step == RemoveObject(p) || step == RemoveRow(p) {
      RemovalStaysSettled(c, s, step, p);
    } else {
      KeptStaysSettled(c, s, step, pass.now, pass.holding.value);
    }
  }

  lemma StepKeepsSafe(c: Config, s: State, step: Step)
    requires Safe(c, s) && Enabled(c, s, step)
    ensures Safe(c, Take(c, s, step))
  {
    var s' := Take(c, s, step);
    forall p | p in s'.passes ensures PassSettled(c, s', s'.passes[p]) {
      PassStaysSettled(c, s, step, p);
    }
    if step.RemoveRow? || step.RemoveUpload? {
      assert PassSettled(c, s, s.passes[step.p]);
    }
  }

  lemma {:induction false} RunKeepsSafe(c: Config, s: State, steps: seq<Step>, s': State)
    requires Safe(c, s) && Runs(c, s, steps, s')
    ensures Safe(c, s')
    decreases |steps|
  {
    if steps != [] {
      StepKeepsSafe(c, s, steps[0]);
      RunKeepsSafe(c, Take(c, s, steps[0]), steps[1..], s');
    }
  }

  /** Crash safety: at every moment of every run, each staged object has its file row and its upload row. */
  lemma StagedObjectsKeepTheirRows(c: Config, s: State, steps: seq<Step>, s': State)
    requires Initial(s) && Runs(c, s, steps, s')
    ensures forall key :: key in s'.objects ==> key in s'.rows && key.upload in s'.uploads
  {
    RunKeepsSafe(c, s, steps, s');
  }

  // ---------- claims ----------

  /** The claim of an upload still there is at least as late as each of its holders. */
  ghost predicate ClaimCovers(s: State, p: nat, upload: string) {
    Holds(s, p, upload) ==>
      && upload in s.created
      && (upload in s.uploads ==>
            s.uploads[upload].claimedAt.Some? && s.passes[p].now <= s.uploads[upload].claimedAt.value)
  }

  /** Two holders of an upload still there began a settle delay apart. */
  ghost predicate HoldersApart(c: Config, s: State, p: nat, q: nat, upload: string) {
    p != q && Holds(s, p, upload) && Holds(s, q, upload) && upload in s.uploads ==>
      s.passes[p].now + c.settle <= s.passes[q].now || s.passes[q].now + c.settle <= s.passes[p].now
  }

  ghost predicate ClaimsApart(c: Config, s: State) {
    && (forall p, upload :: ClaimCovers(s, p, upload))
    && (forall p, q, upload :: HoldersApart(c, s, p, q, upload))
  }

  /** A holder was one before the step, unless the step is its claim. */
  lemma HolderBefore(c: Config, s: State, step: Step, p: nat, upload: string)
    requires Enabled(c, s, step) && Holds(Take(c, s, step), p, upload)
    ensures p in s.passes && Take(c, s, step).passes[p].now == s.passes[p].now
    ensures if step.Claim? && step.p == p then s.passes[p].todo[0].upload == upload else Holds(s, p, upload)
  {
  }

  lemma StepKeepsClaimCovers(c: Config, s: State, step: Step, p: nat, upload: string)
    requires Safe(c, s) && ClaimsApart(c, s) && Enabled(c, s, step)
    ensures ClaimCovers(Take(c, s, step), p, upload)
  {
    var s' := Take(c, s, step);
    if Holds(s', p, upload) {
      HolderBefore(c, s, step, p, upload);
      assert ClaimCovers(s, p, upload);
      if step.Claim? && step.p != p && s.passes[step.p].todo[0].upload == upload {
        HolderBeganEarlier(c, s, step.p, p);
      } else if step.Release? && Holds(s, step.p, upload) {
        assert HoldersApart(c, s, p, step.p, upload);
      }
    }
  }

  lemma StepKeepsHoldersApart(c: Config, s: State, step: Step, p: nat, q: nat, upload: string)
    requires Safe(c, s) && ClaimsApart(c, s) && Enabled(c, s, step)
    ensures HoldersApart(c, Take(c, s, step), p, q, upload)
  {
    var s' := Take(c, s, step);
    if p != q && Holds(s', p, upload) && Holds(s', q, upload) && upload in s'.uploads {
      HolderBefore(c, s, step, p, upload);
      HolderBefore(c, s, step, q, upload);
      assert HoldersApart(c, s, p, q, upload);
      assert ClaimCovers(s, p, upload) && ClaimCovers(s, q, upload);
      if step.Claim? && step.p == p { HolderBeganEarlier(c, s, p, q); }
      if step.Claim? && step.p == q { HolderBeganEarlier(c, s, q, p); }
    }
  }

  lemma StepKeepsClaimsApart(c: Config, s: State, step: Step)
    requires Safe(c, s) && ClaimsApart(c, s) && Enabled(c, s, step)
    ensures ClaimsApart(c, Take(c, s, step))
  {
    forall p, upload ensures ClaimCovers(Take(c, s, step), p, upload) {
      StepKeepsClaimCovers(c, s, step, p, upload);
    }
    forall p, q, upload ensures HoldersApart(c, Take(c, s, step), p, q, upload) {
      StepKeepsHoldersApart(c, s, step, p, q, upload);
    }
  }

  lemma HolderBeganEarlier(c: Config, s: State, p: nat, q: nat)
    requires ClaimsApart(c, s) && Enabled(c, s, Claim(p)) && Holds(s, q, s.passes[p].todo[0].upload)
    ensures s.passes[q].now + c.settle <= s.passes[p].now
  {
    assert ClaimCovers(s, q, s.passes[p].todo[0].upload);
  }

  lemma {:induction false} RunKeepsClaimsApart(c: Config, s: State, steps: seq<Step>, s': State)
    requires Safe(c, s) && ClaimsApart(c, s) && Runs(c, s, steps, s')
    ensures ClaimsApart(c, s')
    decreases |steps|
  {
    if steps != [] {
      StepKeepsSafe(c, s, steps[0]);
      StepKeepsClaimsApart(c, s, steps[0]);
      RunKeepsClaimsApart(c, Take(c, s, steps[0]), steps[1..], s');
    }
  }

  /** A pass takes over an upload that another still holds only from one that began a settle delay before it. */
  lemma TakeoverOnlyAfterSettleDelay(c: Config, s: State, steps: seq<Step>, s': State, p: nat, holder: nat)
    requires Initial(s) && Runs(c, s, steps, s')
    requires Enabled(c, s', Claim(p)) && Holds(s', holder, s'.passes[p].todo[0].upload)
    ensures s'.passes[holder].now + c.settle <= s'.passes[p].now
  {
    RunKeepsClaimsApart(c, s, steps, s');
    HolderBeganEarlier(c, s', p, holder);
  }
}
