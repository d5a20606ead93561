/** One bounded pass over expired staging, then over committed staging, with one report. */
module StagingCleanup {
  import opened JoinedText
  import opened OrderedMaps
  import opened StagingListing

  const MAX_LIMIT := 1_000
  const MAX_FILES := 1_000_000
  const MAX_DURATION := 86_400_000
  const COMMITTED_FILES := 1_024
  const COMMITTED_DURATION := 60_000

  // ---------- what the repositories and stores answer ----------

  datatype Answer = Fails | Yes | No

  datatype ExpiredFile = ExpiredFile(token: string, objectRemoved: bool, rowRemoved: bool)

  datatype ExpiredUpload = ExpiredUpload(id: string, claim: Answer, files: seq<ExpiredFile>, finish: Answer)

  /** `intact` is the canonical blob's verification: it may fail to open, match or not match. */
  datatype CommittedFile = CommittedFile(sha256: string, size: nat, intact: Answer, objectRemoved: bool, marked: bool)

  datatype CommittedUpload = CommittedUpload(claim: Answer, files: seq<CommittedFile>, finish: Answer)

  datatype Error = InvalidPagination | InvalidCleanupBudget | RepositoryFailure

  datatype Result<T> = Success(value: T) | Failure(error: Error)

  /** Everything outside the pass: listings, whether committed cleanup is configured, and clock readings. */
  datatype World = World(
    listExpired: nat -> Result<seq<ExpiredUpload>>,
    cleansCommitted: bool,
    listCommitted: nat -> Result<seq<CommittedUpload>>,
    clock: nat -> int)
  {
    /** A listing never returns more uploads than it was asked for. */
    ghost predicate KeepsLimits() {
      && (forall n :: listExpired(n).Success? ==> |listExpired(n).value| <= n)
      && (forall n :: listCommitted(n).Success? ==> |listCommitted(n).value| <= n)
    }
  }

  datatype Command = Command(limit: int, maxFiles: Option<int>, maxDuration: Option<int>)

  datatype Report = Report(
    selected: int, deleted: int, alreadyAbsent: int, failed: int, claimRejected: int,
    remaining: int, budgetExhausted: bool, committedDeleted: Option<int>)

  /** How one upload ended. */
  datatype Outcome = Deleted | AlreadyAbsent | Failed | ClaimRejected | BudgetExhausted | Unfinished

  function CountOf(outcomes: seq<Outcome>, o: Outcome): nat {
    if outcomes == [] then 0 else (if outcomes[0] == o then 1 else 0) + CountOf(outcomes[1..], o)
  }

  lemma {:induction false} CountAppend(a: seq<Outcome>, b: seq<Outcome>, o: Outcome)
    ensures CountOf(a + b, o) == CountOf(a, o) + CountOf(b, o)
  {
    if a == [] {
      assert a + b == b;
    } else {
      assert (a + b)[1..] == a[1..] + b;
      CountAppend(a[1..], b, o);
    }
  }

  lemma CountOneMore(outcomes: seq<Outcome>, outcome: Outcome)
    ensures forall o :: CountOf(outcomes + [outcome], o) == CountOf(outcomes, o) + if o == outcome then 1 else 0
  {
    forall o ensures CountOf(outcomes + [outcome], o) == CountOf(outcomes, o) + if o == outcome then 1 else 0 {
      CountAppend(outcomes, [outcome], o);
    }
  }

  lemma {:induction false} CountIsMultiplicity(outcomes: seq<Outcome>, o: Outcome)
    ensures CountOf(outcomes, o) == multiset(outcomes)[o]
  {
    if outcomes != [] {
      CountIsMultiplicity(outcomes[1..], o);
      assert outcomes == [outcomes[0]] + outcomes[1..];
    }
  }

  ghost predicate Removable(upload: ExpiredUpload) {
    forall i :: 0 <= i < |upload.files| ==> upload.files[i].objectRemoved && upload.files[i].rowRemoved
  }

  /** An upload whose claim, removals and final row deletion all go through. */
  ghost predicate Unhindered(upload: ExpiredUpload) {
    upload.claim == Yes && Removable(upload) && upload.finish == Yes
  }

  /** What an outcome says of the upload; only a spent budget leaves it open. */
  ghost predicate Fits(upload: ExpiredUpload, outcome: Outcome) {
    match outcome
    case Deleted => Unhindered(upload)
    case AlreadyAbsent => upload.claim == Yes && Removable(upload) && upload.finish == No
    case Failed => upload.claim == Fails || (upload.claim == Yes && !(Removable(upload) && upload.finish != Fails))
    case ClaimRejected => upload.claim == No
    case BudgetExhausted => upload.claim == Yes
    case Unfinished => false
  }

  /** How many files of a claimed upload go before the first that cannot be removed. */
  ghost function Taken(upload: ExpiredUpload): (n: nat) {
    if upload.claim == Yes then Leading(upload.files) else 0
  }

  ghost function Leading(files: seq<ExpiredFile>): (n: nat)
    ensures n <= |files|
  {
    if files == [] || !files[0].objectRemoved || !files[0].rowRemoved then 0 else 1 + Leading(files[1..])
  }

  lemma LeadingFrom(files: seq<ExpiredFile>, i: nat)
    requires i < |files|
    ensures Leading(files[i..])
            == if files[i].objectRemoved && files[i].rowRemoved then 1 + Leading(files[i + 1..]) else 0
  {
    assert files[i..][1..] == files[i + 1..];
  }

  ghost function TakenOf(uploads: seq<ExpiredUpload>): (n: nat) {
    if uploads == [] then 0 else TakenOf(uploads[..|uploads| - 1]) + Taken(uploads[|uploads| - 1])
  }

  ghost function Capped(bound: int, budget: Option<int>): (m: int) {
    if budget.Some? && budget.value < bound then budget.value else bound
  }

  lemma TakenOneMore(uploads: seq<ExpiredUpload>, i: nat)
    requires i < |uploads|
    ensures TakenOf(uploads[..i + 1]) == TakenOf(uploads[..i]) + Taken(uploads[i])
  {
    assert uploads[..i + 1][..i] == uploads[..i];
  }

  ghost predicate Cleared(upload: CommittedUpload) {
    forall i :: 0 <= i < |upload.files| ==> upload.files[i].objectRemoved && upload.files[i].marked
  }

  ghost predicate FitsCommitted(upload: CommittedUpload, outcome: Outcome) {
    match outcome
    case Deleted =>
      upload.claim == Yes && upload.finish == Yes && Cleared(upload)
    case Failed =>
      && upload.claim == Yes
      && (upload.finish == Fails || exists i :: 0 <= i < |upload.files| && Hinders(upload.files[i]))
    case ClaimRejected => upload.claim == No
    case Unfinished => upload.claim == Yes
    case _ => false
  }

  ghost predicate AllFit(uploads: seq<ExpiredUpload>, outcomes: seq<Outcome>) {
    |outcomes| <= |uploads| && forall j :: 0 <= j < |outcomes| ==> Fits(uploads[j], outcomes[j])
  }

  ghost predicate AllFitCommitted(uploads: seq<CommittedUpload>, outcomes: seq<Outcome>) {
    |outcomes| <= |uploads| && forall j :: 0 <= j < |outcomes| ==> FitsCommitted(uploads[j], outcomes[j])
  }

  lemma FitOneMore(uploads: seq<ExpiredUpload>, outcomes: seq<Outcome>, outcome: Outcome)
    requires AllFit(uploads, outcomes) && |outcomes| < |uploads| && Fits(uploads[|outcomes|], outcome)
    ensures AllFit(uploads, outcomes + [outcome])
  {
  }

  lemma FitCommittedOneMore(uploads: seq<CommittedUpload>, outcomes: seq<Outcome>, outcome: Outcome)
    requires AllFitCommitted(uploads, outcomes) && |outcomes| < |uploads|
    requires FitsCommitted(uploads[|outcomes|], outcome)
    ensures AllFitCommitted(uploads, outcomes + [outcome])
  {
  }

  ghost predicate Hinders(file: CommittedFile) {
    file.intact != Yes || !file.objectRemoved || !file.marked
  }

  // ---------- what committed cleanup did, in order ----------

  datatype Event =
    | VerifiedBlob(sha256: string, size: nat)
    | CheckFailed(upload: nat)
    | RemovalTried(upload: nat, sha256: string, size: nat)

  /** Every removal comes after the verification of that digest and size. */
  ghost predicate ProvenRemovals(log: seq<Event>) {
    forall i :: 0 <= i < |log| && log[i].RemovalTried? ==> VerifiedBlob(log[i].sha256, log[i].size) in log[..i]
  }

  /** After a failed verification nothing of that upload is removed. */
  ghost predicate StopsAfterFailure(log: seq<Event>) {
    forall i, j :: 0 <= i < j < |log| && log[i].CheckFailed? && log[j].RemovalTried? ==> log[i].upload != log[j].upload
  }

  /** Events of the uploads before `id` only. */
  ghost predicate Before(log: seq<Event>, id: nat) {
    forall e :: e in log && !e.VerifiedBlob? ==> e.upload < id
  }

  /** Every remembered key stands for a verification in the log. */
  ghost predicate Remembers(verified: set<string>, log: seq<Event>) {
    forall key :: key in verified ==> exists e :: e in log && e.VerifiedBlob? && IdentityKey(e.sha256, e.size) == key
  }

  function DigitChar(n: nat): char
    requires n < 10
  {
    "0123456789"[n]
  }

  function Decimal(n: nat): (text: string)
    ensures text != ""
    ensures forall c :: c in text ==> c in "0123456789"
  {
    if n < 10 then [DigitChar(n)] else Decimal(n / 10) + [DigitChar(n % 10)]
  }

  lemma {:induction false} DecimalInjective(a: nat, b: nat)
    requires Decimal(a) == Decimal(b)
    ensures a == b
  {
    var s, t := Decimal(a), Decimal(b);
    assert s[|s| - 1] == DigitChar(a % 10) && t[|t| - 1] == DigitChar(b % 10);
    assert a % 10 == b % 10;
    assert (a >= 10 <==> |s| > 1) && (b >= 10 <==> |t| > 1);
    if a >= 10 {
      assert Decimal(a / 10) == s[..|s| - 1] && Decimal(b / 10) == t[..|t| - 1];
      DecimalInjective(a / 10, b / 10);
    }
  }

  /** The text under which a verified blob is remembered. */
  function IdentityKey(sha256: string, size: nat): string {
    sha256 + ":" + Decimal(size)
  }

  /** The key names exactly one digest and size, whatever characters the digest has. */
  lemma IdentityKeyInjective(sha256: string, size: nat, sha256': string, size': nat)
    ensures IdentityKey(sha256, size) == IdentityKey(sha256', size') <==> sha256 == sha256' && size == size'
  {
    if IdentityKey(sha256, size) == IdentityKey(sha256', size') {
      assert ':' !in Decimal(size) && ':' !in Decimal(size');
      JoinInjective(sha256, Decimal(size), sha256', Decimal(size'));
      DecimalInjective(size, size');
    }
  }

  lemma RememberedIsVerified(verified: set<string>, log: seq<Event>, sha256: string, size: nat)
    requires Remembers(verified, log) && IdentityKey(sha256, size) in verified
    ensures VerifiedBlob(sha256, size) in log
  {
    var e :| e in log && e.VerifiedBlob? && IdentityKey(e.sha256, e.size) == IdentityKey(sha256, size);
    IdentityKeyInjective(e.sha256, e.size, sha256, size);
  }

  /** The log of a pass that removes only what it verified and stops at a failure. */
  ghost predicate Careful(log: seq<Event>) {
    ProvenRemovals(log) && StopsAfterFailure(log)
  }

  lemma CarefulVerify(log: seq<Event>, verified: set<string>, sha256: string, size: nat)
    requires Careful(log) && Remembers(verified, log)
    ensures var log' := log + [VerifiedBlob(sha256, size)];
            Careful(log') && Remembers(verified + {IdentityKey(sha256, size)}, log')
  {
    var log' := log + [VerifiedBlob(sha256, size)];
    assert forall i :: 0 <= i < |log| ==> log'[..i] == log[..i];
    assert VerifiedBlob(sha256, size) == log'[|log|];
    forall key | key in verified + {IdentityKey(sha256, size)}
      ensures exists e :: e in log' && e.VerifiedBlob? && IdentityKey(e.sha256, e.size) == key
    {
      if key in verified {
        var e :| e in log && e.VerifiedBlob? && IdentityKey(e.sha256, e.size) == key;
        assert e in log';
      }
    }
  }

  lemma CarefulOther(log: seq<Event>, verified: set<string>, e: Event)
    requires Careful(log) && Remembers(verified, log) && !e.VerifiedBlob?
    requires e.RemovalTried? ==> VerifiedBlob(e.sha256, e.size) in log
    requires e.RemovalTried? ==> forall f :: f in log && f.CheckFailed? ==> f.upload != e.upload
    ensures Careful(log + [e]) && Remembers(verified, log + [e])
  {
    var log' := log + [e];
    assert forall i :: 0 <= i < |log| ==> log'[..i] == log[..i];
    assert log'[..|log|] == log;
    forall key | key in verified
      ensures exists e :: e in log' && e.VerifiedBlob? && IdentityKey(e.sha256, e.size) == key
    {
      var f :| f in log && f.VerifiedBlob? && IdentityKey(f.sha256, f.size) == key;
      assert f in log';
    }
  }

  // ---------- rows of expired staging ----------

  ghost function FirstFiles(upload: ExpiredUpload, n: nat): (files: set<FileKey>)
    requires n <= |upload.files|
    ensures n > 0 ==> files != {}
  {
    if n == 0 then {} else FirstFiles(upload, n - 1) + {FileKey(upload.id, upload.files[n - 1].token)}
  }

  ghost function FilesOf(uploads: seq<ExpiredUpload>): (files: set<FileKey>) {
    set u, f | u in uploads && f in u.files :: FileKey(u.id, f.token)
  }

  ghost function IdsOf(uploads: seq<ExpiredUpload>): (ids: set<string>) {
    set u | u in uploads :: u.id
  }

  lemma {:induction false} FirstFilesAreFiles(uploads: seq<ExpiredUpload>, u: ExpiredUpload, n: nat)
    requires u in uploads && n <= |u.files|
    ensures FirstFiles(u, n) <= FilesOf(uploads)
  {
    if n > 0 {
      FirstFilesAreFiles(uploads, u, n - 1);
      assert u.files[n - 1] in u.files;
    }
  }

  /** An upload is left without an outcome, or stopped in the middle. */
  ghost predicate StoppedEarly(uploads: seq<ExpiredUpload>, outcomes: seq<Outcome>) {
    |outcomes| < |uploads| || CountOf(outcomes, BudgetExhausted) > 0
  }

  /** Where the first phase starts, and its budgets. */
  datatype Begin = Begin(reading: nat, removed: nat, attempts: nat, budget: Option<int>, deadline: Option<int>)

  /** The readings in this range that come no later than the deadline. */
  ghost function Timely(clock: nat -> int, from: nat, to: nat, deadline: int): (readings: set<nat>) {
    set k | from <= k < to && clock(k) <= deadline
  }

  lemma TimelyOneMore(clock: nat -> int, from: nat, to: nat, deadline: int)
    requires from <= to
    ensures |Timely(clock, from, to + 1, deadline)|
            == |Timely(clock, from, to, deadline)| + if clock(to) <= deadline then 1 else 0
  {
    assert Timely(clock, from, to + 1, deadline)
        == Timely(clock, from, to, deadline) + if clock(to) <= deadline then {to} else {};
  }

  lemma TimelySplit(clock: nat -> int, from: nat, middle: nat, to: nat, deadline: int)
    requires from <= middle <= to
    ensures |Timely(clock, from, to, deadline)|
            == |Timely(clock, from, middle, deadline)| + |Timely(clock, middle, to, deadline)|
  {
    assert Timely(clock, from, to, deadline)
        == Timely(clock, from, middle, deadline) + Timely(clock, middle, to, deadline);
  }

  /**
   * The second phase's budgets. Every claim and every removal has its own clock reading within the deadline; a stop is
   * one for a spent file budget or a reading past the deadline, and without a stop there is no such reading and every
   * upload was gone through.
   */
  ghost predicate KeepsBudgets(clock: nat -> int, from: nat, to: nat, deadline: int, uploads: seq<CommittedUpload>,
                               outcomes: seq<Outcome>, removed: int, budget: int, stopped: bool)
  {
    && |outcomes| <= |uploads| && from <= to
    && removed + |outcomes| <= |Timely(clock, from, to, deadline)|
    && (stopped ==> removed == budget || exists k :: from <= k < to && clock(k) > deadline)
    && (!stopped ==>
          && (forall k :: from <= k < to ==> clock(k) <= deadline)
          && forall j :: 0 <= j < |outcomes| && outcomes[j] == Unfinished ==>
               uploads[j].finish == No && Cleared(uploads[j]))
  }

  /** Where the second phase starts, and its budgets. */
  datatype Start = Start(reading: nat, removed: nat, attempts: nat, budget: int, deadline: int)

  /** Reading the clock once more; past the deadline it is a stop. */
  lemma LateReading(clock: nat -> int, from: nat, to: nat, deadline: int, uploads: seq<CommittedUpload>,
                    outcomes: seq<Outcome>, removed: int, budget: int, stopped: bool)
    requires KeepsBudgets(clock, from, to, deadline, uploads, outcomes, removed, budget, stopped)
    ensures KeepsBudgets(clock, from, to + 1, deadline, uploads, outcomes, removed, budget,
                         stopped || clock(to) > deadline)
  {
    TimelyOneMore(clock, from, to, deadline);
  }

  /** One upload more: its claim is paid by the reading at `start`, its removals by the readings after it. */
  lemma KeepsBudgetsOneMore(clock: nat -> int, from: nat, start: nat, to: nat, deadline: int,
                            uploads: seq<CommittedUpload>, outcomes: seq<Outcome>, outcome: Outcome,
                            removed: int, more: int, budget: int, stopped: bool, stops: bool)
    requires KeepsBudgets(clock, from, start, deadline, uploads, outcomes, removed, budget, stopped)
    requires |outcomes| < |uploads| && start < to && clock(start) <= deadline && 0 <= more
    requires more <= |Timely(clock, start + 1, to, deadline)| && (stopped && removed == budget ==> more == 0)
    requires stops ==> removed + more == budget || exists k :: start < k < to && clock(k) > deadline
    requires !stops ==> forall k :: start < k < to ==> clock(k) <= deadline
    requires outcome == Unfinished && !stops ==>
               uploads[|outcomes|].finish == No && Cleared(uploads[|outcomes|])
    ensures KeepsBudgets(clock, from, to, deadline, uploads, outcomes + [outcome], removed + more, budget,
                         stopped || stops)
  {
    TimelyOneMore(clock, from, start, deadline);
    TimelySplit(clock, from, start + 1, to, deadline);
  }

  /** The same for a phase that reads its start first: a minute and 1024 files, or less if less is left. */
  ghost predicate MinuteBounds(clock: nat -> int, from: nat, to: nat, timeLeft: Option<int>, filesLeft: Option<int>,
                               uploads: seq<CommittedUpload>, outcomes: seq<Outcome>, removed: int, stopped: bool)
  {
    KeepsBudgets(clock, from + 1, to, clock(from) + Capped(COMMITTED_DURATION, timeLeft), uploads, outcomes, removed,
                 Capped(COMMITTED_FILES, filesLeft), stopped)
  }

  // ---------- the running pass ----------

  class Pass {
    const clock: nat -> int
    var readings: nat
    /** `None` is no budget. */
    var filesRemaining: Option<int>
    /** Object removals tried, and files whose object and row are both gone. */
    ghost var attempts: nat
    ghost var removed: nat
    /** The rows of expired staging that are gone by now. */
    ghost var rowsGone: set<FileKey>
    ghost var uploadsGone: set<string>
    ghost var log: seq<Event>

    constructor (clock: nat -> int, maxFiles: Option<int>)
      ensures this.clock == clock && filesRemaining == maxFiles && attempts == 0 && removed == 0 && log == []
      ensures readings == 0 && rowsGone == {} && uploadsGone == {}
    {
      this.clock := clock;
      filesRemaining := maxFiles;
      readings, attempts, removed, log := 0, 0, 0, [];
      rowsGone, uploadsGone := {}, {};
    }

    /** The budget pays exactly for the files removed, and is never overdrawn. */
    twostate predicate Paid()
      reads this
    {
      && old(removed) <= removed
      && filesRemaining.Some? == old(filesRemaining).Some?
      && (filesRemaining.Some? ==> filesRemaining.value == old(filesRemaining).value - (removed - old(removed)))
      && (filesRemaining.Some? && old(filesRemaining).value >= 0 ==> filesRemaining.value >= 0)
    }

    predicate Spent()
      reads this
    {
      filesRemaining.Some? && filesRemaining.value <= 0
    }

    ghost predicate Solvent()
      reads this`filesRemaining
    {
      filesRemaining.Some? ==> filesRemaining.value >= 0
    }

    method Now() returns (t: int)
      modifies this`readings
      ensures t == clock(old(readings)) && readings == old(readings) + 1
    {
      t := clock(readings);
      readings := readings + 1;
    }

    method RemoveClaimed(upload: ExpiredUpload) returns (outcome: Outcome)
      modifies this`filesRemaining, this`attempts, this`removed, this`rowsGone, this`uploadsGone
      ensures Paid()
      ensures outcome == Failed ==> attempts - old(attempts) <= removed - old(removed) + 1
      ensures outcome != Failed ==> attempts - old(attempts) == removed - old(removed)
      ensures outcome == BudgetExhausted ==> Spent() && removed - old(removed) < |upload.files|
      ensures outcome in {Deleted, AlreadyAbsent} ==> removed - old(removed) == |upload.files|
      ensures upload.claim == Yes ==> Fits(upload, outcome) && outcome != ClaimRejected
      ensures removed - old(removed) <= |upload.files|
      ensures rowsGone == old(rowsGone) + FirstFiles(upload, removed - old(removed))
      ensures uploadsGone == old(uploadsGone) + if outcome == Deleted then {upload.id} else {}
      ensures Unhindered(upload) && !old(Spent()) ==> outcome == Deleted || removed > old(removed)
      ensures old(Solvent()) ==> removed - old(removed) == Capped(Leading(upload.files), old(filesRemaining))
    {
      for i := 0 to |upload.files|
        invariant Paid() && Leading(upload.files) == i + Leading(upload.files[i..])
        invariant attempts - old(attempts) == removed - old(removed) == i
        invariant rowsGone == old(rowsGone) + FirstFiles(upload, i) && uploadsGone == old(uploadsGone)
        invariant forall j :: 0 <= j < i ==> upload.files[j].objectRemoved && upload.files[j].rowRemoved
      {
        LeadingFrom(upload.files, i);
        if Spent() { return BudgetExhausted; }
        attempts := attempts + 1;
        if !upload.files[i].objectRemoved { return Failed; }
        if !upload.files[i].rowRemoved { return Failed; }
        removed := removed + 1;
        rowsGone := rowsGone + {FileKey(upload.id, upload.files[i].token)};
        if filesRemaining.Some? { filesRemaining := Some(filesRemaining.value - 1); }
      }
      match upload.finish
      case Fails => outcome := Failed;
      case Yes =>
        uploadsGone := uploadsGone + {upload.id};
        outcome := Deleted;
      case No => outcome := AlreadyAbsent;
    }

    method CleanOne(upload: ExpiredUpload) returns (outcome: Outcome)
      modifies this`filesRemaining, this`attempts, this`removed, this`rowsGone, this`uploadsGone
      ensures Paid()
      ensures attempts - old(attempts) <= removed - old(removed) + if outcome == Failed then 1 else 0
      ensures outcome == BudgetExhausted ==> Spent()
      ensures outcome in {Deleted, AlreadyAbsent} ==> removed - old(removed) == |upload.files|
      ensures Fits(upload, outcome)
      ensures removed - old(removed) <= |upload.files|
      ensures rowsGone == old(rowsGone) + FirstFiles(upload, removed - old(removed))
      ensures uploadsGone == old(uploadsGone) + if outcome == Deleted then {upload.id} else {}
      ensures Unhindered(upload) && !old(Spent()) ==> outcome == Deleted || removed > old(removed)
      ensures old(Solvent()) ==> removed - old(removed) == Capped(Taken(upload), old(filesRemaining))
    {
      match upload.claim
      case Fails => outcome := Failed;
      case No => outcome := ClaimRejected;
      case Yes => outcome := RemoveClaimed(upload);
    }

    ghost predicate Progressed()
      reads this`rowsGone, this`uploadsGone
    {
      rowsGone != {} || uploadsGone != {}
    }

    /** Cleans one upload of the list: what goes is of the list, and an unhindered upload makes progress. */
    method CleanListed(uploads: seq<ExpiredUpload>, i: nat) returns (outcome: Outcome)
      requires i < |uploads| && rowsGone <= FilesOf(uploads) && uploadsGone <= IdsOf(uploads)
      modifies this`filesRemaining, this`attempts, this`removed, this`rowsGone, this`uploadsGone
      ensures Paid()
      ensures attempts - old(attempts) <= removed - old(removed) + if outcome == Failed then 1 else 0
      ensures Fits(uploads[i], outcome) && (outcome == BudgetExhausted ==> Spent())
      ensures rowsGone <= FilesOf(uploads) && uploadsGone <= IdsOf(uploads)
      ensures old(Solvent()) ==> removed - old(removed) == Capped(Taken(uploads[i]), old(filesRemaining))
      ensures old(Progressed()) || (Unhindered(uploads[i]) && !old(Spent())) ==> Progressed()
    {
      outcome := CleanOne(uploads[i]);
      FirstFilesAreFiles(uploads, uploads[i], removed - old(removed));
    }

    /** Before each upload: a stop for a reading past the deadline or a spent file budget. */
    method MustStop(deadline: Option<int>) returns (stop: bool)
      modifies this`readings
      ensures readings == old(readings) + if deadline.Some? then 1 else 0
      ensures stop <==> Spent() || (deadline.Some? && clock(old(readings)) > deadline.value)
    {
      if deadline.Some? {
        var now := Now();
        if now > deadline.value { return true; }
      }
      stop := Spent();
    }

    /** What the first phase keeps from upload to upload. */
    ghost predicate ExpiredSoFar(at: Begin, uploads: seq<ExpiredUpload>, outcomes: seq<Outcome>)
      reads this
    {
      && AllFit(uploads, outcomes) && CountOf(outcomes, Unfinished) == 0
      && at.removed <= removed && filesRemaining.Some? == at.budget.Some?
      && (filesRemaining.Some? ==> filesRemaining.value == at.budget.value - (removed - at.removed))
      && (filesRemaining.Some? && at.budget.value >= 0 ==> filesRemaining.value >= 0)
      && ((at.budget.Some? ==> at.budget.value >= 0) ==>
            removed - at.removed == Capped(TakenOf(uploads[..|outcomes|]), at.budget))
      && attempts - at.attempts <= removed - at.removed + CountOf(outcomes, Failed)
      && rowsGone <= FilesOf(uploads) && uploadsGone <= IdsOf(uploads)
      && (at.deadline.Some? ==>
            forall k :: at.reading <= k < at.reading + |outcomes| ==> clock(k) <= at.deadline.value)
      && (outcomes == [] ==> filesRemaining == at.budget && !Progressed())
      && (outcomes != [] ==>
            && (at.budget.Some? ==> at.budget.value > 0)
            && (Unhindered(uploads[0]) ==> Progressed()))
    }

    /** One upload more, when neither budget demands a stop. */
    method AddExpired(ghost at: Begin, uploads: seq<ExpiredUpload>, ghost outcomes: seq<Outcome>, i: nat)
        returns (outcome: Outcome)
      requires ExpiredSoFar(at, uploads, outcomes) && i == |outcomes| < |uploads| && !Spent()
      requires at.deadline.Some? ==> clock(at.reading + |outcomes|) <= at.deadline.value
      modifies this`filesRemaining, this`attempts, this`removed, this`rowsGone, this`uploadsGone
      ensures ExpiredSoFar(at, uploads, outcomes + [outcome])
      ensures CountOf(outcomes + [outcome], BudgetExhausted)
              == CountOf(outcomes, BudgetExhausted) + if outcome == BudgetExhausted then 1 else 0
      ensures outcome == BudgetExhausted ==> Spent()
    {
      TakenOneMore(uploads, i);
      outcome := CleanListed(uploads, i);
      CountOneMore(outcomes, outcome);
      FitOneMore(uploads, outcomes, outcome);
    }

    method CleanListing(ghost at: Begin, uploads: seq<ExpiredUpload>, deadline: Option<int>)
        returns (outcomes: seq<Outcome>, budgetExhausted: bool)
      requires ExpiredSoFar(at, uploads, []) && deadline == at.deadline && readings == at.reading
      modifies this`filesRemaining, this`attempts, this`removed, this`readings, this`rowsGone, this`uploadsGone
      ensures ExpiredSoFar(at, uploads, outcomes)
      ensures budgetExhausted <==> StoppedEarly(uploads, outcomes)
      ensures budgetExhausted ==> Spent() || (deadline.Some? && clock(at.reading + |outcomes|) > deadline.value)
      ensures deadline.None? ==> readings == at.reading
      ensures deadline.Some? && !budgetExhausted ==> readings == at.reading + |uploads|
    {
      outcomes, budgetExhausted := [], false;
      for i := 0 to |uploads|
        invariant |outcomes| == i && !budgetExhausted
        invariant ExpiredSoFar(at, uploads, outcomes) && CountOf(outcomes, BudgetExhausted) == 0
        invariant readings == at.reading + if deadline.Some? then i else 0
      {
        var stop := MustStop(deadline);
        if stop { return outcomes, true; }
        var outcome := AddExpired(at, uploads, outcomes, i);
        outcomes := outcomes + [outcome];
        if outcome == BudgetExhausted { return outcomes, true; }
      }
    }

    method CleanExpired(uploads: seq<ExpiredUpload>, deadline: Option<int>)
        returns (outcomes: seq<Outcome>, budgetExhausted: bool)
      requires rowsGone == {} && uploadsGone == {}
      modifies this`filesRemaining, this`attempts, this`removed, this`readings, this`rowsGone, this`uploadsGone
      ensures Paid()
      ensures AllFit(uploads, outcomes)
      ensures attempts - old(attempts) <= removed - old(removed) + CountOf(outcomes, Failed)
      ensures CountOf(outcomes, Unfinished) == 0
      // A stop is one for a spent file budget or a reading past the deadline, and nothing is claimed after either.
      ensures budgetExhausted <==> StoppedEarly(uploads, outcomes)
      ensures budgetExhausted ==>
                Spent() || (deadline.Some? && clock(old(readings) + |outcomes|) > deadline.value)
      ensures if deadline.None? then readings == old(readings)
              else
                && (!budgetExhausted ==> readings == old(readings) + |uploads|)
                && forall k :: old(readings) <= k < old(readings) + |outcomes| ==> clock(k) <= deadline.value
      ensures old(Solvent()) ==>
                removed - old(removed) == Capped(TakenOf(uploads[..|outcomes|]), old(filesRemaining))
      ensures rowsGone <= FilesOf(uploads) && uploadsGone <= IdsOf(uploads)
      // Progress, exactly: something is listed, and neither budget is spent before the first upload.
      ensures (uploads != [] ==> Unhindered(uploads[0])) ==>
                (Progressed() <==> uploads != [] && !old(Spent())
                                   && (deadline.Some? ==> clock(old(readings)) <= deadline.value))
    {
      ghost var at := Begin(readings, removed, attempts, filesRemaining, deadline);
      outcomes, budgetExhausted := CleanListing(at, uploads, deadline);
    }

    /** What the pass knows while it works on upload `id`, with no failed verification of it so far. */
    ghost predicate Working(id: nat, verified: set<string>)
      reads this`log
    {
      && Careful(log) && Remembers(verified, log) && Before(log, id + 1)
      && forall e :: e in log && e.CheckFailed? ==> e.upload < id
    }

    /** Verifies the canonical blob unless this pass already did, then removes the staged file and marks it. */
    method RemoveOne(id: nat, file: CommittedFile, known: set<string>) returns (gone: bool, verified: set<string>)
      requires Working(id, known)
      modifies this`attempts, this`log
      ensures Careful(log) && Remembers(verified, log) && Before(log, id + 1) && old(log) <= log
      ensures gone ==> Working(id, verified) && file.objectRemoved && file.marked
      ensures !gone ==> Hinders(file)
      ensures old(attempts) <= attempts <= old(attempts) + 1
      ensures gone ==> attempts == old(attempts) + 1
    {
      verified := known;
      var identity := file.sha256 + ":" + Decimal(file.size);
      if identity !in verified {
        if file.intact != Yes {
          CarefulOther(log, verified, CheckFailed(id));
          log := log + [CheckFailed(id)];
          return false, verified;
        }
        CarefulVerify(log, verified, file.sha256, file.size);
        log := log + [VerifiedBlob(file.sha256, file.size)];
        verified := verified + {identity};
      }
      RememberedIsVerified(verified, log, file.sha256, file.size);
      CarefulOther(log, verified, RemovalTried(id, file.sha256, file.size));
      log := log + [RemovalTried(id, file.sha256, file.size)];
      attempts := attempts + 1;
      gone := file.objectRemoved && file.marked;
    }

    /**
     * One claimed committed upload: each file is removed only once its canonical blob was verified in this pass.
     * `stopped` reports a budget stop in the middle of the upload.
     */
    method RemoveVerified(id: nat, upload: CommittedUpload, known: set<string>, budget: int, deadline: int)
        returns (outcome: Outcome, verified: set<string>, remaining: int, stopped: bool)
      requires Careful(log) && Remembers(known, log) && Before(log, id)
      requires budget > 0
      modifies this`attempts, this`removed, this`readings, this`log
      ensures Careful(log) && Remembers(verified, log) && Before(log, id + 1) && old(log) <= log
      ensures removed >= old(removed) && remaining == budget - (removed - old(removed)) && remaining >= 0
      ensures attempts - old(attempts) <= removed - old(removed) + if outcome == Failed then 1 else 0
      ensures upload.claim == Yes ==> FitsCommitted(upload, outcome)
      ensures outcome in {Deleted, Failed, Unfinished}
      ensures outcome == Deleted ==> removed - old(removed) == |upload.files|
      ensures outcome == Unfinished ==> stopped || (upload.finish == No && Cleared(upload))
      ensures readings >= old(readings)
      ensures removed - old(removed) <= |Timely(clock, old(readings), readings, deadline)|
      ensures stopped ==>
                && outcome == Unfinished
                && (remaining == 0 || exists k :: old(readings) <= k < readings && clock(k) > deadline)
      ensures !stopped ==> forall k :: old(readings) <= k < readings ==> clock(k) <= deadline
    {
      verified, remaining, stopped := known, budget, false;
      for i := 0 to |upload.files|
        invariant Working(id, verified) && old(log) <= log
        invariant removed - old(removed) == i && remaining == budget - i && remaining >= 0
        invariant attempts - old(attempts) == i
        invariant forall j :: 0 <= j < i ==> upload.files[j].objectRemoved && upload.files[j].marked
        invariant readings == old(readings) + i && |Timely(clock, old(readings), readings, deadline)| == i
        invariant forall k :: old(readings) <= k < readings ==> clock(k) <= deadline
      {
        if remaining <= 0 { return Unfinished, verified, remaining, true; }
        TimelyOneMore(clock, old(readings), readings, deadline);
        var now := Now();
        if now > deadline { return Unfinished, verified, remaining, true; }
        var gone;
        gone, verified := RemoveOne(id, upload.files[i], verified);
        if !gone { return Failed, verified, remaining, false; }
        removed := removed + 1;
        remaining := remaining - 1;
      }
      match upload.finish
      case Fails => outcome := Failed;
      case Yes => outcome := Deleted;
      case No => outcome := Unfinished;
    }

    /** One committed upload behind its claim; `asked` is false when the claim fails. */
    method CleanOneCommitted(id: nat, upload: CommittedUpload, known: set<string>, budget: int, deadline: int)
        returns (asked: bool, outcome: Outcome, verified: set<string>, remaining: int, stopped: bool)
      requires Careful(log) && Remembers(known, log) && Before(log, id)
      requires budget > 0
      modifies this`attempts, this`removed, this`readings, this`log
      ensures asked <==> upload.claim != Fails
      ensures !asked ==>
                readings == old(readings) && removed == old(removed) && attempts == old(attempts) && log == old(log)
      ensures Careful(log) && Remembers(verified, log) && Before(log, id + 1)
      ensures removed >= old(removed) && remaining == budget - (removed - old(removed)) && remaining >= 0
      ensures attempts - old(attempts) <= removed - old(removed) + if outcome == Failed then 1 else 0
      ensures asked ==> FitsCommitted(upload, outcome)
      ensures outcome == Unfinished && !stopped ==> upload.finish == No && Cleared(upload)
      ensures readings >= old(readings)
      ensures removed - old(removed) <= |Timely(clock, old(readings), readings, deadline)|
      ensures stopped ==> remaining == 0 || exists k :: old(readings) <= k < readings && clock(k) > deadline
      ensures !stopped ==> forall k :: old(readings) <= k < readings ==> clock(k) <= deadline
    {
      asked, outcome, verified, remaining, stopped := true, ClaimRejected, known, budget, false;
      match upload.claim
      case Fails => asked := false;
      case No =>
      case Yes =>
        outcome, verified, remaining, stopped := RemoveVerified(id, upload, verified, remaining, deadline);
        if outcome == Unfinished && remaining == 0 { stopped := true; }
    }

    /** What the second phase keeps from upload to upload. */
    ghost predicate CommittedSoFar(at: Start, uploads: seq<CommittedUpload>, outcomes: seq<Outcome>,
                                   verified: set<string>, remaining: int, stopped: bool)
      reads this`log, this`removed, this`attempts, this`readings
    {
      && Careful(log) && Remembers(verified, log) && Before(log, |outcomes|)
      && AllFitCommitted(uploads, outcomes)
      && at.removed <= removed && remaining == at.budget - (removed - at.removed) && remaining >= 0
      && attempts - at.attempts <= removed - at.removed + CountOf(outcomes, Failed)
      && CountOf(outcomes, AlreadyAbsent) == 0 && CountOf(outcomes, BudgetExhausted) == 0
      && KeepsBudgets(clock, at.reading, readings, at.deadline, uploads, outcomes, removed - at.removed, at.budget,
                      stopped)
    }

    /** The reading before an upload; past the deadline it is a stop. */
    method ReadBefore(ghost at: Start, ghost uploads: seq<CommittedUpload>, ghost outcomes: seq<Outcome>,
                      ghost verified: set<string>, ghost remaining: int, ghost stopped: bool) returns (now: int)
      requires CommittedSoFar(at, uploads, outcomes, verified, remaining, stopped)
      modifies this`readings
      ensures readings == old(readings) + 1 && now == clock(old(readings))
      ensures KeepsBudgets(clock, at.reading, readings - 1, at.deadline, uploads, outcomes, removed - at.removed,
                           at.budget, stopped)
      ensures CommittedSoFar(at, uploads, outcomes, verified, remaining, stopped || now > at.deadline)
    {
      now := Now();
      LateReading(clock, at.reading, old(readings), at.deadline, uploads, outcomes, removed - at.removed, at.budget,
                  stopped);
    }

    /** One upload more, after a reading within the deadline. */
    method AddCommitted(ghost at: Start, uploads: seq<CommittedUpload>, outcomes: seq<Outcome>, known: set<string>,
                        left: int, stopped: bool, deadline: int)
        returns (asked: bool, more: seq<Outcome>, verified: set<string>, remaining: int, stops: bool)
      requires CommittedSoFar(at, uploads, outcomes, known, left, stopped) && |outcomes| < |uploads|
      requires left > 0 && deadline == at.deadline
      requires at.reading < readings && clock(readings - 1) <= deadline
      requires KeepsBudgets(clock, at.reading, readings - 1, deadline, uploads, outcomes, removed - at.removed,
                            at.budget, stopped)
      modifies this`attempts, this`removed, this`readings, this`log
      ensures asked <==> uploads[|outcomes|].claim != Fails
      ensures asked ==> |more| == |outcomes| + 1 && CommittedSoFar(at, uploads, more, verified, remaining, stops)
      ensures !asked ==>
                && more == outcomes && verified == known && remaining == left && stops == stopped
                && CommittedSoFar(at, uploads, outcomes, known, left, stopped)
    {
      var outcome, stop;
      asked, outcome, verified, remaining, stop :=
        CleanOneCommitted(|outcomes|, uploads[|outcomes|], known, left, deadline);
      if !asked { return asked, outcomes, known, left, stopped; }
      KeepsBudgetsOneMore(clock, at.reading, old(readings) - 1, readings, deadline, uploads, outcomes, outcome,
                          old(removed) - at.removed, removed - old(removed), at.budget, stopped, stop);
      CountOneMore(outcomes, outcome);
      FitCommittedOneMore(uploads, outcomes, outcome);
      more, stops := outcomes + [outcome], stopped || stop;
    }

    method CleanEach(ghost at: Start, uploads: seq<CommittedUpload>, maxFiles: int, deadline: int)
        returns (failed: bool, outcomes: seq<Outcome>, budgetExhausted: bool, ghost known: set<string>, ghost left: int)
      requires CommittedSoFar(at, uploads, [], {}, maxFiles, false) && deadline == at.deadline
      modifies this`attempts, this`removed, this`readings, this`log
      ensures CommittedSoFar(at, uploads, outcomes, known, left, budgetExhausted)
      ensures !failed && !budgetExhausted ==> |outcomes| == |uploads|
      ensures failed ==> |outcomes| < |uploads| && uploads[|outcomes|].claim == Fails
    {
      outcomes, failed, budgetExhausted := [], false, false;
      var remaining, verified := maxFiles, {};
      for i := 0 to |uploads|
        invariant |outcomes| == i && !failed
        invariant CommittedSoFar(at, uploads, outcomes, verified, remaining, budgetExhausted)
      {
        if remaining <= 0 { return false, outcomes, true, verified, remaining; }
        var now := ReadBefore(at, uploads, outcomes, verified, remaining, budgetExhausted);
        if now > deadline { return false, outcomes, true, verified, remaining; }
        var asked;
        asked, outcomes, verified, remaining, budgetExhausted :=
          AddCommitted(at, uploads, outcomes, verified, remaining, budgetExhausted, deadline);
        if !asked { return true, outcomes, budgetExhausted, verified, remaining; }
      }
      known, left := verified, remaining;
    }

    /** The committed phase; a listing or claim that fails ends the whole pass. */
    method CleanCommitted(uploads: seq<CommittedUpload>, maxFiles: Option<int>, maxDuration: Option<int>)
        returns (failed: bool, outcomes: seq<Outcome>, budgetExhausted: bool)
      requires log == []
      requires maxFiles.Some? ==> maxFiles.value >= 0
      modifies this`attempts, this`removed, this`readings, this`log
      ensures Careful(log) && AllFitCommitted(uploads, outcomes)
      ensures 0 <= removed - old(removed) <= COMMITTED_FILES
      ensures maxFiles.Some? ==> removed - old(removed) <= maxFiles.value
      ensures attempts - old(attempts) <= removed - old(removed) + CountOf(outcomes, Failed)
      ensures CountOf(outcomes, AlreadyAbsent) == 0 && CountOf(outcomes, BudgetExhausted) == 0
      ensures !failed && !budgetExhausted ==> |outcomes| == |uploads|
      ensures failed ==> |outcomes| < |uploads| && uploads[|outcomes|].claim == Fails
      ensures MinuteBounds(clock, old(readings), readings, maxDuration, maxFiles, uploads, outcomes,
                           removed - old(removed), budgetExhausted)
    {
      var start := Now();
      var duration := if maxDuration.Some? && maxDuration.value < COMMITTED_DURATION
        then maxDuration.value else COMMITTED_DURATION;
      var deadline := start + duration;
      var remaining := if maxFiles.Some? && maxFiles.value < COMMITTED_FILES then maxFiles.value else COMMITTED_FILES;
      ghost var at := Start(readings, removed, attempts, remaining, deadline);
      ghost var verified, left;
      failed, outcomes, budgetExhausted, verified, left := CleanEach(at, uploads, remaining, deadline);
    }
  }

  // ---------- the whole pass ----------

  predicate ValidBudget(value: Option<int>, upper: int) {
    value.None? || 1 <= value.value <= upper
  }

  lemma {:induction false} CountsAddUp(outcomes: seq<Outcome>)
    ensures CountOf(outcomes, Deleted) + CountOf(outcomes, AlreadyAbsent) + CountOf(outcomes, Failed)
            + CountOf(outcomes, ClaimRejected) + CountOf(outcomes, BudgetExhausted) + CountOf(outcomes, Unfinished)
            == |outcomes|
  {
    if outcomes != [] { CountsAddUp(outcomes[1..]); }
  }

  /** A report that accounts for every selected upload and stays inside its budgets. */
  ghost predicate Accounts(r: Report, limit: int, maxFiles: Option<int>, attempts: nat, removed: nat) {
    && r.selected <= limit
    && r.deleted >= 0 && r.alreadyAbsent >= 0 && r.failed >= 0 && r.claimRejected >= 0
    && r.deleted + r.alreadyAbsent + r.failed + r.claimRejected <= r.selected
    && r.remaining == r.selected - r.deleted - r.alreadyAbsent
    && (maxFiles.Some? ==> removed <= maxFiles.value && attempts <= maxFiles.value + r.failed)
    && attempts <= removed + r.failed
  }

  /** The report counts exactly these outcomes. */
  ghost predicate Tallied(r: Report, selected: nat, outcomes: seq<Outcome>) {
    && r.selected == selected
    && r.deleted == CountOf(outcomes, Deleted) && r.alreadyAbsent == CountOf(outcomes, AlreadyAbsent)
    && r.failed == CountOf(outcomes, Failed) && r.claimRejected == CountOf(outcomes, ClaimRejected)
    && r.remaining == r.selected - r.deleted - r.alreadyAbsent
  }

  function Merged(r: Report, selected: nat, more: seq<Outcome>, stopped: bool): (merged: Report) {
    var deleted := CountOf(more, Deleted);
    Report(r.selected + selected, r.deleted + deleted, r.alreadyAbsent, r.failed + CountOf(more, Failed),
           r.claimRejected + CountOf(more, ClaimRejected), r.remaining + (selected - deleted),
           r.budgetExhausted || stopped, if deleted > 0 then Some(deleted) else None)
  }

  lemma MergedTallies(r: Report, first: nat, outcomes: seq<Outcome>, second: nat, more: seq<Outcome>, stopped: bool)
    requires Tallied(r, first, outcomes) && CountOf(more, AlreadyAbsent) == 0
    ensures Tallied(Merged(r, second, more, stopped), first + second, outcomes + more)
  {
    CountAppend(outcomes, more, Deleted);
    CountAppend(outcomes, more, AlreadyAbsent);
    CountAppend(outcomes, more, Failed);
    CountAppend(outcomes, more, ClaimRejected);
  }

  /** How a pass went, for the statement only: the first phase's files, and whether the second phase stopped. */
  datatype Endings = Endings(
    expired: seq<Outcome>, filesGone: int,
    committedUploads: seq<CommittedUpload>, committed: seq<Outcome>, stopped: bool)

  /**
   * The first phase goes through the list in order. It takes exactly the files it can and may, claims nothing after a
   * reading past the deadline, and stops early only for a spent file budget or such a reading.
   */
  ghost predicate FirstPhase(clock: nat -> int, uploads: seq<ExpiredUpload>, maxFiles: Option<int>,
                             maxDuration: Option<int>, outcomes: seq<Outcome>, filesGone: int)
  {
    && AllFit(uploads, outcomes) && CountOf(outcomes, Unfinished) == 0
    && filesGone == Capped(TakenOf(uploads[..|outcomes|]), maxFiles)
    && (maxDuration.Some? ==> forall k :: 1 <= k <= |outcomes| ==> clock(k) <= clock(0) + maxDuration.value)
    && (StoppedEarly(uploads, outcomes) ==>
          || (maxFiles.Some? && filesGone == maxFiles.value)
          || (maxDuration.Some? && clock(1 + |outcomes|) > clock(0) + maxDuration.value))
  }

  /** The first phase stopped early, or it ended at or past the deadline. */
  ghost predicate FirstStops(clock: nat -> int, uploads: seq<ExpiredUpload>, maxDuration: Option<int>,
                             outcomes: seq<Outcome>)
  {
    || StoppedEarly(uploads, outcomes)
    || (maxDuration.Some? && clock(1 + |uploads|) >= clock(0) + maxDuration.value)
  }

  /** The second phase's turn: it is configured, and the uploads, the files and the time are not used up. */
  ghost predicate AsksCommitted(world: World, command: Command, uploads: seq<ExpiredUpload>, ends: Endings) {
    && world.cleansCommitted && |uploads| < command.limit
    && !FirstStops(world.clock, uploads, command.maxDuration, ends.expired)
    && (command.maxFiles.Some? ==> ends.filesGone < command.maxFiles.value)
  }

  /** The second phase, up to reading `to`: its time is what the first one left, but no more than a minute. */
  ghost predicate SecondPhase(clock: nat -> int, command: Command, listed: nat, ends: Endings, removed: int, to: nat) {
    && AllFitCommitted(ends.committedUploads, ends.committed)
    && (!ends.stopped ==> |ends.committed| == |ends.committedUploads|)
    && MinuteBounds(clock, FirstReading(command, listed), to, TimeLeft(clock, command, listed),
                    FilesLeft(command, ends.filesGone), ends.committedUploads, ends.committed, removed, ends.stopped)
  }

  ghost function FirstReading(command: Command, listed: nat): (reading: nat) {
    if command.maxDuration.Some? then 2 + listed else 1
  }

  ghost function TimeLeft(clock: nat -> int, command: Command, listed: nat): (time: Option<int>) {
    if command.maxDuration.Some? then Some(clock(0) + command.maxDuration.value - clock(1 + listed)) else None
  }

  ghost function FilesLeft(command: Command, filesGone: int): (files: Option<int>) {
    if command.maxFiles.Some? then Some(command.maxFiles.value - filesGone) else None
  }

  /** What becomes of the second phase: exactly when it is its turn, the uploads it asked for are cleaned. */
  ghost predicate CommittedFollows(world: World, command: Command, uploads: seq<ExpiredUpload>, ends: Endings,
                                   removed: int, to: nat)
  {
    if AsksCommitted(world, command, uploads, ends) then
      && world.listCommitted(command.limit - |uploads|) == Success(ends.committedUploads)
      && SecondPhase(world.clock, command, |uploads|, ends, removed - ends.filesGone, to)
    else ends.committedUploads == [] && ends.committed == [] && !ends.stopped
  }

  /** What fails a pass that got its first listing: the second listing or a claim of it. */
  ghost predicate CommittedFails(world: World, command: Command, uploads: seq<ExpiredUpload>, ends: Endings) {
    && AsksCommitted(world, command, uploads, ends)
    && var listing := world.listCommitted(command.limit - |uploads|);
       listing.Failure? || (|ends.committed| < |listing.value| && listing.value[|ends.committed|].claim == Fails)
  }

  ghost function SomeIfAny(n: int): (counted: Option<int>) {
    if n > 0 then Some(n) else None
  }

  /** The report of both phases: their outcomes counted, and a stop exactly when one of them stopped. */
  ghost predicate Follows(world: World, command: Command, ends: Endings, removed: int, to: nat, r: Report)
    requires 0 <= command.limit
  {
    var first := world.listExpired(command.limit);
    && first.Success?
    && FirstPhase(world.clock, first.value, command.maxFiles, command.maxDuration, ends.expired, ends.filesGone)
    && CommittedFollows(world, command, first.value, ends, removed, to)
    && Tallied(r, |first.value| + |ends.committedUploads|, ends.expired + ends.committed)
    && (r.budgetExhausted <==>
          FirstStops(world.clock, first.value, command.maxDuration, ends.expired) || ends.stopped)
    && r.committedDeleted == SomeIfAny(CountOf(ends.committed, Deleted))
  }

  /** The clock reading before the first upload is within the time budget. */
  predicate Starts(clock: nat -> int, maxDuration: Option<int>) {
    maxDuration.Some? ==> clock(1) <= clock(0) + maxDuration.value
  }

  /** Only rows of listed uploads go, and some do exactly when something is listed and time allows a start. */
  ghost predicate Took(listed: seq<ExpiredUpload>, starts: bool, rowsGone: set<FileKey>, uploadsGone: set<string>) {
    && rowsGone <= FilesOf(listed) && uploadsGone <= IdsOf(listed)
    && ((listed != [] ==> Unhindered(listed[0])) ==>
          (rowsGone != {} || uploadsGone != {} <==> listed != [] && starts))
  }

  /** The first phase of a pass, and what it leaves of the file and time budgets. */
  method RunExpired(clock: nat -> int, uploads: seq<ExpiredUpload>, maxFiles: Option<int>, maxDuration: Option<int>)
      returns (report: Report, run: Pass, remainingDuration: Option<int>, ghost outcomes: seq<Outcome>)
    requires maxFiles.Some? ==> maxFiles.value >= 1
    ensures fresh(run) && run.log == [] && Tallied(report, |uploads|, outcomes)
    ensures FirstPhase(clock, uploads, maxFiles, maxDuration, outcomes, run.removed) && run.clock == clock
    ensures report.budgetExhausted <==> FirstStops(clock, uploads, maxDuration, outcomes)
    ensures report.committedDeleted == None && run.attempts <= run.removed + report.failed
    ensures maxFiles.Some? <==> run.filesRemaining.Some?
    ensures maxFiles.Some? ==> run.filesRemaining.value == maxFiles.value - run.removed >= 0
    ensures !report.budgetExhausted ==>
              if maxDuration.None? then run.readings == 1 && remainingDuration == None
              else
                && run.readings == 2 + |uploads|
                && remainingDuration == Some(clock(0) + maxDuration.value - clock(1 + |uploads|))
    ensures Took(uploads, Starts(clock, maxDuration), run.rowsGone, run.uploadsGone)
  {
    run := new Pass(clock, maxFiles);
    var now := run.Now();
    var deadline := if maxDuration.Some? then Some(now + maxDuration.value) else None;
    var ended, exhausted := run.CleanExpired(uploads, deadline);
    outcomes := ended;
    var deleted, alreadyAbsent := CountOf(ended, Deleted), CountOf(ended, AlreadyAbsent);
    report := Report(|uploads|, deleted, alreadyAbsent, CountOf(ended, Failed), CountOf(ended, ClaimRejected),
                     |uploads| - deleted - alreadyAbsent, exhausted, None);
    remainingDuration := None;
    if deadline.Some? {
      var later := run.Now();
      remainingDuration := Some(if deadline.value - later > 0 then deadline.value - later else 0);
    }
    if remainingDuration == Some(0) { report := report.(budgetExhausted := true); }
  }

  lemma AccountsOf(r: Report, limit: int, maxFiles: Option<int>, attempts: nat, removed: nat, selected: nat,
                   outcomes: seq<Outcome>)
    requires Tallied(r, selected, outcomes) && |outcomes| <= selected <= limit
    requires attempts <= removed + CountOf(outcomes, Failed) && (maxFiles.Some? ==> removed <= maxFiles.value)
    ensures Accounts(r, limit, maxFiles, attempts, removed)
  {
    CountsAddUp(outcomes);
  }

  lemma MergedAccounts(r: Report, first: nat, outcomes: seq<Outcome>, second: nat, more: seq<Outcome>, stopped: bool,
                       limit: int, maxFiles: Option<int>, attempts: nat, removed: nat)
    requires Tallied(r, first, outcomes) && CountOf(more, AlreadyAbsent) == 0
    requires |outcomes| <= first && |more| <= second && first + second <= limit
    requires attempts <= removed + CountOf(outcomes, Failed) + CountOf(more, Failed)
    requires maxFiles.Some? ==> removed <= maxFiles.value
    ensures Tallied(Merged(r, second, more, stopped), first + second, outcomes + more)
    ensures Accounts(Merged(r, second, more, stopped), limit, maxFiles, attempts, removed)
  {
    MergedTallies(r, first, outcomes, second, more, stopped);
    CountAppend(outcomes, more, Failed);
    AccountsOf(Merged(r, second, more, stopped), limit, maxFiles, attempts, removed, first + second, outcomes + more);
  }

  /** The second phase of a pass, when it is its turn. */
  method RunCommitted(world: World, command: Command, uploads: seq<ExpiredUpload>, run: Pass,
                      remainingDuration: Option<int>, first: Report, ghost outcomes: seq<Outcome>)
      returns (result: Result<Report>, ghost ends: Endings)
    requires world.KeepsLimits() && run.clock == world.clock && run.log == []
    requires Tallied(first, |uploads|, outcomes) && !first.budgetExhausted && |outcomes| <= |uploads|
    requires AsksCommitted(world, command, uploads, Endings(outcomes, run.removed, [], [], false))
    requires run.attempts <= run.removed + CountOf(outcomes, Failed)
    requires run.filesRemaining == FilesLeft(command, run.removed)
    requires run.readings == FirstReading(command, |uploads|)
    requires remainingDuration == TimeLeft(world.clock, command, |uploads|)
    modifies run`attempts, run`removed, run`readings, run`log
    ensures ends.expired == outcomes && ends.filesGone == old(run.removed)
    ensures result.Failure? ==> result.error == RepositoryFailure && CommittedFails(world, command, uploads, ends)
    ensures result.Success? ==>
              && Careful(run.log) && CommittedFollows(world, command, uploads, ends, run.removed, run.readings)
              && Tallied(result.value, |uploads| + |ends.committedUploads|, outcomes + ends.committed)
              && result.value.budgetExhausted == ends.stopped
              && result.value.committedDeleted == SomeIfAny(CountOf(ends.committed, Deleted))
              && Accounts(result.value, command.limit, command.maxFiles, run.attempts, run.removed)
  {
    ends := Endings(outcomes, run.removed, [], [], false);
    var committed := world.listCommitted(command.limit - |uploads|);
    if committed.Failure? { return Failure(RepositoryFailure), ends; }
    var failed, more, stopped := run.CleanCommitted(committed.value, run.filesRemaining, remainingDuration);
    ends := ends.(committedUploads := committed.value, committed := more, stopped := stopped);
    if failed { return Failure(RepositoryFailure), ends; }
    var report := Merged(first, |committed.value|, more, stopped);
    MergedAccounts(first, |uploads|, outcomes, |committed.value|, more, stopped, command.limit, command.maxFiles,
                   run.attempts, run.removed);
    result := Success(report);
  }

  /** Without a second phase the first one's report stands. */
  lemma FirstStands(world: World, command: Command, uploads: seq<ExpiredUpload>, outcomes: seq<Outcome>,
                    filesGone: int, to: nat, attempts: nat, removed: nat, r: Report)
    requires world.KeepsLimits() && 0 <= command.limit && world.listExpired(command.limit) == Success(uploads)
    requires FirstPhase(world.clock, uploads, command.maxFiles, command.maxDuration, outcomes, filesGone)
    requires Tallied(r, |uploads|, outcomes) && r.committedDeleted == None
    requires r.budgetExhausted <==> FirstStops(world.clock, uploads, command.maxDuration, outcomes)
    requires attempts <= removed + r.failed && (command.maxFiles.Some? ==> removed <= command.maxFiles.value)
    requires !AsksCommitted(world, command, uploads, Endings(outcomes, filesGone, [], [], false))
    ensures Follows(world, command, Endings(outcomes, filesGone, [], [], false), removed, to, r)
    ensures Accounts(r, command.limit, command.maxFiles, attempts, removed)
    ensures !r.budgetExhausted ==> r.selected == r.deleted + r.alreadyAbsent + r.failed + r.claimRejected
  {
    assert outcomes + [] == outcomes;
    CountsAddUp(outcomes);
    AccountsOf(r, command.limit, command.maxFiles, attempts, removed, |uploads|, outcomes);
  }

  /** A pass over the uploads listed for it. */
  method RunListed(world: World, command: Command, uploads: seq<ExpiredUpload>)
      returns (result: Result<Report>, pass: Pass, ghost ends: Endings)
    requires world.KeepsLimits() && 0 <= command.limit && world.listExpired(command.limit) == Success(uploads)
    requires command.maxFiles.Some? ==> 1 <= command.maxFiles.value
    ensures fresh(pass)
    ensures Took(uploads, Starts(world.clock, command.maxDuration), pass.rowsGone, pass.uploadsGone)
    ensures FirstPhase(world.clock, uploads, command.maxFiles, command.maxDuration, ends.expired, ends.filesGone)
    ensures result.Failure? ==> result.error == RepositoryFailure && CommittedFails(world, command, uploads, ends)
    ensures result.Success? ==>
              && Careful(pass.log) && Follows(world, command, ends, pass.removed, pass.readings, result.value)
              && Accounts(result.value, command.limit, command.maxFiles, pass.attempts, pass.removed)
    ensures result.Success? && !world.cleansCommitted && !result.value.budgetExhausted ==>
              var r := result.value; r.selected == r.deleted + r.alreadyAbsent + r.failed + r.claimRejected
  {
    ghost var outcomes;
    var report, remainingDuration;
    report, pass, remainingDuration, outcomes :=
      RunExpired(world.clock, uploads, command.maxFiles, command.maxDuration);
    if !report.budgetExhausted && world.cleansCommitted && command.limit > |uploads|
       && (pass.filesRemaining.Some? ==> pass.filesRemaining.value > 0)
    {
      result, ends := RunCommitted(world, command, uploads, pass, remainingDuration, report, outcomes);
    } else {
      ends := Endings(outcomes, pass.removed, [], [], false);
      FirstStands(world, command, uploads, outcomes, pass.removed, pass.readings, pass.attempts, pass.removed, report);
      result := Success(report);
    }
  }

  /** The two phases under one limit, one file budget and one report. */
  method RunPass(world: World, command: Command)
      returns (result: Result<Report>, ghost pass: Pass?, ghost ends: Endings)
    requires world.KeepsLimits()
    ensures result.Failure? && result.error == InvalidPagination <==> !(1 <= command.limit <= 1_000)
    ensures result.Failure? && result.error == InvalidCleanupBudget <==>
              && 1 <= command.limit <= 1_000
              && (|| (command.maxFiles.Some? && !(1 <= command.maxFiles.value <= 1_000_000))
                  || (command.maxDuration.Some? && !(1 <= command.maxDuration.value <= 86_400_000)))
    ensures result.Success? ==> pass != null && Careful(pass.log)
    // Whatever the second phase does, the first one stands: what it removed was listed, and it made progress exactly
    // when something was listed and time allowed a start.
    ensures pass != null <==>
              || result.Success?
              || (result.error == RepositoryFailure && world.listExpired(command.limit).Success?)
    ensures pass != null ==>
              && fresh(pass) && world.listExpired(command.limit).Success?
              && Took(world.listExpired(command.limit).value, Starts(world.clock, command.maxDuration),
                      pass.rowsGone, pass.uploadsGone)
              && FirstPhase(world.clock, world.listExpired(command.limit).value, command.maxFiles, command.maxDuration,
                            ends.expired, ends.filesGone)
    ensures pass != null && result.Failure? ==>
              CommittedFails(world, command, world.listExpired(command.limit).value, ends)
    ensures result.Success? ==> Accounts(result.value, command.limit, command.maxFiles, pass.attempts, pass.removed)
    ensures result.Success? ==> Follows(world, command, ends, pass.removed, pass.readings, result.value)
    ensures result.Success? && !world.cleansCommitted && !result.value.budgetExhausted ==>
              var r := result.value; r.selected == r.deleted + r.alreadyAbsent + r.failed + r.claimRejected
  {
    ends, pass := Endings([], 0, [], [], false), null;
    if !(1 <= command.limit <= MAX_LIMIT) { return Failure(InvalidPagination), null, ends; }
    if !(ValidBudget(command.maxFiles, MAX_FILES) && ValidBudget(command.maxDuration, MAX_DURATION)) {
      return Failure(InvalidCleanupBudget), null, ends;
    }
    var listing := world.listExpired(command.limit);
    if listing.Failure? { return Failure(RepositoryFailure), null, ends; }
    result, pass, ends := RunListed(world, command, listing.value);
  }
}
