/** Throttled recording of last-active and last-used instants. */
module PrincipalActivity {
  import opened OrderedMaps

  const RESOLUTION := 300_000

  datatype Kind = ApiKey | Member

  datatype Subject = Subject(id: string, kind: Kind)

  function KeyOf(subject: Subject): string {
    (if subject.kind.ApiKey? then "api_key" else "member") + ":" + subject.id
  }

  lemma KeyOfInjective(a: Subject, b: Subject)
    ensures KeyOf(a) == KeyOf(b) <==> a == b
  {
    if KeyOf(a) == KeyOf(b) {
      assert KeyOf(a)[0] == KeyOf(b)[0];
      var n := if a.kind.ApiKey? then 8 else 7;
      assert a.id == KeyOf(a)[n..] && b.id == KeyOf(b)[n..];
    }
  }

  // ---------- the recorder ----------

  /** The store moves forward only past `gap`: `RESOLUTION` in the shipped stores, 0 for one that always writes. */
  predicate TakesTouch(stored: Option<int>, at: int, gap: nat) {
    stored.None? || stored.value < at - gap
  }

  function Touched(stored: Option<int>, at: int, gap: nat): int {
    if TakesTouch(stored, at, gap) then at else stored.value
  }

  /** The guard leaves the touch out although the row holds an older instant. */
  predicate Refuses(stored: Option<int>, at: int, gap: nat) {
    !TakesTouch(stored, at, gap) && stored.value < at
  }

  // ---------- the throttle ----------

  /** `due` is the list a running flush still has to write. */
  datatype Throttle = Throttle(lastNoted: Entries<string, int>, pending: Entries<string, int>,
                               due: Entries<string, int>)

  predicate Throttled(t: Throttle, key: string, now: int) {
    Lookup(t.lastNoted, key).Some? && now - Lookup(t.lastNoted, key).value < RESOLUTION
  }

  function Noted(t: Throttle, maxSubjects: nat, key: string, now: int): Throttle {
    if Throttled(t, key, now) then t
    else t.(lastNoted := Bounded(Renew(t.lastNoted, key, now), maxSubjects), pending := Put(t.pending, key, now))
  }

  function FlushBegun(t: Throttle): Throttle {
    t.(due := t.pending, pending := [])
  }

  function FirstWritten(t: Throttle, ok: bool): Throttle
    requires t.due != []
  {
    t.(due := t.due[1..], lastNoted := if ok then t.lastNoted else Delete(t.lastNoted, t.due[0].key))
  }

  class Activity {
    const maxSubjects: nat
    var lastNoted: Entries<string, int>
    var pending: Entries<string, int>
    var due: Entries<string, int>

    function State(): Throttle
      reads this
    {
      Throttle(lastNoted, pending, due)
    }

    constructor (maxSubjects: nat)
      ensures this.maxSubjects == maxSubjects && State() == Throttle([], [], [])
    {
      this.maxSubjects := maxSubjects;
      lastNoted, pending, due := [], [], [];
    }

    method Note(subject: Subject, now: int)
      modifies this`lastNoted, this`pending
      ensures State() == Noted(old(State()), maxSubjects, KeyOf(subject), now)
    {
      var key := KeyOf(subject);
      var previous := Lookup(lastNoted, key);
      if previous.Some? && now - previous.value < RESOLUTION { return; }
      lastNoted := Delete(lastNoted, key);
      lastNoted := lastNoted + [Pair(key, now)];
      if |lastNoted| > maxSubjects { lastNoted := lastNoted[1..]; }
      pending := Put(pending, key, now);
    }

    method BeginFlush()
      requires due == []
      modifies this`due, this`pending
      ensures State() == FlushBegun(old(State()))
    {
      due := pending;
      pending := [];
    }

    /** The recorder answered the oldest due write; a failure forgets the throttle entry so the next use retries. */
    method WriteFirst(ok: bool)
      requires due != []
      modifies this`due, this`lastNoted
      ensures State() == FirstWritten(old(State()), ok)
    {
      var key := due[0].key;
      due := due[1..];
      if !ok { lastNoted := Delete(lastNoted, key); }
    }
  }

  // ---------- runs: uses, flushes and stores interleaved ----------

  /**
   * `lastUse` and `newest` record what happened: the latest use of a key and the latest instant queued for it.
   * `failed` holds the keys with a failed write since then, `refused` those whose latest write the store's guard
   * left out and whose row still holds an older instant. `stored` is shared with other processes.
   */
  datatype System = System(
    now: int, throttle: Throttle, stored: map<string, int>,
    lastUse: map<string, int>, newest: map<string, int>, failed: set<string>, refused: set<string>)

  datatype Step =
    | Use(key: string, at: int)
    | BeginFlush
    | WriteSucceeds
    | WriteFails
    | OthersTouch(key: string, at: int)

  /** The clock is monotone and flushes do not overlap; nothing is asked of other processes' clocks. */
  predicate Enabled(s: System, step: Step) {
    match step
    case Use(_, at) => s.now <= at
    case BeginFlush => s.throttle.due == []
    case WriteSucceeds => s.throttle.due != []
    case WriteFails => s.throttle.due != []
    case OthersTouch(_, _) => true
  }

  function Get(m: map<string, int>, key: string): Option<int> {
    if key in m then Some(m[key]) else None
  }

  function Take(maxSubjects: nat, gap: nat, s: System, step: Step): System
    requires Enabled(s, step)
  {
    match step
    case Use(key, at) =>
      var used := s.(now := at, throttle := Noted(s.throttle, maxSubjects, key, at), lastUse := s.lastUse[key := at]);
      if Throttled(s.throttle, key, at) then used
      else used.(newest := s.newest[key := at], failed := s.failed - {key})
    case BeginFlush => s.(throttle := FlushBegun(s.throttle))
    case WriteSucceeds =>
      var touch := s.throttle.due[0];
      s.(throttle := FirstWritten(s.throttle, true),
         stored := s.stored[touch.key := Touched(Get(s.stored, touch.key), touch.value, gap)],
         refused := if Refuses(Get(s.stored, touch.key), touch.value, gap) then s.refused + {touch.key}
                    else s.refused - {touch.key})
    case WriteFails =>
      s.(throttle := FirstWritten(s.throttle, false), failed := s.failed + {s.throttle.due[0].key})
    case OthersTouch(key, at) =>
      var instant := Touched(Get(s.stored, key), at, gap);
      s.(stored := s.stored[key := instant],
         refused := if key in s.newest && s.newest[key] <= instant then s.refused - {key} else s.refused)
  }

  ghost predicate Runs(maxSubjects: nat, gap: nat, s: System, steps: seq<Step>, s': System)
    decreases |steps|
  {
    if steps == [] then s' == s
    else Enabled(s, steps[0]) && Runs(maxSubjects, gap, Take(maxSubjects, gap, s, steps[0]), steps[1..], s')
  }

  /** A process starts with nothing noted, on a store that may hold any instants. */
  ghost predicate Initial(s: System) {
    && s.throttle == Throttle([], [], [])
    && s.lastUse == map[] && s.newest == map[] && s.failed == {} && s.refused == {}
  }

  /** The newest queued instant of a key is on its way, stored closely enough, or its write failed. */
  ghost predicate Covered(gap: nat, s: System, key: string)
    requires key in s.newest
  {
    var at := s.newest[key];
    || Lookup(s.throttle.pending, key) == Some(at)
    || Pair(key, at) in s.throttle.due
    || (key in s.stored && at <= s.stored[key] + gap && (key in s.refused <==> s.stored[key] < at))
    || key in s.failed
  }

  ghost predicate KeyInv(gap: nat, s: System, key: string) {
    && (key in s.lastUse <==> key in s.newest)
    && (key in s.newest ==>
          && s.newest[key] <= s.lastUse[key] < s.newest[key] + RESOLUTION
          && s.lastUse[key] <= s.now
          && Covered(gap, s, key)
          && (Lookup(s.throttle.lastNoted, key).Some? ==> Lookup(s.throttle.lastNoted, key).value == s.newest[key]))
    && (key !in s.newest ==> Lookup(s.throttle.lastNoted, key).None?)
  }

  /** A due touch carries the newest instant, or a newer one is pending behind it. */
  ghost predicate DueIsOverdue(s: System, e: Pair<string, int>)
    requires e.key in s.newest
  {
    || e.value == s.newest[e.key]
    || (e.value < s.newest[e.key] && Lookup(s.throttle.pending, e.key) == Some(s.newest[e.key]))
  }

  ghost predicate Inv(gap: nat, s: System) {
    && Distinct(s.throttle.lastNoted) && Distinct(s.throttle.pending) && Distinct(s.throttle.due)
    && (forall e :: e in s.throttle.pending ==> e.key in s.newest && e.value == s.newest[e.key])
    && (forall e :: e in s.throttle.due ==> e.key in s.newest && DueIsOverdue(s, e))
    && (forall key :: KeyInv(gap, s, key))
  }

  lemma {:induction false} PutMembers(m: Entries<string, int>, key: string, at: int)
    ensures forall e :: e in Put(m, key, at) ==> e in m || e == Pair(key, at)
  {
    if m != [] {
      PutMembers(m[1..], key, at);
    }
  }

  lemma {:induction false} PendingValue(m: Entries<string, int>, e: Pair<string, int>)
    requires Distinct(m) && e in m
    ensures Lookup(m, e.key) == Some(e.value)
  {
    if m[0] != e {
      var i :| 0 <= i < |m| && m[i] == e;
      assert m[1..][i - 1] == e && Distinct(m[1..]);
      PendingValue(m[1..], e);
    }
  }

  lemma UseKeepsInv(maxSubjects: nat, gap: nat, s: System, key: string, at: int)
    requires Inv(gap, s) && Enabled(s, Use(key, at))
    ensures Inv(gap, Take(maxSubjects, gap, s, Use(key, at)))
  {
    var s' := Take(maxSubjects, gap, s, Use(key, at));
    var t := s.throttle;
    assert KeyInv(gap, s, key);
    if !Throttled(t, key, at) {
      RenewEntries(t.lastNoted, key, at);
      BoundedEntries(Renew(t.lastNoted, key, at), maxSubjects);
      PutEntries(t.pending, key, at);
      PutMembers(t.pending, key, at);
    }
    forall e | e in s'.throttle.pending ensures e.key in s'.newest && e.value == s'.newest[e.key] {
      PendingValue(s'.throttle.pending, e);
    }
    forall k ensures KeyInv(gap, s', k) {
      assert KeyInv(gap, s, k);
    }
  }

  lemma FlushKeepsInv(maxSubjects: nat, gap: nat, s: System)
    requires Inv(gap, s) && Enabled(s, BeginFlush)
    ensures Inv(gap, Take(maxSubjects, gap, s, BeginFlush))
  {
    var s' := Take(maxSubjects, gap, s, BeginFlush);
    forall k ensures KeyInv(gap, s', k) {
      assert KeyInv(gap, s, k);
      LookupIsEntry(s.throttle.pending, k);
    }
  }

  lemma WriteKeepsInv(maxSubjects: nat, gap: nat, s: System, step: Step)
    requires Inv(gap, s) && Enabled(s, step) && step in {WriteSucceeds, WriteFails}
    ensures Inv(gap, Take(maxSubjects, gap, s, step))
  {
    var s' := Take(maxSubjects, gap, s, step);
    var touch := s.throttle.due[0];
    assert touch in s.throttle.due;
    DeleteEntries(s.throttle.lastNoted, touch.key);
    DistinctCons(s.throttle.due);
    assert forall e :: e in s'.throttle.due ==> e in s.throttle.due;
    forall k ensures KeyInv(gap, s', k) {
      assert KeyInv(gap, s, k);
      LookupDelete(s.throttle.lastNoted, touch.key, k);
      assert forall e :: e in s.throttle.due ==> e == touch || e in s'.throttle.due;
    }
  }

  lemma StepKeepsInv(maxSubjects: nat, gap: nat, s: System, step: Step)
    requires Inv(gap, s) && Enabled(s, step)
    ensures Inv(gap, Take(maxSubjects, gap, s, step))
  {
    match step
    case Use(key, at) => UseKeepsInv(maxSubjects, gap, s, key, at);
    case BeginFlush => FlushKeepsInv(maxSubjects, gap, s);
    case OthersTouch(key, at) => OthersKeepInv(maxSubjects, gap, s, key, at);
    case _ => WriteKeepsInv(maxSubjects, gap, s, step);
  }

  /** Whatever other processes write, a stored instant only moves forward. */
  lemma OthersKeepInv(maxSubjects: nat, gap: nat, s: System, key: string, at: int)
    requires Inv(gap, s)
    ensures Inv(gap, Take(maxSubjects, gap, s, OthersTouch(key, at)))
  {
    var s' := Take(maxSubjects, gap, s, OthersTouch(key, at));
    forall k ensures KeyInv(gap, s', k) {
      assert KeyInv(gap, s, k);
    }
  }

  lemma {:induction false} RunKeepsInv(maxSubjects: nat, gap: nat, s: System, steps: seq<Step>, s': System)
    requires Inv(gap, s) && Runs(maxSubjects, gap, s, steps, s')
    ensures Inv(gap, s')
    decreases |steps|
  {
    if steps != [] {
      StepKeepsInv(maxSubjects, gap, s, steps[0]);
      RunKeepsInv(maxSubjects, gap, Take(maxSubjects, gap, s, steps[0]), steps[1..], s');
    }
  }

  /** In every reachable state: a use is queued unless its key's last queued instant is noted and recent. */
  lemma UseIsQueued(maxSubjects: nat, gap: nat, s: System, key: string, at: int)
    requires Inv(gap, s) && s.now <= at
    ensures var next := Take(maxSubjects, gap, s, Use(key, at));
            if key in s.newest && Lookup(s.throttle.lastNoted, key).Some? && at < s.newest[key] + 300_000
            then next.throttle == s.throttle && next.newest == s.newest
            else Lookup(next.throttle.pending, key) == Some(at) && next.newest == s.newest[key := at]
  {
    assert KeyInv(gap, s, key);
    PutEntries(s.throttle.pending, key, at);
  }

  ghost predicate UsesKey(steps: seq<Step>, key: string) {
    exists i :: 0 <= i < |steps| && steps[i].Use? && steps[i].key == key
  }

  lemma {:induction false} UnusedStaysForgotten(maxSubjects: nat, gap: nat, s: System, steps: seq<Step>, s': System,
                                                key: string)
    requires Inv(gap, s) && Runs(maxSubjects, gap, s, steps, s') && !UsesKey(steps, key)
    requires Lookup(s.throttle.lastNoted, key).None?
    ensures Lookup(s'.throttle.lastNoted, key).None?
    decreases |steps|
  {
    if steps != [] {
      var next := Take(maxSubjects, gap, s, steps[0]);
      assert !(steps[0].Use? && steps[0].key == key);
      assert forall i :: 0 <= i < |steps[1..]| ==> steps[1..][i] == steps[i + 1];
      StepKeepsInv(maxSubjects, gap, s, steps[0]);
      match steps[0] {
        case Use(other, at) =>
          RenewEntries(s.throttle.lastNoted, other, at);
          BoundedEntries(Renew(s.throttle.lastNoted, other, at), maxSubjects);
        case WriteFails => LookupDelete(s.throttle.lastNoted, s.throttle.due[0].key, key);
        case _ =>
      }
      UnusedStaysForgotten(maxSubjects, gap, next, steps[1..], s', key);
    }
  }

  /** After a failed write the next use of that key is queued again, however soon it comes and whatever comes before. */
  lemma FailedWriteIsRetried(maxSubjects: nat, gap: nat, s: System, steps: seq<Step>, s': System, at: int)
    requires Inv(gap, s) && s.throttle.due != []
    requires Runs(maxSubjects, gap, Take(maxSubjects, gap, s, WriteFails), steps, s')
    requires !UsesKey(steps, s.throttle.due[0].key) && s'.now <= at
    ensures var key, next := s.throttle.due[0].key, Take(maxSubjects, gap, s', Use(s.throttle.due[0].key, at));
            Lookup(next.throttle.pending, key) == Some(at) && next.newest == s'.newest[key := at]
  {
    var key, failed := s.throttle.due[0].key, Take(maxSubjects, gap, s, WriteFails);
    StepKeepsInv(maxSubjects, gap, s, WriteFails);
    RunKeepsInv(maxSubjects, gap, failed, steps, s');
    LookupDelete(s.throttle.lastNoted, key, key);
    UnusedStaysForgotten(maxSubjects, gap, failed, steps, s', key);
    UseIsQueued(maxSubjects, gap, s', key, at);
  }

  type Touches = set<Pair<string, int>>

  /** The run's own uses. */
  function Uses(steps: seq<Step>): (uses: Touches) {
    if steps == [] then {}
    else Uses(steps[1..]) + if steps[0].Use? then {Pair(steps[0].key, steps[0].at)} else {}
  }

  /** What other processes touched meanwhile. */
  function Others(steps: seq<Step>): (others: Touches) {
    if steps == [] then {}
    else Others(steps[1..]) + if steps[0].OthersTouch? then {Pair(steps[0].key, steps[0].at)} else {}
  }

  /** Whatever is pending or due is one of `uses`, whatever is stored one of `uses` or `others`. */
  ghost predicate Known(s: System, uses: Touches, others: Touches) {
    && (forall key :: key in s.stored ==> Pair(key, s.stored[key]) in uses + others)
    && (forall e :: e in s.throttle.pending + s.throttle.due ==> e in uses)
    && (forall e :: e in uses ==> e.key in s.lastUse && e.value <= s.lastUse[e.key])
  }

  lemma StepKeepsKnown(maxSubjects: nat, gap: nat, s: System, step: Step, uses: Touches, others: Touches)
    requires Inv(gap, s) && Known(s, uses, others) && Enabled(s, step)
    ensures Known(Take(maxSubjects, gap, s, step), uses + Uses([step]), others + Others([step]))
  {
    var s' := Take(maxSubjects, gap, s, step);
    if step.Use? {
      PutMembers(s.throttle.pending, step.key, step.at);
      assert KeyInv(gap, s, step.key);
    }
    if step == WriteSucceeds {
      assert s.throttle.due[0] in s.throttle.pending + s.throttle.due;
    }
    forall e | e in s'.throttle.pending + s'.throttle.due ensures e in uses + Uses([step]) {
      assert e in s.throttle.pending + s.throttle.due || (step.Use? && e == Pair(step.key, step.at));
    }
  }

  lemma {:induction false} RunKeepsKnown(maxSubjects: nat, gap: nat, s: System, steps: seq<Step>, s': System,
                                         uses: Touches, others: Touches)
    requires Inv(gap, s) && Known(s, uses, others) && Runs(maxSubjects, gap, s, steps, s')
    ensures Known(s', uses + Uses(steps), others + Others(steps))
    decreases |steps|
  {
    if steps != [] {
      var first, rest := steps[0], steps[1..];
      StepKeepsKnown(maxSubjects, gap, s, first, uses, others);
      StepKeepsInv(maxSubjects, gap, s, first);
      RunKeepsKnown(maxSubjects, gap, Take(maxSubjects, gap, s, first), rest, s',
                    uses + Uses([first]), others + Others([first]));
      assert [first][1..] == [];
      assert uses + Uses([first]) + Uses(rest) == uses + Uses(steps);
      assert others + Others([first]) + Others(rest) == others + Others(steps);
    }
  }

  /**
   * Over every run, however small the throttle, whatever the store held at the start and whatever other processes
   * write: once a flush has finished and nothing failed for a key, its latest use is less than one resolution plus the
   * store's own gap after its stored instant, and that instant is one of its uses and no later than the latest, or was
   * there at the start, or came from another process.
   */
  lemma StoredInstantIsRecent(maxSubjects: nat, gap: nat, s: System, steps: seq<Step>, s': System, key: string)
    requires Initial(s) && Runs(maxSubjects, gap, s, steps, s')
    requires s'.throttle.pending == [] && s'.throttle.due == []
    requires key in s'.lastUse && key !in s'.failed
    ensures key in s'.stored && s'.lastUse[key] < s'.stored[key] + RESOLUTION + gap
    ensures || (Pair(key, s'.stored[key]) in Uses(steps) && s'.stored[key] <= s'.lastUse[key])
            || Get(s.stored, key) == Some(s'.stored[key])
            || Pair(key, s'.stored[key]) in Others(steps)
  {
    assert forall k :: KeyInv(gap, s, k);
    RunKeepsInv(maxSubjects, gap, s, steps, s');
    assert KeyInv(gap, s', key);
    RunKeepsKnown(maxSubjects, gap, s, steps, s', {}, set k | k in s.stored :: Pair(k, s.stored[k]));
  }

  // ---------- how tight the bound is ----------

  predicate WithinResolution(instant: int, use: int) {
    use < instant + RESOLUTION
  }

  /** A run without another write of `key`: whatever happens, its own uses are throttled. */
  ghost predicate QuietRuns(maxSubjects: nat, gap: nat, key: string, s: System, steps: seq<Step>, s': System)
    decreases |steps|
  {
    if steps == [] then s' == s
    else
      && Enabled(s, steps[0])
      && (steps[0].Use? && steps[0].key == key ==> Throttled(s.throttle, key, steps[0].at))
      && QuietRuns(maxSubjects, gap, key, Take(maxSubjects, gap, s, steps[0]), steps[1..], s')
  }

  /** Every use that the throttle may still silence stays within one resolution of the stored instant. */
  ghost predicate StaysWithinResolution(maxSubjects: nat, gap: nat, key: string, s: System) {
    forall steps, s' :: QuietRuns(maxSubjects, gap, key, s, steps, s') ==>
      key in s'.stored && key in s'.lastUse && WithinResolution(s'.stored[key], s'.lastUse[key])
  }

  /** The throttle can still silence a use of `key`. */
  predicate Silences(s: System, key: string)
    requires key in s.newest
  {
    Lookup(s.throttle.lastNoted, key).Some? && s.now < s.newest[key] + RESOLUTION
  }

  /** Nothing of `key` is on its way to the store, and its latest write went through. */
  ghost predicate Settled(s: System, key: string) {
    && key in s.newest && key !in s.failed
    && key !in Keys(s.throttle.pending) && key !in Keys(s.throttle.due)
  }

  lemma QuietStepKeepsStored(maxSubjects: nat, gap: nat, key: string, s: System, step: Step)
    requires Inv(gap, s) && Settled(s, key) && Enabled(s, step)
    requires step.Use? && step.key == key ==> Throttled(s.throttle, key, step.at)
    ensures var s' := Take(maxSubjects, gap, s, step);
            && key in s'.newest && s'.newest[key] == s.newest[key]
            && key !in Keys(s'.throttle.pending) && key !in Keys(s'.throttle.due)
            && NotBefore(Get(s'.stored, key), Get(s.stored, key)) && key !in s'.failed && s.now <= s'.now
            && (Silences(s', key) ==> Silences(s, key))
            && (key in s'.lastUse && (Get(s'.lastUse, key) == Get(s.lastUse, key)
                                      || (Silences(s, key) && s'.lastUse[key] < s.newest[key] + RESOLUTION)))
  {
    assert KeyInv(gap, s, key);
    var t := s.throttle;
    match step {
      case Use(k, at) =>
        if !Throttled(t, k, at) {
          RenewEntries(t.lastNoted, k, at);
          BoundedEntries(Renew(t.lastNoted, k, at), maxSubjects);
          PutEntries(t.pending, k, at);
        }
      case BeginFlush =>
      case OthersTouch(_, _) =>
      case _ =>
        KeysCons(t.due);
        LookupDelete(t.lastNoted, t.due[0].key, key);
    }
  }

  predicate NotBefore(later: Option<int>, earlier: Option<int>) {
    earlier.Some? ==> later.Some? && earlier.value <= later.value
  }

  lemma {:induction false} QuietRunKeepsStored(maxSubjects: nat, gap: nat, key: string, s: System, steps: seq<Step>,
                                               s': System)
    requires Inv(gap, s) && Settled(s, key) && QuietRuns(maxSubjects, gap, key, s, steps, s')
    ensures NotBefore(Get(s'.stored, key), Get(s.stored, key))
    ensures key in s'.lastUse && (Get(s'.lastUse, key) == Get(s.lastUse, key)
                                  || (Silences(s, key) && s'.lastUse[key] < s.newest[key] + RESOLUTION))
    decreases |steps|
  {
    assert KeyInv(gap, s, key);
    if steps != [] {
      QuietStepKeepsStored(maxSubjects, gap, key, s, steps[0]);
      StepKeepsInv(maxSubjects, gap, s, steps[0]);
      QuietRunKeepsStored(maxSubjects, gap, key, Take(maxSubjects, gap, s, steps[0]), steps[1..], s');
    }
  }

  /** The last use the throttle can silence. */
  lemma LastSilencedUse(maxSubjects: nat, gap: nat, key: string, s: System) returns (steps: seq<Step>, s': System)
    requires Inv(gap, s) && Settled(s, key) && Silences(s, key)
    ensures QuietRuns(maxSubjects, gap, key, s, steps, s') && s'.stored == s.stored
    ensures key in s'.lastUse && s'.lastUse[key] == s.newest[key] + RESOLUTION - 1
  {
    assert KeyInv(gap, s, key);
    var use := Use(key, s.newest[key] + RESOLUTION - 1);
    s' := Take(maxSubjects, gap, s, use);
    steps := [use];
    assert steps[1..] == [];
  }

  /**
   * When one resolution alone is enough. In every reachable state, once nothing of a key is on its way and its latest
   * write went through, every later use that the throttle silences stays less than one resolution after the stored
   * instant exactly when the row is not behind a write that the store's guard refused, or its latest use is still
   * within one resolution and the throttle can silence no further one.
   */
  lemma OneResolutionIffTaken(maxSubjects: nat, gap: nat, s0: System, steps: seq<Step>, s: System, key: string)
    requires Initial(s0) && Runs(maxSubjects, gap, s0, steps, s) && Settled(s, key)
    ensures key in s.stored && key in s.lastUse
    ensures key in s.refused <==> s.stored[key] < s.newest[key]
    ensures StaysWithinResolution(maxSubjects, gap, key, s) <==>
              key !in s.refused || (WithinResolution(s.stored[key], s.lastUse[key]) && !Silences(s, key))
  {
    assert forall k :: KeyInv(gap, s0, k);
    RunKeepsInv(maxSubjects, gap, s0, steps, s);
    assert KeyInv(gap, s, key);
    LookupIsEntry(s.throttle.pending, key);
    forall e | e in s.throttle.due ensures e.key != key {
      var i :| 0 <= i < |s.throttle.due| && s.throttle.due[i] == e;
    }
    assert QuietRuns(maxSubjects, gap, key, s, [], s);
    if key !in s.refused || (WithinResolution(s.stored[key], s.lastUse[key]) && !Silences(s, key)) {
      forall later, s' | QuietRuns(maxSubjects, gap, key, s, later, s')
        ensures key in s'.stored && key in s'.lastUse && WithinResolution(s'.stored[key], s'.lastUse[key])
      {
        QuietRunKeepsStored(maxSubjects, gap, key, s, later, s');
      }
    } else if Silences(s, key) {
      var later, s' := LastSilencedUse(maxSubjects, gap, key, s);
    }
  }

  /** With the shipped gap a use can trail the stored instant by one millisecond less than two resolutions. */
  lemma TwoResolutionsReached(maxSubjects: nat, key: string)
    requires maxSubjects > 0
    ensures exists s, steps, s' ::
      && Initial(s) && Runs(maxSubjects, RESOLUTION, s, steps, s')
      && s'.throttle.pending == [] && s'.throttle.due == [] && key in s'.lastUse && key !in s'.failed
      && key in s'.stored && s'.lastUse[key] == s'.stored[key] + 2 * RESOLUTION - 1
  {
    var s := System(0, Throttle([], [], []), map[], map[], map[], {}, {});
    var a, s1 := FlushedUse(maxSubjects, s, key, 0);
    var b, s2 := FlushedUse(maxSubjects, s1, key, RESOLUTION);
    var last := Use(key, 2 * RESOLUTION - 1);
    var s3 := Take(maxSubjects, RESOLUTION, s2, last);
    assert [last][1..] == [];
    assert Runs(maxSubjects, RESOLUTION, s2, [last], s3);
    RunsConcat(maxSubjects, RESOLUTION, s1, b, s2, [last], s3);
    RunsConcat(maxSubjects, RESOLUTION, s, a, s1, b + [last], s3);
  }

  /** One unthrottled use of a key that is alone in the throttle, flushed at once. */
  lemma FlushedUse(maxSubjects: nat, s: System, key: string, at: int) returns (steps: seq<Step>, s': System)
    requires maxSubjects > 0 && s.now <= at && s.throttle.pending == [] && s.throttle.due == []
    requires s.throttle.lastNoted == [] || s.throttle.lastNoted == [Pair(key, at - RESOLUTION)]
    ensures Runs(maxSubjects, RESOLUTION, s, steps, s')
    ensures s' == System(at, Throttle([Pair(key, at)], [], []),
                         s.stored[key := Touched(Get(s.stored, key), at, RESOLUTION)],
                         s.lastUse[key := at], s.newest[key := at], s.failed - {key},
                         if Refuses(Get(s.stored, key), at, RESOLUTION) then s.refused + {key} else s.refused - {key})
  {
    var m := s.throttle.lastNoted;
    assert Delete(m, key) == [] by { if m != [] { assert m[1..] == []; } }
    var s1 := Take(maxSubjects, RESOLUTION, s, Use(key, at));
    assert s1.throttle.lastNoted == [Pair(key, at)] && s1.throttle.pending == [Pair(key, at)];
    var s2 := Take(maxSubjects, RESOLUTION, s1, BeginFlush);
    s' := Take(maxSubjects, RESOLUTION, s2, WriteSucceeds);
    steps := [Use(key, at), BeginFlush, WriteSucceeds];
    assert steps[1..] == [BeginFlush, WriteSucceeds] && steps[1..][1..] == [WriteSucceeds];
    assert Runs(maxSubjects, RESOLUTION, s2, [WriteSucceeds], s') by { assert [WriteSucceeds][1..] == []; }
    assert Runs(maxSubjects, RESOLUTION, s1, [BeginFlush, WriteSucceeds], s');
  }

  lemma {:induction false} RunsConcat(maxSubjects: nat, gap: nat, s: System, a: seq<Step>, mid: System, b: seq<Step>,
                                      s': System)
    requires Runs(maxSubjects, gap, s, a, mid) && Runs(maxSubjects, gap, mid, b, s')
    ensures Runs(maxSubjects, gap, s, a + b, s')
    decreases |a|
  {
    if a == [] {
      assert a + b == b;
    } else {
      assert (a + b)[1..] == a[1..] + b;
      RunsConcat(maxSubjects, gap, Take(maxSubjects, gap, s, a[0]), a[1..], mid, b, s');
    }
  }

  // ---------- spacing ----------

  /** No write fails and no throttle entry is dropped for room. */
  ghost predicate Calm(maxSubjects: nat, s: System, step: Step) {
    && step != WriteFails
    && (step.Use? ==> |Keys(s.throttle.lastNoted) + {step.key}| <= maxSubjects)
  }

  ghost predicate CalmRuns(maxSubjects: nat, gap: nat, s: System, steps: seq<Step>, s': System)
    decreases |steps|
  {
    if steps == [] then s' == s
    else Enabled(s, steps[0]) && Calm(maxSubjects, s, steps[0])
         && CalmRuns(maxSubjects, gap, Take(maxSubjects, gap, s, steps[0]), steps[1..], s')
  }

  lemma {:induction false} CalmRunRemembers(maxSubjects: nat, gap: nat, s: System, steps: seq<Step>, s': System)
    requires Inv(gap, s) && CalmRuns(maxSubjects, gap, s, steps, s')
    requires s.newest.Keys <= Keys(s.throttle.lastNoted)
    ensures Inv(gap, s') && s'.newest.Keys <= Keys(s'.throttle.lastNoted)
    decreases |steps|
  {
    if steps != [] {
      var t := s.throttle;
      match steps[0] {
        case Use(key, at) =>
          UseKeepsInv(maxSubjects, gap, s, key, at);
          RenewEntries(t.lastNoted, key, at);
          KeyCount(Renew(t.lastNoted, key, at));
        case BeginFlush => FlushKeepsInv(maxSubjects, gap, s);
        case WriteSucceeds => WriteKeepsInv(maxSubjects, gap, s, WriteSucceeds);
        case OthersTouch(key, at) => OthersKeepInv(maxSubjects, gap, s, key, at);
        case WriteFails =>
      }
      CalmRunRemembers(maxSubjects, gap, Take(maxSubjects, gap, s, steps[0]), steps[1..], s');
    }
  }

  /** Without failures and evictions, two writes queued for one key are at least one resolution apart. */
  lemma QueuedWritesAreSpaced(maxSubjects: nat, gap: nat, s: System, steps: seq<Step>, s': System, key: string, at: int)
    requires Initial(s) && CalmRuns(maxSubjects, gap, s, steps, s')
    requires Enabled(s', Use(key, at)) && key in s'.newest && !Throttled(s'.throttle, key, at)
    ensures at >= s'.newest[key] + RESOLUTION
  {
    assert forall k :: KeyInv(gap, s, k);
    CalmRunRemembers(maxSubjects, gap, s, steps, s');
    LookupIsEntry(s'.throttle.lastNoted, key);
    assert KeyInv(gap, s', key);
  }
}
