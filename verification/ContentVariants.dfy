/**
 * The service that builds, finds and caches compressed variants of stored content. Builds run one after another; finds,
 * reports, schedules, other processes and a close come in whenever a build waits.
 */
module ContentVariants {
  import opened OrderedMaps

  const MAX_QUEUED := 1_000
  const MAX_MAPPINGS := 10_000
  const MISS_CACHE := 30_000
  const REBUILD_BACKOFF := 600_000
  const MAX_SOURCE_BYTES := 67_108_864

  datatype Mapping = Mapping(source: string, variant: string, size: int)

  /** A forced rebuild declares no size and names the mapping that was reported unusable. */
  datatype Queued = Queued(forceRebuild: bool, declaredSize: Option<int>, unusable: Option<Mapping>)

  datatype Outcome = Built | Failed | NotBeneficial | Skipped | TooLarge

  datatype BuildRun = BuildRun(source: string, outcome: Outcome)

  datatype Source = Source(sha256: string, size: int, eligible: bool)

  // ---------- answers from outside ----------

  datatype Compression = CompressionFails | OverLimit | Compressed(variant: string, size: int)

  /** What one build meets besides the index rows; an absent size is a blob that cannot be inspected or opened. */
  datatype Answers = Answers(
    lookupFails: bool, inspectedSize: Option<int>, openedSize: Option<int>,
    compression: Compression, put: bool, recorded: bool)

  /** What comes in while a build waits for the index, the blob store or the compressor. */
  datatype Interruption =
    | RowAnswered(m: Mapping)
    | NoRowAnswered(source: string, now: int)
    | Reported(m: Mapping, now: int, backoffRead: int)
    | Scheduled(source: string, size: int)
    | OtherRecorded(m: Mapping)
    | Closing

  datatype Event = CompressionRan(source: string, overLimit: bool)

  /** No source is compressed again once its compression went over the limit. */
  ghost predicate NeverRetried(events: seq<Event>) {
    forall i, j :: 0 <= i < j < |events| && events[i].overLimit ==> events[i].source != events[j].source
  }

  lemma CompressionIsFirst(events: seq<Event>, notBeneficial: set<string>, source: string, over: bool)
    requires NeverRetried(events) && source !in notBeneficial
    requires forall i :: 0 <= i < |events| && events[i].overLimit ==> events[i].source in notBeneficial
    ensures NeverRetried(events + [CompressionRan(source, over)])
  {
  }

  datatype Counts = Counts(built: nat, failed: nat, notBeneficial: nat, skipped: nat, tooLarge: nat) {
    function Total(): nat {
      built + failed + notBeneficial + skipped + tooLarge
    }

    function Add(outcome: Outcome): (c: Counts)
      ensures c.Total() == Total() + 1
    {
      match outcome
      case Built => this.(built := built + 1)
      case Failed => this.(failed := failed + 1)
      case NotBeneficial => this.(notBeneficial := notBeneficial + 1)
      case Skipped => this.(skipped := skipped + 1)
      case TooLarge => this.(tooLarge := tooLarge + 1)
    }
  }

  /** An entry that the queue keeps instead of a new one: only a forced rebuild replaces a plain one. */
  predicate Keeps(existing: Option<Queued>, queued: Queued) {
    existing.Some? && (existing.value.forceRebuild || !queued.forceRebuild)
  }

  function Enqueued(closed: bool, notBeneficial: set<string>, queue: Entries<string, Queued>, source: string,
                    queued: Queued): (r: Entries<string, Queued>)
  {
    if closed || source in notBeneficial || Keeps(Lookup(queue, source), queued) then queue
    else Bounded(Renew(queue, source, queued), MAX_QUEUED)
  }

  function Remembered(mappings: Entries<string, Mapping>, m: Mapping): (r: Entries<string, Mapping>) {
    Bounded(Renew(mappings, m.source, m), MAX_MAPPINGS)
  }

  class Variants {
    var mappings: Entries<string, Mapping>
    var misses: map<string, int>
    var notBeneficial: set<string>
    var queue: Entries<string, Queued>
    var rebuildBackoff: map<string, int>
    var closed: bool

    /** The installation's index, and what ever was a row of it or a put blob. */
    var rows: map<string, Mapping>
    var everRows: set<Mapping>
    ghost var blobs: set<string>

    /** What comes in at the waits to come, wait by wait. */
    var script: seq<seq<Interruption>>

    /** What happened: compressions, and when a source was last seen without a row or reported unusable. */
    ghost var events: seq<Event>
    ghost var emptyAt: map<string, int>
    ghost var reportedAt: map<string, int>

    /**
     * The interruptions that came in, the builds that ended, the rows this process recorded, and how often a full
     * queue dropped its oldest entry.
     */
    ghost var arrived: seq<Interruption>
    ghost var builds: seq<BuildRun>
    ghost var recorded: seq<Mapping>
    ghost var dropped: nat

    ghost predicate RecentlyMissing(source: string, now: int)
      reads this`emptyAt, this`reportedAt
    {
      || (source in emptyAt && now < emptyAt[source] + MISS_CACHE)
      || (source in reportedAt && now < reportedAt[source] + MISS_CACHE)
    }

    ghost predicate FromIndex(source: string, m: Mapping)
      reads this`everRows
    {
      m in everRows && m.source == source
    }

    ghost predicate IndexValid()
      reads this`rows, this`everRows, this`blobs
    {
      && (forall source :: source in rows ==> rows[source] in everRows && rows[source].source == source)
      && (forall m :: m in everRows ==> m.variant in blobs)
    }

    ghost predicate MappingsValid()
      reads this`mappings, this`everRows
    {
      Distinct(mappings) && |mappings| <= MAX_MAPPINGS && forall e :: e in mappings ==> FromIndex(e.key, e.value)
    }

    ghost predicate QueueValid()
      reads this`queue, this`everRows
    {
      && Distinct(queue) && |queue| <= MAX_QUEUED
      && forall e :: e in queue && e.value.unusable.Some? ==> FromIndex(e.key, e.value.unusable.value)
    }

    ghost predicate EventsValid()
      reads this`events, this`notBeneficial
    {
      && (forall i :: 0 <= i < |events| && events[i].overLimit ==> events[i].source in notBeneficial)
      && NeverRetried(events)
    }

    ghost predicate MissesValid()
      reads this`misses, this`emptyAt, this`reportedAt
    {
      forall source :: source in misses ==> RecentlyMissing(source, misses[source] - 1)
    }

    ghost predicate Valid()
      reads this`rows, this`everRows, this`blobs, this`mappings, this`queue, this`events, this`notBeneficial,
            this`misses, this`emptyAt, this`reportedAt
    {
      IndexValid() && MappingsValid() && QueueValid() && EventsValid() && MissesValid()
    }

    constructor (rows: map<string, Mapping>, ghost blobs: set<string>, script: seq<seq<Interruption>>)
      requires forall source :: source in rows ==> rows[source].source == source && rows[source].variant in blobs
      ensures Valid() && mappings == [] && queue == [] && this.rows == rows && !closed && this.script == script
    {
      mappings, misses, notBeneficial, queue, rebuildBackoff, closed := [], map[], {}, [], map[], false;
      this.rows, everRows, this.blobs := rows, set source | source in rows :: rows[source], blobs;
      this.script := script;
      events, emptyAt, reportedAt := [], map[], map[];
      arrived, builds, recorded, dropped := [], [], [], 0;
    }

    /** Nothing leaves an open queue unless it was full, and a close is for good. */
    twostate predicate QueueKept()
      reads this`closed, this`dropped, this`queue
    {
      && (old(closed) ==> closed) && old(dropped) <= dropped
      && (!closed && dropped == old(dropped) ==> Keys(old(queue)) <= Keys(queue))
    }

    /** Index rows stay as they are, and whatever was a row or a blob is remembered as one. */
    twostate predicate IndexGrows()
      reads this`rows, this`everRows, this`blobs
    {
      && (forall source :: source in old(rows) ==> source in rows && rows[source] == old(rows)[source])
      && old(everRows) <= everRows && old(blobs) <= blobs
    }

    /** Everything that an interruption can change is as it was. */
    twostate predicate Undisturbed()
      reads this`mappings, this`misses, this`queue, this`closed, this`rows, this`dropped, this`script
    {
      && mappings == old(mappings) && misses == old(misses) && queue == old(queue) && closed == old(closed)
      && rows == old(rows) && dropped == old(dropped) && script == old(script)
    }

    /** Another process recorded a row after putting its blob. */
    method OthersRecord(m: Mapping)
      requires Valid() && m.source !in rows
      modifies this`rows, this`everRows, this`blobs
      ensures Valid() && IndexGrows() && rows == old(rows)[m.source := m]
    {
      rows, everRows, blobs := rows[m.source := m], everRows + {m}, blobs + {m.variant};
    }

    lemma RememberedFromIndex(m: Mapping)
      requires MappingsValid() && m in everRows
      ensures forall e :: e in Remembered(mappings, m) ==> FromIndex(e.key, e.value)
    {
      RenewMembers(mappings, m.source, m);
    }

    method Remember(m: Mapping)
      requires Valid() && m in everRows
      modifies this`mappings, this`misses
      ensures Valid() && mappings == Remembered(old(mappings), m) && misses == old(misses) - {m.source}
      ensures Lookup(mappings, m.source) == Some(m) && mappings[|mappings| - 1] == Pair(m.source, m)
      ensures forall other :: other != m.source ==>
                LookupOrDropped(old(mappings), m.source, MAX_MAPPINGS, other, Lookup(mappings, other))
    {
      RememberedMappings(mappings, m);
      RememberedFromIndex(m);
      misses := misses - {m.source};
      mappings := Delete(mappings, m.source);
      mappings := mappings + [Pair(m.source, m)];
      if |mappings| > MAX_MAPPINGS { mappings := mappings[1..]; }
    }

    /**
     * What queueing means. A closed service and a source that went over the limit leave the queue alone. Otherwise the
     * source is queued: an entry that is at least as strong stays, else the new one is the newest. Every other source
     * keeps its entry, but for the oldest of a full queue that takes in a new source.
     */
    twostate predicate TookIn(source: string, queued: Queued)
      reads this`closed, this`notBeneficial, this`queue
    {
      if closed || source in notBeneficial then queue == old(queue)
      else
        var before := Lookup(old(queue), source);
        && (before.Some? && (before.value.forceRebuild || !queued.forceRebuild) ==> queue == old(queue))
        && (before.None? || (!before.value.forceRebuild && queued.forceRebuild) ==>
              queue != [] && queue[|queue| - 1] == Pair(source, queued) && Lookup(queue, source) == Some(queued))
        && source in Keys(queue)
        && forall other :: other != source ==>
             LookupOrDropped(old(queue), source, MAX_QUEUED, other, Lookup(queue, other))
    }

    lemma NewestFromIndex(source: string, queued: Queued)
      requires QueueValid() && (queued.unusable.Some? ==> FromIndex(source, queued.unusable.value))
      ensures forall e :: e in Bounded(Renew(queue, source, queued), MAX_QUEUED) && e.value.unusable.Some? ==>
                FromIndex(e.key, e.value.unusable.value)
    {
      RenewMembers(queue, source, queued);
    }

    /** A queued forced rebuild is never downgraded, and a full queue drops only its oldest entry. */
    method Enqueue(source: string, queued: Queued)
      requires Valid() && (queued.unusable.Some? ==> FromIndex(source, queued.unusable.value))
      modifies this`queue, this`dropped
      ensures Valid() && QueueKept() && TookIn(source, queued)
      ensures queue == Enqueued(closed, notBeneficial, old(queue), source, queued)
    {
      if closed || source in notBeneficial { return; }
      LookupIsEntry(queue, source);
      var existing := Lookup(queue, source);
      if existing.Some? && (existing.value.forceRebuild || !queued.forceRebuild) { return; }
      NewestEntries(queue, source, queued);
      NewestFromIndex(source, queued);
      queue := Delete(queue, source);
      queue := queue + [Pair(source, queued)];
      if |queue| > MAX_QUEUED { queue, dropped := queue[1..], dropped + 1; }
    }

    method Schedule(source: string, size: int)
      requires Valid()
      modifies this`queue, this`dropped
      ensures Valid() && QueueKept() && TookIn(source, Queued(false, Some(size), None))
      ensures queue == Enqueued(closed, notBeneficial, old(queue), source, Queued(false, Some(size), None))
      ensures Lookup(old(queue), source).Some? && Lookup(old(queue), source).value.forceRebuild ==> queue == old(queue)
    {
      Enqueue(source, Queued(false, Some(size), None));
    }

    /** The first half of a find: the two caches, at one clock reading. `None` asks the index. */
    method FindCached(source: string, missRead: int) returns (answer: Option<Option<Mapping>>)
      requires Valid()
      ensures answer == if Lookup(mappings, source).Some? then Some(Lookup(mappings, source))
                        else if source in misses && misses[source] > missRead then Some(None) else None
      ensures answer.Some? && answer.value.Some? ==> FromIndex(source, answer.value.value)
      ensures answer == Some(None) ==> RecentlyMissing(source, missRead)
    {
      var cached := Lookup(mappings, source);
      if cached.Some? {
        LookupIsEntry(mappings, source);
        return Some(cached);
      }
      if source in misses && misses[source] > missRead { return Some(None); }
      return None;
    }

    /** The last half, after the index answered; reports, builds and other finds may have come in between. */
    method FindAnswered(source: string, row: Option<Mapping>, answerRead: int)
      requires Valid() && (row.Some? ==> FromIndex(source, row.value))
      modifies this`mappings, this`misses, this`emptyAt
      ensures Valid()
      ensures row.Some? ==>
                && mappings == Remembered(old(mappings), row.value) && Lookup(mappings, source) == row
                && misses == old(misses) - {source} && emptyAt == old(emptyAt)
      ensures row.None? ==>
                && RecentlyMissing(source, answerRead) && mappings == old(mappings)
                && misses == old(misses)[source := answerRead + MISS_CACHE]
    {
      if row.None? {
        emptyAt := emptyAt[source := answerRead];
        misses := misses[source := answerRead + MISS_CACHE];
        return;
      }
      Remember(row.value);
    }

    /**
     * A find that nothing interrupts. `missRead` is the clock when the miss cache is consulted, `answerRead` when the
     * index has answered.
     */
    method Find(source: string, missRead: int, answerRead: int, lookupFails: bool)
        returns (rejected: bool, found: Option<Mapping>)
      requires Valid()
      modifies this`mappings, this`misses, this`emptyAt
      ensures Valid()
      ensures found.Some? ==> FromIndex(source, found.value) && found == Lookup(mappings, source)
      ensures Lookup(old(mappings), source).Some? ==> !rejected && found == Lookup(old(mappings), source)
      // The index is asked exactly when neither cache answers, and then its row is the answer.
      ensures var asked := Lookup(old(mappings), source).None?
                           && !(source in old(misses) && old(misses)[source] > missRead);
              && (rejected <==> asked && lookupFails)
              && (asked && !rejected ==> found == if source in rows then Some(rows[source]) else None)
      // Null only if, at one of the two readings, the source was seen empty or reported less than 30 s before.
      ensures !rejected && found.None? ==> RecentlyMissing(source, missRead) || RecentlyMissing(source, answerRead)
    {
      var cached := FindCached(source, missRead);
      if cached.Some? { return false, cached.value; }
      if lookupFails { return true, None; }
      var row := if source in rows then Some(rows[source]) else None;
      FindAnswered(source, row, answerRead);
      return false, row;
    }

    /** A reported source is forgotten and counts as missing for a while. */
    method Forget(source: string, now: int)
      requires Valid()
      modifies this`mappings, this`misses, this`reportedAt
      ensures Valid() && Lookup(mappings, source).None? && RecentlyMissing(source, now)
      ensures mappings == Delete(old(mappings), source) && misses == old(misses)[source := now + MISS_CACHE]
    {
      DeleteEntries(mappings, source);
      DeleteMembers(mappings, source);
      LookupDelete(mappings, source, source);
      mappings := Delete(mappings, source);
      reportedAt := reportedAt[source := now];
      misses := misses[source := now + MISS_CACHE];
    }

    /** Only a mapping that was found is reported. */
    method ReportUnusable(m: Mapping, now: int, backoffRead: int)
      requires Valid() && m in everRows
      modifies this`mappings, this`misses, this`queue, this`dropped, this`reportedAt
      ensures Valid() && QueueKept() && Lookup(mappings, m.source).None? && RecentlyMissing(m.source, now)
      ensures mappings == Delete(old(mappings), m.source) && misses == old(misses)[m.source := now + MISS_CACHE]
      ensures queue ==
        if m.source in rebuildBackoff && rebuildBackoff[m.source] > backoffRead then old(queue)
        else Enqueued(closed, notBeneficial, old(queue), m.source, Queued(true, None, Some(m)))
      ensures !(m.source in rebuildBackoff && rebuildBackoff[m.source] > backoffRead) ==>
                TookIn(m.source, Queued(true, None, Some(m)))
    {
      Forget(m.source, now);
      if m.source in rebuildBackoff && rebuildBackoff[m.source] > backoffRead { return; }
      Enqueue(m.source, Queued(true, None, Some(m)));
    }

    method Close()
      requires Valid()
      modifies this`closed, this`queue
      ensures Valid() && closed && queue == []
    {
      closed, queue := true, [];
    }

    // ---------- waits ----------

    /** What an interruption leaves. */
    twostate predicate Came(i: Interruption)
      reads this`closed, this`queue, this`notBeneficial, this`rows, this`mappings, this`misses
    {
      match i
      case RowAnswered(m) => m in old(everRows) ==> Lookup(mappings, m.source) == Some(m) && m.source !in misses
      case NoRowAnswered(source, now) => source in misses && misses[source] == now + 30_000
      case Reported(m, now, _) =>
        m in old(everRows) ==>
          Lookup(mappings, m.source).None? && m.source in misses && misses[m.source] == now + 30_000
      case Scheduled(source, size) => TookIn(source, Queued(false, Some(size), None))
      case OtherRecorded(m) => m.source !in old(rows) ==> rows == old(rows)[m.source := m]
      case Closing => closed && queue == []
    }

    /** One interruption; answers and reports are of rows that were, and another process records what has no row yet. */
    method Interrupt(i: Interruption)
      requires Valid()
      modifies this`mappings, this`misses, this`queue, this`dropped, this`closed, this`rows, this`everRows,
               this`blobs, this`emptyAt, this`reportedAt, this`arrived
      ensures Valid() && QueueKept() && IndexGrows() && Came(i) && arrived == old(arrived) + [i]
    {
      arrived := arrived + [i];
      match i
      case RowAnswered(m) => if m in everRows { FindAnswered(m.source, Some(m), 0); }
      case NoRowAnswered(source, now) => FindAnswered(source, None, now);
      case Reported(m, now, backoffRead) => if m in everRows { ReportUnusable(m, now, backoffRead); }
      case Scheduled(source, size) => Schedule(source, size);
      case OtherRecorded(m) => if m.source !in rows { OthersRecord(m); }
      case Closing => Close();
    }

    method Wait()
      requires Valid()
      modifies this`mappings, this`misses, this`queue, this`dropped, this`closed, this`rows, this`everRows,
               this`blobs, this`emptyAt, this`reportedAt, this`script, this`arrived
      ensures Valid() && QueueKept() && IndexGrows()
      ensures if old(script) == [] then Undisturbed() && arrived == old(arrived)
              else script == old(script)[1..] && arrived == old(arrived) + old(script)[0]
      ensures old(script) != [] && |old(script)[0]| == 1 ==> Came(old(script)[0][0])
    {
      if script == [] { return; }
      var batch := script[0];
      script := script[1..];
      for i := 0 to |batch|
        invariant Valid() && QueueKept() && IndexGrows() && script == old(script)[1..]
        invariant arrived == old(arrived) + batch[..i]
        invariant i == 0 ==>
          && mappings == old(mappings) && misses == old(misses) && queue == old(queue) && closed == old(closed)
          && rows == old(rows) && everRows == old(everRows)
        invariant i == 1 ==> Came(batch[0])
      {
        Interrupt(batch[i]);
      }
    }

    // ---------- building ----------

    /** The index gave a row, or the variant reported unusable is stored at its size after all. */
    ghost predicate Intact(row: Option<Mapping>, unusable: Option<Mapping>, a: Answers) {
      if unusable.None? then !a.lookupFails && row.Some? else a.inspectedSize == Some(unusable.value.size)
    }

    ghost predicate LookupFailed(unusable: Option<Mapping>, a: Answers) {
      unusable.None? && a.lookupFails
    }

    function RowOf(source: string): (row: Option<Mapping>)
      reads this`rows
    {
      if source in rows then Some(rows[source]) else None
    }

    /**
     * The first part of a build, with the index's answer: an existing row, or a reported variant that turns out intact,
     * is taken as it is.
     */
    method TakeExisting(source: string, row: Option<Mapping>, unusable: Option<Mapping>, a: Answers)
        returns (outcome: Option<Outcome>)
      requires Valid()
      requires unusable.Some? ==> FromIndex(source, unusable.value)
      requires row.Some? ==> FromIndex(source, row.value)
      modifies this`mappings, this`misses
      ensures Valid()
      ensures outcome == Some(Skipped) <==> Intact(row, unusable, a)
      ensures outcome == Some(Failed) <==> LookupFailed(unusable, a)
      ensures outcome in {None, Some(Skipped), Some(Failed)}
      ensures outcome == Some(Skipped) ==>
                mappings == Remembered(old(mappings), if unusable.Some? then unusable.value else row.value)
                && Lookup(mappings, source).Some? && source !in misses
      ensures outcome != Some(Skipped) ==> mappings == old(mappings) && misses == old(misses)
    {
      if unusable.None? {
        if a.lookupFails { return Some(Failed); }
        if row.Some? {
          Remember(row.value);
          return Some(Skipped);
        }
      } else if a.inspectedSize == Some(unusable.value.size) {
        Remember(unusable.value);
        return Some(Skipped);
      }
      return None;
    }

    /** The blob is put; a failed put leaves everything. */
    method PutBlob(variant: string, put: bool)
      requires Valid()
      modifies this`blobs
      ensures Valid() && blobs == old(blobs) + if put then {variant} else {}
    {
      if put { blobs := blobs + {variant}; }
    }

    /** The row is recorded, once its blob is there; a different row for the source is a conflict. */
    method Record(m: Mapping, succeeds: bool) returns (done: bool)
      requires Valid() && m.variant in blobs
      modifies this`rows, this`everRows, this`recorded
      ensures Valid() && IndexGrows()
      ensures done <==> succeeds && (m.source in old(rows) ==> old(rows)[m.source] == m)
      ensures done ==> m in everRows && rows == old(rows)[m.source := m] && recorded == old(recorded) + [m]
      ensures !done ==> rows == old(rows) && everRows == old(everRows) && recorded == old(recorded)
    {
      done := succeeds && (m.source in rows ==> rows[m.source] == m);
      if done { rows, everRows, recorded := rows[m.source := m], everRows + {m}, recorded + [m]; }
    }

    /**
     * What recording a mapping leaves: it succeeds exactly when put and record do and no other row is there.
     * Uninterrupted, nothing else changes.
     */
    twostate predicate Recorded(m: Mapping, willing: bool, done: bool)
      reads this`rows, this`recorded, this`script, this`blobs, this`mappings, this`misses, this`queue, this`closed,
            this`dropped
    {
      && (done <==> willing && !(m.source in rows && rows[m.source] != m))
      && recorded == old(recorded) + (if done then [m] else [])
      && |script| <= |old(script)|
      && (done ==>
            && m.source in rows && rows[m.source] == m && m.variant in blobs
            && Lookup(mappings, m.source) == Some(m) && m.source !in misses)
      && (old(script) == [] ==>
            && script == [] && queue == old(queue) && closed == old(closed) && dropped == old(dropped)
            && rows == (if done then old(rows)[m.source := m] else old(rows))
            && (!done ==> mappings == old(mappings) && misses == old(misses)))
    }

    method RecordAndRemember(m: Mapping, succeeds: bool) returns (done: bool)
      requires Valid() && m.variant in blobs
      modifies this`mappings, this`misses, this`queue, this`dropped, this`closed, this`rows, this`everRows,
               this`blobs, this`emptyAt, this`reportedAt, this`script, this`arrived, this`recorded
      ensures Valid() && QueueKept() && IndexGrows() && Recorded(m, succeeds, done)
    {
      Wait();
      done := Record(m, succeeds);
      if done { WaitAndRemember(m); }
    }

    /** A recorded row stays; once the wait is over it is remembered. */
    method WaitAndRemember(m: Mapping)
      requires Valid() && m in everRows && m.source in rows && rows[m.source] == m && m.variant in blobs
      modifies this`mappings, this`misses, this`queue, this`dropped, this`closed, this`rows, this`everRows,
               this`blobs, this`emptyAt, this`reportedAt, this`script, this`arrived
      ensures Valid() && QueueKept() && IndexGrows() && |script| <= |old(script)|
      ensures Lookup(mappings, m.source) == Some(m) && m.source !in misses
      ensures old(script) == [] ==>
                && script == [] && queue == old(queue) && closed == old(closed) && dropped == old(dropped)
                && rows == old(rows)
    {
      Wait();
      Remember(m);
    }

    /** The last part of a build: the blob is put, then the row recorded, then the mapping remembered. */
    method PutAndRecord(m: Mapping, a: Answers) returns (done: bool)
      requires Valid()
      modifies this`mappings, this`misses, this`queue, this`dropped, this`closed, this`rows, this`everRows,
               this`blobs, this`emptyAt, this`reportedAt, this`script, this`arrived, this`recorded
      ensures Valid() && QueueKept() && IndexGrows() && Recorded(m, a.put && a.recorded, done)
    {
      Wait();
      PutBlob(m.variant, a.put);
      if !a.put { return false; }
      done := RecordAndRemember(m, a.recorded);
    }

    /** The sizes are known and within bounds, and no earlier compression went over its limit. */
    ghost predicate Compressible(source: string, declaredSize: Option<int>, a: Answers)
      reads this`notBeneficial
    {
      && source !in notBeneficial
      && (declaredSize.Some? ==> declaredSize.value <= MAX_SOURCE_BYTES)
      && a.openedSize.Some? && a.openedSize.value <= MAX_SOURCE_BYTES
    }

    /** The compressor's answer: a source that goes over the limit is not tried again. */
    method CompressionEnded(source: string, compression: Compression)
      requires Valid() && source !in notBeneficial
      modifies this`events, this`notBeneficial
      ensures Valid() && events == old(events) + [CompressionRan(source, compression.OverLimit?)]
      ensures notBeneficial == old(notBeneficial) + if compression.OverLimit? then {source} else {}
    {
      CompressionIsFirst(events, notBeneficial, source, compression.OverLimit?);
      events := events + [CompressionRan(source, compression.OverLimit?)];
      if compression.OverLimit? { notBeneficial := notBeneficial + {source}; }
    }

    /** Another row stands for the source. */
    ghost predicate Conflicts(source: string, a: Answers)
      requires a.compression.Compressed?
      reads this`rows
    {
      source in rows && rows[source] != Mapping(source, a.compression.variant, a.compression.size)
    }

    /** What a build that found nothing intact leaves, by its outcome. */
    twostate predicate Compressed(source: string, a: Answers, outcome: Outcome)
      reads this`notBeneficial, this`rows, this`misses, this`blobs, this`mappings, this`recorded
    {
      && notBeneficial == old(notBeneficial) + (if outcome == NotBeneficial then {source} else {})
      && (outcome == Built ==>
            && a.compression.Compressed? && source in rows && source !in misses
            && rows[source] == Mapping(source, a.compression.variant, a.compression.size)
            && a.compression.variant in blobs && Lookup(mappings, source) == Some(rows[source]))
      && recorded == old(recorded) + if outcome == Built then [rows[source]] else []
    }

    /** The outcome of a build whose source was opened, compressed and offered to the store. */
    ghost predicate EndsAs(source: string, a: Answers, outcome: Outcome)
      reads this`rows
    {
      match a.compression
      case OverLimit => outcome == NotBeneficial
      case CompressionFails => outcome == Failed
      case Compressed(_, _) =>
        outcome == if a.put && a.recorded && !Conflicts(source, a) then Built else Failed
    }

    /** The outcome of a build by what it meets: an earlier result, the sizes, then the compression. */
    ghost predicate Ends(overLimit: set<string>, source: string, declaredSize: Option<int>, a: Answers,
                         outcome: Outcome)
      reads this`rows
    {
      if source in overLimit then outcome == NotBeneficial
      else if declaredSize.Some? && declaredSize.value > MAX_SOURCE_BYTES then outcome == TooLarge
      else if a.openedSize.None? then outcome == Failed
      else if a.openedSize.value > MAX_SOURCE_BYTES then outcome == TooLarge
      else EndsAs(source, a, outcome)
    }

    /** The same for a whole build, which may also fail to ask the index. */
    ghost predicate BuildEnds(overLimit: set<string>, source: string, declaredSize: Option<int>,
                              unusable: Option<Mapping>, a: Answers, outcome: Outcome)
      reads this`rows
    {
      if LookupFailed(unusable, a) then outcome == Failed
      else outcome != Skipped ==> Ends(overLimit, source, declaredSize, a, outcome)
    }

    /** Uninterrupted, only a build that ends well changes the index or the mappings. */
    twostate predicate Quiet(outcome: Outcome)
      reads this`script, this`queue, this`closed, this`dropped, this`rows, this`recorded, this`mappings, this`misses
    {
      old(script) == [] ==>
        && script == [] && queue == old(queue) && closed == old(closed) && dropped == old(dropped)
        && (outcome != Built ==> rows == old(rows))
        && (outcome == Built ==>
              && recorded != []
              && var m := recorded[|recorded| - 1]; rows == old(rows)[m.source := m])
        && (outcome !in {Built, Skipped} ==> mappings == old(mappings) && misses == old(misses))
    }

    method CompressOpened(source: string, a: Answers) returns (outcome: Outcome)
      requires Valid() && source !in notBeneficial
      modifies this`mappings, this`misses, this`queue, this`dropped, this`closed, this`rows, this`everRows,
               this`blobs, this`emptyAt, this`reportedAt, this`script, this`arrived, this`recorded,
               this`notBeneficial, this`events
      ensures Valid() && QueueKept() && IndexGrows() && |script| <= |old(script)|
      ensures events == old(events) + [CompressionRan(source, a.compression.OverLimit?)]
      ensures outcome != Skipped && Compressed(source, a, outcome) && Quiet(outcome) && EndsAs(source, a, outcome)
    {
      Wait();
      CompressionEnded(source, a.compression);
      match a.compression
      case OverLimit => return NotBeneficial;
      case CompressionFails => return Failed;
      case Compressed(variant, size) =>
        var done := PutAndRecord(Mapping(source, variant, size), a);
        return if done then Built else Failed;
    }

    /** The second part of a build, when nothing intact is there: compress, put and record. */
    method Compress(source: string, declaredSize: Option<int>, a: Answers) returns (outcome: Outcome)
      requires Valid()
      modifies this`mappings, this`misses, this`queue, this`dropped, this`closed, this`rows, this`everRows,
               this`blobs, this`emptyAt, this`reportedAt, this`script, this`arrived, this`recorded,
               this`notBeneficial, this`events
      ensures Valid() && QueueKept() && IndexGrows()
      ensures events == old(events) + if old(Compressible(source, declaredSize, a))
                                      then [CompressionRan(source, a.compression.OverLimit?)] else []
      ensures outcome != Skipped && Compressed(source, a, outcome) && Quiet(outcome)
      ensures Ends(old(notBeneficial), source, declaredSize, a, outcome)
      ensures outcome == Built ==> old(Compressible(source, declaredSize, a))
      ensures |script| <= |old(script)|
    {
      if source in notBeneficial { return NotBeneficial; }
      if declaredSize.Some? && declaredSize.value > MAX_SOURCE_BYTES { return TooLarge; }
      Wait();
      if a.openedSize.None? { return Failed; }
      if a.openedSize.value > MAX_SOURCE_BYTES { return TooLarge; }
      outcome := CompressOpened(source, a);
    }

    /** The first part of a build: asks the index, or the blob store about a reported variant. */
    method LookUp(source: string, unusable: Option<Mapping>, a: Answers) returns (existing: Option<Outcome>)
      requires Valid() && (unusable.Some? ==> FromIndex(source, unusable.value))
      modifies this`mappings, this`misses, this`queue, this`dropped, this`closed, this`rows, this`everRows,
               this`blobs, this`emptyAt, this`reportedAt, this`script, this`arrived
      ensures Valid() && QueueKept() && IndexGrows()
      ensures existing in {None, Some(Skipped), Some(Failed)}
      ensures existing == Some(Failed) <==> LookupFailed(unusable, a)
      ensures old(Intact(RowOf(source), unusable, a)) ==> existing == Some(Skipped)
      ensures existing == Some(Skipped) ==>
                Intact(RowOf(source), unusable, a) && Lookup(mappings, source).Some? && source !in misses
      ensures |script| <= |old(script)| && (old(script) != [] ==> |script| < |old(script)|)
      ensures old(script) == [] ==>
                && script == [] && queue == old(queue) && closed == old(closed) && dropped == old(dropped)
                && rows == old(rows) && (existing == Some(Skipped) ==> old(Intact(RowOf(source), unusable, a)))
                && (existing != Some(Skipped) ==> mappings == old(mappings) && misses == old(misses))
    {
      Wait();
      var row := RowOf(source);
      Wait();
      existing := TakeExisting(source, row, unusable, a);
    }

    /** One build but for its entry in the log of builds. */
    method Attempt(source: string, declaredSize: Option<int>, unusable: Option<Mapping>, a: Answers)
        returns (outcome: Outcome)
      requires Valid() && (unusable.Some? ==> FromIndex(source, unusable.value))
      modifies this`mappings, this`misses, this`queue, this`dropped, this`closed, this`rows, this`everRows,
               this`blobs, this`emptyAt, this`reportedAt, this`script, this`arrived, this`recorded,
               this`notBeneficial, this`events
      ensures Valid() && QueueKept() && IndexGrows()
      ensures BuildEnds(old(notBeneficial), source, declaredSize, unusable, a, outcome)
      ensures events == old(events) + if outcome != Skipped && !LookupFailed(unusable, a)
                                         && old(Compressible(source, declaredSize, a))
                                      then [CompressionRan(source, a.compression.OverLimit?)] else []
      ensures Compressed(source, a, outcome) && Quiet(outcome)
      ensures outcome == Built ==> old(Compressible(source, declaredSize, a)) && !LookupFailed(unusable, a)
      ensures old(Intact(RowOf(source), unusable, a)) ==> outcome == Skipped
      ensures outcome == Skipped ==>
                && Intact(RowOf(source), unusable, a) && Lookup(mappings, source).Some? && source !in misses
                && (old(script) == [] ==> old(Intact(RowOf(source), unusable, a)))
      ensures |script| <= |old(script)| && (old(script) != [] ==> |script| < |old(script)|)
    {
      var existing := LookUp(source, unusable, a);
      if existing.Some? { return existing.value; }
      outcome := Compress(source, declaredSize, a);
    }

    /**
     * One build, interrupted at every wait. Nothing is compressed for a source that went over the limit before; a row
     * that was there at the start is found, and this process records nothing but what it built.
     */
    method Build(source: string, declaredSize: Option<int>, unusable: Option<Mapping>, a: Answers)
        returns (outcome: Outcome)
      requires Valid() && (unusable.Some? ==> FromIndex(source, unusable.value))
      modifies this`mappings, this`misses, this`queue, this`dropped, this`closed, this`rows, this`everRows,
               this`blobs, this`emptyAt, this`reportedAt, this`script, this`arrived, this`recorded,
               this`notBeneficial, this`events, this`builds
      ensures Valid() && QueueKept() && IndexGrows() && builds == old(builds) + [BuildRun(source, outcome)]
      ensures BuildEnds(old(notBeneficial), source, declaredSize, unusable, a, outcome)
      ensures events == old(events) + if outcome != Skipped && !LookupFailed(unusable, a)
                                         && old(Compressible(source, declaredSize, a))
                                      then [CompressionRan(source, a.compression.OverLimit?)] else []
      ensures Compressed(source, a, outcome) && Quiet(outcome)
      ensures outcome == Built ==> old(Compressible(source, declaredSize, a)) && !LookupFailed(unusable, a)
      ensures old(Intact(RowOf(source), unusable, a)) ==> outcome == Skipped
      ensures outcome == Skipped ==>
                && Intact(RowOf(source), unusable, a) && Lookup(mappings, source).Some? && source !in misses
                && (old(script) == [] ==> old(Intact(RowOf(source), unusable, a)))
      ensures |script| <= |old(script)| && (old(script) != [] ==> |script| < |old(script)|)
    {
      outcome := Attempt(source, declaredSize, unusable, a);
      builds := builds + [BuildRun(source, outcome)];
    }

    method Dequeue() returns (source: string, queued: Queued)
      requires Valid() && queue != []
      modifies this`queue
      ensures Valid() && queue == old(queue)[1..] && Pair(source, queued) == old(queue)[0]
      ensures Keys(old(queue)) == Keys(queue) + {source}
      ensures queued.unusable.Some? ==> FromIndex(source, queued.unusable.value)
    {
      source, queued := queue[0].key, queue[0].value;
      assert queue[0] in queue;
      assert forall e :: e in queue[1..] ==> e in queue;
      KeysCons(queue);
      queue := queue[1..];
    }

    /** Takes the oldest queued source and builds it. */
    method BuildHead(a: Answers) returns (head: Pair<string, Queued>, outcome: Outcome)
      requires Valid() && queue != []
      modifies this`mappings, this`misses, this`queue, this`dropped, this`closed, this`rows, this`everRows,
               this`blobs, this`emptyAt, this`reportedAt, this`script, this`arrived, this`recorded,
               this`notBeneficial, this`events, this`builds
      ensures Valid() && IndexGrows() && old(notBeneficial) <= notBeneficial && old(events) <= events
      ensures head == old(queue)[0] && builds == old(builds) + [BuildRun(head.key, outcome)]
      ensures BuildEnds(old(notBeneficial), head.key, head.value.declaredSize, head.value.unusable, a, outcome)
      ensures (old(closed) ==> closed) && old(dropped) <= dropped
      ensures !closed && dropped == old(dropped) ==> Keys(old(queue)) <= Keys(queue) + {head.key}
      ensures old(script) == [] ==>
                script == [] && queue == old(queue)[1..] && closed == old(closed) && dropped == old(dropped)
      ensures |script| <= |old(script)| && (old(script) != [] ==> |script| < |old(script)|)
    {
      var source, queued := Dequeue();
      head := Pair(source, queued);
      outcome := Build(source, queued.declaredSize, queued.unusable, a);
    }

    /** One turn of the queue: a forced rebuild that fails is not queued again for a while. */
    method BuildNext(a: Answers, now: int) returns (outcome: Outcome)
      requires Valid() && queue != []
      modifies this
      ensures Valid() && IndexGrows() && old(notBeneficial) <= notBeneficial && old(events) <= events
      ensures (old(closed) ==> closed) && old(dropped) <= dropped
      ensures !closed && dropped == old(dropped) ==> Keys(old(queue)) <= Keys(queue) + {old(queue)[0].key}
      ensures old(script) == [] ==>
                script == [] && queue == old(queue)[1..] && closed == old(closed) && dropped == old(dropped)
      ensures |script| <= |old(script)| && (old(script) != [] ==> |script| < |old(script)|)
      // The build is the head's own.
      ensures builds == old(builds) + [BuildRun(old(queue)[0].key, outcome)]
      ensures var head := old(queue)[0];
              BuildEnds(old(notBeneficial), head.key, head.value.declaredSize, head.value.unusable, a, outcome)
      ensures var head := old(queue)[0];
              rebuildBackoff == if head.value.forceRebuild && outcome == Failed
                                then old(rebuildBackoff)[head.key := now + REBUILD_BACKOFF] else old(rebuildBackoff)
    {
      var head;
      head, outcome := BuildHead(a);
      if head.value.forceRebuild && outcome == Failed {
        rebuildBackoff := rebuildBackoff[head.key := now + REBUILD_BACKOFF];
      }
    }

    /** Each of the entries is still queued or built. */
    ghost predicate Served(entries: Entries<string, Queued>, built: seq<string>)
      reads this`queue
    {
      forall e :: e in entries ==> e.key in Keys(queue) || e.key in built
    }

    lemma ServedOneMore(entries: Entries<string, Queued>, before: Entries<string, Queued>, built: seq<string>)
      requires before != [] && Keys(before) <= Keys(queue) + {before[0].key}
      requires forall e :: e in entries ==> e.key in Keys(before) || e.key in built
      ensures Served(entries, built + [before[0].key])
    {
    }

    /**
     * Runs queued builds, oldest first, with whatever is queued meanwhile, until the queue is empty or the service is
     * closed. Unless a full queue dropped an entry, every source queued at the start is built; undisturbed, each once
     * and in order. `answers(i)` is what the i-th build meets.
     */
    method RunQueue(answers: nat -> Answers, clock: nat -> int)
        returns (ghost built: seq<string>, ghost runs: seq<BuildRun>)
      requires Valid()
      modifies this
      ensures Valid() && (old(closed) ==> closed) && old(notBeneficial) <= notBeneficial && old(events) <= events
      ensures old(dropped) <= dropped
      ensures !closed ==> queue == []
      ensures !closed && dropped == old(dropped) ==> forall e :: e in old(queue) ==> e.key in built
      ensures old(script) == [] && !old(closed) ==> !closed && built == Names(old(queue))
      ensures old(closed) ==> queue == old(queue) && built == []
      ensures builds == old(builds) + runs && |runs| == |built|
      ensures forall j :: 0 <= j < |built| ==> runs[j].source == built[j]
    {
      var i := 0;
      built, runs := [], [];
      while queue != [] && !closed
        invariant Valid() && (old(closed) ==> closed) && old(dropped) <= dropped
        invariant old(notBeneficial) <= notBeneficial && old(events) <= events
        invariant !closed && dropped == old(dropped) ==> Served(old(queue), built)
        invariant old(script) == [] ==>
          script == [] && closed == old(closed) && built + Names(queue) == Names(old(queue))
        invariant old(closed) ==> queue == old(queue) && built == []
        invariant builds == old(builds) + runs && |runs| == |built|
        invariant forall j :: 0 <= j < |built| ==> runs[j].source == built[j]
        decreases |script|, |queue|
      {
        ghost var before, earlier := queue, built;
        built := built + [before[0].key];
        var outcome := BuildNext(answers(i), clock(i));
        runs := runs + [BuildRun(before[0].key, outcome)];
        NamesMove(earlier, before);
        if !closed && dropped == old(dropped) { ServedOneMore(old(queue), before, earlier); }
        i := i + 1;
      }
    }

    /** Queues every eligible entry of a published version. */
    method VersionPublished(entries: seq<Source>)
      requires Valid()
      modifies this`queue, this`dropped
      ensures Valid() && QueueKept()
      ensures !closed && dropped == old(dropped) ==> forall entry :: entry in entries && entry.eligible ==>
                entry.sha256 in Keys(queue) || entry.sha256 in notBeneficial
    {
      for i := 0 to |entries|
        invariant Valid() && QueueKept()
        invariant !closed && dropped == old(dropped) ==> forall j :: 0 <= j < i && entries[j].eligible ==>
          entries[j].sha256 in Keys(queue) || entries[j].sha256 in notBeneficial
      {
        if entries[i].eligible { Schedule(entries[i].sha256, entries[i].size); }
      }
    }

    /**
     * A publication followed by a drain: every eligible entry is built, whatever comes in meanwhile, unless its
     * compression went over the limit before, a full queue dropped an entry, or the service is closed.
     */
    method PublishAndDrain(entries: seq<Source>, answers: nat -> Answers, clock: nat -> int)
        returns (ghost built: seq<string>, ghost runs: seq<BuildRun>)
      requires Valid()
      modifies this
      ensures Valid() && (old(closed) ==> closed)
      ensures builds == old(builds) + runs && |runs| == |built|
      ensures forall j :: 0 <= j < |built| ==> runs[j].source == built[j]
      ensures !closed && dropped == old(dropped) ==> forall entry :: entry in entries && entry.eligible ==>
                entry.sha256 in built || entry.sha256 in old(notBeneficial)
    {
      VersionPublished(entries);
      ghost var queued := queue;
      built, runs := RunQueue(answers, clock);
      if !closed && dropped == old(dropped) {
        forall entry | entry in entries && entry.eligible && entry.sha256 !in old(notBeneficial)
          ensures entry.sha256 in built
        {
          var e :| e in queued && e.key == entry.sha256;
        }
      }
    }

    /** Builds one examined source and counts its outcome. */
    method Examine(source: Source, a: Answers, counts: Counts, ghost runs: seq<BuildRun>)
        returns (counted: Counts, ghost run: BuildRun)
      requires Valid() && Tallies(counts, runs)
      modifies this`mappings, this`misses, this`queue, this`dropped, this`closed, this`rows, this`everRows,
               this`blobs, this`emptyAt, this`reportedAt, this`script, this`arrived, this`recorded,
               this`notBeneficial, this`events, this`builds
      ensures Valid() && QueueKept() && IndexGrows() && old(notBeneficial) <= notBeneficial
      ensures old(script) == [] ==>
                script == [] && queue == old(queue) && closed == old(closed) && dropped == old(dropped)
      ensures run.source == source.sha256 && builds == old(builds) + [run]
      ensures Tallies(counted, runs + [run]) && counted.Total() == counts.Total() + 1
    {
      var outcome := Build(source.sha256, Some(source.size), None, a);
      run := BuildRun(source.sha256, outcome);
      TallyOneMore(counts, runs, run);
      counted := counts.Add(outcome);
    }

    /**
     * Examines at most `limit` distinct eligible sources. Each one taken is built, and the counts are those of the
     * builds' outcomes.
     */
    method Backfill(sources: seq<Source>, limit: nat, answers: nat -> Answers)
        returns (examined: nat, counts: Counts, ghost taken: seq<string>, ghost runs: seq<BuildRun>)
      requires Valid()
      modifies this
      ensures Valid() && QueueKept() && IndexGrows() && old(notBeneficial) <= notBeneficial
      ensures old(script) == [] ==> queue == old(queue) && closed == old(closed)
      ensures examined == counts.Total() == |taken| <= limit
      ensures builds == old(builds) + runs && Tallies(counts, runs)
      ensures |runs| == |taken| && forall j :: 0 <= j < |taken| ==> runs[j].source == taken[j]
      ensures forall i, j :: 0 <= i < j < |taken| ==> taken[i] != taken[j]
      ensures forall sha :: sha in taken ==> Offered(sources, |sources|, sha)
      ensures examined < limit ==> forall sha :: Offered(sources, |sources|, sha) ==> sha in taken
    {
      counts, examined, taken, runs := Counts(0, 0, 0, 0, 0), 0, [], [];
      var seen := {};
      for i := 0 to |sources|
        invariant Valid() && QueueKept() && IndexGrows() && old(notBeneficial) <= notBeneficial
        invariant old(script) == [] ==>
          script == [] && queue == old(queue) && closed == old(closed) && dropped == old(dropped)
        invariant examined == counts.Total() == |taken| <= limit
        invariant builds == old(builds) + runs && Tallies(counts, runs)
        invariant |runs| == |taken| && forall j :: 0 <= j < |taken| ==> runs[j].source == taken[j]
        invariant forall sha :: sha in seen <==> sha in taken
        invariant TakesOffered(sources, i, taken)
      {
        TakesNext(sources, i, taken);
        if examined >= limit {
          assert forall sha :: Offered(sources, i, sha) ==> Offered(sources, |sources|, sha);
          break;
        }
        var source := sources[i];
        if source.eligible && source.sha256 !in seen {
          seen, taken := seen + {source.sha256}, taken + [source.sha256];
          examined := examined + 1;
          ghost var run;
          counts, run := Examine(source, answers(i), counts, runs);
          runs := runs + [run];
        }
      }
    }
  }

  function Names<V>(m: Entries<string, V>): (names: seq<string>)
    ensures |names| == |m|
  {
    if m == [] then [] else [m[0].key] + Names(m[1..])
  }

  lemma NamesMove<V>(before: seq<string>, m: Entries<string, V>)
    requires m != []
    ensures (before + [m[0].key]) + Names(m[1..]) == before + Names(m)
  {
  }

  /** One of the first `n` sources is eligible and has this digest. */
  ghost predicate Offered(sources: seq<Source>, n: nat, sha256: string)
    requires n <= |sources|
  {
    exists i :: 0 <= i < n && sources[i].eligible && sources[i].sha256 == sha256
  }

  /** The distinct digests of the eligible ones among the first `n` sources. */
  ghost predicate TakesOffered(sources: seq<Source>, n: nat, taken: seq<string>)
    requires n <= |sources|
  {
    && (forall i, j :: 0 <= i < j < |taken| ==> taken[i] != taken[j])
    && forall sha :: sha in taken <==> Offered(sources, n, sha)
  }

  lemma TakesNext(sources: seq<Source>, n: nat, taken: seq<string>)
    requires n < |sources| && TakesOffered(sources, n, taken)
    ensures if sources[n].eligible && sources[n].sha256 !in taken
            then TakesOffered(sources, n + 1, taken + [sources[n].sha256]) else TakesOffered(sources, n + 1, taken)
  {
    forall sha
      ensures Offered(sources, n + 1, sha) <==>
                Offered(sources, n, sha) || (sources[n].eligible && sources[n].sha256 == sha)
    {
      if Offered(sources, n, sha) {
        var i :| 0 <= i < n && sources[i].eligible && sources[i].sha256 == sha;
        assert i < n + 1;
      }
    }
  }

  /** How many of the builds ended that way. */
  ghost function CountOf(builds: seq<BuildRun>, outcome: Outcome): (n: nat) {
    |Ending(builds, outcome)|
  }

  ghost function Ending(builds: seq<BuildRun>, outcome: Outcome): (indices: set<nat>) {
    set i | 0 <= i < |builds| && builds[i].outcome == outcome
  }

  ghost predicate Tallies(counts: Counts, builds: seq<BuildRun>) {
    && counts.built == CountOf(builds, Built) && counts.failed == CountOf(builds, Failed)
    && counts.notBeneficial == CountOf(builds, NotBeneficial) && counts.skipped == CountOf(builds, Skipped)
    && counts.tooLarge == CountOf(builds, TooLarge)
  }

  lemma {:induction false} CountOneMore(builds: seq<BuildRun>, run: BuildRun, outcome: Outcome)
    ensures CountOf(builds + [run], outcome) == CountOf(builds, outcome) + One(run.outcome, outcome)
  {
    assert Ending(builds + [run], outcome)
        == Ending(builds, outcome) + if run.outcome == outcome then {|builds|} else {};
  }

  function One(outcome: Outcome, other: Outcome): (n: nat) {
    if outcome == other then 1 else 0
  }

  lemma AddIsOneMore(counts: Counts, outcome: Outcome)
    ensures counts.Add(outcome)
            == Counts(counts.built + One(outcome, Built), counts.failed + One(outcome, Failed),
                      counts.notBeneficial + One(outcome, NotBeneficial), counts.skipped + One(outcome, Skipped),
                      counts.tooLarge + One(outcome, TooLarge))
  {
  }

  lemma {:induction false} TallyOneMore(counts: Counts, builds: seq<BuildRun>, run: BuildRun)
    requires Tallies(counts, builds)
    ensures Tallies(counts.Add(run.outcome), builds + [run])
  {
    CountOneMore(builds, run, Built);
    CountOneMore(builds, run, Failed);
    CountOneMore(builds, run, NotBeneficial);
    CountOneMore(builds, run, Skipped);
    CountOneMore(builds, run, TooLarge);
    AddIsOneMore(counts, run.outcome);
  }

  // ---------- facts ----------

  lemma RenewMembers<V>(m: Entries<string, V>, k: string, v: V)
    ensures forall e :: e in Renew(m, k, v) ==> e in m || e == Pair(k, v)
  {
    DeleteMembers(m, k);
  }

  lemma RememberedMappings(mappings: Entries<string, Mapping>, m: Mapping)
    requires Distinct(mappings) && |mappings| <= MAX_MAPPINGS
    ensures var r := Bounded(Renew(mappings, m.source, m), MAX_MAPPINGS);
            && Distinct(r) && |r| <= MAX_MAPPINGS
            && Lookup(r, m.source) == Some(m) && r[|r| - 1] == Pair(m.source, m)
    ensures forall other :: other != m.source ==>
              LookupOrDropped(mappings, m.source, MAX_MAPPINGS, other,
                              Lookup(Bounded(Renew(mappings, m.source, m), MAX_MAPPINGS), other))
  {
    BoundedRenewEntries(mappings, m.source, m, MAX_MAPPINGS);
  }

  lemma NewestEntries(queue: Entries<string, Queued>, source: string, queued: Queued)
    requires Distinct(queue) && |queue| <= MAX_QUEUED
    ensures var r := Bounded(Renew(queue, source, queued), MAX_QUEUED);
            && Distinct(r) && |r| <= MAX_QUEUED && source in Keys(r)
            && Lookup(r, source) == Some(queued) && r[|r| - 1] == Pair(source, queued)
            && (|Renew(queue, source, queued)| <= MAX_QUEUED ==> Keys(queue) <= Keys(r))
    ensures forall other :: other != source ==>
              LookupOrDropped(queue, source, MAX_QUEUED, other,
                              Lookup(Bounded(Renew(queue, source, queued), MAX_QUEUED), other))
  {
    RenewEntries(queue, source, queued);
    BoundedRenewEntries(queue, source, queued, MAX_QUEUED);
    LookupIsEntry(Bounded(Renew(queue, source, queued), MAX_QUEUED), source);
  }

  /** What becomes of a queued rebuild when anything else is enqueued: it keeps its force or is dropped as oldest. */
  lemma ForcedStaysForced(queue: Entries<string, Queued>, source: string, other: string, queued: Queued)
    requires Distinct(queue) && |queue| <= MAX_QUEUED
    requires Lookup(queue, source).Some? && Lookup(queue, source).value.forceRebuild
    ensures var queue' := if Keeps(Lookup(queue, other), queued) then queue
                          else Bounded(Renew(queue, other, queued), MAX_QUEUED);
            || Lookup(queue', source) == Lookup(queue, source)
            || (Lookup(queue', source).None? && queue[0].key == source && |queue| == MAX_QUEUED)
  {
    if !Keeps(Lookup(queue, other), queued) {
      RenewEntries(queue, other, queued);
      BoundedEntries(Renew(queue, other, queued), MAX_QUEUED);
      LookupIsEntry(queue, other);
      if other !in Keys(queue) {
        DeleteAbsent(queue, other);
      }
    }
  }
}
