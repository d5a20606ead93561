/** Concurrent publications: every blob is installed before the version that names it commits. */
module Publication {
  import opened PublicationSources

  const INSTALL_CONCURRENCY := 4

  datatype Blob = Blob(sha256: string, size: int)

  function BlobOf(id: Identity): Blob {
    Blob(id.sha256, id.size)
  }

  /** One file being installed: promoting its sealed upload, or storing its verified stream. */
  datatype Install = Promoting | Streaming

  datatype Publisher = Publisher(
    entries: seq<ManifestEntry>,
    waiting: seq<FileSource>,
    running: map<FileSource, Install>)

  datatype State = State(
    blobs: set<Blob>,
    publishers: map<nat, Publisher>,
    committed: set<seq<ManifestEntry>>)

  datatype Step =
    | StoreFiles(p: nat, entries: seq<ManifestEntry>, files: seq<FileSource>, sources: map<string, FileSource>)
    | StartInstall(p: nat, canPromote: bool)
    | PromoteSucceeds(p: nat, file: FileSource)
    | PromoteFails(p: nat, file: FileSource)
    | StreamSucceeds(p: nat, file: FileSource)
    | Stop(p: nat)
    | Commit(p: nat)

  /** The sources still to install, in manifest order. */
  function ToInstall(entries: seq<ManifestEntry>, sources: map<string, FileSource>): (files: seq<FileSource>)
    requires forall e :: e in entries ==> e.id.path in sources
    ensures forall e :: e in entries && !sources[e.id.path].installed ==> sources[e.id.path] in files
    ensures forall f :: f in files ==> !f.installed && exists e :: e in entries && sources[e.id.path] == f
  {
    if entries == [] then []
    else
      var file := sources[entries[0].id.path];
      assert entries == [entries[0]] + entries[1..];
      (if file.installed then [] else [file]) + ToInstall(entries[1..], sources)
  }

  ghost predicate Running(s: State, p: nat, file: FileSource, how: Install) {
    p in s.publishers && file in s.publishers[p].running && s.publishers[p].running[file] == how
  }

  /** The answer `PublicationSourcesByPath` gives for accepted files. */
  ghost predicate SourcesFor(entries: seq<ManifestEntry>, files: seq<FileSource>, sources: map<string, FileSource>) {
    forall e :: e in entries ==>
      e.id.path in sources && sources[e.id.path] in files && sources[e.id.path].id == e.id
  }

  ghost predicate Enabled(s: State, step: Step) {
    match step
    case StoreFiles(p, entries, files, sources) =>
      && p !in s.publishers && SourcesFor(entries, files, sources)
      // A file that says it is installed is taken at its word.
      && forall file :: file in files && file.installed ==> BlobOf(file.id) in s.blobs
    case StartInstall(p, _) =>
      p in s.publishers && s.publishers[p].waiting != [] && |s.publishers[p].running| < INSTALL_CONCURRENCY
    case PromoteSucceeds(p, file) => Running(s, p, file, Promoting)
    case PromoteFails(p, file) => Running(s, p, file, Promoting)
    case StreamSucceeds(p, file) => Running(s, p, file, Streaming)
    case Stop(p) => p in s.publishers
    case Commit(p) => p in s.publishers && s.publishers[p].waiting == [] && s.publishers[p].running == map[]
  }

  ghost function Take(s: State, step: Step): State
    requires Enabled(s, step)
  {
    match step
    case StoreFiles(p, entries, _, sources) =>
      s.(publishers := s.publishers[p := Publisher(entries, ToInstall(entries, sources), map[])])
    case StartInstall(p, canPromote) =>
      var pub := s.publishers[p];
      var file := pub.waiting[0];
      var how := if file.staged && canPromote then Promoting else Streaming;
      s.(publishers := s.publishers[p := pub.(waiting := pub.waiting[1..], running := pub.running[file := how])])
    case PromoteFails(p, file) =>
      var pub := s.publishers[p];
      s.(publishers := s.publishers[p := pub.(running := pub.running[file := Streaming])])
    case Stop(p) => s.(publishers := s.publishers - {p})
    case Commit(p) =>
      s.(publishers := s.publishers - {p}, committed := s.committed + {s.publishers[p].entries})
    case _ =>
      var pub := s.publishers[step.p];
      s.(blobs := s.blobs + {BlobOf(step.file.id)},
         publishers := s.publishers[step.p := pub.(running := pub.running - {step.file})])
  }

  ghost predicate Runs(s: State, steps: seq<Step>, s': State)
    decreases |steps|
  {
    if steps == [] then s' == s
    else Enabled(s, steps[0]) && Runs(Take(s, steps[0]), steps[1..], s')
  }

  /** An entry's blob is stored, or its file is still to be installed or being installed. */
  ghost predicate Covered(s: State, pub: Publisher, e: ManifestEntry) {
    || BlobOf(e.id) in s.blobs
    || (exists file :: file in pub.waiting && file.id == e.id)
    || (exists file :: file in pub.running && file.id == e.id)
  }

  ghost predicate Inv(s: State) {
    && (forall p, e :: p in s.publishers && e in s.publishers[p].entries ==> Covered(s, s.publishers[p], e))
    && (forall p :: p in s.publishers ==> |s.publishers[p].running| <= INSTALL_CONCURRENCY)
    && (forall entries, e :: entries in s.committed && e in entries ==> BlobOf(e.id) in s.blobs)
  }

  lemma StepKeepsCovered(s: State, step: Step, p: nat, e: ManifestEntry)
    requires Inv(s) && Enabled(s, step)
    requires p in Take(s, step).publishers && e in Take(s, step).publishers[p].entries
    ensures Covered(Take(s, step), Take(s, step).publishers[p], e)
  {
  }

  lemma StepKeepsWidth(s: State, step: Step, p: nat)
    requires Inv(s) && Enabled(s, step) && p in Take(s, step).publishers
    ensures |Take(s, step).publishers[p].running| <= INSTALL_CONCURRENCY
  {
  }

  lemma StepKeepsCommitted(s: State, step: Step, entries: seq<ManifestEntry>, e: ManifestEntry)
    requires Inv(s) && Enabled(s, step)
    requires entries in Take(s, step).committed && e in entries
    ensures BlobOf(e.id) in Take(s, step).blobs
  {
  }

  lemma {:induction false} StepKeepsInv(s: State, step: Step)
    requires Inv(s) && Enabled(s, step)
    ensures Inv(Take(s, step)) && s.blobs <= Take(s, step).blobs
  {
    var s' := Take(s, step);
    forall p, e | p in s'.publishers && e in s'.publishers[p].entries ensures Covered(s', s'.publishers[p], e) {
      StepKeepsCovered(s, step, p, e);
    }
    forall p | p in s'.publishers ensures |s'.publishers[p].running| <= INSTALL_CONCURRENCY {
      StepKeepsWidth(s, step, p);
    }
    forall entries, e | entries in s'.committed && e in entries ensures BlobOf(e.id) in s'.blobs {
      StepKeepsCommitted(s, step, entries, e);
    }
  }

  lemma {:induction false} RunKeepsInv(s: State, steps: seq<Step>, s': State)
    requires Inv(s) && Runs(s, steps, s')
    ensures Inv(s') && s.blobs <= s'.blobs
    decreases |steps|
  {
    if steps != [] {
      StepKeepsInv(s, steps[0]);
      RunKeepsInv(Take(s, steps[0]), steps[1..], s');
    }
  }

  /**
   * Over every run of any number of publishers: each committed version's blobs are there, for good, and no
   * publication installs more than four files at once.
   */
  lemma CommittedVersionsHaveTheirBlobs(s: State, steps: seq<Step>, s': State, later: seq<Step>, s'': State)
    requires s.publishers == map[] && s.committed == {}
    requires Runs(s, steps, s') && Runs(s', later, s'')
    ensures forall entries, e :: entries in s'.committed && e in entries ==> BlobOf(e.id) in s''.blobs
    ensures forall p :: p in s'.publishers ==> |s'.publishers[p].running| <= INSTALL_CONCURRENCY
  {
    RunKeepsInv(s, steps, s');
    RunKeepsInv(s', later, s'');
  }

  // ---------- a publication can commit ----------

  lemma RunsCons(s: State, step: Step, rest: seq<Step>, s': State)
    requires Enabled(s, step) && Runs(Take(s, step), rest, s')
    ensures Runs(s, [step] + rest, s')
  {
  }

  /** What a publisher still has to install. */
  ghost function Missing(pub: Publisher): (blobs: set<Blob>) {
    (set file | file in pub.waiting :: BlobOf(file.id)) + (set file | file in pub.running :: BlobOf(file.id))
  }

  /** The next step of one publisher: finish what runs, then start the next file. */
  lemma NextInstall(s: State, p: nat, canPromote: bool) returns (step: Step)
    requires p in s.publishers && (s.publishers[p].running != map[] || s.publishers[p].waiting != [])
    ensures Enabled(s, step)
    ensures var pub, next := s.publishers[p], Take(s, step);
            && p in next.publishers && next.publishers == s.publishers[p := next.publishers[p]]
            && next.publishers[p].entries == pub.entries && next.committed == s.committed
            && next.blobs + Missing(next.publishers[p]) == s.blobs + Missing(pub)
            && 2 * |next.publishers[p].waiting| + |next.publishers[p].running| < 2 * |pub.waiting| + |pub.running|
  {
    var pub := s.publishers[p];
    if pub.running != map[] {
      assert pub.running.Keys != {};
      var file :| file in pub.running;
      step := if pub.running[file].Promoting? then PromoteSucceeds(p, file) else StreamSucceeds(p, file);
      var next := Take(s, step);
      assert next.publishers[p].running.Keys == pub.running.Keys - {file};
      assert |pub.running.Keys| == |pub.running|;
    } else {
      step := StartInstall(p, canPromote);
      var next := Take(s, step);
      assert pub.waiting == [pub.waiting[0]] + pub.waiting[1..];
      assert next.publishers[p].running.Keys == {pub.waiting[0]};
      assert |next.publishers[p].running| == |next.publishers[p].running.Keys| == 1;
    }
  }

  /** Whatever the others do not do: a publication alone installs what it still has to, nothing else, and commits. */
  lemma {:induction false} CanCommit(s: State, p: nat, canPromote: bool) returns (steps: seq<Step>, s': State)
    requires p in s.publishers
    ensures Runs(s, steps, s') && s'.committed == s.committed + {s.publishers[p].entries}
    ensures s'.blobs == s.blobs + Missing(s.publishers[p]) && s'.publishers == s.publishers - {p}
    decreases 2 * |s.publishers[p].waiting| + |s.publishers[p].running|
  {
    var pub := s.publishers[p];
    if pub.running == map[] && pub.waiting == [] {
      steps, s' := [Commit(p)], Take(s, Commit(p));
      RunsCons(s, Commit(p), [], s');
    } else {
      var step := NextInstall(s, p, canPromote);
      var rest;
      rest, s' := CanCommit(Take(s, step), p, canPromote);
      RunsCons(s, step, rest, s');
      steps := [step] + rest;
    }
  }

  /** Accepted files can be published: the version commits, and just the files not yet installed are installed. */
  lemma AcceptedFilesCanCommit(s: State, p: nat, entries: seq<ManifestEntry>, files: seq<FileSource>,
                               sources: map<string, FileSource>, canPromote: bool)
      returns (steps: seq<Step>, s': State)
    requires Enabled(s, StoreFiles(p, entries, files, sources))
    ensures Runs(s, steps, s') && s'.committed == s.committed + {entries} && s'.publishers == s.publishers
    ensures s'.blobs
            == s.blobs + set e | e in entries && !sources[e.id.path].installed :: BlobOf(e.id)
  {
    var step := StoreFiles(p, entries, files, sources);
    var stored := Take(s, step);
    var rest;
    rest, s' := CanCommit(stored, p, canPromote);
    RunsCons(s, step, rest, s');
    steps := [step] + rest;
    assert s'.publishers == s.publishers;
    MissingFiles(entries, files, sources);
  }

  lemma MissingFiles(entries: seq<ManifestEntry>, files: seq<FileSource>, sources: map<string, FileSource>)
    requires SourcesFor(entries, files, sources)
    ensures Missing(Publisher(entries, ToInstall(entries, sources), map[]))
            == set e | e in entries && !sources[e.id.path].installed :: BlobOf(e.id)
  {
    var waiting := ToInstall(entries, sources);
    forall e | e in entries && !sources[e.id.path].installed
      ensures BlobOf(e.id) in set file | file in waiting :: BlobOf(file.id)
    {
      assert sources[e.id.path] in waiting;
    }
    forall file | file in waiting
      ensures BlobOf(file.id) in set e | e in entries && !sources[e.id.path].installed :: BlobOf(e.id)
    {
      var e :| e in entries && sources[e.id.path] == file;
    }
  }
}
