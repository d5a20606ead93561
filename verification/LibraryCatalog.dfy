/** The Library's capped, paged listing and its cache of what each immutable version contributes. */
module LibraryCatalog {
  import opened OrderedMaps

  const MAX_ARTIFACTS := 2_000
  const PAGE_SIZE := 100

  datatype Artifact = Artifact(id: string, name: string, currentVersionId: string)

  datatype Project = Project(id: string, name: string, artifacts: seq<Artifact>)

  datatype Listed = Listed(projectId: string, artifact: Artifact)

  // ---------- listing ----------

  datatype Page = Page(items: seq<Artifact>, nextCursor: Option<nat>)

  /** The repository's page after a cursor: the next items, and a cursor exactly when more remain. */
  function PageAfter(artifacts: seq<Artifact>, cursor: Option<nat>, limit: nat): (page: Page)
    requires cursor.Some? ==> cursor.value <= |artifacts|
    ensures page.nextCursor.Some? ==> page.nextCursor.value <= |artifacts|
  {
    var start := if cursor.Some? then cursor.value else 0;
    var end := if start + limit < |artifacts| then start + limit else |artifacts|;
    Page(artifacts[start..end], if end < |artifacts| then Some(end) else None)
  }

  function ListedOf(projectId: string, artifacts: seq<Artifact>): seq<Listed> {
    seq(|artifacts|, i requires 0 <= i < |artifacts| => Listed(projectId, artifacts[i]))
  }

  /** Everything, without pages or a cap. */
  function AllListed(projects: seq<Project>): seq<Listed> {
    if projects == [] then []
    else AllListed(projects[..|projects| - 1])
         + ListedOf(projects[|projects| - 1].id, projects[|projects| - 1].artifacts)
  }

  function Capped(all: seq<Listed>): seq<Listed> {
    if |all| <= MAX_ARTIFACTS then all else all[..MAX_ARTIFACTS]
  }

  lemma {:induction false} AllListedGrows(projects: seq<Project>, n: nat)
    requires n <= |projects|
    ensures AllListed(projects[..n]) <= AllListed(projects)
    decreases |projects| - n
  {
    if n < |projects| {
      assert projects[..n + 1][..n] == projects[..n];
      AllListedGrows(projects, n + 1);
    } else {
      assert projects[..n] == projects;
    }
  }

  /** Appends one page's items until the cap; `truncated` when an item no longer fits. */
  method AppendPage(listed: seq<Listed>, projectId: string, items: seq<Artifact>)
      returns (appended: seq<Listed>, truncated: bool)
    requires |listed| <= MAX_ARTIFACTS
    ensures appended == Capped(listed + ListedOf(projectId, items))
    ensures truncated <==> |listed + ListedOf(projectId, items)| > MAX_ARTIFACTS
  {
    appended, truncated := listed, false;
    ghost var all := listed + ListedOf(projectId, items);
    for i := 0 to |items|
      invariant appended == all[..|listed| + i] && |listed| + i <= MAX_ARTIFACTS
    {
      if |appended| >= MAX_ARTIFACTS { return appended, true; }
      appended := appended + [Listed(projectId, items[i])];
    }
  }

  /** A page that fits continues the list; one that does not already fills the cap. */
  lemma CappedPage(before: seq<Listed>, projectId: string, done: seq<Artifact>, items: seq<Artifact>,
                   rest: seq<Artifact>)
    requires |before| + |done| <= MAX_ARTIFACTS
    ensures ListedOf(projectId, done + items) == ListedOf(projectId, done) + ListedOf(projectId, items)
    ensures |before| + |done| + |items| > MAX_ARTIFACTS ==>
              Capped(before + ListedOf(projectId, done + items)) ==
              Capped(before + ListedOf(projectId, done + (items + rest)))
  {
  }

  /** One project's pages add exactly its artifacts, up to the cap. */
  method ListProject(before: seq<Listed>, projectId: string, artifacts: seq<Artifact>)
      returns (listed: seq<Listed>, truncated: bool)
    requires |before| <= MAX_ARTIFACTS
    ensures listed == Capped(before + ListedOf(projectId, artifacts))
    ensures truncated <==> |before| + |artifacts| > MAX_ARTIFACTS
  {
    listed, truncated := before, false;
    var cursor := None;
    ghost var position := 0;
    while true
      invariant 0 <= position <= |artifacts|
      invariant position == if cursor.Some? then cursor.value else 0
      invariant listed == before + ListedOf(projectId, artifacts[..position])
      invariant |before| + position <= MAX_ARTIFACTS && !truncated
      decreases |artifacts| - position
    {
      var page := PageAfter(artifacts, cursor, PAGE_SIZE);
      ghost var end := position + |page.items|;
      assert artifacts[..end] == artifacts[..position] + page.items;
      assert artifacts == artifacts[..position] + (page.items + artifacts[end..]);
      CappedPage(before, projectId, artifacts[..position], page.items, artifacts[end..]);
      assert listed + ListedOf(projectId, page.items) == before + ListedOf(projectId, artifacts[..end]);
      listed, truncated := AppendPage(listed, projectId, page.items);
      if truncated { return; }
      position, cursor := end, page.nextCursor;
      if cursor.None? { break; }
    }
    assert artifacts[..position] == artifacts;
  }

  /** The listing loops give exactly the first 2000 artifacts of the projects' concatenated listings. */
  method ListArtifacts(projects: seq<Project>) returns (listed: seq<Listed>, truncated: bool)
    ensures listed == Capped(AllListed(projects))
    ensures truncated <==> |AllListed(projects)| > 2_000
    ensures listed == if truncated then AllListed(projects)[..2_000] else AllListed(projects)
  {
    listed, truncated := [], false;
    for p := 0 to |projects|
      invariant listed == AllListed(projects[..p]) && |listed| <= MAX_ARTIFACTS && !truncated
    {
      assert projects[..p + 1][..p] == projects[..p];
      AllListedGrows(projects, p + 1);
      listed, truncated := ListProject(listed, projects[p].id, projects[p].artifacts);
      if truncated { return; }
    }
    assert projects[..|projects|] == projects;
  }

  // ---------- contributions ----------

  const INDEX_PATH := "artifact-server-previews/index.json"
  const MAX_INDEX_BYTES := 1_048_576

  datatype Entry = Entry(path: string, sha256: string, size: nat)

  datatype Version = Version(createdAt: int, number: nat, entries: seq<Entry>)

  /** What one exact version contributes; `R` is what a readable preview index says. */
  datatype Contribution<+R> = Gallery(reading: R, createdAt: int, versionId: string, number: nat) | Invalid | Nothing

  /** The stored rows and blobs. The preview index grammar is not modelled: `reader` stands for it. */
  datatype World<!R> = World(
    versions: map<string, Version>,
    texts: map<string, string>,
    reader: (string, seq<Entry>) -> Option<R>)

  /** Versions and blobs are immutable: rows appear, none changes or goes. */
  ghost predicate Extends<R>(before: World<R>, after: World<R>) {
    && after.reader == before.reader
    && (forall id :: id in before.versions ==> id in after.versions && after.versions[id] == before.versions[id])
    && (forall sha :: sha in before.texts ==> sha in after.texts && after.texts[sha] == before.texts[sha])
  }

  function IndexEntry(entries: seq<Entry>): (found: Option<Entry>) {
    if entries == [] then None
    else if entries[0].path == INDEX_PATH then Some(entries[0])
    else IndexEntry(entries[1..])
  }

  /** The index entry is the first one at this path, and there is none exactly when no entry has the path. */
  ghost predicate IsIndexAt(entries: seq<Entry>, i: int) {
    && 0 <= i < |entries| && entries[i].path == "artifact-server-previews/index.json"
    && forall j :: 0 <= j < i ==> entries[j].path != "artifact-server-previews/index.json"
  }

  lemma {:induction false} IndexPlace(entries: seq<Entry>) returns (i: nat)
    ensures i <= |entries|
    ensures forall j :: 0 <= j < i ==> entries[j].path != "artifact-server-previews/index.json"
    ensures IndexEntry(entries) == if i < |entries| then Some(entries[i]) else None
    ensures i < |entries| ==> IsIndexAt(entries, i)
  {
    if entries == [] || entries[0].path == INDEX_PATH {
      i := 0;
    } else {
      var j := IndexPlace(entries[1..]);
      assert forall k :: 0 < k < |entries| ==> entries[k] == entries[1..][k - 1];
      i := j + 1;
    }
  }

  lemma IndexEntryIs(entries: seq<Entry>)
    ensures forall i :: IsIndexAt(entries, i) ==> IndexEntry(entries) == Some(entries[i])
    ensures IndexEntry(entries).Some? <==> exists i :: IsIndexAt(entries, i)
    ensures IndexEntry(entries).None? <==>
              forall i :: 0 <= i < |entries| ==> entries[i].path != "artifact-server-previews/index.json"
  {
    var place := IndexPlace(entries);
    forall i | IsIndexAt(entries, i) ensures i == place {
      assert i >= place;
    }
  }

  /** What a reader with no cache sees when every read succeeds. */
  function Uncached<R>(world: World<R>, id: string): (contribution: Contribution<R>) {
    if id !in world.versions then Nothing
    else
      var version := world.versions[id];
      match IndexEntry(version.entries)
      case None => Nothing
      case Some(entry) =>
        if entry.size > MAX_INDEX_BYTES || entry.sha256 !in world.texts then Invalid
        else
          match world.reader(world.texts[entry.sha256], version.entries)
          case None => Invalid
          case Some(reading) => Gallery(reading, version.createdAt, id, version.number)
  }

  /** The same by places: what the version contributes, given the place of its first index entry if it has one. */
  ghost predicate Contributes<R>(world: World<R>, id: string, c: Contribution<R>) {
    if id !in world.versions then c == Nothing
    else
      var version := world.versions[id];
      var entries := version.entries;
      if forall i :: 0 <= i < |entries| ==> entries[i].path != "artifact-server-previews/index.json" then c == Nothing
      else exists i :: IsIndexAt(entries, i) &&
             if entries[i].size > 1_048_576 || entries[i].sha256 !in world.texts then c == Invalid
             else
               var reading := world.reader(world.texts[entries[i].sha256], entries);
               c == if reading.Some? then Gallery(reading.value, version.createdAt, id, version.number) else Invalid
  }

  lemma UncachedIs<R>(world: World<R>, id: string, c: Contribution<R>)
    ensures Contributes(world, id, c) <==> c == Uncached(world, id)
  {
    if id in world.versions {
      IndexEntryIs(world.versions[id].entries);
    }
  }

  /** Every row and blob the contribution depends on is there. */
  predicate Settled<R>(world: World<R>, id: string) {
    && id in world.versions
    && var index := IndexEntry(world.versions[id].entries);
       (index.Some? && index.value.size <= MAX_INDEX_BYTES ==> index.value.sha256 in world.texts)
  }

  lemma SettledForGood<R>(before: World<R>, after: World<R>, id: string)
    requires Extends(before, after) && Settled(before, id)
    ensures Settled(after, id) && Uncached(after, id) == Uncached(before, id)
  {
  }

  // ---------- the cache and its readers ----------

  type Contributions<R> = Entries<string, Contribution<R>>

  /** The reads of one miss: the version row as found, and the index text unless its read failed. */
  datatype Reads = Reads(version: Option<Version>, text: Option<string>)

  /** Reads report stored values, or nothing: a row not there yet, a blob that could not be read. */
  ghost predicate Truthful<R>(world: World<R>, id: string, seen: Reads) {
    && (seen.version.Some? ==> id in world.versions && seen.version.value == world.versions[id])
    && (seen.version.Some? && seen.text.Some? ==>
          var index := IndexEntry(seen.version.value.entries);
          index.Some? ==> index.value.sha256 in world.texts && seen.text.value == world.texts[index.value.sha256])
  }

  /** Nothing that is stored went unread. */
  ghost predicate Complete<R>(world: World<R>, id: string, seen: Reads) {
    && (id in world.versions ==> seen.version.Some?)
    && (Settled(world, id) ==> seen.text.Some?)
  }

  /** What a miss answers, and whether it may be remembered. */
  function Fetched<R>(reader: (string, seq<Entry>) -> Option<R>, id: string, seen: Reads)
    : (answer: (Contribution<R>, bool))
  {
    if seen.version.None? then (Nothing, false)
    else
      var version := seen.version.value;
      match IndexEntry(version.entries)
      case None => (Nothing, true)
      case Some(entry) =>
        if entry.size > MAX_INDEX_BYTES then (Invalid, true)
        else if seen.text.None? then (Invalid, false)
        else
          match reader(seen.text.value, version.entries)
          case None => (Invalid, true)
          case Some(reading) => (Gallery(reading, version.createdAt, id, version.number), true)
  }

  /** A miss is right when its reads were complete, and remembers nothing that could go stale. */
  lemma FetchedIsUncached<R>(world: World<R>, id: string, seen: Reads)
    requires Truthful(world, id, seen)
    ensures Complete(world, id, seen) ==> Fetched(world.reader, id, seen).0 == Uncached(world, id)
    ensures Fetched(world.reader, id, seen).1 ==>
              Settled(world, id) && Fetched(world.reader, id, seen).0 == Uncached(world, id)
    ensures Complete(world, id, seen) && Settled(world, id) ==> Fetched(world.reader, id, seen).1
  {
  }

  /** The entry is the newest, and every other one is as it was, but for the oldest of a full cache. */
  ghost predicate NewestIs<R(!new)>(before: Contributions<R>, after: Contributions<R>, id: string, c: Contribution<R>,
                                    capacity: nat)
  {
    && after != [] && after[|after| - 1] == Pair(id, c) && Lookup(after, id) == Some(c)
    && forall other :: other != id ==> LookupOrDropped(before, id, capacity, other, Lookup(after, other))
  }

  class VersionCache<R(!new)> {
    const capacity: nat
    var contributions: Contributions<R>

    ghost predicate Valid()
      reads this
    {
      Distinct(contributions) && |contributions| <= capacity
    }

    constructor (capacity: nat)
      ensures Valid() && this.capacity == capacity && contributions == []
    {
      this.capacity := capacity;
      contributions := [];
    }

    method Remember(id: string, contribution: Contribution<R>)
      requires Valid()
      modifies this
      ensures Valid()
      ensures contributions == Bounded(Renew(old(contributions), id, contribution), capacity)
      ensures capacity > 0 ==> NewestIs(old(contributions), contributions, id, contribution, capacity)
    {
      if capacity > 0 { BoundedRenewEntries(contributions, id, contribution, capacity); }
      RenewEntries(contributions, id, contribution);
      BoundedEntries(Renew(contributions, id, contribution), capacity);
      contributions := Delete(contributions, id);
      contributions := contributions + [Pair(id, contribution)];
      if |contributions| > capacity { contributions := contributions[1..]; }
    }

    /** The first, uninterrupted part of a read: a hit is renewed and answers at once. */
    method Begin(id: string) returns (cached: Option<Contribution<R>>)
      requires Valid()
      modifies this
      ensures Valid()
      ensures cached == Lookup(old(contributions), id)
      ensures contributions == Began(old(contributions), id, capacity)
    {
      cached := Lookup(contributions, id);
      if cached.Some? { Remember(id, cached.value); }
    }

    /** The last, uninterrupted part of a miss, after any other readers ran. */
    method Finish(reader: (string, seq<Entry>) -> Option<R>, id: string, seen: Reads)
        returns (answer: Contribution<R>)
      requires Valid()
      modifies this
      ensures Valid()
      ensures answer == Fetched(reader, id, seen).0
      ensures contributions == Finished(old(contributions), reader, id, seen, capacity)
    {
      var (contribution, lasting) := Fetched(reader, id, seen);
      answer := contribution;
      if lasting { Remember(id, contribution); }
    }
  }

  function Began<R>(cache: Contributions<R>, id: string, capacity: nat): (next: Contributions<R>) {
    var cached := Lookup(cache, id);
    if cached.Some? then Bounded(Renew(cache, id, cached.value), capacity) else cache
  }

  function Finished<R>(cache: Contributions<R>, reader: (string, seq<Entry>) -> Option<R>, id: string,
                       seen: Reads, capacity: nat): (next: Contributions<R>)
  {
    var (contribution, lasting) := Fetched(reader, id, seen);
    if lasting then Bounded(Renew(cache, id, contribution), capacity) else cache
  }

  // ---------- runs of concurrent readers ----------

  datatype Event<!R> = Grown(world: World<R>) | Begun(id: string) | Ended(id: string, seen: Reads)

  datatype Catalog<!R> = Catalog(world: World<R>, cache: Contributions<R>, capacity: nat)

  ghost predicate Possible<R>(c: Catalog<R>, event: Event<R>) {
    match event
    case Grown(world) => Extends(c.world, world)
    case Begun(_) => true
    case Ended(id, seen) => Truthful(c.world, id, seen)
  }

  function After<R>(c: Catalog<R>, event: Event<R>): Catalog<R> {
    match event
    case Grown(world) => c.(world := world)
    case Begun(id) => c.(cache := Began(c.cache, id, c.capacity))
    case Ended(id, seen) => c.(cache := Finished(c.cache, c.world.reader, id, seen, c.capacity))
  }

  /** What the event answers to its reader, if it answers. */
  function Answer<R>(c: Catalog<R>, event: Event<R>): Option<Contribution<R>> {
    match event
    case Grown(_) => None
    case Begun(id) => Lookup(c.cache, id)
    case Ended(id, seen) => Some(Fetched(c.world.reader, id, seen).0)
  }

  ghost predicate Reaches<R>(from: Catalog<R>, events: seq<Event<R>>, to: Catalog<R>)
    decreases |events|
  {
    if events == [] then to == from
    else
      && Possible(from, events[0])
      && Reaches(After(from, events[0]), events[1..], to)
  }

  ghost predicate Faithful<R>(c: Catalog<R>) {
    && Distinct(c.cache) && |c.cache| <= c.capacity
    && forall id :: Lookup(c.cache, id).Some? ==>
         Settled(c.world, id) && Lookup(c.cache, id).value == Uncached(c.world, id)
  }

  lemma RenewedStaysFaithful<R>(c: Catalog<R>, id: string)
    requires Faithful(c) && Settled(c.world, id)
    ensures Faithful(c.(cache := Bounded(Renew(c.cache, id, Uncached(c.world, id)), c.capacity)))
  {
    RenewEntries(c.cache, id, Uncached(c.world, id));
    BoundedEntries(Renew(c.cache, id, Uncached(c.world, id)), c.capacity);
  }

  lemma EventKeepsFaithful<R>(c: Catalog<R>, event: Event<R>)
    requires Faithful(c) && Possible(c, event)
    ensures Faithful(After(c, event))
  {
    match event {
      case Grown(world) => {
        forall id | Lookup(c.cache, id).Some?
          ensures Settled(world, id) && Lookup(c.cache, id).value == Uncached(world, id)
        {
          SettledForGood(c.world, world, id);
        }
      }
      case Begun(id) => {
        if Lookup(c.cache, id).Some? { RenewedStaysFaithful(c, id); }
      }
      case Ended(id, seen) => {
        FetchedIsUncached(c.world, id, seen);
        if Fetched(c.world.reader, id, seen).1 { RenewedStaysFaithful(c, id); }
      }
    }
  }

  lemma {:induction false} RunKeepsFaithful<R>(from: Catalog<R>, events: seq<Event<R>>, to: Catalog<R>)
    requires Faithful(from) && Reaches(from, events, to)
    ensures Faithful(to) && to.capacity == from.capacity
    decreases |events|
  {
    if events != [] {
      EventKeepsFaithful(from, events[0]);
      RunKeepsFaithful(After(from, events[0]), events[1..], to);
    }
  }

  /**
   * The cache is invisible: from an empty cache of any size, under any interleaving of readers and of
   * new versions, every hit and every miss whose reads were complete answers what a reader with no
   * cache answers in the same world.
   */
  lemma CacheIsInvisible<R>(from: Catalog<R>, events: seq<Event<R>>, now: Catalog<R>, next: Event<R>)
    requires from.cache == [] && Reaches(from, events, now) && Possible(now, next)
    ensures |now.cache| <= from.capacity
    ensures next.Begun? && Answer(now, next).Some? ==> Answer(now, next) == Some(Uncached(now.world, next.id))
    ensures next.Ended? && Complete(now.world, next.id, next.seen) ==>
              Answer(now, next) == Some(Uncached(now.world, next.id))
  {
    RunKeepsFaithful(from, events, now);
    if next.Ended? { FetchedIsUncached(now.world, next.id, next.seen); }
  }

  /** A complete miss of a settled version is remembered: the next reader has a hit, and it is the newest entry. */
  lemma MissIsRemembered<R(!new)>(c: Catalog<R>, id: string, seen: Reads)
    requires Faithful(c) && Possible(c, Ended(id, seen)) && c.capacity > 0
    requires Settled(c.world, id) && Complete(c.world, id, seen)
    ensures var after := After(c, Ended(id, seen));
            && Answer(after, Begun(id)) == Some(Uncached(c.world, id))
            && NewestIs(c.cache, after.cache, id, Uncached(c.world, id), c.capacity)
  {
    FetchedIsUncached(c.world, id, seen);
    BoundedRenewEntries(c.cache, id, Uncached(c.world, id), c.capacity);
  }

  /** A hit keeps the value and makes it the newest entry; nothing else moves. */
  lemma HitIsRenewed<R(!new)>(c: Catalog<R>, id: string)
    requires Faithful(c) && c.capacity > 0 && Answer(c, Begun(id)).Some?
    ensures NewestIs(c.cache, After(c, Begun(id)).cache, id, Answer(c, Begun(id)).value, c.capacity)
    ensures forall other :: Lookup(After(c, Begun(id)).cache, other) == Lookup(c.cache, other)
  {
    var value := Answer(c, Begun(id)).value;
    BoundedRenewEntries(c.cache, id, value, c.capacity);
    LookupIsEntry(c.cache, id);
  }
}
