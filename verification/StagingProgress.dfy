/** A pass over the store's own listing: when the remaining staging shrinks. */
module StagingProgress {
  import opened OrderedMaps
  import opened StagingCleanup
  import opened StagingListing

  /** The rows of expired staging. */
  datatype Store = Store(uploads: Uploads, rows: set<FileKey>)

  ghost function Size(store: Store): nat {
    |store.rows| + |store.uploads.Keys|
  }

  ghost function Without(store: Store, rowsGone: set<FileKey>, uploadsGone: set<string>): (left: Store) {
    Store(store.uploads - uploadsGone, store.rows - rowsGone)
  }

  function TokensOf(files: seq<ExpiredFile>): seq<string> {
    seq(|files|, i requires 0 <= i < |files| => files[i].token)
  }

  function Plain(uploads: seq<ExpiredUpload>): seq<Listed> {
    seq(|uploads|, i requires 0 <= i < |uploads| => Listed(uploads[i].id, TokensOf(uploads[i].files)))
  }

  /** The uploads are what the store lists. */
  ghost predicate ListedBy(store: Store, cutoff: int, limit: nat, uploads: seq<ExpiredUpload>) {
    Lists(store.uploads, store.rows, cutoff, limit, Plain(uploads))
  }

  /** One of the first `limit` expired uploads has a file row. */
  ghost predicate ListsSomething(store: Store, cutoff: int, limit: nat) {
    exists u :: Selected(store.uploads, cutoff, limit, u) && HasFile(store.rows, u)
  }

  lemma ListedIsStored(store: Store, cutoff: int, limit: nat, uploads: seq<ExpiredUpload>)
    requires ListedBy(store, cutoff, limit, uploads)
    ensures FilesOf(uploads) <= store.rows && IdsOf(uploads) <= store.uploads.Keys
    ensures |uploads| <= limit
  {
    ListingKeepsLimit(store.uploads, store.rows, cutoff, limit, Plain(uploads));
    forall u, f | u in uploads && f in u.files ensures FileKey(u.id, f.token) in store.rows && u.id in store.uploads {
      UploadIsStored(store, cutoff, limit, uploads, u);
      var i :| 0 <= i < |u.files| && u.files[i] == f;
      assert TokensOf(u.files)[i] == f.token;
    }
    forall u | u in uploads ensures u.id in store.uploads {
      UploadIsStored(store, cutoff, limit, uploads, u);
    }
  }

  lemma UploadIsStored(store: Store, cutoff: int, limit: nat, uploads: seq<ExpiredUpload>, u: ExpiredUpload)
    requires ListedBy(store, cutoff, limit, uploads) && u in uploads
    ensures Selected(store.uploads, cutoff, limit, u.id) && ListsFiles(store.rows, Listed(u.id, TokensOf(u.files)))
  {
    var i :| 0 <= i < |uploads| && uploads[i] == u;
    assert Plain(uploads)[i] in Plain(uploads);
  }

  lemma SomethingIsListed(store: Store, cutoff: int, limit: nat, uploads: seq<ExpiredUpload>)
    requires ListedBy(store, cutoff, limit, uploads)
    ensures uploads != [] <==> ListsSomething(store, cutoff, limit)
  {
    if uploads != [] {
      var u := uploads[0];
      UploadIsStored(store, cutoff, limit, uploads, u);
      var l := Listed(u.id, TokensOf(u.files));
      assert l.files[0] in l.files;
      assert FileKey(u.id, l.files[0]) in store.rows;
      assert HasFile(store.rows, u.id);
    }
    if ListsSomething(store, cutoff, limit) {
      var u :| Selected(store.uploads, cutoff, limit, u) && HasFile(store.rows, u);
      assert IsListed(Plain(uploads), u);
    }
  }

  /** Taking listed rows away shrinks the store by exactly as many. */
  lemma TakingShrinks(store: Store, rowsGone: set<FileKey>, uploadsGone: set<string>)
    requires rowsGone <= store.rows && uploadsGone <= store.uploads.Keys
    ensures Size(Without(store, rowsGone, uploadsGone)) == Size(store) - |rowsGone| - |uploadsGone|
  {
    assert (store.uploads - uploadsGone).Keys == store.uploads.Keys - uploadsGone;
  }

  /**
   * Whatever rows a pass takes: with an unhindered first upload the store shrinks exactly when one of the first `limit`
   * expired uploads has a file row and the pass gets to start, and otherwise stays as it was.
   */
  lemma ShrinksIffSomethingIsListed(store: Store, cutoff: int, limit: nat, uploads: seq<ExpiredUpload>, starts: bool,
                                    rowsGone: set<FileKey>, uploadsGone: set<string>)
    requires ListedBy(store, cutoff, limit, uploads) && Took(uploads, starts, rowsGone, uploadsGone)
    requires uploads != [] ==> Unhindered(uploads[0])
    ensures Size(Without(store, rowsGone, uploadsGone)) < Size(store) <==>
              ListsSomething(store, cutoff, limit) && starts
    ensures !(ListsSomething(store, cutoff, limit) && starts) ==> Without(store, rowsGone, uploadsGone) == store
  {
    ListedIsStored(store, cutoff, limit, uploads);
    SomethingIsListed(store, cutoff, limit, uploads);
    TakingShrinks(store, rowsGone, uploadsGone);
  }

  lemma SelectedIsListed(world: World, command: Command, ends: Endings, removed: int, to: nat, report: Report)
    requires 0 <= command.limit && Follows(world, command, ends, removed, to, report) && !world.cleansCommitted
    ensures report.selected == |world.listExpired(command.limit).value|
  {
  }

  /** A valid command on the store's own listing, every claim granted and every removal done. */
  ghost predicate FailureFree(world: World, command: Command, settle: nat, store: Store) {
    && 1 <= command.limit <= MAX_LIMIT
    && ValidBudget(command.maxFiles, MAX_FILES) && ValidBudget(command.maxDuration, MAX_DURATION)
    && world.listExpired(command.limit).Success?
    && ListedBy(store, world.clock(0) - settle, command.limit, world.listExpired(command.limit).value)
    && forall u :: u in world.listExpired(command.limit).value ==> Unhindered(u)
  }

  /**
   * A failure-free pass whose claims are granted: remaining file rows plus upload rows strictly decrease exactly when
   * one of the first `limit` expired uploads has a file row and the time budget allows a start. Otherwise the pass
   * leaves the store as it was.
   */
  method CleanStore(world: World, command: Command, settle: nat, ghost store: Store)
      returns (result: Result<Report>, ghost left: Store)
    requires world.KeepsLimits() && FailureFree(world, command, settle, store)
    ensures left.rows <= store.rows && left.uploads.Keys <= store.uploads.Keys
    ensures Size(left) < Size(store) <==>
              ListsSomething(store, world.clock(0) - settle, command.limit) && Starts(world.clock, command.maxDuration)
    ensures Size(left) == Size(store) ==> left == store
    ensures result.Success? && !world.cleansCommitted ==>
              (result.value.selected > 0 <==> ListsSomething(store, world.clock(0) - settle, command.limit))
  {
    ghost var pass, ends;
    result, pass, ends := RunPass(world, command);
    ghost var uploads, cutoff := world.listExpired(command.limit).value, world.clock(0) - settle;
    assert uploads != [] ==> uploads[0] in uploads;
    ShrinksIffSomethingIsListed(store, cutoff, command.limit, uploads, Starts(world.clock, command.maxDuration),
                                pass.rowsGone, pass.uploadsGone);
    if result.Success? && !world.cleansCommitted {
      SelectedIsListed(world, command, ends, pass.removed, pass.readings, result.value);
      SomethingIsListed(store, cutoff, command.limit, uploads);
    }
    left := Without(store, pass.rowsGone, pass.uploadsGone);
  }
}
