/** Matching publication file sources against the canonical manifest. */
module PublicationSources {
  import opened Collections
  import opened OrderedMaps

  /** What must agree between a manifest entry and the file that supplies it. */
  datatype Identity = Identity(path: string, sha256: string, size: int)

  datatype ManifestEntry = ManifestEntry(id: Identity, mediaType: string)

  datatype FileSource = FileSource(id: Identity, installed: bool, staged: bool)

  function EntryIds(entries: seq<ManifestEntry>): seq<Identity> {
    seq(|entries|, i requires 0 <= i < |entries| => entries[i].id)
  }

  function FileIds(files: seq<FileSource>): seq<Identity> {
    seq(|files|, i requires 0 <= i < |files| => files[i].id)
  }

  ghost predicate DistinctPaths(ids: seq<Identity>) {
    forall i, j :: 0 <= i < j < |ids| ==> ids[i].path != ids[j].path
  }

  /** Each of `a` is one of `b`. */
  ghost predicate AllIn<T>(a: seq<T>, b: seq<T>) {
    forall i :: 0 <= i < |a| ==> a[i] in b
  }

  // ---------- permutations ----------

  /** Distinct paths inside a list of the same length are a permutation of it. */
  lemma {:induction false} SameLengthIsPermutation(a: seq<Identity>, b: seq<Identity>)
    requires DistinctPaths(a) && AllIn(a, b) && |a| == |b|
    ensures multiset(a) == multiset(b)
  {
    if a != [] {
      var x := a[0];
      var k :| 0 <= k < |b| && b[k] == x;
      var b' := RemoveAt(b, k);
      forall i | 0 <= i < |a[1..]| ensures a[1..][i] in b' {
        var y := a[i + 1];
        var j :| 0 <= j < |b| && b[j] == y;
        assert y.path != x.path;
        if j < k { assert b'[j] == y; } else { assert b'[j - 1] == y; }
      }
      SameLengthIsPermutation(a[1..], b');
      RemoveAtMultiset(b, k);
      assert a == [x] + a[1..];
    } else {
      assert b == [];
    }
  }

  lemma {:induction false} OccursOnce(b: seq<Identity>, x: Identity)
    requires DistinctPaths(b)
    ensures multiset(b)[x] <= 1
  {
    if b != [] {
      var rest := b[1..];
      assert b == [b[0]] + rest;
      OccursOnce(rest, x);
      assert b[0] !in rest;
    }
  }

  /** A permutation of distinct paths keeps them distinct. */
  lemma PermutationIsDistinct(a: seq<Identity>, b: seq<Identity>)
    requires DistinctPaths(b) && multiset(a) == multiset(b)
    ensures DistinctPaths(a)
  {
    forall i, j | 0 <= i < j < |a| ensures a[i].path != a[j].path {
      if a[i].path == a[j].path {
        assert a[i] in multiset(b) && a[j] in multiset(b);
        assert a[i] == a[j];
        OccursTwice(a, i, j);
        OccursOnce(b, a[i]);
      }
    }
  }

  /** One foreign or repeated file spoils the permutation. */
  lemma NotAPermutation(ids: seq<Identity>, fileIds: seq<Identity>, i: nat)
    requires DistinctPaths(ids) && i < |fileIds|
    requires fileIds[i] !in ids || exists j :: 0 <= j < i && fileIds[j].path == fileIds[i].path
    ensures multiset(fileIds) != multiset(ids)
  {
    if multiset(fileIds) == multiset(ids) {
      assert fileIds[i] in multiset(fileIds);
      PermutationIsDistinct(fileIds, ids);
    }
  }

  // ---------- the check ----------

  /** `m` maps the path of every listed item to that item and nothing else. */
  ghost predicate MapsPaths<T(!new)>(m: map<string, T>, ids: seq<Identity>, items: seq<T>, n: nat)
    requires n <= |ids| && n <= |items|
  {
    && m.Keys == (set j | 0 <= j < n :: ids[j].path)
    && |m| == n
    && forall j :: 0 <= j < n ==> ids[j].path in m && m[ids[j].path] == items[j]
  }

  lemma MapsOneMore<T(!new)>(m: map<string, T>, ids: seq<Identity>, items: seq<T>, n: nat)
    requires n < |ids| && n < |items| && MapsPaths(m, ids, items, n) && ids[n].path !in m
    ensures MapsPaths(m[ids[n].path := items[n]], ids, items, n + 1)
  {
  }

  method ManifestByPath(entries: seq<ManifestEntry>) returns (byPath: map<string, ManifestEntry>)
    requires DistinctPaths(EntryIds(entries))
    ensures MapsPaths(byPath, EntryIds(entries), entries, |entries|)
  {
    byPath := map[];
    for i := 0 to |entries|
      invariant MapsPaths(byPath, EntryIds(entries), entries, i)
    {
      assert entries[i].id == EntryIds(entries)[i];
      MapsOneMore(byPath, EntryIds(entries), entries, i);
      byPath := byPath[entries[i].id.path := entries[i]];
    }
  }

  /** What the loop knows when it has accepted the first `n` files. */
  ghost predicate AcceptedFiles(found: map<string, FileSource>, files: seq<FileSource>, ids: seq<Identity>, n: nat)
    requires n <= |files|
  {
    && MapsPaths(found, FileIds(files), files, n)
    && DistinctPaths(FileIds(files)[..n])
    && AllIn(FileIds(files)[..n], ids)
  }

  lemma AcceptOneMore(found: map<string, FileSource>, files: seq<FileSource>, ids: seq<Identity>, n: nat)
    requires n < |files| && AcceptedFiles(found, files, ids, n)
    requires files[n].id in ids && files[n].id.path !in found
    ensures AcceptedFiles(found[files[n].id.path := files[n]], files, ids, n + 1)
  {
    var fileIds := FileIds(files);
    MapsOneMore(found, fileIds, files, n);
    assert fileIds[..n + 1] == fileIds[..n] + [files[n].id];
    forall j | 0 <= j < n ensures fileIds[j].path != files[n].id.path {
      assert fileIds[j].path in found;
    }
  }

  lemma EntryHasSource(found: map<string, FileSource>, files: seq<FileSource>, entries: seq<ManifestEntry>,
                       e: ManifestEntry)
    requires MapsPaths(found, FileIds(files), files, |files|) && e in entries
    requires multiset(FileIds(files)) == multiset(EntryIds(entries))
    ensures e.id.path in found && found[e.id.path] in files && found[e.id.path].id == e.id
  {
    var ids, fileIds := EntryIds(entries), FileIds(files);
    var k :| 0 <= k < |entries| && entries[k] == e;
    assert ids[k] == e.id;
    assert e.id in multiset(ids);
    assert e.id in multiset(fileIds);
    var j :| 0 <= j < |fileIds| && fileIds[j] == e.id;
    assert found[fileIds[j].path] == files[j];
  }

  lemma SourceHasEntry(found: map<string, FileSource>, files: seq<FileSource>, entries: seq<ManifestEntry>, p: string)
    requires MapsPaths(found, FileIds(files), files, |files|) && p in found
    requires AllIn(FileIds(files), EntryIds(entries))
    ensures exists e :: e in entries && e.id.path == p
  {
  }

  lemma AcceptedAll(found: map<string, FileSource>, files: seq<FileSource>, entries: seq<ManifestEntry>)
    requires AcceptedFiles(found, files, EntryIds(entries), |files|) && |files| == |entries|
    ensures multiset(FileIds(files)) == multiset(EntryIds(entries))
    ensures found.Keys == set e | e in entries :: e.id.path
    ensures forall e :: e in entries ==> found[e.id.path] in files && found[e.id.path].id == e.id
  {
    assert FileIds(files)[..|files|] == FileIds(files);
    SameLengthIsPermutation(FileIds(files), EntryIds(entries));
    forall e | e in entries
      ensures e.id.path in found && found[e.id.path] in files && found[e.id.path].id == e.id
    {
      EntryHasSource(found, files, entries, e);
    }
    forall p | p in found ensures exists e :: e in entries && e.id.path == p {
      SourceHasEntry(found, files, entries, p);
    }
  }

  /**
   * Accepts exactly the file lists that are a permutation of the manifest on path, digest and size, whatever the
   * order, and then gives every manifest path its own file.
   */
  method PublicationSourcesByPath(entries: seq<ManifestEntry>, files: seq<FileSource>)
      returns (sources: Option<map<string, FileSource>>)
    requires DistinctPaths(EntryIds(entries))
    ensures sources.Some? <==> multiset(FileIds(files)) == multiset(EntryIds(entries))
    ensures sources.Some? ==> sources.value.Keys == set e | e in entries :: e.id.path
    ensures sources.Some? ==> forall e :: e in entries ==>
              sources.value[e.id.path] in files && sources.value[e.id.path].id == e.id
  {
    ghost var ids, fileIds := EntryIds(entries), FileIds(files);
    var byPath := ManifestByPath(entries);
    var found: map<string, FileSource> := map[];
    for i := 0 to |files|
      invariant AcceptedFiles(found, files, ids, i)
    {
      var file := files[i];
      assert fileIds[i] == file.id;
      if file.id.path !in byPath || file.id.path in found || file.id != byPath[file.id.path].id {
        NotAPermutation(ids, fileIds, i);
        return None;
      }
      assert file.id in ids;
      AcceptOneMore(found, files, ids, i);
      found := found[file.id.path := file];
    }
    if |found| != |byPath| {
      assert |multiset(fileIds)| == |files| && |multiset(ids)| == |entries|;
      return None;
    }
    AcceptedAll(found, files, entries);
    sources := Some(found);
  }
}
