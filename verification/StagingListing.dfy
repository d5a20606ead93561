/** The store's listing of expired staged uploads: the first ones in expiry order, joined with their file rows. */
module StagingListing {
  import opened Collections
  import opened OrderedMaps

  datatype FileKey = FileKey(upload: string, token: string)

  datatype Upload = Upload(expiresAt: int, claimedAt: Option<int>)

  datatype Listed = Listed(upload: string, files: seq<string>)

  type Uploads = map<string, Upload>

  // ---------- orders ----------

  /** Lexicographic order of texts. */
  predicate Less(a: string, b: string) {
    b != "" && (a == "" || a[0] < b[0] || (a[0] == b[0] && Less(a[1..], b[1..])))
  }

  lemma {:induction false} LessIsStrict(a: string, b: string)
    ensures !(Less(a, b) && Less(b, a))
    ensures a != b <==> Less(a, b) || Less(b, a)
  {
    if a != "" && b != "" && a[0] == b[0] {
      LessIsStrict(a[1..], b[1..]);
      assert a == [a[0]] + a[1..] && b == [b[0]] + b[1..];
    }
  }

  lemma {:induction false} LessIsTransitive(a: string, b: string, d: string)
    requires Less(a, b) && Less(b, d)
    ensures Less(a, d)
  {
    if a != "" && a[0] == b[0] == d[0] { LessIsTransitive(a[1..], b[1..], d[1..]); }
  }

  /** Order by expiry, then by id. */
  predicate Precedes(uploads: Uploads, a: string, b: string)
    requires a in uploads && b in uploads
  {
    || uploads[a].expiresAt < uploads[b].expiresAt
    || (uploads[a].expiresAt == uploads[b].expiresAt && Less(a, b))
  }

  ghost function Ahead(uploads: Uploads, u: string): (ahead: set<string>)
    requires u in uploads
  {
    set v | v in uploads && Precedes(uploads, v, u)
  }

  lemma PrecedesIsStrict(uploads: Uploads, a: string, b: string)
    requires a in uploads && b in uploads
    ensures !(Precedes(uploads, a, b) && Precedes(uploads, b, a))
    ensures a != b <==> Precedes(uploads, a, b) || Precedes(uploads, b, a)
  {
    LessIsStrict(a, b);
  }

  /** Whatever is ahead of something ahead is ahead. */
  lemma AheadIsTransitive(uploads: Uploads, a: string, b: string)
    requires a in uploads && b in uploads && Precedes(uploads, a, b)
    ensures Ahead(uploads, a) <= Ahead(uploads, b) && a !in Ahead(uploads, a) && a in Ahead(uploads, b)
  {
    PrecedesIsStrict(uploads, a, a);
    forall v | v in Ahead(uploads, a) ensures v in Ahead(uploads, b) {
      if Less(v, a) && Less(a, b) { LessIsTransitive(v, a, b); }
    }
  }

  /** Some member of a set of uploads comes before all the others. */
  lemma {:induction false} First(uploads: Uploads, some: set<string>) returns (u: string)
    requires some != {} && some <= uploads.Keys
    ensures u in some && Ahead(uploads, u) * some == {}
    decreases some
  {
    u :| u in some;
    var earlier := Ahead(uploads, u) * some;
    PrecedesIsStrict(uploads, u, u);
    if earlier != {} {
      assert u !in earlier;
      var v := First(uploads, earlier);
      AheadIsTransitive(uploads, v, u);
      u := v;
    }
  }

  /** Some member comes after all the others. */
  lemma {:induction false} Last(uploads: Uploads, some: set<string>) returns (u: string)
    requires some != {} && some <= uploads.Keys
    ensures u in some && some - {u} <= Ahead(uploads, u)
    decreases some
  {
    u :| u in some;
    var later := set v | v in some && Precedes(uploads, u, v);
    PrecedesIsStrict(uploads, u, u);
    if later != {} {
      var v := Last(uploads, later);
      AheadIsTransitive(uploads, u, v);
      forall w | w in some - {v} ensures w in Ahead(uploads, v) {
        if w !in later { PrecedesIsStrict(uploads, u, w); }
      }
      u := v;
    } else {
      forall w | w in some - {u} ensures w in Ahead(uploads, u) { PrecedesIsStrict(uploads, u, w); }
    }
  }

  // ---------- sorted sets ----------

  ghost predicate Ascending(s: seq<string>) {
    forall i, j :: 0 <= i < j < |s| ==> Less(s[i], s[j])
  }

  lemma {:induction false} Least(some: set<string>) returns (least: string)
    requires some != {}
    ensures least in some && forall x :: x in some && x != least ==> Less(least, x)
    decreases some
  {
    least :| least in some;
    var first, others := least, some - {least};
    assert forall x :: x in some && x != first ==> x in others;
    if others != {} {
      var rest := Least(others);
      LessIsStrict(first, rest);
      if Less(rest, first) {
        least := rest;
      } else {
        forall x | x in others ensures Less(first, x) {
          if x != rest { LessIsTransitive(first, rest, x); }
        }
      }
    }
  }

  lemma {:induction false} Ordered(some: set<string>) returns (s: seq<string>)
    ensures Ascending(s) && forall x :: x in s <==> x in some
    decreases some
  {
    if some == {} {
      s := [];
    } else {
      var least := Least(some);
      var rest := Ordered(some - {least});
      s := [least] + rest;
      forall j | 0 <= j < |rest| ensures Less(least, rest[j]) { assert rest[j] in rest; }
    }
  }

  // ---------- the listing ----------

  ghost predicate HasFile(rows: set<FileKey>, u: string) {
    exists key :: key in rows && key.upload == u
  }

  /** The first `limit` uploads expired by `cutoff`; whatever is ahead of one of them expired by then too. */
  ghost predicate Selected(uploads: Uploads, cutoff: int, limit: nat, u: string) {
    u in uploads && uploads[u].expiresAt <= cutoff && |Ahead(uploads, u)| < limit
  }

  /** Exactly the upload's file rows, of which there is at least one, in order. */
  ghost predicate ListsFiles(rows: set<FileKey>, l: Listed) {
    && l.files != [] && Ascending(l.files)
    && forall token :: token in l.files <==> FileKey(l.upload, token) in rows
  }

  ghost predicate IsListed(listed: seq<Listed>, u: string) {
    exists l :: l in listed && l.upload == u
  }

  /**
   * What the store may answer: it selects first and joins with the file rows afterwards, so a selected upload without
   * file rows takes up a place of the limit and is not listed. Ordered by id.
   */
  ghost predicate Lists(uploads: Uploads, rows: set<FileKey>, cutoff: int, limit: nat, listed: seq<Listed>) {
    && (forall l :: l in listed ==> Selected(uploads, cutoff, limit, l.upload) && ListsFiles(rows, l))
    && (forall u :: Selected(uploads, cutoff, limit, u) && HasFile(rows, u) ==> IsListed(listed, u))
    && (forall i, j :: 0 <= i < j < |listed| ==> Less(listed[i].upload, listed[j].upload))
  }

  // ---------- there always is a listing ----------

  ghost function Tokens(rows: set<FileKey>, u: string): (tokens: set<string>) {
    set key | key in rows && key.upload == u :: key.token
  }

  lemma TokensAreRows(rows: set<FileKey>, u: string)
    ensures forall token :: token in Tokens(rows, u) <==> FileKey(u, token) in rows
  {
    forall token | FileKey(u, token) in rows ensures token in Tokens(rows, u) {
      assert FileKey(u, token).token == token;
    }
  }

  lemma FilesInOrder(rows: set<FileKey>, u: string) returns (l: Listed)
    requires HasFile(rows, u)
    ensures l.upload == u && ListsFiles(rows, l)
  {
    var files := Ordered(Tokens(rows, u));
    TokensAreRows(rows, u);
    var key :| key in rows && key.upload == u;
    assert key.token in Tokens(rows, u);
    l := Listed(u, files);
  }

  lemma {:induction false} ListedInOrder(rows: set<FileKey>, ids: seq<string>) returns (listed: seq<Listed>)
    requires forall u :: u in ids ==> HasFile(rows, u)
    ensures |listed| == |ids|
    ensures forall i :: 0 <= i < |ids| ==> listed[i].upload == ids[i] && ListsFiles(rows, listed[i])
  {
    if ids == [] {
      listed := [];
    } else {
      var l := FilesInOrder(rows, ids[0]);
      var rest := ListedInOrder(rows, ids[1..]);
      listed := [l] + rest;
    }
  }

  lemma ListingExists(uploads: Uploads, rows: set<FileKey>, cutoff: int, limit: nat) returns (listed: seq<Listed>)
    ensures Lists(uploads, rows, cutoff, limit, listed)
  {
    var ids := Ordered(set u | u in uploads && Selected(uploads, cutoff, limit, u) && HasFile(rows, u));
    listed := ListedInOrder(rows, ids);
    forall l | l in listed ensures Selected(uploads, cutoff, limit, l.upload) && ListsFiles(rows, l) {
      var i :| 0 <= i < |listed| && listed[i] == l;
      assert ids[i] in ids;
    }
    forall u | Selected(uploads, cutoff, limit, u) && HasFile(rows, u) ensures IsListed(listed, u) {
      assert u in ids;
      var i :| 0 <= i < |ids| && ids[i] == u;
      assert listed[i] in listed;
    }
  }

  /** A listing never returns more uploads than its limit. */
  lemma ListingKeepsLimit(uploads: Uploads, rows: set<FileKey>, cutoff: int, limit: nat, listed: seq<Listed>)
    requires Lists(uploads, rows, cutoff, limit, listed)
    ensures |listed| <= limit
  {
    var ids := set i | 0 <= i < |listed| :: listed[i].upload;
    if listed != [] {
      assert listed[0].upload in ids;
      forall u | u in ids ensures Selected(uploads, cutoff, limit, u) {
        var i :| 0 <= i < |listed| && listed[i].upload == u;
        assert listed[i] in listed;
      }
      var u := Last(uploads, ids);
      SubsetSize(ids - {u}, Ahead(uploads, u));
      IdsAreDistinct(listed, ids);
    }
  }

  lemma {:induction false} IdsAreDistinct(listed: seq<Listed>, ids: set<string>)
    requires forall i, j :: 0 <= i < j < |listed| ==> Less(listed[i].upload, listed[j].upload)
    requires ids == set i | 0 <= i < |listed| :: listed[i].upload
    ensures |ids| == |listed|
  {
    if listed == [] {
      assert ids == {};
    } else {
      var n := |listed| - 1;
      var last, rest := listed[n].upload, set i | 0 <= i < n :: listed[i].upload;
      IdsAreDistinct(listed[..n], rest);
      assert ids == rest + {last};
      forall i | 0 <= i < n ensures listed[i].upload != last { LessIsStrict(listed[i].upload, last); }
    }
  }
}
