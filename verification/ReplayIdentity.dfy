/** The requests whose replay identity is the digest of a canonical text. */
module ReplayIdentity {
  import opened JoinedText
  import opened JsonText

  datatype Closure = Rejected | Superseded

  /** The fields each operation puts into its identity. */
  datatype Request =
    | NewArtifact(accessSetting: string, manifestDigest: string, name: string, principalId: string,
                  projectId: string, tags: seq<string>)
    | NewVersion(artifactId: string, expectedCurrentVersionId: string, manifestDigest: string,
                 principalId: string, projectId: string, stage: bool)
    | Manage(artifactId: string, expectedCurrentVersionId: string, principalId: string, projectId: string,
             change: Change)
    | Linked(path: string, principalId: string, projectId: string, link: LinkChange)

  datatype Change =
    | ChangeAccess(accessSetting: string)
    | Rename(expectedName: string, newName: string)
    | ChangeTags(newTags: seq<string>)
    | Delete(deletedId: string)
    | Restore(restoredId: string)
    | Promote(promotedId: string)
    | CloseCandidate(closedId: string, outcome: Closure)

  datatype LinkChange =
    | Link(linkName: string)
    | Capture(capturedId: string, expectedVersionId: string)
    | Relink(relinkedId: string, expectedSha256: string)

  // ---------- the canonical values ----------

  function Texts(items: seq<string>): seq<Json> {
    seq(|items|, i requires 0 <= i < |items| => Text(items[i]))
  }

  function ClosureText(outcome: Closure): string {
    match outcome
    case Rejected => "rejected"
    case Superseded => "superseded"
  }

  function Operation(change: Change): string {
    match change
    case ChangeAccess(_) => "change_access"
    case Rename(_, _) => "rename"
    case ChangeTags(_) => "change_tags"
    case Delete(_) => "delete"
    case Restore(_) => "restore"
    case Promote(_) => "promote"
    case CloseCandidate(_, _) => "reject"
  }

  function RenameValue(expectedName: string, newName: string): Json {
    Record([Field("expectedName", Text(expectedName)), Field("name", Text(newName))])
  }

  function Value(change: Change): string {
    match change
    case ChangeAccess(setting) => setting
    case Rename(expectedName, newName) => Print(RenameValue(expectedName, newName))
    case ChangeTags(tags) => Print(List(Texts(tags)))
    case Delete(id) => id
    case Restore(id) => id
    case Promote(id) => id
    case CloseCandidate(id, outcome) => id + ":" + ClosureText(outcome)
  }

  function LinkOperation(link: LinkChange): string {
    match link
    case Link(_) => "link"
    case Capture(_, _) => "capture"
    case Relink(_, _) => "relink"
  }

  function LinkValue(link: LinkChange): string {
    match link
    case Link(name) => name
    case Capture(id, version) => id + ":" + version
    case Relink(id, sha256) => id + ":" + sha256
  }

  function Canonical(r: Request): Json {
    match r
    case NewArtifact(accessSetting, manifestDigest, name, principalId, projectId, tags) =>
      Record([Field("accessSetting", Text(accessSetting)), Field("manifestDigest", Text(manifestDigest)),
              Field("name", Text(name)), Field("principalId", Text(principalId)),
              Field("projectId", Text(projectId)), Field("tags", List(Texts(tags)))])
    case NewVersion(artifactId, expected, manifestDigest, principalId, projectId, stage) =>
      var identity :=
        [Field("artifactId", Text(artifactId)), Field("expectedCurrentVersionId", Text(expected)),
         Field("manifestDigest", Text(manifestDigest)), Field("principalId", Text(principalId)),
         Field("projectId", Text(projectId))];
      Record(if stage then identity + [Field("stage", Flag(true))] else identity)
    case Manage(artifactId, expected, principalId, projectId, change) =>
      Record([Field("artifactId", Text(artifactId)), Field("expectedCurrentVersionId", Text(expected)),
              Field("operation", Text(Operation(change))), Field("principalId", Text(principalId)),
              Field("projectId", Text(projectId)), Field("value", Text(Value(change)))])
    case Linked(path, principalId, projectId, link) =>
      Record([Field("operation", Text(LinkOperation(link))), Field("path", Text(path)),
              Field("principalId", Text(principalId)), Field("projectId", Text(projectId)),
              Field("value", Text(LinkValue(link)))])
  }

  function CanonicalText(r: Request): string {
    Print(Canonical(r))
  }

  // ---------- identity ----------

  lemma TextsInjective(a: seq<string>, b: seq<string>)
    requires Texts(a) == Texts(b)
    ensures a == b
  {
    assert |a| == |Texts(a)| == |b|;
    forall i | 0 <= i < |a| ensures a[i] == b[i] {
      assert Texts(a)[i] == Texts(b)[i];
    }
  }

  lemma RecordFields(a: seq<Field>, b: seq<Field>)
    requires Record(a) == Record(b)
    ensures |a| == |b| && forall i :: 0 <= i < |a| ==> a[i].name == b[i].name && a[i].value == b[i].value
  {
  }

  lemma SameChange(a: Change, b: Change)
    requires Operation(a) == Operation(b) && Value(a) == Value(b)
    ensures a == b
  {
    assert |Operation(a)| == |Operation(b)|;
    assert Operation(a)[0] == Operation(b)[0] && Operation(a)[2] == Operation(b)[2];
    match a
    case Rename(_, _) =>
      PrintInjective(RenameValue(a.expectedName, a.newName), RenameValue(b.expectedName, b.newName));
      RecordFields(RenameValue(a.expectedName, a.newName).fields, RenameValue(b.expectedName, b.newName).fields);
    case ChangeTags(_) =>
      PrintInjective(List(Texts(a.newTags)), List(Texts(b.newTags)));
      TextsInjective(a.newTags, b.newTags);
    case CloseCandidate(_, _) =>
      JoinInjective(a.closedId, ClosureText(a.outcome), b.closedId, ClosureText(b.outcome));
      assert |ClosureText(a.outcome)| == |ClosureText(b.outcome)|;
    case _ =>
  }

  /** The joined link changes name an artifact, whose generated id has no colon. */
  ghost predicate IdIsColonFree(link: LinkChange) {
    match link
    case Link(_) => true
    case Capture(id, _) => ColonFree(id)
    case Relink(id, _) => ColonFree(id)
  }

  predicate SameLinkText(a: LinkChange, b: LinkChange) {
    LinkOperation(a) == LinkOperation(b) && LinkValue(a) == LinkValue(b)
  }

  lemma SameLinkChange(a: LinkChange, b: LinkChange)
    requires SameLinkText(a, b)
    requires IdIsColonFree(a) && IdIsColonFree(b)
    ensures a == b
  {
    assert |LinkOperation(a)| == |LinkOperation(b)|;
    match a
    case Link(_) =>
    case Capture(id, version) => JoinInjective(id, version, b.capturedId, b.expectedVersionId);
    case Relink(id, sha256) => JoinInjective(id, sha256, b.relinkedId, b.expectedSha256);
  }

  /** Equal canonical values come from equal requests, once link operations and values tell link changes apart. */
  lemma SameCanonical(a: Request, b: Request)
    requires Canonical(a) == Canonical(b)
    requires a.Linked? && b.Linked? && SameLinkText(a.link, b.link) ==> a.link == b.link
    ensures a == b
  {
    var fa, fb := Canonical(a).fields, Canonical(b).fields;
    RecordFields(fa, fb);
    assert |fa[0].name| == |fb[0].name| && |fa[1].name| == |fb[1].name| && |fa[2].name| == |fb[2].name|;
    match a
    case NewArtifact(_, _, _, _, _, tags) =>
      assert fa[5].value == fb[5].value;
      TextsInjective(tags, b.tags);
    case NewVersion(_, _, _, _, _, _) =>
      assert fa[0].value == fb[0].value && fa[1].value == fb[1].value && fa[2].value == fb[2].value;
      assert fa[3].value == fb[3].value && fa[4].value == fb[4].value;
    case Manage(_, _, _, _, change) =>
      assert fa[5].value == fb[5].value;
      SameChange(change, b.change);
    case Linked(_, _, _, _) =>
      assert fa[0].value == fb[0].value && fa[4].value == fb[4].value;
  }

  /**
   * A replay is recognised exactly for the same request: two requests, of whatever operations, print the same
   * canonical text if and only if every field agrees, whatever the expected version or digest of a link holds.
   */
  lemma ReplayIdentityIsInjective(a: Request, b: Request)
    requires a.Linked? ==> IdIsColonFree(a.link)
    requires b.Linked? ==> IdIsColonFree(b.link)
    ensures CanonicalText(a) == CanonicalText(b) <==> a == b
  {
    if CanonicalText(a) == CanonicalText(b) {
      PrintInjective(Canonical(a), Canonical(b));
      if a.Linked? && b.Linked? && SameLinkText(a.link, b.link) { SameLinkChange(a.link, b.link); }
      SameCanonical(a, b);
    }
  }

  // ---------- arbitrary texts in place of ids ----------

  /** The joined values that no other pair of texts could have printed. */
  ghost predicate Unambiguous(link: LinkChange) {
    match link
    case Link(_) => true
    case Capture(id, version) => ColonFree(id) && ColonFree(version)
    case Relink(id, sha256) => ColonFree(id) && ColonFree(sha256)
  }

  lemma SameUnambiguous(a: LinkChange, b: LinkChange)
    requires SameLinkText(a, b) && Unambiguous(a)
    ensures a == b
  {
    assert |LinkOperation(a)| == |LinkOperation(b)|;
    match a
    case Link(_) =>
    case Capture(id, version) => OneColon(id, version, b.capturedId, b.expectedVersionId);
    case Relink(id, sha256) => OneColon(id, sha256, b.relinkedId, b.expectedSha256);
  }

  lemma AnotherLinkChange(a: LinkChange) returns (b: LinkChange)
    requires !Unambiguous(a)
    ensures b != a && SameLinkText(a, b)
  {
    if a.Capture? {
      var c, d := AnotherPair(a.capturedId, a.expectedVersionId);
      b := Capture(c, d);
    } else {
      var c, d := AnotherPair(a.relinkedId, a.expectedSha256);
      b := Relink(c, d);
    }
  }

  /** If ids were arbitrary texts, a request's text would be its own exactly unless a joined part held a colon. */
  lemma FreeTextIsUniqueIff(r: Request)
    ensures (forall other :: CanonicalText(other) == CanonicalText(r) ==> other == r)
            <==> (r.Linked? ==> Unambiguous(r.link))
  {
    if r.Linked? && !Unambiguous(r.link) {
      var link := AnotherLinkChange(r.link);
      var other := r.(link := link);
      assert CanonicalText(other) == CanonicalText(r) && other != r;
    } else {
      forall other | CanonicalText(other) == CanonicalText(r) ensures other == r {
        PrintInjective(Canonical(other), Canonical(r));
        if r.Linked? && other.Linked? && SameLinkText(r.link, other.link) { SameUnambiguous(r.link, other.link); }
        SameCanonical(r, other);
      }
    }
  }
}
