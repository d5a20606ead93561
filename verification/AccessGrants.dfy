/** Member access to one project: normalised grants, the effective set, and revision-checked changes. */
module AccessGrants {
  import opened OrderedMaps

  datatype Permission =
    | ArtifactView | ArtifactHistory | CommentRead | CommentWrite | CommentModerate | ArtifactPublish
    | ArtifactEdit | ArtifactDelete | ArtifactShare | AgentDispatch | ProjectManage

  const READ_PERMISSIONS: set<Permission> := {ArtifactView, ArtifactHistory, CommentRead}
  const MAX_ARTIFACT_GRANTS := 500

  datatype Role = NoAccess | Viewer | Commenter | Editor | Manager

  function Rank(role: Role): nat {
    match role
    case NoAccess => 0
    case Viewer => 1
    case Commenter => 2
    case Editor => 3
    case Manager => 4
  }

  /** Each role holds every permission of the roles before it. */
  function RolePermissions(role: Role): (held: set<Permission>)
    decreases Rank(role)
  {
    match role
    case NoAccess => {}
    case Viewer => {ArtifactView, ArtifactHistory, CommentRead}
    case Commenter => RolePermissions(Viewer) + {CommentWrite}
    case Editor =>
      RolePermissions(Commenter) + {ArtifactPublish, ArtifactEdit, ArtifactDelete, ArtifactShare, AgentDispatch}
    case Manager => RolePermissions(Editor) + {CommentModerate, ProjectManage}
  }

  /** The least role that holds a permission. */
  function LeastRole(p: Permission): (role: Role) {
    match p
    case ArtifactView => Viewer
    case ArtifactHistory => Viewer
    case CommentRead => Viewer
    case CommentWrite => Commenter
    case CommentModerate => Manager
    case ArtifactPublish => Editor
    case ArtifactEdit => Editor
    case ArtifactDelete => Editor
    case ArtifactShare => Editor
    case AgentDispatch => Editor
    case ProjectManage => Manager
  }

  /** A role holds exactly the permissions whose least role is not above it. */
  lemma RoleHolds(role: Role, p: Permission)
    ensures p in RolePermissions(role) <==> Rank(LeastRole(p)) <= Rank(role)
    decreases Rank(role)
  {
    match role
    case NoAccess =>
    case Viewer =>
    case Commenter => RoleHolds(Viewer, p);
    case Editor => RoleHolds(Commenter, p);
    case Manager => RoleHolds(Editor, p);
  }

  datatype Grant = Grant(role: Role, add: seq<Permission>, remove: seq<Permission>, expiresAt: Option<int>)

  function Members<T>(s: seq<T>): (members: set<T>) {
    set x | x in s
  }

  /** What a grant gives before ceilings and state. */
  function Granted(role: Role, add: seq<Permission>, remove: seq<Permission>): (granted: set<Permission>) {
    RolePermissions(role) + Members(add) - Members(remove)
  }

  method GrantedPermissions(role: Role, add: seq<Permission>, remove: seq<Permission>)
      returns (granted: set<Permission>)
    ensures granted == Granted(role, add, remove)
  {
    granted := RolePermissions(role);
    for i := 0 to |add|
      invariant granted == RolePermissions(role) + Members(add[..i])
    {
      granted := granted + {add[i]};
      assert add[..i + 1] == add[..i] + [add[i]];
    }
    assert add[..|add|] == add;
    for i := 0 to |remove|
      invariant granted == RolePermissions(role) + Members(add) - Members(remove[..i])
    {
      granted := granted - {remove[i]};
      assert remove[..i + 1] == remove[..i] + [remove[i]];
    }
    assert remove[..|remove|] == remove;
  }

  // ---------- normal form ----------

  function Filter(s: seq<Permission>, keep: Permission -> bool): (r: seq<Permission>)
    ensures forall x :: x in r <==> x in s && keep(x)
  {
    if s == [] then []
    else
      var rest := Filter(s[1..], keep);
      if keep(s[0]) then [s[0]] + rest else rest
  }

  /** Only real additions and real removals are stored. */
  ghost predicate Normal(role: Role, add: seq<Permission>, remove: seq<Permission>) {
    && Members(add) !! RolePermissions(role)
    && Members(remove) <= RolePermissions(role)
  }

  function NormalAdd(role: Role, add: seq<Permission>): (r: seq<Permission>) {
    Filter(add, p => p !in RolePermissions(role))
  }

  function NormalRemove(role: Role, remove: seq<Permission>): (r: seq<Permission>) {
    Filter(remove, p => p in RolePermissions(role))
  }

  /** Normalising a request whose lists do not overlap keeps its meaning. */
  lemma NormalisingKeepsMeaning(role: Role, add: seq<Permission>, remove: seq<Permission>)
    requires Members(add) !! Members(remove)
    ensures Normal(role, NormalAdd(role, add), NormalRemove(role, remove))
    ensures Granted(role, NormalAdd(role, add), NormalRemove(role, remove)) == Granted(role, add, remove)
  {
  }

  /** With the role, the normal form is canonical: one set of permissions, one pair of lists. */
  lemma NormalFormIsCanonical(role: Role, add: seq<Permission>, remove: seq<Permission>,
                              otherAdd: seq<Permission>, otherRemove: seq<Permission>)
    requires Normal(role, add, remove) && Normal(role, otherAdd, otherRemove)
    ensures Granted(role, add, remove) == Granted(role, otherAdd, otherRemove) <==>
            Members(add) == Members(otherAdd) && Members(remove) == Members(otherRemove)
  {
    var granted := Granted(role, add, remove);
    assert Members(add) == granted - RolePermissions(role);
    assert Members(remove) == RolePermissions(role) - granted;
    var other := Granted(role, otherAdd, otherRemove);
    assert Members(otherAdd) == other - RolePermissions(role);
    assert Members(otherRemove) == RolePermissions(role) - other;
  }

  // ---------- effective access ----------

  datatype Mode = Open | Restricted

  datatype Settings = Settings(mode: Mode, defaultRole: Role)

  /** What else bounds a member: the policy ceiling, archival, and the instant. */
  datatype Bounds = Bounds(ceiling: Option<set<Permission>>, archived: bool, at: int)

  predicate Live(grant: Grant, at: int) {
    grant.expiresAt.None? || grant.expiresAt.value > at
  }

  function OfGrant(grant: Grant): (granted: set<Permission>) {
    Granted(grant.role, grant.add, grant.remove)
  }

  function OfLive(grants: seq<Grant>, at: int): (granted: set<Permission>) {
    if grants == [] then {}
    else OfLive(grants[1..], at) + if Live(grants[0], at) then OfGrant(grants[0]) else {}
  }

  function Within(granted: set<Permission>, bounds: Bounds): (left: set<Permission>) {
    var allowed := if bounds.ceiling.Some? then granted * bounds.ceiling.value else granted;
    if bounds.archived then allowed * READ_PERMISSIONS else allowed
  }

  /** A member's access on the project, or on an artifact with grants of its own. */
  function Effective(settings: Settings, bounds: Bounds, projectGrant: Option<Grant>, artifactGrants: seq<Grant>)
    : (held: set<Permission>)
  {
    var base :=
      if projectGrant.Some? && Live(projectGrant.value, bounds.at) then OfGrant(projectGrant.value)
      else if settings.mode.Open? then RolePermissions(settings.defaultRole)
      else {};
    Within(base + OfLive(artifactGrants, bounds.at), bounds)
  }

  /** A grant that is not expired gives `p`: added or of the role, and not removed. */
  ghost predicate Gives(grant: Grant, at: int, p: Permission) {
    && (grant.expiresAt.None? || at < grant.expiresAt.value)
    && (p in grant.add || Rank(LeastRole(p)) <= Rank(grant.role)) && p !in grant.remove
  }

  /**
   * Who holds what, permission by permission: a project grant that is not expired stands for the project's default,
   * artifact grants add, and the ceiling and archival always win.
   */
  lemma HoldsIff(settings: Settings, bounds: Bounds, projectGrant: Option<Grant>, artifactGrants: seq<Grant>,
                 p: Permission)
    ensures p in Effective(settings, bounds, projectGrant, artifactGrants) <==>
              && ((if InForce(projectGrant, bounds.at) then Gives(projectGrant.value, bounds.at, p)
                   else settings.mode.Open? && Rank(LeastRole(p)) <= Rank(settings.defaultRole))
                  || exists g :: g in artifactGrants && Gives(g, bounds.at, p))
              && (bounds.ceiling.Some? ==> p in bounds.ceiling.value)
              && (bounds.archived ==> p in {ArtifactView, ArtifactHistory, CommentRead})
  {
    RoleHolds(settings.defaultRole, p);
    if projectGrant.Some? { RoleHolds(projectGrant.value.role, p); }
    OfLiveGives(artifactGrants, bounds.at, p);
  }

  lemma {:induction false} OfLiveGives(grants: seq<Grant>, at: int, p: Permission)
    ensures p in OfLive(grants, at) <==> exists g :: g in grants && Gives(g, at, p)
  {
    if grants != [] {
      RoleHolds(grants[0].role, p);
      OfLiveGives(grants[1..], at, p);
      assert grants == [grants[0]] + grants[1..];
      assert Gives(grants[0], at, p) ==> grants[0] in grants;
    }
  }

  lemma {:induction false} OfLiveUpdate(grants: seq<Grant>, i: nat, grant: Grant, at: int)
    requires i < |grants|
    ensures OfLive(grants[i := grant], at) <= OfLive(grants, at) + OfGrant(grant)
    ensures OfLive(grants + [grant], at) <= OfLive(grants, at) + OfGrant(grant)
  {
    OfLiveAppend(grants, grant, at);
    if i == 0 {
      assert grants[i := grant][1..] == grants[1..];
    } else {
      assert grants[i := grant][1..] == grants[1..][i - 1 := grant];
      OfLiveUpdate(grants[1..], i - 1, grant, at);
    }
  }

  lemma {:induction false} OfLiveAppend(grants: seq<Grant>, grant: Grant, at: int)
    ensures OfLive(grants + [grant], at) == OfLive(grants, at) + if Live(grant, at) then OfGrant(grant) else {}
  {
    if grants != [] {
      assert (grants + [grant])[1..] == grants[1..] + [grant];
      OfLiveAppend(grants[1..], grant, at);
    }
  }

  // ---------- what storing and deleting give ----------

  /** A project grant in force, which replaces the project's default. */
  predicate InForce(grant: Option<Grant>, at: int) {
    grant.Some? && Live(grant.value, at)
  }

  /**
   * Falling back from `before` to the project's default gives nothing new: there was no grant to fall back from,
   * no default to fall back to, or the default role is within what was effective and `held`.
   */
  ghost predicate FallsBackSafely(settings: Settings, bounds: Bounds, before: Option<Grant>,
                                  artifactGrants: seq<Grant>, held: set<Permission>)
  {
    || !InForce(before, bounds.at)
    || settings.mode.Restricted?
    || Within(RolePermissions(settings.defaultRole), bounds) <=
       Effective(settings, bounds, before, artifactGrants) + held
  }

  lemma WithinUnion(a: set<Permission>, b: set<Permission>, bounds: Bounds)
    ensures Within(a + b, bounds) == Within(a, bounds) + Within(b, bounds)
    ensures Within(a, bounds) <= a
  {
  }

  /**
   * A project grant gives its member nothing beyond what was effective and what its author holds, on the project or
   * any artifact, exactly while it is in force or its member falls back safely.
   */
  lemma ProjectGrantGivesOnlyHeld(settings: Settings, bounds: Bounds, before: Option<Grant>, after: Grant,
                                  artifactGrants: seq<Grant>, held: set<Permission>)
    requires OfGrant(after) <= held
    ensures Effective(settings, bounds, Some(after), artifactGrants) <=
            Effective(settings, bounds, before, artifactGrants) + held
            <==> Live(after, bounds.at) || FallsBackSafely(settings, bounds, before, artifactGrants, held)
  {
    WithinUnion(OfGrant(after), OfLive(artifactGrants, bounds.at), bounds);
    NoGrantGivesOnlyHeld(settings, bounds, before, artifactGrants, held);
  }

  /** Taking a project grant away does so exactly when its member falls back safely. */
  lemma NoGrantGivesOnlyHeld(settings: Settings, bounds: Bounds, before: Option<Grant>, artifactGrants: seq<Grant>,
                             held: set<Permission>)
    ensures Effective(settings, bounds, None, artifactGrants) <=
            Effective(settings, bounds, before, artifactGrants) + held
            <==> FallsBackSafely(settings, bounds, before, artifactGrants, held)
  {
    var artifacts := OfLive(artifactGrants, bounds.at);
    if before.Some? { WithinUnion(OfGrant(before.value), artifacts, bounds); }
    WithinUnion(RolePermissions(settings.defaultRole), artifacts, bounds);
    WithinUnion({}, artifacts, bounds);
  }

  /** An artifact grant, new or replaced, gives nothing else at any time. */
  lemma ArtifactGrantGivesOnlyHeld(settings: Settings, bounds: Bounds, projectGrant: Option<Grant>,
                                   before: seq<Grant>, i: nat, grant: Grant, held: set<Permission>)
    requires OfGrant(grant) <= held && i <= |before|
    ensures var after := if i < |before| then before[i := grant] else before + [grant];
            Effective(settings, bounds, projectGrant, after) <=
            Effective(settings, bounds, projectGrant, before) + held
  {
    if i < |before| {
      OfLiveUpdate(before, i, grant, bounds.at);
    } else {
      OfLiveAppend(before, grant, bounds.at);
    }
  }

  /** Nor do new project settings whose default role their author holds. */
  lemma SettingsGiveOnlyHeld(before: Settings, after: Settings, bounds: Bounds, projectGrant: Option<Grant>,
                             artifactGrants: seq<Grant>, held: set<Permission>)
    requires RolePermissions(after.defaultRole) <= held
    ensures Effective(after, bounds, projectGrant, artifactGrants) <=
            Effective(before, bounds, projectGrant, artifactGrants) + held
  {
  }

  // ---------- storing grants ----------

  datatype Scope = OnProject | OnArtifact(id: string)

  datatype Place = Place(memberId: string, scope: Scope)

  datatype Stored = Stored(id: string, grant: Grant, revision: nat)

  datatype Request = Request(place: Place, grant: Grant, expectedRevision: Option<nat>)

  datatype Member = Member(id: string, administrator: bool)

  datatype Outcome = Invalid | NotHeld | Conflict | Written

  /** The row a request speaks of: none for a new grant, else the one that was seen, at the expected revision. */
  ghost predicate Meets(request: Request, seen: Option<Stored>, row: Option<Stored>) {
    if request.expectedRevision.None? then seen.None? && row.None?
    else
      && seen.Some? && row.Some? && row.value.id == seen.value.id
      && row.value.revision == request.expectedRevision.value
  }

  /** What a request must mean for the call to store it. */
  ghost predicate WellFormed(request: Request, member: Option<Member>, at: int) {
    var grant := request.grant;
    && member.Some? && !member.value.administrator
    && Members(grant.add) !! Members(grant.remove)
    && (request.place.scope.OnArtifact? ==>
          grant.role != NoAccess && ArtifactView in OfGrant(grant))
    && Live(grant, at)
  }

  /** A first artifact grant needs room under the member's limit in the project. */
  predicate Room(request: Request, seen: Option<Stored>, artifactGrants: nat) {
    request.place.scope.OnArtifact? && seen.None? ==> artifactGrants < 500
  }

  function Normalised(grant: Grant): (r: Grant) {
    grant.(add := NormalAdd(grant.role, grant.add), remove := NormalRemove(grant.role, grant.remove))
  }

  // ---------- access through the store ----------

  function GrantAt(grants: map<Place, Stored>, place: Place): (grant: Option<Grant>) {
    if place in grants then Some(grants[place].grant) else None
  }

  function ArtifactGrants(grants: map<Place, Stored>, memberId: string, artifact: Option<string>): seq<Grant> {
    if artifact.Some? && Place(memberId, OnArtifact(artifact.value)) in grants
    then [grants[Place(memberId, OnArtifact(artifact.value))].grant] else []
  }

  /** A member's access as the stored grants give it, on one artifact or on the project. */
  function Access(grants: map<Place, Stored>, settings: Settings, bounds: Bounds, memberId: string,
                  artifact: Option<string>): (access: set<Permission>)
  {
    Effective(settings, bounds, GrantAt(grants, Place(memberId, OnProject)), ArtifactGrants(grants, memberId, artifact))
  }

  ghost predicate StoreFallsBackSafely(grants: map<Place, Stored>, settings: Settings, bounds: Bounds,
                                       memberId: string, artifact: Option<string>, held: set<Permission>)
  {
    FallsBackSafely(settings, bounds, GrantAt(grants, Place(memberId, OnProject)),
                    ArtifactGrants(grants, memberId, artifact), held)
  }

  /**
   * What a stored grant does to everyone's access, at any later instant and under any policy: other members keep
   * theirs, and its own member gains only what the author held, except exactly when a project grant expired and its
   * member fell back to a default role beyond that.
   */
  lemma StoringGivesOnlyHeld(grants: map<Place, Stored>, place: Place, stored: Stored, held: set<Permission>,
                             settings: Settings, bounds: Bounds, memberId: string, artifact: Option<string>)
    requires OfGrant(stored.grant) <= held
    ensures memberId != place.memberId ==>
              Access(grants[place := stored], settings, bounds, memberId, artifact)
              == Access(grants, settings, bounds, memberId, artifact)
    ensures memberId == place.memberId ==>
              (Access(grants[place := stored], settings, bounds, memberId, artifact) <=
               Access(grants, settings, bounds, memberId, artifact) + held
               <==> place.scope.OnArtifact? || Live(stored.grant, bounds.at)
                    || StoreFallsBackSafely(grants, settings, bounds, memberId, artifact, held))
  {
    if memberId == place.memberId {
      var before := ArtifactGrants(grants, memberId, artifact);
      var projectGrant := GrantAt(grants, Place(memberId, OnProject));
      if place.scope.OnProject? {
        assert ArtifactGrants(grants[place := stored], memberId, artifact) == before;
        ProjectGrantGivesOnlyHeld(settings, bounds, projectGrant, stored.grant, before, held);
      } else {
        assert GrantAt(grants[place := stored], Place(memberId, OnProject)) == projectGrant;
        if artifact == Some(place.scope.id) {
          ArtifactGrantGivesOnlyHeld(settings, bounds, projectGrant, before, 0, stored.grant, held);
          assert ArtifactGrants(grants[place := stored], memberId, artifact)
                 == if 0 < |before| then before[0 := stored.grant] else before + [stored.grant];
        }
      }
    }
  }

  /** The same for a deletion, which asks nobody what they hold. */
  lemma DeletingGivesOnlyHeld(grants: map<Place, Stored>, place: Place, held: set<Permission>,
                              settings: Settings, bounds: Bounds, memberId: string, artifact: Option<string>)
    ensures memberId != place.memberId ==>
              Access(grants - {place}, settings, bounds, memberId, artifact)
              == Access(grants, settings, bounds, memberId, artifact)
    ensures memberId == place.memberId ==>
              (Access(grants - {place}, settings, bounds, memberId, artifact) <=
               Access(grants, settings, bounds, memberId, artifact) + held
               <==> place.scope.OnArtifact? || StoreFallsBackSafely(grants, settings, bounds, memberId, artifact, held))
  {
    if memberId == place.memberId {
      var before := ArtifactGrants(grants, memberId, artifact);
      var after := ArtifactGrants(grants - {place}, memberId, artifact);
      var projectGrant := GrantAt(grants, Place(memberId, OnProject));
      if place.scope.OnProject? {
        assert after == before;
        NoGrantGivesOnlyHeld(settings, bounds, projectGrant, before, held);
      } else {
        assert GrantAt(grants - {place}, Place(memberId, OnProject)) == projectGrant;
        assert after == before || after == [];
        FewerArtifactGrants(settings, bounds, projectGrant, before);
      }
    }
  }

  lemma FewerArtifactGrants(settings: Settings, bounds: Bounds, projectGrant: Option<Grant>, grants: seq<Grant>)
    ensures Effective(settings, bounds, projectGrant, []) <= Effective(settings, bounds, projectGrant, grants)
  {
  }

  /** The inputs on which it fails: an expiring grant over a denial, and the deletion of that denial. */
  lemma FallingBackGivesUnheld()
    ensures
      var place, settings, bounds := Place("m", OnProject), Settings(Open, Editor), Bounds(None, false, 20);
      var denial, expired := Stored("g", Grant(NoAccess, [], [], None), 1), Grant(Viewer, [], [], Some(10));
      var grants, held := map[place := denial], RolePermissions(Viewer) + {ProjectManage};
      && OfGrant(expired) <= held && Live(expired, 9)
      && ArtifactPublish !in held && ArtifactPublish !in Access(grants, settings, bounds, "m", None)
      && ArtifactPublish in Access(grants[place := Stored("g", expired, 2)], settings, bounds, "m", None)
      && ArtifactPublish in Access(grants - {place}, settings, bounds, "m", None)
  {
    var place := Place("m", OnProject);
    var denial := Stored("g", Grant(NoAccess, [], [], None), 1);
    assert map[place := denial] - {place} == map[];
    assert ArtifactPublish in RolePermissions(Editor);
  }

  /** A new row starts at revision 1; a write moves an old one by one. */
  function NextRevision(expected: Option<nat>): (revision: nat) {
    if expected.None? then 1 else expected.value + 1
  }

  class GrantStore {
    var grants: map<Place, Stored>
    /** What the author of each stored grant held on its scope when it was written. */
    ghost var authority: map<Place, set<Permission>>

    ghost predicate Valid()
      reads this
    {
      forall place :: place in grants ==>
        && Normal(grants[place].grant.role, grants[place].grant.add, grants[place].grant.remove)
        && place in authority && OfGrant(grants[place].grant) <= authority[place]
        && (place.scope.OnArtifact? ==> ArtifactView in OfGrant(grants[place].grant))
    }

    constructor ()
      ensures Valid() && grants == map[]
    {
      grants, authority := map[], map[];
    }

    /**
     * `seen` is the row read earlier in the call; others may have written since. The write succeeds
     * only on that same row at the expected revision, or on a place that is still empty.
     */
    method PutGrant(request: Request, member: Option<Member>, held: set<Permission>, at: int,
                    seen: Option<Stored>, artifactGrants: nat, newId: string)
        returns (outcome: Outcome)
      requires Valid()
      modifies this
      ensures Valid()
      ensures outcome.Invalid? <==>
                !WellFormed(request, member, at)
                || (OfGrant(request.grant) <= held && !Room(request, seen, artifactGrants))
      ensures outcome.NotHeld? <==> WellFormed(request, member, at) && !(OfGrant(request.grant) <= held)
      // The rest is a matter of the stored row alone.
      ensures outcome.Written? || outcome.Conflict? ==>
                var row := if request.place in old(grants) then Some(old(grants)[request.place]) else None;
                outcome.Written? <==> Meets(request, seen, row)
      ensures outcome.Written? ==>
                && request.place in grants && grants == old(grants)[request.place := grants[request.place]]
                && grants[request.place].grant == Normalised(request.grant)
                && OfGrant(grants[request.place].grant) == OfGrant(request.grant)
      ensures outcome.Written? && request.expectedRevision.None? ==>
                && request.place !in old(grants)
                && grants[request.place].id == newId && grants[request.place].revision == 1
      ensures outcome.Written? && request.expectedRevision.Some? ==>
                && seen.Some? && request.place in old(grants)
                && old(grants)[request.place].id == seen.value.id == grants[request.place].id
                && old(grants)[request.place].revision == request.expectedRevision.value
                && grants[request.place].revision == request.expectedRevision.value + 1
      ensures !outcome.Written? ==> grants == old(grants)
    {
      if member.None? || member.value.administrator { return Invalid; }
      var asked := request.grant;
      var overlap := Filter(asked.add, p => p in asked.remove);
      if |overlap| > 0 {
        assert overlap[0] in Members(asked.add) && overlap[0] in Members(asked.remove);
        return Invalid;
      }
      assert Members(asked.add) !! Members(asked.remove) by {
        assert forall p :: p in asked.add && p in asked.remove ==> p in overlap;
      }
      var grant := Normalised(asked);
      NormalisingKeepsMeaning(asked.role, asked.add, asked.remove);
      if request.place.scope.OnArtifact? {
        if asked.role == NoAccess { return Invalid; }
        if ArtifactView in grant.remove { return Invalid; }
      }
      if asked.expiresAt.Some? && asked.expiresAt.value <= at { return Invalid; }
      var granted := GrantedPermissions(grant.role, grant.add, grant.remove);
      if !(granted <= held) { return NotHeld; }
      if request.place.scope.OnArtifact? && seen.None? && artifactGrants >= MAX_ARTIFACT_GRANTS { return Invalid; }
      if seen.None? != request.expectedRevision.None? { return Conflict; }
      var id := if seen.Some? then seen.value.id else newId;
      outcome := Upsert(request.place, id, grant, request.expectedRevision, held);
    }

    method Upsert(place: Place, id: string, grant: Grant, expectedRevision: Option<nat>, ghost held: set<Permission>)
        returns (outcome: Outcome)
      requires Valid() && Normal(grant.role, grant.add, grant.remove) && OfGrant(grant) <= held
      requires place.scope.OnArtifact? ==> ArtifactView in OfGrant(grant)
      modifies this
      ensures Valid() && (outcome.Written? || outcome.Conflict?)
      ensures outcome.Written? <==>
                if expectedRevision.None? then place !in old(grants)
                else place in old(grants) && old(grants)[place].id == id
                     && old(grants)[place].revision == expectedRevision.value
      ensures grants == if outcome.Written?
                        then old(grants)[place := Stored(id, grant, NextRevision(expectedRevision))]
                        else old(grants)
    {
      if expectedRevision.None? {
        if place in grants { return Conflict; }
        grants := grants[place := Stored(id, grant, 1)];
      } else {
        if place !in grants || grants[place].id != id || grants[place].revision != expectedRevision.value {
          return Conflict;
        }
        grants := grants[place := Stored(id, grant, expectedRevision.value + 1)];
      }
      authority := authority[place := held];
      return Written;
    }

    method DeleteGrant(place: Place, seen: Stored, expectedRevision: nat) returns (outcome: Outcome)
      requires Valid()
      modifies this
      ensures Valid() && (outcome.Written? || outcome.Conflict?)
      ensures outcome.Written? <==> place in old(grants) && old(grants)[place].id == seen.id
                                    && old(grants)[place].revision == expectedRevision
      ensures grants == if outcome.Written? then old(grants) - {place} else old(grants)
    {
      if place !in grants || grants[place].id != seen.id || grants[place].revision != expectedRevision {
        return Conflict;
      }
      grants := grants - {place};
      return Written;
    }
  }

  // ---------- changing the project's settings ----------

  datatype Change = Change(next: Settings, expectedRevision: nat, confirmed: Option<nat>)

  /** One look at a member's project grant; the call looks twice, at two instants. */
  datatype Look = Look(grant: Option<Grant>, at: int)

  /** A member who is not an administrator, with the two looks that resolve their access before and after. */
  datatype Affected = Affected(id: string, before: Look, after: Look)

  /** The policy ceiling and the archive state the call reads once. */
  datatype Limits = Limits(ceiling: Option<set<Permission>>, archived: bool)

  function Seen(settings: Settings, limits: Limits, look: Look): (access: set<Permission>) {
    Effective(settings, Bounds(limits.ceiling, limits.archived, look.at), look.grant, [])
  }

  datatype Verdict = Unheld | Unconfirmed(losing: nat) | Outdated | Changed(revoked: seq<string>)

  ghost predicate Narrows(member: Affected, before: Settings, after: Settings, limits: Limits) {
    !(Seen(before, limits, member.before) <= Seen(after, limits, member.after))
  }

  ghost predicate LosesView(member: Affected, before: Settings, after: Settings, limits: Limits) {
    && ArtifactView in Seen(before, limits, member.before)
    && ArtifactView !in Seen(after, limits, member.after)
  }

  ghost function Losing(members: seq<Affected>, before: Settings, after: Settings, limits: Limits): nat {
    if members == [] then 0
    else Losing(members[..|members| - 1], before, after, limits)
         + if LosesView(members[|members| - 1], before, after, limits) then 1 else 0
  }

  ghost function NarrowedIds(members: seq<Affected>, before: Settings, after: Settings, limits: Limits)
    : (ids: seq<string>)
    ensures forall id :: id in ids <==> exists m :: m in members && m.id == id && Narrows(m, before, after, limits)
  {
    if members == [] then []
    else
      var last := members[|members| - 1];
      assert members == members[..|members| - 1] + [last];
      NarrowedIds(members[..|members| - 1], before, after, limits)
      + if Narrows(last, before, after, limits) then [last.id] else []
  }

  method CompareAccess(members: seq<Affected>, before: Settings, after: Settings, limits: Limits)
      returns (losing: nat, narrowed: seq<string>)
    ensures losing == Losing(members, before, after, limits)
    ensures narrowed == NarrowedIds(members, before, after, limits)
  {
    losing, narrowed := 0, [];
    for i := 0 to |members|
      invariant losing == Losing(members[..i], before, after, limits)
      invariant narrowed == NarrowedIds(members[..i], before, after, limits)
    {
      assert members[..i + 1][..i] == members[..i];
      var held := Seen(before, limits, members[i].before);
      var kept := Seen(after, limits, members[i].after);
      if ArtifactView in held && ArtifactView !in kept { losing := losing + 1; }
      if !(held <= kept) { narrowed := narrowed + [members[i].id]; }
    }
    assert members[..|members|] == members;
  }

  function Latest(history: seq<Settings>): (settings: Settings)
    requires history != []
  {
    history[|history| - 1]
  }

  /** The places of the members who lose the project. */
  ghost function Losers(members: seq<Affected>, before: Settings, after: Settings, limits: Limits): (places: set<nat>) {
    set i: nat | i < |members| && LosesView(members[i], before, after, limits)
  }

  ghost function TrueAt(flags: seq<bool>): (places: set<nat>) {
    set i: nat | i < |flags| && flags[i]
  }

  lemma TrueAtAppend(flags: seq<bool>, last: bool)
    ensures |TrueAt(flags + [last])| == |TrueAt(flags)| + if last then 1 else 0
  {
    assert TrueAt(flags + [last]) == TrueAt(flags) + if last then {|flags|} else {};
  }

  ghost predicate Flags(members: seq<Affected>, before: Settings, after: Settings, limits: Limits, flags: seq<bool>) {
    |flags| == |members| && forall i :: 0 <= i < |members| ==> flags[i] == LosesView(members[i], before, after, limits)
  }

  lemma {:induction false} LosingFlags(members: seq<Affected>, before: Settings, after: Settings, limits: Limits)
      returns (flags: seq<bool>)
    ensures Flags(members, before, after, limits, flags)
    ensures Losing(members, before, after, limits) == |TrueAt(flags)|
  {
    flags := [];
    if members == [] {
      assert TrueAt(flags) == {};
    } else {
      var n := |members| - 1;
      var rest := LosingFlags(members[..n], before, after, limits);
      var last := LosesView(members[n], before, after, limits);
      TrueAtAppend(rest, last);
      flags := rest + [last];
      FlagsAppend(members, before, after, limits, rest, last);
    }
  }

  lemma FlagsAppend(members: seq<Affected>, before: Settings, after: Settings, limits: Limits, rest: seq<bool>,
                    last: bool)
    requires members != [] && Flags(members[..|members| - 1], before, after, limits, rest)
    requires last == LosesView(members[|members| - 1], before, after, limits)
    ensures Flags(members, before, after, limits, rest + [last])
  {
    forall i | 0 <= i < |members|
      ensures (rest + [last])[i] == LosesView(members[i], before, after, limits)
    {
      assert i < |members| - 1 ==> members[..|members| - 1][i] == members[i];
    }
  }

  lemma LosingCountsLosers(members: seq<Affected>, before: Settings, after: Settings, limits: Limits)
    ensures Losing(members, before, after, limits) == |Losers(members, before, after, limits)|
  {
    var flags := LosingFlags(members, before, after, limits);
    assert TrueAt(flags) == Losers(members, before, after, limits);
  }

  class ProjectAccess {
    var settings: Settings
    var revision: nat
    /** Every settings the project had, by revision. */
    ghost var history: seq<Settings>

    ghost predicate Valid()
      reads this
    {
      |history| == revision + 1 && history[revision] == settings
    }

    constructor (settings: Settings)
      ensures Valid() && history == [settings]
    {
      this.settings, revision, history := settings, 0, [settings];
    }

    method Write(next: Settings, expectedRevision: nat) returns (written: bool)
      requires Valid()
      modifies this
      ensures Valid()
      ensures written <==> expectedRevision == |old(history)| - 1
      ensures history == if written then old(history) + [next] else old(history)
    {
      written := revision == expectedRevision;
      if written { settings, revision, history := next, revision + 1, history + [next]; }
    }

    /** Other callers' successful writes. */
    method OthersWrite(others: seq<Settings>)
      requires Valid()
      modifies this
      ensures Valid() && history == old(history) + others
    {
      for i := 0 to |others|
        invariant Valid() && history == old(history) + others[..i]
      {
        var written := Write(others[i], revision);
      }
    }

    /** `others` are the writes that land between this call's read and its own write. */
    method ChangeAccess(change: Change, held: set<Permission>, members: seq<Affected>, limits: Limits,
                        others: seq<Settings>)
        returns (verdict: Verdict)
      requires Valid()
      modifies this
      ensures Valid()
      ensures verdict == Judged(old(history), change, held, members, limits, others)
      // The default role is granted only by someone who holds it.
      ensures verdict.Unheld? <==> !(RolePermissions(change.next.defaultRole) <= held)
      // A loss of the project is confirmed by its number, or there is none.
      ensures var n := |Losers(members, old(settings), change.next, limits)|;
              && (verdict.Unconfirmed? <==> !verdict.Unheld? && n > 0 && change.confirmed != Some(n))
              && (verdict.Unconfirmed? ==> verdict.losing == n)
      ensures verdict.Outdated? || verdict.Changed? ==>
                (verdict.Changed? <==> change.expectedRevision == |old(history) + others| - 1)
      // Whatever settings it replaces, no member gains anything beyond what its author holds.
      ensures verdict.Changed? ==> forall bounds, projectGrant, artifactGrants ::
                Effective(change.next, bounds, projectGrant, artifactGrants) <=
                Effective(Latest(old(history) + others), bounds, projectGrant, artifactGrants) + held
      // The members who lost a permission are the ones whose sessions are revoked.
      ensures verdict.Changed? ==> forall id :: id in verdict.revoked <==>
                exists m :: m in members && m.id == id && Narrows(m, old(settings), change.next, limits)
      ensures verdict.Changed? ==> history == old(history) + others + [change.next]
      ensures verdict.Outdated? ==> history == old(history) + others
      ensures verdict.Unheld? || verdict.Unconfirmed? ==> history == old(history)
    {
      LosingCountsLosers(members, settings, change.next, limits);
      if !(RolePermissions(change.next.defaultRole) <= held) { return Unheld; }
      var losing, narrowed := CompareAccess(members, settings, change.next, limits);
      if losing > 0 && change.confirmed != Some(losing) { return Unconfirmed(losing); }
      OthersWrite(others);
      var written := Write(change.next, change.expectedRevision);
      verdict := if written then Changed(narrowed) else Outdated;
      forall bounds, projectGrant, artifactGrants
        ensures Effective(change.next, bounds, projectGrant, artifactGrants) <=
                Effective(Latest(old(history) + others), bounds, projectGrant, artifactGrants) + held
      {
        SettingsGiveOnlyHeld(Latest(old(history) + others), change.next, bounds, projectGrant, artifactGrants, held);
      }
    }
  }

  /** The call counts against the settings it reads; its write replaces whatever then stands. */
  ghost function Judged(history: seq<Settings>, change: Change, held: set<Permission>, members: seq<Affected>,
                        limits: Limits, others: seq<Settings>): (verdict: Verdict)
    requires history != []
  {
    var counted := history[|history| - 1];
    var losing := Losing(members, counted, change.next, limits);
    if !(RolePermissions(change.next.defaultRole) <= held) then Unheld
    else if losing > 0 && change.confirmed != Some(losing) then Unconfirmed(losing)
    else if change.expectedRevision != |history + others| - 1 then Outdated
    else Changed(NarrowedIds(members, counted, change.next, limits))
  }

  /**
   * A change that succeeds replaces exactly the settings it was counted against if and only if its
   * expected revision was no later than the one the call read; then it revokes exactly the members
   * who lost a permission, and the number who lost the project was none or was confirmed.
   */
  lemma ChangeCountsWhatItReplaces(history: seq<Settings>, change: Change, held: set<Permission>,
                                   members: seq<Affected>, limits: Limits, others: seq<Settings>)
    requires history != []
    requires Judged(history, change, held, members, limits, others).Changed?
    ensures change.expectedRevision <= |history| - 1 <==> |history| == |history + others|
    ensures change.expectedRevision <= |history| - 1 ==>
              var replaced := (history + others)[|history + others| - 1];
              var losing := Losing(members, replaced, change.next, limits);
              && (losing == 0 || change.confirmed == Some(losing))
              && forall id :: id in Judged(history, change, held, members, limits, others).revoked <==>
                   exists m :: m in members && m.id == id && Narrows(m, replaced, change.next, limits)
  {
  }

  /** A guessed revision: a member loses the project unconfirmed, and keeps their sessions. */
  lemma GuessedRevisionMissesLoss()
    ensures
      var closed, open := Settings(Restricted, NoAccess), Settings(Open, Viewer);
      var member := Affected("m", Look(None, 0), Look(None, 0));
      var limits := Limits(None, false);
      && Judged([closed], Change(closed, 1, None), {}, [member], limits, [open]) == Changed([])
      && LosesView(member, open, closed, limits)
  {
  }
}
