/**
 * Ending a credential's or a principal's access while many processes answer from their own authentication caches.
 * Every process reads the same clock; requests, repository answers, cache fills, lease writes and the two
 * sweeps of `endContentAccess` interleave freely.
 */
module Revocation {
  import opened OrderedMaps
  import opened AuthenticationCaches

  /** Margin past the cache lifetime before the second sweep. */
  const SWEEP_MARGIN := 5_000

  type Principal = string

  /** Each process has one cache for session tokens and one for managed keys. */
  datatype CacheId = SessionCache(process: nat) | KeyCache(process: nat)

  /** `None` disables caching. */
  datatype Config = Config(policy: Option<Policy>) {
    function Ttl(): int {
      if policy.Some? then policy.value.ttl else 0
    }

    function SweepDelay(): int {
      Ttl() + SWEEP_MARGIN
    }
  }

  datatype Credential = Credential(principal: Principal, expiresAt: int)

  /** A request between its one clock read and its end. */
  datatype Request =
    | Looking(cache: CacheId, secret: string, readAt: int)
    | Found(cache: CacheId, secret: string, readAt: int, credential: Credential)
    | Authenticated(secret: string, readAt: int, principal: Principal)

  /** `secret` records, for the statement only, the credential that the lease was issued on. */
  datatype Lease = Lease(token: nat, principal: Principal, secret: string)

  /**
   * A second sweep waiting for its delay. At the first sweep, `covers` held the principal's credentials that had
   * ended, and `afterClose` told whether the principal was deactivated.
   */
  datatype Sweep = Sweep(principal: Principal, startedAt: int, covers: set<string>, afterClose: bool)

  datatype State = State(
    now: int,
    credentials: map<string, Credential>,
    ended: map<string, int>,
    closed: set<Principal>,
    caches: map<CacheId, Cache<Principal>>,
    requests: map<nat, Request>,
    leases: set<Lease>,
    waiting: set<Sweep>,
    swept: set<string>,
    sweptPrincipals: set<Principal>)

  datatype Step =
    | Tick(elapsed: nat)
    | AddCredential(secret: string, credential: Credential)
    | Begin(id: nat, cache: CacheId, secret: string)
    | RepositoryAnswers(id: nat)
    | Fill(id: nat)
    | IssueLease(id: nat, token: nat)
    | Abandon(id: nat)
    | EvictSecret(cache: CacheId, secret: string)
    | ClearCache(cache: CacheId)
    | EndCredential(secret: string)
    | EndAccess(principal: Principal)
    | FirstSweep(principal: Principal)
    | SecondSweep(sweep: Sweep)

  function CacheOf(s: State, id: CacheId): Cache<Principal> {
    if id in s.caches then s.caches[id] else []
  }

  function CacheCall(c: Config, s: State, id: CacheId, op: Op<Principal>): map<CacheId, Cache<Principal>> {
    if c.policy.None? then s.caches else s.caches[id := Apply(c.policy.value, CacheOf(s, id), op)]
  }

  /** The repository accepts a credential until its own expiry or until it ended. */
  predicate Accepts(s: State, secret: string, readAt: int) {
    && secret in s.credentials
    && readAt < s.credentials[secret].expiresAt
    && secret !in s.ended
  }

  /** The principal's credentials. */
  function SecretsOf(s: State, p: Principal): (secrets: set<string>) {
    set secret | secret in s.credentials && s.credentials[secret].principal == p
  }

  /** Credentials end once. */
  function Ended(s: State, secrets: set<string>): (ended: map<string, int>) {
    s.ended + map secret | secret in secrets - s.ended.Keys :: s.now
  }

  ghost predicate Enabled(c: Config, s: State, step: Step) {
    match step
    case AddCredential(secret, credential) => secret !in s.credentials && credential.principal !in s.closed
    case Begin(id, _, _) => id !in s.requests
    case RepositoryAnswers(id) => id in s.requests && s.requests[id].Looking?
    case Fill(id) => id in s.requests && s.requests[id].Found?
    // The timing assumption: from clock read to lease write a request takes less than the margin.
    case IssueLease(id, _) =>
      id in s.requests && s.requests[id].Authenticated? && s.now < s.requests[id].readAt + SWEEP_MARGIN
    case EndCredential(secret) => secret in s.credentials
    case SecondSweep(sweep) => sweep in s.waiting && s.now >= sweep.startedAt + c.SweepDelay()
    case _ => true
  }

  ghost function Revoke(leases: set<Lease>, p: Principal): set<Lease> {
    set lease | lease in leases && lease.principal != p
  }

  ghost function Take(c: Config, s: State, step: Step): State
    requires Enabled(c, s, step)
  {
    match step
    case Tick(elapsed) => s.(now := s.now + elapsed)
    case AddCredential(secret, credential) => s.(credentials := s.credentials[secret := credential])
    case Begin(id, cache, secret) =>
      var hit := if c.policy.None? then None else Answer(CacheOf(s, cache), secret, s.now);
      s.(caches := CacheCall(c, s, cache, Get(secret, s.now)),
         requests := s.requests[id :=
           if hit.Some? then Authenticated(secret, s.now, hit.value) else Looking(cache, secret, s.now)])
    case RepositoryAnswers(id) =>
      var r := s.requests[id];
      s.(requests :=
        if Accepts(s, r.secret, r.readAt)
        then s.requests[id := Found(r.cache, r.secret, r.readAt, s.credentials[r.secret])]
        else s.requests - {id})
    case Fill(id) =>
      var r := s.requests[id];
      s.(caches := CacheCall(c, s, r.cache, Set(r.secret, r.readAt, r.credential.principal, r.credential.expiresAt)),
         requests := s.requests[id := Authenticated(r.secret, r.readAt, r.credential.principal)])
    case IssueLease(id, token) =>
      s.(leases := s.leases + {Lease(token, s.requests[id].principal, s.requests[id].secret)})
    case Abandon(id) => s.(requests := s.requests - {id})
    case EvictSecret(cache, secret) => s.(caches := CacheCall(c, s, cache, Evict(secret)))
    case ClearCache(cache) => s.(caches := CacheCall(c, s, cache, Clear))
    // Revoking or rotating a key ends that credential; deactivating a member ends all of theirs for good.
    case EndCredential(secret) => s.(ended := Ended(s, {secret}))
    case EndAccess(p) => s.(ended := Ended(s, SecretsOf(s, p)), closed := s.closed + {p})
    case FirstSweep(p) =>
      s.(leases := Revoke(s.leases, p),
         waiting := s.waiting + {Sweep(p, s.now, SecretsOf(s, p) * s.ended.Keys, p in s.closed)})
    case SecondSweep(sweep) =>
      s.(leases := Revoke(s.leases, sweep.principal), waiting := s.waiting - {sweep},
         swept := s.swept + sweep.covers,
         sweptPrincipals := if sweep.afterClose then s.sweptPrincipals + {sweep.principal} else s.sweptPrincipals)
  }

  ghost predicate Runs(c: Config, s: State, steps: seq<Step>, s': State)
    decreases |steps|
  {
    if steps == [] then s' == s
    else Enabled(c, s, steps[0]) && Runs(c, Take(c, s, steps[0]), steps[1..], s')
  }

  ghost predicate Initial(s: State) {
    && s.caches == map[] && s.requests == map[] && s.leases == {}
    && s.ended == map[] && s.closed == {} && s.waiting == {} && s.swept == {} && s.sweptPrincipals == {}
  }

  // ---------- the invariant ----------

  /** The cached, found or authenticated principal is the credential's own. */
  ghost predicate Owns(s: State, secret: string, p: Principal) {
    secret in s.credentials && s.credentials[secret].principal == p
  }

  /** No cache entry of an ended credential outlives the end by more than the cache lifetime. */
  ghost predicate CachesBounded(c: Config, s: State) {
    forall id, e :: id in s.caches && e in s.caches[id] ==>
      && Owns(s, e.key, e.value.value)
      && e.value.notAfter <= s.now + c.Ttl()
      && (e.key in s.ended ==> e.value.notAfter <= s.ended[e.key] + c.Ttl())
  }

  ghost predicate RequestBounded(c: Config, s: State, r: Request) {
    && r.readAt <= s.now
    && (r.Found? ==>
          Owns(s, r.secret, r.credential.principal) && (r.secret in s.ended ==> r.readAt <= s.ended[r.secret]))
    && (r.Authenticated? ==>
          Owns(s, r.secret, r.principal) && (r.secret in s.ended ==> r.readAt <= s.ended[r.secret] + c.Ttl()))
  }

  ghost predicate SweepBounded(s: State, w: Sweep) {
    && w.startedAt <= s.now
    && (forall secret :: secret in w.covers ==>
          Owns(s, secret, w.principal) && secret in s.ended && s.ended[secret] <= w.startedAt)
    && (w.afterClose ==> w.principal in s.closed && SecretsOf(s, w.principal) <= w.covers)
  }

  ghost predicate SweepsBounded(c: Config, s: State) {
    && (forall secret :: secret in s.ended ==> s.ended[secret] <= s.now)
    && (forall w :: w in s.waiting ==> SweepBounded(s, w))
    && (forall secret :: secret in s.swept ==> secret in s.ended && s.ended[secret] + c.SweepDelay() <= s.now)
    && (forall p :: p in s.closed ==> SecretsOf(s, p) <= s.ended.Keys)
    && (forall p :: p in s.sweptPrincipals ==> p in s.closed && SecretsOf(s, p) <= s.swept)
  }

  ghost predicate NoLeaseOfSwept(s: State) {
    forall lease :: lease in s.leases ==> Owns(s, lease.secret, lease.principal) && lease.secret !in s.swept
  }

  ghost predicate Inv(c: Config, s: State) {
    && CachesBounded(c, s)
    && (forall id :: id in s.requests ==> RequestBounded(c, s, s.requests[id]))
    && SweepsBounded(c, s)
    && NoLeaseOfSwept(s)
  }

  /** A cache call adds at most the entry it accepted. */
  lemma CallAdds(policy: Policy, m: Cache<Principal>, op: Op<Principal>)
    ensures forall e :: e in Apply(policy, m, op) ==>
              || e in m
              || (Accepted(policy, op) &&
                  e == Pair(op.key, Cached(NotAfter(policy, op.now, op.expiresAt), op.value)))
  {
    if !op.Clear? {
      DeleteMembers(m, op.key);
      if Hit(m, op) { LookupIsEntry(m, op.key); }
    }
  }

  lemma CachesStayBounded(c: Config, s: State, step: Step)
    requires Inv(c, s) && Enabled(c, s, step)
    ensures CachesBounded(c, Take(c, s, step))
  {
    var s' := Take(c, s, step);
    if c.policy.Some? {
      match step
      case Begin(_, id, secret) => CallAdds(c.policy.value, CacheOf(s, id), Get(secret, s.now));
      case Fill(i) =>
        var r := s.requests[i];
        assert RequestBounded(c, s, r);
        CallAdds(c.policy.value, CacheOf(s, r.cache),
                 Set(r.secret, r.readAt, r.credential.principal, r.credential.expiresAt));
      case EvictSecret(id, secret) => CallAdds(c.policy.value, CacheOf(s, id), Evict(secret));
      case ClearCache(id) => CallAdds(c.policy.value, CacheOf(s, id), Clear);
      case _ =>
    }
  }

  lemma RequestsStayBounded(c: Config, s: State, step: Step)
    requires c.Ttl() >= 0 && Inv(c, s) && Enabled(c, s, step)
    ensures forall id :: id in Take(c, s, step).requests ==>
              RequestBounded(c, Take(c, s, step), Take(c, s, step).requests[id])
  {
    var s' := Take(c, s, step);
    forall id | id in s'.requests ensures RequestBounded(c, s', s'.requests[id]) {
      if id in s.requests { assert RequestBounded(c, s, s.requests[id]); }
      if step.Begin? && step.id == id {
        LookupIsEntry(CacheOf(s, step.cache), step.secret);
      }
    }
  }

  lemma StepKeepsInv(c: Config, s: State, step: Step)
    requires c.Ttl() >= 0 && Inv(c, s) && Enabled(c, s, step)
    ensures Inv(c, Take(c, s, step))
  {
    CachesStayBounded(c, s, step);
    RequestsStayBounded(c, s, step);
    SweepsStayBounded(c, s, step);
    if step.IssueLease? { SweptIssuesNothing(c, s, step.id, step.token); }
  }

  lemma WaitingStaysBounded(c: Config, s: State, step: Step, w: Sweep)
    requires Inv(c, s) && Enabled(c, s, step) && w in Take(c, s, step).waiting
    ensures SweepBounded(Take(c, s, step), w)
  {
    if w in s.waiting { assert SweepBounded(s, w); }
  }

  lemma SweepsStayBounded(c: Config, s: State, step: Step)
    requires Inv(c, s) && Enabled(c, s, step)
    ensures SweepsBounded(c, Take(c, s, step))
  {
    var s' := Take(c, s, step);
    forall w | w in s'.waiting ensures SweepBounded(s', w) {
      WaitingStaysBounded(c, s, step, w);
    }
    if step.SecondSweep? { assert SweepBounded(s, step.sweep); }
  }

  /** After the second sweep, no request that could still write a lease has the credential. */
  lemma SweptIssuesNothing(c: Config, s: State, id: nat, token: nat)
    requires Inv(c, s) && Enabled(c, s, IssueLease(id, token))
    ensures s.requests[id].secret !in s.swept && s.requests[id].principal !in s.sweptPrincipals
  {
  }

  lemma {:induction false} RunKeepsInv(c: Config, s: State, steps: seq<Step>, s': State)
    requires c.Ttl() >= 0 && Inv(c, s) && Runs(c, s, steps, s')
    ensures Inv(c, s') && s.swept <= s'.swept && s.sweptPrincipals <= s'.sweptPrincipals
    decreases |steps|
  {
    if steps != [] {
      StepKeepsInv(c, s, steps[0]);
      RunKeepsInv(c, Take(c, s, steps[0]), steps[1..], s');
    }
  }

  // ---------- the theorems ----------

  /**
   * Over every run: once the second sweep after a credential ended has run, no lease issued on it is there, now or at
   * any later moment, and none can be issued.
   */
  lemma SweptCredentialHasNoLease(c: Config, s: State, steps: seq<Step>, s': State, later: seq<Step>, s'': State,
                                  secret: string)
    requires c.Ttl() >= 0 && Initial(s)
    requires Runs(c, s, steps, s') && secret in s'.swept
    requires Runs(c, s', later, s'')
    ensures forall lease :: lease in s''.leases ==> lease.secret != secret
    ensures forall id, token :: Enabled(c, s'', IssueLease(id, token)) ==> s''.requests[id].secret != secret
  {
    RunKeepsInv(c, s, steps, s');
    RunKeepsInv(c, s', later, s'');
    forall id, token | Enabled(c, s'', IssueLease(id, token)) ensures s''.requests[id].secret != secret {
      SweptIssuesNothing(c, s'', id, token);
    }
  }

  /** The same for a deactivated principal: no lease of theirs at all. */
  lemma SweptPrincipalHasNoLease(c: Config, s: State, steps: seq<Step>, s': State, later: seq<Step>, s'': State,
                                 p: Principal)
    requires c.Ttl() >= 0 && Initial(s)
    requires Runs(c, s, steps, s') && p in s'.sweptPrincipals
    requires Runs(c, s', later, s'')
    ensures forall lease :: lease in s''.leases ==> lease.principal != p
    ensures forall id, token :: Enabled(c, s'', IssueLease(id, token)) ==> s''.requests[id].principal != p
  {
    RunKeepsInv(c, s, steps, s');
    RunKeepsInv(c, s', later, s'');
    forall lease | lease in s''.leases ensures lease.principal != p {
      assert lease.secret in SecretsOf(s'', lease.principal);
    }
    forall id, token | Enabled(c, s'', IssueLease(id, token)) ensures s''.requests[id].principal != p {
      SweptIssuesNothing(c, s'', id, token);
    }
  }

  /** Over every run: a lease on an ended credential is written less than lifetime plus margin after the end. */
  lemma LateLeaseIsBounded(c: Config, s: State, steps: seq<Step>, s': State, id: nat, token: nat)
    requires c.Ttl() >= 0 && Initial(s) && Runs(c, s, steps, s')
    requires Enabled(c, s', IssueLease(id, token)) && s'.requests[id].secret in s'.ended
    ensures s'.now < s'.ended[s'.requests[id].secret] + c.SweepDelay()
  {
    RunKeepsInv(c, s, steps, s');
    assert RequestBounded(c, s', s'.requests[id]);
  }

  lemma RunsCons(c: Config, s: State, step: Step, rest: seq<Step>, s': State)
    requires Enabled(c, s, step) && Runs(c, Take(c, s, step), rest, s')
    ensures Runs(c, s, [step] + rest, s')
  {
  }

  /** A request that misses the cache fills it with the repository's answer. */
  lemma FillRun(c: Config, s: State, id: nat, cache: CacheId, secret: string) returns (steps: seq<Step>, s': State)
    requires c.policy.Some? && CacheOf(s, cache) == [] && id !in s.requests && Accepts(s, secret, s.now)
    ensures Runs(c, s, steps, s') && |steps| == 3
    ensures s' == s.(caches := CacheCall(c, s, cache, Set(secret, s.now, s.credentials[secret].principal,
                                                          s.credentials[secret].expiresAt)),
                     requests := s.requests[id := Authenticated(secret, s.now, s.credentials[secret].principal)])
  {
    var s1 := Take(c, s, Begin(id, cache, secret));
    var s2 := Take(c, s1, RepositoryAnswers(id));
    s' := Take(c, s2, Fill(id));
    RunsCons(c, s2, Fill(id), [], s');
    RunsCons(c, s1, RepositoryAnswers(id), [Fill(id)], s');
    RunsCons(c, s, Begin(id, cache, secret), [RepositoryAnswers(id)] + [Fill(id)], s');
    steps := [Begin(id, cache, secret)] + ([RepositoryAnswers(id)] + [Fill(id)]);
  }

  lemma {:induction false} RunsConcat(c: Config, s: State, a: seq<Step>, mid: State, b: seq<Step>, s': State)
    requires Runs(c, s, a, mid) && Runs(c, mid, b, s')
    ensures Runs(c, s, a + b, s')
    decreases |a|
  {
    if a == [] {
      assert a + b == b;
    } else {
      assert (a + b)[1..] == a[1..] + b;
      RunsConcat(c, Take(c, s, a[0]), a[1..], mid, b, s');
    }
  }

  /** Access ends and is swept once, then a cached credential still becomes a lease. */
  lemma LeaseAfterOneSweep(c: Config, s: State, cache: CacheId, secret: string, p: Principal)
      returns (steps: seq<Step>, s': State)
    requires c.policy.Some? && CacheOf(s, cache) == [Pair(secret, Cached(s.now + c.Ttl(), p))] && c.Ttl() > 0
    requires Owns(s, secret, p) && 1 !in s.requests
    ensures Runs(c, s, steps, s') && secret in s'.ended && p in s'.closed && Lease(7, p, secret) in s'.leases
    ensures exists sweep :: sweep in s'.waiting && sweep.principal == p && secret in sweep.covers && sweep.afterClose
  {
    var s1 := Take(c, s, EndAccess(p));
    var s2 := Take(c, s1, FirstSweep(p));
    var s3 := Take(c, s2, Begin(1, cache, secret));
    assert s3.requests[1] == Authenticated(secret, s.now, p);
    assert secret in SecretsOf(s, p) && SecretsOf(s1, p) == SecretsOf(s, p);
    var sweep := Sweep(p, s.now, SecretsOf(s1, p) * s1.ended.Keys, true);
    assert sweep in s2.waiting;
    s' := Take(c, s3, IssueLease(1, 7));
    RunsCons(c, s3, IssueLease(1, 7), [], s');
    RunsCons(c, s2, Begin(1, cache, secret), [IssueLease(1, 7)], s');
    var rest := [Begin(1, cache, secret)] + [IssueLease(1, 7)];
    RunsCons(c, s1, FirstSweep(p), rest, s');
    RunsCons(c, s, EndAccess(p), [FirstSweep(p)] + rest, s');
    steps := [EndAccess(p)] + ([FirstSweep(p)] + rest);
  }

  /** Why there is a second sweep: with caching on, a run exists in which a lease follows the first one. */
  lemma OneSweepIsNotEnough(c: Config, p: Principal)
    requires c.policy.Some? && c.Ttl() > 0 && c.policy.value.maxEntries > 0
    ensures exists s, steps, s' ::
      && Initial(s) && Runs(c, s, steps, s') && "secret" in s'.ended && p in s'.closed
      && (exists sweep :: sweep in s'.waiting && sweep.principal == p && "secret" in sweep.covers && sweep.afterClose)
      && Lease(7, p, "secret") in s'.leases
  {
    var cache := SessionCache(1);
    var s := State(0, map["secret" := Credential(p, c.Ttl())], map[], {}, map[], map[], {}, {}, {}, {});
    var a, mid := FillRun(c, s, 0, cache, "secret");
    assert CacheOf(mid, cache) == [Pair("secret", Cached(c.Ttl(), p))];
    var b, s' := LeaseAfterOneSweep(c, mid, cache, "secret", p);
    RunsConcat(c, s, a, mid, b, s');
  }

  // ---------- what a sweep takes, and that it gets there ----------

  ghost predicate SweepsOf(step: Step, p: Principal) {
    (step.FirstSweep? && step.principal == p) || (step.SecondSweep? && step.sweep.principal == p)
  }

  ghost predicate Writes(steps: seq<Step>, token: nat) {
    exists i :: 0 <= i < |steps| && steps[i].IssueLease? && steps[i].token == token
  }

  lemma {:induction false} UnwrittenStaysAway(c: Config, s: State, steps: seq<Step>, s': State, lease: Lease)
    requires Runs(c, s, steps, s') && lease !in s.leases && !Writes(steps, lease.token)
    ensures lease !in s'.leases
    decreases |steps|
  {
    if steps != [] {
      assert !(steps[0].IssueLease? && steps[0].token == lease.token);
      UnwrittenStaysAway(c, Take(c, s, steps[0]), steps[1..], s', lease);
    }
  }

  /** Over every run: a lease whose token is not written again is gone exactly if its own principal was swept. */
  lemma {:induction false} LeaseStaysUnlessSwept(c: Config, s: State, steps: seq<Step>, s': State, lease: Lease)
    requires Runs(c, s, steps, s') && lease in s.leases && !Writes(steps, lease.token)
    ensures lease !in s'.leases <==> exists i :: 0 <= i < |steps| && SweepsOf(steps[i], lease.principal)
    decreases |steps|
  {
    if steps != [] {
      var next, rest := Take(c, s, steps[0]), steps[1..];
      assert !Writes(rest, lease.token) by {
        assert forall i :: 0 <= i < |rest| ==> rest[i] == steps[i + 1];
      }
      if SweepsOf(steps[0], lease.principal) {
        UnwrittenStaysAway(c, next, rest, s', lease);
      } else {
        LeaseStaysUnlessSwept(c, next, rest, s', lease);
        assert forall i :: 0 < i < |steps| ==> steps[i] == rest[i - 1];
        assert forall i :: 0 <= i < |rest| ==> rest[i] == steps[i + 1];
      }
    }
  }

  /** From any state on: the two sweeps, a delay apart, take in every ended one. */
  lemma SweepTwice(c: Config, s: State, p: Principal) returns (steps: seq<Step>, s': State)
    requires c.Ttl() >= 0
    ensures Runs(c, s, steps, s') && s'.now == s.now + c.Ttl() + 5_000
    ensures SecretsOf(s, p) * s.ended.Keys <= s'.swept && s'.ended == s.ended
    ensures p in s.closed ==> p in s'.sweptPrincipals
    ensures s'.leases == set lease | lease in s.leases && lease.principal != p
  {
    var sweep := Sweep(p, s.now, SecretsOf(s, p) * s.ended.Keys, p in s.closed);
    var s1 := Take(c, s, FirstSweep(p));
    var s2 := Take(c, s1, Tick(c.SweepDelay()));
    assert sweep in s2.waiting;
    s' := Take(c, s2, SecondSweep(sweep));
    RunsCons(c, s2, SecondSweep(sweep), [], s');
    RunsCons(c, s1, Tick(c.SweepDelay()), [SecondSweep(sweep)], s');
    var rest := [Tick(c.SweepDelay())] + [SecondSweep(sweep)];
    RunsCons(c, s, FirstSweep(p), rest, s');
    steps := [FirstSweep(p)] + rest;
  }

  /** Ending a member's access can always be carried through: all of their credentials end and are swept. */
  lemma AccessCanBeEnded(c: Config, s: State, p: Principal) returns (steps: seq<Step>, s': State)
    requires c.Ttl() >= 0
    ensures Runs(c, s, steps, s') && p in s'.sweptPrincipals && s'.now == s.now + c.Ttl() + 5_000
    ensures forall secret :: secret in s.credentials && s.credentials[secret].principal == p ==> secret in s'.swept
    ensures s'.ended.Keys == s.ended.Keys + SecretsOf(s, p)
    ensures s'.leases == set lease | lease in s.leases && lease.principal != p
  {
    var s1 := Take(c, s, EndAccess(p));
    var rest;
    rest, s' := SweepTwice(c, s1, p);
    RunsCons(c, s, EndAccess(p), rest, s');
    steps := [EndAccess(p)] + rest;
    assert SecretsOf(s1, p) == SecretsOf(s, p) <= s1.ended.Keys;
    assert s1.ended.Keys == s.ended.Keys + SecretsOf(s, p);
  }

  /** The same for one credential: it alone ends. */
  lemma CredentialCanBeEnded(c: Config, s: State, secret: string) returns (steps: seq<Step>, s': State)
    requires c.Ttl() >= 0 && secret in s.credentials
    ensures Runs(c, s, steps, s') && secret in s'.swept && s'.now == s.now + c.Ttl() + 5_000
    ensures s'.ended.Keys == s.ended.Keys + {secret}
    ensures s'.leases == set lease | lease in s.leases && lease.principal != s.credentials[secret].principal
  {
    var p := s.credentials[secret].principal;
    var s1 := Take(c, s, EndCredential(secret));
    var rest;
    rest, s' := SweepTwice(c, s1, p);
    RunsCons(c, s, EndCredential(secret), rest, s');
    steps := [EndCredential(secret)] + rest;
    assert secret in SecretsOf(s1, p);
  }
}
