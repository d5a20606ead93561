/** The per-process cache of successful authentications: an insertion-ordered LRU with two expiries. */
module AuthenticationCaches {
  import opened Collections
  import opened OrderedMaps

  datatype Policy = Policy(maxEntries: nat, ttl: int)

  datatype Cached<+V> = Cached(notAfter: int, value: V)

  type Cache<V> = Entries<string, Cached<V>>

  datatype Op<+V> =
    | Get(key: string, now: int)
    | Set(key: string, now: int, value: V, expiresAt: int)
    | Evict(key: string)
    | Clear

  // ---------- what one call does ----------

  function NotAfter(policy: Policy, now: int, expiresAt: int): (t: int)
    ensures t <= now + policy.ttl && t <= expiresAt
  {
    if now + policy.ttl <= expiresAt then now + policy.ttl else expiresAt
  }

  /** A set whose entry would already be dead is refused and leaves an older entry in place. */
  predicate Accepted<V>(policy: Policy, op: Op<V>) {
    op.Set? && NotAfter(policy, op.now, op.expiresAt) > op.now
  }

  predicate Hit<V>(m: Cache<V>, op: Op<V>) {
    op.Get? && Lookup(m, op.key).Some? && op.now < Lookup(m, op.key).value.notAfter
  }

  predicate Expires<V>(m: Cache<V>, op: Op<V>) {
    op.Get? && Lookup(m, op.key).Some? && op.now >= Lookup(m, op.key).value.notAfter
  }

  function Apply<V>(policy: Policy, m: Cache<V>, op: Op<V>): Cache<V> {
    if Hit(m, op) then Renew(m, op.key, Lookup(m, op.key).value)
    else if Expires(m, op) then Delete(m, op.key)
    else if Accepted(policy, op) then
      Bounded(Renew(m, op.key, Cached(NotAfter(policy, op.now, op.expiresAt), op.value)), policy.maxEntries)
    else if op.Evict? then Delete(m, op.key)
    else if op.Clear? then []
    else m
  }

  function Answer<V>(m: Cache<V>, key: string, now: int): Option<V> {
    if Hit(m, Get(key, now)) then Some(Lookup(m, key).value.value) else None
  }

  class AuthenticationCache<V> {
    const policy: Policy
    var entries: Cache<V>

    ghost predicate Valid()
      reads this
    {
      Distinct(entries) && |entries| <= policy.maxEntries
    }

    constructor (policy: Policy)
      ensures Valid() && entries == [] && this.policy == policy
    {
      this.policy := policy;
      entries := [];
    }

    method ClearAll()
      requires Valid()
      modifies this`entries
      ensures Valid() && entries == Apply(policy, old(entries), Clear)
    {
      entries := [];
    }

    method EvictKey(key: string)
      requires Valid()
      modifies this`entries
      ensures Valid() && entries == Apply(policy, old(entries), Evict(key))
    {
      ApplyKeepsValid(policy, entries, Evict(key));
      entries := Delete(entries, key);
    }

    method GetValue(key: string, now: int) returns (answer: Option<V>)
      requires Valid()
      modifies this`entries
      ensures Valid() && entries == Apply(policy, old(entries), Get(key, now))
      ensures answer == Answer(old(entries), key, now)
    {
      ApplyKeepsValid(policy, entries, Get(key, now));
      var entry := Lookup(entries, key);
      if entry.None? { return None; }
      if now >= entry.value.notAfter {
        entries := Delete(entries, key);
        return None;
      }
      entries := Delete(entries, key);
      entries := entries + [Pair(key, entry.value)];
      return Some(entry.value.value);
    }

    method SetValue(key: string, value: V, now: int, expiresAt: int)
      requires Valid()
      modifies this`entries
      ensures Valid() && entries == Apply(policy, old(entries), Set(key, now, value, expiresAt))
      // What is stored is answered until the earlier of its two expiries.
      ensures policy.maxEntries > 0 && policy.ttl > 0 && now < expiresAt ==>
                forall t :: Answer(entries, key, t)
                            == if t < now + policy.ttl && t < expiresAt then Some(value) else None
    {
      ApplyKeepsValid(policy, entries, Set(key, now, value, expiresAt));
      if policy.maxEntries > 0 && policy.ttl > 0 && now < expiresAt {
        forall t
          ensures Answer(Apply(policy, entries, Set(key, now, value, expiresAt)), key, t)
                  == if t < now + policy.ttl && t < expiresAt then Some(value) else None
        {
          SetIsAnswered(policy, entries, key, value, now, expiresAt, t);
        }
      }
      var notAfter := if now + policy.ttl <= expiresAt then now + policy.ttl else expiresAt;
      if notAfter <= now { return; }
      entries := Delete(entries, key);
      entries := entries + [Pair(key, Cached(notAfter, value))];
      if |entries| > policy.maxEntries {
        entries := entries[1..];
      }
    }
  }

  lemma ApplyKeepsValid<V>(policy: Policy, m: Cache<V>, op: Op<V>)
    requires Distinct(m) && |m| <= policy.maxEntries
    ensures Distinct(Apply(policy, m, op)) && |Apply(policy, m, op)| <= policy.maxEntries
  {
    if Hit(m, op) {
      RenewEntries(m, op.key, Lookup(m, op.key).value);
      LookupIsEntry(m, op.key);
    } else if Expires(m, op) || op.Evict? {
      DeleteEntries(m, op.key);
    } else if Accepted(policy, op) {
      var e := Cached(NotAfter(policy, op.now, op.expiresAt), op.value);
      RenewEntries(m, op.key, e);
      BoundedEntries(Renew(m, op.key, e), policy.maxEntries);
    }
  }

  // ---------- whole histories ----------

  function Run<V>(policy: Policy, m: Cache<V>, ops: seq<Op<V>>): Cache<V> {
    if ops == [] then m
    else Apply(policy, Run(policy, m, ops[..|ops| - 1]), ops[|ops| - 1])
  }

  lemma {:induction false} RunKeepsValid<V>(policy: Policy, m: Cache<V>, ops: seq<Op<V>>)
    requires Distinct(m) && |m| <= policy.maxEntries
    ensures Distinct(Run(policy, m, ops)) && |Run(policy, m, ops)| <= policy.maxEntries
  {
    if ops != [] {
      RunKeepsValid(policy, m, ops[..|ops| - 1]);
      ApplyKeepsValid(policy, Run(policy, m, ops[..|ops| - 1]), ops[|ops| - 1]);
    }
  }

  /** What a later call may do to end or replace an entry of `key` that lives until `notAfter`. */
  ghost predicate Ends<V>(policy: Policy, op: Op<V>, key: string, notAfter: int) {
    match op
    case Get(k, now) => k == key && now >= notAfter
    case Set(k, _, _, _) => k == key && Accepted(policy, op)
    case Evict(k) => k == key
    case Clear => true
  }

  /** Call `i` is the accepted set of `key` that still stands at the end of the history. */
  ghost predicate Standing<V>(policy: Policy, ops: seq<Op<V>>, i: nat, key: string) {
    && i < |ops|
    && Accepted(policy, ops[i]) && ops[i].key == key
    && forall j :: i < j < |ops| ==> !Ends(policy, ops[j], key, NotAfter(policy, ops[i].now, ops[i].expiresAt))
  }

  lemma {:induction false} EntryIsStandingSet<V>(policy: Policy, ops: seq<Op<V>>, key: string) returns (i: nat)
    requires Lookup(Run(policy, [], ops), key).Some?
    ensures Standing(policy, ops, i, key)
    ensures Lookup(Run(policy, [], ops), key).value
            == Cached(NotAfter(policy, ops[i].now, ops[i].expiresAt), ops[i].value)
  {
    var n := |ops| - 1;
    var before, op := Run(policy, [], ops[..n]), ops[n];
    RunKeepsValid(policy, [], ops[..n]);
    ApplyLookup(policy, before, op, key);
    if op.Set? && op.key == key && Accepted(policy, op) {
      i := n;
    } else {
      i := EntryIsStandingSet(policy, ops[..n], key);
      assert forall j :: i < j < n ==> ops[..n][j] == ops[j];
    }
  }

  /** How one call changes what a key maps to. */
  lemma ApplyLookup<V>(policy: Policy, m: Cache<V>, op: Op<V>, key: string)
    requires Distinct(m) && |m| <= policy.maxEntries
    requires Lookup(Apply(policy, m, op), key).Some?
    ensures if op.Set? && op.key == key && Accepted(policy, op)
            then Lookup(Apply(policy, m, op), key).value == Cached(NotAfter(policy, op.now, op.expiresAt), op.value)
            else
              && Lookup(m, key) == Lookup(Apply(policy, m, op), key)
              && !Ends(policy, op, key, Lookup(m, key).value.notAfter)
  {
    if Hit(m, op) {
      RenewEntries(m, op.key, Lookup(m, op.key).value);
    } else if Expires(m, op) || op.Evict? {
      LookupDelete(m, op.key, key);
    } else if Accepted(policy, op) {
      var e := Cached(NotAfter(policy, op.now, op.expiresAt), op.value);
      RenewEntries(m, op.key, e);
      BoundedEntries(Renew(m, op.key, e), policy.maxEntries);
    }
  }

  /** Every hit returns the latest accepted set that nothing ended since, before both its expiries. */
  lemma HitIsLatestAcceptedSet<V>(policy: Policy, ops: seq<Op<V>>, key: string, now: int)
    requires Answer(Run(policy, [], ops), key, now).Some?
    ensures exists i: nat ::
      && Standing(policy, ops, i, key)
      && Answer(Run(policy, [], ops), key, now) == Some(ops[i].value)
      && now < ops[i].now + policy.ttl
      && now < ops[i].expiresAt
  {
    var i := EntryIsStandingSet(policy, ops, key);
  }

  // ---------- stack inclusion ----------

  /** `s` keeps some of the entries of `l`, in the same order. */
  ghost predicate Subsequence<T>(s: seq<T>, l: seq<T>) {
    if s == [] then true
    else if l == [] then false
    else if s[0] == l[0] then Subsequence(s[1..], l[1..])
    else Subsequence(s, l[1..])
  }

  lemma {:induction false} SubsequenceTail<T>(s: seq<T>, l: seq<T>)
    requires Subsequence(s, l) && s != []
    ensures l != [] && Subsequence(s[1..], l[1..])
    decreases |l|
  {
    if s[0] != l[0] {
      SubsequenceTail(s, l[1..]);
      SubsequenceWeaken(s[1..], l[1..]);
    }
  }

  lemma {:induction false} SubsequenceWeaken<T>(s: seq<T>, l: seq<T>)
    requires l != [] && Subsequence(s, l[1..])
    ensures Subsequence(s, l)
    decreases |l|
  {
    if s != [] && s[0] == l[0] {
      SubsequenceTail(s, l[1..]);
      SubsequenceWeaken(s[1..], l[1..]);
    }
  }

  /** A newest entry may be added to both, or to the larger one only. */
  lemma {:induction false} SubsequenceAppend<T>(s: seq<T>, l: seq<T>, x: T)
    requires Subsequence(s, l)
    ensures Subsequence(s + [x], l + [x])
    ensures Subsequence(s, l + [x])
  {
    if l != [] {
      assert (l + [x])[1..] == l[1..] + [x];
      if s != [] && s[0] == l[0] {
        assert (s + [x])[1..] == s[1..] + [x];
        SubsequenceAppend(s[1..], l[1..], x);
      } else {
        SubsequenceAppend(s, l[1..], x);
        if s == [] { assert s + [x] == [x] && Subsequence([], l[1..] + [x]); }
      }
    } else {
      assert s + [x] == l + [x] == [x];
    }
  }

  lemma {:induction false} SubsequenceDelete<V>(s: Cache<V>, l: Cache<V>, k: string)
    requires Subsequence(s, l)
    ensures Subsequence(Delete(s, k), Delete(l, k))
  {
    if l != [] {
      var d := Delete(l[1..], k);
      if s != [] && s[0] == l[0] {
        SubsequenceDelete(s[1..], l[1..], k);
        assert l[0].key != k ==> ([l[0]] + d)[1..] == d && ([s[0]] + Delete(s[1..], k))[1..] == Delete(s[1..], k);
      } else {
        SubsequenceDelete(s, l[1..], k);
        if l[0].key != k {
          assert ([l[0]] + d)[1..] == d;
          SubsequenceWeaken(Delete(s, k), [l[0]] + d);
        }
      }
    }
  }

  lemma {:induction false} SubsequenceEntries<V>(s: Cache<V>, l: Cache<V>)
    requires Subsequence(s, l) && Distinct(l)
    ensures Distinct(s) && Keys(s) <= Keys(l) && |s| <= |l|
    ensures forall k :: Lookup(s, k).Some? ==> Lookup(l, k) == Lookup(s, k)
  {
    if s != [] {
      var rest := if s[0] == l[0] then s[1..] else s;
      SubsequenceEntries(rest, l[1..]);
      KeysCons(l);
      assert l[0].key !in Keys(l[1..]);
      if s[0] == l[0] {
        DistinctUncons(s[0], rest);
        assert s == [s[0]] + rest;
      } else {
        forall k | Lookup(s, k).Some? ensures Lookup(l, k) == Lookup(s, k) {
          LookupIsEntry(s, k);
        }
      }
    }
  }

  /** The invariant of two caches of different size fed the same calls. */
  ghost predicate Included<V>(small: Policy, large: Policy, s: Cache<V>, l: Cache<V>) {
    && Distinct(l) && |l| <= large.maxEntries
    && |s| <= small.maxEntries
    && Subsequence(s, l)
    && |l| - |s| <= large.maxEntries - small.maxEntries
  }

  lemma {:induction false} RenewIncluded<V>(s: Cache<V>, l: Cache<V>, k: string, e: Cached<V>)
    requires Subsequence(s, l) && Distinct(l)
    ensures Subsequence(Renew(s, k, e), Renew(l, k, e))
    ensures |Renew(l, k, e)| - |Renew(s, k, e)| <= |l| - |s|
  {
    SubsequenceDelete(s, l, k);
    SubsequenceAppend(Delete(s, k), Delete(l, k), Pair(k, e));
    SubsequenceEntries(s, l);
    RenewEntries(s, k, e);
    RenewEntries(l, k, e);
  }

  lemma {:induction false} BoundedIncluded<V>(small: Policy, large: Policy, s: Cache<V>, l: Cache<V>)
    requires small.maxEntries <= large.maxEntries
    requires Subsequence(s, l) && |l| - |s| <= large.maxEntries - small.maxEntries
    ensures Subsequence(Bounded(s, small.maxEntries), Bounded(l, large.maxEntries))
    ensures |Bounded(l, large.maxEntries)| - |Bounded(s, small.maxEntries)| <= large.maxEntries - small.maxEntries
  {
    if |s| > small.maxEntries {
      SubsequenceTail(s, l);
      if |l| <= large.maxEntries { SubsequenceWeaken(s[1..], l); }
    }
  }

  lemma ApplyKeepsIncluded<V>(small: Policy, large: Policy, s: Cache<V>, l: Cache<V>, op: Op<V>)
    requires small.ttl == large.ttl && small.maxEntries <= large.maxEntries
    requires Included(small, large, s, l)
    ensures Included(small, large, Apply(small, s, op), Apply(large, l, op))
  {
    SubsequenceEntries(s, l);
    ApplyKeepsValid(small, s, op);
    ApplyKeepsValid(large, l, op);
    if Hit(l, op) {
      var e := Lookup(l, op.key).value;
      if Lookup(s, op.key).Some? {
        RenewIncluded(s, l, op.key, e);
      } else {
        DeleteAbsent(s, op.key);
        SubsequenceDelete(s, l, op.key);
        SubsequenceAppend(s, Delete(l, op.key), Pair(op.key, e));
        RenewEntries(l, op.key, e);
        LookupIsEntry(l, op.key);
      }
    } else if Expires(l, op) || op.Evict? {
      SubsequenceDelete(s, l, op.key);
      DeleteEntries(s, op.key);
      DeleteEntries(l, op.key);
      if Lookup(s, op.key).None? { DeleteAbsent(s, op.key); }
    } else if Accepted(large, op) {
      var e := Cached(NotAfter(large, op.now, op.expiresAt), op.value);
      RenewIncluded(s, l, op.key, e);
      BoundedIncluded(small, large, Renew(s, op.key, e), Renew(l, op.key, e));
    }
  }

  /** Stack inclusion: at every moment the smaller cache is a subsequence of the larger one. */
  lemma {:induction false} StackInclusion<V>(small: Policy, large: Policy, ops: seq<Op<V>>)
    requires small.ttl == large.ttl && small.maxEntries <= large.maxEntries
    ensures Included(small, large, Run(small, [], ops), Run(large, [], ops))
  {
    if ops != [] {
      var prefix := ops[..|ops| - 1];
      StackInclusion(small, large, prefix);
      ApplyKeepsIncluded(small, large, Run(small, [], prefix), Run(large, [], prefix), ops[|ops| - 1]);
    }
  }

  lemma SmallerHitIsLargerHit<V>(small: Policy, large: Policy, ops: seq<Op<V>>, key: string, now: int)
    requires small.ttl == large.ttl && small.maxEntries <= large.maxEntries
    requires Answer(Run(small, [], ops), key, now).Some?
    ensures Answer(Run(large, [], ops), key, now) == Answer(Run(small, [], ops), key, now)
  {
    StackInclusion(small, large, ops);
    SubsequenceEntries(Run(small, [], ops), Run(large, [], ops));
  }

  // ---------- loss to capacity ----------

  /** The entries used more recently than `key`. */
  function After<V>(m: Cache<V>, key: string): Cache<V> {
    if m == [] then [] else if m[0].key == key then m[1..] else After(m[1..], key)
  }

  /** The keys that `ops` hit or stored, starting from cache `m`. */
  ghost function Used<V>(policy: Policy, m: Cache<V>, ops: seq<Op<V>>): set<string> {
    if ops == [] then {}
    else
      var prefix, op := ops[..|ops| - 1], ops[|ops| - 1];
      Used(policy, m, prefix) +
      if Hit(Run(policy, m, prefix), op) || Accepted(policy, op) then {op.key} else {}
  }

  /** No call of `ops` shrinks the cache: nothing is evicted or found expired. */
  ghost predicate OnlyUses<V>(policy: Policy, m: Cache<V>, ops: seq<Op<V>>) {
    forall i :: 0 <= i < |ops| ==> !ops[i].Evict? && !Expires(Run(policy, m, ops[..i]), ops[i])
  }

  ghost predicate Elsewhere<V>(op: Op<V>, key: string) {
    !op.Clear? && op.key != key
  }

  lemma {:induction false} AfterDelete<V>(m: Cache<V>, key: string, other: string)
    requires key != other
    ensures After(Delete(m, other), key) == Delete(After(m, key), other)
  {
    if m != [] && m[0].key != key {
      AfterDelete(m[1..], key, other);
      assert ([m[0]] + Delete(m[1..], other))[1..] == Delete(m[1..], other);
    } else if m != [] {
      assert ([m[0]] + Delete(m[1..], other))[1..] == Delete(m[1..], other);
    }
  }

  lemma {:induction false} AfterAppend<V>(m: Cache<V>, key: string, p: Pair<string, Cached<V>>)
    requires key in Keys(m)
    ensures After(m + [p], key) == After(m, key) + [p]
  {
    assert (m + [p])[1..] == m[1..] + [p];
    if m[0].key != key {
      KeysCons(m);
      AfterAppend(m[1..], key, p);
    }
  }

  lemma {:induction false} AfterIsSuffix<V>(m: Cache<V>, key: string)
    requires Distinct(m)
    ensures Distinct(After(m, key)) && Keys(After(m, key)) <= Keys(m)
    ensures key in Keys(m) ==> |After(m, key)| < |m|
  {
    if m != [] {
      KeysCons(m);
      if m[0].key != key { AfterIsSuffix(m[1..], key); }
    }
  }

  lemma RenewAfter<V>(m: Cache<V>, key: string, other: string, e: Cached<V>)
    requires Distinct(m) && key in Keys(m) && key != other
    ensures Distinct(Renew(m, other, e)) && key in Keys(Renew(m, other, e))
    ensures Keys(After(Renew(m, other, e), key)) == Keys(After(m, key)) + {other}
  {
    AfterIsSuffix(m, key);
    DeleteEntries(m, other);
    DeleteEntries(After(m, key), other);
    AfterDelete(m, key, other);
    AfterAppend(Delete(m, other), key, Pair(other, e));
    KeysAppend(After(Delete(m, other), key), Pair(other, e));
    RenewEntries(m, other, e);
  }

  /** `used` covers what is newer than `key`; if `key` is gone it was crowded out. */
  ghost predicate Crowding<V>(maxEntries: nat, m: Cache<V>, key: string, used: set<string>, exact: bool) {
    if key in Keys(m) then
      Keys(After(m, key)) <= used && (exact ==> Keys(After(m, key)) == used)
    else
      |used| >= maxEntries
  }

  lemma ApplyKeepsCrowding<V>(policy: Policy, m: Cache<V>, op: Op<V>, key: string, used: set<string>, exact: bool)
    requires Distinct(m) && |m| <= policy.maxEntries && Elsewhere(op, key)
    requires exact ==> !op.Evict? && !Expires(m, op)
    requires Crowding(policy.maxEntries, m, key, used, exact)
    ensures Crowding(policy.maxEntries, Apply(policy, m, op), key,
                     used + if Hit(m, op) || Accepted(policy, op) then {op.key} else {}, exact)
  {
    var m' := Apply(policy, m, op);
    var used' := used + if Hit(m, op) || Accepted(policy, op) then {op.key} else {};
    SubsetSize(used, used');
    if key !in Keys(m) {
      LookupIsEntry(m, key);
      LookupIsEntry(m', key);
      if Lookup(m', key).Some? { ApplyLookup(policy, m, op, key); }
    } else if Hit(m, op) {
      RenewAfter(m, key, op.key, Lookup(m, op.key).value);
    } else if Expires(m, op) || op.Evict? {
      AfterDelete(m, key, op.key);
      AfterIsSuffix(m, key);
      DeleteEntries(m, op.key);
      DeleteEntries(After(m, key), op.key);
    } else if Accepted(policy, op) {
      var e := Cached(NotAfter(policy, op.now, op.expiresAt), op.value);
      var r := Renew(m, op.key, e);
      RenewAfter(m, key, op.key, e);
      if |r| > policy.maxEntries {
        KeysCons(r);
        if r[0].key == key {
          KeyCount(r[1..]);
          SubsetSize(Keys(r[1..]), used');
          assert key !in Keys(r[1..]);
        }
      }
    }
  }

  lemma {:induction false} RunKeepsCrowding<V>(policy: Policy, m: Cache<V>, ops: seq<Op<V>>, key: string, exact: bool)
    requires Distinct(m) && |m| <= policy.maxEntries && m != [] && m[|m| - 1].key == key
    requires forall i :: 0 <= i < |ops| ==> Elsewhere(ops[i], key)
    requires exact ==> OnlyUses(policy, m, ops)
    ensures Crowding(policy.maxEntries, Run(policy, m, ops), key, Used(policy, m, ops), exact)
  {
    if ops == [] {
      NewestHasNothingAfter(m);
    } else {
      var prefix, op := ops[..|ops| - 1], ops[|ops| - 1];
      assert forall i :: 0 <= i < |prefix| ==> prefix[..i] == ops[..i];
      RunKeepsCrowding(policy, m, prefix, key, exact);
      RunKeepsValid(policy, m, prefix);
      ApplyKeepsCrowding(policy, Run(policy, m, prefix), op, key, Used(policy, m, prefix), exact);
    }
  }

  lemma {:induction false} NewestHasNothingAfter<V>(m: Cache<V>)
    requires Distinct(m) && m != []
    ensures After(m, m[|m| - 1].key) == [] && m[|m| - 1].key in Keys(m)
  {
    if |m| > 1 {
      NewestHasNothingAfter(m[1..]);
      KeysCons(m);
    }
  }

  /** A hit or an accepted set makes its key the newest entry. */
  lemma UseMakesNewest<V>(policy: Policy, m: Cache<V>, use: Op<V>)
    requires Distinct(m) && |m| <= policy.maxEntries && policy.maxEntries > 0
    requires Hit(m, use) || Accepted(policy, use)
    ensures var r := Apply(policy, m, use);
            r != [] && r[|r| - 1].key == use.key && Distinct(r) && |r| <= policy.maxEntries
  {
    ApplyKeepsValid(policy, m, use);
    if Accepted(policy, use) {
      RenewEntries(m, use.key, Cached(NotAfter(policy, use.now, use.expiresAt), use.value));
    }
  }

  /** Calls about other keys never change what `key` maps to: they can only lose it. */
  lemma {:induction false} ElsewhereKeepsEntry<V>(policy: Policy, m: Cache<V>, ops: seq<Op<V>>, key: string)
    requires Distinct(m) && |m| <= policy.maxEntries
    requires forall i :: 0 <= i < |ops| ==> Elsewhere(ops[i], key)
    ensures Lookup(Run(policy, m, ops), key).Some? ==> Lookup(Run(policy, m, ops), key) == Lookup(m, key)
  {
    if ops != [] {
      var prefix := ops[..|ops| - 1];
      ElsewhereKeepsEntry(policy, m, prefix, key);
      RunKeepsValid(policy, m, prefix);
      if Lookup(Run(policy, m, ops), key).Some? {
        ApplyLookup(policy, Run(policy, m, prefix), ops[|ops| - 1], key);
      }
    }
  }

  /**
   * Least recently used, exactly: after a use of a key, calls about other keys can cost it its place only once
   * they used `maxEntries` distinct keys, and if nothing else leaves the cache in between they then do.
   * A key that keeps its place keeps its entry.
   */
  lemma {:induction false} CapacityLoss<V>(policy: Policy, m: Cache<V>, use: Op<V>, ops: seq<Op<V>>)
    requires Distinct(m) && |m| <= policy.maxEntries
    requires Hit(m, use) || Accepted(policy, use)
    requires forall i :: 0 <= i < |ops| ==> Elsewhere(ops[i], use.key)
    ensures var used := Apply(policy, m, use); var r := Run(policy, used, ops);
            && (Lookup(r, use.key).None? ==> |Used(policy, used, ops)| >= policy.maxEntries)
            && (Lookup(r, use.key).Some? ==> Lookup(r, use.key) == Lookup(used, use.key))
            && (OnlyUses(policy, used, ops) ==>
                  (Lookup(r, use.key).None? <==> |Used(policy, used, ops)| >= policy.maxEntries))
  {
    var used, key := Apply(policy, m, use), use.key;
    var r := Run(policy, used, ops);
    ApplyKeepsValid(policy, m, use);
    ElsewhereKeepsEntry(policy, used, ops, key);
    RunKeepsValid(policy, used, ops);
    if policy.maxEntries > 0 {
      UseMakesNewest(policy, m, use);
      RunKeepsCrowding(policy, used, ops, key, false);
      LookupIsEntry(r, key);
      if OnlyUses(policy, used, ops) && key in Keys(r) {
        RunKeepsCrowding(policy, used, ops, key, true);
        AfterIsSuffix(r, key);
        KeyCount(After(r, key));
      }
    }
  }

  // ---------- when a get hits ----------

  /** A set whose entry lives at all, by the lifetime and the credential's own expiry. */
  predicate LiveSet<V>(policy: Policy, op: Op<V>) {
    op.Set? && op.now < op.now + policy.ttl && op.now < op.expiresAt
  }

  /** From the moment a set stores it until the earlier of its two expiries, and no longer, a value is answered. */
  lemma SetIsAnswered<V>(policy: Policy, m: Cache<V>, key: string, value: V, now: int, expiresAt: int, t: int)
    requires Distinct(m) && |m| <= policy.maxEntries && policy.maxEntries > 0
    requires now < now + policy.ttl && now < expiresAt
    ensures Answer(Apply(policy, m, Set(key, now, value, expiresAt)), key, t)
            == if t < now + policy.ttl && t < expiresAt then Some(value) else None
    ensures forall other :: other != key ==>
              LookupOrDropped(m, key, policy.maxEntries, other,
                              Lookup(Apply(policy, m, Set(key, now, value, expiresAt)), other))
  {
    BoundedRenewEntries(m, key, Cached(NotAfter(policy, now, expiresAt), value), policy.maxEntries);
  }

  /** A set whose entry would be dead leaves the cache alone. */
  lemma DeadSetIsIgnored<V>(policy: Policy, m: Cache<V>, op: Op<V>)
    requires op.Set? && !LiveSet(policy, op)
    ensures Apply(policy, m, op) == m
  {
  }

  /** The latest set of `key` that stored anything, with no evict, clear or late get since. */
  ghost predicate LatestSet<V>(policy: Policy, ops: seq<Op<V>>, i: nat, key: string) {
    && i < |ops| && LiveSet(policy, ops[i]) && ops[i].key == key
    && forall j :: i < j < |ops| ==>
         && !(LiveSet(policy, ops[j]) && ops[j].key == key)
         && !ops[j].Clear? && !(ops[j].Evict? && ops[j].key == key)
         && !(ops[j].Get? && ops[j].key == key
               && (ops[j].now >= ops[i].now + policy.ttl || ops[j].now >= ops[i].expiresAt))
  }

  /** A get that is answered or a set that stores. */
  predicate IsUse<V>(policy: Policy, m: Cache<V>, op: Op<V>) {
    LiveSet(policy, op) || (op.Get? && Answer(m, op.key, op.now).Some?)
  }

  /** A use of `key` starts afresh, a use of another key counts. */
  ghost function AfterCall<V>(policy: Policy, m: Cache<V>, op: Op<V>, key: string, used: set<string>): (r: set<string>)
    requires !op.Clear?
  {
    if !IsUse(policy, m, op) then used else if op.key == key then {} else used + {op.key}
  }

  /** The other keys used since the last use of `key`. */
  ghost function UsedSince<V>(policy: Policy, ops: seq<Op<V>>, key: string): (used: set<string>) {
    if ops == [] then {}
    else
      var prefix, op := ops[..|ops| - 1], ops[|ops| - 1];
      if op.Clear? then UsedSince(policy, prefix, key)
      else AfterCall(policy, Run(policy, [], prefix), op, key, UsedSince(policy, prefix, key))
  }

  /** Since call `i` nothing left the cache but for room. */
  ghost predicate NothingElseLeaves<V>(policy: Policy, ops: seq<Op<V>>, i: nat) {
    forall j :: i < j < |ops| ==> !ops[j].Evict? && !ops[j].Clear? && !Expires(Run(policy, [], ops[..j]), ops[j])
  }

  lemma LatestSetOfPrefix<V>(policy: Policy, ops: seq<Op<V>>, i: nat, key: string)
    requires LatestSet(policy, ops, i, key) && i < |ops| - 1
    ensures LatestSet(policy, ops[..|ops| - 1], i, key)
    ensures NothingElseLeaves(policy, ops, i) ==> NothingElseLeaves(policy, ops[..|ops| - 1], i)
  {
    var prefix := ops[..|ops| - 1];
    assert forall j :: 0 <= j < |prefix| ==> prefix[j] == ops[j] && prefix[..j] == ops[..j];
  }

  /** The latest set's entry is the only one its key can have. */
  lemma {:induction false} EntryIsLatestSet<V>(policy: Policy, ops: seq<Op<V>>, i: nat, key: string)
    requires LatestSet(policy, ops, i, key)
    ensures Lookup(Run(policy, [], ops), key).Some? ==>
              Lookup(Run(policy, [], ops), key)
              == Some(Cached(NotAfter(policy, ops[i].now, ops[i].expiresAt), ops[i].value))
  {
    var n := |ops| - 1;
    RunKeepsValid(policy, [], ops[..n]);
    if Lookup(Run(policy, [], ops), key).Some? {
      ApplyLookup(policy, Run(policy, [], ops[..n]), ops[n], key);
      if i < n {
        LatestSetOfPrefix(policy, ops, i, key);
        EntryIsLatestSet(policy, ops[..n], i, key);
      }
    }
  }

  /** A use of `key` itself leaves nothing newer; any other call of its own that ends nothing changes nothing. */
  lemma OwnCallKeepsCrowding<V>(policy: Policy, m: Cache<V>, op: Op<V>, key: string, used: set<string>, exact: bool)
    requires Distinct(m) && |m| <= policy.maxEntries && !op.Clear? && !op.Evict? && op.key == key && !Expires(m, op)
    requires !IsUse(policy, m, op) ==> Crowding(policy.maxEntries, m, key, used, exact)
    ensures Crowding(policy.maxEntries, Apply(policy, m, op), key, if IsUse(policy, m, op) then {} else used, exact)
  {
    if IsUse(policy, m, op) && policy.maxEntries > 0 {
      UseMakesNewest(policy, m, op);
      NewestHasNothingAfter(Apply(policy, m, op));
    } else if IsUse(policy, m, op) {
      ApplyKeepsValid(policy, m, op);
      assert Keys(Apply(policy, m, op)) == {};
    }
  }

  lemma CallKeepsCrowding<V>(policy: Policy, m: Cache<V>, op: Op<V>, key: string, used: set<string>, exact: bool)
    requires Distinct(m) && |m| <= policy.maxEntries && !op.Clear?
    requires op.key == key || exact ==> !op.Evict? && !Expires(m, op)
    requires (op.key == key && IsUse(policy, m, op)) || Crowding(policy.maxEntries, m, key, used, exact)
    ensures Crowding(policy.maxEntries, Apply(policy, m, op), key, AfterCall(policy, m, op, key, used), exact)
  {
    if op.key == key {
      OwnCallKeepsCrowding(policy, m, op, key, used, exact);
    } else {
      ApplyKeepsCrowding(policy, m, op, key, used, exact);
    }
  }

  lemma LatestEntryStays<V>(policy: Policy, ops: seq<Op<V>>, i: nat, key: string)
    requires LatestSet(policy, ops, i, key) && i < |ops| - 1
    ensures var op := ops[|ops| - 1];
            !op.Clear? && (op.key == key ==> !op.Evict? && !Expires(Run(policy, [], ops[..|ops| - 1]), op))
  {
    LatestSetOfPrefix(policy, ops, i, key);
    EntryIsLatestSet(policy, ops[..|ops| - 1], i, key);
  }

  lemma {:induction false} LatestSetIsCrowded<V>(policy: Policy, ops: seq<Op<V>>, i: nat, key: string, exact: bool)
    requires LatestSet(policy, ops, i, key) && (exact ==> NothingElseLeaves(policy, ops, i))
    ensures Crowding(policy.maxEntries, Run(policy, [], ops), key, UsedSince(policy, ops, key), exact)
  {
    var n := |ops| - 1;
    RunKeepsValid(policy, [], ops[..n]);
    if i < n {
      LatestSetOfPrefix(policy, ops, i, key);
      LatestSetIsCrowded(policy, ops[..n], i, key, exact);
      LatestEntryStays(policy, ops, i, key);
    }
    CallKeepsCrowding(policy, Run(policy, [], ops[..n]), ops[n], key, UsedSince(policy, ops[..n], key), exact);
  }

  /**
   * When a get hits. It answers the value of the latest set of its key, before both expiries, if fewer than
   * `maxEntries` other keys were used since the key's own last use; exactly then if nothing else left the cache.
   */
  lemma GetHitsLatestSet<V>(policy: Policy, ops: seq<Op<V>>, i: nat, key: string, t: int)
    requires LatestSet(policy, ops, i, key) && t < ops[i].now + policy.ttl && t < ops[i].expiresAt
    ensures Answer(Run(policy, [], ops), key, t) in {None, Some(ops[i].value)}
    ensures |UsedSince(policy, ops, key)| < policy.maxEntries ==>
              Answer(Run(policy, [], ops), key, t) == Some(ops[i].value)
    ensures NothingElseLeaves(policy, ops, i) ==>
              (Answer(Run(policy, [], ops), key, t).Some? <==> |UsedSince(policy, ops, key)| < policy.maxEntries)
  {
    var m := Run(policy, [], ops);
    RunKeepsValid(policy, [], ops);
    EntryIsLatestSet(policy, ops, i, key);
    LatestSetIsCrowded(policy, ops, i, key, false);
    LookupIsEntry(m, key);
    if NothingElseLeaves(policy, ops, i) && key in Keys(m) {
      LatestSetIsCrowded(policy, ops, i, key, true);
      AfterIsSuffix(m, key);
      KeyCount(After(m, key));
    }
  }

  /** And without such a set, or past either of its expiries, no get hits. */
  lemma GetMissesOtherwise<V>(policy: Policy, ops: seq<Op<V>>, key: string, t: int)
    requires forall i: nat :: LatestSet(policy, ops, i, key) ==> t >= ops[i].now + policy.ttl || t >= ops[i].expiresAt
    ensures Answer(Run(policy, [], ops), key, t).None?
  {
    if Answer(Run(policy, [], ops), key, t).Some? {
      var i := EntryIsStandingSet(policy, ops, key);
      assert LatestSet(policy, ops, i, key);
    }
  }
}
