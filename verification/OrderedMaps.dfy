/** Insertion-ordered maps with distinct keys, as the caches and queues of the server use them. */
module OrderedMaps {

  datatype Option<+T> = None | Some(value: T)

  datatype Pair<+K, +V> = Pair(key: K, value: V)

  /** The entries of an insertion-ordered map, oldest first. */
  type Entries<K, V> = seq<Pair<K, V>>

  ghost predicate Distinct<K, V>(m: Entries<K, V>) {
    forall i, j :: 0 <= i < j < |m| ==> m[i].key != m[j].key
  }

  ghost function Keys<K, V>(m: Entries<K, V>): (keys: set<K>) {
    set i | 0 <= i < |m| :: m[i].key
  }

  function Lookup<K(==), V>(m: Entries<K, V>, k: K): (found: Option<V>) {
    if m == [] then None
    else if m[0].key == k then Some(m[0].value)
    else Lookup(m[1..], k)
  }

  function Delete<K(==), V>(m: Entries<K, V>, k: K): (r: Entries<K, V>)
    ensures |r| <= |m|
  {
    if m == [] then []
    else if m[0].key == k then Delete(m[1..], k)
    else [m[0]] + Delete(m[1..], k)
  }

  /** Delete then set: the key becomes the newest entry. */
  function Renew<K(==), V>(m: Entries<K, V>, k: K, v: V): (r: Entries<K, V>)
  {
    Delete(m, k) + [Pair(k, v)]
  }

  /** Set without a delete: an existing key keeps its place. */
  function Put<K(==), V>(m: Entries<K, V>, k: K, v: V): (r: Entries<K, V>)
  {
    if m == [] then [Pair(k, v)]
    else if m[0].key == k then [Pair(k, v)] + m[1..]
    else [m[0]] + Put(m[1..], k, v)
  }

  /** The shared size bound: one entry too many drops the oldest. */
  function Bounded<K, V>(m: Entries<K, V>, maxEntries: nat): (r: Entries<K, V>)
    ensures |r| <= |m|
    ensures |m| <= maxEntries + 1 ==> |r| <= maxEntries
  {
    if |m| > maxEntries then m[1..] else m
  }

  // ---------- facts ----------

  lemma {:induction false} LookupIsEntry<K, V>(m: Entries<K, V>, k: K)
    ensures Lookup(m, k).Some? ==> exists i :: 0 <= i < |m| && m[i] == Pair(k, Lookup(m, k).value)
    ensures Lookup(m, k).Some? <==> k in Keys(m)
  {
    if m != [] && m[0].key != k {
      LookupIsEntry(m[1..], k);
      if Lookup(m[1..], k).Some? {
        var j :| 0 <= j < |m[1..]| && m[1..][j] == Pair(k, Lookup(m[1..], k).value);
        assert m[j + 1] == Pair(k, Lookup(m, k).value);
      }
      assert k in Keys(m) ==> k in Keys(m[1..]) by {
        if k in Keys(m) {
          var i :| 0 <= i < |m| && m[i].key == k;
          assert m[1..][i - 1].key == k;
        }
      }
      assert k in Keys(m[1..]) ==> k in Keys(m);
    } else if m != [] {
      assert m[0] == Pair(k, Lookup(m, k).value);
    }
  }

  lemma {:induction false} DeleteEntries<K, V>(m: Entries<K, V>, k: K)
    requires Distinct(m)
    ensures Distinct(Delete(m, k))
    ensures Keys(Delete(m, k)) == Keys(m) - {k}
    ensures |Delete(m, k)| == if k in Keys(m) then |m| - 1 else |m|
  {
    if m != [] {
      var rest := m[1..];
      DistinctCons(m);
      DeleteEntries(rest, k);
      KeysCons(m);
      if m[0].key != k {
        DistinctUncons(m[0], Delete(rest, k));
      }
    }
  }

  lemma DistinctCons<K, V>(m: Entries<K, V>)
    requires m != [] && Distinct(m)
    ensures Distinct(m[1..]) && m[0].key !in Keys(m[1..])
  {
  }

  lemma DistinctUncons<K, V>(p: Pair<K, V>, rest: Entries<K, V>)
    requires Distinct(rest) && p.key !in Keys(rest)
    ensures Distinct([p] + rest) && Keys([p] + rest) == {p.key} + Keys(rest)
  {
    var m := [p] + rest;
    assert m[1..] == rest;
    KeysCons(m);
    forall i, j | 0 <= i < j < |m| ensures m[i].key != m[j].key {
      assert m[j] == rest[j - 1] && rest[j - 1].key in Keys(rest);
    }
  }

  lemma KeysCons<K, V>(m: Entries<K, V>)
    requires m != []
    ensures Keys(m) == {m[0].key} + Keys(m[1..])
  {
  }

  lemma KeysAppend<K, V>(m: Entries<K, V>, p: Pair<K, V>)
    ensures Keys(m + [p]) == Keys(m) + {p.key}
  {
    var r := m + [p];
    forall k | k in Keys(m) + {p.key} ensures k in Keys(r) {
      if k in Keys(m) {
        var i :| 0 <= i < |m| && m[i].key == k;
        assert r[i].key == k;
      } else {
        assert r[|m|].key == k;
      }
    }
  }

  lemma {:induction false} LookupDelete<K, V>(m: Entries<K, V>, k: K, other: K)
    ensures Lookup(Delete(m, k), other) == if other == k then None else Lookup(m, other)
  {
    if m != [] {
      LookupDelete(m[1..], k, other);
      if m[0].key != k {
        assert ([m[0]] + Delete(m[1..], k))[1..] == Delete(m[1..], k);
      }
    }
  }

  lemma {:induction false} LookupAppend<K, V>(m: Entries<K, V>, p: Pair<K, V>, k: K)
    ensures Lookup(m + [p], k) ==
            if Lookup(m, k).Some? then Lookup(m, k) else if p.key == k then Some(p.value) else None
  {
    if m == [] {
      assert m + [p] == [p];
    } else {
      assert (m + [p])[1..] == m[1..] + [p];
      LookupAppend(m[1..], p, k);
    }
  }

  lemma RenewEntries<K, V>(m: Entries<K, V>, k: K, v: V)
    requires Distinct(m)
    ensures Distinct(Renew(m, k, v))
    ensures Keys(Renew(m, k, v)) == Keys(m) + {k}
    ensures |Renew(m, k, v)| == if k in Keys(m) then |m| else |m| + 1
    ensures forall other :: Lookup(Renew(m, k, v), other) == if other == k then Some(v) else Lookup(m, other)
  {
    DeleteEntries(m, k);
    var d := Delete(m, k);
    KeysAppend(d, Pair(k, v));
    assert forall i :: 0 <= i < |d| ==> d[i].key in Keys(d);
    forall other ensures Lookup(Renew(m, k, v), other) == if other == k then Some(v) else Lookup(m, other) {
      LookupDelete(m, k, other);
      LookupAppend(d, Pair(k, v), other);
    }
  }

  /** Dropping the oldest entry loses that key and no other. */
  lemma BoundedEntries<K, V>(m: Entries<K, V>, maxEntries: nat)
    requires Distinct(m)
    ensures Distinct(Bounded(m, maxEntries))
    ensures forall k :: Lookup(Bounded(m, maxEntries), k) ==
                        if |m| > maxEntries && m[0].key == k then None else Lookup(m, k)
  {
    if |m| > maxEntries {
      assert Distinct(m[1..]);
      KeysCons(m);
      LookupIsEntry(m[1..], m[0].key);
      assert m[0].key !in Keys(m[1..]);
    }
  }

  /** A bounded renewal stores the key as the newest entry and drops at most the oldest other one. */
  lemma BoundedRenewEntries<K, V>(m: Entries<K, V>, k: K, v: V, maxEntries: nat)
    requires Distinct(m) && |m| <= maxEntries && maxEntries > 0
    ensures var r := Bounded(Renew(m, k, v), maxEntries);
            && Distinct(r) && |r| <= maxEntries && r != [] && r[|r| - 1] == Pair(k, v) && Lookup(r, k) == Some(v)
    ensures forall other :: other != k ==>
              LookupOrDropped(m, k, maxEntries, other, Lookup(Bounded(Renew(m, k, v), maxEntries), other))
  {
    var renewed := Renew(m, k, v);
    RenewEntries(m, k, v);
    BoundedEntries(renewed, maxEntries);
    if |renewed| > maxEntries {
      LookupIsEntry(m, k);
      DeleteAbsent(m, k);
      assert renewed == m + [Pair(k, v)];
    }
    assert |renewed| > 1 ==> renewed[0].key != renewed[|renewed| - 1].key;
  }

  /** An entry is as it was, or it was the oldest of a full map that took in a new key. */
  ghost predicate LookupOrDropped<K, V>(m: Entries<K, V>, k: K, maxEntries: nat, other: K, kept: Option<V>) {
    kept == Lookup(m, other) || (kept.None? && |m| == maxEntries && m != [] && m[0].key == other && k !in Keys(m))
  }

  lemma {:induction false} PutEntries<K, V>(m: Entries<K, V>, k: K, v: V)
    requires Distinct(m)
    ensures Distinct(Put(m, k, v))
    ensures Keys(Put(m, k, v)) == Keys(m) + {k}
    ensures forall other :: Lookup(Put(m, k, v), other) == if other == k then Some(v) else Lookup(m, other)
  {
    if m == [] {
      assert Keys(Put(m, k, v)) == {k} by { assert Put(m, k, v)[0].key == k; }
    } else {
      var rest := m[1..];
      assert Distinct(rest);
      KeysCons(m);
      assert m[0].key !in Keys(rest);
      if m[0].key == k {
        DistinctUncons(Pair(k, v), rest);
        assert ([Pair(k, v)] + rest)[1..] == rest;
      } else {
        PutEntries(rest, k, v);
        DistinctUncons(m[0], Put(rest, k, v));
        assert ([m[0]] + Put(rest, k, v))[1..] == Put(rest, k, v);
      }
    }
  }

  /** A map with a bounded size holds no more keys than entries. */
  lemma {:induction false} KeyCount<K, V>(m: Entries<K, V>)
    requires Distinct(m)
    ensures |Keys(m)| == |m|
  {
    if m == [] {
      assert Keys(m) == {};
    } else {
      assert Distinct(m[1..]);
      KeysCons(m);
      KeyCount(m[1..]);
      assert m[0].key !in Keys(m[1..]);
    }
  }

  lemma {:induction false} DeleteMembers<K, V>(m: Entries<K, V>, k: K)
    ensures forall e :: e in Delete(m, k) ==> e in m
  {
    if m != [] { DeleteMembers(m[1..], k); }
  }

  lemma {:induction false} DeleteAbsent<K, V>(m: Entries<K, V>, k: K)
    requires Lookup(m, k).None?
    ensures Delete(m, k) == m
  {
    if m != [] {
      DeleteAbsent(m[1..], k);
      assert m == [m[0]] + m[1..];
    }
  }
}
