/** The conformance ledger's depth-first search for dependency cycles. */
module CycleDetection {

  type Id = string

  /** Known requirements and their `depends_on` lists; a list may name unknown ids. */
  type Ledger = map<Id, seq<Id>>

  datatype CycleError = CycleError(location: Id, walk: seq<Id>)

  // ---------- cycles ----------

  /** A dependency edge between two known requirements. */
  ghost predicate Edge(g: Ledger, a: Id, b: Id) {
    a in g && b in g && b in g[a]
  }

  ghost predicate Walk(g: Ledger, w: seq<Id>) {
    forall i :: 0 <= i < |w| - 1 ==> Edge(g, w[i], w[i + 1])
  }

  ghost predicate ClosedWalk(g: Ledger, w: seq<Id>) {
    |w| >= 2 && w[0] == w[|w| - 1] && Walk(g, w)
  }

  ghost predicate HasCycle(g: Ledger) {
    exists w :: ClosedWalk(g, w)
  }

  // ---------- finishing order ----------

  /** Every known dependency of a finished requirement finished before it. */
  ghost predicate Finished(g: Ledger, order: seq<Id>) {
    forall i, d :: 0 <= i < |order| && Edge(g, order[i], d) ==> d in order[..i]
  }

  /** A walk from a finished requirement stays finished and ends no later than it starts. */
  lemma {:induction false} WalkGoesBack(g: Ledger, order: seq<Id>, w: seq<Id>, i: nat)
    requires Finished(g, order) && Walk(g, w) && w != []
    requires i < |order| && order[i] == w[0]
    ensures |w| > 1 ==> exists j :: 0 <= j < i && order[j] == w[|w| - 1]
  {
    if |w| > 1 {
      assert Edge(g, w[0], w[1]);
      assert w[1] in order[..i];
      var k :| 0 <= k < i && order[..i][k] == w[1];
      forall n | 0 <= n < |w[1..]| - 1 ensures Edge(g, w[1..][n], w[1..][n + 1]) {
        assert Edge(g, w[n + 1], w[n + 2]);
      }
      WalkGoesBack(g, order, w[1..], k);
    }
  }

  lemma FinishOne(g: Ledger, order: seq<Id>, id: Id)
    requires Finished(g, order) && forall d :: Edge(g, id, d) ==> d in order
    ensures Finished(g, order + [id])
  {
    var r := order + [id];
    forall i, d | 0 <= i < |r| && Edge(g, r[i], d) ensures d in r[..i] {
      assert i < |order| ==> r[..i] == order[..i];
      assert i == |order| ==> r[..i] == order;
    }
  }

  /** If everything known finished in such an order, there is no cycle. */
  lemma FinishedHasNoCycle(g: Ledger, order: seq<Id>)
    requires Finished(g, order) && forall id :: id in g ==> id in order
    ensures !HasCycle(g)
  {
    if HasCycle(g) {
      var w :| ClosedWalk(g, w);
      assert Edge(g, w[0], w[1]);
      var first := FirstIndex(order, w[0]);
      WalkGoesBack(g, order, w, first);
    }
  }

  function FirstIndex(s: seq<Id>, x: Id): (i: nat)
    requires x in s
    ensures i < |s| && s[i] == x && x !in s[..i]
  {
    if s[0] == x then 0
    else
      assert s == [s[0]] + s[1..];
      var i := FirstIndex(s[1..], x);
      assert s[..i + 1] == [s[0]] + s[1..][..i];
      i + 1
  }

  // ---------- the search ----------

  class Search {
    const ledger: Ledger
    var visiting: set<Id>
    var visited: set<Id>
    var errors: seq<CycleError>
    /** Finished requirements, oldest first. */
    ghost var order: seq<Id>

    constructor (ledger: Ledger)
      ensures this.ledger == ledger && visiting == {} && visited == {} && errors == [] && order == []
    {
      this.ledger := ledger;
      visiting, visited, errors, order := {}, {}, [], [];
    }

    ghost predicate Valid()
      reads this
    {
      && visiting <= ledger.Keys && visited <= ledger.Keys
      && visiting !! visited
      && (forall id :: id in visited <==> id in order)
      && (errors == [] ==> Finished(ledger, order))
      && (forall e :: e in errors ==> ClosedWalk(ledger, e.walk) && e.walk[0] == e.location)
    }

    /** `path` holds exactly the requirements being visited, each depending on the next and the last on `id`. */
    ghost predicate OnPath(id: Id, path: seq<Id>)
      reads this
    {
      && id in ledger
      && (forall x :: x in visiting <==> x in path)
      && Walk(ledger, path + [id])
    }

    method Visit(id: Id, path: seq<Id>)
      requires Valid() && OnPath(id, path)
      modifies this
      ensures Valid() && visiting == old(visiting) && old(visited) <= visited
      ensures old(errors) <= errors
      ensures errors == old(errors) ==> id in visited
      decreases ledger.Keys - visiting
    {
      if id in visited { return; }
      if id in visiting {
        var start := FirstIndex(path, id);
        var walk := path[start..] + [id];
        assert walk == (path + [id])[start..];
        assert ClosedWalk(ledger, walk) by {
          forall i | 0 <= i < |walk| - 1 ensures Edge(ledger, walk[i], walk[i + 1]) {
            assert Edge(ledger, (path + [id])[start + i], (path + [id])[start + i + 1]);
          }
        }
        errors := errors + [CycleError(id, walk)];
        return;
      }
      visiting := visiting + {id};
      var dependencies := ledger[id];
      for k := 0 to |dependencies|
        invariant Valid() && visiting == old(visiting) + {id} && old(visited) <= visited
        invariant old(errors) <= errors
        invariant errors == old(errors) ==>
          forall j :: 0 <= j < k && dependencies[j] in ledger ==> dependencies[j] in visited
      {
        var dependency := dependencies[k];
        if dependency in ledger {
          assert Walk(ledger, (path + [id]) + [dependency]);
          Visit(dependency, path + [id]);
        }
      }
      visiting := visiting - {id};
      visited := visited + {id};
      if errors == [] { FinishOne(ledger, order, id); }
      order := order + [id];
    }
  }

  /** Visit every known requirement, in any order. */
  method FindCycles(ledger: Ledger, ids: seq<Id>) returns (errors: seq<CycleError>)
    requires forall id :: id in ids <==> id in ledger
    ensures errors != [] <==> HasCycle(ledger)
    ensures forall e :: e in errors ==> ClosedWalk(ledger, e.walk) && e.walk[0] == e.location
  {
    var search := new Search(ledger);
    for k := 0 to |ids|
      invariant fresh(search) && search.ledger == ledger
      invariant search.Valid() && search.visiting == {}
      invariant search.errors == [] ==> forall j :: 0 <= j < k ==> ids[j] in search.visited
    {
      assert Walk(ledger, [] + [ids[k]]);
      search.Visit(ids[k], []);
    }
    errors := search.errors;
    if errors == [] {
      FinishedHasNoCycle(ledger, search.order);
    } else {
      assert errors[0] in errors;
    }
  }
}
