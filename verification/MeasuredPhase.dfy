/** A measured phase: workers that share one counter, and the summary of the latencies they record. */
module MeasuredPhase {

  import opened Collections
  import opened OrderedMaps

  /** The outcome of one operation. Latencies are whole units; `value` is what the operation returned. */
  datatype Record<V> = Record(index: nat, latency: int, value: V)

  datatype Worker<V> = Worker(current: Option<nat>, records: seq<Record<V>>, stopped: bool)

  /** `completed` keeps, for the statement only, what each finished operation left. */
  datatype Pool<V> = Pool(count: nat, next: nat, workers: seq<Worker<V>>, completed: map<nat, Record<V>>)

  function Width(count: nat, concurrency: int): (width: nat)
  {
    if concurrency <= 0 then 0 else if count < concurrency then count else concurrency
  }

  ghost predicate Initial<V>(p: Pool<V>, concurrency: int) {
    && p.next == 0 && p.completed == map[]
    && |p.workers| == Width(p.count, concurrency)
    && forall w :: 0 <= w < |p.workers| ==> p.workers[w] == Worker(None, [], false)
  }

  datatype Step<V> =
    | Take(worker: nat)
    | Complete(worker: nat, latency: int, value: V)

  predicate Enabled<V>(p: Pool<V>, step: Step<V>) {
    && step.worker < |p.workers| && !p.workers[step.worker].stopped
    && (step.Take? <==> p.workers[step.worker].current.None?)
  }

  function After<V>(p: Pool<V>, step: Step<V>): (q: Pool<V>)
    requires Enabled(p, step)
  {
    var worker := p.workers[step.worker];
    match step
    case Take(w) =>
      if p.next >= p.count then p.(workers := p.workers[w := worker.(stopped := true)])
      else p.(next := p.next + 1, workers := p.workers[w := worker.(current := Some(p.next))])
    case Complete(w, latency, value) =>
      var record := Record(worker.current.value, latency, value);
      p.(workers := p.workers[w := Worker(None, worker.records + [record], false)],
         completed := p.completed[record.index := record])
  }

  ghost predicate Reaches<V>(p: Pool<V>, steps: seq<Step<V>>, q: Pool<V>)
    decreases |steps|
  {
    if steps == [] then q == p
    else Enabled(p, steps[0]) && Reaches(After(p, steps[0]), steps[1..], q)
  }

  // ---------- what the workers hold together ----------

  function Flat<V>(workers: seq<Worker<V>>): (records: seq<Record<V>>) {
    if workers == [] then [] else workers[0].records + Flat(workers[1..])
  }

  /** How often a record was written, over all workers. */
  ghost function Written<V>(workers: seq<Worker<V>>, r: Record<V>): nat {
    if workers == [] then 0 else multiset(workers[0].records)[r] + Written(workers[1..], r)
  }

  function Runs<V>(worker: Worker<V>, i: nat): (n: nat) {
    if worker.current == Some(i) then 1 else 0
  }

  /** How many workers are running operation `i`. */
  function Running<V>(workers: seq<Worker<V>>, i: nat): (n: nat) {
    if workers == [] then 0 else Runs(workers[0], i) + Running(workers[1..], i)
  }

  /** How many workers are running any operation. */
  function InFlight<V>(workers: seq<Worker<V>>): (n: nat)
    ensures n <= |workers|
  {
    if workers == [] then 0 else (if workers[0].current.Some? then 1 else 0) + InFlight(workers[1..])
  }

  lemma {:induction false} ReplaceRunning<V>(workers: seq<Worker<V>>, w: nat, worker: Worker<V>, i: nat)
    requires w < |workers|
    ensures Running(workers[w := worker], i) + Runs(workers[w], i) == Running(workers, i) + Runs(worker, i)
    ensures Running(workers, i) >= Runs(workers[w], i)
  {
    if w == 0 {
      assert workers[w := worker][1..] == workers[1..];
    } else {
      assert workers[w := worker][1..] == workers[1..][w - 1 := worker];
      ReplaceRunning(workers[1..], w - 1, worker, i);
    }
  }

  lemma {:induction false} ReplaceWritten<V>(workers: seq<Worker<V>>, w: nat, worker: Worker<V>, r: Record<V>)
    requires w < |workers|
    ensures Written(workers[w := worker], r) + multiset(workers[w].records)[r] ==
            Written(workers, r) + multiset(worker.records)[r]
  {
    if w == 0 {
      assert workers[w := worker][1..] == workers[1..];
    } else {
      assert workers[w := worker][1..] == workers[1..][w - 1 := worker];
      ReplaceWritten(workers[1..], w - 1, worker, r);
    }
  }

  lemma {:induction false} NothingRuns<V>(workers: seq<Worker<V>>, i: nat)
    requires forall w :: 0 <= w < |workers| ==> workers[w].current.None?
    ensures Running(workers, i) == 0
  {
    if workers != [] { NothingRuns(workers[1..], i); }
  }

  lemma {:induction false} NothingWritten<V>(workers: seq<Worker<V>>, r: Record<V>)
    requires forall w :: 0 <= w < |workers| ==> workers[w].records == []
    ensures Written(workers, r) == 0
  {
    if workers != [] { NothingWritten(workers[1..], r); }
  }

  lemma {:induction false} FlatHoldsWritten<V>(workers: seq<Worker<V>>, r: Record<V>)
    ensures multiset(Flat(workers))[r] == Written(workers, r)
  {
    if workers != [] { FlatHoldsWritten(workers[1..], r); }
  }

  // ---------- the invariant ----------

  /** Each index below the counter is either in flight once, or completed and written once. */
  ghost predicate Inv<V(!new)>(p: Pool<V>) {
    && p.next <= p.count
    && (forall i :: i in p.completed ==> i < p.next && p.completed[i].index == i)
    && (forall i: nat :: Running(p.workers, i) == if i < p.next && i !in p.completed then 1 else 0)
    && (forall r :: Written(p.workers, r) == if r.index in p.completed && p.completed[r.index] == r then 1 else 0)
    && (forall w :: 0 <= w < |p.workers| && p.workers[w].stopped ==>
          p.workers[w].current.None? && p.next == p.count)
  }

  lemma TakeKeepsInv<V(!new)>(p: Pool<V>, step: Step<V>)
    requires Inv(p) && Enabled(p, step) && step.Take?
    ensures Inv(After(p, step))
  {
    var q := After(p, step);
    var w := step.worker;
    var worker := q.workers[w];
    assert worker.records == p.workers[w].records;
    forall i: nat ensures Running(q.workers, i) == if i < q.next && i !in q.completed then 1 else 0 {
      ReplaceRunning(p.workers, w, worker, i);
    }
    forall r ensures Written(q.workers, r) == Written(p.workers, r) {
      ReplaceWritten(p.workers, w, worker, r);
    }
  }

  lemma CompleteKeepsInv<V(!new)>(p: Pool<V>, step: Step<V>)
    requires Inv(p) && Enabled(p, step) && step.Complete?
    ensures Inv(After(p, step))
  {
    var q := After(p, step);
    var w := step.worker;
    var worker := p.workers[w];
    var record := Record(worker.current.value, step.latency, step.value);
    ReplaceRunning(p.workers, w, q.workers[w], record.index);
    assert record.index < p.next && record.index !in p.completed;
    forall i: nat ensures Running(q.workers, i) == if i < q.next && i !in q.completed then 1 else 0 {
      ReplaceRunning(p.workers, w, q.workers[w], i);
    }
    forall r ensures Written(q.workers, r) == Written(p.workers, r) + if r == record then 1 else 0 {
      ReplaceWritten(p.workers, w, q.workers[w], r);
      assert multiset(worker.records + [record]) == multiset(worker.records) + multiset{record};
    }
  }

  lemma StepKeepsInv<V(!new)>(p: Pool<V>, step: Step<V>)
    requires Inv(p) && Enabled(p, step)
    ensures Inv(After(p, step))
  {
    if step.Take? { TakeKeepsInv(p, step); } else { CompleteKeepsInv(p, step); }
  }

  lemma {:induction false} RunKeepsInv<V(!new)>(p: Pool<V>, steps: seq<Step<V>>, q: Pool<V>)
    requires Inv(p) && Reaches(p, steps, q)
    ensures Inv(q) && |q.workers| == |p.workers| && q.count == p.count
    decreases |steps|
  {
    if steps != [] {
      StepKeepsInv(p, steps[0]);
      RunKeepsInv(After(p, steps[0]), steps[1..], q);
    }
  }

  lemma InitialInv<V(!new)>(p: Pool<V>, concurrency: int)
    requires Initial(p, concurrency)
    ensures Inv(p)
  {
    forall i: nat ensures Running(p.workers, i) == 0 { NothingRuns(p.workers, i); }
    forall r ensures Written(p.workers, r) == 0 { NothingWritten(p.workers, r); }
  }

  /** At every moment of every run no more operations are in flight than asked for, and none runs twice. */
  lemma FlightIsBounded<V(!new)>(p: Pool<V>, concurrency: int, steps: seq<Step<V>>, q: Pool<V>)
    requires Initial(p, concurrency) && Reaches(p, steps, q)
    ensures InFlight(q.workers) <= p.count && InFlight(q.workers) <= if concurrency > 0 then concurrency else 0
    ensures forall i: nat :: Running(q.workers, i) <= 1
    ensures forall i: nat :: Running(q.workers, i) == 1 ==> i < p.count && i !in q.completed
  {
    InitialInv(p, concurrency);
    RunKeepsInv(p, steps, q);
  }

  lemma {:induction false} AllInFlight<V>(workers: seq<Worker<V>>)
    requires forall w :: 0 <= w < |workers| ==> workers[w].current.Some?
    ensures InFlight(workers) == |workers|
  {
    if workers != [] { AllInFlight(workers[1..]); }
  }

  /** The workers from `w` on take their first operations. */
  lemma {:induction false} TakeAll<V>(p: Pool<V>, w: nat) returns (steps: seq<Step<V>>, q: Pool<V>)
    requires w <= |p.workers| && p.next == w && |p.workers| <= p.count
    requires forall i :: 0 <= i < w ==> p.workers[i].current.Some?
    requires forall i :: w <= i < |p.workers| ==> p.workers[i] == Worker(None, [], false)
    ensures Reaches(p, steps, q) && |q.workers| == |p.workers|
    ensures forall i :: 0 <= i < |q.workers| ==> q.workers[i].current.Some?
    decreases |p.workers| - w
  {
    if w == |p.workers| {
      steps, q := [], p;
    } else {
      var rest;
      rest, q := TakeAll(After(p, Take(w)), w + 1);
      steps := [Take(w)] + rest;
    }
  }

  /** The bound is reached: some run has as many operations in flight as there are and as were asked for. */
  lemma FullFlight<V>(p: Pool<V>, concurrency: int) returns (steps: seq<Step<V>>, q: Pool<V>)
    requires Initial(p, concurrency)
    ensures Reaches(p, steps, q)
    ensures InFlight(q.workers)
            == if concurrency <= 0 then 0 else if p.count < concurrency then p.count else concurrency
  {
    steps, q := TakeAll(p, 0);
    AllInFlight(q.workers);
  }

  // ---------- a phase can end ----------

  function Load<V>(worker: Worker<V>): (n: nat) {
    (if worker.current.Some? then 1 else 0) + if worker.stopped then 0 else 1
  }

  function Loads<V>(workers: seq<Worker<V>>): (n: nat) {
    if workers == [] then 0 else Load(workers[0]) + Loads(workers[1..])
  }

  lemma {:induction false} ReplaceLoad<V>(workers: seq<Worker<V>>, w: nat, worker: Worker<V>)
    requires w < |workers|
    ensures Loads(workers[w := worker]) + Load(workers[w]) == Loads(workers) + Load(worker)
  {
    if w == 0 {
      assert workers[w := worker][1..] == workers[1..];
    } else {
      assert workers[w := worker][1..] == workers[1..][w - 1 := worker];
      ReplaceLoad(workers[1..], w - 1, worker);
    }
  }

  /** From every reachable state, whatever was completed so far, some run ends with all workers stopped. */
  lemma {:induction false} PhaseCanEnd<V(!new)>(p: Pool<V>, latency: int, value: V)
      returns (steps: seq<Step<V>>, q: Pool<V>)
    requires Inv(p)
    ensures Reaches(p, steps, q) && AllStopped(q)
    decreases 2 * (p.count - p.next) + Loads(p.workers)
  {
    if AllStopped(p) {
      steps, q := [], p;
    } else {
      var w: nat :| w < |p.workers| && !p.workers[w].stopped;
      var step := if p.workers[w].current.None? then Take(w) else Complete(w, latency, value);
      var next := After(p, step);
      StepKeepsInv(p, step);
      ReplaceLoad(p.workers, w, next.workers[w]);
      assert next.workers == p.workers[w := next.workers[w]];
      var rest;
      rest, q := PhaseCanEnd(next, latency, value);
      steps := [step] + rest;
    }
  }

  // ---------- the results ----------

  ghost predicate AllStopped<V>(p: Pool<V>) {
    forall w :: 0 <= w < |p.workers| ==> p.workers[w].stopped
  }

  /** `sorted` is a rearrangement of the records in index order. */
  ghost predicate InIndexOrder<V>(records: seq<Record<V>>, sorted: seq<Record<V>>) {
    && multiset(sorted) == multiset(records)
    && forall i, j :: 0 <= i < j < |sorted| ==> sorted[i].index <= sorted[j].index
  }

  ghost predicate Holds<V>(records: seq<Record<V>>, k: nat) {
    exists a :: 0 <= a < |records| && records[a].index == k
  }

  /** Strictly increasing numbers that cover `0..n` and nothing else are their own positions. */
  lemma {:induction false} CoverIsIdentity<V>(sorted: seq<Record<V>>, n: nat, i: nat)
    requires forall a, b :: 0 <= a < b < |sorted| ==> sorted[a].index < sorted[b].index
    requires forall k: nat :: k < n ==> Holds(sorted, k)
    requires i < n
    ensures i < |sorted| && sorted[i].index == i
  {
    assert Holds(sorted, i);
    var a :| 0 <= a < |sorted| && sorted[a].index == i;
    if a < i {
      CoverIsIdentity(sorted, n, a);
    } else if a > i {
      Grows(sorted, a);
    }
  }

  lemma {:induction false} Grows<V>(sorted: seq<Record<V>>, a: nat)
    requires forall i, j :: 0 <= i < j < |sorted| ==> sorted[i].index < sorted[j].index
    requires a < |sorted|
    ensures sorted[a].index >= a
  {
    if a > 0 { Grows(sorted, a - 1); }
  }

  /**
   * When every worker has stopped, the sorted records are exactly one per index, in order, each as
   * its operation left it; with no worker at all there are none.
   */
  lemma RunAnswersInOrder<V(!new)>(p: Pool<V>, concurrency: int, steps: seq<Step<V>>, q: Pool<V>,
                                   sorted: seq<Record<V>>)
    requires Initial(p, concurrency) && Reaches(p, steps, q) && AllStopped(q)
    requires InIndexOrder(Flat(q.workers), sorted)
    ensures concurrency > 0 ==>
              |sorted| == p.count
              && forall i :: 0 <= i < p.count ==>
                   i in q.completed && sorted[i] == q.completed[i] && sorted[i].index == i
    ensures concurrency <= 0 ==> sorted == []
  {
    InitialInv(p, concurrency);
    RunKeepsInv(p, steps, q);
    RecordsAreCompleted(q, sorted);
    if |q.workers| > 0 {
      EveryIndexIsWritten(q, sorted);
      CoverIsWhole(sorted, p.count);
      forall i | 0 <= i < p.count
        ensures i in q.completed && sorted[i] == q.completed[i] && sorted[i].index == i
      {
        assert sorted[i].index in q.completed;
      }
    } else {
      assert Flat(q.workers) == [];
      assert |sorted| == |multiset(sorted)| == 0;
    }
  }

  lemma CoverIsWhole<V>(sorted: seq<Record<V>>, n: nat)
    requires forall a, b :: 0 <= a < b < |sorted| ==> sorted[a].index < sorted[b].index
    requires forall k: nat :: k < n ==> Holds(sorted, k)
    requires forall a :: 0 <= a < |sorted| ==> sorted[a].index < n
    ensures |sorted| == n
    ensures forall i :: 0 <= i < n ==> sorted[i].index == i
  {
    if n > 0 { CoverIsIdentity(sorted, n, n - 1); }
    if |sorted| > n { Grows(sorted, n); }
    forall i | 0 <= i < n ensures sorted[i].index == i {
      CoverIsIdentity(sorted, n, i);
    }
  }

  lemma EveryIndexIsWritten<V(!new)>(q: Pool<V>, sorted: seq<Record<V>>)
    requires Inv(q) && AllStopped(q) && q.workers != [] && InIndexOrder(Flat(q.workers), sorted)
    ensures q.next == q.count
    ensures forall k: nat :: k < q.count ==> Holds(sorted, k)
  {
    assert q.workers[0].stopped && q.next == q.count;
    forall k: nat | k < q.count ensures Holds(sorted, k) {
      NothingRuns(q.workers, k);
      assert Running(q.workers, k) == 0;
      FlatHoldsWritten(q.workers, q.completed[k]);
      assert multiset(sorted)[q.completed[k]] == 1;
      assert q.completed[k] in sorted;
    }
  }

  lemma RecordsAreCompleted<V(!new)>(q: Pool<V>, sorted: seq<Record<V>>)
    requires Inv(q) && InIndexOrder(Flat(q.workers), sorted)
    ensures forall a :: 0 <= a < |sorted| ==>
              sorted[a].index in q.completed && q.completed[sorted[a].index] == sorted[a]
    ensures forall a, b :: 0 <= a < b < |sorted| ==> sorted[a].index < sorted[b].index
  {
    forall a | 0 <= a < |sorted|
      ensures sorted[a].index in q.completed && q.completed[sorted[a].index] == sorted[a]
    {
      FlatHoldsWritten(q.workers, sorted[a]);
      assert sorted[a] in multiset(sorted);
    }
    forall a, b | 0 <= a < b < |sorted| ensures sorted[a].index < sorted[b].index {
      if sorted[a].index == sorted[b].index {
        assert sorted[a] == sorted[b];
        OccursTwice(sorted, a, b);
        FlatHoldsWritten(q.workers, sorted[a]);
      }
    }
  }

  // ---------- the summary ----------

  predicate Ascending(s: seq<int>) {
    forall i, j :: 0 <= i < j < |s| ==> s[i] <= s[j]
  }

  /** Rounds `requested * n / 100` up, then steps back one place; an empty sample has no percentile. */
  function PercentileIndex(n: nat, requested: nat): (index: nat)
  {
    var rank := (requested * n + 99) / 100;
    if rank == 0 then 0 else rank - 1
  }

  function Percentile(sorted: seq<int>, requested: nat): (value: Option<int>)
  {
    var index := PercentileIndex(|sorted|, requested);
    if index < |sorted| then Some(sorted[index]) else None
  }

  /** How many samples do not exceed `bound`. */
  function AtMost(samples: seq<int>, bound: int): (n: nat)
    ensures n <= |samples|
  {
    if samples == [] then 0
    else AtMost(samples[..|samples| - 1], bound) + if samples[|samples| - 1] <= bound then 1 else 0
  }

  /** In an ascending sample the count up to a value decides the places on either side of it. */
  lemma {:induction false} AtMostSplits(sorted: seq<int>, k: nat, bound: int)
    requires Ascending(sorted) && k < |sorted|
    ensures sorted[k] <= bound ==> AtMost(sorted, bound) >= k + 1
    ensures sorted[k] > bound ==> AtMost(sorted, bound) <= k
  {
    var rest := sorted[..|sorted| - 1];
    if k < |rest| {
      AtMostSplits(rest, k, bound);
    } else if rest != [] {
      AtMostSplits(rest, k - 1, bound);
    }
  }

  /**
   * The nearest-rank percentile, with no indices: the one sample up to which at least `requested` per
   * cent of the samples lie, while every smaller bound leaves fewer.
   */
  ghost predicate NearestRank(samples: seq<int>, requested: nat, value: int) {
    && value in samples
    && 100 * AtMost(samples, value) >= requested * |samples|
    && forall bound :: bound < value ==> 100 * AtMost(samples, bound) < requested * |samples|
  }

  lemma RankBounds(n: nat, requested: nat)
    requires 0 < n && 0 < requested <= 100
    ensures PercentileIndex(n, requested) < n
    ensures 100 * (PercentileIndex(n, requested) + 1) >= requested * n
    ensures 100 * PercentileIndex(n, requested) < requested * n
  {
  }

  lemma PercentileIsNearestRank(sorted: seq<int>, requested: nat, value: int)
    requires Ascending(sorted) && 0 < requested <= 100
    ensures Percentile(sorted, requested) == Some(value) <==> NearestRank(sorted, requested, value)
  {
    if sorted != [] {
      var k := PercentileIndex(|sorted|, requested);
      RankBounds(|sorted|, requested);
      RankIsNearest(sorted, requested, k);
      if NearestRank(sorted, requested, value) { OneNearestRank(sorted, requested, value, sorted[k]); }
    }
  }

  lemma OneNearestRank(samples: seq<int>, requested: nat, a: int, b: int)
    requires NearestRank(samples, requested, a) && NearestRank(samples, requested, b)
    ensures a == b
  {
  }

  lemma RankIsNearest(sorted: seq<int>, requested: nat, k: nat)
    requires Ascending(sorted) && k < |sorted|
    requires 100 * k < requested * |sorted| <= 100 * (k + 1)
    ensures NearestRank(sorted, requested, sorted[k])
  {
    AtMostSplits(sorted, k, sorted[k]);
    forall bound | bound < sorted[k] ensures 100 * AtMost(sorted, bound) < requested * |sorted| {
      AtMostSplits(sorted, k, bound);
    }
  }

  /** The summary's figures stand in order, for every sample that has one. */
  lemma SummaryIsOrdered(sorted: seq<int>)
    requires Ascending(sorted) && sorted != []
    ensures Percentile(sorted, 50).Some? && Percentile(sorted, 95).Some? && Percentile(sorted, 99).Some?
    ensures sorted[0] <= Percentile(sorted, 50).value <= Percentile(sorted, 95).value
    ensures Percentile(sorted, 95).value <= Percentile(sorted, 99).value <= sorted[|sorted| - 1]
  {
  }
}
