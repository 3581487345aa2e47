/** The task runner `run_in_parallel`: one future per task value, each
    running the user function through a wrapper meant to turn an exception
    into a `None` result, and a dict comprehension that folds the futures,
    in the order they complete, into one mapping from task value to result.

    Threads and the event loop are not modelled. The order in which the
    futures complete is an input, `order`, listing future indices in
    completion order; the scheduler guarantees only that it is a
    permutation. What the user function did on each call is an input too,
    `outcomes`, one per submitted task, so the function may be impure.
    Whether the entry point has a `__name__` attribute is the input `named`:
    the wrapper's exception handler reads it. */
module Executor {
  import opened Wrappers

  /** What one call of the user function did. A returned Python value is an
      `Option<V>`: `None` is Python's `None`, `Some(v)` any other value. */
  datatype Outcome<V> =
    | Returned(value: Option<V>)  // the call returned this value
    | Raised                      // it raised an `Exception`
    | RaisedBase                  // it raised a `BaseException` that is not an `Exception`, such as `SystemExit`

  /** A pair the wrapper returns: the task value and the recorded result. */
  type Pair<K, V> = (K, Option<V>)

  /** How a future settles: with the wrapper's pair, or with an exception
      that escaped the wrapper (re-raised where the future is awaited). */
  datatype Settled<K, V> = Resolved(pair: Pair<K, V>) | Rejected

  /** What a run of `run_in_parallel` ends with: the mapping it returns, or
      an exception that aborts it, so that nothing is printed. */
  datatype RunResult<K, V> = Finished(results: map<K, Option<V>>) | Aborted

  // ---------------------------------------------------------------------
  // Per-task failure isolation
  // ---------------------------------------------------------------------

  /** Whether an exception leaves `_wrapped_func`: the handler catches only
      `Exception`, and the handler itself fails when the entry point has no
      `__name__` (it formats `func.__name__` into its message). */
  predicate Escapes<V>(outcome: Outcome<V>, named: bool) {
    outcome.RaisedBase? || (outcome.Raised? && !named)
  }

  /** `_wrapped_func(val)`: unless the exception escapes, a pair whose first
      component is the task value and whose second is the function's value,
      or `None` when it raised. A `None` in the pair therefore means either
      a failure or a function that returned `None`. */
  function Wrapped<K, V>(val: K, outcome: Outcome<V>, named: bool): (r: Settled<K, V>)
    ensures r.Rejected? <==> Escapes(outcome, named)
    ensures r.Resolved? ==> r.pair.0 == val
    ensures outcome.Returned? ==> r.pair.1 == outcome.value
    ensures r.Resolved? ==> (r.pair.1.None? <==> outcome.Raised? || outcome.value.None?)
  {
    match outcome
    case Returned(v) => Resolved((val, v))
    case Raised => if named then Resolved((val, None)) else Rejected
    case RaisedBase => Rejected
  }

  // ---------------------------------------------------------------------
  // Submission and completion order
  // ---------------------------------------------------------------------

  /** The futures list: one future per task, in task order; the i-th future
      settles with the wrapper's result for the i-th call. */
  function Submit<K, V>(tasks: seq<K>, outcomes: seq<Outcome<V>>, named: bool): (futures: seq<Settled<K, V>>)
    requires |outcomes| == |tasks|
    ensures |futures| == |tasks|
    ensures forall i :: 0 <= i < |tasks| ==> futures[i] == Wrapped(tasks[i], outcomes[i], named)
  {
    seq(|tasks|, i requires 0 <= i < |tasks| => Wrapped(tasks[i], outcomes[i], named))
  }

  /** `order` is a possible completion order of `n` futures: it lists future
      indices, each of the `n` futures exactly once. */
  predicate IsCompletionOrder(order: seq<nat>, n: nat) {
    && |order| == n
    && (forall i :: 0 <= i < |order| ==> order[i] < n)
    && (forall i, j :: 0 <= i < j < |order| ==> order[i] != order[j])
  }

  /** The stream `as_completed(futures)` yields, after each await: the
      futures' results in completion order. */
  function Completed<T>(futures: seq<T>, order: seq<nat>): (cs: seq<T>)
    requires forall i :: 0 <= i < |order| ==> order[i] < |futures|
    ensures |cs| == |order|
    ensures forall i :: 0 <= i < |order| ==> cs[i] == futures[order[i]]
  {
    seq(|order|, i requires 0 <= i < |order| => futures[order[i]])
  }

  /** The indices below `n`. */
  function Below(n: nat): (s: set<nat>)
    ensures forall j: nat :: j in s <==> j < n
    ensures |s| == n
  {
    if n == 0 then {} else Below(n - 1) + {n - 1}
  }

  /** The elements of a sequence without repetitions are as many as its length. */
  lemma {:induction false} DistinctCard(s: seq<nat>)
    requires forall i, j :: 0 <= i < j < |s| ==> s[i] != s[j]
    ensures |set i | 0 <= i < |s| :: s[i]| == |s|
  {
    if s != [] {
      var t := s[..|s| - 1];
      DistinctCard(t);
      var st := set i | 0 <= i < |t| :: t[i];
      assert (set i | 0 <= i < |s| :: s[i]) == st + {s[|s| - 1]};
      assert s[|s| - 1] !in st;
    }
  }

  /** Every future completes: a completion order lists every index below
      `n` (there are `n` distinct entries below `n`, so none is missing). */
  lemma CompletionOrderCovers(order: seq<nat>, n: nat, j: nat)
    requires IsCompletionOrder(order, n)
    requires j < n
    ensures j in order
  {
    var seen := set i | 0 <= i < |order| :: order[i];
    DistinctCard(order);
    assert seen <= Below(n);
    assert |Below(n) - seen| == |Below(n)| - |seen| == 0;
    assert seen == Below(n);
    assert j in seen;
  }

  /** Taking the last future's entry out of a completion order leaves a
      completion order of the other futures. */
  lemma CompletionOrderWithoutLast(order: seq<nat>, n: nat, p: nat)
    requires IsCompletionOrder(order, n)
    requires p < |order| && order[p] == n - 1
    ensures IsCompletionOrder(order[..p] + order[p + 1..], n - 1)
  {
  }

  /** Dropping the last future and its entry in the completion order drops
      that entry's element from the completion stream. */
  lemma CompletedWithoutLast<T>(futures: seq<T>, order: seq<nat>, p: nat)
    requires IsCompletionOrder(order, |futures|)
    requires p < |order| && order[p] == |futures| - 1
    ensures IsCompletionOrder(order[..p] + order[p + 1..], |futures| - 1)
    ensures Completed(futures[..|futures| - 1], order[..p] + order[p + 1..])
         == Completed(futures, order)[..p] + Completed(futures, order)[p + 1..]
  {
    CompletionOrderWithoutLast(order, |futures|, p);
    var rest := order[..p] + order[p + 1..];
    var cs := Completed(futures, order);
    var ds := Completed(futures[..|futures| - 1], rest);
    forall i | 0 <= i < |rest| ensures ds[i] == (cs[..p] + cs[p + 1..])[i] {
      assert rest[i] == order[if i < p then i else i + 1];
    }
  }

  /** The completion stream is a permutation of the futures: each future's
      result is yielded exactly once. */
  lemma {:induction false} CompletedPermutes<T>(futures: seq<T>, order: seq<nat>)
    requires IsCompletionOrder(order, |futures|)
    ensures multiset(Completed(futures, order)) == multiset(futures)
  {
    var n := |futures|;
    if n > 0 {
      CompletionOrderCovers(order, n, n - 1);
      var p :| 0 <= p < |order| && order[p] == n - 1;
      var init := futures[..n - 1];
      var cs := Completed(futures, order);
      CompletedWithoutLast(futures, order, p);
      CompletedPermutes(init, order[..p] + order[p + 1..]);
      var last := futures[n - 1];
      var others := cs[..p] + cs[p + 1..];
      assert multiset(others) == multiset(init);
      MultisetWithout(cs, p);
      assert cs[p] == last;
      assert multiset(cs) == multiset(init) + multiset{last};
      assert futures == init + [last];
    }
  }

  /** Removing position `p` removes one copy of its element. */
  lemma MultisetWithout<T>(s: seq<T>, p: nat)
    requires p < |s|
    ensures multiset(s) == multiset(s[..p] + s[p + 1..]) + multiset{s[p]}
  {
    assert s == s[..p] + [s[p]] + s[p + 1..];
  }

  // ---------------------------------------------------------------------
  // Aggregation
  // ---------------------------------------------------------------------

  /** The keys among a sequence of pairs. */
  function KeysOf<K, V>(ps: seq<(K, V)>): set<K> {
    set i | 0 <= i < |ps| :: ps[i].0
  }

  /** The distinct task values. */
  function TaskSet<K>(tasks: seq<K>): set<K> {
    set i | 0 <= i < |tasks| :: tasks[i]
  }

  /** The dict comprehension over a stream of pairs: start empty and, pair by
      pair, store the value under its key, overwriting an earlier entry.
      Exactly the keys that occur in the stream end up in the mapping. */
  function Collect<K, V>(ps: seq<(K, V)>): (m: map<K, V>)
    ensures m.Keys == KeysOf(ps)
  {
    if ps == [] then map[]
    else
      var init := ps[..|ps| - 1];
      var last := ps[|ps| - 1];
      assert KeysOf(ps) == KeysOf(init) + {last.0} by {
        forall k | k in KeysOf(ps) ensures k in KeysOf(init) + {last.0} {
          var i :| 0 <= i < |ps| && ps[i].0 == k;
          if i < |init| { assert init[i] == ps[i]; }
        }
        forall k | k in KeysOf(init) ensures k in KeysOf(ps) {
          var i :| 0 <= i < |init| && init[i].0 == k;
          assert ps[i] == init[i];
        }
      }
      Collect(init)[last.0 := last.1]
  }

  /** The position of the last pair with key `k`. */
  function LastIndex<K(==), V>(ps: seq<(K, V)>, k: K): (i: nat)
    requires k in KeysOf(ps)
    ensures i < |ps| && ps[i].0 == k
    ensures forall j :: i < j < |ps| ==> ps[j].0 != k
  {
    if ps[|ps| - 1].0 == k then |ps| - 1
    else
      var init := ps[..|ps| - 1];
      assert k in KeysOf(init) by {
        var i :| 0 <= i < |ps| && ps[i].0 == k;
        assert init[i] == ps[i];
      }
      LastIndex(init, k)
  }

  /** Last writer wins: the entry for a key is the value of the LAST pair
      with that key in the stream. */
  lemma {:induction false} CollectLastWriterWins<K, V>(ps: seq<(K, V)>, k: K)
    requires k in KeysOf(ps)
    ensures Collect(ps)[k] == ps[LastIndex(ps, k)].1
  {
    var init := ps[..|ps| - 1];
    if ps[|ps| - 1].0 != k {
      assert k in KeysOf(init) by {
        var i :| 0 <= i < |ps| && ps[i].0 == k;
        assert init[i] == ps[i];
      }
      CollectLastWriterWins(init, k);
    }
  }

  /** Every entry of the mapping is one of the pairs of the stream. */
  lemma CollectEntryOccurs<K, V>(ps: seq<(K, V)>, k: K)
    requires k in Collect(ps)
    ensures (k, Collect(ps)[k]) in ps
  {
  }

  /** No two pairs of the stream disagree on the value for a key (as when
      the user function is pure). */
  ghost predicate Functional<K, V>(ps: seq<(K, V)>) {
    forall i, j :: 0 <= i < |ps| && 0 <= j < |ps| && ps[i].0 == ps[j].0 ==> ps[i].1 == ps[j].1
  }

  /** When no two pairs disagree, the mapping depends only on which pairs
      occur, not on their order or their number. */
  lemma CollectSameElements<K, V>(ps: seq<(K, V)>, qs: seq<(K, V)>)
    requires forall x :: x in ps <==> x in qs
    requires Functional(ps)
    ensures Collect(ps) == Collect(qs)
  {
    assert KeysOf(ps) == KeysOf(qs) by {
      forall k | k in KeysOf(ps) ensures k in KeysOf(qs) {
        var i :| 0 <= i < |ps| && ps[i].0 == k;
        assert ps[i] in qs;
      }
      forall k | k in KeysOf(qs) ensures k in KeysOf(ps) {
        var i :| 0 <= i < |qs| && qs[i].0 == k;
        assert qs[i] in ps;
      }
    }
    forall k | k in Collect(ps) ensures Collect(ps)[k] == Collect(qs)[k] {
      CollectEntryOccurs(ps, k);
      CollectEntryOccurs(qs, k);
      var i :| 0 <= i < |ps| && ps[i] == (k, Collect(ps)[k]);
      var j :| 0 <= j < |ps| && ps[j] == (k, Collect(qs)[k]);
    }
  }

  /** Order independence: folding any permutation of a stream whose pairs
      never disagree gives the same mapping. */
  lemma CollectPermutation<K, V>(ps: seq<(K, V)>, qs: seq<(K, V)>)
    requires multiset(ps) == multiset(qs)
    requires Functional(ps)
    ensures Collect(ps) == Collect(qs)
  {
    forall x ensures x in ps <==> x in qs {
      assert x in ps <==> x in multiset(ps);
      assert x in qs <==> x in multiset(qs);
    }
    CollectSameElements(ps, qs);
  }

  /** True when no future's exception escaped. */
  predicate AllResolved<K, V>(cs: seq<Settled<K, V>>) {
    forall i :: 0 <= i < |cs| ==> cs[i].Resolved?
  }

  /** The pairs of a stream of resolved futures. */
  function ResolvedPairs<K, V>(cs: seq<Settled<K, V>>): (ps: seq<Pair<K, V>>)
    requires AllResolved(cs)
    ensures |ps| == |cs|
    ensures forall i :: 0 <= i < |cs| ==> ps[i] == cs[i].pair
  {
    seq(|cs|, i requires 0 <= i < |cs| => cs[i].pair)
  }

  /** Folding one more resolved future stores its pair on top of the
      mapping built so far. */
  lemma CollectResolvedSnoc<K, V>(cs: seq<Settled<K, V>>, p: Pair<K, V>)
    requires AllResolved(cs)
    ensures AllResolved(cs + [Resolved(p)])
    ensures Collect(ResolvedPairs(cs + [Resolved(p)])) == Collect(ResolvedPairs(cs))[p.0 := p.1]
  {
    var ps := ResolvedPairs(cs + [Resolved(p)]);
    assert ps[..|ps| - 1] == ResolvedPairs(cs);
  }

  /** The whole of `run_in_parallel` as a value. Constructing the pool fails
      for `max_workers <= 0`; otherwise one future is submitted per task and
      the completions are folded in the given order, and an escaped
      exception at any completion aborts the run. So a run returns a mapping
      exactly when the pool size is positive and no call's exception
      escapes, and that mapping has the distinct task values as keys. */
  function Aggregate<K, V>(tasks: seq<K>, outcomes: seq<Outcome<V>>, named: bool, maxWorkers: int, order: seq<nat>)
    : (r: RunResult<K, V>)
    requires |outcomes| == |tasks|
    requires IsCompletionOrder(order, |tasks|)
    ensures r.Finished? <==> maxWorkers > 0 && forall i :: 0 <= i < |tasks| ==> !Escapes(outcomes[i], named)
    ensures r.Finished? ==> r.results.Keys == TaskSet(tasks) && |r.results| == |TaskSet(tasks)|
  {
    if maxWorkers <= 0 then Aborted
    else
      var futures := Submit(tasks, outcomes, named);
      var cs := Completed(futures, order);
      assert AllResolved(cs) <==> forall i :: 0 <= i < |tasks| ==> !Escapes(outcomes[i], named) by {
        if AllResolved(cs) {
          forall i | 0 <= i < |tasks| ensures !Escapes(outcomes[i], named) {
            CompletionOrderCovers(order, |tasks|, i);
            var p :| 0 <= p < |order| && order[p] == i;
            assert cs[p] == futures[i];
          }
        }
      }
      if AllResolved(cs) then
        var ps := ResolvedPairs(cs);
        assert KeysOf(ps) == TaskSet(tasks) by {
          forall k | k in TaskSet(tasks) ensures k in KeysOf(ps) {
            var j :| 0 <= j < |tasks| && tasks[j] == k;
            CompletionOrderCovers(order, |tasks|, j);
            var p :| 0 <= p < |order| && order[p] == j;
            assert ps[p].0 == k;
          }
        }
        Finished(Collect(ps))
      else
        Aborted
  }

  /** A run on a positive pool whose futures all resolve returns the fold
      of their pairs in completion order. */
  lemma AggregateFolds<K, V>(tasks: seq<K>, outcomes: seq<Outcome<V>>, named: bool, maxWorkers: int, order: seq<nat>)
    requires |outcomes| == |tasks|
    requires IsCompletionOrder(order, |tasks|)
    requires maxWorkers > 0
    requires AllResolved(Completed(Submit(tasks, outcomes, named), order))
    ensures Aggregate(tasks, outcomes, named, maxWorkers, order)
         == Finished(Collect(ResolvedPairs(Completed(Submit(tasks, outcomes, named), order))))
  {
  }

  /** `run_in_parallel`: builds the pool (failing for `max_workers <= 0`),
      submits one future per task, then awaits the completions in
      completion order, inserting each pair into the result as it arrives;
      the first completion whose exception escaped the wrapper aborts the
      run. Returns the outcome and the number of completions consumed: all
      `len(futures)` of them when the run finishes. */
  method RunInParallel<K, V>(tasks: seq<K>, outcomes: seq<Outcome<V>>, named: bool, maxWorkers: int, order: seq<nat>)
    returns (r: RunResult<K, V>, consumed: nat)
    requires |outcomes| == |tasks|
    requires IsCompletionOrder(order, |tasks|)
    ensures r == Aggregate(tasks, outcomes, named, maxWorkers, order)
    ensures consumed <= |tasks|
    ensures r.Finished? ==> consumed == |tasks|
    ensures forall j :: 0 <= j < consumed ==> !Escapes(outcomes[order[j]], named)
    ensures r.Aborted? && maxWorkers > 0 ==> consumed < |tasks| && Escapes(outcomes[order[consumed]], named)
  {
    consumed := 0;
    if maxWorkers <= 0 {
      r := Aborted;
      return;
    }
    var futures := Submit(tasks, outcomes, named);
    ghost var cs := Completed(futures, order);
    var res := map[];
    while consumed < |futures|
      invariant consumed <= |futures|
      invariant AllResolved(cs[..consumed])
      invariant res == Collect(ResolvedPairs(cs[..consumed]))
      invariant forall j :: 0 <= j < consumed ==> !Escapes(outcomes[order[j]], named)
    {
      assert futures[order[consumed]] == Wrapped(tasks[order[consumed]], outcomes[order[consumed]], named);
      match futures[order[consumed]]
      case Rejected =>
        assert Escapes(outcomes[order[consumed]], named);
        r := Aborted;
        return;
      case Resolved(p) =>
        assert cs[..consumed + 1] == cs[..consumed] + [Resolved(p)];
        CollectResolvedSnoc(cs[..consumed], p);
        res := res[p.0 := p.1];
        consumed := consumed + 1;
    }
    assert cs[..consumed] == cs;
    AggregateFolds(tasks, outcomes, named, maxWorkers, order);
    r := Finished(res);
  }

  /** For a finished run, the entry for each task value is the wrapped
      result of the LAST call with that value to complete: `None` if that
      call raised or returned `None`, its value otherwise. Earlier
      completions with the same value are lost. */
  lemma AggregateEntry<K, V>(tasks: seq<K>, outcomes: seq<Outcome<V>>, named: bool, maxWorkers: int, order: seq<nat>, k: K)
    requires |outcomes| == |tasks|
    requires IsCompletionOrder(order, |tasks|)
    requires Aggregate(tasks, outcomes, named, maxWorkers, order).Finished?
    requires k in TaskSet(tasks)
    ensures exists i :: (0 <= i < |order| && tasks[order[i]] == k
              && (forall j :: i < j < |order| ==> tasks[order[j]] != k)
              && Wrapped(k, outcomes[order[i]], named).Resolved?
              && Aggregate(tasks, outcomes, named, maxWorkers, order).results[k]
                 == Wrapped(k, outcomes[order[i]], named).pair.1)
  {
    var cs := Completed(Submit(tasks, outcomes, named), order);
    assert AllResolved(cs);
    var ps := ResolvedPairs(cs);
    assert Aggregate(tasks, outcomes, named, maxWorkers, order) == Finished(Collect(ps));
    assert k in KeysOf(ps);
    CollectLastWriterWins(ps, k);
    var i := LastIndex(ps, k);
    assert forall j :: i < j < |order| ==> tasks[order[j]] == ps[j].0;
  }

  // ---------------------------------------------------------------------
  // A pure user function
  // ---------------------------------------------------------------------

  /** The outcomes when every call's outcome depends only on its task value. */
  function PureOutcomes<K, V>(tasks: seq<K>, f: K -> Outcome<V>): (os: seq<Outcome<V>>)
    ensures |os| == |tasks|
    ensures forall i :: 0 <= i < |tasks| ==> os[i] == f(tasks[i])
  {
    seq(|tasks|, i requires 0 <= i < |tasks| => f(tasks[i]))
  }

  /** A pure run on a positive pool whose function never escapes on a task
      value finishes. */
  lemma PureFinishes<K, V>(tasks: seq<K>, f: K -> Outcome<V>, named: bool, maxWorkers: int, order: seq<nat>)
    requires IsCompletionOrder(order, |tasks|)
    requires maxWorkers > 0
    requires forall k :: k in TaskSet(tasks) ==> !Escapes(f(k), named)
    ensures Aggregate(tasks, PureOutcomes(tasks, f), named, maxWorkers, order).Finished?
  {
    var os := PureOutcomes(tasks, f);
    forall i | 0 <= i < |tasks| ensures !Escapes(os[i], named) {
      assert tasks[i] in TaskSet(tasks);
    }
  }

  /** In a finished pure run each task value maps to the wrapped result of
      the function on it. */
  lemma PureEntry<K, V>(tasks: seq<K>, f: K -> Outcome<V>, named: bool, maxWorkers: int, order: seq<nat>, k: K)
    requires IsCompletionOrder(order, |tasks|)
    requires Aggregate(tasks, PureOutcomes(tasks, f), named, maxWorkers, order).Finished?
    requires k in TaskSet(tasks)
    ensures Aggregate(tasks, PureOutcomes(tasks, f), named, maxWorkers, order).results[k]
         == Wrapped(k, f(k), named).pair.1
  {
    var os := PureOutcomes(tasks, f);
    AggregateEntry(tasks, os, named, maxWorkers, order, k);
    var i :| 0 <= i < |order| && tasks[order[i]] == k
              && Aggregate(tasks, os, named, maxWorkers, order).results[k]
                 == Wrapped(k, os[order[i]], named).pair.1;
    assert os[order[i]] == f(k);
  }

  /** With a pure user function a finished run is fixed by the task values
      alone: every distinct task value maps to the wrapped result of the
      function on it, whatever the completion order. */
  lemma PureAggregate<K, V>(tasks: seq<K>, f: K -> Outcome<V>, named: bool, maxWorkers: int, order: seq<nat>)
    requires IsCompletionOrder(order, |tasks|)
    ensures (maxWorkers > 0 && forall k :: k in TaskSet(tasks) ==> !Escapes(f(k), named)) ==>
              Aggregate(tasks, PureOutcomes(tasks, f), named, maxWorkers, order)
              == Finished(map k | k in TaskSet(tasks) :: Wrapped(k, f(k), named).pair.1)
  {
    if maxWorkers > 0 && forall k :: k in TaskSet(tasks) ==> !Escapes(f(k), named) {
      PureFinishes(tasks, f, named, maxWorkers, order);
      var r := Aggregate(tasks, PureOutcomes(tasks, f), named, maxWorkers, order);
      var target := map k | k in TaskSet(tasks) :: Wrapped(k, f(k), named).pair.1;
      forall k | k in r.results ensures r.results[k] == target[k] {
        PureEntry(tasks, f, named, maxWorkers, order, k);
      }
      assert r.results == target;
    }
  }

  /** A finished run is the fold of the futures' pairs taken in completion
      order. */
  lemma FinishedStream<K, V>(tasks: seq<K>, outcomes: seq<Outcome<V>>, named: bool, maxWorkers: int, order: seq<nat>)
    requires |outcomes| == |tasks|
    requires IsCompletionOrder(order, |tasks|)
    requires Aggregate(tasks, outcomes, named, maxWorkers, order).Finished?
    ensures AllResolved(Submit(tasks, outcomes, named))
    ensures Aggregate(tasks, outcomes, named, maxWorkers, order)
         == Finished(Collect(Completed(ResolvedPairs(Submit(tasks, outcomes, named)), order)))
  {
    var futures := Submit(tasks, outcomes, named);
    var cs := Completed(futures, order);
    assert AllResolved(cs);
    assert ResolvedPairs(cs) == Completed(ResolvedPairs(futures), order);
  }

  /** With a pure user function no task value is paired with two different
      results, in any completion order. */
  lemma PureStreamFunctional<K, V>(tasks: seq<K>, f: K -> Outcome<V>, named: bool, order: seq<nat>)
    requires IsCompletionOrder(order, |tasks|)
    requires AllResolved(Submit(tasks, PureOutcomes(tasks, f), named))
    ensures Functional(Completed(ResolvedPairs(Submit(tasks, PureOutcomes(tasks, f), named)), order))
  {
    var ps := Completed(ResolvedPairs(Submit(tasks, PureOutcomes(tasks, f), named)), order);
    forall i, j | 0 <= i < |ps| && 0 <= j < |ps| && ps[i].0 == ps[j].0
      ensures ps[i].1 == ps[j].1
    {
      assert ps[i] == Wrapped(tasks[order[i]], f(tasks[order[i]]), named).pair;
      assert ps[j] == Wrapped(tasks[order[j]], f(tasks[order[j]]), named).pair;
    }
  }

  /** Order independence for a pure user function: any two completion
      orders give the same outcome. */
  lemma PureAggregateOrderIndependent<K, V>(tasks: seq<K>, f: K -> Outcome<V>, named: bool, maxWorkers: int,
                                             order1: seq<nat>, order2: seq<nat>)
    requires IsCompletionOrder(order1, |tasks|)
    requires IsCompletionOrder(order2, |tasks|)
    ensures Aggregate(tasks, PureOutcomes(tasks, f), named, maxWorkers, order1)
         == Aggregate(tasks, PureOutcomes(tasks, f), named, maxWorkers, order2)
  {
    var os := PureOutcomes(tasks, f);
    if Aggregate(tasks, os, named, maxWorkers, order1).Finished? {
      FinishedStream(tasks, os, named, maxWorkers, order1);
      FinishedStream(tasks, os, named, maxWorkers, order2);
      var all := ResolvedPairs(Submit(tasks, os, named));
      CompletedPermutes(all, order1);
      CompletedPermutes(all, order2);
      PureStreamFunctional(tasks, f, named, order1);
      CollectPermutation(Completed(all, order1), Completed(all, order2));
    }
  }

  /** With a pure user function neither the number of workers (when
      positive) nor the completion order it brings about changes the
      outcome of a run. */
  lemma PureAggregateWorkerIndependent<K, V>(tasks: seq<K>, f: K -> Outcome<V>, named: bool,
                                              workers1: int, workers2: int, order1: seq<nat>, order2: seq<nat>)
    requires workers1 > 0 && workers2 > 0
    requires IsCompletionOrder(order1, |tasks|)
    requires IsCompletionOrder(order2, |tasks|)
    ensures Aggregate(tasks, PureOutcomes(tasks, f), named, workers1, order1)
         == Aggregate(tasks, PureOutcomes(tasks, f), named, workers2, order2)
  {
    PureAggregateOrderIndependent(tasks, f, named, workers1, order1, order2);
  }

  /** The distinct values of a three-task list whose first and last agree. */
  lemma TaskSetOfThree<K>(tasks: seq<K>, x: K, y: K)
    requires tasks == [x, y, x]
    ensures TaskSet(tasks) == {x, y}
  {
    forall k | k in TaskSet(tasks) ensures k == x || k == y {
      var i :| 0 <= i < |tasks| && tasks[i] == k;
    }
    assert tasks[0] in TaskSet(tasks) && tasks[1] in TaskSet(tasks);
  }

  /** Duplicate task values collapse: for tasks `x`, `y`, `x` and a pure
      function that never escapes, every completion order gives one entry
      per distinct value. */
  lemma DuplicateCollapses<K, V>(x: K, y: K, f: K -> Outcome<V>, order: seq<nat>)
    requires IsCompletionOrder(order, 3)
    requires !Escapes(f(x), true) && !Escapes(f(y), true)
    ensures Aggregate([x, y, x], PureOutcomes([x, y, x], f), true, 20, order)
         == Finished(map[x := Wrapped(x, f(x), true).pair.1, y := Wrapped(y, f(y), true).pair.1])
  {
    var tasks := [x, y, x];
    TaskSetOfThree(tasks, x, y);
    assert forall k :: k in TaskSet(tasks) ==> !Escapes(f(k), true) by {
      forall k | k in TaskSet(tasks) ensures !Escapes(f(k), true) {
        assert k == x || k == y;
      }
    }
    PureFinishes(tasks, f, true, 20, order);
    var m := Aggregate(tasks, PureOutcomes(tasks, f), true, 20, order).results;
    var target := map[x := Wrapped(x, f(x), true).pair.1, y := Wrapped(y, f(y), true).pair.1];
    assert m.Keys == target.Keys;
    forall k | k in m ensures m[k] == target[k] {
      PureEntry(tasks, f, true, 20, order, k);
      if k != y {
        assert k == x;
      }
    }
    assert m == target;
  }

  /** Worked case: lines `a`, `b`, `a` with a length function and the
      default 20 workers give `{"a": 1, "b": 1}` (the duplicate collapses)
      in every completion order. */
  lemma AggregateDuplicateExample(order: seq<nat>)
    requires IsCompletionOrder(order, 3)
    ensures Aggregate(["a", "b", "a"], PureOutcomes(["a", "b", "a"], (s: string) => Returned(Some(|s|))), true, 20, order)
         == Finished(map["a" := Some(1), "b" := Some(1)])
  {
    DuplicateCollapses("a", "b", (s: string) => Returned(Some(|s|)), order);
  }

  /** Worked case: a task on which a named entry point raises an
      `Exception` is recorded as `None` while the other task keeps its value. */
  lemma AggregateFailureExample(order: seq<nat>)
    requires IsCompletionOrder(order, 2)
    ensures Aggregate(["y", "z"], PureOutcomes(["y", "z"], (s: string) => if s == "z" then Raised else Returned(Some(|s|))), true, 20, order)
         == Finished(map["y" := Some(1), "z" := None])
  {
    var tasks := ["y", "z"];
    var f := (s: string) => if s == "z" then Raised else Returned(Some(|s|));
    assert TaskSet(tasks) == {"y", "z"} by {
      assert tasks[0] == "y" && tasks[1] == "z";
    }
    PureFinishes(tasks, f, true, 20, order);
    var m := Aggregate(tasks, PureOutcomes(tasks, f), true, 20, order).results;
    var target := map["y" := Some(1), "z" := None];
    forall k | k in m ensures m[k] == target[k] {
      PureEntry(tasks, f, true, 20, order, k);
    }
    assert m == target;
  }

  /** As written, isolation depends on the entry point having `__name__`:
      when it has none (a `functools.partial` object, a callable instance),
      the same single raising task aborts the whole run. */
  lemma UnnamedEntryPointAborts(order: seq<nat>)
    requires IsCompletionOrder(order, 2)
    ensures Aggregate(["y", "z"], PureOutcomes(["y", "z"], (s: string) => if s == "z" then Raised else Returned(Some(|s|))), false, 20, order)
         == Aborted
  {
    var os := PureOutcomes(["y", "z"], (s: string) => if s == "z" then Raised else Returned(Some(|s|)));
    assert Escapes(os[1], false);
  }

  /** The intended isolation, which holds for an entry point with
      `__name__` (the handler then cannot fail): with a positive pool size
      a run returns a mapping unless some call raises a `BaseException`
      that is not an `Exception`; any number of `Exception`s are absorbed. */
  lemma NamedEntryPointIsolates<K, V>(tasks: seq<K>, outcomes: seq<Outcome<V>>, maxWorkers: int, order: seq<nat>)
    requires |outcomes| == |tasks|
    requires IsCompletionOrder(order, |tasks|)
    ensures Aggregate(tasks, outcomes, true, maxWorkers, order).Finished?
        <==> maxWorkers > 0 && forall i :: 0 <= i < |tasks| ==> !outcomes[i].RaisedBase?
  {
  }
}
