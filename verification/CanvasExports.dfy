/** `readCanvasExports`: reads in batches of two, whatever order the reads settle in. */
module CanvasExports {
  import opened Wrappers
  import opened Sets

  const CONCURRENCY: nat := 2

  datatype Outcome<T, E> = Fulfilled(value: T) | Rejected(reason: E)

  datatype Phase<T, E> = Reading | Returned(values: seq<T>) | Thrown(reason: E)

  /** `base` is the first index of the current batch; `outcomes` holds the reads that have settled. */
  datatype State<T, E> = State(count: nat, base: nat, outcomes: map<nat, Outcome<T, E>>, results: seq<T>, phase: Phase<T, E>)

  datatype Step<T, E> = Settles(index: nat, outcome: Outcome<T, E>) | Collects

  function Min(a: nat, b: nat): nat {
    if a <= b then a else b
  }

  /** The reads started so far are those below this index. */
  function Started<T, E>(s: State<T, E>): nat {
    Min(s.base + CONCURRENCY, s.count)
  }

  function InFlight<T, E>(s: State<T, E>): set<nat> {
    set i | s.base <= i < Started(s) && i !in s.outcomes :: i
  }

  function Initial<T, E>(count: nat): State<T, E> {
    State(count, 0, map[], [], if count == 0 then Returned([]) else Reading)
  }

  predicate Enabled<T, E>(s: State<T, E>, e: Step<T, E>) {
    && s.phase.Reading?
    && match e
       case Settles(i, _) => i in InFlight(s)
       case Collects => InFlight(s) == {}
  }

  /** The settled batch, in index order. */
  function Batch<T, E>(s: State<T, E>): seq<Outcome<T, E>>
    requires InFlight(s) == {}
  {
    assert forall i :: s.base <= i < Started(s) && i !in s.outcomes ==> i in InFlight(s);
    if s.base >= Started(s) then [] else seq(Started(s) - s.base, k requires 0 <= k < Started(s) - s.base => s.outcomes[s.base + k])
  }

  /** The values before the first rejection, and its reason if there is one. */
  function Collected<T, E>(batch: seq<Outcome<T, E>>): (seq<T>, Option<E>) {
    if batch == [] then ([], None)
    else if batch[0].Rejected? then ([], Some(batch[0].reason))
    else
      var rest := Collected(batch[1..]);
      ([batch[0].value] + rest.0, rest.1)
  }

  function After<T, E>(s: State<T, E>, e: Step<T, E>): State<T, E>
    requires Enabled(s, e)
  {
    match e
    case Settles(i, o) => s.(outcomes := s.outcomes[i := o])
    case Collects =>
      var (values, reason) := Collected(Batch(s));
      if reason.Some? then s.(results := s.results + values, phase := Thrown(reason.value))
      else
        var results := s.results + values;
        if s.base + CONCURRENCY >= s.count then s.(results := results, phase := Returned(results))
        else s.(results := results, base := s.base + CONCURRENCY)
  }

  ghost predicate IsRun<T, E>(run: seq<State<T, E>>, steps: seq<Step<T, E>>) {
    && |run| == |steps| + 1 && run[0] == Initial(run[0].count)
    && forall k :: 0 <= k < |steps| ==> Enabled(run[k], steps[k]) && run[k + 1] == After(run[k], steps[k])
  }

  // ---------------------------------------------------------------------------------------------
  // Invariant

  ghost predicate FulfilledBelow<T, E>(s: State<T, E>, n: nat) {
    forall i :: 0 <= i < n ==> i in s.outcomes && s.outcomes[i].Fulfilled?
  }

  /** The results are the values read, in input order. */
  ghost predicate InOrder<T, E>(s: State<T, E>) {
    FulfilledBelow(s, |s.results|) && forall i :: 0 <= i < |s.results| ==> s.results[i] == s.outcomes[i].value
  }

  ghost predicate AllSettled<T, E>(s: State<T, E>) {
    forall i: nat :: i in s.outcomes <==> i < Started(s)
  }

  ghost predicate Inv<T, E>(s: State<T, E>) {
    && InOrder(s)
    && (forall i :: i in s.outcomes ==> i < Started(s))
    && match s.phase
       case Reading => s.base < s.count && |s.results| == s.base
       case Returned(values) => values == s.results && |values| == s.count
       case Thrown(reason) =>
         && AllSettled(s) && s.base <= |s.results| < Started(s)
         && s.outcomes[|s.results|] == Rejected(reason)
  }

  lemma {:induction false} CollectedPrefix<T, E>(batch: seq<Outcome<T, E>>)
    ensures var (values, reason) := Collected(batch);
            && |values| <= |batch|
            && (forall i :: 0 <= i < |values| ==> batch[i] == Fulfilled(values[i]))
            && (reason.Some? ==> |values| < |batch| && batch[|values|] == Rejected(reason.value))
            && (reason.None? ==> |values| == |batch|)
  {
    if batch != [] && batch[0].Fulfilled? {
      CollectedPrefix(batch[1..]);
    }
  }

  lemma IdleIsSettled<T, E>(s: State<T, E>)
    requires Inv(s) && Enabled(s, Collects)
    ensures AllSettled(s)
  {
    assert forall i :: s.base <= i < Started(s) && i !in s.outcomes ==> i in InFlight(s);
  }

  lemma ResultsGrow<T, E>(s: State<T, E>, values: seq<T>)
    requires InOrder(s)
    requires forall i :: |s.results| <= i < |s.results| + |values| ==> i in s.outcomes && s.outcomes[i] == Fulfilled(values[i - |s.results|])
    ensures InOrder(s.(results := s.results + values))
  {
  }

  lemma CollectKeepsOrder<T, E>(s: State<T, E>)
    requires Inv(s) && Enabled(s, Collects)
    ensures var (values, reason) := Collected(Batch(s));
            InOrder(s.(results := s.results + values)) && AllSettled(s)
            && (reason.Some? ==> |s.results + values| < Started(s) && s.outcomes[|s.results + values|] == Rejected(reason.value))
            && (reason.None? ==> |s.results + values| == Started(s))
  {
    CollectedPrefix(Batch(s));
    IdleIsSettled(s);
    ResultsGrow(s, Collected(Batch(s)).0);
  }

  lemma StepInv<T, E>(s: State<T, E>, e: Step<T, E>)
    requires Inv(s) && Enabled(s, e)
    ensures Inv(After(s, e))
  {
    if e.Collects? {
      CollectKeepsOrder(s);
    }
  }

  lemma {:induction false} RunInv<T, E>(run: seq<State<T, E>>, steps: seq<Step<T, E>>, k: nat)
    requires IsRun(run, steps) && k < |run|
    ensures Inv(run[k]) && run[k].count == run[0].count
  {
    if k > 0 {
      RunInv(run, steps, k - 1);
      StepInv(run[k - 1], steps[k - 1]);
    }
  }

  // ---------------------------------------------------------------------------------------------
  // What every run keeps

  lemma SmallInterval(s: set<nat>, low: nat)
    requires forall i :: i in s ==> low <= i < low + 2
    ensures |s| <= 2
  {
    assert s <= {low, low + 1};
    SubsetSize(s, {low, low + 1});
  }

  /** No more than two reads are in flight at any point of any run. */
  lemma AtMostTwoInFlight<T, E>(run: seq<State<T, E>>, steps: seq<Step<T, E>>, k: nat)
    requires IsRun(run, steps) && k < |run|
    ensures |InFlight(run[k])| <= 2
  {
    SmallInterval(InFlight(run[k]), run[k].base);
  }

  /** A return has one result for each input, in input order, whatever order the reads settled in. */
  lemma ReturnsInInputOrder<T, E>(run: seq<State<T, E>>, steps: seq<Step<T, E>>, k: nat)
    requires IsRun(run, steps) && k < |run| && run[k].phase.Returned?
    ensures var values := run[k].phase.values;
            |values| == run[0].count
            && forall i :: 0 <= i < |values| ==> i in run[k].outcomes && run[k].outcomes[i] == Fulfilled(values[i])
  {
    RunInv(run, steps, k);
  }

  /** A failure throws the error of the lowest failing index, after every started read has settled,
      and no read outside its batch was started. */
  lemma ThrowsLowestError<T, E>(run: seq<State<T, E>>, steps: seq<Step<T, E>>, k: nat)
    requires IsRun(run, steps) && k < |run| && run[k].phase.Thrown?
    ensures exists i :: i in run[k].outcomes && run[k].outcomes[i] == Rejected(run[k].phase.reason)
                        && FulfilledBelow(run[k], i) && run[k].base <= i < Started(run[k]) <= run[k].base + 2
    ensures InFlight(run[k]) == {} && AllSettled(run[k])
  {
    RunInv(run, steps, k);
    assert run[k].outcomes[|run[k].results|] == Rejected(run[k].phase.reason);
  }

  /** A read settles once and its outcome is never replaced. */
  lemma OutcomesAreKept<T, E>(run: seq<State<T, E>>, steps: seq<Step<T, E>>, k: nat, i: nat)
    requires IsRun(run, steps) && k < |steps| && i in run[k].outcomes
    ensures i in run[k + 1].outcomes && run[k + 1].outcomes[i] == run[k].outcomes[i]
  {
    assert Enabled(run[k], steps[k]);
  }

  // ---------------------------------------------------------------------------------------------
  // The inner loop

  /** `for (const result of batch)`: pushes values until a rejection. */
  method Collect<T, E>(results: seq<T>, batch: seq<Outcome<T, E>>) returns (pushed: seq<T>, reason: Option<E>)
    ensures pushed == results + Collected(batch).0 && reason == Collected(batch).1
  {
    pushed, reason := results, None;
    for k := 0 to |batch|
      invariant reason.None? && pushed + Collected(batch[k..]).0 == results + Collected(batch).0
      invariant Collected(batch[k..]).1 == Collected(batch).1
    {
      assert batch[k..][1..] == batch[k + 1..];
      if batch[k].Rejected? {
        return pushed, Some(batch[k].reason);
      }
      pushed := pushed + [batch[k].value];
    }
  }

  lemma {:induction false} CollectedConcat<T, E>(a: seq<Outcome<T, E>>, b: seq<Outcome<T, E>>)
    ensures Collected(a + b) ==
            if Collected<T, E>(a).1.Some? then Collected(a) else (Collected<T, E>(a).0 + Collected<T, E>(b).0, Collected<T, E>(b).1)
  {
    if a == [] {
      assert a + b == b && [] + Collected<T, E>(b).0 == Collected<T, E>(b).0;
    } else {
      assert (a + b)[1..] == a[1..] + b;
      CollectedConcat(a[1..], b);
      if a[0].Fulfilled? {
        var x, y := Collected<T, E>(a[1..]).0, Collected<T, E>(b).0;
        assert [a[0].value] + (x + y) == [a[0].value] + x + y;
      }
    }
  }

  /** One more batch: what is collected so far, and for good when a read was rejected. */
  lemma NextBatch<T, E>(outcomes: seq<Outcome<T, E>>, index: nat, next: nat, results: seq<T>)
    requires index <= next <= |outcomes| && Collected(outcomes[..index]) == (results, None)
    ensures var c := Collected<T, E>(outcomes[index..next]);
            && Collected(outcomes[..next]) == (results + c.0, c.1)
            && (c.1.Some? ==> Collected(outcomes) == (results + c.0, c.1))
  {
    CollectedConcat(outcomes[..index], outcomes[index..next]);
    assert outcomes[..index] + outcomes[index..next] == outcomes[..next];
    CollectedConcat(outcomes[..next], outcomes[next..]);
    assert outcomes[..next] + outcomes[next..] == outcomes;
  }

  /** The outer loop, given what each read settles to. It returns what one pass over all outcomes
      would, and starts no read beyond the batch of the first rejection. */
  method ReadCanvasExports<T, E>(outcomes: seq<Outcome<T, E>>) returns (r: Result<seq<T>, E>, started: nat)
    ensures var (values, reason) := Collected(outcomes);
            && r == (if reason.Some? then Err(reason.value) else Ok(values))
            && started == if reason.Some? then Min(|values| / CONCURRENCY * CONCURRENCY + CONCURRENCY, |outcomes|) else |outcomes|
  {
    var results: seq<T> := [];
    var index := 0;
    CollectedPrefix(outcomes);
    while index < |outcomes|
      invariant index <= |outcomes| + 1 && index % CONCURRENCY == 0
      invariant Collected(outcomes[..Min(index, |outcomes|)]) == (results, None)
      invariant |results| == Min(index, |outcomes|)
    {
      var next := Min(index + CONCURRENCY, |outcomes|);
      var batch := outcomes[index..next];
      var pushed, reason := Collect(results, batch);
      CollectedPrefix(batch);
      NextBatch(outcomes, index, next, results);
      if reason.Some? {
        return Err(reason.value), next;
      }
      results := pushed;
      index := index + CONCURRENCY;
    }
    assert outcomes[..|outcomes|] == outcomes;
    return Ok(results), |outcomes|;
  }
}
