/** What every run of the file store guarantees to its callers and to whoever reads the file. */
module FileStoreTheorems {
  import opened Wrappers
  import opened Paths
  import opened TokenStore
  import opened TokenFile
  import opened FileStoreProtocol
  import opened FileStoreInvariant

  // ---------------------------------------------------------------------------------------------
  // One load, one write

  /** At most one load and one write are in flight, and a load that settles finds no mutation, so
      it cannot overwrite one. */
  lemma SingleFlight(states: seq<State>, events: seq<Event>, i: nat)
    requires IsRun(states, events) && i < |states|
    ensures var s := states[i];
            && (forall a, b :: 0 <= a < |s.loads| && 0 <= b < |s.loads| && s.loads[a].Pending? && s.loads[b].Pending? ==> a == b)
            && (forall a, b :: 0 <= a < |s.jobs| && 0 <= b < |s.jobs| && s.jobs[a].Writing? && s.jobs[b].Writing? ==> a == b)
            && ((exists a :: 0 <= a < |s.loads| && s.loads[a].Pending?) ==> s.jobs == [] && !s.loaded)
  {
    RunInv(states, events, i);
  }

  lemma CommitStep(s: State, e: Event)
    requires Inv(s) && Enabled(s, e) && s.loaded
    ensures var s' := After(s, e);
            || s'.tokens == s.tokens
            || (e.JobSettles? && e.ok &&
                var w := s.jobs[e.job];
                && s'.tokens == Write(w.op, s.tokens, w.opTime, w.persistTime)
                && s'.jobs[e.job] == Committed(w.op, w.opTime, w.persistTime, ResultOf(w.op, s.tokens, w.opTime)))
  {
  }

  /** In every run, once loaded, memory changes only when a write commits, and then by exactly that
      operation on what memory holds at that moment. */
  lemma CommitsAreAtomic(states: seq<State>, events: seq<Event>, i: nat)
    requires IsRun(states, events) && i < |events| && states[i].loaded
    ensures var s, e, s' := states[i], events[i], states[i + 1];
            || s'.tokens == s.tokens
            || (e.JobSettles? && e.ok && e.job < |s.jobs| && s.jobs[e.job].Writing? &&
                var w := s.jobs[e.job];
                && s'.tokens == Write(w.op, s.tokens, w.opTime, w.persistTime)
                && |s'.jobs| == |s.jobs|
                && s'.jobs[e.job] == Committed(w.op, w.opTime, w.persistTime, ResultOf(w.op, s.tokens, w.opTime)))
  {
    RunStep(states, events, i);
    CommitStep(states[i], events[i]);
  }

  // ---------------------------------------------------------------------------------------------
  // Linearizability

  ghost predicate Returned(pc: Pc) {
    pc.Read? || pc.Acknowledged?
  }

  /** The number of jobs ordered before a returned call, and before whatever follows it. */
  function Start(pc: Pc): nat
    requires pc.Read? || pc.Acknowledged?
  {
    if pc.Read? then pc.at else pc.job
  }

  function End(pc: Pc): nat
    requires pc.Read? || pc.Acknowledged?
  {
    if pc.Read? then pc.at else pc.job + 1
  }

  /** What a later state of a run keeps of an earlier one. */
  ghost predicate Later(s: State, s': State) {
    && |s.jobs| <= |s'.jobs| && |s.calls| <= |s'.calls|
    && (forall i :: 0 <= i < |s.jobs| && Settled(s.jobs[i]) ==> s'.jobs[i] == s.jobs[i])
    && (forall c :: 0 <= c < |s.calls| && Returned(s.calls[c].pc) ==> s'.calls[c] == s.calls[c])
    && (forall c :: 0 <= c < |s.calls| && JobOf(s.calls[c].pc).Some? ==>
          s'.calls[c].pc.Threw? || JobOf(s'.calls[c].pc) == JobOf(s.calls[c].pc))
    && (forall c :: 0 <= c < |s.calls| && s.calls[c].pc.Threw? ==> s'.calls[c].pc.Threw?)
    && (s.loaded ==> s'.loaded && s'.base == s.base)
    && (forall c :: 0 <= c < |s'.calls| && s'.calls[c].pc.Read? && !(c < |s.calls| && s.calls[c].pc.Read?) ==>
          s'.calls[c].pc.at >= SettledCount(s.jobs))
    && (forall c :: 0 <= c < |s'.calls| && JobOf(s'.calls[c].pc).Some? && !(c < |s.calls| && JobOf(s.calls[c].pc).Some?) ==>
          JobOf(s'.calls[c].pc).value >= |s.jobs|)
  }

  lemma SettledCountMax(jobs: seq<Job>, n: nat)
    requires SettledTo(jobs, n)
    ensures n <= SettledCount(jobs)
  {
  }

  lemma SettledCountGrows(s: State, s': State)
    requires |s.jobs| <= |s'.jobs|
    requires forall i :: 0 <= i < |s.jobs| && Settled(s.jobs[i]) ==> s'.jobs[i] == s.jobs[i]
    ensures SettledCount(s.jobs) <= SettledCount(s'.jobs)
  {
    SettledCountMax(s'.jobs, SettledCount(s.jobs));
  }

  lemma LaterReflexive(s: State)
    ensures Later(s, s)
  {
  }

  /** Steps that add a call or settle a load. */
  lemma LoadStepLater(s: State, e: Event)
    requires Inv(s) && Enabled(s, e) && (e.Invoke? || e.LoadSettles?)
    ensures Later(s, After(s, e))
  {
  }

  /** Steps that advance one job. */
  lemma JobStepLater(s: State, e: Event)
    requires Inv(s) && Enabled(s, e) && (e.JobStarts? || e.Renames? || e.JobSettles?)
    ensures Later(s, After(s, e))
  {
    var s' := After(s, e);
    assert s'.calls == s.calls && s'.loaded == s.loaded && s'.base == s.base;
    assert forall i :: 0 <= i < |s.jobs| && Settled(s.jobs[i]) ==> s'.jobs[i] == s.jobs[i];
  }

  lemma ResumeLater(s: State, c: nat)
    requires Inv(s) && Enabled(s, ResumesAfterLoad(c))
    ensures Later(s, DoResume(s, c))
  {
    var s' := DoResume(s, c);
    assert !Returned(s.calls[c].pc) && JobOf(s.calls[c].pc).None?;
    assert forall d :: 0 <= d < |s.calls| && d != c ==> s'.calls[d] == s.calls[d];
  }

  /** One call moves on without leaving its job. */
  lemma OnePcLater(s: State, c: nat, pc: Pc)
    requires c < |s.calls|
    requires var before := s.calls[c].pc;
             && !Returned(before) && !before.Threw? && (pc.Read? ==> pc.at >= SettledCount(s.jobs))
             && (JobOf(before).Some? ==> pc.Threw? || JobOf(pc) == JobOf(before)) && (JobOf(pc).Some? ==> JobOf(before).Some?)
    ensures Later(s, SetPc(s, c, pc))
  {
    var s' := SetPc(s, c, pc);
    assert forall d :: 0 <= d < |s.calls| && d != c ==> s'.calls[d] == s.calls[d];
  }

  lemma ReturnsLater(s: State, c: nat)
    requires Inv(s) && Enabled(s, Returns(c))
    ensures Later(s, DoReturns(s, c))
  {
    var call := s.calls[c];
    assert CallInv(s, call);
    match call.pc
    case AwaitsTail(_) => OnePcLater(s, c, Read(Lookup(s.tokens, call.request.hash), SettledCount(s.jobs)));
    case AwaitsJob(j) => OnePcLater(s, c, if s.jobs[j].Committed? then Acknowledged(j, s.jobs[j].result) else Threw);
    case _ =>
  }

  lemma StepLater(s: State, e: Event)
    requires Inv(s) && Enabled(s, e)
    ensures Later(s, After(s, e))
  {
    match e
    case ResumesAfterLoad(c) => ResumeLater(s, c);
    case Returns(c) => ReturnsLater(s, c);
    case Invoke(_) => LoadStepLater(s, e);
    case LoadSettles(_, _) => LoadStepLater(s, e);
    case _ => JobStepLater(s, e);
  }

  lemma LaterTransitive(a: State, b: State, c: State)
    requires Later(a, b) && Later(b, c)
    ensures Later(a, c)
  {
    SettledCountGrows(a, b);
  }

  lemma RunStep(states: seq<State>, events: seq<Event>, i: nat)
    requires IsRun(states, events) && i < |events|
    ensures Inv(states[i]) && Enabled(states[i], events[i]) && states[i + 1] == After(states[i], events[i])
  {
    RunInv(states, events, i);
  }

  lemma RunStepLater(states: seq<State>, events: seq<Event>, i: nat)
    requires IsRun(states, events) && i < |events|
    ensures Later(states[i], states[i + 1])
  {
    RunStep(states, events, i);
    StepLater(states[i], events[i]);
  }

  lemma {:induction false} ChainLater(states: seq<State>, i: nat, j: nat)
    requires i <= j < |states| && forall k :: 0 <= k < |states| - 1 ==> Later(states[k], states[k + 1])
    ensures Later(states[i], states[j])
    decreases j - i
  {
    if i == j {
      LaterReflexive(states[i]);
    } else {
      ChainLater(states, i, j - 1);
      var k := j - 1;
      assert Later(states[k], states[k + 1]);
      LaterTransitive(states[i], states[k], states[j]);
    }
  }

  lemma RunLater(states: seq<State>, events: seq<Event>, i: nat, j: nat)
    requires IsRun(states, events) && i <= j < |states|
    ensures Later(states[i], states[j])
  {
    forall k | 0 <= k < |states| - 1 ensures Later(states[k], states[k + 1]) {
      RunStepLater(states, events, k);
    }
    ChainLater(states, i, j);
  }

  /** The order of the queue, with every read placed after the jobs it saw, respects real time: a
      call that returned before another was invoked is ordered before it. In particular a `get`
      sees every mutation acknowledged before it was called. */
  lemma RealTimeOrder(states: seq<State>, events: seq<Event>, i: nat, j: nat, a: nat, b: nat)
    requires IsRun(states, events) && i <= j < |states|
    requires a < |states[i].calls| && Returned(states[i].calls[a].pc)
    requires |states[i].calls| <= b < |states[j].calls| && Returned(states[j].calls[b].pc)
    ensures End(states[i].calls[a].pc) <= Start(states[j].calls[b].pc)
  {
    RunInv(states, events, i);
    RunLater(states, events, i, j);
    var s, pc := states[i], states[i].calls[a].pc;
    assert CallInv(s, s.calls[a]);
    assert SettledTo(s.jobs, End(pc)) by {
      if pc.Acknowledged? {
        assert !s.jobs[pc.job].Queued?;
      }
    }
    SettledCountMax(s.jobs, End(pc));
  }

  /** Every returned call got what the sequential store gives at its place in that order. */
  lemma LegalResults(states: seq<State>, events: seq<Event>, i: nat, c: nat)
    requires IsRun(states, events) && i < |states| && c < |states[i].calls|
    requires Returned(states[i].calls[c].pc)
    ensures var s, call := states[i], states[i].calls[c];
            match call.pc {
              case Read(v, n) =>
                n <= |s.jobs| && call.request.Get? && v == Lookup(Fold(s.base, s.jobs[..n]), call.request.hash)
              case Acknowledged(k, v) =>
                && k < |s.jobs| && s.jobs[k].Committed? && call.request == Mutate(s.jobs[k].op)
                && v == ResultOf(s.jobs[k].op, Fold(s.base, s.jobs[..k]), s.jobs[k].opTime)
                && Fold(s.base, s.jobs[..k + 1]) ==
                     Write(s.jobs[k].op, Fold(s.base, s.jobs[..k]), s.jobs[k].opTime, s.jobs[k].persistTime)
              case _ => false
            }
  {
    RunInv(states, events, i);
    var s, call := states[i], states[i].calls[c];
    assert CallInv(s, call);
    if call.pc.Acknowledged? {
      var k := call.pc.job;
      assert s.jobs[..k + 1][..k] == s.jobs[..k];
    }
  }

  /** Memory is the fold, in queue order, of the jobs that succeeded; none is lost and no two
      acknowledged mutations share one. */
  lemma NoLostUpdates(states: seq<State>, events: seq<Event>, i: nat)
    requires IsRun(states, events) && i < |states|
    ensures var s := states[i];
            && s.tokens == Fold(s.base, s.jobs)
            && (forall c :: 0 <= c < |s.calls| && s.calls[c].pc.Acknowledged? ==>
                  s.calls[c].pc.job < |s.jobs| && s.jobs[s.calls[c].pc.job].Committed?)
            && (forall c, d :: 0 <= c < d < |s.calls| && s.calls[c].pc.Acknowledged? && s.calls[d].pc.Acknowledged? ==>
                  s.calls[c].pc.job != s.calls[d].pc.job)
  {
    RunInv(states, events, i);
    var s := states[i];
    forall c | 0 <= c < |s.calls| && s.calls[c].pc.Acknowledged?
      ensures s.calls[c].pc.job < |s.jobs| && s.jobs[s.calls[c].pc.job].Committed?
    {
      assert CallInv(s, s.calls[c]);
    }
  }

  lemma ReadDrains(s: State, c: nat)
    requires Inv(s) && Enabled(s, Returns(c)) && s.calls[c].pc.AwaitsTail?
    ensures After(s, Returns(c)).calls[c].pc.Read?
    ensures s.calls[c].pc.tail <= After(s, Returns(c)).calls[c].pc.at
  {
    var n := s.calls[c].pc.tail;
    assert CallInv(s, s.calls[c]);
    if n > 0 {
      assert !s.jobs[n - 1].Queued?;
      SettledCountMax(s.jobs, n);
    }
  }

  /** The call waits for the first `n` jobs, or has read after them. */
  predicate ReadsAfter(pc: Pc, n: nat) {
    pc == AwaitsTail(n) || (pc.Read? && n <= pc.at)
  }

  lemma ReadStep(s: State, e: Event, c: nat, n: nat)
    requires Inv(s) && Enabled(s, e) && c < |s.calls| && ReadsAfter(s.calls[c].pc, n)
    ensures c < |After(s, e).calls| && ReadsAfter(After(s, e).calls[c].pc, n)
  {
    if e == Returns(c) {
      ReadDrains(s, c);
    }
  }

  ghost predicate KeepsRead(s: State, s': State, c: nat, n: nat) {
    c < |s.calls| && ReadsAfter(s.calls[c].pc, n) ==> c < |s'.calls| && ReadsAfter(s'.calls[c].pc, n)
  }

  lemma {:induction false} ChainRead(states: seq<State>, k: nat, i: nat, c: nat, n: nat)
    requires k <= i < |states| && forall j :: k <= j < i ==> KeepsRead(states[j], states[j + 1], c, n)
    requires c < |states[k].calls| && ReadsAfter(states[k].calls[c].pc, n)
    ensures c < |states[i].calls| && ReadsAfter(states[i].calls[c].pc, n)
  {
    if k < i {
      ChainRead(states, k, i - 1, c, n);
      assert KeepsRead(states[i - 1], states[i - 1 + 1], c, n);
    }
  }

  lemma ReadStepInRun(states: seq<State>, events: seq<Event>, j: nat, c: nat, n: nat)
    requires IsRun(states, events) && j < |events|
    ensures KeepsRead(states[j], states[j + 1], c, n)
  {
    RunStep(states, events, j);
    if c < |states[j].calls| && ReadsAfter(states[j].calls[c].pc, n) {
      ReadStep(states[j], events[j], c, n);
    }
  }

  lemma ReadKept(states: seq<State>, events: seq<Event>, k: nat, i: nat, c: nat, n: nat)
    requires IsRun(states, events) && k <= i < |states|
    requires c < |states[k].calls| && ReadsAfter(states[k].calls[c].pc, n)
    ensures c < |states[i].calls| && ReadsAfter(states[i].calls[c].pc, n)
  {
    forall j | k <= j < i ensures KeepsRead(states[j], states[j + 1], c, n) {
      ReadStepInRun(states, events, j, c, n);
    }
    ChainRead(states, k, i, c, n);
  }

  /** In every run a `get` that passed its load reads only after every job queued at that moment has
      settled. */
  lemma GetDrainsTheQueue(states: seq<State>, events: seq<Event>, k: nat, i: nat, c: nat)
    requires IsRun(states, events) && k < i < |states| && events[k] == ResumesAfterLoad(c)
    requires c < |states[i].calls| && states[i].calls[c].pc.Read?
    requires !states[k + 1].calls[c].pc.Threw?
    ensures |states[k].jobs| <= states[i].calls[c].pc.at && SettledTo(states[i].jobs, |states[k].jobs|)
  {
    RunStep(states, events, k);
    RunInv(states, events, i);
    var n := |states[k].jobs|;
    if states[k].calls[c].request.Get? {
      ReadKept(states, events, k + 1, i, c, n);
    } else {
      JobOfKept(states, events, k + 1, i, c);
    }
    assert CallInv(states[i], states[i].calls[c]);
  }

  /** A mutation that is waiting for its job never turns into a read. */
  lemma JobOfKept(states: seq<State>, events: seq<Event>, k: nat, i: nat, c: nat)
    requires IsRun(states, events) && k <= i < |states|
    requires c < |states[k].calls| && states[k].calls[c].pc.AwaitsJob?
    ensures c < |states[i].calls| && !states[i].calls[c].pc.Read?
  {
    RunLater(states, events, k, i);
  }

  // ---------------------------------------------------------------------------------------------
  // Crashes and failed writes

  /** A job whose file is already in place counts as done for whoever reads the file. */
  function Landed(j: Job): Job {
    if j.Writing? && j.renamed then Committed(j.op, j.opTime, j.persistTime, j.result) else j
  }

  function LandedAll(jobs: seq<Job>): seq<Job> {
    seq(|jobs|, i requires 0 <= i < |jobs| => Landed(jobs[i]))
  }

  /** The file holds the result of the first `p` jobs. */
  ghost predicate Recoverable(s: State, p: nat) {
    p <= |s.jobs| && LoadMap(s.disk) == Some(Fold(s.base, LandedAll(s.jobs)[..p]))
  }

  lemma NoLandingSame(jobs: seq<Job>, n: nat)
    requires n <= |jobs| && forall i :: 0 <= i < n ==> !jobs[i].Writing?
    ensures LandedAll(jobs)[..n] == jobs[..n]
  {
  }

  lemma FoldLast(base: Tokens, jobs: seq<Job>, j: nat)
    requires j < |jobs| && jobs[j].Committed?
    ensures Fold(base, jobs[..j + 1]) == Write(jobs[j].op, Fold(base, jobs[..j]), jobs[j].opTime, jobs[j].persistTime)
  {
    assert jobs[..j + 1][..j] == jobs[..j];
  }

  lemma LandingDisk(s: State, j: nat)
    requires Inv(s) && Landing(s.jobs, j)
    ensures Recoverable(s, j + 1)
  {
    var w, all := s.jobs[j], LandedAll(s.jobs);
    assert forall i :: 0 <= i < j ==> Settled(s.jobs[i]);
    NoLandingSame(s.jobs, j);
    assert all[..j + 1][..j] == s.jobs[..j];
    CommitOne(s.base, s.jobs, j, Landed(w));
    FoldLast(s.base, all, j);
  }

  /** At every point of every run the file holds the result of a prefix of the successful
      operations, and that prefix includes every acknowledged one. */
  lemma CrashConsistent(states: seq<State>, events: seq<Event>, i: nat) returns (p: nat)
    requires IsRun(states, events) && i < |states| && states[i].loaded
    ensures Recoverable(states[i], p)
    ensures forall c :: 0 <= c < |states[i].calls| && states[i].calls[c].pc.Acknowledged? ==>
              states[i].calls[c].pc.job < p
  {
    RunInv(states, events, i);
    var s := states[i];
    var n := SettledCount(s.jobs);
    if j: nat :| Landing(s.jobs, j) {
      p := j + 1;
      LandingDisk(s, j);
    } else {
      p := n;
      MemoryIsSettledFold(s);
      NoLandingSame(s.jobs, n);
    }
    forall c | 0 <= c < |s.calls| && s.calls[c].pc.Acknowledged? ensures s.calls[c].pc.job < p {
      assert CallInv(s, s.calls[c]);
      var k := s.calls[c].pc.job;
      assert !s.jobs[k].Queued?;
      SettledCountMax(s.jobs, k + 1);
    }
  }

  lemma UnloadedStep(s: State, e: Event)
    requires Inv(s) && Enabled(s, e) && !After(s, e).loaded
    ensures !s.loaded && After(s, e).disk == s.disk
  {
  }

  lemma UnloadedCalls(s: State, c: nat)
    requires Inv(s) && !s.loaded && c < |s.calls|
    ensures !Returned(s.calls[c].pc)
  {
    assert CallInv(s, s.calls[c]);
  }

  /** Until a load has succeeded nothing is written and nothing is acknowledged. */
  lemma {:induction false} UntouchedBeforeLoad(states: seq<State>, events: seq<Event>, i: nat)
    requires IsRun(states, events) && i < |states| && !states[i].loaded
    ensures states[i].disk == states[0].disk
    ensures forall c :: 0 <= c < |states[i].calls| ==> !Returned(states[i].calls[c].pc)
  {
    if i > 0 {
      RunStep(states, events, i - 1);
      UnloadedStep(states[i - 1], events[i - 1]);
      UntouchedBeforeLoad(states, events, i - 1);
    }
    RunInv(states, events, i);
    forall c | 0 <= c < |states[i].calls| ensures !Returned(states[i].calls[c].pc) {
      UnloadedCalls(states[i], c);
    }
  }

  lemma FailedWriteStep(s: State, j: nat, t: int, p: int) returns (listing: seq<Token>)
    requires Inv(s) && Enabled(s, JobSettles(j, false))
    ensures var s' := After(s, JobSettles(j, false));
            && s'.tokens == s.tokens && s'.disk == s.disk && LoadMap(s'.disk) == Some(s'.tokens)
            && (j + 1 < |s.jobs| ==> Enabled(s', JobStarts(j + 1, t, p, listing)))
  {
    FailedWriteKeeps(s, j);
    listing := [];
    if j + 1 < |s.jobs| {
      listing := NextJobStarts(s, j, t, p);
    }
  }

  lemma FailedWriteKeeps(s: State, j: nat)
    requires Inv(s) && Enabled(s, JobSettles(j, false))
    ensures var s' := DoJobSettles(s, j, false);
            s'.tokens == s.tokens && s'.disk == s.disk && LoadMap(s'.disk) == Some(s'.tokens)
  {
    forall i: nat ensures !Landing(s.jobs, i) {
    }
  }

  lemma NextJobStarts(s: State, j: nat, t: int, p: int) returns (listing: seq<Token>)
    requires Inv(s) && Enabled(s, JobSettles(j, false)) && j + 1 < |s.jobs|
    ensures Enabled(DoJobSettles(s, j, false), JobStarts(j + 1, t, p, listing))
  {
    assert s.jobs[j + 1].Queued?;
    WriteKeepsKeys(s.jobs[j + 1].op, s.tokens, t, p);
    listing := ListingExists(Write(s.jobs[j + 1].op, s.tokens, t, p));
  }

  /** In every run a failed write changes neither memory nor the file, the two agree right after it,
      and the next job can start. */
  lemma FailedWriteIsHarmless(states: seq<State>, events: seq<Event>, i: nat, t: int, p: int) returns (listing: seq<Token>)
    requires IsRun(states, events) && i < |events| && events[i].JobSettles? && !events[i].ok
    ensures var s, s', j := states[i], states[i + 1], events[i].job;
            && s'.tokens == s.tokens && s'.disk == s.disk && LoadMap(s'.disk) == Some(s'.tokens)
            && (j + 1 < |s'.jobs| ==> Enabled(s', JobStarts(j + 1, t, p, listing)))
  {
    RunStep(states, events, i);
    listing := FailedWriteStep(states[i], events[i].job, t, p);
  }

  // ---------------------------------------------------------------------------------------------
  // Progress

  /** How the jobs end when `ok` says which writes succeed: a job whose file is already in place can
      only succeed. */
  ghost predicate EndsAs(jobs: seq<Job>, final: seq<Job>, ok: nat -> bool) {
    && |final| == |jobs|
    && forall j :: 0 <= j < |jobs| ==>
         if Settled(jobs[j]) then final[j] == jobs[j]
         else Settled(final[j]) && final[j].op == jobs[j].op && (final[j].Committed? <==> Landing(jobs, j) || ok(j))
  }

  lemma SettledCountIs(jobs: seq<Job>, n: nat)
    requires SettledTo(jobs, n) && n < |jobs| && !Settled(jobs[n])
    ensures SettledCount(jobs) == n
  {
    SettledCountMax(jobs, n);
  }

  lemma SettledAfter(jobs: seq<Job>, jobs': seq<Job>, n: nat)
    requires n == SettledCount(jobs) < |jobs| == |jobs'| && forall j :: 0 <= j < n ==> jobs'[j] == jobs[j]
    ensures if Settled(jobs'[n]) then SettledCount(jobs') > n else SettledCount(jobs') == n
  {
    if Settled(jobs'[n]) {
      SettledCountMax(jobs', n + 1);
    } else {
      SettledCountIs(jobs', n);
    }
  }

  /** The steps a job still has to take. */
  function StepsLeft(j: Job): nat {
    if j.Queued? then 3 else if j.Writing? && !j.renamed then 2 else if j.Writing? then 1 else 0
  }

  /** The next step of the first unsettled job. */
  lemma NextStep(s: State, ok: bool, t: int, p: int) returns (e: Event)
    requires Inv(s) && SettledCount(s.jobs) < |s.jobs|
    ensures var n := SettledCount(s.jobs);
            && Enabled(s, e) && |After(s, e).jobs| == |s.jobs| && (forall j :: 0 <= j < |s.jobs| && j != n ==> After(s, e).jobs[j] == s.jobs[j])
            && Keeps(s, After(s, e)) && !e.Invoke?
            && StepsLeft(After(s, e).jobs[n]) < StepsLeft(s.jobs[n])
            && After(s, e).jobs[n].op == s.jobs[n].op
            && (Landing(After(s, e).jobs, n) ==> Landing(s.jobs, n) || ok)
            && (Landing(s.jobs, n) ==> Landing(After(s, e).jobs, n) || After(s, e).jobs[n].Committed?)
            && (Settled(After(s, e).jobs[n]) ==> (After(s, e).jobs[n].Committed? <==> Landing(s.jobs, n)) && (Landing(s.jobs, n) || !ok))
  {
    var n := SettledCount(s.jobs);
    match s.jobs[n] {
      case Queued(op) =>
        WriteKeepsKeys(op, s.tokens, t, p);
        var listing := ListingExists(Write(op, s.tokens, t, p));
        e := JobStarts(n, t, p, listing);
      case Writing(_, _, _, _, _, _, renamed) =>
        e := if renamed then JobSettles(n, true) else if ok then Renames(n) else JobSettles(n, false);
      case _ =>
    }
  }

  lemma EndsAsStep(jobs: seq<Job>, jobs': seq<Job>, final: seq<Job>, n: nat, ok: nat -> bool)
    requires n < |jobs| == |jobs'| && !Settled(jobs[n]) && (forall j :: 0 <= j < |jobs| && j != n ==> jobs'[j] == jobs[j])
    requires jobs'[n].op == jobs[n].op && EndsAs(jobs', final, ok)
    requires Landing(jobs', n) ==> Landing(jobs, n) || ok(n)
    requires Landing(jobs, n) ==> Landing(jobs', n) || jobs'[n].Committed?
    requires Settled(jobs'[n]) ==> (jobs'[n].Committed? <==> Landing(jobs, n)) && (Landing(jobs, n) || !ok(n))
    ensures EndsAs(jobs, final, ok)
  {
    forall j | 0 <= j < |jobs|
      ensures if Settled(jobs[j]) then final[j] == jobs[j]
              else Settled(final[j]) && final[j].op == jobs[j].op && (final[j].Committed? <==> Landing(jobs, j) || ok(j))
    {
      if j != n {
        assert jobs'[j] == jobs[j];
      }
    }
  }

  /** What writing does not touch. */
  ghost predicate Keeps(s: State, s': State) {
    && s'.calls == s.calls && s'.base == s.base && s'.loads == s.loads && s'.loaded == s.loaded && s'.loadPromise == s.loadPromise
  }

  /** Steps of the store only, no new call. */
  ghost predicate NoInvoke(events: seq<Event>) {
    forall k :: 0 <= k < |events| ==> !events[k].Invoke?
  }

  lemma FirstLeads(s: State, e: Event, more: seq<Event>, s': State)
    requires Enabled(s, e) && !e.Invoke? && Leads(Step, After(s, e), more, s') && NoInvoke(more)
    ensures Leads(Step, s, [e] + more, s') && NoInvoke([e] + more)
  {
    assert ([e] + more)[1..] == more;
  }

  lemma {:induction false} SettleFrom(s: State, ok: nat -> bool, t: int, p: int) returns (events: seq<Event>, s': State)
    requires Inv(s)
    ensures Leads(Step, s, events, s') && NoInvoke(events) && Inv(s') && EndsAs(s.jobs, s'.jobs, ok)
    ensures Keeps(s, s') && (s.jobs == [] ==> s' == s)
    decreases |s.jobs| - SettledCount(s.jobs), if SettledCount(s.jobs) < |s.jobs| then StepsLeft(s.jobs[SettledCount(s.jobs)]) else 0
  {
    var n := SettledCount(s.jobs);
    if n == |s.jobs| {
      return [], s;
    }
    var e := NextStep(s, ok(n), t, p);
    var next := After(s, e);
    StepInv(s, e);
    SettledAfter(s.jobs, next.jobs, n);
    var more;
    more, s' := SettleFrom(next, ok, t, p);
    EndsAsStep(s.jobs, next.jobs, s'.jobs, n, ok);
    FirstLeads(s, e, more, s');
    events := [e] + more;
  }

  /** From every reachable state finitely many steps of the store settle every queued job, whichever
      of the writes succeed and whichever fail. */
  lemma EveryJobSettles(states: seq<State>, events: seq<Event>, i: nat, ok: nat -> bool, t: int, p: int)
    returns (more: seq<Event>, s': State)
    requires IsRun(states, events) && i < |states|
    ensures Leads(Step, states[i], more, s') && EndsAs(states[i].jobs, s'.jobs, ok)
    ensures NoInvoke(more) && s'.calls == states[i].calls && s'.tokens == Fold(states[i].base, s'.jobs)
  {
    RunInv(states, events, i);
    more, s' := SettleFrom(states[i], ok, t, p);
  }

  // ---------------------------------------------------------------------------------------------
  // Against the memory store

  function Commits(jobs: seq<Job>): seq<Commit> {
    if jobs == [] then []
    else
      var rest, j := Commits(jobs[..|jobs| - 1]), jobs[|jobs| - 1];
      if j.Committed? then rest + [Commit(j.op, j.opTime, j.persistTime)] else rest
  }

  lemma {:induction false} FoldIsFileFold(base: Tokens, jobs: seq<Job>)
    ensures Fold(base, jobs) == FileFold(base, Commits(jobs))
  {
    if jobs != [] {
      var rest, j := jobs[..|jobs| - 1], jobs[|jobs| - 1];
      FoldIsFileFold(base, rest);
      if j.Committed? {
        assert Commits(jobs)[..|Commits(jobs)| - 1] == Commits(rest);
      }
    }
  }

  /** In every run, under a non-decreasing clock, the file store holds the unexpired tokens that the
      memory store would hold after the same successful operations. */
  lemma RunRefinesMemory(states: seq<State>, events: seq<Event>, i: nat, now: int)
    requires IsRun(states, events) && i < |states|
    requires Monotone(Commits(states[i].jobs))
    requires forall k :: 0 <= k < |Commits(states[i].jobs)| ==> Commits(states[i].jobs)[k].persistTime <= now
    ensures Agree(states[i].tokens, MemoryFold(states[i].base, Commits(states[i].jobs)), now)
  {
    RunInv(states, events, i);
    FoldIsFileFold(states[i].base, states[i].jobs);
    FileRefinesMemory(states[i].base, Commits(states[i].jobs), now);
  }
}
