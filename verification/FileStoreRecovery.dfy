/** Failures of the file store reach the calls that met them and no others, and the store recovers. */
module FileStoreRecovery {
  import opened Wrappers
  import opened Paths
  import opened TokenStore
  import opened TokenFile
  import opened FileStoreProtocol
  import opened FileStoreInvariant
  import opened FileStoreTheorems

  // ---------------------------------------------------------------------------------------------
  // Who throws

  /** The load or the write that the call was waiting for has failed. */
  ghost predicate MetFailure(s: State, pc: Pc) {
    match pc
    case AwaitsLoad(l) => l < |s.loads| && s.loads[l].Rejected?
    case AwaitsJob(j) => j < |s.jobs| && s.jobs[j].Failed?
    case _ => false
  }

  lemma ThrowStep(s: State, e: Event, c: nat)
    requires Inv(s) && Enabled(s, e) && c < |After(s, e).calls|
    ensures After(s, e).calls[c].pc.Threw? <==>
              c < |s.calls| && (s.calls[c].pc.Threw? || ((e == ResumesAfterLoad(c) || e == Returns(c)) && MetFailure(s, s.calls[c].pc)))
  {
    if c < |s.calls| {
      assert CallInv(s, s.calls[c]);
    }
  }

  /** In every run a call throws exactly when it is resumed after the load it was waiting for failed,
      or after its own write failed; no other event makes it throw. */
  lemma ThrowsExactly(states: seq<State>, events: seq<Event>, i: nat, c: nat)
    requires IsRun(states, events) && i < |events| && c < |states[i + 1].calls|
    ensures var s, e := states[i], events[i];
            states[i + 1].calls[c].pc.Threw? <==>
              c < |s.calls| && (s.calls[c].pc.Threw? || ((e == ResumesAfterLoad(c) || e == Returns(c)) && MetFailure(s, s.calls[c].pc)))
  {
    RunStep(states, events, i);
    ThrowStep(states[i], events[i], c);
  }

  // ---------------------------------------------------------------------------------------------
  // No failed load stays

  ghost predicate Awaits(s: State, l: nat) {
    exists c :: 0 <= c < |s.calls| && s.calls[c].pc == AwaitsLoad(l)
  }

  /** Until a load has succeeded, the current one has someone waiting for it who will clear it. */
  ghost predicate Awaited(s: State) {
    !s.loaded && s.loadPromise.Some? ==> Awaits(s, s.loadPromise.value)
  }

  lemma InvokeAwaited(s: State, r: Request)
    requires Awaited(s)
    ensures Awaited(DoInvoke(s, r))
  {
    var s' := DoInvoke(s, r);
    assert forall c :: 0 <= c < |s.calls| ==> s'.calls[c] == s.calls[c];
    if s'.loadPromise.Some? && !s'.loaded {
      assert s'.calls[|s.calls|].pc == AwaitsLoad(s'.loadPromise.value);
    }
  }

  lemma ResumeAwaited(s: State, c: nat)
    requires Inv(s) && Awaited(s) && Enabled(s, ResumesAfterLoad(c))
    ensures Awaited(DoResume(s, c))
  {
    var s' := DoResume(s, c);
    assert CallInv(s, s.calls[c]);
    if !s.loaded && s'.loadPromise.Some? {
      var d :| 0 <= d < |s.calls| && s.calls[d].pc == AwaitsLoad(s.loadPromise.value);
      assert s'.calls[d] == s.calls[d];
    }
  }

  lemma StepAwaited(s: State, e: Event)
    requires Inv(s) && Awaited(s) && Enabled(s, e)
    ensures Awaited(After(s, e))
  {
    match e
    case Invoke(r) => InvokeAwaited(s, r);
    case ResumesAfterLoad(c) => ResumeAwaited(s, c);
    case Returns(c) => assert CallInv(s, s.calls[c]);
    case _ =>
  }

  /** In every run, until a load has succeeded, the load that new calls would join is pending or is
      still awaited by some call. */
  lemma {:induction false} FailedLoadIsAwaited(states: seq<State>, events: seq<Event>, i: nat)
    requires IsRun(states, events) && i < |states|
    ensures Awaited(states[i])
  {
    if i > 0 {
      FailedLoadIsAwaited(states, events, i - 1);
      RunStep(states, events, i - 1);
      StepAwaited(states[i - 1], events[i - 1]);
    }
  }

  // ---------------------------------------------------------------------------------------------
  // Calls settle

  ghost predicate Over(pc: Pc) {
    pc.Read? || pc.Acknowledged? || pc.Threw?
  }

  predicate BeforeLoad(pc: Pc) {
    pc.AwaitsLoad? || pc.LoadDone?
  }

  ghost predicate Loadable(s: State) {
    s.loaded || LoadMap(s.disk).Some?
  }

  ghost predicate NoPending(s: State) {
    forall l :: 0 <= l < |s.loads| ==> !s.loads[l].Pending?
  }

  /** Loads have settled, and the next one would succeed. */
  ghost predicate Ready(s: State) {
    Inv(s) && Awaited(s) && NoPending(s) && Loadable(s)
  }

  lemma Uncons(a: seq<Event>, b: seq<Event>)
    requires a != []
    ensures a + b == [a[0]] + (a[1..] + b)
  {
  }

  lemma FirstStep(s: State, a: seq<Event>, mid: State)
    requires a != [] && Leads(Step, s, a, mid) && NoInvoke(a)
    ensures Enabled(s, a[0]) && !a[0].Invoke? && Leads(Step, After(s, a[0]), a[1..], mid) && NoInvoke(a[1..])
  {
  }

  lemma {:induction false} LeadsOn(s: State, a: seq<Event>, mid: State, b: seq<Event>, s': State)
    requires Leads(Step, s, a, mid) && Leads(Step, mid, b, s') && NoInvoke(a) && NoInvoke(b)
    ensures Leads(Step, s, a + b, s') && NoInvoke(a + b)
    decreases |a|
  {
    if a == [] {
      assert a + b == b;
    } else {
      FirstStep(s, a, mid);
      LeadsOn(After(s, a[0]), a[1..], mid, b, s');
      FirstLeads(s, a[0], a[1..] + b, s');
      Uncons(a, b);
    }
  }

  lemma LeadsOne(s: State, e: Event)
    requires Enabled(s, e)
    ensures Leads(Step, s, [e], After(s, e))
  {
    assert Leads(Step, After(s, e), [e][1..], After(s, e));
  }

  lemma SettleLoad(s: State) returns (events: seq<Event>, s': State)
    requires Inv(s) && Awaited(s) && Loadable(s)
    ensures Leads(Step, s, events, s') && NoInvoke(events) && Ready(s') && s'.calls == s.calls
    ensures s.loaded || !NoPending(s) ==> s'.loaded
    ensures forall l :: 0 <= l < |s.loads| && s.loads[l].Pending? ==> l < |s'.loads| && s'.loads[l].Resolved?
  {
    if l: nat :| l < |s.loads| && s.loads[l].Pending? {
      var e := LoadSettles(l, false);
      LeadsOne(s, e);
      StepInv(s, e);
      StepAwaited(s, e);
      events, s' := [e], After(s, e);
    } else {
      events, s' := [], s;
    }
  }

  lemma ResumeReady(s: State, c: nat)
    requires Ready(s) && c < |s.calls| && BeforeLoad(s.calls[c].pc)
    ensures Enabled(s, ResumesAfterLoad(c)) && Ready(DoResume(s, c))
    ensures var s' := DoResume(s, c);
            && |s'.calls| == |s.calls| && !BeforeLoad(s'.calls[c].pc) && forall d :: 0 <= d < |s.calls| && d != c ==> s'.calls[d] == s.calls[d]
  {
    assert CallInv(s, s.calls[c]);
    StepInv(s, ResumesAfterLoad(c));
    ResumeAwaited(s, c);
  }

  lemma {:induction false} ResumeFrom(s: State, k: nat) returns (events: seq<Event>, s': State)
    requires Ready(s) && k <= |s.calls| && forall c :: 0 <= c < k ==> !BeforeLoad(s.calls[c].pc)
    ensures Leads(Step, s, events, s') && NoInvoke(events) && Ready(s') && |s'.calls| == |s.calls|
    ensures forall c :: 0 <= c < |s'.calls| ==> !BeforeLoad(s'.calls[c].pc)
    decreases |s.calls| - k
  {
    if k == |s.calls| {
      events, s' := [], s;
    } else if !BeforeLoad(s.calls[k].pc) {
      events, s' := ResumeFrom(s, k + 1);
    } else {
      var e := ResumesAfterLoad(k);
      ResumeReady(s, k);
      var more;
      more, s' := ResumeFrom(After(s, e), k + 1);
      FirstLeads(s, e, more, s');
      events := [e] + more;
    }
  }

  lemma SettleJobs(s: State, t: int, p: int) returns (events: seq<Event>, s': State)
    requires Ready(s)
    ensures Leads(Step, s, events, s') && NoInvoke(events) && Ready(s') && Keeps(s, s')
    ensures EndsAs(s.jobs, s'.jobs, (j: nat) => true)
  {
    events, s' := SettleFrom(s, (j: nat) => true, t, p);
  }

  ghost predicate AllSettled(jobs: seq<Job>) {
    forall j :: 0 <= j < |jobs| ==> Settled(jobs[j])
  }

  lemma ReturnReady(s: State, c: nat)
    requires Ready(s) && AllSettled(s.jobs) && c < |s.calls| && !BeforeLoad(s.calls[c].pc) && !Over(s.calls[c].pc)
    ensures Enabled(s, Returns(c)) && Ready(DoReturns(s, c))
    ensures var s' := DoReturns(s, c);
            && |s'.calls| == |s.calls| && Over(s'.calls[c].pc) && (forall d :: 0 <= d < |s.calls| && d != c ==> s'.calls[d] == s.calls[d])
            && s'.jobs == s.jobs
  {
    assert CallInv(s, s.calls[c]);
    StepInv(s, Returns(c));
    StepAwaited(s, Returns(c));
  }

  lemma {:induction false} ReturnFrom(s: State, k: nat) returns (events: seq<Event>, s': State)
    requires Ready(s) && AllSettled(s.jobs) && (forall c :: 0 <= c < |s.calls| ==> !BeforeLoad(s.calls[c].pc))
    requires k <= |s.calls| && forall c :: 0 <= c < k ==> Over(s.calls[c].pc)
    ensures Leads(Step, s, events, s') && NoInvoke(events) && Ready(s') && |s'.calls| == |s.calls|
    ensures forall c :: 0 <= c < |s'.calls| ==> Over(s'.calls[c].pc)
    decreases |s.calls| - k
  {
    if k == |s.calls| {
      events, s' := [], s;
    } else if Over(s.calls[k].pc) {
      events, s' := ReturnFrom(s, k + 1);
    } else {
      var e := Returns(k);
      ReturnReady(s, k);
      var more;
      more, s' := ReturnFrom(After(s, e), k + 1);
      FirstLeads(s, e, more, s');
      events := [e] + more;
    }
  }

  lemma SettleCalls(s: State, t: int, p: int) returns (events: seq<Event>, s': State)
    requires Inv(s) && Awaited(s) && Loadable(s)
    ensures Leads(Step, s, events, s') && NoInvoke(events) && Ready(s') && |s'.calls| == |s.calls|
    ensures forall c :: 0 <= c < |s'.calls| ==> Over(s'.calls[c].pc)
  {
    var a, s1 := SettleLoad(s);
    var b, s2 := ResumeFrom(s1, 0);
    var c, s3 := SettleJobs(s2, t, p);
    var d;
    d, s' := ReturnFrom(s3, 0);
    LeadsOn(s2, c, s3, d, s');
    LeadsOn(s1, b, s2, c + d, s');
    LeadsOn(s, a, s1, b + (c + d), s');
    events := a + (b + (c + d));
  }

  // ---------------------------------------------------------------------------------------------
  // A new call

  /** The call has returned with a value. */
  ghost predicate ReturnedTo(s: State, c: nat, request: Request) {
    c < |s.calls| && s.calls[c].request == request && Returned(s.calls[c].pc)
  }

  lemma ReturnCall(s: State, c: nat, t: int, p: int) returns (events: seq<Event>, s': State)
    requires Ready(s) && s.loaded && c < |s.calls| && (s.calls[c].pc.AwaitsTail? || s.calls[c].pc.AwaitsJob?)
    requires s.calls[c].pc.AwaitsJob? ==> s.calls[c].pc.job < |s.jobs| && !Settled(s.jobs[s.calls[c].pc.job])
    ensures Leads(Step, s, events, s') && NoInvoke(events) && ReturnedTo(s', c, s.calls[c].request)
  {
    var a, s1 := SettleJobs(s, t, p);
    ReturnReady(s1, c);
    assert CallInv(s1, s1.calls[c]);
    s' := After(s1, Returns(c));
    LeadsOne(s1, Returns(c));
    events := a + [Returns(c)];
    LeadsOn(s, a, s1, [Returns(c)], s');
  }

  /** A call that finds the store loaded, or the load it waited for resolved. */
  lemma ServeCall(s: State, c: nat, t: int, p: int) returns (events: seq<Event>, s': State)
    requires Ready(s) && s.loaded && c < |s.calls| && BeforeLoad(s.calls[c].pc)
    requires s.calls[c].pc.AwaitsLoad? ==> s.calls[c].pc.load < |s.loads| && s.loads[s.calls[c].pc.load].Resolved?
    ensures Leads(Step, s, events, s') && NoInvoke(events) && ReturnedTo(s', c, s.calls[c].request)
  {
    var e := ResumesAfterLoad(c);
    ResumeReady(s, c);
    var more;
    more, s' := ReturnCall(After(s, e), c, t, p);
    FirstLeads(s, e, more, s');
    events := [e] + more;
  }

  /** With no call in flight a new one finds the store loaded or starts a load. */
  lemma CallStarts(s: State, request: Request)
    requires Ready(s) && forall c :: 0 <= c < |s.calls| ==> Over(s.calls[c].pc)
    ensures var s' := DoInvoke(s, request);
            && |s'.calls| == |s.calls| + 1 && s'.calls[|s.calls|].request == request && Loadable(s')
            && if s.loaded then s'.loaded && s'.calls[|s.calls|].pc.LoadDone?
               else s'.calls[|s.calls|].pc == AwaitsLoad(|s.loads|) && |s'.loads| == |s.loads| + 1 && s'.loads[|s.loads|].Pending?
  {
    assert !s.loaded ==> s.loadPromise.None?;
  }

  lemma NewCall(s: State, request: Request, t: int, p: int) returns (events: seq<Event>, s': State)
    requires Ready(s) && forall c :: 0 <= c < |s.calls| ==> Over(s.calls[c].pc)
    ensures Leads(Step, DoInvoke(s, request), events, s') && NoInvoke(events) && ReturnedTo(s', |s.calls|, request)
  {
    var s1 := DoInvoke(s, request);
    StepInv(s, Invoke(request));
    InvokeAwaited(s, request);
    CallStarts(s, request);
    var a, s2 := SettleLoad(s1);
    var b;
    b, s' := ServeCall(s2, |s.calls|, t, p);
    LeadsOn(s1, a, s2, b, s');
    events := a + b;
  }

  /** From every reachable state of a store that is loaded or whose file can be loaded, whatever loads
      and writes have failed before, finitely many steps of the store end every call in flight; a call
      that is invoked then returns with a value after finitely many more. */
  lemma StoreRecovers(states: seq<State>, events: seq<Event>, i: nat, request: Request, t: int, p: int)
    returns (more: seq<Event>, s': State, last: seq<Event>, s'': State)
    requires IsRun(states, events) && i < |states| && (states[i].loaded || LoadMap(states[i].disk).Some?)
    ensures Leads(Step, states[i], more, s') && NoInvoke(more)
    ensures |s'.calls| == |states[i].calls| && forall c :: 0 <= c < |s'.calls| ==> Over(s'.calls[c].pc)
    ensures Leads(Step, After(s', Invoke(request)), last, s'') && NoInvoke(last) && ReturnedTo(s'', |s'.calls|, request)
  {
    RunInv(states, events, i);
    FailedLoadIsAwaited(states, events, i);
    more, s' := SettleCalls(states[i], t, p);
    last, s'' := NewCall(s', request, t, p);
  }
}
