/** The file-backed token store as a state machine. Each event is one stretch of code that runs
    without an `await` in between; any number of calls interleave between events. */
module FileStoreProtocol {
  import opened Wrappers
  import opened TokenStore
  import opened TokenFile

  /** A promise that no one but the store's own code settles. */
  datatype Promise = Pending | Resolved | Rejected

  /** One `write` closure chained on `writePromise`. `listing` is the order in which the new map
      is written to the file; `renamed` says that the file has already been replaced. */
  datatype Job =
    | Queued(op: Op)
    | Writing(op: Op, opTime: int, persistTime: int, next: Tokens, result: Option<Token>,
              listing: seq<Token>, renamed: bool)
    | Committed(op: Op, opTime: int, persistTime: int, result: Option<Token>)
    | Failed(op: Op)

  datatype Request = Get(hash: string) | Mutate(op: Op)

  /** Where a call is suspended. `Read(value, at)` is a returned `get` that ran when the first
      `at` jobs had settled; `Acknowledged(job, value)` is a returned mutation. */
  datatype Pc =
    | AwaitsLoad(load: nat)
    | LoadDone
    | AwaitsTail(tail: nat)
    | AwaitsJob(job: nat)
    | Read(value: Option<Token>, at: nat)
    | Acknowledged(job: nat, value: Option<Token>)
    | Threw

  datatype Call = Call(request: Request, pc: Pc)

  /** `loads` and `jobs` list every promise ever created; `base` is the map that `load` installed. */
  datatype State = State(
    tokens: Tokens, loaded: bool, loadPromise: Option<nat>, loads: seq<Promise>,
    jobs: seq<Job>, calls: seq<Call>, disk: Option<FileJson>, base: Tokens)

  datatype Event =
    | Invoke(request: Request)
    | LoadSettles(load: nat, readFails: bool)
    | ResumesAfterLoad(call: nat)
    | JobStarts(job: nat, opTime: int, persistTime: int, listing: seq<Token>)
    | Renames(job: nat)
    | JobSettles(job: nat, ok: bool)
    | Returns(call: nat)

  function Init(disk: Option<FileJson>): State {
    State(map[], false, None, [], [], [], disk, map[])
  }

  predicate Settled(j: Job) {
    j.Committed? || j.Failed?
  }

  /** The first `n` jobs have settled. */
  predicate SettledTo(jobs: seq<Job>, n: nat) {
    n <= |jobs| && forall i :: 0 <= i < n ==> Settled(jobs[i])
  }

  /** The number of jobs settled before the first one that is not. */
  function SettledCount(jobs: seq<Job>): (n: nat)
    ensures SettledTo(jobs, n) && (n < |jobs| ==> !Settled(jobs[n]))
  {
    if jobs == [] || !Settled(jobs[0]) then 0 else 1 + SettledCount(jobs[1..])
  }

  // ---------------------------------------------------------------------------------------------
  // Steps

  ghost predicate Enabled(s: State, e: Event) {
    match e
    case Invoke(_) => true
    case LoadSettles(l, _) => l < |s.loads| && s.loads[l].Pending?
    case ResumesAfterLoad(c) =>
      && c < |s.calls|
      && match s.calls[c].pc {
           case LoadDone => true
           case AwaitsLoad(l) => l < |s.loads| && !s.loads[l].Pending?
           case _ => false
         }
    // A job waits for the promise it was chained on, which is the job queued just before it.
    case JobStarts(j, t, p, listing) =>
      && j < |s.jobs| && s.jobs[j].Queued? && (j == 0 || Settled(s.jobs[j - 1]))
      && Lists(listing, Write(s.jobs[j].op, s.tokens, t, p))
    case Renames(j) => j < |s.jobs| && s.jobs[j].Writing? && !s.jobs[j].renamed
    // `rename` is the last thing the file writer does, so a failed write left the file alone.
    case JobSettles(j, ok) => j < |s.jobs| && s.jobs[j].Writing? && s.jobs[j].renamed == ok
    case Returns(c) =>
      && c < |s.calls|
      && match s.calls[c].pc {
           case AwaitsTail(n) => n == 0 || (n <= |s.jobs| && Settled(s.jobs[n - 1]))
           case AwaitsJob(j) => j < |s.jobs| && Settled(s.jobs[j])
           case _ => false
         }
  }

  /** `load()` up to its first `await`: returns at once, joins the pending load, or starts one. */
  function StartLoad(s: State): (State, Pc) {
    if s.loaded then (s, LoadDone)
    else if s.loadPromise.Some? then (s, AwaitsLoad(s.loadPromise.value))
    else (s.(loads := s.loads + [Pending], loadPromise := Some(|s.loads|)), AwaitsLoad(|s.loads|))
  }

  function DoInvoke(s: State, request: Request): State {
    var (s', pc) := StartLoad(s);
    s'.(calls := s'.calls + [Call(request, pc)])
  }

  function DoLoadSettles(s: State, l: nat, readFails: bool): State
    requires l < |s.loads|
  {
    var m := LoadMap(s.disk);
    if readFails || m.None? then s.(loads := s.loads[l := Rejected])
    else s.(loads := s.loads[l := Resolved], tokens := m.value, base := m.value, loaded := true)
  }

  function SetPc(s: State, c: nat, pc: Pc): State
    requires c < |s.calls|
  {
    s.(calls := s.calls[c := s.calls[c].(pc := pc)])
  }

  /** A call whose load failed clears `loadPromise`, but only if it still is the one that failed. */
  function DoResume(s: State, c: nat): State
    requires c < |s.calls|
  {
    var call := s.calls[c];
    if call.pc.AwaitsLoad? && call.pc.load < |s.loads| && s.loads[call.pc.load].Rejected? then
      var s' := if s.loadPromise == Some(call.pc.load) then s.(loadPromise := None) else s;
      SetPc(s', c, Threw)
    else match call.request
      case Get(_) => SetPc(s, c, AwaitsTail(|s.jobs|))
      case Mutate(op) => SetPc(s.(jobs := s.jobs + [Queued(op)]), c, AwaitsJob(|s.jobs|))
  }

  function DoJobStarts(s: State, j: nat, t: int, p: int, listing: seq<Token>): State
    requires j < |s.jobs|
  {
    var op := s.jobs[j].op;
    s.(jobs := s.jobs[j := Writing(op, t, p, Write(op, s.tokens, t, p), ResultOf(op, s.tokens, t),
                                   listing, false)])
  }

  function DoRenames(s: State, j: nat): State
    requires j < |s.jobs| && s.jobs[j].Writing?
  {
    s.(jobs := s.jobs[j := s.jobs[j].(renamed := true)], disk := Some(FileFor(s.jobs[j].listing)))
  }

  function DoJobSettles(s: State, j: nat, ok: bool): State
    requires j < |s.jobs| && s.jobs[j].Writing?
  {
    var w := s.jobs[j];
    if ok then
      s.(tokens := w.next, jobs := s.jobs[j := Committed(w.op, w.opTime, w.persistTime, w.result)])
    else s.(jobs := s.jobs[j := Failed(w.op)])
  }

  function DoReturns(s: State, c: nat): State
    requires c < |s.calls|
  {
    var call := s.calls[c];
    match (call.request, call.pc)
    case (Get(h), AwaitsTail(_)) => SetPc(s, c, Read(Lookup(s.tokens, h), SettledCount(s.jobs)))
    case (_, AwaitsJob(j)) =>
      if j < |s.jobs| && s.jobs[j].Committed? then SetPc(s, c, Acknowledged(j, s.jobs[j].result))
      else SetPc(s, c, Threw)
    case _ => s
  }

  ghost function After(s: State, e: Event): State
    requires Enabled(s, e)
  {
    match e
    case Invoke(r) => DoInvoke(s, r)
    case LoadSettles(l, readFails) => DoLoadSettles(s, l, readFails)
    case ResumesAfterLoad(c) => DoResume(s, c)
    case JobStarts(j, t, p, listing) => DoJobStarts(s, j, t, p, listing)
    case Renames(j) => DoRenames(s, j)
    case JobSettles(j, ok) => DoJobSettles(s, j, ok)
    case Returns(c) => DoReturns(s, c)
  }

  ghost function Step(s: State, e: Event): Option<State> {
    if Enabled(s, e) then Some(After(s, e)) else None
  }

  /** A run: every state follows from the one before it by one enabled event. */
  ghost predicate IsRun(states: seq<State>, events: seq<Event>) {
    && |states| == |events| + 1
    && (exists disk :: states[0] == Init(disk))
    && forall i :: 0 <= i < |events| ==>
         Enabled(states[i], events[i]) && states[i + 1] == After(states[i], events[i])
  }
}

/** Invariants of every interleaving of the file store. */
module FileStoreInvariant {
  import opened Wrappers
  import opened TokenStore
  import opened TokenFile
  import opened FileStoreProtocol

  /** The map after the committed jobs among `jobs` ran in queue order on the loaded map. */
  function Fold(base: Tokens, jobs: seq<Job>): Tokens {
    if jobs == [] then base
    else
      var rest, j := Fold(base, jobs[..|jobs| - 1]), jobs[|jobs| - 1];
      if j.Committed? then Write(j.op, rest, j.opTime, j.persistTime) else rest
  }

  /** Single-flight loading: the only load that can be pending is the current one, and no load is
      started or settled once one has succeeded. */
  ghost predicate LoadInv(s: State) {
    && (s.loadPromise.Some? ==> s.loadPromise.value < |s.loads|)
    && (forall i :: 0 <= i < |s.loads| && s.loads[i].Pending? ==> s.loadPromise == Some(i))
    && (s.loaded ==> s.loadPromise.Some? && s.loads[s.loadPromise.value].Resolved?)
    && (forall i :: 0 <= i < |s.loads| && s.loads[i].Resolved? ==> s.loaded)
    && (!s.loaded ==> s.jobs == [] && s.tokens == map[])
  }

  /** Writes are serialised: everything before a started job has settled. */
  ghost predicate QueueInv(jobs: seq<Job>) {
    forall i, j :: 0 <= i < j < |jobs| && !jobs[j].Queued? ==> Settled(jobs[i])
  }

  /** Memory is the fold of the committed jobs; a job being written was computed from it. */
  ghost predicate MemoryInv(s: State) {
    && WellKeyed(s.base) && WellKeyed(s.tokens)
    && s.tokens == Fold(s.base, s.jobs)
    && forall j :: 0 <= j < |s.jobs| && s.jobs[j].Writing? ==>
         var w := s.jobs[j];
         && w.next == Write(w.op, s.tokens, w.opTime, w.persistTime)
         && w.result == ResultOf(w.op, s.tokens, w.opTime)
         && WellKeyed(w.next) && Lists(w.listing, w.next)
  }

  /** Every committed job returned what its operation returns on the fold of the jobs before it. */
  ghost predicate ResultInv(base: Tokens, jobs: seq<Job>) {
    forall j :: 0 <= j < |jobs| && jobs[j].Committed? ==>
      jobs[j].result == ResultOf(jobs[j].op, Fold(base, jobs[..j]), jobs[j].opTime)
  }

  /** A started job whose file has been replaced, if there is one. */
  ghost predicate Landing(jobs: seq<Job>, j: nat) {
    j < |jobs| && jobs[j].Writing? && jobs[j].renamed
  }

  ghost predicate DiskInv(s: State) {
    s.loaded ==>
      && (forall j: nat :: Landing(s.jobs, j) ==> LoadMap(s.disk) == Some(s.jobs[j].next))
      && ((forall j: nat :: !Landing(s.jobs, j)) ==> LoadMap(s.disk) == Some(s.tokens))
  }

  ghost predicate CallInv(s: State, c: Call) {
    match c.pc
    case AwaitsLoad(l) => l < |s.loads|
    case LoadDone => s.loaded
    case AwaitsTail(n) => s.loaded && c.request.Get? && n <= |s.jobs|
    case AwaitsJob(j) => s.loaded && c.request.Mutate? && j < |s.jobs| && s.jobs[j].op == c.request.op
    case Read(v, n) =>
      && s.loaded && c.request.Get? && SettledTo(s.jobs, n)
      && v == Lookup(Fold(s.base, s.jobs[..n]), c.request.hash)
    case Acknowledged(j, v) =>
      && s.loaded && c.request.Mutate? && j < |s.jobs| && s.jobs[j].Committed?
      && s.jobs[j].op == c.request.op && s.jobs[j].result == v
    case Threw => true
  }

  ghost predicate CallsInv(s: State) {
    forall c :: 0 <= c < |s.calls| ==> CallInv(s, s.calls[c])
  }

  /** The job a mutation is waiting for or was acknowledged with. */
  function JobOf(pc: Pc): Option<nat> {
    if pc.AwaitsJob? || pc.Acknowledged? then Some(pc.job) else None
  }

  /** No two calls share a job. */
  ghost predicate OwnersInv(s: State) {
    forall c, d :: 0 <= c < d < |s.calls| && JobOf(s.calls[c].pc).Some? ==>
      JobOf(s.calls[c].pc) != JobOf(s.calls[d].pc)
  }

  ghost predicate Inv(s: State) {
    && LoadInv(s) && QueueInv(s.jobs) && MemoryInv(s) && ResultInv(s.base, s.jobs)
    && DiskInv(s) && CallsInv(s) && OwnersInv(s)
  }

  // ---------------------------------------------------------------------------------------------
  // The fold

  lemma {:induction false} FoldTail(base: Tokens, jobs: seq<Job>, n: nat)
    requires n <= |jobs| && forall i :: n <= i < |jobs| ==> !jobs[i].Committed?
    ensures Fold(base, jobs) == Fold(base, jobs[..n])
  {
    if n == |jobs| {
      assert jobs[..n] == jobs;
    } else {
      FoldTail(base, jobs[..|jobs| - 1], n);
      assert jobs[..|jobs| - 1][..n] == jobs[..n];
    }
  }

  lemma WriteKeepsKeys(op: Op, m: Tokens, t: int, p: int)
    requires WellKeyed(m)
    ensures WellKeyed(Write(op, m, t, p))
  {
    ApplyKeepsKeys(op, m, t);
  }

  /** Replacing an unsettled job by another uncommitted one leaves every fold alone. */
  lemma ReplaceUncommitted(base: Tokens, jobs: seq<Job>, j: nat, q: Job)
    requires QueueInv(jobs) && j < |jobs| && !Settled(jobs[j]) && !q.Committed?
    ensures Fold(base, jobs[j := q]) == Fold(base, jobs)
  {
    var jobs' := jobs[j := q];
    assert forall i :: j < i < |jobs| ==> jobs[i].Queued?;
    FoldTail(base, jobs, j);
    FoldTail(base, jobs', j);
    assert jobs'[..j] == jobs[..j];
  }

  /** Committing the job being written applies it to the fold. */
  lemma CommitOne(base: Tokens, jobs: seq<Job>, j: nat, q: Job)
    requires QueueInv(jobs) && j < |jobs| && !Settled(jobs[j]) && q.Committed?
    ensures Fold(base, jobs[j := q]) == Write(q.op, Fold(base, jobs), q.opTime, q.persistTime)
    ensures Fold(base, jobs) == Fold(base, jobs[..j])
  {
    var jobs' := jobs[j := q];
    assert forall i :: j < i < |jobs| ==> jobs[i].Queued?;
    FoldTail(base, jobs, j);
    FoldTail(base, jobs', j + 1);
    assert jobs'[..j + 1][..j] == jobs[..j];
  }

  lemma AppendQueued(base: Tokens, jobs: seq<Job>, op: Op)
    ensures Fold(base, jobs + [Queued(op)]) == Fold(base, jobs)
  {
    assert (jobs + [Queued(op)])[..|jobs|] == jobs;
  }

  /** What is in memory is the fold of exactly the jobs settled so far. */
  lemma MemoryIsSettledFold(s: State)
    requires QueueInv(s.jobs) && MemoryInv(s)
    ensures s.tokens == Fold(s.base, s.jobs[..SettledCount(s.jobs)])
  {
    var n := SettledCount(s.jobs);
    assert forall i :: n < i < |s.jobs| ==> s.jobs[i].Queued?;
    FoldTail(s.base, s.jobs, n);
  }

  // ---------------------------------------------------------------------------------------------
  // Every event keeps the invariant

  lemma InitInv(disk: Option<FileJson>)
    ensures Inv(Init(disk))
  {
  }

  lemma {:induction false} LoadedMapWellKeyed(ts: seq<Token>)
    ensures WellKeyed(SetAll(map[], ts))
  {
    SetAllKeepsKeys(map[], ts);
  }

  lemma InvokeInv(s: State, r: Request)
    requires Inv(s)
    ensures Inv(DoInvoke(s, r))
  {
    var s' := DoInvoke(s, r);
    forall c | 0 <= c < |s'.calls| ensures CallInv(s', s'.calls[c]) {
      if c < |s.calls| {
        assert CallInv(s, s.calls[c]);
      }
    }
  }

  lemma LoadSettlesInv(s: State, l: nat, readFails: bool)
    requires Inv(s) && Enabled(s, LoadSettles(l, readFails))
    ensures Inv(DoLoadSettles(s, l, readFails))
  {
    var s' := DoLoadSettles(s, l, readFails);
    assert s.loadPromise == Some(l) && !s.loaded;
    if s'.loaded {
      if s.disk.Some? {
        LoadedMapWellKeyed(ParseFile(s.disk.value).value);
      }
    }
    forall c | 0 <= c < |s'.calls| ensures CallInv(s', s'.calls[c]) {
      assert CallInv(s, s.calls[c]);
    }
  }

  /** Queueing a job disturbs nothing that is already there. */
  lemma EnqueueInv(s: State, op: Op)
    requires Inv(s) && s.loaded
    ensures var s' := s.(jobs := s.jobs + [Queued(op)]);
            Inv(s') && forall c :: 0 <= c < |s.calls| ==> JobOf(s.calls[c].pc) != Some(|s.jobs|)
  {
    var s' := s.(jobs := s.jobs + [Queued(op)]);
    AppendQueued(s.base, s.jobs, op);
    forall j | 0 <= j < |s'.jobs| && s'.jobs[j].Committed? ensures s'.jobs[..j] == s.jobs[..j] && j < |s.jobs| {
    }
    forall j: nat ensures Landing(s'.jobs, j) <==> Landing(s.jobs, j) {
    }
    forall c | 0 <= c < |s'.calls| ensures CallInv(s', s'.calls[c]) && JobOf(s.calls[c].pc) != Some(|s.jobs|) {
      assert CallInv(s, s.calls[c]);
      if s.calls[c].pc.Read? {
        assert s'.jobs[..s.calls[c].pc.at] == s.jobs[..s.calls[c].pc.at];
      }
    }
  }

  /** Moving one call on keeps the invariant when its new position is sound and its job its own. */
  lemma SetPcInv(s: State, c: nat, pc: Pc)
    requires Inv(s) && c < |s.calls| && CallInv(s, s.calls[c].(pc := pc))
    requires JobOf(pc).Some? ==>
               forall d :: 0 <= d < |s.calls| && d != c ==> JobOf(s.calls[d].pc) != JobOf(pc)
    ensures Inv(SetPc(s, c, pc))
  {
    var s' := SetPc(s, c, pc);
    forall d | 0 <= d < |s'.calls| ensures CallInv(s', s'.calls[d]) {
      assert CallInv(s, s.calls[d]);
      assert CallInv(s, s'.calls[d]);
    }
  }

  lemma ClearFailedLoadInv(s: State, l: nat)
    requires Inv(s) && l < |s.loads| && s.loads[l].Rejected? && s.loadPromise == Some(l)
    ensures Inv(s.(loadPromise := None))
  {
    var s' := s.(loadPromise := None);
    forall c | 0 <= c < |s'.calls| ensures CallInv(s', s'.calls[c]) {
      assert CallInv(s, s.calls[c]);
    }
  }

  lemma ResumeInv(s: State, c: nat)
    requires Inv(s) && Enabled(s, ResumesAfterLoad(c))
    ensures Inv(DoResume(s, c))
  {
    var call := s.calls[c];
    assert CallInv(s, call);
    if call.pc.AwaitsLoad? && s.loads[call.pc.load].Rejected? {
      var s' := s;
      if s.loadPromise == Some(call.pc.load) {
        ClearFailedLoadInv(s, call.pc.load);
        s' := s.(loadPromise := None);
      }
      SetPcInv(s', c, Threw);
    } else {
      assert s.loaded;
      match call.request
      case Get(_) => SetPcInv(s, c, AwaitsTail(|s.jobs|));
      case Mutate(op) =>
        EnqueueInv(s, op);
        SetPcInv(s.(jobs := s.jobs + [Queued(op)]), c, AwaitsJob(|s.jobs|));
    }
  }

  /** The invariants that a change of one unsettled job, memory aside, cannot break. */
  lemma JobChange(s: State, s': State, j: nat, q: Job)
    requires Inv(s) && j < |s.jobs| && !Settled(s.jobs[j]) && q.op == s.jobs[j].op
    requires s' == s.(jobs := s.jobs[j := q], tokens := s'.tokens, disk := s'.disk)
    requires q.Queued? ==> s.jobs[j].Queued?
    requires j == 0 || Settled(s.jobs[j - 1])
    ensures LoadInv(s') && QueueInv(s'.jobs) && CallsInv(s') && OwnersInv(s')
    ensures forall i :: 0 <= i < j ==> Settled(s.jobs[i])
    ensures forall i :: j < i < |s.jobs| ==> s.jobs[i].Queued?
    ensures forall i :: 0 <= i < |s.jobs| && i != j && s.jobs[i].Committed? ==>
              i < j && s'.jobs[..i] == s.jobs[..i]
  {
    forall i | 0 <= i < j ensures Settled(s.jobs[i]) {
      assert i < j - 1 ==> !s.jobs[j - 1].Queued?;
    }
    assert forall i :: j < i < |s.jobs| ==> s.jobs[i].Queued?;
    forall c | 0 <= c < |s'.calls| ensures CallInv(s', s'.calls[c]) {
      assert CallInv(s, s.calls[c]);
      if s.calls[c].pc.Read? {
        var n := s.calls[c].pc.at;
        assert n <= j;
        assert s'.jobs[..n] == s.jobs[..n];
      }
    }
  }

  lemma JobStartsInv(s: State, j: nat, t: int, p: int, listing: seq<Token>)
    requires Inv(s) && Enabled(s, JobStarts(j, t, p, listing))
    ensures Inv(DoJobStarts(s, j, t, p, listing))
  {
    var s' := DoJobStarts(s, j, t, p, listing);
    JobChange(s, s', j, s'.jobs[j]);
    ReplaceUncommitted(s.base, s.jobs, j, s'.jobs[j]);
    WriteKeepsKeys(s.jobs[j].op, s.tokens, t, p);
    forall i: nat ensures !Landing(s.jobs, i) && !Landing(s'.jobs, i) {
    }
  }

  lemma RenamesInv(s: State, j: nat)
    requires Inv(s) && Enabled(s, Renames(j))
    ensures Inv(DoRenames(s, j))
  {
    var s' := DoRenames(s, j);
    assert j > 0 ==> Settled(s.jobs[j - 1]);
    JobChange(s, s', j, s'.jobs[j]);
    ReplaceUncommitted(s.base, s.jobs, j, s'.jobs[j]);
    LoadUndoesPersist(s.jobs[j].listing, s.jobs[j].next);
    assert Landing(s'.jobs, j);
    forall i: nat | Landing(s'.jobs, i) ensures i == j {
    }
  }

  lemma JobSettlesInv(s: State, j: nat, ok: bool)
    requires Inv(s) && Enabled(s, JobSettles(j, ok))
    ensures Inv(DoJobSettles(s, j, ok))
  {
    var s' := DoJobSettles(s, j, ok);
    assert j > 0 ==> Settled(s.jobs[j - 1]);
    JobChange(s, s', j, s'.jobs[j]);
    assert ok ==> Landing(s.jobs, j);
    forall i: nat ensures !Landing(s'.jobs, i) && (Landing(s.jobs, i) ==> i == j) {
    }
    if ok {
      CommitOne(s.base, s.jobs, j, s'.jobs[j]);
      assert s'.jobs[..j] == s.jobs[..j];
    } else {
      ReplaceUncommitted(s.base, s.jobs, j, s'.jobs[j]);
    }
  }

  lemma ReturnsInv(s: State, c: nat)
    requires Inv(s) && Enabled(s, Returns(c))
    ensures Inv(DoReturns(s, c))
  {
    var call := s.calls[c];
    assert CallInv(s, call);
    match call.pc
    case AwaitsTail(n) =>
      MemoryIsSettledFold(s);
      SetPcInv(s, c, Read(Lookup(s.tokens, call.request.hash), SettledCount(s.jobs)));
    case AwaitsJob(j) =>
      if s.jobs[j].Committed? {
        SetPcInv(s, c, Acknowledged(j, s.jobs[j].result));
      } else {
        SetPcInv(s, c, Threw);
      }
  }

  lemma StepInv(s: State, e: Event)
    requires Inv(s) && Enabled(s, e)
    ensures Inv(After(s, e))
  {
    match e
    case Invoke(r) => InvokeInv(s, r);
    case LoadSettles(l, readFails) => LoadSettlesInv(s, l, readFails);
    case ResumesAfterLoad(c) => ResumeInv(s, c);
    case JobStarts(j, t, p, listing) => JobStartsInv(s, j, t, p, listing);
    case Renames(j) => RenamesInv(s, j);
    case JobSettles(j, ok) => JobSettlesInv(s, j, ok);
    case Returns(c) => ReturnsInv(s, c);
  }

  lemma {:induction false} RunInv(states: seq<State>, events: seq<Event>, i: nat)
    requires IsRun(states, events) && i < |states|
    ensures Inv(states[i])
  {
    if i == 0 {
      var disk :| states[0] == Init(disk);
      InitInv(disk);
    } else {
      RunInv(states, events, i - 1);
      StepInv(states[i - 1], events[i - 1]);
    }
  }
}
