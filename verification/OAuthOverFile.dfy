/** The authorization server running over the file store, await by await and across crashes, and its
    refinement of the server machine in which every store operation takes effect at once. */
module OAuthOverFile {
  import opened Wrappers
  import opened Paths
  import opened TokenStore
  import opened OAuthAuthorization
  import TokenFile
  import S = OAuthServer
  import F = FileStoreProtocol
  import FI = FileStoreInvariant
  import T = OAuthTheorems
  import A = OAuthAnswers
  import SI = OAuthInvariant
  import SS = OAuthSteps

  /** `link` maps a request that awaits the store to its call. The token map is the file store's; the
      server's own is never read. The log is history, as in the server machine. */
  datatype State = State(server: S.State, file: F.State, link: map<nat, nat>)

  datatype Event =
    | Handler(e: S.Event)
    | Calls(request: nat)
    | Store(step: F.Event)
    | Resumes(request: nat)
    | Crashes

  /** The store is empty: there is no file. */
  function Init(): State {
    State(S.Init(), F.Init(None), map[])
  }

  predicate Reads(r: S.Request) {
    r.RefreshAwaitsRead? || r.CheckAwaitsRead?
  }

  predicate Writes(r: S.Request) {
    r.ExchangeAwaitsStore? || r.RefreshAwaitsReplace? || r.DeleteAwaitsStore?
  }

  function WriteOp(r: S.Request): Op
    requires Writes(r)
  {
    match r
    case ExchangeAwaitsStore(_, _, access, refresh) => SetMany(S.Both(access, refresh))
    case RefreshAwaitsReplace(h, _, access, refresh) => Replace(h, S.Both(access, refresh))
    case DeleteAwaitsStore(h, _) => Delete(h)
  }

  /** The call a request makes. */
  function CallFor(r: S.Request): F.Request
    requires Reads(r) || Writes(r)
  {
    if Reads(r) then F.Get(r.presented) else F.Mutate(WriteOp(r))
  }

  // ---------------------------------------------------------------------------------------------
  // How a handler goes on

  /** After the store returned what a read found. */
  function WithValue(r: S.Request, v: Option<Token>): S.Request
    requires Reads(r)
  {
    if r.CheckAwaitsRead? then S.CheckRead(r.localResource, r.presented, v)
    else S.RefreshRead(r.form, r.localResource, r.presented, v)
  }

  /** After the store acknowledged a write with a result. */
  function WithResult(r: S.Request, result: Option<Token>): S.Request
    requires Writes(r)
  {
    match r
    case ExchangeAwaitsStore(_, _, access, refresh) => S.Done(S.TokensIssued(access, refresh))
    case RefreshAwaitsReplace(_, _, access, refresh) =>
      if result.None? || result.value.kind != Refresh then S.Done(S.Rejected(InvalidGrant))
      else S.Done(S.TokensIssued(access, refresh))
    case DeleteAwaitsStore(_, response) => S.Done(response)
  }

  const STORE_FAILED: S.Request := S.Done(S.Rejected(StoreFailed))

  /** What the history records when the write of `r` commits with a result. */
  function Recorded(log: seq<S.Fact>, r: S.Request, result: Option<Token>): seq<S.Fact>
    requires Writes(r)
  {
    match r
    case ExchangeAwaitsStore(k, v, access, refresh) => log + [S.Exchanged(k, v, access, refresh)]
    case RefreshAwaitsReplace(h, _, access, refresh) =>
      if result.None? || result.value.kind != Refresh then log
      else log + [S.Refreshed(S.MintIndex(log, h), h, access, refresh)]
    case DeleteAwaitsStore(_, _) => log
  }

  // ---------------------------------------------------------------------------------------------
  // Steps

  predicate IsLocal(e: S.Event) {
    !e.StoreReads? && !e.StoreCommits? && !e.Restarts?
  }

  /** The request whose call waits for the job. */
  ghost predicate Awaits(c: State, i: nat, j: nat) {
    && i in c.link && c.link[i] < |c.file.calls| && c.file.calls[c.link[i]].pc == F.AwaitsJob(j)
    && i < |c.server.requests| && Writes(c.server.requests[i])
  }

  /** A committed job is recorded for the request that waits for it. */
  ghost function LogAfter(c: State, step: F.Event): seq<S.Fact> {
    if step.JobSettles? && step.ok && step.job < |c.file.jobs| && c.file.jobs[step.job].Writing? && exists i: nat :: Awaits(c, i, step.job) then
      var i: nat :| Awaits(c, i, step.job);
      Recorded(c.server.log, c.server.requests[i], c.file.jobs[step.job].result)
    else c.server.log
  }

  /** A crash after the rename and before the write settles leaves the job's file behind: the job has
      happened for whoever loads it. */
  ghost function LogAtCrash(c: State): seq<S.Fact> {
    if exists i: nat, j: nat :: FI.Landing(c.file.jobs, j) && Awaits(c, i, j) then
      var i: nat, j: nat :| FI.Landing(c.file.jobs, j) && Awaits(c, i, j);
      Recorded(c.server.log, c.server.requests[i], c.file.jobs[j].result)
    else c.server.log
  }

  ghost predicate Enabled(cfg: S.Config, c: State, e: Event) {
    match e
    case Handler(h) => IsLocal(h) && S.Enabled(c.server, h)
    case Calls(i) =>
      i < |c.server.requests| && (Reads(c.server.requests[i]) || Writes(c.server.requests[i])) && i !in c.link
    case Store(step) => !step.Invoke? && F.Enabled(c.file, step)
    // A read whose load failed throws out of its handler, which does nothing more.
    case Resumes(i) =>
      && i in c.link && i < |c.server.requests| && c.link[i] < |c.file.calls|
      && var r, pc := c.server.requests[i], c.file.calls[c.link[i]].pc;
         (Reads(r) && pc.Read?) || (Writes(r) && (pc.Acknowledged? || pc.Threw?))
    case Crashes => true
  }

  function Resumed(r: S.Request, pc: F.Pc): S.Request
    requires (Reads(r) && pc.Read?) || (Writes(r) && (pc.Acknowledged? || pc.Threw?))
  {
    if pc.Read? then WithValue(r, pc.value) else if pc.Acknowledged? then WithResult(r, pc.value) else STORE_FAILED
  }

  ghost function After(cfg: S.Config, c: State, e: Event): State
    requires Enabled(cfg, c, e)
  {
    match e
    case Handler(h) => c.(server := S.After(cfg, c.server, h))
    case Calls(i) =>
      c.(file := F.After(c.file, F.Invoke(CallFor(c.server.requests[i]))), link := c.link[i := |c.file.calls|])
    case Store(step) => c.(file := F.After(c.file, step), server := c.server.(log := LogAfter(c, step)))
    case Resumes(i) =>
      var r := Resumed(c.server.requests[i], c.file.calls[c.link[i]].pc);
      c.(server := S.SetRequest(c.server, i, r), link := c.link - {i})
    // Only the file is left; the log and the drawn hashes are history.
    case Crashes =>
      State(S.State(map[], map[], map[], [], LogAtCrash(c), c.server.minted), F.Init(c.file.disk), map[])
  }

  ghost predicate IsRun(cfg: S.Config, states: seq<State>, events: seq<Event>) {
    && |states| == |events| + 1 && states[0] == Init()
    && forall i :: 0 <= i < |events| ==>
         Enabled(cfg, states[i], events[i]) && states[i + 1] == After(cfg, states[i], events[i])
  }

  // ---------------------------------------------------------------------------------------------
  // The atomic view

  /** A request as the atomic machine sees it: a read is done when the call has read, a write when
      its job has settled. */
  function Seen(file: F.State, r: S.Request, pc: F.Pc): S.Request {
    if Reads(r) && pc.Read? then WithValue(r, pc.value)
    else if Writes(r) && pc.Acknowledged? then WithResult(r, pc.value)
    else if Writes(r) && pc.Threw? then STORE_FAILED
    else if Writes(r) && pc.AwaitsJob? && pc.job < |file.jobs| && file.jobs[pc.job].Committed? then
      WithResult(r, file.jobs[pc.job].result)
    else if Writes(r) && pc.AwaitsJob? && pc.job < |file.jobs| && file.jobs[pc.job].Failed? then STORE_FAILED
    else r
  }

  function SeenAt(c: State, i: nat): S.Request
    requires i < |c.server.requests|
  {
    if i in c.link && c.link[i] < |c.file.calls| then Seen(c.file, c.server.requests[i], c.file.calls[c.link[i]].pc)
    else c.server.requests[i]
  }

  function SeenRequests(c: State): (r: seq<S.Request>)
    ensures |r| == |c.server.requests| && forall i :: 0 <= i < |r| ==> r[i] == SeenAt(c, i)
  {
    seq(|c.server.requests|, i requires 0 <= i < |c.server.requests| => SeenAt(c, i))
  }

  /** The tokens the store holds: in memory once it is loaded, in the file before. */
  function Held(f: F.State): Tokens {
    if f.loaded then f.tokens
    else if TokenFile.LoadMap(f.disk).Some? then TokenFile.LoadMap(f.disk).value
    else map[]
  }

  function View(c: State): S.State {
    c.server.(tokens := Held(c.file), requests := SeenRequests(c))
  }

  // ---------------------------------------------------------------------------------------------
  // Invariant

  ghost predicate LinkOk(c: State, i: nat)
    requires i in c.link
  {
    && i < |c.server.requests| && c.link[i] < |c.file.calls|
    && (Reads(c.server.requests[i]) || Writes(c.server.requests[i]))
    && c.file.calls[c.link[i]].request == CallFor(c.server.requests[i])
  }

  ghost predicate LinksOk(c: State) {
    && (forall i :: i in c.link ==> LinkOk(c, i))
    && (forall i, k :: i in c.link && k in c.link && c.link[i] == c.link[k] ==> i == k)
  }

  predicate Ended(pc: F.Pc) {
    pc.Read? || pc.Acknowledged? || pc.Threw?
  }

  ghost predicate Linked(link: map<nat, nat>, call: nat) {
    exists i :: i in link && link[i] == call
  }

  /** Every call still on its way belongs to a request. */
  ghost predicate CallsLinked(c: State) {
    forall k :: 0 <= k < |c.file.calls| && !Ended(c.file.calls[k].pc) ==> Linked(c.link, k)
  }

  ghost predicate Owned(file: F.State, j: nat) {
    exists k :: 0 <= k < |file.calls| && file.calls[k].pc == F.AwaitsJob(j)
  }

  /** Every unsettled job has a call that waits for it. */
  ghost predicate JobsOwned(file: F.State) {
    forall j :: 0 <= j < |file.jobs| && !F.Settled(file.jobs[j]) ==> Owned(file, j)
  }

  /** What is on the disk parses. */
  predicate Readable(f: F.State) {
    !f.loaded ==> TokenFile.LoadMap(f.disk).Some?
  }

  ghost predicate Inv(c: State) {
    && FI.Inv(c.file) && LinksOk(c) && CallsLinked(c) && JobsOwned(c.file)
    && Readable(c.file)
  }

  lemma InitInv()
    ensures Inv(Init()) && View(Init()) == S.Init()
  {
    FI.InitInv(None);
  }

  // ---------------------------------------------------------------------------------------------
  // The store's own steps keep the invariant

  lemma OwnersKept(f: F.State, step: F.Event)
    requires FI.Inv(f) && JobsOwned(f) && F.Enabled(f, step) && !step.ResumesAfterLoad? && !step.Returns? && !step.Invoke?
    ensures JobsOwned(F.After(f, step))
  {
    var f' := F.After(f, step);
    assert f'.calls == f.calls;
    forall j | 0 <= j < |f'.jobs| && !F.Settled(f'.jobs[j]) ensures Owned(f', j) {
      assert Owned(f, j);
      var k :| 0 <= k < |f.calls| && f.calls[k].pc == F.AwaitsJob(j);
      assert f'.calls[k].pc == F.AwaitsJob(j);
    }
  }

  lemma InvokeOwners(f: F.State, r: F.Request)
    requires JobsOwned(f)
    ensures JobsOwned(F.DoInvoke(f, r))
  {
    var f' := F.DoInvoke(f, r);
    forall j | 0 <= j < |f'.jobs| && !F.Settled(f'.jobs[j]) ensures Owned(f', j) {
      assert Owned(f, j);
      var k :| 0 <= k < |f.calls| && f.calls[k].pc == F.AwaitsJob(j);
      assert f'.calls[k] == f.calls[k];
    }
  }

  lemma ResumeOwners(f: F.State, k: nat)
    requires JobsOwned(f) && F.Enabled(f, F.ResumesAfterLoad(k))
    ensures JobsOwned(F.DoResume(f, k))
  {
    var f' := F.DoResume(f, k);
    forall j | 0 <= j < |f'.jobs| && !F.Settled(f'.jobs[j]) ensures Owned(f', j) {
      if j < |f.jobs| {
        assert Owned(f, j);
        var m :| 0 <= m < |f.calls| && f.calls[m].pc == F.AwaitsJob(j);
        assert f'.calls[m] == f.calls[m];
      } else {
        assert f'.calls[k].pc == F.AwaitsJob(j);
      }
    }
  }

  lemma ReturnOwners(f: F.State, k: nat)
    requires FI.Inv(f) && JobsOwned(f) && F.Enabled(f, F.Returns(k))
    ensures JobsOwned(F.DoReturns(f, k))
  {
    var f' := F.DoReturns(f, k);
    forall j | 0 <= j < |f'.jobs| && !F.Settled(f'.jobs[j]) ensures Owned(f', j) {
      assert Owned(f, j);
      var m :| 0 <= m < |f.calls| && f.calls[m].pc == F.AwaitsJob(j);
      assert f'.calls[m] == f.calls[m];
    }
  }

  lemma StoreOwners(f: F.State, step: F.Event)
    requires FI.Inv(f) && JobsOwned(f) && F.Enabled(f, step)
    ensures JobsOwned(F.After(f, step))
  {
    match step
    case Invoke(r) => InvokeOwners(f, r);
    case ResumesAfterLoad(k) => ResumeOwners(f, k);
    case Returns(k) => ReturnOwners(f, k);
    case _ => OwnersKept(f, step);
  }

  /** Calls keep their request, and once ended stay as they are. */
  lemma CallsKept(f: F.State, step: F.Event)
    requires FI.Inv(f) && F.Enabled(f, step) && !step.Invoke?
    ensures var f' := F.After(f, step);
            |f'.calls| == |f.calls| && forall k :: 0 <= k < |f.calls| ==>
              f'.calls[k].request == f.calls[k].request && (Ended(f.calls[k].pc) ==> f'.calls[k] == f.calls[k])
  {
  }

  /** No file is written before the load. */
  lemma DiskBeforeLoad(f: F.State, step: F.Event)
    requires FI.Inv(f) && F.Enabled(f, step) && Readable(f)
    ensures Readable(F.After(f, step))
  {
  }

  // ---------------------------------------------------------------------------------------------
  // Handler steps

  predicate Waits(r: S.Request) {
    Reads(r) || Writes(r)
  }

  /** The states differ in the token map and in requests that wait for the store. */
  predicate Alike(s: S.State, t: S.State) {
    && t == s.(tokens := t.tokens, requests := t.requests) && |t.requests| == |s.requests|
    && forall i :: 0 <= i < |s.requests| && !Waits(s.requests[i]) ==> t.requests[i] == s.requests[i]
  }

  /** A handler step does the same to both: it leaves waiting requests and the token map alone. */
  ghost predicate StepsAlike(s: S.State, t: S.State, s': S.State, t': S.State) {
    && t' == s'.(tokens := t.tokens, requests := t'.requests) && |t'.requests| == |s'.requests| >= |s.requests| == |t.requests|
    && (forall i :: 0 <= i < |s.requests| && Waits(s.requests[i]) ==> s'.requests[i] == s.requests[i] && t'.requests[i] == t.requests[i])
    && (forall i :: 0 <= i < |s'.requests| && !(i < |s.requests| && Waits(s.requests[i])) ==> t'.requests[i] == s'.requests[i])
  }

  lemma SetAlike(s: S.State, t: S.State, s': S.State, t': S.State, i: nat, r: S.Request)
    requires Alike(s, t) && i < |s.requests| && !Waits(s.requests[i])
    requires s'.requests == s.requests[i := r] && t'.requests == t.requests[i := r]
    requires t' == s'.(tokens := t.tokens, requests := t'.requests)
    ensures StepsAlike(s, t, s', t')
  {
  }

  lemma AppendAlike(s: S.State, t: S.State, s': S.State, t': S.State, r: S.Request)
    requires Alike(s, t) && s'.requests == s.requests + [r] && t'.requests == t.requests + [r]
    requires t' == s'.(tokens := t.tokens, requests := t'.requests)
    ensures StepsAlike(s, t, s', t')
  {
  }

  lemma ArrivesAlike(cfg: S.Config, s: S.State, t: S.State, e: S.Event)
    requires Alike(s, t) && S.Enabled(s, e) && e.Arrives?
    ensures S.Enabled(t, e) && StepsAlike(s, t, S.After(cfg, s, e), S.After(cfg, t, e))
  {
  }

  lemma StartsAlike(cfg: S.Config, s: S.State, t: S.State, e: S.Event)
    requires Alike(s, t) && S.Enabled(s, e) && (e.PageStarts? || e.RefreshStarts? || e.CheckStarts?)
    ensures S.Enabled(t, e) && StepsAlike(s, t, S.After(cfg, s, e), S.After(cfg, t, e))
  {
    var s' := S.After(cfg, s, e);
    AppendAlike(s, t, s', S.After(cfg, t, e), s'.requests[|s.requests|]);
  }

  lemma ConfirmStartsAlike(cfg: S.Config, s: S.State, t: S.State, e: S.Event)
    requires Alike(s, t) && S.Enabled(s, e) && e.ConfirmStarts?
    ensures S.Enabled(t, e) && StepsAlike(s, t, S.After(cfg, s, e), S.After(cfg, t, e))
  {
    var s' := S.After(cfg, s, e);
    AppendAlike(s, t, s', S.After(cfg, t, e), s'.requests[|s.requests|]);
  }

  lemma ExchangeStartsAlike(cfg: S.Config, s: S.State, t: S.State, e: S.Event)
    requires Alike(s, t) && S.Enabled(s, e) && e.ExchangeStarts?
    ensures S.Enabled(t, e) && StepsAlike(s, t, S.After(cfg, s, e), S.After(cfg, t, e))
  {
    var s' := S.After(cfg, s, e);
    AppendAlike(s, t, s', S.After(cfg, t, e), s'.requests[|s.requests|]);
  }

  lemma PageStoresAlike(cfg: S.Config, s: S.State, t: S.State, e: S.Event)
    requires Alike(s, t) && S.Enabled(s, e) && e.PageStores?
    ensures S.Enabled(t, e) && StepsAlike(s, t, S.After(cfg, s, e), S.After(cfg, t, e))
  {
    var s' := S.After(cfg, s, e);
    SetAlike(s, t, s', S.After(cfg, t, e), e.request, s'.requests[e.request]);
  }

  lemma ConfirmIssuesAlike(cfg: S.Config, s: S.State, t: S.State, e: S.Event)
    requires Alike(s, t) && S.Enabled(s, e) && e.ConfirmIssues?
    ensures S.Enabled(t, e) && StepsAlike(s, t, S.After(cfg, s, e), S.After(cfg, t, e))
  {
    var s' := S.After(cfg, s, e);
    SetAlike(s, t, s', S.After(cfg, t, e), e.request, s'.requests[e.request]);
  }

  /** What a resumed refresh does depends on its request alone. */
  lemma RefreshSame(cfg: S.Config, s: S.State, t: S.State, i: nat, now: int, later: int, m: S.Mint)
    requires Alike(s, t) && i < |s.requests| && s.requests[i].RefreshRead?
    ensures var s', t' := S.RefreshResume(cfg, s, i, now, later, m), S.RefreshResume(cfg, t, i, now, later, m);
            && |s'.requests| == |s.requests| && |t'.requests| == |t.requests|
            && s'.requests == s.requests[i := s'.requests[i]] && t'.requests == t.requests[i := s'.requests[i]]
            && t' == s'.(tokens := t.tokens, requests := t'.requests)
  {
    assert t.requests[i] == s.requests[i];
  }

  lemma RefreshResumesAlike(cfg: S.Config, s: S.State, t: S.State, e: S.Event)
    requires Alike(s, t) && S.Enabled(s, e) && e.RefreshResumes?
    ensures S.Enabled(t, e) && StepsAlike(s, t, S.After(cfg, s, e), S.After(cfg, t, e))
  {
    RefreshSame(cfg, s, t, e.request, e.now, e.later, e.mint);
    var s', t' := S.RefreshResume(cfg, s, e.request, e.now, e.later, e.mint), S.RefreshResume(cfg, t, e.request, e.now, e.later, e.mint);
    SetAlike(s, t, s', t', e.request, s'.requests[e.request]);
  }

  lemma CheckResumesAlike(cfg: S.Config, s: S.State, t: S.State, e: S.Event)
    requires Alike(s, t) && S.Enabled(s, e) && e.CheckResumes?
    ensures S.Enabled(t, e) && StepsAlike(s, t, S.After(cfg, s, e), S.After(cfg, t, e))
  {
    var s' := S.After(cfg, s, e);
    SetAlike(s, t, s', S.After(cfg, t, e), e.request, s'.requests[e.request]);
  }

  lemma LocalAlike(cfg: S.Config, s: S.State, t: S.State, e: S.Event)
    requires Alike(s, t) && S.Enabled(s, e) && IsLocal(e)
    ensures S.Enabled(t, e) && StepsAlike(s, t, S.After(cfg, s, e), S.After(cfg, t, e))
  {
    match e
    case Arrives(_) => ArrivesAlike(cfg, s, t, e);
    case ConfirmStarts(_, _, _) => ConfirmStartsAlike(cfg, s, t, e);
    case ExchangeStarts(_, _, _, _) => ExchangeStartsAlike(cfg, s, t, e);
    case PageStores(_, _, _, _) => PageStoresAlike(cfg, s, t, e);
    case ConfirmIssues(_, _, _, _) => ConfirmIssuesAlike(cfg, s, t, e);
    case RefreshResumes(_, _, _, _) => RefreshResumesAlike(cfg, s, t, e);
    case CheckResumes(_, _) => CheckResumesAlike(cfg, s, t, e);
    case _ => StartsAlike(cfg, s, t, e);
  }

  lemma ViewAlike(c: State)
    requires LinksOk(c)
    ensures Alike(c.server, View(c))
  {
    forall i | i in c.link ensures i < |c.server.requests| && Waits(c.server.requests[i]) {
      assert LinkOk(c, i);
    }
  }

  /** A handler step is the same step of the atomic machine. */
  lemma HandlerSimulates(cfg: S.Config, c: State, h: S.Event)
    requires Inv(c) && Enabled(cfg, c, Handler(h))
    ensures var c' := After(cfg, c, Handler(h));
            Inv(c') && S.Enabled(View(c), h) && View(c') == S.After(cfg, View(c), h)
  {
    var c' := After(cfg, c, Handler(h));
    ViewAlike(c);
    LocalAlike(cfg, c.server, View(c), h);
    forall i | i in c'.link ensures LinkOk(c', i) {
      assert LinkOk(c, i);
    }
    HandlerView(cfg, c, h);
  }

  lemma HandlerView(cfg: S.Config, c: State, h: S.Event)
    requires LinksOk(c) && Enabled(cfg, c, Handler(h)) && S.Enabled(View(c), h)
    requires StepsAlike(c.server, View(c), S.After(cfg, c.server, h), S.After(cfg, View(c), h))
    ensures View(After(cfg, c, Handler(h))) == S.After(cfg, View(c), h)
  {
    var c', t' := After(cfg, c, Handler(h)), S.After(cfg, View(c), h);
    forall i | 0 <= i < |c'.server.requests| ensures SeenAt(c', i) == t'.requests[i] {
      assert i in c.link ==> LinkOk(c, i);
      if i < |c.server.requests| && Waits(c.server.requests[i]) {
        assert SeenAt(c', i) == SeenAt(c, i);
      }
    }
    assert SeenRequests(c') == t'.requests;
  }

  // ---------------------------------------------------------------------------------------------
  // Calling and resuming

  /** A call changes nothing that the atomic machine sees. */
  lemma CallSimulates(cfg: S.Config, c: State, i: nat)
    requires Inv(c) && Enabled(cfg, c, Calls(i))
    ensures var c' := After(cfg, c, Calls(i)); Inv(c') && View(c') == View(c)
  {
    var c', k, r := After(cfg, c, Calls(i)), |c.file.calls|, CallFor(c.server.requests[i]);
    FI.StepInv(c.file, F.Invoke(r));
    StoreOwners(c.file, F.Invoke(r));
    InvokeCalls(c.file, r);
    CallLinksOk(c, c', i);
    CallLinks(c, c', i);
    CallView(c, c', i);
  }

  lemma CallLinksOk(c: State, c': State, i: nat)
    requires LinksOk(c) && i < |c.server.requests| && Waits(c.server.requests[i]) && i !in c.link
    requires c'.server == c.server && c'.link == c.link[i := |c.file.calls|]
    requires |c'.file.calls| == |c.file.calls| + 1 && c'.file.calls[..|c.file.calls|] == c.file.calls
    requires c'.file.calls[|c.file.calls|].request == CallFor(c.server.requests[i])
    ensures LinksOk(c')
  {
    forall m | m in c'.link ensures LinkOk(c', m) {
      if m != i {
        assert LinkOk(c, m);
        assert c'.file.calls[c.link[m]] == c'.file.calls[..|c.file.calls|][c.link[m]];
      }
    }
    forall m, n | m in c'.link && n in c'.link && c'.link[m] == c'.link[n] ensures m == n {
      assert m != i ==> LinkOk(c, m);
      assert n != i ==> LinkOk(c, n);
    }
  }

  lemma CallView(c: State, c': State, i: nat)
    requires LinksOk(c) && i !in c.link && c'.server == c.server && c'.link == c.link[i := |c.file.calls|]
    requires |c'.file.calls| == |c.file.calls| + 1 && c'.file.calls[..|c.file.calls|] == c.file.calls
    requires c'.file.calls[|c.file.calls|].pc.AwaitsLoad? || c'.file.calls[|c.file.calls|].pc.LoadDone?
    requires Held(c'.file) == Held(c.file) && c'.file.jobs == c.file.jobs
    ensures View(c') == View(c)
  {
    forall m | 0 <= m < |c.server.requests| ensures SeenAt(c', m) == SeenAt(c, m) {
      if m in c.link {
        assert LinkOk(c, m);
        assert c'.file.calls[c.link[m]] == c'.file.calls[..|c.file.calls|][c.link[m]];
      }
    }
    assert SeenRequests(c') == SeenRequests(c);
  }

  lemma InvokeCalls(f: F.State, r: F.Request)
    ensures var f' := F.DoInvoke(f, r);
            && |f'.calls| == |f.calls| + 1 && f'.calls[..|f.calls|] == f.calls && f'.calls[|f.calls|].request == r
            && (f'.calls[|f.calls|].pc.AwaitsLoad? || f'.calls[|f.calls|].pc.LoadDone?)
            && f'.tokens == f.tokens && f'.jobs == f.jobs && f'.disk == f.disk && f'.loaded == f.loaded
  {
  }

  lemma CallLinks(c: State, c': State, i: nat)
    requires CallsLinked(c) && i !in c.link && c'.link == c.link[i := |c.file.calls|]
    requires |c'.file.calls| == |c.file.calls| + 1 && c'.file.calls[..|c.file.calls|] == c.file.calls
    ensures CallsLinked(c')
  {
    forall k | 0 <= k < |c'.file.calls| && !Ended(c'.file.calls[k].pc) ensures Linked(c'.link, k) {
      if k < |c.file.calls| {
        assert c.file.calls[k] == c'.file.calls[..|c.file.calls|][k];
        assert Linked(c.link, k);
        var m :| m in c.link && c.link[m] == k;
        assert c'.link[m] == k;
      } else {
        assert c'.link[i] == k;
      }
    }
  }

  /** Neither does resuming: the handler only learns what was already seen. */
  lemma ResumeSimulates(cfg: S.Config, c: State, i: nat)
    requires Inv(c) && Enabled(cfg, c, Resumes(i))
    ensures var c' := After(cfg, c, Resumes(i)); Inv(c') && View(c') == View(c)
  {
    var c', r := After(cfg, c, Resumes(i)), c.server.requests[i];
    assert LinkOk(c, i);
    forall m | m in c'.link ensures LinkOk(c', m) {
      assert LinkOk(c, m);
    }
    forall k | 0 <= k < |c'.file.calls| && !Ended(c'.file.calls[k].pc) ensures Linked(c'.link, k) {
      assert Linked(c.link, k);
      var m :| m in c.link && c.link[m] == k;
      assert m in c'.link && c'.link[m] == k;
    }
    forall m | 0 <= m < |c.server.requests| ensures SeenAt(c', m) == SeenAt(c, m) {
    }
    assert SeenRequests(c') == SeenRequests(c);
  }

  // ---------------------------------------------------------------------------------------------
  // Store steps

  lemma StoreKeeps(cfg: S.Config, c: State, step: F.Event)
    requires Inv(c) && Enabled(cfg, c, Store(step))
    ensures Inv(After(cfg, c, Store(step)))
  {
    var c' := After(cfg, c, Store(step));
    FI.StepInv(c.file, step);
    StoreOwners(c.file, step);
    CallsKept(c.file, step);
    DiskBeforeLoad(c.file, step);
    forall i | i in c'.link ensures LinkOk(c', i) {
      assert LinkOk(c, i);
    }
    forall k | 0 <= k < |c'.file.calls| && !Ended(c'.file.calls[k].pc) ensures Linked(c'.link, k) {
      assert Linked(c.link, k);
    }
  }

  /** The request that a call belongs to. */
  lemma Caller(c: State, k: nat) returns (i: nat)
    requires LinksOk(c) && CallsLinked(c) && k < |c.file.calls| && !Ended(c.file.calls[k].pc)
    ensures i in c.link && c.link[i] == k && LinkOk(c, i)
  {
    assert Linked(c.link, k);
    i :| i in c.link && c.link[i] == k;
  }

  /** Two states of the store in which every linked call is seen alike give one view. */
  ghost predicate SeenAlike(c: State, c': State, i: nat) {
    i in c.link && c.link[i] < |c.file.calls| && i < |c.server.requests| ==>
      c.link[i] < |c'.file.calls| &&
      Seen(c'.file, c.server.requests[i], c'.file.calls[c.link[i]].pc) == Seen(c.file, c.server.requests[i], c.file.calls[c.link[i]].pc)
  }

  /** The view changes at most at `i`. */
  lemma ViewChanges(c: State, c': State, i: nat)
    requires LinksOk(c) && c'.link == c.link && c'.server == c.server.(log := c'.server.log)
    requires i < |c.server.requests| && forall m: nat :: m != i ==> SeenAlike(c, c', m)
    ensures View(c') == View(c).(tokens := Held(c'.file), log := c'.server.log, requests := View(c).requests[i := SeenAt(c', i)])
  {
    forall m | 0 <= m < |c.server.requests| && m != i ensures SeenAt(c', m) == SeenAt(c, m) {
      if m in c.link {
        assert LinkOk(c, m);
        assert SeenAlike(c, c', m);
      }
    }
    assert SeenRequests(c') == SeenRequests(c)[i := SeenAt(c', i)];
  }

  lemma ViewStays(c: State, c': State)
    requires LinksOk(c) && c'.link == c.link && c'.server == c.server && Held(c'.file) == Held(c.file)
    requires forall m: nat :: SeenAlike(c, c', m)
    ensures View(c') == View(c)
  {
    forall m | 0 <= m < |c.server.requests| ensures SeenAt(c', m) == SeenAt(c, m) {
      if m in c.link {
        assert LinkOk(c, m);
        assert SeenAlike(c, c', m);
      }
    }
    assert SeenRequests(c') == SeenRequests(c);
  }

  lemma LoadStutters(cfg: S.Config, c: State, l: nat, readFails: bool)
    requires Inv(c) && Enabled(cfg, c, Store(F.LoadSettles(l, readFails)))
    ensures View(After(cfg, c, Store(F.LoadSettles(l, readFails)))) == View(c)
  {
    var c' := After(cfg, c, Store(F.LoadSettles(l, readFails)));
    LoadKeepsTokens(c.file, l, readFails);
    ViewStays(c, c');
  }

  lemma LoadKeepsTokens(f: F.State, l: nat, readFails: bool)
    requires FI.Inv(f) && F.Enabled(f, F.LoadSettles(l, readFails)) && Readable(f)
    ensures var f' := F.DoLoadSettles(f, l, readFails); Held(f') == Held(f) && f'.calls == f.calls && f'.jobs == f.jobs
  {
    assert !f.loaded;
  }

  lemma JobStutters(cfg: S.Config, c: State, step: F.Event)
    requires Inv(c) && Enabled(cfg, c, Store(step)) && (step.JobStarts? || step.Renames?)
    ensures View(After(cfg, c, Store(step))) == View(c)
  {
    var c' := After(cfg, c, Store(step));
    JobStaysUnsettled(c.file, step);
    assert c.file.loaded;
    UnsettledView(c, c');
  }

  lemma UnsettledView(c: State, c': State)
    requires LinksOk(c) && c'.server == c.server && c'.link == c.link
    requires Held(c'.file) == Held(c.file) && c'.file.calls == c.file.calls && |c'.file.jobs| == |c.file.jobs|
    requires forall j :: 0 <= j < |c.file.jobs| ==>
               (c'.file.jobs[j].Committed? <==> c.file.jobs[j].Committed?) && (c'.file.jobs[j].Failed? <==> c.file.jobs[j].Failed?)
               && (c.file.jobs[j].Committed? ==> c'.file.jobs[j] == c.file.jobs[j])
    ensures View(c') == View(c)
  {
    ViewStays(c, c');
  }

  lemma JobStaysUnsettled(f: F.State, step: F.Event)
    requires F.Enabled(f, step) && (step.JobStarts? || step.Renames?)
    ensures var f' := F.After(f, step);
            && f'.tokens == f.tokens && f'.loaded == f.loaded && f'.calls == f.calls && |f'.jobs| == |f.jobs|
            && forall j :: 0 <= j < |f.jobs| ==>
                 (f'.jobs[j].Committed? <==> f.jobs[j].Committed?) && (f'.jobs[j].Failed? <==> f.jobs[j].Failed?)
                 && (f.jobs[j].Committed? ==> f'.jobs[j] == f.jobs[j])
  {
  }

  // ---------------------------------------------------------------------------------------------
  // A write that settles

  lemma Owner(c: State, j: nat) returns (i: nat)
    requires Inv(c) && j < |c.file.jobs| && !F.Settled(c.file.jobs[j])
    ensures Awaits(c, i, j) && LinkOk(c, i) && WriteOp(c.server.requests[i]) == c.file.jobs[j].op
  {
    assert Owned(c.file, j);
    var k :| 0 <= k < |c.file.calls| && c.file.calls[k].pc == F.AwaitsJob(j);
    i := Caller(c, k);
    assert FI.CallInv(c.file, c.file.calls[k]);
  }

  lemma OneOwner(c: State, i: nat, m: nat, j: nat)
    requires FI.OwnersInv(c.file) && LinksOk(c) && Awaits(c, i, j) && Awaits(c, m, j)
    ensures i == m
  {
    var a, b := c.link[i], c.link[m];
    assert FI.JobOf(c.file.calls[a].pc) == FI.JobOf(c.file.calls[b].pc) == Some(j);
  }

  lemma SettleLog(c: State, i: nat, j: nat)
    requires FI.OwnersInv(c.file) && LinksOk(c) && Awaits(c, i, j) && j < |c.file.jobs| && c.file.jobs[j].Writing?
    ensures LogAfter(c, F.JobSettles(j, true)) == Recorded(c.server.log, c.server.requests[i], c.file.jobs[j].result)
    ensures LogAfter(c, F.JobSettles(j, false)) == c.server.log
  {
    forall m: nat | Awaits(c, m, j) ensures m == i {
      OneOwner(c, i, m, j);
    }
  }

  /** What the atomic machine does when the write of `r` commits. */
  lemma AtomicCommit(s: S.State, i: nat, opTime: int, persistTime: int, next: Tokens, result: Option<Token>)
    requires i < |s.requests| && Writes(s.requests[i])
    requires var op := WriteOp(s.requests[i]); next == Write(op, s.tokens, opTime, persistTime) && result == ResultOf(op, s.tokens, opTime)
    ensures S.StoreCommit(s, i, true, opTime, Some(persistTime)) ==
            s.(tokens := next, log := Recorded(s.log, s.requests[i], result), requests := s.requests[i := WithResult(s.requests[i], result)])
  {
  }

  lemma SettleSees(c: State, c': State, i: nat, j: nat, ok: bool)
    requires Awaits(c, i, j) && j < |c.file.jobs| && c.file.jobs[j].Writing?
    requires c'.file == F.DoJobSettles(c.file, j, ok) && c'.link == c.link && c'.server.requests == c.server.requests
    ensures SeenAt(c, i) == c.server.requests[i]
    ensures SeenAt(c', i) == if ok then WithResult(c.server.requests[i], c.file.jobs[j].result) else STORE_FAILED
  {
  }

  /** A call that waits for another job, or for none, is seen as before. */
  lemma OtherCallSeen(f: F.State, j: nat, ok: bool, r: S.Request, pc: F.Pc)
    requires j < |f.jobs| && f.jobs[j].Writing? && !(Writes(r) && pc == F.AwaitsJob(j))
    ensures Seen(F.DoJobSettles(f, j, ok), r, pc) == Seen(f, r, pc)
  {
  }

  lemma SettleOthers(c: State, c': State, i: nat, j: nat, ok: bool)
    requires FI.OwnersInv(c.file) && LinksOk(c) && Awaits(c, i, j) && j < |c.file.jobs| && c.file.jobs[j].Writing?
    requires c'.file == F.DoJobSettles(c.file, j, ok) && c'.link == c.link && c'.server.requests == c.server.requests
    ensures forall m: nat :: m != i ==> SeenAlike(c, c', m)
  {
    forall m: nat | m != i && m in c.link ensures SeenAlike(c, c', m) {
      assert LinkOk(c, m);
      if Writes(c.server.requests[m]) && c.file.calls[c.link[m]].pc == F.AwaitsJob(j) {
        OneOwner(c, i, m, j);
      } else {
        OtherCallSeen(c.file, j, ok, c.server.requests[m], c.file.calls[c.link[m]].pc);
      }
    }
  }

  lemma SettleSimulates(cfg: S.Config, c: State, j: nat, ok: bool) returns (e: S.Event)
    requires Inv(c) && Enabled(cfg, c, Store(F.JobSettles(j, ok)))
    ensures S.Enabled(View(c), e) && View(After(cfg, c, Store(F.JobSettles(j, ok)))) == S.After(cfg, View(c), e)
    ensures e.StoreCommits? && e.ok == ok && Awaits(c, e.request, j)
  {
    var c', w := After(cfg, c, Store(F.JobSettles(j, ok))), c.file.jobs[j];
    var i := Owner(c, j);
    SettleLog(c, i, j);
    SettleSees(c, c', i, j, ok);
    SettleOthers(c, c', i, j, ok);
    ViewChanges(c, c', i);
    e := S.StoreCommits(i, ok, w.opTime, Some(w.persistTime));
    assert View(c).requests[i] == c.server.requests[i];
    if ok {
      AtomicCommit(View(c), i, w.opTime, w.persistTime, w.next, w.result);
    }
  }

  // ---------------------------------------------------------------------------------------------
  // A call that goes on after the load, and a call that returns

  /** Changing one call, and queueing jobs, is seen at most at that call's request. */
  lemma OneCallChanges(c: State, c': State, i: nat, k: nat)
    requires Inv(c) && i in c.link && c.link[i] == k && c'.link == c.link && c'.server.requests == c.server.requests
    requires |c'.file.calls| == |c.file.calls| && forall m :: 0 <= m < |c.file.calls| && m != k ==> c'.file.calls[m] == c.file.calls[m]
    requires |c'.file.jobs| >= |c.file.jobs| && c'.file.jobs[..|c.file.jobs|] == c.file.jobs
    ensures forall m: nat :: m != i ==> SeenAlike(c, c', m)
  {
    forall m: nat | m != i && m in c.link ensures SeenAlike(c, c', m) {
      assert LinkOk(c, m);
      var call := c.file.calls[c.link[m]];
      assert FI.CallInv(c.file, call);
      if call.pc.AwaitsJob? {
        assert c'.file.jobs[call.pc.job] == c'.file.jobs[..|c.file.jobs|][call.pc.job];
      }
    }
  }

  lemma ResumeEffect(f: F.State, k: nat)
    requires FI.Inv(f) && F.Enabled(f, F.ResumesAfterLoad(k))
    ensures var f', pc := F.DoResume(f, k), F.DoResume(f, k).calls[k].pc;
            && Held(f') == Held(f) && |f'.calls| == |f.calls| && (forall m :: 0 <= m < |f.calls| && m != k ==> f'.calls[m] == f.calls[m])
            && |f'.jobs| >= |f.jobs| && f'.jobs[..|f.jobs|] == f.jobs
            && (pc.Threw? || pc.AwaitsTail? || (pc == F.AwaitsJob(|f.jobs|) && |f'.jobs| == |f.jobs| + 1 && f'.jobs[|f.jobs|].Queued?))
            && (f.calls[k].pc.AwaitsLoad? || f.calls[k].pc.LoadDone?)
  {
  }

  /** A mutation whose load failed is a failed write of the atomic machine. */
  lemma LoadedSimulates(cfg: S.Config, c: State, k: nat) returns (e: Option<S.Event>)
    requires Inv(c) && Enabled(cfg, c, Store(F.ResumesAfterLoad(k)))
    ensures var c' := After(cfg, c, Store(F.ResumesAfterLoad(k)));
            if e.None? then View(c') == View(c) else S.Enabled(View(c), e.value) && View(c') == S.After(cfg, View(c), e.value)
    ensures e.Some? ==> e.value.StoreReads? || (e.value.StoreCommits? && !e.value.ok)
  {
    var c' := After(cfg, c, Store(F.ResumesAfterLoad(k)));
    ResumeEffect(c.file, k);
    var i := Caller(c, k);
    OneCallChanges(c, c', i, k);
    ViewChanges(c, c', i);
    CallsKept(c.file, F.ResumesAfterLoad(k));
    assert LinkOk(c', i);
    ResumeSeen(c, c', i);
    if Writes(c.server.requests[i]) && c'.file.calls[k].pc.Threw? {
      e := Some(S.StoreCommits(i, false, 0, None));
    } else {
      e := None;
      assert View(c).requests[i := c.server.requests[i]] == View(c).requests;
    }
  }

  lemma ResumeSeen(c: State, c': State, i: nat)
    requires i in c.link && LinkOk(c, i) && i in c'.link && LinkOk(c', i) && c'.link[i] == c.link[i] && c'.server == c.server
    requires var pc, pc' := c.file.calls[c.link[i]].pc, c'.file.calls[c.link[i]].pc;
             && (pc.AwaitsLoad? || pc.LoadDone?)
             && (pc'.Threw? || pc'.AwaitsTail? || (pc'.AwaitsJob? && pc'.job < |c'.file.jobs| && c'.file.jobs[pc'.job].Queued?))
    ensures SeenAt(c, i) == c.server.requests[i]
    ensures SeenAt(c', i) ==
            if Writes(c.server.requests[i]) && c'.file.calls[c.link[i]].pc.Threw? then STORE_FAILED else c.server.requests[i]
  {
  }

  lemma ReturnEffect(f: F.State, k: nat)
    requires FI.Inv(f) && F.Enabled(f, F.Returns(k))
    ensures var f', pc, pc' := F.DoReturns(f, k), f.calls[k].pc, F.DoReturns(f, k).calls[k].pc;
            && f'.tokens == f.tokens && f'.loaded && f.loaded && f'.jobs == f.jobs
            && |f'.calls| == |f.calls| && (forall m :: 0 <= m < |f.calls| && m != k ==> f'.calls[m] == f.calls[m])
            && if pc.AwaitsTail? then f.calls[k].request.Get? && pc'.Read? && pc'.value == Lookup(f.tokens, f.calls[k].request.hash)
               else pc.AwaitsJob? && pc.job < |f.jobs| && f.calls[k].request.Mutate? && F.Settled(f.jobs[pc.job])
                    && pc' == if f.jobs[pc.job].Committed? then F.Acknowledged(pc.job, f.jobs[pc.job].result) else F.Threw
  {
    assert FI.CallInv(f, f.calls[k]);
  }

  /** A read that returns is the read of the atomic machine; a write that returns was seen before. */
  lemma ReturnSimulates(cfg: S.Config, c: State, k: nat) returns (e: Option<S.Event>)
    requires Inv(c) && Enabled(cfg, c, Store(F.Returns(k)))
    ensures var c' := After(cfg, c, Store(F.Returns(k)));
            if e.None? then View(c') == View(c) else S.Enabled(View(c), e.value) && View(c') == S.After(cfg, View(c), e.value)
    ensures e.Some? ==> e.value.StoreReads? || (e.value.StoreCommits? && !e.value.ok)
  {
    var c' := After(cfg, c, Store(F.Returns(k)));
    ReturnEffect(c.file, k);
    CallsKept(c.file, F.Returns(k));
    var i := Caller(c, k);
    OneCallChanges(c, c', i, k);
    ViewChanges(c, c', i);
    assert LinkOk(c', i);
    if c.file.calls[k].pc.AwaitsTail? {
      ReadReturns(c, c', i);
      e := Some(S.StoreReads(i));
    } else {
      WriteReturns(c, c', i);
      e := None;
    }
  }

  lemma ReadReturns(c: State, c': State, i: nat)
    requires i in c.link && LinkOk(c, i) && i in c'.link && LinkOk(c', i) && c'.link[i] == c.link[i] && c'.server == c.server
    requires var k := c.link[i];
             && c.file.calls[k].request.Get? && c.file.calls[k].pc.AwaitsTail?
             && c'.file.calls[k].pc.Read? && c'.file.calls[k].pc.value == Lookup(Held(c.file), c.file.calls[k].request.hash)
    ensures S.Enabled(View(c), S.StoreReads(i))
    ensures View(c).(requests := View(c).requests[i := SeenAt(c', i)]) == S.StoreRead(View(c), i)
  {
    assert Reads(c.server.requests[i]);
    assert View(c).requests[i] == c.server.requests[i];
  }

  lemma WriteReturns(c: State, c': State, i: nat)
    requires i in c.link && LinkOk(c, i) && i in c'.link && LinkOk(c', i) && c'.link[i] == c.link[i] && c'.server == c.server
    requires var k := c.link[i];
             var pc := c.file.calls[k].pc;
             && c.file.calls[k].request.Mutate? && pc.AwaitsJob? && pc.job < |c.file.jobs| && F.Settled(c.file.jobs[pc.job])
             && c'.file.calls[k].pc == if c.file.jobs[pc.job].Committed? then F.Acknowledged(pc.job, c.file.jobs[pc.job].result) else F.Threw
    ensures View(c).(requests := View(c).requests[i := SeenAt(c', i)]) == View(c)
  {
    assert Writes(c.server.requests[i]);
    assert SeenAt(c', i) == SeenAt(c, i);
    assert View(c).requests[i := SeenAt(c, i)] == View(c).requests;
  }

  // ---------------------------------------------------------------------------------------------
  // Crashes

  lemma OneLanding(f: F.State, j: nat, k: nat)
    requires FI.Inv(f) && FI.Landing(f.jobs, j) && FI.Landing(f.jobs, k)
    ensures j == k
  {
  }

  lemma CrashLog(c: State, i: nat, j: nat)
    requires Inv(c) && FI.Landing(c.file.jobs, j) && Awaits(c, i, j)
    ensures LogAtCrash(c) == Recorded(c.server.log, c.server.requests[i], c.file.jobs[j].result)
  {
    forall m: nat, k: nat | FI.Landing(c.file.jobs, k) && Awaits(c, m, k) ensures m == i && k == j {
      OneLanding(c.file, j, k);
      OneOwner(c, i, m, j);
    }
  }

  lemma CrashInv(cfg: S.Config, c: State)
    requires Inv(c)
    ensures Inv(After(cfg, c, Crashes))
  {
    FI.InitInv(c.file.disk);
    if c.file.loaded {
      if j: nat :| FI.Landing(c.file.jobs, j) {
        assert TokenFile.LoadMap(c.file.disk) == Some(c.file.jobs[j].next);
      }
    }
  }

  lemma CrashView(cfg: S.Config, c: State)
    ensures View(After(cfg, c, Crashes)) ==
            S.State(map[], map[], Held(F.Init(c.file.disk)), [], LogAtCrash(c), c.server.minted)
  {
  }

  lemma LandedSeen(c: State, i: nat, j: nat)
    requires FI.Landing(c.file.jobs, j) && Awaits(c, i, j)
    ensures View(c).requests[i] == c.server.requests[i]
  {
  }

  lemma LandedFile(f: F.State, j: nat)
    requires FI.Inv(f) && FI.Landing(f.jobs, j)
    ensures f.loaded && Held(F.Init(f.disk)) == f.jobs[j].next
    ensures var w := f.jobs[j];
            w.next == Write(w.op, f.tokens, w.opTime, w.persistTime) && w.result == ResultOf(w.op, f.tokens, w.opTime)
  {
  }

  /** A crash with a landed file commits that job and restarts. */
  lemma LandedCrash(cfg: S.Config, c: State, j: nat) returns (a: seq<S.Event>)
    requires Inv(c) && FI.Landing(c.file.jobs, j)
    ensures Leads(S.Step(cfg), View(c), a, View(After(cfg, c, Crashes)))
  {
    var w := c.file.jobs[j];
    LandedFile(c.file, j);
    var i := Owner(c, j);
    CrashLog(c, i, j);
    CrashView(cfg, c);
    LandedSeen(c, i, j);
    AtomicCommit(View(c), i, w.opTime, w.persistTime, w.next, w.result);
    var e := S.StoreCommits(i, true, w.opTime, Some(w.persistTime));
    TwoSteps(cfg, View(c), e, S.Restarts(true));
    a := [e, S.Restarts(true)];
  }

  lemma TwoSteps(cfg: S.Config, s: S.State, e: S.Event, f: S.Event)
    requires S.Enabled(s, e) && S.Enabled(S.After(cfg, s, e), f)
    ensures Leads(S.Step(cfg), s, [e, f], S.After(cfg, S.After(cfg, s, e), f))
  {
    assert [e, f][1..] == [f] && [f][1..] == [];
    assert Leads(S.Step(cfg), S.After(cfg, s, e), [f], S.After(cfg, S.After(cfg, s, e), f));
  }

  lemma OneStep(cfg: S.Config, s: S.State, e: S.Event)
    requires S.Enabled(s, e)
    ensures Leads(S.Step(cfg), s, [e], S.After(cfg, s, e))
  {
    assert [e][1..] == [];
  }

  lemma QuietCrash(cfg: S.Config, c: State) returns (a: seq<S.Event>)
    requires Inv(c) && forall j: nat :: !FI.Landing(c.file.jobs, j)
    ensures Leads(S.Step(cfg), View(c), a, View(After(cfg, c, Crashes)))
  {
    assert LogAtCrash(c) == c.server.log;
    assert View(After(cfg, c, Crashes)) == S.Restart(View(c), true);
    OneStep(cfg, View(c), S.Restarts(true));
    a := [S.Restarts(true)];
  }

  // ---------------------------------------------------------------------------------------------
  // Refinement

  /** Every step of the server over the file store is no step of the atomic machine, one, or, for a
      crash with a landed file, a commit and a restart. */
  lemma StepSimulates(cfg: S.Config, c: State, e: Event) returns (a: seq<S.Event>)
    requires Inv(c) && Enabled(cfg, c, e)
    ensures Inv(After(cfg, c, e)) && Leads(S.Step(cfg), View(c), a, View(After(cfg, c, e)))
  {
    match e
    case Handler(h) =>
      HandlerSimulates(cfg, c, h);
      OneStep(cfg, View(c), h);
      a := [h];
    case Calls(i) =>
      CallSimulates(cfg, c, i);
      a := [];
    case Resumes(i) =>
      ResumeSimulates(cfg, c, i);
      a := [];
    case Store(step) =>
      StoreKeeps(cfg, c, step);
      var b := StoreSimulates(cfg, c, step);
      if b.None? {
        a := [];
      } else {
        OneStep(cfg, View(c), b.value);
        a := [b.value];
      }
    case Crashes =>
      CrashInv(cfg, c);
      if j: nat :| FI.Landing(c.file.jobs, j) {
        a := LandedCrash(cfg, c, j);
      } else {
        a := QuietCrash(cfg, c);
      }
  }

  lemma StoreSimulates(cfg: S.Config, c: State, step: F.Event) returns (a: Option<S.Event>)
    requires Inv(c) && Enabled(cfg, c, Store(step))
    ensures var c' := After(cfg, c, Store(step));
            if a.None? then View(c') == View(c) else S.Enabled(View(c), a.value) && View(c') == S.After(cfg, View(c), a.value)
    ensures a.Some? ==>
              || a.value.StoreReads?
              || (a.value.StoreCommits? && (a.value.ok ==> step.JobSettles? && step.ok && Awaits(c, a.value.request, step.job)))
  {
    match step
    case LoadSettles(l, readFails) =>
      LoadStutters(cfg, c, l, readFails);
      a := None;
    case ResumesAfterLoad(k) => a := LoadedSimulates(cfg, c, k);
    case JobStarts(_, _, _, _) =>
      JobStutters(cfg, c, step);
      a := None;
    case Renames(_) =>
      JobStutters(cfg, c, step);
      a := None;
    case JobSettles(j, ok) =>
      var e := SettleSimulates(cfg, c, j, ok);
      a := Some(e);
    case Returns(k) => a := ReturnSimulates(cfg, c, k);
  }

  /** An atomic run that passes, at increasing marks, through the views of the states up to the n-th. */
  ghost predicate Passes(cfg: S.Config, ss: seq<S.State>, es: seq<S.Event>, marks: seq<nat>, states: seq<State>, n: nat) {
    && S.IsRun(cfg, ss, es) && |marks| == n + 1 <= |states| && marks[0] == 0 && marks[n] == |es|
    && (forall k :: 0 <= k <= n ==> marks[k] < |ss| && ss[marks[k]] == View(states[k]))
    && (forall k :: 0 <= k < n ==> marks[k] <= marks[k + 1])
  }

  lemma ExtendRun(cfg: S.Config, ss: seq<S.State>, es: seq<S.Event>, e: S.Event)
    requires S.IsRun(cfg, ss, es) && S.Enabled(ss[|es|], e)
    ensures S.IsRun(cfg, ss + [S.After(cfg, ss[|es|], e)], es + [e])
  {
    var ss', es' := ss + [S.After(cfg, ss[|es|], e)], es + [e];
    forall i | 0 <= i < |es'| ensures S.Enabled(ss'[i], es'[i]) && ss'[i + 1] == S.After(cfg, ss'[i], es'[i]) {
      if i < |es| {
        assert ss'[i] == ss[i] && ss'[i + 1] == ss[i + 1] && es'[i] == es[i];
      }
    }
  }

  lemma {:induction false} ExtendRunBy(cfg: S.Config, ss: seq<S.State>, es: seq<S.Event>, a: seq<S.Event>, s': S.State)
    returns (ss': seq<S.State>, es': seq<S.Event>)
    requires S.IsRun(cfg, ss, es) && Leads(S.Step(cfg), ss[|es|], a, s')
    ensures S.IsRun(cfg, ss', es') && ss <= ss' && es <= es' && ss'[|es'|] == s'
    decreases |a|
  {
    if a == [] {
      ss', es' := ss, es;
    } else {
      ExtendRun(cfg, ss, es, a[0]);
      ss', es' := ExtendRunBy(cfg, ss + [S.After(cfg, ss[|es|], a[0])], es + [a[0]], a[1..], s');
    }
  }

  lemma PassesMore(cfg: S.Config, ss: seq<S.State>, es: seq<S.Event>, marks: seq<nat>, states: seq<State>, n: nat,
                   ss': seq<S.State>, es': seq<S.Event>)
    requires Passes(cfg, ss, es, marks, states, n) && n + 1 < |states|
    requires S.IsRun(cfg, ss', es') && ss <= ss' && es <= es' && ss'[|es'|] == View(states[n + 1])
    ensures Passes(cfg, ss', es', marks + [|es'|], states, n + 1)
  {
    var marks' := marks + [|es'|];
    forall k | 0 <= k <= n + 1 ensures marks'[k] < |ss'| && ss'[marks'[k]] == View(states[k]) {
      if k <= n {
        assert marks'[k] == marks[k] && ss'[marks[k]] == ss[marks[k]];
      }
    }
  }

  /** Every run of the server over the file store, crashes included, is a run of the atomic machine:
      there is one atomic run that passes through all the views in order, whatever loads, writes,
      failures, returns and crashes interleave. */
  lemma {:induction false} RefinesAtomic(cfg: S.Config, states: seq<State>, events: seq<Event>, n: nat)
    returns (ss: seq<S.State>, es: seq<S.Event>, marks: seq<nat>)
    requires IsRun(cfg, states, events) && n < |states|
    ensures Inv(states[n]) && Passes(cfg, ss, es, marks, states, n)
  {
    if n == 0 {
      InitInv();
      ss, es, marks := [S.Init()], [], [0];
    } else {
      var before, events', marks' := RefinesAtomic(cfg, states, events, n - 1);
      var a := StepSimulates(cfg, states[n - 1], events[n - 1]);
      ss, es := ExtendRunBy(cfg, before, events', a, View(states[n]));
      PassesMore(cfg, before, events', marks', states, n - 1, ss, es);
      marks := marks' + [|es|];
    }
  }

  /** So provenance holds over the file store: each accepted access token descends from a consent for
      the same client and resource and carries no more scope. */
  lemma AcceptedTokensDescendOverFile(cfg: S.Config, states: seq<State>, events: seq<Event>, n: nat, i: nat) returns (path: seq<nat>)
    requires IsRun(cfg, states, events) && n < |states|
    requires i < |states[n].server.log| && states[n].server.log[i].Authorized?
    ensures var log, t := states[n].server.log, states[n].server.log[i].token;
            && t.kind == Access && T.Lineage(log, path, t) && path[|path| - 1] < i && T.WithinConsent(t, log[path[0]].params)
            && cfg.pkceOk(log[path[2]].verifier, log[path[0]].params.codeChallenge)
  {
    var ss, es, _ := RefinesAtomic(cfg, states, events, n);
    path := T.AcceptedTokensDescend(cfg, ss, es, |es|, i);
  }

  /** And so does single use: no consent, code or refresh token is used twice. */
  lemma SingleUseOverFile(cfg: S.Config, states: seq<State>, events: seq<Event>, n: nat, i: nat, j: nat)
    requires IsRun(cfg, states, events) && n < |states| && i < j < |states[n].server.log|
    ensures var f, g := states[n].server.log[i], states[n].server.log[j];
            && !(f.CodeIssued? && g.CodeIssued? && f.consent == g.consent)
            && !(f.Exchanged? && g.Exchanged? && f.code == g.code)
            && !(f.Refreshed? && g.Refreshed? && f.presented == g.presented)
  {
    var ss, es, _ := RefinesAtomic(cfg, states, events, n);
    T.AtMostOnce(cfg, ss, es, |es|, i, j);
  }

  /** Two refresh tokens in the store, in memory or in a file not loaded yet, that go back to one
      exchange are one token. */
  lemma OneLiveRefreshOverFile(cfg: S.Config, states: seq<State>, events: seq<Event>, n: nat, g: string, h: string, p: seq<nat>, q: seq<nat>)
    requires IsRun(cfg, states, events) && n < |states|
    requires var tokens, log := Held(states[n].file), states[n].server.log;
             && g in tokens && tokens[g].kind == Refresh && h in tokens && tokens[h].kind == Refresh
             && T.Lineage(log, p, tokens[g]) && T.Lineage(log, q, tokens[h])
    requires p[2] == q[2]
    ensures g == h
  {
    var ss, es, _ := RefinesAtomic(cfg, states, events, n);
    T.OneLiveRefreshPerGrant(cfg, ss, es, |es|, g, h, p, q);
  }

  // ---------------------------------------------------------------------------------------------
  // Answers

  /** The event is the one behind the answer to request `i`, and records its fact: a handler that
      answers at once, or the settling of the write that the request waits for. */
  ghost predicate Answers(cfg: S.Config, c: State, e: Event, i: nat, response: S.Response) {
    && Enabled(cfg, c, e)
    && (match e
        case Handler(h) => A.Answering(h, i)
        case Store(step) => step.JobSettles? && step.ok && Awaits(c, i, step.job)
        case _ => false)
    && var log := After(cfg, c, e).server.log;
       |log| == |c.server.log| + 1 && A.Justifies(log[|c.server.log|], response)
  }

  ghost predicate WasAnswered(cfg: S.Config, states: seq<State>, events: seq<Event>, n: nat, i: nat, response: S.Response) {
    exists m :: 0 <= m < n && m < |states| && m < |events| && Answers(cfg, states[m], events[m], i, response)
  }

  /** Whatever is seen to grant something has been answered. */
  ghost predicate AllAnswered(cfg: S.Config, states: seq<State>, events: seq<Event>, n: nat)
    requires n < |states|
  {
    forall i, response :: 0 <= i < |states[n].server.requests| && SeenAt(states[n], i) == S.Done(response) && A.Grants(response) ==>
      WasAnswered(cfg, states, events, n, i, response)
  }

  /** No request that will be refused promises a grant. */
  ghost predicate NoPromise(s: S.State) {
    forall i, response :: 0 <= i < |s.requests| && A.Settled(s.requests[i], response) && A.Grants(response) ==> s.requests[i].Done?
  }

  lemma NoPromiseSeen(cfg: S.Config, states: seq<State>, events: seq<Event>, n: nat)
    requires IsRun(cfg, states, events) && n < |states|
    ensures Inv(states[n]) && NoPromise(View(states[n])) && SI.Inv(cfg, View(states[n]))
  {
    var ss, es, _ := RefinesAtomic(cfg, states, events, n);
    A.EverythingAnswered(cfg, ss, es, |es|);
    SS.RunInv(cfg, ss, es, |es|);
    var s := View(states[n]);
    forall i, response | 0 <= i < |s.requests| && A.Settled(s.requests[i], response) && A.Grants(response) ensures s.requests[i].Done? {
      assert A.RequestAnswered(cfg, ss, es, |es|, i, ss[|es|].requests[i]);
    }
  }

  /** An answer that one atomic event gives, or was given before. */
  lemma AtomicAnswer(cfg: S.Config, s: S.State, e: S.Event, i: nat, response: S.Response)
    requires S.Enabled(s, e) && NoPromise(s) && i < |S.After(cfg, s, e).requests|
    requires S.After(cfg, s, e).requests[i] == S.Done(response) && A.Grants(response)
    ensures (i < |s.requests| && s.requests[i] == S.Done(response)) || A.Answers(cfg, s, e, i, response)
  {
    A.AnswerOrigin(cfg, s, e, i);
    assert A.Settled(S.After(cfg, s, e).requests[i], response);
  }

  lemma HandlerAnswers(cfg: S.Config, c: State, h: S.Event, i: nat, response: S.Response)
    requires Inv(c) && NoPromise(View(c)) && Enabled(cfg, c, Handler(h))
    requires i < |View(After(cfg, c, Handler(h))).requests| && View(After(cfg, c, Handler(h))).requests[i] == S.Done(response)
    requires A.Grants(response)
    ensures (i < |View(c).requests| && View(c).requests[i] == S.Done(response)) || Answers(cfg, c, Handler(h), i, response)
  {
    HandlerSimulates(cfg, c, h);
    AtomicAnswer(cfg, View(c), h, i, response);
    assert View(c).log == c.server.log && View(After(cfg, c, Handler(h))).log == After(cfg, c, Handler(h)).server.log;
  }

  lemma StoreAnswers(cfg: S.Config, c: State, step: F.Event, i: nat, response: S.Response)
    requires Inv(c) && NoPromise(View(c)) && Enabled(cfg, c, Store(step))
    requires i < |View(After(cfg, c, Store(step))).requests| && View(After(cfg, c, Store(step))).requests[i] == S.Done(response)
    requires A.Grants(response)
    ensures (i < |View(c).requests| && View(c).requests[i] == S.Done(response)) || Answers(cfg, c, Store(step), i, response)
  {
    var a := StoreSimulates(cfg, c, step);
    if a.Some? {
      AtomicAnswer(cfg, View(c), a.value, i, response);
      if A.Answers(cfg, View(c), a.value, i, response) {
        CommitRecords(cfg, View(c), a.value, i, response);
        assert View(c).log == c.server.log && View(After(cfg, c, Store(step))).log == After(cfg, c, Store(step)).server.log;
      }
    }
  }

  /** Of the store's effects only a commit that succeeds answers. */
  lemma CommitRecords(cfg: S.Config, s: S.State, e: S.Event, i: nat, response: S.Response)
    requires A.Answers(cfg, s, e, i, response) && (e.StoreReads? || e.StoreCommits?)
    ensures e.StoreCommits? && e.ok && e.request == i
  {
  }

  lemma StepAnswers(cfg: S.Config, c: State, e: Event, i: nat, response: S.Response)
    requires Inv(c) && NoPromise(View(c)) && Enabled(cfg, c, e)
    requires i < |View(After(cfg, c, e)).requests| && View(After(cfg, c, e)).requests[i] == S.Done(response) && A.Grants(response)
    ensures (i < |View(c).requests| && View(c).requests[i] == S.Done(response)) || Answers(cfg, c, e, i, response)
  {
    match e
    case Handler(h) => HandlerAnswers(cfg, c, h, i, response);
    case Calls(k) => CallSimulates(cfg, c, k);
    case Resumes(k) => ResumeSimulates(cfg, c, k);
    case Store(step) => StoreAnswers(cfg, c, step, i, response);
    case Crashes => CrashView(cfg, c);
  }

  lemma AnsweredStep(cfg: S.Config, states: seq<State>, events: seq<Event>, n: nat)
    requires n + 1 < |states| && n < |events| && AllAnswered(cfg, states, events, n)
    requires Inv(states[n]) && NoPromise(View(states[n])) && Enabled(cfg, states[n], events[n])
    requires states[n + 1] == After(cfg, states[n], events[n])
    ensures AllAnswered(cfg, states, events, n + 1)
  {
    var c, c' := states[n], states[n + 1];
    forall i, response | 0 <= i < |c'.server.requests| && SeenAt(c', i) == S.Done(response) && A.Grants(response)
      ensures WasAnswered(cfg, states, events, n + 1, i, response)
    {
      assert View(c').requests[i] == SeenAt(c', i);
      StepAnswers(cfg, c, events[n], i, response);
      if i < |c.server.requests| && SeenAt(c, i) == S.Done(response) {
        assert WasAnswered(cfg, states, events, n, i, response);
      }
    }
  }

  lemma {:induction false} EverythingAnswered(cfg: S.Config, states: seq<State>, events: seq<Event>, n: nat)
    requires IsRun(cfg, states, events) && n < |states|
    ensures AllAnswered(cfg, states, events, n)
  {
    if n > 0 {
      EverythingAnswered(cfg, states, events, n - 1);
      AnsweredInRun(cfg, states, events, n - 1);
    }
  }

  lemma AnsweredInRun(cfg: S.Config, states: seq<State>, events: seq<Event>, n: nat)
    requires IsRun(cfg, states, events) && n < |events| && AllAnswered(cfg, states, events, n)
    ensures AllAnswered(cfg, states, events, n + 1)
  {
    NoPromiseSeen(cfg, states, events, n);
    AnsweredStep(cfg, states, events, n);
  }

  /** History only grows, over the file store too. */
  lemma LogKept(cfg: S.Config, states: seq<State>, events: seq<Event>, m: nat, n: nat)
    requires IsRun(cfg, states, events) && m <= n < |states|
    ensures A.IsPrefix(states[m].server.log, states[n].server.log)
  {
    var ss, es, marks := RefinesAtomic(cfg, states, events, n);
    MarksAscend(marks, m, n);
    A.LogKept(cfg, ss, es, marks[m], marks[n]);
    assert ss[marks[m]] == View(states[m]) && ss[marks[n]] == View(states[n]);
  }

  lemma {:induction false} MarksAscend(marks: seq<nat>, m: nat, n: nat)
    requires m <= n < |marks| && forall k :: 0 <= k < |marks| - 1 ==> marks[k] <= marks[k + 1]
    ensures marks[m] <= marks[n]
  {
    if m < n {
      MarksAscend(marks, m, n - 1);
      assert marks[n - 1] <= marks[n - 1 + 1];
    }
  }

  lemma AnswerSeen(c: State, i: nat)
    requires LinksOk(c) && i < |c.server.requests| && c.server.requests[i].Done?
    ensures SeenAt(c, i) == c.server.requests[i]
  {
    ViewAlike(c);
    assert View(c).requests[i] == SeenAt(c, i);
  }

  /** Each answer that grants something was given by one event, which recorded the fact behind it: a
      handler's own event, or for tokens the settling of the write its request waited for. */
  lemma AnswersAreRecordedOverFile(cfg: S.Config, states: seq<State>, events: seq<Event>, n: nat, i: nat) returns (m: nat, k: nat)
    requires IsRun(cfg, states, events) && n < |states|
    requires i < |states[n].server.requests|
    requires states[n].server.requests[i].Done? && A.Grants(states[n].server.requests[i].response)
    ensures m < n && Answers(cfg, states[m], events[m], i, states[n].server.requests[i].response)
    ensures k == |states[m].server.log| < |states[n].server.log|
    ensures A.Justifies(states[n].server.log[k], states[n].server.requests[i].response)
  {
    var response := states[n].server.requests[i].response;
    NoPromiseSeen(cfg, states, events, n);
    EverythingAnswered(cfg, states, events, n);
    AnswerSeen(states[n], i);
    assert WasAnswered(cfg, states, events, n, i, response);
    m :| 0 <= m < n && m < |states| && m < |events| && Answers(cfg, states[m], events[m], i, response);
    k := |states[m].server.log|;
    LogKept(cfg, states, events, m + 1, n);
  }

  /** No two answers rest on one fact. */
  lemma AnswersAreSeparateOverFile(cfg: S.Config, states: seq<State>, events: seq<Event>, i: nat, j: nat, m: nat, p: nat,
                                   a: S.Response, b: S.Response)
    requires IsRun(cfg, states, events) && m < |events| && p < |events|
    requires Answers(cfg, states[m], events[m], i, a) && Answers(cfg, states[p], events[p], j, b)
    requires |states[m].server.log| == |states[p].server.log|
    ensures m == p && i == j
  {
    if m < p {
      LogKept(cfg, states, events, m + 1, p);
    } else if p < m {
      LogKept(cfg, states, events, p + 1, m);
    } else {
      NoPromiseSeen(cfg, states, events, m);
      if events[m].Store? {
        OneOwner(states[m], i, j, events[m].step.job);
      }
    }
  }

  /** Over the file store, both tokens of a token answer descend from a consent and stay within it. */
  lemma IssuedTokensDescendOverFile(cfg: S.Config, states: seq<State>, events: seq<Event>, n: nat, i: nat, t: Token)
    returns (path: seq<nat>)
    requires IsRun(cfg, states, events) && n < |states| && i < |states[n].server.requests|
    requires states[n].server.requests[i].Done? && states[n].server.requests[i].response.TokensIssued?
    requires t == states[n].server.requests[i].response.access || Some(t) == states[n].server.requests[i].response.refresh
    ensures T.Lineage(states[n].server.log, path, t) && T.WithinConsent(t, states[n].server.log[path[0]].params)
  {
    var ss, es, _ := RefinesAtomic(cfg, states, events, n);
    AnswerSeen(states[n], i);
    assert View(states[n]).requests[i] == SeenAt(states[n], i);
    path := A.IssuedTokensDescend(cfg, ss, es, |es|, i, t);
  }

  /** A write that settles records an exchange or a refresh. */
  lemma SettledFactKind(cfg: S.Config, c: State, e: Event, i: nat, response: S.Response)
    requires Inv(c) && Answers(cfg, c, e, i, response) && e.Store?
    ensures response.TokensIssued?
  {
    SettleLog(c, i, e.step.job);
  }

  /** A passed check is the resumption of the check that read the token. */
  lemma PassedOverFile(cfg: S.Config, c: State, e: Event, i: nat) returns (t: Token)
    requires Inv(c) && SI.Inv(cfg, View(c)) && Answers(cfg, c, e, i, S.Allowed)
    ensures e.Handler? && A.PassesCheck(cfg, c.server, e.e, i, t)
    ensures After(cfg, c, e).server.log == c.server.log + [S.Authorized(t)]
  {
    if e.Store? {
      SettledFactKind(cfg, c, e, i, S.Allowed);
    }
    A.PassedEvent(cfg, c.server, e.e, i);
    A.AcceptanceIsRecorded(cfg, c.server, i, e.e.now);
    t := c.server.requests[i].stored.value;
    ReadHash(cfg, c, i);
  }

  lemma ReadHash(cfg: S.Config, c: State, i: nat)
    requires LinksOk(c) && SI.Inv(cfg, View(c)) && i < |c.server.requests| && c.server.requests[i].CheckRead?
    ensures var r := c.server.requests[i]; r.stored.Some? ==> r.stored.value.hash == r.presented
  {
    ViewAlike(c);
    assert View(c).requests[i] == c.server.requests[i];
    assert SI.RequestOk(cfg, View(c).log, View(c).requests[i]);
  }

  /** Over the file store and across crashes, a check that passed for a request was resumed with the
      unexpired access token that the request had read under the hash it presented, and that same token
      descends from a consent for the same client and resource and carries no more scope. */
  lemma PassedChecksDescendOverFile(cfg: S.Config, states: seq<State>, events: seq<Event>, n: nat, i: nat)
    returns (m: nat, t: Token, path: seq<nat>)
    requires IsRun(cfg, states, events) && n < |states|
    requires i < |states[n].server.requests| && states[n].server.requests[i] == S.Done(S.Allowed)
    ensures m < n && events[m].Handler? && A.PassesCheck(cfg, states[m].server, events[m].e, i, t)
    ensures |states[m].server.log| < |states[n].server.log| && states[n].server.log[|states[m].server.log|] == S.Authorized(t)
    ensures T.Lineage(states[n].server.log, path, t) && T.WithinConsent(t, states[n].server.log[path[0]].params)
  {
    var k;
    m, k := AnswersAreRecordedOverFile(cfg, states, events, n, i);
    NoPromiseSeen(cfg, states, events, m);
    t := PassedOverFile(cfg, states[m], events[m], i);
    LogKept(cfg, states, events, m + 1, n);
    path := AcceptedTokensDescendOverFile(cfg, states, events, n, k);
  }
}
