/** The two token stores as objects that update their fields in place. */
module TokenStores {
  import opened Wrappers
  import opened TokenStore
  import opened TokenFile
  import opened FileStoreProtocol
  import opened FileStoreInvariant

  /** The insertion loop of `setMany` and `replace`. */
  method InsertAll(m: Tokens, ts: seq<Token>) returns (r: Tokens)
    ensures r == SetAll(m, ts)
  {
    r := m;
    for i := 0 to |ts|
      invariant r == SetAll(m, ts[..i])
    {
      assert ts[..i + 1][..i] == ts[..i];
      r := r[ts[i].hash := ts[i]];
    }
    assert ts[..|ts|] == ts;
  }

  /** The loop at the head of `persist`, which deletes expired tokens by their own hash. */
  method PurgeExpired(m: Tokens, now: int) returns (r: Tokens)
    requires WellKeyed(m)
    ensures r == Purge(m, now)
  {
    r := m;
    var todo := m.Keys;
    while todo != {}
      invariant todo <= m.Keys
      invariant forall h :: h in r <==> h in m && (h in todo || m[h].expiresAt > now)
      invariant forall h :: h in r ==> r[h] == m[h]
    {
      var h :| h in todo;
      todo := todo - {h};
      var token := m[h];
      if token.expiresAt <= now {
        r := r - {token.hash};
      }
    }
  }

  /** `tokens.clear()` and the loop that refills it from the written map. */
  method Republish(next: Tokens) returns (r: Tokens)
    requires WellKeyed(next)
    ensures r == next
  {
    r := map[];
    var todo := next.Keys;
    while todo != {}
      invariant todo <= next.Keys
      invariant r == map h | h in next && h !in todo :: next[h]
    {
      var h :| h in todo;
      todo := todo - {h};
      var token := next[h];
      r := r[token.hash := token];
    }
  }

  /** `createMemoryOAuthTokenStore`. */
  class MemoryTokenStore {
    var tokens: Tokens

    constructor ()
      ensures tokens == map[]
    {
      tokens := map[];
    }

    method Get(hash: string) returns (r: Option<Token>)
      ensures r.Some? <==> hash in tokens
      ensures r.Some? ==> r.value == tokens[hash]
    {
      r := if hash in tokens then Some(tokens[hash]) else None;
    }

    method SetMany(ts: seq<Token>)
      modifies this
      ensures forall now :: tokens == Apply(TokenStore.SetMany(ts), old(tokens), now)
    {
      tokens := InsertAll(tokens, ts);
    }

    method Delete(hash: string)
      modifies this
      ensures forall now :: tokens == Apply(TokenStore.Delete(hash), old(tokens), now)
    {
      tokens := tokens - {hash};
    }

    method Replace(hash: string, replacements: seq<Token>, now: int) returns (r: Option<Token>)
      modifies this
      ensures tokens == Apply(TokenStore.Replace(hash, replacements), old(tokens), now)
      ensures r == ResultOf(TokenStore.Replace(hash, replacements), old(tokens), now)
    {
      if hash !in tokens || tokens[hash].expiresAt <= now {
        tokens := tokens - {hash};
        return None;
      }
      var existing := tokens[hash];
      tokens := tokens - {hash};
      tokens := InsertAll(tokens, replacements);
      return Some(existing);
    }
  }

  /** `createFileOAuthTokenStore`. Each method is one stretch between two `await`s; `loads` and
      `jobs` stand for the promises the source chains, `disk` for the file at the store's path. */
  class FileTokenStore {
    var tokens: Tokens
    var loaded: bool
    var loadPromise: Option<nat>
    var loads: seq<Promise>
    var jobs: seq<Job>
    var calls: seq<Call>
    var disk: Option<FileJson>
    ghost var base: Tokens

    ghost function View(): State
      reads this
    {
      State(tokens, loaded, loadPromise, loads, jobs, calls, disk, base)
    }

    ghost predicate Valid()
      reads this
    {
      Inv(View())
    }

    constructor (file: Option<FileJson>)
      ensures View() == Init(file) && Valid()
    {
      tokens, loaded, loadPromise := map[], false, None;
      loads, jobs, calls, disk, base := [], [], [], file, map[];
      new;
      InitInv(file);
    }

    /** Any call of the store, up to the `await` on its load. */
    method Invoke(request: Request)
      requires Valid()
      modifies this
      ensures View() == After(old(View()), Event.Invoke(request)) && Valid()
    {
      StepInv(View(), Event.Invoke(request));
      var pc := LoadDone;
      if !loaded {
        if loadPromise.None? {
          loadPromise := Some(|loads|);
          loads := loads + [Pending];
        }
        pc := AwaitsLoad(loadPromise.value);
      }
      calls := calls + [Call(request, pc)];
    }

    /** The body of the load promise after the file has been read, or could not be. */
    method LoadSettles(l: nat, readFails: bool)
      requires Valid() && Enabled(View(), Event.LoadSettles(l, readFails))
      modifies this
      ensures View() == After(old(View()), Event.LoadSettles(l, readFails)) && Valid()
    {
      StepInv(View(), Event.LoadSettles(l, readFails));
      var m := LoadMap(disk);
      if readFails || m.None? {
        loads := loads[l := Rejected];
      } else {
        tokens, base, loaded := m.value, m.value, true;
        loads := loads[l := Resolved];
      }
    }

    /** A call continues after its load: it drops the failed load and throws, or it takes the tail
        of the queue, or it queues its write. */
    method ResumesAfterLoad(c: nat)
      requires Valid() && Enabled(View(), Event.ResumesAfterLoad(c))
      modifies this
      ensures View() == After(old(View()), Event.ResumesAfterLoad(c)) && Valid()
    {
      StepInv(View(), Event.ResumesAfterLoad(c));
      var call := calls[c];
      if call.pc.AwaitsLoad? && loads[call.pc.load].Rejected? {
        if loadPromise == Some(call.pc.load) {
          loadPromise := None;
        }
        calls := calls[c := call.(pc := Threw)];
      } else if call.request.Get? {
        calls := calls[c := call.(pc := AwaitsTail(|jobs|))];
      } else {
        calls := calls[c := call.(pc := AwaitsJob(|jobs|))];
        jobs := jobs + [Queued(call.request.op)];
      }
    }

    /** A queued write runs: it copies the map, applies its operation, purges expired tokens and
        hands the sorted list to the file writer. */
    method JobStarts(j: nat, opTime: int, persistTime: int, listing: seq<Token>)
      requires Valid() && Enabled(View(), Event.JobStarts(j, opTime, persistTime, listing))
      modifies this
      ensures View() == After(old(View()), Event.JobStarts(j, opTime, persistTime, listing)) && Valid()
    {
      StepInv(View(), Event.JobStarts(j, opTime, persistTime, listing));
      var op := jobs[j].op;
      var next, result := tokens, None;
      match op {
        case SetMany(ts) => next := InsertAll(next, ts);
        case Delete(h) => next := next - {h};
        case Replace(h, ts) =>
          if h !in next || next[h].expiresAt <= opTime {
            next := next - {h};
          } else {
            result := Some(next[h]);
            next := next - {h};
            next := InsertAll(next, ts);
          }
      }
      ApplyKeepsKeys(op, tokens, opTime);
      next := PurgeExpired(next, persistTime);
      jobs := jobs[j := Writing(op, opTime, persistTime, next, result, listing, false)];
    }

    /** The file writer's last act: the temporary file takes the place of the old one. */
    method Renames(j: nat)
      requires Valid() && Enabled(View(), Event.Renames(j))
      modifies this
      ensures View() == After(old(View()), Event.Renames(j)) && Valid()
    {
      StepInv(View(), Event.Renames(j));
      disk := Some(FileFor(jobs[j].listing));
      jobs := jobs[j := jobs[j].(renamed := true)];
    }

    /** The write settles: only a successful one publishes its map. */
    method JobSettles(j: nat, ok: bool)
      requires Valid() && Enabled(View(), Event.JobSettles(j, ok))
      modifies this
      ensures View() == After(old(View()), Event.JobSettles(j, ok)) && Valid()
    {
      StepInv(View(), Event.JobSettles(j, ok));
      var w := jobs[j];
      if ok {
        tokens := Republish(w.next);
        jobs := jobs[j := Committed(w.op, w.opTime, w.persistTime, w.result)];
      } else {
        jobs := jobs[j := Failed(w.op)];
      }
    }

    /** A call returns: a read once its tail has settled, a mutation once its own write has. */
    method Returns(c: nat)
      requires Valid() && Enabled(View(), Event.Returns(c))
      modifies this
      ensures View() == After(old(View()), Event.Returns(c)) && Valid()
    {
      StepInv(View(), Event.Returns(c));
      var call := calls[c];
      if call.pc.AwaitsTail? {
        calls := calls[c := call.(pc := Read(Lookup(tokens, call.request.hash), SettledCount(jobs)))];
      } else if jobs[call.pc.job].Committed? {
        calls := calls[c := call.(pc := Acknowledged(call.pc.job, jobs[call.pc.job].result))];
      } else {
        calls := calls[c := call.(pc := Threw)];
      }
    }
  }
}
