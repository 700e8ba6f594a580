/** The journal delta and event batch validators, and the chains they accept. */
module CursorChains {
  import opened Numbers

  const MAX_EVENTS: nat := 128

  // ---------------------------------------------------------------------------------------------
  // Journal deltas

  /** A journal entry; `digest` stands for the content digest and `body` for everything else. */
  datatype Entry<E> = Entry(revision: nat, previousRevision: nat, digest: E, body: E)

  datatype Delta<E> = Delta(after: nat, head: nat, headDigest: E, entries: seq<Entry<E>>)

  datatype DeltaIssue = HeadBeforeAfter | EmptyMoves | Broken(index: nat) | LastIsNotHead | DigestIsNotHead

  /** The entry schema: revisions are safe integers and advance by one. */
  predicate GoodEntry<E>(e: Entry<E>) {
    1 <= e.revision <= MAX_SAFE_INTEGER && e.revision == e.previousRevision + 1
  }

  predicate GoodEntries<E>(es: seq<Entry<E>>) {
    forall i :: 0 <= i < |es| ==> GoodEntry(es[i])
  }

  /** The revision the i-th entry has to follow. */
  function Expected<E>(d: Delta<E>, i: nat): nat
    requires i <= |d.entries|
  {
    if i == 0 then d.after else d.entries[i - 1].revision
  }

  predicate BrokenAt<E>(d: Delta<E>, i: nat) {
    i < |d.entries| && d.entries[i].previousRevision != Expected(d, i)
  }

  ghost predicate FirstBroken<E>(d: Delta<E>, i: nat) {
    BrokenAt(d, i) && forall j: nat :: j < i ==> !BrokenAt(d, j)
  }

  /** The refinement as it runs: the loop stops at the first break. */
  method CheckDelta<E(==)>(d: Delta<E>) returns (issues: seq<DeltaIssue>)
    ensures forall i :: Broken(i) in issues <==> FirstBroken(d, i)
    ensures HeadBeforeAfter in issues <==> d.head < d.after
    ensures EmptyMoves in issues <==> d.entries == [] && d.head != d.after
    ensures LastIsNotHead in issues <==> d.entries != [] && d.entries[|d.entries| - 1].revision != d.head
    ensures DigestIsNotHead in issues <==> d.entries != [] && d.entries[|d.entries| - 1].digest != d.headDigest
  {
    issues := [];
    if d.head < d.after {
      issues := issues + [HeadBeforeAfter];
    }
    if |d.entries| == 0 && d.head != d.after {
      issues := issues + [EmptyMoves];
    }
    var expectedPrevious := d.after;
    for index := 0 to |d.entries|
      invariant expectedPrevious == Expected(d, index)
      invariant forall j: nat :: j < index ==> !BrokenAt(d, j)
      invariant issues == (if d.head < d.after then [HeadBeforeAfter] else []) +
                          (if d.entries == [] && d.head != d.after then [EmptyMoves] else [])
    {
      if d.entries[index].previousRevision != expectedPrevious {
        issues := issues + [Broken(index)];
        assert FirstBroken(d, index);
        break;
      }
      expectedPrevious := d.entries[index].revision;
    }
    assert forall i :: Broken(i) in issues <==> FirstBroken(d, i);
    if |d.entries| > 0 {
      var last := d.entries[|d.entries| - 1];
      if last.revision != d.head {
        issues := issues + [LastIsNotHead];
      }
      if last.digest != d.headDigest {
        issues := issues + [DigestIsNotHead];
      }
    }
  }

  /** No issue is raised. */
  ghost predicate DeltaAccepted<E(!new)>(d: Delta<E>, maxEntries: nat) {
    && |d.entries| <= maxEntries && GoodEntries(d.entries)
    && d.after <= d.head <= MAX_SAFE_INTEGER && (d.entries == [] ==> d.head == d.after)
    && (forall i: nat :: !BrokenAt(d, i))
    && (d.entries != [] ==> d.entries[|d.entries| - 1].revision == d.head && d.entries[|d.entries| - 1].digest == d.headDigest)
  }

  /** The method accepts exactly what the predicate does. */
  method AcceptDelta<E(==,!new)>(d: Delta<E>, maxEntries: nat) returns (ok: bool)
    ensures ok <==> DeltaAccepted(d, maxEntries)
  {
    var issues := CheckDelta(d);
    ok := |d.entries| <= maxEntries && GoodEntries(d.entries) && d.after <= MAX_SAFE_INTEGER && d.head <= MAX_SAFE_INTEGER && issues == [];
    if issues == [] {
      assert HeadBeforeAfter !in issues && EmptyMoves !in issues && LastIsNotHead !in issues && DigestIsNotHead !in issues;
      if exists i: nat :: BrokenAt(d, i) {
        var k := FirstBreak(d);
        assert Broken(k) !in issues;
      }
    } else {
      assert issues[0] in issues;
      assert issues[0].Broken? ==> BrokenAt(d, issues[0].index);
    }
  }

  lemma FirstBreak<E>(d: Delta<E>) returns (i: nat)
    requires exists k: nat :: BrokenAt(d, k)
    ensures FirstBroken(d, i)
  {
    i := 0;
    while !BrokenAt(d, i)
      invariant i <= |d.entries|
      invariant forall j: nat :: j < i ==> !BrokenAt(d, j)
      decreases |d.entries| - i
    {
      i := i + 1;
    }
  }

  /** The i-th entry has revision after + i + 1 and follows after + i. */
  predicate Contiguous<E>(after: nat, es: seq<Entry<E>>) {
    forall i :: 0 <= i < |es| ==> es[i].revision == after + i + 1 && es[i].previousRevision == after + i
  }

  /** A delta is accepted exactly when its entries count up from `after` to `head` without a gap and
      the last digest is the head's. */
  lemma DeltaIsChain<E(!new)>(d: Delta<E>, maxEntries: nat)
    ensures DeltaAccepted(d, maxEntries) <==>
            && |d.entries| <= maxEntries && Contiguous(d.after, d.entries) && d.head == d.after + |d.entries|
            && d.head <= MAX_SAFE_INTEGER && (d.entries != [] ==> d.entries[|d.entries| - 1].digest == d.headDigest)
  {
    if DeltaAccepted(d, maxEntries) {
      CountsUp(d, |d.entries|);
    }
    if Contiguous(d.after, d.entries) && d.head == d.after + |d.entries| {
      forall i: nat ensures !BrokenAt(d, i) {
      }
    }
  }

  lemma {:induction false} CountsUp<E(!new)>(d: Delta<E>, n: nat)
    requires GoodEntries(d.entries) && n <= |d.entries| && forall i: nat :: !BrokenAt(d, i)
    ensures Contiguous(d.after, d.entries[..n]) && Expected(d, n) == d.after + n
  {
    if n > 0 {
      CountsUp(d, n - 1);
      assert !BrokenAt(d, n - 1);
      assert d.entries[..n] == d.entries[..n - 1] + [d.entries[n - 1]];
    }
  }

  function FirstPart<E>(d: Delta<E>, k: nat): Delta<E>
    requires 0 < k < |d.entries|
  {
    Delta(d.after, d.entries[k - 1].revision, d.entries[k - 1].digest, d.entries[..k])
  }

  function SecondPart<E>(d: Delta<E>, k: nat): Delta<E>
    requires 0 < k < |d.entries|
  {
    Delta(d.entries[k - 1].revision, d.head, d.headDigest, d.entries[k..])
  }

  function Joined<E>(d: Delta<E>, e: Delta<E>): Delta<E> {
    Delta(d.after, e.head, if e.entries == [] then d.headDigest else e.headDigest, d.entries + e.entries)
  }

  /** An accepted delta splits at any interior entry into accepted deltas that join back to it. */
  lemma DeltaSplits<E(!new)>(d: Delta<E>, k: nat, maxEntries: nat)
    requires DeltaAccepted(d, maxEntries) && 0 < k < |d.entries|
    ensures DeltaAccepted(FirstPart(d, k), maxEntries) && DeltaAccepted(SecondPart(d, k), maxEntries)
    ensures Joined(FirstPart(d, k), SecondPart(d, k)) == d
  {
    DeltaIsChain(d, maxEntries);
    DeltaIsChain(FirstPart(d, k), maxEntries);
    DeltaIsChain(SecondPart(d, k), maxEntries);
    assert d.entries[..k] + d.entries[k..] == d.entries;
  }

  /** Accepted deltas that meet join into an accepted delta, up to the entry limit. */
  lemma DeltasJoin<E(!new)>(d: Delta<E>, e: Delta<E>, maxEntries: nat)
    requires DeltaAccepted(d, maxEntries) && DeltaAccepted(e, maxEntries) && e.after == d.head
    ensures DeltaAccepted(Joined(d, e), maxEntries) <==> |d.entries| + |e.entries| <= maxEntries
  {
    DeltaIsChain(d, maxEntries);
    DeltaIsChain(e, maxEntries);
    DeltaIsChain(Joined(d, e), maxEntries);
    assert e.entries == [] ==> d.entries + e.entries == d.entries;
  }

  // ---------------------------------------------------------------------------------------------
  // Event batches

  datatype Event<E> = Event(cursor: nat, body: E)

  datatype Batch<E> = Batch(after: nat, cursor: nat, events: seq<Event<E>>)

  datatype BatchIssue = NotContiguous | CursorIsNotLast | TooManyBytes

  /** The refinement as it runs; `fits` is the byte limit of the second protocol version and always
      holds in the first. */
  method CheckBatch<E>(b: Batch<E>, fits: bool) returns (issues: seq<BatchIssue>)
    ensures NotContiguous in issues <==> !BatchContiguous(b.after, b.events)
    ensures CursorIsNotLast in issues <==> BatchContiguous(b.after, b.events) && b.cursor != b.after + |b.events|
    ensures TooManyBytes in issues <==> BatchContiguous(b.after, b.events) && !fits
  {
    issues := [];
    var expected := b.after + 1;
    for i := 0 to |b.events|
      invariant issues == [] && expected == b.after + i + 1
      invariant BatchContiguous(b.after, b.events[..i])
    {
      if b.events[i].cursor != expected {
        return [NotContiguous];
      }
      assert b.events[..i + 1] == b.events[..i] + [b.events[i]];
      expected := expected + 1;
    }
    assert b.events[..|b.events|] == b.events;
    if b.cursor != expected - 1 {
      issues := issues + [CursorIsNotLast];
    }
    if !fits {
      issues := issues + [TooManyBytes];
    }
  }

  /** The i-th event has cursor after + i + 1. */
  predicate BatchContiguous<E>(after: nat, events: seq<Event<E>>) {
    forall i :: 0 <= i < |events| ==> events[i].cursor == after + i + 1
  }

  /** `fits` is the byte limit of the second protocol version; the first has none. */
  ghost predicate BatchAccepted<E>(b: Batch<E>, fits: Batch<E> -> bool) {
    && 1 <= |b.events| <= 128
    && b.after <= MAX_SAFE_INTEGER && b.cursor <= MAX_SAFE_INTEGER
    && (forall i :: 0 <= i < |b.events| ==> 1 <= b.events[i].cursor <= MAX_SAFE_INTEGER)
    && BatchContiguous(b.after, b.events) && b.cursor == b.after + |b.events| && fits(b)
  }

  /** The validator accepts exactly the contiguous batches. */
  method AcceptBatch<E(!new)>(b: Batch<E>, fits: Batch<E> -> bool) returns (ok: bool)
    ensures ok <==> BatchAccepted(b, fits)
  {
    var issues := CheckBatch(b, fits(b));
    if issues == [] {
      assert NotContiguous !in issues && CursorIsNotLast !in issues && TooManyBytes !in issues;
    } else {
      assert issues[0] in issues;
      match issues[0]
      case NotContiguous =>
      case CursorIsNotLast =>
      case TooManyBytes =>
    }
    ok := 1 <= |b.events| <= MAX_EVENTS && b.after <= MAX_SAFE_INTEGER && b.cursor <= MAX_SAFE_INTEGER
      && (forall i :: 0 <= i < |b.events| ==> 1 <= b.events[i].cursor <= MAX_SAFE_INTEGER) && issues == [];
  }

  function BatchPart<E>(b: Batch<E>, i: nat, j: nat): Batch<E>
    requires i < j <= |b.events|
  {
    Batch(if i == 0 then b.after else b.events[i - 1].cursor, b.events[j - 1].cursor, b.events[i..j])
  }

  /** An accepted batch splits at any interior event into batches accepted as far as they fit. */
  lemma BatchSplits<E>(b: Batch<E>, k: nat, fits: Batch<E> -> bool)
    requires BatchAccepted(b, fits) && 0 < k < |b.events|
    ensures var p, q := BatchPart(b, 0, k), BatchPart(b, k, |b.events|);
            && p.after == b.after && p.cursor == q.after && q.cursor == b.cursor && p.events + q.events == b.events
            && (BatchAccepted(p, fits) <==> fits(p)) && (BatchAccepted(q, fits) <==> fits(q))
  {
    var p, q := BatchPart(b, 0, k), BatchPart(b, k, |b.events|);
    assert forall i :: 0 <= i < k ==> p.events[i] == b.events[i];
    assert forall i :: 0 <= i < |b.events| - k ==> q.events[i] == b.events[i + k];
    assert b.events[..k] + b.events[k..] == b.events;
    assert BatchContiguous(p.after, p.events) && BatchContiguous(q.after, q.events);
  }

  /** Accepted batches that meet join into an accepted batch, up to the count and byte limits. */
  lemma BatchesJoin<E>(b: Batch<E>, c: Batch<E>, fits: Batch<E> -> bool)
    requires BatchAccepted(b, fits) && BatchAccepted(c, fits) && c.after == b.cursor
    ensures var joined := Batch(b.after, c.cursor, b.events + c.events);
            BatchAccepted(joined, fits) <==> |b.events| + |c.events| <= MAX_EVENTS && fits(joined)
  {
    var joined := Batch(b.after, c.cursor, b.events + c.events);
    assert BatchContiguous(joined.after, joined.events);
  }
}
