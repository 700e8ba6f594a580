/** Run record ids: an identity joined by "::" and split again. */
module RunRecordIdentity {
  import opened Wrappers
  import opened JsonText

  const MARK: Unit := 0x3A
  const HASH: Unit := 0x23
  const SEPARATOR: Text := [MARK, MARK]

  datatype Identity = Block(blockRef: Text, runId: Text) | Feedback(feedbackId: Text, runId: Text)

  predicate StartsWithSeparator(t: Text) {
    |t| >= 2 && t[0] == MARK && t[1] == MARK
  }

  /** `split("::")` */
  function Split(t: Text): (r: seq<Text>)
    ensures r != []
  {
    if t == [] then [[]]
    else if StartsWithSeparator(t) then [[]] + Split(t[2..])
    else var r := Split(t[1..]); [[t[0]] + r[0]] + r[1..]
  }

  predicate Contains(t: Text) {
    exists i :: 0 <= i < |t| - 1 && t[i] == MARK && t[i + 1] == MARK
  }

  /** Exactly one hash, with something on each side. */
  predicate IsBlockRef(t: Text) {
    exists k :: 0 < k < |t| - 1 && t[k] == HASH && forall j :: 0 <= j < |t| && t[j] == HASH ==> j == k
  }

  /** `None` where the source throws. */
  function Parse(record: Text): Option<Identity> {
    var parts := Split(record);
    if |parts| != 2 || parts[0] == [] || parts[1] == [] then None
    else if HASH in parts[0] then
      if IsBlockRef(parts[0]) then Some(Block(parts[0], parts[1])) else None
    else Some(Feedback(parts[0], parts[1]))
  }

  function Ref(id: Identity): Text {
    match id case Block(ref, _) => ref case Feedback(ref, _) => ref
  }

  function Print(id: Identity): Text {
    Ref(id) + SEPARATOR + id.runId
  }

  predicate IsIdUnit(u: Unit) {
    IsAlphanumeric(u) || u == 0x2E || u == 0x5F || u == MARK || u == 0x2D
  }

  predicate IsRunId(t: Text) {
    t != [] && IsAlphanumeric(t[0]) && forall i :: 0 <= i < |t| ==> IsIdUnit(t[i])
  }

  /** "FE-" and at least one unit. */
  predicate IsFeedbackId(t: Text) {
    |t| > 3 && t[..3] == [0x46, 0x45, 0x2D] && forall i :: 3 <= i < |t| ==> IsIdUnit(t[i])
  }

  predicate IsReference(t: Text) {
    IsBlockRef(t) || IsFeedbackId(t)
  }

  /** The identity schema. */
  predicate Accepted(id: Identity) {
    IsRunId(id.runId) && (if id.Block? then IsBlockRef(id.blockRef) else IsFeedbackId(id.feedbackId))
  }

  // ---------------------------------------------------------------------------------------------
  // Splitting

  function Join(parts: seq<Text>): Text
    requires parts != []
  {
    if |parts| == 1 then parts[0] else parts[0] + SEPARATOR + Join(parts[1..])
  }

  lemma JoinCons(u: Unit, r: seq<Text>)
    requires r != []
    ensures Join([[u] + r[0]] + r[1..]) == [u] + Join(r)
  {
    var more := [[u] + r[0]] + r[1..];
    assert more[1..] == r[1..];
    if |r| > 1 {
      Regroup([u], r[0], SEPARATOR + Join(r[1..]));
      Regroup([u] + r[0], SEPARATOR, Join(r[1..]));
      Regroup(r[0], SEPARATOR, Join(r[1..]));
    }
  }

  lemma {:induction false} JoinSplit(t: Text)
    ensures Join(Split(t)) == t
  {
    if t == [] {
    } else if StartsWithSeparator(t) {
      JoinSplit(t[2..]);
      assert Split(t)[1..] == Split(t[2..]);
      assert t == SEPARATOR + t[2..];
    } else {
      JoinSplit(t[1..]);
      JoinCons(t[0], Split(t[1..]));
      assert t == [t[0]] + t[1..];
    }
  }

  predicate EndsInMark(t: Text) {
    t != [] && t[|t| - 1] == MARK
  }

  lemma ContainsTail(t: Text)
    requires t != []
    ensures Contains(t) <==> StartsWithSeparator(t) || Contains(t[1..])
  {
    if Contains(t[1..]) {
      var i :| 0 <= i < |t[1..]| - 1 && t[1..][i] == MARK && t[1..][i + 1] == MARK;
      assert t[i + 1] == MARK && t[i + 2] == MARK;
    }
    if Contains(t) && !StartsWithSeparator(t) {
      var i :| 0 <= i < |t| - 1 && t[i] == MARK && t[i + 1] == MARK;
      assert t[1..][i - 1] == MARK && t[1..][i] == MARK;
    }
  }

  /** A text without the separator is one part. */
  lemma {:induction false} SplitOne(t: Text)
    requires !Contains(t)
    ensures Split(t) == [t]
  {
    if t != [] {
      ContainsTail(t);
      assert !StartsWithSeparator(t);
      SplitOne(t[1..]);
      assert t == [t[0]] + t[1..];
    }
  }

  /** The first separator ends the first part. */
  lemma {:induction false} SplitFirst(a: Text, b: Text)
    requires !Contains(a) && !EndsInMark(a)
    ensures Split(a + SEPARATOR + b) == [a] + Split(b)
  {
    var t := a + SEPARATOR + b;
    if a == [] {
      assert t[2..] == b;
    } else {
      ContainsTail(a);
      SplitFirst(a[1..], b);
      assert t[1..] == a[1..] + SEPARATOR + b;
      assert !StartsWithSeparator(t);
      assert a == [a[0]] + a[1..];
      assert ([a[1..]] + Split(b))[1..] == Split(b);
    }
  }

  /** No part holds the separator, and only the last can end in a mark. */
  lemma {:induction false} PartsAreClean(t: Text, i: nat)
    requires i < |Split(t)|
    ensures !Contains(Split(t)[i]) && (i < |Split(t)| - 1 ==> !EndsInMark(Split(t)[i]))
    ensures i == 0 && t != [] && Split(t)[0] != [] ==> Split(t)[0][0] == t[0]
    ensures |Split(t)| > 1 && Split(t)[0] == [] ==> StartsWithSeparator(t)
    ensures |Split(t)| == 1 ==> Split(t)[0] == t
  {
    if t == [] {
    } else if StartsWithSeparator(t) {
      if i > 0 {
        PartsAreClean(t[2..], i - 1);
      }
    } else {
      PartsAreClean(t[1..], i);
      PartsAreClean(t[1..], 0);
      if i == 0 {
        FirstPart(t);
      }
    }
  }

  lemma FirstPart(t: Text)
    requires t != [] && !StartsWithSeparator(t)
    requires var r := Split(t[1..]);
             && !Contains(r[0]) && (|r| > 1 ==> !EndsInMark(r[0]))
             && (t[1..] != [] && r[0] != [] ==> r[0][0] == t[1])
             && (|r| > 1 && r[0] == [] ==> StartsWithSeparator(t[1..]))
    ensures !Contains(Split(t)[0]) && (|Split(t)| > 1 ==> !EndsInMark(Split(t)[0]))
  {
    var r := Split(t[1..]);
    var p := [t[0]] + r[0];
    ContainsTail(p);
    assert p[1..] == r[0];
    assert Split(t)[0] == p && |Split(t)| == |r|;
    assert t[1..] == [] ==> r == [[]];
  }

  // ---------------------------------------------------------------------------------------------
  // Round trips

  /** Every record id that parses is its parts joined. */
  lemma RebuiltExactly(record: Text)
    requires Parse(record).Some?
    ensures Print(Parse(record).value) == record
  {
    JoinSplit(record);
    var parts := Split(record);
    assert Join(parts) == parts[0] + SEPARATOR + Join(parts[1..]);
    assert Join(parts[1..]) == parts[1];
  }

  /** What a caller can check before printing. */
  predicate Separable(id: Identity) {
    !Contains(Ref(id)) && !EndsInMark(Ref(id)) && !Contains(id.runId)
  }

  /** A task and a block around one hash. */
  ghost predicate AroundHash(t: Text, task: Text, block: Text) {
    t == task + [0x23] + block && task != [] && block != [] && 0x23 !in task && 0x23 !in block
  }

  lemma BlockRefMeans(t: Text)
    ensures IsBlockRef(t) <==> exists task, block :: AroundHash(t, task, block)
  {
    if IsBlockRef(t) {
      var k :| 0 < k < |t| - 1 && t[k] == HASH && forall j :: 0 <= j < |t| && t[j] == HASH ==> j == k;
      assert t == t[..k] + [0x23] + t[k + 1..];
      assert AroundHash(t, t[..k], t[k + 1..]);
    }
    if task, block :| AroundHash(t, task, block) {
      assert t[|task|] == HASH;
      assert forall j :: 0 <= j < |task| ==> t[j] == task[j];
      assert forall j :: |task| < j < |t| ==> t[j] == block[j - |task| - 1];
    }
  }

  /** Letters, digits, and the marks ".", "_", ":" and "-". */
  ghost predicate IsIdText(t: Text) {
    forall i :: 0 <= i < |t| ==> IsAlphanumeric(t[i]) || t[i] in Ascii("._:-")
  }

  /** The patterns of run ids and of feedback ids. */
  lemma IdsMean(t: Text)
    ensures IsRunId(t) <==> IsIdText(t) && t != [] && IsAlphanumeric(t[0])
    ensures IsFeedbackId(t) <==> exists rest :: rest != [] && IsIdText(rest) && t == Ascii("FE-") + rest
  {
    MarksAre();
    var prefix := Ascii("FE-");
    assert prefix == [0x46, 0x45, 0x2D];
    if IsFeedbackId(t) {
      assert t == prefix + t[3..];
      assert IsIdText(t[3..]);
    }
    if rest :| rest != [] && IsIdText(rest) && t == prefix + rest {
      assert forall i :: 3 <= i < |t| ==> t[i] == rest[i - 3];
    }
  }

  lemma MarksAre()
    ensures Ascii("._:-") == [0x2E, 0x5F, 0x3A, 0x2D]
  {
  }

  /** A reference to a block, or one of a feedback, which may not hold a hash. */
  ghost predicate ReadableRef(id: Identity) {
    if id.Block? then exists task, block :: AroundHash(id.blockRef, task, block) else id.feedbackId != [] && 0x23 !in id.feedbackId
  }

  /** A record id reads as an identity exactly when it is its two parts around "::", neither of them
      empty, and can be split nowhere else. */
  lemma ParsesExactly(record: Text, id: Identity)
    ensures Parse(record) == Some(id) <==>
            record == Ref(id) + Ascii("::") + id.runId && ReadableRef(id) && id.runId != [] && Separable(id)
  {
    assert Ascii("::") == SEPARATOR;
    if id.Block? {
      BlockRefMeans(id.blockRef);
    }
    if Parse(record) == Some(id) {
      RebuiltExactly(record);
      PartsAreClean(record, 0);
      PartsAreClean(record, 1);
    }
    if record == Print(id) && ReadableRef(id) && id.runId != [] && Separable(id) {
      SplitFirst(Ref(id), id.runId);
      SplitOne(id.runId);
      assert Split(record) == [Ref(id), id.runId];
      assert id.Block? ==> HASH in id.blockRef;
    }
  }

  lemma FeedbackHasNoHash(t: Text)
    requires IsFeedbackId(t)
    ensures HASH !in t
  {
    forall i | 0 <= i < |t| ensures t[i] != HASH {
      if i < 3 {
        assert t[i] == t[..3][i];
      }
    }
  }

  lemma RefKind(id: Identity)
    requires Accepted(id)
    ensures Ref(id) != [] && (HASH in Ref(id) <==> id.Block?)
  {
    if id.Feedback? {
      FeedbackHasNoHash(id.feedbackId);
    }
  }

  /** An accepted identity parses back to itself exactly when its reference holds no "::" and does
      not end in ":", and its run id holds no "::". */
  lemma ParsesBack(id: Identity)
    requires Accepted(id)
    ensures Parse(Print(id)) == Some(id) <==> Separable(id)
  {
    RefKind(id);
    if Separable(id) {
      SplitFirst(Ref(id), id.runId);
      SplitOne(id.runId);
      assert Split(Print(id)) == [Ref(id), id.runId];
    }
    if Parse(Print(id)) == Some(id) {
      assert Split(Print(id))[0] == Ref(id) && Split(Print(id))[1] == id.runId;
      PartsAreClean(Print(id), 0);
      PartsAreClean(Print(id), 1);
    }
  }

  // ---------------------------------------------------------------------------------------------
  // Uniqueness of printed ids

  /** Another accepted identity prints the same. */
  ghost predicate Shared(id: Identity) {
    exists other :: Accepted(other) && other != id && Print(other) == Print(id)
  }

  /** The run id holds a separator at `k` that could be the one before a run id: a word unit follows
      and what comes before is a reference. */
  predicate RunIdSplits(id: Identity, k: nat) {
    && k + 2 < |id.runId| && id.runId[k..k + 2] == SEPARATOR && IsAlphanumeric(id.runId[k + 2])
    && IsReference(Ref(id) + SEPARATOR + id.runId[..k])
  }

  /** The reference holds such a separator: a reference comes before it and the rest reads as the
      start of a run id. */
  predicate RefSplits(id: Identity, k: nat) {
    && k + 2 < |Ref(id)| && Ref(id)[k..k + 2] == SEPARATOR
    && IsReference(Ref(id)[..k]) && IsRunId(Ref(id)[k + 2..])
  }

  function Identify(ref: Text, runId: Text): Identity {
    if HASH in ref then Block(ref, runId) else Feedback(ref, runId)
  }

  lemma IdentifyAccepted(ref: Text, runId: Text)
    requires IsReference(ref) && IsRunId(runId)
    ensures Accepted(Identify(ref, runId)) && Ref(Identify(ref, runId)) == ref
  {
    if IsFeedbackId(ref) {
      FeedbackHasNoHash(ref);
    }
  }

  lemma IdentifyRef(id: Identity)
    requires Accepted(id)
    ensures id == Identify(Ref(id), id.runId) && IsReference(Ref(id))
  {
    RefKind(id);
  }

  /** Moving the break of a printed id to another separator. */
  lemma MoveBreak(r: Text, x: Text, k: nat)
    requires k + 2 <= |x| && x[k..k + 2] == SEPARATOR
    ensures (r + SEPARATOR + x[..k]) + SEPARATOR + x[k + 2..] == r + SEPARATOR + x
  {
    assert x == x[..k] + (SEPARATOR + x[k + 2..]);
  }

  lemma RunIdTail(t: Text, k: nat)
    requires IsRunId(t) && k < |t| && IsAlphanumeric(t[k])
    ensures IsRunId(t[k..])
  {
  }

  lemma RunIdJoin(a: Text, b: Text)
    requires IsRunId(a) && IsRunId(b)
    ensures IsRunId(a + SEPARATOR + b)
  {
  }

  lemma Witness(id: Identity, ref: Text, runId: Text)
    requires IsReference(ref) && IsRunId(runId) && ref != Ref(id) && ref + SEPARATOR + runId == Print(id)
    ensures Shared(id)
  {
    IdentifyAccepted(ref, runId);
    assert Print(Identify(ref, runId)) == Print(id);
  }

  lemma RunIdSplitsShares(id: Identity, k: nat)
    requires Accepted(id) && RunIdSplits(id, k)
    ensures Shared(id)
  {
    RunIdTail(id.runId, k + 2);
    MoveBreak(Ref(id), id.runId, k);
    assert |Ref(id) + SEPARATOR + id.runId[..k]| > |Ref(id)|;
    Witness(id, Ref(id) + SEPARATOR + id.runId[..k], id.runId[k + 2..]);
  }

  lemma RefSplitsShares(id: Identity, k: nat)
    requires Accepted(id) && RefSplits(id, k)
    ensures Shared(id)
  {
    var ref, rest := Ref(id)[..k], Ref(id)[k + 2..];
    RunIdJoin(rest, id.runId);
    assert Ref(id) == ref + SEPARATOR + rest;
    Regroup(ref + SEPARATOR, rest, SEPARATOR + id.runId);
    Regroup(ref + SEPARATOR + rest, SEPARATOR, id.runId);
    Regroup(rest, SEPARATOR, id.runId);
    Witness(id, ref, rest + SEPARATOR + id.runId);
  }

  /** Of two identities with one print, the shorter reference leaves a run id that splits and the
      longer one splits itself. */
  lemma PrintsOverlap(a: Identity, b: Identity)
    requires Accepted(a) && Accepted(b) && Print(a) == Print(b) && |Ref(a)| < |Ref(b)|
    ensures |Ref(b)| >= |Ref(a)| + 2
    ensures RunIdSplits(a, |Ref(b)| - |Ref(a)| - 2) && RefSplits(b, |Ref(a)|)
  {
    var m, k := |Ref(a)|, |Ref(b)| - |Ref(a)| - 2;
    IdentifyRef(a);
    IdentifyRef(b);
    OverlapTexts(Ref(a), a.runId, Ref(b), b.runId);
    RunIdHead(a.runId, k);
  }

  lemma RunIdHead(t: Text, k: nat)
    requires IsRunId(t) && 0 < k <= |t|
    ensures IsRunId(t[..k])
  {
  }

  /** The texts around the two separators. */
  lemma OverlapTexts(r: Text, x: Text, s: Text, y: Text)
    requires r + SEPARATOR + x == s + SEPARATOR + y && |r| < |s| && x != [] && y != [] && IsAlphanumeric(x[0]) && IsAlphanumeric(y[0])
    ensures |s| > |r| + 2
    ensures var k := |s| - |r| - 2;
            && x[k..k + 2] == SEPARATOR && x[k + 2] == y[0] && r + SEPARATOR + x[..k] == s
            && s[|r|..|r| + 2] == SEPARATOR && s[..|r|] == r && s[|r| + 2..] == x[..k]
  {
    var p, m, n := r + SEPARATOR + x, |r|, |s|;
    assert p[m + 2] == x[0] && p[n] == MARK && p[n + 1] == MARK && p[n + 2] == y[0];
    assert p[..n] == s && p[..m] == r && p[m..m + 2] == SEPARATOR && p[n..n + 2] == SEPARATOR;
    assert forall i :: 0 <= i < |x| ==> x[i] == p[m + 2 + i];
  }

  /** An accepted identity shares its print with another exactly when its run id or its reference
      holds a separator that could stand between a reference and a run id. */
  lemma SharedExactly(id: Identity)
    requires Accepted(id)
    ensures Shared(id) <==> (exists k :: RunIdSplits(id, k)) || (exists k :: RefSplits(id, k))
  {
    if k :| RunIdSplits(id, k) {
      RunIdSplitsShares(id, k);
    }
    if k :| RefSplits(id, k) {
      RefSplitsShares(id, k);
    }
    if Shared(id) {
      var other :| Accepted(other) && other != id && Print(other) == Print(id);
      if |Ref(id)| < |Ref(other)| {
        PrintsOverlap(id, other);
      } else if |Ref(other)| < |Ref(id)| {
        PrintsOverlap(other, id);
      } else {
        SameLength(id, other);
      }
    }
  }

  lemma SameLength(a: Identity, b: Identity)
    requires Accepted(a) && Accepted(b) && Print(a) == Print(b) && |Ref(a)| == |Ref(b)|
    ensures a == b
  {
    var n := |Ref(a)|;
    assert Print(a)[..n] == Ref(a) && Print(b)[..n] == Ref(b);
    assert Print(a)[n + 2..] == a.runId && Print(b)[n + 2..] == b.runId;
    IdentifyRef(a);
    IdentifyRef(b);
  }

  /** In particular, identities that parse back to themselves share their print with no other. */
  lemma SeparableIsUnique(id: Identity)
    requires Accepted(id) && Separable(id)
    ensures !Shared(id)
  {
    SharedExactly(id);
    forall k: nat ensures !RunIdSplits(id, k) && !RefSplits(id, k) {
      NoSeparatorAt(id.runId, k);
      NoSeparatorAt(Ref(id), k);
    }
  }

  lemma NoSeparatorAt(t: Text, k: nat)
    requires !Contains(t)
    ensures k + 2 <= |t| ==> t[k..k + 2] != SEPARATOR
  {
    if k + 2 <= |t| {
      assert t[k..k + 2] == [t[k], t[k + 1]];
    }
  }

  /** The converse fails: this one is unique although its reference ends in a mark. */
  lemma UniqueButNotSeparable()
    ensures var id := Feedback([0x46, 0x45, 0x2D, 0x61, MARK], [0x62]); Accepted(id) && !Separable(id) && !Shared(id)
  {
    var id := Feedback([0x46, 0x45, 0x2D, 0x61, MARK], [0x62]);
    SharedExactly(id);
  }

  /** Printing is not injective on all accepted identities: a separator in the block reference can
      be taken for the one before the run id. */
  lemma PrintingCollides()
    ensures var a, b := Block([0x61, HASH, 0x62, MARK, MARK, 0x63], [0x64]), Block([0x61, HASH, 0x62], [0x63, MARK, MARK, 0x64]);
            Accepted(a) && Accepted(b) && a != b && Print(a) == Print(b) && Parse(Print(a)).None?
  {
    var a, b := Block([0x61, HASH, 0x62, MARK, MARK, 0x63], [0x64]), Block([0x61, HASH, 0x62], [0x63, MARK, MARK, 0x64]);
    assert a.blockRef[1] == HASH && b.blockRef[1] == HASH;
    assert Print(a) == [0x61, HASH, 0x62] + SEPARATOR + ([0x63] + SEPARATOR + [0x64]);
    assert Print(b) == Print(a);
    SplitFirst([0x61, HASH, 0x62], [0x63] + SEPARATOR + [0x64]);
    SplitFirst([0x63], [0x64]);
    assert |Split(Print(a))| >= 3;
  }
}
