/** The largest content version on the wire, and the exact limit of the wire budget. */
module ContentTransferLimit {
  import opened Wrappers
  import opened JsonText
  import opened JsonBytes
  import opened Timestamps
  import opened ContentVersion
  import opened ContentTransfer
  import Decimal

  // ---------------------------------------------------------------------------------------------
  // Sums over members

  function CostSum(ms: seq<Member>): nat {
    if ms == [] then 0 else Cost(ms[0]) + CostSum(ms[1..])
  }

  /** The digits of `n` indices from `index` on. */
  function IndexDigits(index: nat, n: nat): nat
    decreases n
  {
    if n == 0 then 0 else |Decimal.Write(index)| + IndexDigits(index + 1, n - 1)
  }

  predicate Plain(m: Member) {
    IsPlain(m.path) && IsHexDigest(m.digest)
  }

  predicate AllPlain(ms: seq<Member>) {
    ms == [] || (Plain(ms[0]) && AllPlain(ms[1..]))
  }

  lemma {:induction false} MemberFramesExact(ms: seq<Member>, index: nat)
    requires AllPlain(ms)
    ensures MemberFramesBytes(ms, index) == IndexDigits(index, |ms|) + CostSum(ms)
  {
    if ms != [] {
      MemberFrameExact(index, ms[0]);
      MemberFramesExact(ms[1..], index + 1);
    }
  }

  lemma {:induction false} IndexDigitsSplit(index: nat, m: nat, n: nat)
    ensures IndexDigits(index, m + n) == IndexDigits(index, m) + IndexDigits(index + m, n)
    decreases m
  {
    if m > 0 {
      IndexDigitsSplit(index + 1, m - 1, n);
    }
  }

  lemma OneMore(n: nat, d: nat)
    requires n > 0
    ensures n * d == d + (n - 1) * d
  {
  }

  lemma {:induction false} SameDigits(index: nat, n: nat, d: nat, low: nat, high: nat)
    requires d >= 1 && low == Decimal.Power10(d - 1) && high == Decimal.Power10(d) && low <= index && index + n <= high
    ensures IndexDigits(index, n) == n * d
    decreases n
  {
    if n > 0 {
      Decimal.ExactDigits(index, d);
      SameDigits(index + 1, n - 1, d, low, high);
      OneMore(n, d);
    }
  }

  lemma {:induction false} SmallDigits(index: nat, n: nat)
    requires index + n <= 10
    ensures IndexDigits(index, n) == n
    decreases n
  {
    if n > 0 {
      SmallDigits(index + 1, n - 1);
    }
  }

  lemma SmallPowers()
    ensures Decimal.Power10(1) == 10 && Decimal.Power10(2) == 100 && Decimal.Power10(3) == 1000 && Decimal.Power10(4) == 10_000
  {
  }

  lemma FirstThousand(one: nat, two: nat, three: nat)
    requires one == 10 && two == 90 && three == 900
    ensures IndexDigits(0, one + two + three) == one + 2 * two + 3 * three
  {
    SmallPowers();
    SmallDigits(0, one);
    SameDigits(one, two, 2, 10, 100);
    SameDigits(one + two, three, 3, 100, 1000);
    IndexDigitsSplit(0, one, two);
    IndexDigitsSplit(0, one + two, three);
  }

  /** Indices of one, two, three and four digits. */
  lemma DigitRanges(one: nat, two: nat, three: nat, four: nat)
    requires one == 10 && two == 90 && three == 900 && four <= 9000
    ensures IndexDigits(0, one + two + three + four) == one + 2 * two + 3 * three + 4 * four
  {
    SmallPowers();
    FirstThousand(one, two, three);
    SameDigits(one + two + three, four, 4, 1000, 10_000);
    IndexDigitsSplit(0, one + two + three, four);
  }

  lemma AllIndexDigits(n: nat)
    requires n == MAX_MEMBERS
    ensures IndexDigits(0, n) == 15282
  {
    DigitRanges(10, 90, 900, n - 1000);
  }

  lemma FewerIndexDigits(n: nat)
    requires n <= MAX_MEMBERS
    ensures IndexDigits(0, n) <= 15282
  {
    IndexDigitsSplit(0, n, MAX_MEMBERS - n);
    AllIndexDigits(n + (MAX_MEMBERS - n));
  }

  // ---------------------------------------------------------------------------------------------
  // Upper bound

  /** The digits of a size, charged to its bytes: the line through one more digit for each 90000
      bytes from five digits at 10000 on. */
  lemma DigitsCharged(n: nat)
    requires n <= MAX_MEMBER_BYTES
    ensures 90_000 * |Decimal.Write(n)| <= n + 440_000
  {
    assert Decimal.Power10(4) == 10_000 && Decimal.Power10(5) == 100_000;
    assert Decimal.Power10(6) == 10 * Decimal.Power10(5) && Decimal.Power10(8) == 100 * Decimal.Power10(6);
    if n < 10_000 {
      Decimal.DigitCount(n, 4);
    } else if n < 100_000 {
      Decimal.DigitCount(n, 5);
    } else if n < 1_000_000 {
      Decimal.DigitCount(n, 6);
    } else {
      Decimal.DigitCount(n, 8);
    }
  }

  /** The longest kind and path together, by kind. */
  function NameBound(kind: Kind): nat {
    match kind case Manifest => 21 case DesktopLayout => 33 case _ => 524
  }

  lemma NameIsBounded(m: Member)
    requires GoodMember(m)
    ensures |KindText(m.kind)| + |m.path| <= NameBound(m.kind)
  {
    KindSize(m.kind);
  }

  /** A bound on the cost that adds up, in units of 1/90000. */
  predicate Charged(m: Member) {
    Plain(m) && 90_000 * Cost(m) <= 90_000 * (166 + NameBound(m.kind) + 6 * m.sizeBytes) + m.sizeBytes + 440_000
  }

  lemma GoodIsCharged(m: Member)
    requires GoodMember(m)
    ensures Charged(m)
  {
    PathIsPlain(m.path);
    NameIsBounded(m);
    DigitsCharged(m.sizeBytes);
    EscapedBytes(m.content);
  }

  predicate AllCharged(ms: seq<Member>) {
    ms == [] || (Charged(ms[0]) && AllCharged(ms[1..]))
  }

  lemma {:induction false} GoodAreCharged(ms: seq<Member>)
    requires forall i :: 0 <= i < |ms| ==> GoodMember(ms[i])
    ensures AllCharged(ms) && AllPlain(ms)
  {
    if ms != [] {
      GoodIsCharged(ms[0]);
      GoodAreCharged(ms[1..]);
    }
  }

  function NameSum(ms: seq<Member>): nat {
    if ms == [] then 0 else NameBound(ms[0].kind) + NameSum(ms[1..])
  }

  lemma {:induction false} NamesByKind(ms: seq<Member>)
    ensures NameSum(ms) + 503 * CountKind(ms, Manifest) + 491 * CountKind(ms, DesktopLayout) == 524 * |ms|
  {
    if ms != [] {
      NamesByKind(ms[1..]);
    }
  }

  lemma {:induction false} CostsCharged(ms: seq<Member>)
    requires AllCharged(ms)
    ensures 90_000 * CostSum(ms) <= 90_000 * (166 * |ms| + NameSum(ms) + 6 * SumSizes(ms)) + SumSizes(ms) + 440_000 * |ms|
  {
    if ms != [] {
      CostsCharged(ms[1..]);
    }
  }

  /** What the members of any accepted version cost, at most. */
  const COST_LIMIT: nat := 1_613_462_379

  lemma CostBound(k: nat, names: nat, total: nat, cost: nat)
    requires 2 <= k <= MAX_MEMBERS && total <= MAX_TOTAL_BYTES && names == 524 * k - 994
    requires 90_000 * cost <= 90_000 * (166 * k + names + 6 * total) + total + 440_000 * k
    ensures cost <= COST_LIMIT
  {
  }

  lemma CountsAreOne(compare: Compare, v: Version)
    requires Accepted(compare, v)
    ensures CountKind(v.members, Manifest) == 1 && CountKind(v.members, DesktopLayout) == 1
  {
    assert !Raised(compare, v, NotOneManifest) && !Raised(compare, v, NotOneLayout);
  }

  lemma CostIsBounded(compare: Compare, v: Version)
    requires Accepted(compare, v)
    ensures CostSum(v.members) <= COST_LIMIT
  {
    GoodAreCharged(v.members);
    CostsCharged(v.members);
    NamesByKind(v.members);
    CountsAreOne(compare, v);
    TotalIsSum(compare, v);
    CostBound(|v.members|, NameSum(v.members), v.totalBytes, CostSum(v.members));
  }

  /** The longest timestamp with which every accepted version fits the wire budget. */
  const WIRE_LIMIT: nat := 265_830_723

  lemma WireSum(o: Origin, v: Version, n: nat)
    requires |o.createdAt| <= n && FrameBytes(HeaderFields(HeaderOf(o, v))) <= 1805 + |o.createdAt|
    requires FrameBytes(CompleteFrame(v)) <= 147 && MemberFramesBytes(v.members, 0) <= 15282 + COST_LIMIT
    ensures WireBytes(o, v) <= WIRE_BUDGET - WIRE_LIMIT + n
  {
  }

  /** The frames of an accepted version take no more than those of the largest, whatever the origin. */
  lemma WireIsBounded(compare: Compare, o: Origin, v: Version)
    requires Accepted(compare, v) && GoodOrigin(o)
    ensures WireBytes(o, v) <= WIRE_BUDGET - WIRE_LIMIT + |o.createdAt|
  {
    TimestampIsPlain(o.createdAt);
    HeaderSize(HeaderOf(o, v));
    RestIsBounded(HeaderOf(o, v));
    CompleteSize(v);
    GoodAreCharged(v.members);
    MemberFramesExact(v.members, 0);
    FewerIndexDigits(|v.members|);
    CostIsBounded(compare, v);
    WireSum(o, v, |o.createdAt|);
  }

  // ---------------------------------------------------------------------------------------------
  // The longest paths

  predicate NoSeparator(t: Text) {
    forall i :: 0 <= i < |t| ==> t[i] != SEPARATOR
  }

  /** Within a segment the units are skipped. */
  lemma {:induction false} SkipSegment(seg: Text, rest: Text)
    requires NoSeparator(seg)
    ensures GoodSegments(seg + rest, false) == GoodSegments(rest, false)
  {
    if seg == [] {
      assert seg + rest == rest;
    } else {
      assert (seg + rest)[1..] == seg[1..] + rest;
      SkipSegment(seg[1..], rest);
    }
  }

  /** A segment that does not start with a dot is a good one. */
  lemma TakeSegment(seg: Text, rest: Text)
    requires seg != [] && NoSeparator(seg) && seg[0] != DOT
    ensures GoodSegments(seg + rest, true) == GoodSegments(rest, false)
  {
    assert (seg + rest)[1..] == seg[1..] + rest;
    SkipSegment(seg[1..], rest);
  }

  lemma TakeSeparator(rest: Text)
    ensures GoodSegments([SEPARATOR] + rest, false) == GoodSegments(rest, true)
  {
    assert ([SEPARATOR] + rest)[1..] == rest;
  }

  lemma FourSegments(a: Text, b: Text, c: Text, d: Text)
    requires a != [] && NoSeparator(a) && a[0] != DOT && b != [] && NoSeparator(b) && b[0] != DOT
    requires c != [] && NoSeparator(c) && c[0] != DOT && d != [] && NoSeparator(d) && d[0] != DOT
    ensures GoodSegments(a + ([SEPARATOR] + (b + ([SEPARATOR] + (c + ([SEPARATOR] + d))))), true)
  {
    assert d + [] == d;
    TakeSegment(d, []);
    TakeSeparator(d);
    TakeSegment(c, [SEPARATOR] + d);
    TakeSeparator(c + ([SEPARATOR] + d));
    TakeSegment(b, [SEPARATOR] + (c + ([SEPARATOR] + d)));
    TakeSeparator(b + ([SEPARATOR] + (c + ([SEPARATOR] + d))));
    TakeSegment(a, [SEPARATOR] + (b + ([SEPARATOR] + (c + ([SEPARATOR] + d)))));
  }

  /** 487 units, the last four of them the number. */
  function NodeOf(i: nat): Text
    requires i < 4096
  {
    Repeat(0x61, 483) + Hex4(i as Unit)
  }

  const NODES_SEGMENT: Text := Ascii("nodes")
  const BLOCKS_SEGMENT: Text := Ascii("blocks")
  const BLOCK_SEGMENT: Text := Ascii("b.prompt.md")

  /** A path of 512 units for each number. */
  function LongPath(i: nat): (p: Text)
    requires i < 4096
    ensures |p| == 512
  {
    NODES_SEGMENT + ([SEPARATOR] + (NodeOf(i) + ([SEPARATOR] + (BLOCKS_SEGMENT + ([SEPARATOR] + BLOCK_SEGMENT)))))
  }

  predicate AllAlphanumeric(t: Text) {
    forall k :: 0 <= k < |t| ==> IsAlphanumeric(t[k])
  }

  lemma HexIsAlphanumeric(i: nat)
    requires i < 4096
    ensures AllAlphanumeric(Hex4(i as Unit))
  {
  }

  lemma NodeIsAlphanumeric(i: nat)
    requires i < 4096
    ensures |NodeOf(i)| == 487 && AllAlphanumeric(NodeOf(i))
  {
    HexIsAlphanumeric(i);
  }

  predicate PathUnits(t: Text) {
    forall i :: 0 <= i < |t| ==> IsPathUnit(t[i])
  }

  lemma PathUnitsConcat(a: Text, b: Text)
    requires PathUnits(a) && PathUnits(b)
    ensures PathUnits(a + ([SEPARATOR] + b))
  {
  }

  lemma FixedSegments()
    ensures PathUnits(NODES_SEGMENT) && NoSeparator(NODES_SEGMENT) && NODES_SEGMENT[0] == 0x6E
    ensures PathUnits(BLOCKS_SEGMENT) && NoSeparator(BLOCKS_SEGMENT) && BLOCKS_SEGMENT[0] == 0x62
    ensures PathUnits(BLOCK_SEGMENT) && NoSeparator(BLOCK_SEGMENT) && BLOCK_SEGMENT[0] == 0x62
  {
  }

  lemma LongPathIsGood(i: nat)
    requires i < 4096
    ensures GoodPath(LongPath(i))
  {
    var n := NodeOf(i);
    NodeIsAlphanumeric(i);
    FixedSegments();
    FourSegments(NODES_SEGMENT, n, BLOCKS_SEGMENT, BLOCK_SEGMENT);
    PathUnitsConcat(BLOCKS_SEGMENT, BLOCK_SEGMENT);
    PathUnitsConcat(n, BLOCKS_SEGMENT + ([SEPARATOR] + BLOCK_SEGMENT));
    PathUnitsConcat(NODES_SEGMENT, n + ([SEPARATOR] + (BLOCKS_SEGMENT + ([SEPARATOR] + BLOCK_SEGMENT))));
  }

  lemma LongPathIsBlock(i: nat)
    requires i < 4096
    ensures BlockPath(LongPath(i))
  {
    var p, n := LongPath(i), NodeOf(i);
    NodeIsAlphanumeric(i);
    assert p[..6] == NODES;
    assert p[6..493] == n;
    assert p[493..501] == BLOCKS;
    assert p[502..] == PROMPT_SUFFIX;
    assert p[501..502] == [0x62];
    assert BlockPathAt(p, 493);
  }

  lemma LongPathsDiffer(i: nat, j: nat)
    requires i < 4096 && j < 4096 && LongPath(i) == LongPath(j)
    ensures i == j
  {
    assert LongPath(i)[489..493] == Hex4(i as Unit) && LongPath(j)[489..493] == Hex4(j as Unit);
    Hex4RoundTrip(i as Unit, []);
    Hex4RoundTrip(j as Unit, []);
  }

  // ---------------------------------------------------------------------------------------------
  // The largest version

  /** A member whose content is null characters. */
  function NulMember(digest: Text, kind: Kind, path: Text, size: nat): Member {
    Member(kind, path, Nuls(size), digest, size)
  }

  lemma {:induction false} NulsAreAscii(n: nat)
    ensures Bytes(Nuls(n)) == n
  {
    NulsAreNuls(n);
    AsciiBytes(Nuls(n));
  }

  lemma NulMemberIsGood(d: Text, kind: Kind, path: Text, size: nat)
    requires IsHexDigest(d) && GoodPath(path) && PathOfKind(kind, path) && size <= MAX_MEMBER_BYTES
    ensures GoodMember(NulMember(d, kind, path, size))
  {
    NulsAreAscii(size);
  }

  lemma NulMemberCost(d: Text, kind: Kind, path: Text, size: nat, digits: nat, low: nat, high: nat)
    requires digits >= 1 && low == Decimal.Power10(digits - 1) && high == Decimal.Power10(digits) && low <= size < high
    ensures Cost(NulMember(d, kind, path, size)) == 166 + digits + |KindText(kind)| + |path| + 6 * size
  {
    NulBytes(size);
    Decimal.ExactDigits(size, digits);
  }

  /** As many sizes of six digits as the total allows, the rest of five. */
  function SizeAt(i: nat): nat {
    if i < 2525 then 100_000 else 10_000
  }

  function Block(d: Text, i: nat): Member
    requires i < 4096
  {
    NulMember(d, BlockPrompt, LongPath(i), SizeAt(i))
  }

  /** The blocks from `i` on. */
  function Blocks(d: Text, i: nat): seq<Member>
    requires i <= 4096
    decreases 4096 - i
  {
    if i == 4096 then [] else [Block(d, i)] + Blocks(d, i + 1)
  }

  function TheManifest(d: Text): Member {
    NulMember(d, Manifest, MANIFEST_PATH, 125_456)
  }

  function TheLayout(d: Text): Member {
    NulMember(d, DesktopLayout, LAYOUT_PATH, 100_000)
  }

  lemma SizePowers()
    ensures Decimal.Power10(4) == 10_000 && Decimal.Power10(5) == 100_000 && Decimal.Power10(6) == 1_000_000
  {
    SmallPowers();
    assert Decimal.Power10(5) == 10 * Decimal.Power10(4) && Decimal.Power10(6) == 10 * Decimal.Power10(5);
  }

  lemma BlockCost(d: Text, i: nat)
    requires i < 4096
    ensures Cost(Block(d, i)) == if i < 2525 then 600_696 else 60_695
  {
    SizePowers();
    KindSize(BlockPrompt);
    if i < 2525 {
      NulMemberCost(d, BlockPrompt, LongPath(i), SizeAt(i), 6, 100_000, 1_000_000);
    } else {
      NulMemberCost(d, BlockPrompt, LongPath(i), SizeAt(i), 5, 10_000, 100_000);
    }
  }

  lemma FixedCosts(d: Text)
    ensures Cost(TheManifest(d)) == 752_929 && Cost(TheLayout(d)) == 600_205
  {
    SizePowers();
    KindSize(Manifest);
    KindSize(DesktopLayout);
    NulMemberCost(d, Manifest, MANIFEST_PATH, 125_456, 6, 100_000, 1_000_000);
    NulMemberCost(d, DesktopLayout, LAYOUT_PATH, 100_000, 6, 100_000, 1_000_000);
  }

  /** Sizes and costs of the blocks from `i` on. */
  lemma {:induction false} BlockSums(d: Text, i: nat)
    requires i <= 4096
    ensures |Blocks(d, i)| == 4096 - i
    ensures SumSizes(Blocks(d, i)) == if i < 2525 then 100_000 * (2525 - i) + 15_710_000 else 10_000 * (4096 - i)
    ensures CostSum(Blocks(d, i)) == if i < 2525 then 600_696 * (2525 - i) + 95_351_845 else 60_695 * (4096 - i)
    ensures CountKind(Blocks(d, i), Manifest) == 0 && CountKind(Blocks(d, i), DesktopLayout) == 0
    decreases 4096 - i
  {
    if i < 4096 {
      BlockCost(d, i);
      BlockSums(d, i + 1);
    }
  }

  // ---------------------------------------------------------------------------------------------
  // Sorting by a collator

  /** The collator orders strictly and tells different member paths apart; other texts may tie. */
  ghost predicate TotalOrder(compare: Compare) {
    && StrictOrder(compare)
    && forall p, q :: GoodPath(p) && GoodPath(q) && p != q ==> Before(compare, p, q) || Before(compare, q, p)
  }

  function Insert(compare: Compare, m: Member, ms: seq<Member>): seq<Member> {
    if ms == [] || compare(m.path, ms[0].path) < 0 then [m] + ms else [ms[0]] + Insert(compare, m, ms[1..])
  }

  function Sort(compare: Compare, ms: seq<Member>): seq<Member> {
    if ms == [] then [] else Insert(compare, ms[0], Sort(compare, ms[1..]))
  }

  predicate AllGood(ms: seq<Member>) {
    ms == [] || (GoodMember(ms[0]) && AllGood(ms[1..]))
  }

  /** No member has the path. */
  predicate Lacks(ms: seq<Member>, path: Text) {
    ms == [] || (ms[0].path != path && Lacks(ms[1..], path))
  }

  predicate PathsDiffer(ms: seq<Member>) {
    ms == [] || (Lacks(ms[1..], ms[0].path) && PathsDiffer(ms[1..]))
  }

  /** The path comes before the first, and so on. */
  ghost predicate Chain(compare: Compare, ms: seq<Member>) {
    |ms| <= 1 || (Before(compare, ms[0].path, ms[1].path) && Chain(compare, ms[1..]))
  }

  lemma {:induction false} InsertKeeps(compare: Compare, m: Member, ms: seq<Member>)
    ensures var r := Insert(compare, m, ms);
            && |r| == |ms| + 1 && CostSum(r) == Cost(m) + CostSum(ms) && SumSizes(r) == m.sizeBytes + SumSizes(ms)
            && (forall kind :: CountKind(r, kind) == (if m.kind == kind then 1 else 0) + CountKind(ms, kind))
            && (GoodMember(m) && AllGood(ms) ==> AllGood(r))
            && (forall path :: path != m.path && Lacks(ms, path) ==> Lacks(r, path))
  {
    if ms == [] || compare(m.path, ms[0].path) < 0 {
      assert ([m] + ms)[1..] == ms;
    } else {
      InsertKeeps(compare, m, ms[1..]);
      assert Insert(compare, m, ms)[1..] == Insert(compare, m, ms[1..]);
    }
  }

  lemma {:induction false} SortKeeps(compare: Compare, ms: seq<Member>)
    ensures var r := Sort(compare, ms);
            && |r| == |ms| && CostSum(r) == CostSum(ms) && SumSizes(r) == SumSizes(ms)
            && (forall kind :: CountKind(r, kind) == CountKind(ms, kind))
            && (AllGood(ms) ==> AllGood(r))
            && (forall path :: Lacks(ms, path) ==> Lacks(r, path))
  {
    if ms != [] {
      SortKeeps(compare, ms[1..]);
      InsertKeeps(compare, ms[0], Sort(compare, ms[1..]));
    }
  }

  lemma {:induction false} InsertChains(compare: Compare, m: Member, ms: seq<Member>)
    requires TotalOrder(compare) && Chain(compare, ms) && Lacks(ms, m.path) && GoodMember(m) && AllGood(ms)
    ensures Chain(compare, Insert(compare, m, ms))
  {
    if ms == [] || compare(m.path, ms[0].path) < 0 {
      assert ms != [] ==> Before(compare, m.path, ms[0].path);
      assert ([m] + ms)[1..] == ms;
    } else {
      assert Before(compare, ms[0].path, m.path) by {
        assert !Before(compare, m.path, ms[0].path);
      }
      InsertChains(compare, m, ms[1..]);
      var r := Insert(compare, m, ms[1..]);
      assert Insert(compare, m, ms)[1..] == r;
      assert r[0] == m || r[0] == ms[1];
    }
  }

  lemma {:induction false} SortChains(compare: Compare, ms: seq<Member>)
    requires TotalOrder(compare) && PathsDiffer(ms) && AllGood(ms)
    ensures Chain(compare, Sort(compare, ms))
  {
    if ms != [] {
      SortChains(compare, ms[1..]);
      SortKeeps(compare, ms[1..]);
      InsertChains(compare, ms[0], Sort(compare, ms[1..]));
    }
  }

  // ---------------------------------------------------------------------------------------------
  // The largest version is accepted

  lemma {:induction false} BlocksLack(d: Text, i: nat, path: Text)
    requires i <= 4096 && forall j :: i <= j < 4096 ==> LongPath(j) != path
    ensures Lacks(Blocks(d, i), path)
    decreases 4096 - i
  {
    if i < 4096 {
      BlocksLack(d, i + 1, path);
      assert Blocks(d, i)[0].path == LongPath(i) && Blocks(d, i)[1..] == Blocks(d, i + 1);
    }
  }

  lemma {:induction false} BlocksDiffer(d: Text, i: nat)
    requires i <= 4096
    ensures PathsDiffer(Blocks(d, i))
    decreases 4096 - i
  {
    if i < 4096 {
      BlocksDiffer(d, i + 1);
      forall j | i + 1 <= j < 4096 ensures LongPath(j) != LongPath(i) {
        if LongPath(j) == LongPath(i) {
          LongPathsDiffer(i, j);
        }
      }
      BlocksLack(d, i + 1, LongPath(i));
      assert Blocks(d, i)[0].path == LongPath(i) && Blocks(d, i)[1..] == Blocks(d, i + 1);
    }
  }

  lemma BlockIsGood(d: Text, i: nat)
    requires i < 4096 && IsHexDigest(d)
    ensures GoodMember(Block(d, i))
  {
    LongPathIsGood(i);
    LongPathIsBlock(i);
    NulMemberIsGood(d, BlockPrompt, LongPath(i), SizeAt(i));
  }

  lemma {:induction false} BlocksGood(d: Text, i: nat)
    requires i <= 4096 && IsHexDigest(d)
    ensures AllGood(Blocks(d, i))
    decreases 4096 - i
  {
    if i < 4096 {
      BlockIsGood(d, i);
      BlocksGood(d, i + 1);
      assert Blocks(d, i)[0] == Block(d, i) && Blocks(d, i)[1..] == Blocks(d, i + 1);
    }
  }

  lemma ManifestPathIsGood()
    ensures GoodPath(MANIFEST_PATH)
  {
    assert PathUnits(MANIFEST_PATH) && NoSeparator(MANIFEST_PATH) && MANIFEST_PATH[0] == 0x6D;
    TakeSegment(MANIFEST_PATH, []);
    assert MANIFEST_PATH + [] == MANIFEST_PATH;
  }

  lemma LayoutPathIsGood()
    ensures GoodPath(LAYOUT_PATH)
  {
    var a, b := Ascii("desktop"), Ascii("layout.json");
    assert PathUnits(a) && NoSeparator(a) && a[0] == 0x64;
    assert PathUnits(b) && NoSeparator(b) && b[0] == 0x6C;
    assert LAYOUT_PATH == a + ([SEPARATOR] + b);
    PathUnitsConcat(a, b);
    TakeSegment(a, [SEPARATOR] + b);
    TakeSeparator(b);
    TakeSegment(b, []);
    assert b + [] == b;
  }

  /** One manifest, one layout and 4096 block prompts. */
  function Unsorted(d: Text): seq<Member> {
    [TheManifest(d)] + ([TheLayout(d)] + Blocks(d, 0))
  }

  lemma UnsortedTails(d: Text)
    ensures Unsorted(d)[0] == TheManifest(d) && Unsorted(d)[1..] == [TheLayout(d)] + Blocks(d, 0)
    ensures ([TheLayout(d)] + Blocks(d, 0))[0] == TheLayout(d) && ([TheLayout(d)] + Blocks(d, 0))[1..] == Blocks(d, 0)
  {
  }

  lemma UnsortedGood(d: Text)
    requires IsHexDigest(d)
    ensures AllGood(Unsorted(d)) && PathsDiffer(Unsorted(d))
  {
    UnsortedTails(d);
    BlocksGood(d, 0);
    BlocksDiffer(d, 0);
    ManifestPathIsGood();
    LayoutPathIsGood();
    NulMemberIsGood(d, Manifest, MANIFEST_PATH, 125_456);
    NulMemberIsGood(d, DesktopLayout, LAYOUT_PATH, 100_000);
    assert |MANIFEST_PATH| == 13 && |LAYOUT_PATH| == 19;
    BlocksLack(d, 0, MANIFEST_PATH);
    BlocksLack(d, 0, LAYOUT_PATH);
  }

  lemma HeadSums(m: Member, ms: seq<Member>)
    ensures var r := [m] + ms;
            && |r| == |ms| + 1 && CostSum(r) == Cost(m) + CostSum(ms) && SumSizes(r) == m.sizeBytes + SumSizes(ms)
            && (forall kind :: CountKind(r, kind) == (if m.kind == kind then 1 else 0) + CountKind(ms, kind))
  {
    assert ([m] + ms)[1..] == ms;
  }

  lemma UnsortedSums(d: Text)
    ensures |Unsorted(d)| == MAX_MEMBERS && SumSizes(Unsorted(d)) == MAX_TOTAL_BYTES && CostSum(Unsorted(d)) == COST_LIMIT
    ensures CountKind(Unsorted(d), Manifest) == 1 && CountKind(Unsorted(d), DesktopLayout) == 1
  {
    BlockSums(d, 0);
    FixedCosts(d);
    HeadSums(TheLayout(d), Blocks(d, 0));
    HeadSums(TheManifest(d), [TheLayout(d)] + Blocks(d, 0));
  }

  function Largest(compare: Compare, d: Text): Version {
    Version(Sort(compare, Unsorted(d)), d, MAX_TOTAL_BYTES)
  }

  lemma {:induction false} ChainAscends(compare: Compare, ms: seq<Member>, i: int)
    requires Chain(compare, ms)
    ensures !Descends(compare, ms, i)
  {
    if 1 < i < |ms| {
      ChainAscends(compare, ms[1..], i - 1);
    }
  }

  lemma {:induction false} AllGoodAt(ms: seq<Member>, i: nat)
    requires AllGood(ms) && i < |ms|
    ensures GoodMember(ms[i])
  {
    if i > 0 {
      AllGoodAt(ms[1..], i - 1);
    }
  }

  lemma GoodIsNotMismatched(ms: seq<Member>, i: nat)
    requires AllGood(ms)
    ensures !Mismatched(ms, i)
  {
    if i < |ms| {
      AllGoodAt(ms, i);
      KindChecksAgree(ms[i].kind, ms[i].path);
    }
  }

  lemma ChainIsOrdered(compare: Compare, v: Version)
    requires StrictOrder(compare) && Chain(compare, v.members)
    ensures forall i :: !Raised(compare, v, NotOrdered(i))
    ensures !Raised(compare, v, DuplicatePath)
  {
    forall i: nat ensures !Raised(compare, v, NotOrdered(i)) {
      ChainAscends(compare, v.members, i);
    }
    OrderExcludesDuplicates(compare, v);
  }

  lemma NothingRaised(compare: Compare, v: Version, issue: Issue)
    requires StrictOrder(compare) && Chain(compare, v.members) && AllGood(v.members)
    requires SumSizes(v.members) == v.totalBytes && CountKind(v.members, Manifest) == 1 && CountKind(v.members, DesktopLayout) == 1
    ensures !Raised(compare, v, issue)
  {
    ChainIsOrdered(compare, v);
    if issue.KindMismatch? {
      GoodIsNotMismatched(v.members, issue.index);
    }
  }

  lemma FieldsAreGood(v: Version)
    requires AllGood(v.members)
    requires 2 <= |v.members| <= MAX_MEMBERS && IsHexDigest(v.digest) && 0 < v.totalBytes <= MAX_TOTAL_BYTES
    ensures GoodFields(v)
  {
    forall i | 0 <= i < |v.members| ensures GoodMember(v.members[i]) {
      AllGoodAt(v.members, i);
    }
  }

  lemma ChainedIsAccepted(compare: Compare, v: Version)
    requires StrictOrder(compare) && Chain(compare, v.members) && AllGood(v.members)
    requires 2 <= |v.members| <= MAX_MEMBERS && IsHexDigest(v.digest) && 0 < v.totalBytes <= MAX_TOTAL_BYTES
    requires SumSizes(v.members) == v.totalBytes && CountKind(v.members, Manifest) == 1 && CountKind(v.members, DesktopLayout) == 1
    ensures Accepted(compare, v)
  {
    FieldsAreGood(v);
    forall issue ensures !Raised(compare, v, issue) {
      NothingRaised(compare, v, issue);
    }
  }

  lemma LargestIsAccepted(compare: Compare, d: Text)
    requires TotalOrder(compare) && IsHexDigest(d)
    ensures Accepted(compare, Largest(compare, d))
  {
    UnsortedGood(d);
    UnsortedSums(d);
    SortKeeps(compare, Unsorted(d));
    SortChains(compare, Unsorted(d));
    ChainedIsAccepted(compare, Largest(compare, d));
  }

  lemma {:induction false} GoodArePlain(ms: seq<Member>)
    requires AllGood(ms)
    ensures AllPlain(ms)
  {
    if ms != [] {
      PathIsPlain(ms[0].path);
      GoodArePlain(ms[1..]);
    }
  }

  /** The longest origin with a timestamp, and the largest version, take the whole bound. */
  lemma LargestWire(compare: Compare, d: Text, t: Text)
    requires TotalOrder(compare) && IsTimestamp(t) && d == Repeat(0x30, 64)
    ensures GoodOrigin(WorstHeader(t).origin)
    ensures WireBytes(WorstHeader(t).origin, Largest(compare, d)) == WIRE_BUDGET - WIRE_LIMIT + |t|
  {
    var v := Largest(compare, d);
    UnsortedGood(d);
    UnsortedSums(d);
    SortKeeps(compare, Unsorted(d));
    GoodArePlain(v.members);
    MemberFramesExact(v.members, 0);
    AllIndexDigits(|v.members|);
    WorstIsGood(t);
    TimestampIsPlain(t);
    WorstSize(t);
    WorstDigits();
    CompleteExact(v);
    assert HeaderOf(WorstHeader(t).origin, v) == WorstHeader(t);
  }

  // ---------------------------------------------------------------------------------------------
  // The limit

  ghost predicate AllFit(compare: Compare, n: nat) {
    forall o, v :: Accepted(compare, v) && GoodOrigin(o) && |o.createdAt| == n ==> WireBytes(o, v) <= WIRE_BUDGET
  }

  lemma ShortFits(compare: Compare, n: nat)
    requires n <= WIRE_LIMIT
    ensures AllFit(compare, n)
  {
    forall o, v | Accepted(compare, v) && GoodOrigin(o) && |o.createdAt| == n ensures WireBytes(o, v) <= WIRE_BUDGET {
      WireIsBounded(compare, o, v);
    }
  }

  lemma LongOverflows(compare: Compare, n: nat) returns (o: Origin, v: Version)
    requires TotalOrder(compare) && n > WIRE_LIMIT
    ensures Accepted(compare, v) && GoodOrigin(o) && |o.createdAt| == n && WireBytes(o, v) == WIRE_BUDGET + (n - WIRE_LIMIT)
  {
    var t := TimestampOfLength(n);
    var d := Repeat(0x30, 64);
    LargestIsAccepted(compare, d);
    LargestWire(compare, d, t);
    o, v := WorstHeader(t).origin, Largest(compare, d);
  }

  /** All accepted versions with an n-character timestamp fit the wire budget exactly when n is within
      the limit: the largest version takes all the rest. */
  lemma WireFits(compare: Compare, n: nat)
    requires TotalOrder(compare)
    ensures AllFit(compare, n) <==> n <= WIRE_LIMIT
  {
    if n <= WIRE_LIMIT {
      ShortFits(compare, n);
    } else {
      var o, v := LongOverflows(compare, n);
    }
  }
}
