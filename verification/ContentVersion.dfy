/** Complete content versions: accepted members, their canonical order and the digest payload. */
module ContentVersion {
  import opened Wrappers
  import opened JsonText
  import opened JsonValue
  import opened CanonicalJson
  import opened JsonBytes
  import Decimal
  import Utf8

  const MAX_MEMBERS: nat := 4098
  const MAX_MEMBER_BYTES: nat := 64 * 1024 * 1024
  const MAX_TOTAL_BYTES: nat := 256 * 1024 * 1024

  datatype Kind = Manifest | TaskPrompt | BlockPrompt | DesktopLayout

  datatype Member = Member(kind: Kind, path: Text, content: Text, digest: Text, sizeBytes: nat)

  datatype Version = Version(members: seq<Member>, digest: Text, totalBytes: nat)

  // ---------------------------------------------------------------------------------------------
  // Paths

  const SEPARATOR: Unit := 0x2F
  const DOT: Unit := 0x2E

  predicate IsPathUnit(u: Unit) {
    IsAlphanumeric(u) || u == DOT || u == 0x5F || u == SEPARATOR || u == 0x2D
  }

  /** No segment is empty, "." or ".."; `start` says that a segment begins here. */
  predicate GoodSegments(p: Text, start: bool) {
    if p == [] then !start
    else if !start then GoodSegments(p[1..], p[0] == SEPARATOR)
    else
      && p[0] != SEPARATOR
      && !(p[0] == DOT && (|p| == 1 || p[1] == SEPARATOR))
      && !(|p| >= 2 && p[0] == DOT && p[1] == DOT && (|p| == 2 || p[2] == SEPARATOR))
      && GoodSegments(p[1..], false)
  }

  predicate GoodPath(p: Text) {
    && 1 <= |p| <= 512
    && IsAlphanumeric(p[0])
    && (forall i :: 0 <= i < |p| ==> IsPathUnit(p[i]))
    && GoodSegments(p, true)
  }

  const MANIFEST_PATH: Text := Ascii("manifest.json")
  const LAYOUT_PATH: Text := Ascii("desktop/layout.json")
  const NODES: Text := Ascii("nodes/")
  const PROMPT: Text := Ascii("/prompt.md")
  const BLOCKS: Text := Ascii("/blocks/")
  const PROMPT_SUFFIX: Text := Ascii(".prompt.md")

  /** One or more units other than the separator. */
  predicate IsSegment(t: Text) {
    t != [] && forall i :: 0 <= i < |t| ==> t[i] != SEPARATOR
  }

  /** nodes/[^/]+/prompt.md */
  predicate TaskPath(p: Text) {
    |p| > 16 && p[..6] == NODES && p[|p| - 10..] == PROMPT && IsSegment(p[6..|p| - 10])
  }

  /** nodes/[^/]+/blocks/[^/]+.prompt.md, where the node ends at `k` */
  predicate BlockPathAt(p: Text, k: nat) {
    && 6 <= k && k + 18 <= |p|
    && p[..6] == NODES && p[k..k + 8] == BLOCKS && p[|p| - 10..] == PROMPT_SUFFIX
    && IsSegment(p[6..k]) && IsSegment(p[k + 8..|p| - 10])
  }

  predicate BlockPath(p: Text) {
    exists k :: 0 <= k < |p| && BlockPathAt(p, k)
  }

  /** Whether the path matches the pattern of its kind. */
  predicate PathOfKind(kind: Kind, p: Text) {
    match kind
    case Manifest => p == MANIFEST_PATH
    case DesktopLayout => p == LAYOUT_PATH
    case TaskPrompt => TaskPath(p)
    case BlockPrompt => BlockPath(p)
  }

  function ExpectedKind(p: Text): Option<Kind> {
    if p == MANIFEST_PATH then Some(Manifest)
    else if p == LAYOUT_PATH then Some(DesktopLayout)
    else if TaskPath(p) then Some(TaskPrompt)
    else if BlockPath(p) then Some(BlockPrompt)
    else None
  }

  lemma TaskIsNotBlock(p: Text, k: nat)
    requires TaskPath(p)
    ensures !BlockPathAt(p, k)
  {
    if 6 <= k < |p| - 17 {
      assert p[6..|p| - 10][k - 6] == p[k];
      assert p[k..k + 8][0] == p[k];
      assert BLOCKS[0] == SEPARATOR;
    }
  }

  lemma PromptsAreNotFixedPaths(p: Text)
    requires |p| >= 6 && p[..6] == NODES
    ensures p != MANIFEST_PATH && p != LAYOUT_PATH
  {
    assert p[..6][0] == 0x6E && MANIFEST_PATH[0] == 0x6D && LAYOUT_PATH[0] == 0x64;
  }

  /** The member check and the version check of kind against path are the same check: the four path
      classes are disjoint. */
  lemma KindChecksAgree(kind: Kind, p: Text)
    ensures PathOfKind(kind, p) <==> ExpectedKind(p) == Some(kind)
  {
    assert |MANIFEST_PATH| != |LAYOUT_PATH|;
    if TaskPath(p) || BlockPath(p) {
      PromptsAreNotFixedPaths(p);
    }
    if TaskPath(p) {
      forall k ensures !BlockPathAt(p, k) {
        TaskIsNotBlock(p, k);
      }
    }
  }

  // ---------------------------------------------------------------------------------------------
  // Acceptance

  predicate IsHexDigest(t: Text) {
    |t| == 64 && forall i :: 0 <= i < |t| ==> 0x61 <= t[i] <= 0x66 || 0x30 <= t[i] <= 0x39
  }

  predicate GoodMember(m: Member) {
    && GoodPath(m.path) && |m.content| <= MAX_MEMBER_BYTES && IsHexDigest(m.digest)
    && m.sizeBytes <= MAX_MEMBER_BYTES && m.sizeBytes == Bytes(m.content)
    && PathOfKind(m.kind, m.path)
  }

  // ---------------------------------------------------------------------------------------------
  // What a member looks like

  /** `p[i..j]` is what `split("/")` gives between two separators or the ends of the path. */
  ghost predicate SegmentAt(p: Text, i: nat, j: nat) {
    && i <= j <= |p| && (i == 0 || p[i - 1] == 0x2F) && (j == |p| || p[j] == 0x2F)
    && forall k :: i <= k < j ==> p[k] != 0x2F
  }

  ghost predicate GoodSegment(t: Text) {
    t != [] && t != [0x2E] && t != [0x2E, 0x2E]
  }

  /** All segments that start at `i` or later are good; strictly later when none starts at `i`. */
  ghost predicate GoodFrom(p: Text, i: nat, start: bool) {
    forall a: nat, b: nat :: SegmentAt(p, a, b) && (a > i || (start && a == i)) ==> GoodSegment(p[a..b])
  }

  lemma SegmentEnds(p: Text, i: nat) returns (j: nat)
    requires i <= |p| && (i == 0 || p[i - 1] == 0x2F)
    ensures SegmentAt(p, i, j)
  {
    j := i;
    while j < |p| && p[j] != 0x2F
      invariant i <= j <= |p| && forall k :: i <= k < j ==> p[k] != 0x2F
    {
      j := j + 1;
    }
  }

  /** The segment that starts at `i`, by its first units. */
  lemma FirstSegment(p: Text, i: nat, j: nat)
    requires SegmentAt(p, i, j)
    ensures var t := p[i..];
            GoodSegment(p[i..j]) <==>
              && t != [] && t[0] != SEPARATOR && !(t[0] == DOT && (|t| == 1 || t[1] == SEPARATOR))
              && !(|t| >= 2 && t[0] == DOT && t[1] == DOT && (|t| == 2 || t[2] == SEPARATOR))
  {
    var s, t := p[i..j], p[i..];
    assert forall k :: 0 <= k < |s| ==> s[k] == t[k] == p[i + k];
    assert j < |p| ==> t[j - i] == p[j];
    if j - i == 1 {
      assert s == [t[0]];
    } else if j - i == 2 {
      assert s == [t[0], t[1]];
    }
  }

  lemma {:induction false} SegmentsMean(p: Text, i: nat, start: bool)
    requires i <= |p| && (start <==> i == 0 || p[i - 1] == 0x2F)
    ensures GoodSegments(p[i..], start) <==> GoodFrom(p, i, start)
    decreases |p| - i
  {
    var t := p[i..];
    if start {
      var j := SegmentEnds(p, i);
      FirstSegment(p, i, j);
      OneSegment(p, i, j);
      if i < |p| && p[i] != 0x2F {
        assert t[1..] == p[i + 1..];
        SegmentsMean(p, i + 1, false);
        NoneStarts(p, i + 1);
      }
    } else if i < |p| {
      assert t[1..] == p[i + 1..];
      SegmentsMean(p, i + 1, p[i] == 0x2F);
    }
  }

  /** At a start there is one segment to look at besides the later ones. */
  lemma OneSegment(p: Text, i: nat, j: nat)
    requires SegmentAt(p, i, j)
    ensures GoodFrom(p, i, true) <==> GoodSegment(p[i..j]) && GoodFrom(p, i, false)
  {
    forall b: nat | SegmentAt(p, i, b) ensures b == j {
    }
  }

  lemma NoneStarts(p: Text, i: nat)
    requires 0 < i <= |p| && p[i - 1] != 0x2F
    ensures GoodFrom(p, i - 1, false) <==> GoodFrom(p, i, false)
  {
  }

  /** A path of 1 to 512 letters, digits and marks that begins with a letter or digit and has no segment
      that is empty, "." or "..". */
  lemma PathMeans(p: Text)
    ensures GoodPath(p) <==>
            && 1 <= |p| <= 512 && IsAlphanumeric(p[0]) && (forall i :: 0 <= i < |p| ==> IsAlphanumeric(p[i]) || p[i] in Ascii("._/-"))
            && forall i: nat, j: nat :: SegmentAt(p, i, j) ==> GoodSegment(p[i..j])
  {
    assert Ascii("._/-") == [DOT, 0x5F, SEPARATOR, 0x2D];
    assert p[0..] == p;
    SegmentsMean(p, 0, true);
    assert GoodFrom(p, 0, true) <==> forall i: nat, j: nat :: SegmentAt(p, i, j) ==> GoodSegment(p[i..j]);
  }

  ghost predicate IsName(t: Text) {
    t != [] && 0x2F !in t
  }

  ghost predicate IsTaskPath(p: Text, node: Text) {
    p == Ascii("nodes/") + node + Ascii("/prompt.md") && IsName(node)
  }

  ghost predicate IsBlockPath(p: Text, node: Text, block: Text) {
    p == Ascii("nodes/") + node + Ascii("/blocks/") + block + Ascii(".prompt.md") && IsName(node) && IsName(block)
  }

  lemma TaskPathMeans(p: Text)
    ensures TaskPath(p) <==> exists node :: IsTaskPath(p, node)
  {
    if TaskPath(p) {
      var node := p[6..|p| - 10];
      assert p == p[..6] + node + p[|p| - 10..];
      assert IsTaskPath(p, node);
    }
    if node :| IsTaskPath(p, node) {
      assert p[..6] == NODES && p[|p| - 10..] == PROMPT && p[6..|p| - 10] == node;
    }
  }

  lemma BlockPathMeans(p: Text)
    ensures BlockPath(p) <==> exists node, block :: IsBlockPath(p, node, block)
  {
    if BlockPath(p) {
      var k :| 0 <= k < |p| && BlockPathAt(p, k);
      var node, block := p[6..k], p[k + 8..|p| - 10];
      assert p == p[..6] + node + p[k..k + 8] + block + p[|p| - 10..];
      assert IsBlockPath(p, node, block);
    }
    if node, block :| IsBlockPath(p, node, block) {
      BlockParts(p, node, block);
    }
  }

  lemma BlockParts(p: Text, node: Text, block: Text)
    requires IsBlockPath(p, node, block)
    ensures BlockPathAt(p, 6 + |node|)
  {
    var k := 6 + |node|;
    assert p[..6] == NODES && p[6..k] == node && p[k..k + 8] == BLOCKS;
    assert p[k + 8..|p| - 10] == block && p[|p| - 10..] == PROMPT_SUFFIX;
  }

  /** The path that a member of the kind has to have. */
  ghost predicate KindPath(kind: Kind, p: Text) {
    match kind
    case Manifest => p == Ascii("manifest.json")
    case DesktopLayout => p == Ascii("desktop/layout.json")
    case TaskPrompt => exists node :: IsTaskPath(p, node)
    case BlockPrompt => exists node, block :: IsBlockPath(p, node, block)
  }

  ghost predicate IsSmallHex(t: Text) {
    |t| == 64 && forall i :: 0 <= i < |t| ==> t[i] in Ascii("0123456789abcdef")
  }

  lemma HexMeans(t: Text)
    ensures IsHexDigest(t) <==> IsSmallHex(t)
  {
    var digits := Ascii("0123456789abcdef");
    assert digits == [0x30, 0x31, 0x32, 0x33, 0x34, 0x35, 0x36, 0x37, 0x38, 0x39, 0x61, 0x62, 0x63, 0x64, 0x65, 0x66];
  }

  /** A member is accepted exactly with a good path of its kind, a digest of 64 small hexadecimal digits
      and the byte size of its content, of at most 64 MiB. */
  lemma MemberMeans(m: Member)
    ensures GoodMember(m) <==>
            && GoodPath(m.path) && KindPath(m.kind, m.path) && IsSmallHex(m.digest)
            && m.sizeBytes == |Utf8.Encode(m.content)| && m.sizeBytes <= 67_108_864 && |m.content| <= 67_108_864
  {
    TaskPathMeans(m.path);
    BlockPathMeans(m.path);
    HexMeans(m.digest);
  }

  /** The limits on the fields, before the version is looked at as a whole. */
  predicate GoodFields(v: Version) {
    && 2 <= |v.members| <= MAX_MEMBERS
    && (forall i :: 0 <= i < |v.members| ==> GoodMember(v.members[i]))
    && IsHexDigest(v.digest) && 0 < v.totalBytes <= MAX_TOTAL_BYTES
  }

  /** Negative, zero or positive, as a collator compares two paths. */
  type Compare = (Text, Text) -> int

  function CountKind(ms: seq<Member>, kind: Kind): nat {
    if ms == [] then 0 else (if ms[0].kind == kind then 1 else 0) + CountKind(ms[1..], kind)
  }

  function SumSizes(ms: seq<Member>): nat {
    if ms == [] then 0 else ms[0].sizeBytes + SumSizes(ms[1..])
  }

  function Paths(ms: seq<Member>): set<Text> {
    set i | 0 <= i < |ms| :: ms[i].path
  }

  predicate Descends(compare: Compare, ms: seq<Member>, i: int) {
    1 <= i < |ms| && compare(ms[i - 1].path, ms[i].path) >= 0
  }

  predicate Mismatched(ms: seq<Member>, i: int) {
    0 <= i < |ms| && ExpectedKind(ms[i].path) != Some(ms[i].kind)
  }

  datatype Issue =
    | DuplicatePath | NotOrdered(index: nat) | KindMismatch(index: nat) | NotOneManifest | NotOneLayout | TotalMismatch

  /** Whether the refinement raises the issue. */
  predicate Raised(compare: Compare, v: Version, issue: Issue) {
    match issue
    case DuplicatePath => |Paths(v.members)| != |v.members|
    case NotOrdered(i) => Descends(compare, v.members, i)
    case KindMismatch(i) => Mismatched(v.members, i)
    case NotOneManifest => CountKind(v.members, Manifest) != 1
    case NotOneLayout => CountKind(v.members, DesktopLayout) != 1
    case TotalMismatch => SumSizes(v.members) != v.totalBytes
  }

  /** The refinement as it runs; it raises exactly the issues there are. */
  method Refine(compare: Compare, v: Version) returns (issues: seq<Issue>)
    ensures forall issue :: issue in issues <==> Raised(compare, v, issue)
  {
    issues := if |Paths(v.members)| != |v.members| then [DuplicatePath] else [];
    for index := 0 to |v.members|
      invariant forall issue :: issue in issues <==>
                  match issue
                  case DuplicatePath => |Paths(v.members)| != |v.members|
                  case NotOrdered(i) => i < index && Descends(compare, v.members, i)
                  case KindMismatch(i) => i < index && Mismatched(v.members, i)
                  case _ => false
    {
      var member := v.members[index];
      if index > 0 && compare(v.members[index - 1].path, member.path) >= 0 {
        issues := issues + [NotOrdered(index)];
      }
      if ExpectedKind(member.path) != Some(member.kind) {
        issues := issues + [KindMismatch(index)];
      }
    }
    if CountKind(v.members, Manifest) != 1 {
      issues := issues + [NotOneManifest];
    }
    if CountKind(v.members, DesktopLayout) != 1 {
      issues := issues + [NotOneLayout];
    }
    if SumSizes(v.members) != v.totalBytes {
      issues := issues + [TotalMismatch];
    }
  }

  ghost predicate Accepted(compare: Compare, v: Version) {
    GoodFields(v) && forall issue :: !Raised(compare, v, issue)
  }

  // ---------------------------------------------------------------------------------------------
  // The canonical order

  ghost predicate Before(compare: Compare, p: Text, q: Text) {
    compare(p, q) < 0
  }

  /** The collator's "less than" is a strict order, possibly with ties between different paths. */
  ghost predicate StrictOrder(compare: Compare) {
    && (forall p :: !Before(compare, p, p))
    && (forall p, q, r :: Before(compare, p, q) && Before(compare, q, r) ==> Before(compare, p, r))
  }

  ghost predicate Ascending(compare: Compare, paths: seq<Text>) {
    forall i, j :: 0 <= i < j < |paths| ==> Before(compare, paths[i], paths[j])
  }

  function PathsOf(ms: seq<Member>): seq<Text> {
    seq(|ms|, i requires 0 <= i < |ms| => ms[i].path)
  }

  lemma {:induction false} NeighboursToAll(compare: Compare, paths: seq<Text>)
    requires StrictOrder(compare)
    requires forall i :: 1 <= i < |paths| ==> Before(compare, paths[i - 1], paths[i])
    ensures Ascending(compare, paths)
  {
    if |paths| > 1 {
      var front, last := paths[..|paths| - 1], paths[|paths| - 1];
      NeighboursToAll(compare, front);
      assert Before(compare, paths[|paths| - 2], last);
      forall i | 0 <= i < |front| ensures Before(compare, front[i], last) {
        if i < |front| - 1 {
          assert Before(compare, front[i], front[|front| - 1]);
        }
      }
    }
  }

  lemma {:induction false} DistinctCount(ms: seq<Member>)
    requires forall i, j :: 0 <= i < j < |ms| ==> ms[i].path != ms[j].path
    ensures |Paths(ms)| == |ms|
  {
    if ms != [] {
      var front, last := ms[..|ms| - 1], ms[|ms| - 1];
      DistinctCount(front);
      assert forall i :: 0 <= i < |front| ==> front[i] == ms[i];
      assert Paths(ms) == Paths(front) + {last.path};
    }
  }

  /** Where no neighbours are out of order, no path occurs twice: the separate check adds nothing. */
  lemma OrderExcludesDuplicates(compare: Compare, v: Version)
    requires StrictOrder(compare) && forall i :: !Raised(compare, v, NotOrdered(i))
    ensures !Raised(compare, v, DuplicatePath) && Ascending(compare, PathsOf(v.members))
  {
    var ms := v.members;
    forall i | 1 <= i < |ms| ensures Before(compare, PathsOf(ms)[i - 1], PathsOf(ms)[i]) {
      assert !Raised(compare, v, NotOrdered(i));
    }
    NeighboursToAll(compare, PathsOf(ms));
    forall i, j | 0 <= i < j < |ms| ensures ms[i].path != ms[j].path {
      assert Before(compare, PathsOf(ms)[i], PathsOf(ms)[j]);
    }
    DistinctCount(ms);
  }

  // ---------------------------------------------------------------------------------------------
  // The digest payload

  function KindText(kind: Kind): Text {
    match kind
    case Manifest => Ascii("manifest")
    case TaskPrompt => Ascii("task_prompt")
    case BlockPrompt => Ascii("block_prompt")
    case DesktopLayout => Ascii("desktop_layout")
  }

  /** What the payload keeps of a member. */
  datatype Summary = Summary(kind: Kind, path: Text, digest: Text, sizeBytes: nat)

  function SummaryOf(m: Member): Summary {
    Summary(m.kind, m.path, m.digest, m.sizeBytes)
  }

  function Summaries(ms: seq<Member>): seq<Summary> {
    seq(|ms|, i requires 0 <= i < |ms| => SummaryOf(ms[i]))
  }

  function SummaryValue(s: Summary): Value<nat> {
    Obj([(Ascii("kind"), Str(KindText(s.kind))), (Ascii("path"), Str(s.path)), (Ascii("digestSha256"), Str(s.digest)),
         (Ascii("sizeBytes"), Num(s.sizeBytes))])
  }

  function PayloadValue(ss: seq<Summary>, totalBytes: nat): Value<nat> {
    Obj([(Ascii("members"), Arr(seq(|ss|, i requires 0 <= i < |ss| => SummaryValue(ss[i])))), (Ascii("totalBytes"), Num(totalBytes))])
  }

  /** `canonicalContentVersionDigestPayload` */
  function DigestPayload(v: Version): Text {
    Print(Decimal.Codec(), PayloadValue(Summaries(v.members), v.totalBytes))
  }

  lemma SummaryValueInjective(a: Summary, b: Summary)
    requires SummaryValue(a) == SummaryValue(b)
    ensures a == b
  {
    var x, y := SummaryValue(a).entries, SummaryValue(b).entries;
    assert x[0].1 == y[0].1 && x[1].1 == y[1].1 && x[2].1 == y[2].1 && x[3].1 == y[3].1;
    assert |KindText(a.kind)| == |KindText(b.kind)|;
  }

  lemma PayloadValueInjective(a: seq<Summary>, n: nat, b: seq<Summary>, m: nat)
    requires PayloadValue(a, n) == PayloadValue(b, m)
    ensures a == b && n == m
  {
    var x, y := PayloadValue(a, n).entries, PayloadValue(b, m).entries;
    assert x[0].1 == y[0].1 && x[1].1 == y[1].1;
    var p, q := x[0].1.items, y[0].1.items;
    assert p == q;
    forall i | 0 <= i < |a| ensures a[i] == b[i] {
      assert p[i] == q[i];
      SummaryValueInjective(a[i], b[i]);
    }
  }

  lemma PayloadSupported(ss: seq<Summary>, n: nat)
    ensures Supported(PayloadValue(ss, n))
  {
    forall i | 0 <= i < |ss| ensures Supported(SummaryValue(ss[i])) {
      var es := SummaryValue(ss[i]).entries;
      assert Supported(es[0].1) && Supported(es[1].1) && Supported(es[2].1) && Supported(es[3].1);
    }
    var es := PayloadValue(ss, n).entries;
    assert Supported(es[0].1) && Supported(es[1].1);
  }

  /** The payload determines the summaries and the total. */
  lemma PayloadInjective(v: Version, w: Version)
    requires DigestPayload(v) == DigestPayload(w)
    ensures Summaries(v.members) == Summaries(w.members) && v.totalBytes == w.totalBytes
  {
    var c := Decimal.Codec();
    Decimal.CodecIsFaithful();
    var x, y := PayloadValue(Summaries(v.members), v.totalBytes), PayloadValue(Summaries(w.members), w.totalBytes);
    PayloadSupported(Summaries(v.members), v.totalBytes);
    PayloadSupported(Summaries(w.members), w.totalBytes);
    ParsePrinted(c, x, []);
    ParsePrinted(c, y, []);
    PayloadValueInjective(Summaries(v.members), v.totalBytes, Summaries(w.members), w.totalBytes);
  }

  /** Read as JSON, the payload lists the members in order, each with these four fields, and the total. */
  lemma PayloadReads(v: Version, i: nat)
    requires i < |v.members|
    ensures var r, kind := CanonicalJson.Parse(Decimal.Codec(), DigestPayload(v)), v.members[i].kind;
            var name := if kind.Manifest? then Ascii("manifest") else if kind.TaskPrompt? then Ascii("task_prompt")
                        else if kind.BlockPrompt? then Ascii("block_prompt") else Ascii("desktop_layout");
            && r.Some? && r.value.Obj? && |r.value.entries| == 2
            && var members, total := r.value.entries[0], r.value.entries[1];
               && members.0 == Ascii("members") && members.1.Arr? && |members.1.items| == |v.members|
               && members.1.items[i] == Obj([(Ascii("kind"), Str(name)), (Ascii("path"), Str(v.members[i].path)),
                                             (Ascii("digestSha256"), Str(v.members[i].digest)), (Ascii("sizeBytes"), Num(v.members[i].sizeBytes))])
               && total == (Ascii("totalBytes"), Num(v.totalBytes))
  {
    var c, x := Decimal.Codec(), PayloadValue(Summaries(v.members), v.totalBytes);
    Decimal.CodecIsFaithful();
    PayloadSupported(Summaries(v.members), v.totalBytes);
    ParsePrinted(c, x, []);
    assert Print(c, x) + [] == Print(c, x);
    assert x.entries[0].1.items[i] == SummaryValue(SummaryOf(v.members[i]));
  }

  ghost predicate SameMembers<T(!new)>(a: seq<T>, b: seq<T>) {
    forall x :: x in a <==> x in b
  }

  ghost predicate AscendingBy<T>(compare: Compare, path: T -> Text, s: seq<T>) {
    forall i, j :: 0 <= i < j < |s| ==> Before(compare, path(s[i]), path(s[j]))
  }

  lemma TailMember<T>(compare: Compare, path: T -> Text, s: seq<T>, x: T)
    requires StrictOrder(compare) && AscendingBy(compare, path, s) && s != []
    ensures x in s[1..] <==> x in s && x != s[0]
    ensures x in s && x != s[0] ==> Before(compare, path(s[0]), path(x))
  {
    assert s == [s[0]] + s[1..];
    if x in s[1..] {
      var i :| 0 <= i < |s[1..]| && s[1..][i] == x;
      assert Before(compare, path(s[0]), path(s[i + 1]));
    }
  }

  lemma NonEmpty<T(!new)>(a: seq<T>, b: seq<T>)
    requires SameMembers(a, b) && a != []
    ensures b != [] && a[0] in b
  {
    assert a[0] in a;
  }

  /** Ascending sequences with the same members are the same sequence. */
  lemma {:induction false} AscendingUnique<T(!new)>(compare: Compare, path: T -> Text, a: seq<T>, b: seq<T>)
    requires StrictOrder(compare) && AscendingBy(compare, path, a) && AscendingBy(compare, path, b) && SameMembers(a, b)
    ensures a == b
  {
    if a != [] {
      NonEmpty(a, b);
    }
    if b != [] {
      NonEmpty(b, a);
      TailMember(compare, path, a, b[0]);
      TailMember(compare, path, b, a[0]);
      forall x ensures x in a[1..] <==> x in b[1..] {
        TailMember(compare, path, a, x);
        TailMember(compare, path, b, x);
      }
      AscendingUnique(compare, path, a[1..], b[1..]);
      assert a == [a[0]] + a[1..] && b == [b[0]] + b[1..];
    }
  }

  lemma AcceptedAscends(compare: Compare, v: Version)
    requires StrictOrder(compare) && Accepted(compare, v)
    ensures Ascending(compare, PathsOf(v.members))
  {
    OrderExcludesDuplicates(compare, v);
  }

  /** Accepted versions with the same members list them in the same order and have one payload. */
  lemma SameMembersSameVersion(compare: Compare, v: Version, w: Version)
    requires StrictOrder(compare) && Accepted(compare, v) && Accepted(compare, w) && SameMembers(v.members, w.members)
    ensures v.members == w.members && v.totalBytes == w.totalBytes && DigestPayload(v) == DigestPayload(w)
  {
    AcceptedAscends(compare, v);
    AcceptedAscends(compare, w);
    var path := (m: Member) => m.path;
    AscendingFrom(compare, v.members);
    AscendingFrom(compare, w.members);
    AscendingUnique(compare, path, v.members, w.members);
    assert !Raised(compare, v, TotalMismatch) && !Raised(compare, w, TotalMismatch);
  }

  lemma AscendingFrom(compare: Compare, ms: seq<Member>)
    requires Ascending(compare, PathsOf(ms))
    ensures AscendingBy(compare, (m: Member) => m.path, ms)
    ensures AscendingBy(compare, (s: Summary) => s.path, Summaries(ms))
  {
    forall i, j | 0 <= i < j < |ms| ensures Before(compare, ms[i].path, ms[j].path) {
      assert Before(compare, PathsOf(ms)[i], PathsOf(ms)[j]);
    }
  }

  /** The payloads of accepted versions are equal exactly when their members agree, as sets, on
      kind, path, digest and size. */
  lemma PayloadDecidesMembers(compare: Compare, v: Version, w: Version)
    requires StrictOrder(compare) && Accepted(compare, v) && Accepted(compare, w)
    ensures DigestPayload(v) == DigestPayload(w) <==> SameMembers(Summaries(v.members), Summaries(w.members))
  {
    if DigestPayload(v) == DigestPayload(w) {
      PayloadInjective(v, w);
    }
    if SameMembers(Summaries(v.members), Summaries(w.members)) {
      SameSummaries(compare, v, w);
    }
  }

  lemma SameSummaries(compare: Compare, v: Version, w: Version)
    requires StrictOrder(compare) && Accepted(compare, v) && Accepted(compare, w)
    requires SameMembers(Summaries(v.members), Summaries(w.members))
    ensures Summaries(v.members) == Summaries(w.members) && v.totalBytes == w.totalBytes
  {
    AcceptedAscends(compare, v);
    AcceptedAscends(compare, w);
    AscendingFrom(compare, v.members);
    AscendingFrom(compare, w.members);
    AscendingUnique(compare, (s: Summary) => s.path, Summaries(v.members), Summaries(w.members));
    SumOfSummaries(v.members, w.members);
    assert !Raised(compare, v, TotalMismatch) && !Raised(compare, w, TotalMismatch);
  }

  lemma {:induction false} SumOfSummaries(a: seq<Member>, b: seq<Member>)
    requires Summaries(a) == Summaries(b)
    ensures SumSizes(a) == SumSizes(b)
  {
    assert |Summaries(a)| == |a| && |Summaries(b)| == |b|;
    if a != [] {
      assert Summaries(a)[0] == Summaries(b)[0];
      assert Summaries(a[1..]) == Summaries(a)[1..] && Summaries(b[1..]) == Summaries(b)[1..];
      SumOfSummaries(a[1..], b[1..]);
    }
  }
}
