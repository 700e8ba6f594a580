/** The frames a content version is sent in, and the byte budgets they have to fit. */
module ContentTransfer {
  import opened Wrappers
  import opened JsonText
  import opened JsonValue
  import opened CanonicalJson
  import opened JsonBytes
  import opened ContentVersion
  import opened Timestamps
  import WhiteSpace
  import Decimal

  const FRAME_BUDGET: nat := MAX_MEMBER_BYTES * 6 + 65536
  const WIRE_BUDGET: nat := MAX_TOTAL_BYTES * 6 + (MAX_MEMBERS + 2) * 65536

  datatype ActorKind = Human | LocalAdmin | System

  datatype Actor = Actor(kind: ActorKind, id: Text, displayName: Option<Text>)

  datatype Scope = Scope(workspaceId: Text, projectId: Text, canvasId: Text)

  /** What the header adds to the version it announces. */
  datatype Origin = Origin(scope: Scope, createdAt: Text, createdBy: Actor)

  predicate IsIdentifier(t: Text) {
    && 1 <= |t| <= 128 && IsAlphanumeric(t[0])
    && forall i :: 0 <= i < |t| ==> IsAlphanumeric(t[i]) || t[i] == DOT || t[i] == 0x5F || t[i] == 0x3A || t[i] == 0x2D
  }

  /** What the header frame carries. */
  datatype Header = Header(origin: Origin, digest: Text, totalBytes: nat, memberCount: nat)

  function HeaderOf(o: Origin, v: Version): Header {
    Header(o, v.digest, v.totalBytes, |v.members|)
  }

  predicate GoodActor(a: Actor) {
    IsIdentifier(a.id) && (a.displayName.Some? ==> 1 <= |a.displayName.value| <= 128 && Trim(a.displayName.value) == a.displayName.value)
  }

  predicate GoodScope(s: Scope) {
    IsIdentifier(s.workspaceId) && IsIdentifier(s.projectId) && IsIdentifier(s.canvasId)
  }

  predicate GoodOrigin(o: Origin) {
    GoodScope(o.scope) && GoodActor(o.createdBy) && IsTimestamp(o.createdAt)
  }

  /** The header fields as their schemas accept them. */
  predicate GoodHeader(h: Header) {
    GoodOrigin(h.origin) && IsHexDigest(h.digest) && 0 < h.totalBytes <= MAX_TOTAL_BYTES && 2 <= h.memberCount <= MAX_MEMBERS
  }

  function WithTimestamp(h: Header, t: Text): Header {
    h.(origin := h.origin.(createdAt := t))
  }

  // ---------------------------------------------------------------------------------------------
  // Frames

  type Fields = seq<(Text, Value<nat>)>

  function TextField(name: string, s: Text): Fields {
    [(Ascii(name), Str(s))]
  }

  function NumField(name: string, n: nat): Fields {
    [(Ascii(name), Num(n))]
  }

  function ObjField(name: string, fields: Fields): Fields {
    [(Ascii(name), Obj(fields))]
  }

  function ActorText(kind: ActorKind): Text {
    match kind
    case Human => Ascii("human")
    case LocalAdmin => Ascii("local_admin")
    case System => Ascii("system")
  }

  function ActorFields(a: Actor): Fields {
    TextField("kind", ActorText(a.kind)) + TextField("id", a.id) +
    (if a.displayName.None? then [] else TextField("displayName", a.displayName.value))
  }

  function ScopeFields(s: Scope): Fields {
    TextField("workspaceId", s.workspaceId) + TextField("projectId", s.projectId) + TextField("canvasId", s.canvasId)
  }

  function CompletedFields(digest: Text): Fields {
    TextField("versionId", Ascii("version-") + digest) + TextField("canonicalDigest", digest) + TextField("verification", Ascii("complete"))
  }

  function TotalFields(digest: Text, totalBytes: nat, memberCount: nat): Fields {
    TextField("canonicalDigest", digest) + NumField("totalBytes", totalBytes) + NumField("memberCount", memberCount)
  }

  function HeaderFields(h: Header): Fields {
    (TextField("type", Ascii("header")) + TextField("schemaVersion", Ascii("content-version/v1")) +
     ObjField("scope", ScopeFields(h.origin.scope))) +
    (ObjField("completed", CompletedFields(h.digest)) + TotalFields(h.digest, h.totalBytes, h.memberCount) +
     TextField("createdAt", h.origin.createdAt)) +
    ObjField("createdBy", ActorFields(h.origin.createdBy))
  }

  function MemberFields(m: Member): Fields {
    (TextField("kind", KindText(m.kind)) + TextField("path", m.path) + TextField("content", m.content)) +
    TextField("digestSha256", m.digest) + NumField("sizeBytes", m.sizeBytes)
  }

  function MemberFrame(index: nat, m: Member): Fields {
    TextField("type", Ascii("member")) + NumField("index", index) + ObjField("member", MemberFields(m))
  }

  function CompleteFrame(v: Version): Fields {
    TextField("type", Ascii("complete")) + TotalFields(v.digest, v.totalBytes, |v.members|)
  }

  /** A frame on the wire ends with a newline. */
  function FrameBytes(fields: Fields): nat {
    Bytes(Print(Decimal.Codec(), Obj(fields))) + 1
  }

  function MemberFramesBytes(ms: seq<Member>, index: nat): nat {
    if ms == [] then 0 else FrameBytes(MemberFrame(index, ms[0])) + MemberFramesBytes(ms[1..], index + 1)
  }

  function WireBytes(o: Origin, v: Version): nat {
    FrameBytes(HeaderFields(HeaderOf(o, v))) + MemberFramesBytes(v.members, 0) + FrameBytes(CompleteFrame(v))
  }

  // ---------------------------------------------------------------------------------------------
  // Field sizes

  function SizeOf(fields: Fields): nat {
    MembersSize(Decimal.Codec(), fields)
  }

  lemma Sum3(x: Fields, y: Fields, z: Fields)
    ensures SizeOf(x + y + z) == SizeOf(x) + SizeOf(y) + SizeOf(z)
  {
    Concat3(Decimal.Codec(), x, y, z);
  }

  lemma TextSize(name: string, s: Text)
    ensures SizeOf(TextField(name, s)) == |name| + 6 + Bytes(Escape(s))
    ensures Bytes(Escape(s)) <= 6 * |s| && (IsPlain(s) ==> Bytes(Escape(s)) == |s|)
  {
    TextMember(Decimal.Codec(), Ascii(name), s);
  }

  lemma NumSize(name: string, n: nat)
    ensures SizeOf(NumField(name, n)) == |name| + 4 + |Decimal.Write(n)|
  {
    Decimal.CodecIsFaithful();
    NumBytes(Decimal.Codec(), n);
    ValueMember(Decimal.Codec(), Ascii(name), Num(n));
  }

  /** Values within the limits take at most as many digits as the limits. */
  lemma Digits(n: nat, max: nat, k: nat)
    requires n <= max < Decimal.Power10(k) && k >= 1
    ensures |Decimal.Write(n)| <= k
  {
    Decimal.DigitCount(n, k);
  }

  lemma ObjSize(name: string, fields: Fields)
    requires fields != []
    ensures SizeOf(ObjField(name, fields)) == |name| + 5 + SizeOf(fields)
  {
    Decimal.CodecIsFaithful();
    ObjectBytes(Decimal.Codec(), fields);
    ValueMember(Decimal.Codec(), Ascii(name), Obj(fields));
  }

  lemma FrameSize(fields: Fields)
    requires fields != []
    ensures FrameBytes(fields) == SizeOf(fields) + 2
  {
    Decimal.CodecIsFaithful();
    ObjectBytes(Decimal.Codec(), fields);
  }

  // ---------------------------------------------------------------------------------------------
  // Frame sizes

  lemma IdentifierIsPlain(t: Text)
    requires IsIdentifier(t)
    ensures IsPlain(t)
  {
  }

  lemma ScopeSize(s: Scope)
    ensures SizeOf(ScopeFields(s)) == 46 + ScopeBytes(s)
  {
    TextSize("workspaceId", s.workspaceId);
    TextSize("projectId", s.projectId);
    TextSize("canvasId", s.canvasId);
    Sum3(TextField("workspaceId", s.workspaceId), TextField("projectId", s.projectId), TextField("canvasId", s.canvasId));
  }

  function ScopeBytes(s: Scope): nat {
    Bytes(Escape(s.workspaceId)) + Bytes(Escape(s.projectId)) + Bytes(Escape(s.canvasId))
  }

  lemma CompletedSize(digest: Text)
    requires IsHexDigest(digest)
    ensures SizeOf(CompletedFields(digest)) == 198
  {
    TextSize("versionId", Ascii("version-") + digest);
    TextSize("canonicalDigest", digest);
    TextSize("verification", Ascii("complete"));
    Sum3(TextField("versionId", Ascii("version-") + digest), TextField("canonicalDigest", digest), TextField("verification", Ascii("complete")));
  }

  lemma TotalSize(digest: Text, totalBytes: nat, memberCount: nat)
    requires IsHexDigest(digest)
    ensures SizeOf(TotalFields(digest, totalBytes, memberCount)) == 114 + |Decimal.Write(totalBytes)| + |Decimal.Write(memberCount)|
  {
    TextSize("canonicalDigest", digest);
    NumSize("totalBytes", totalBytes);
    NumSize("memberCount", memberCount);
    Sum3(TextField("canonicalDigest", digest), NumField("totalBytes", totalBytes), NumField("memberCount", memberCount));
  }

  function ActorBytes(a: Actor): nat {
    |ActorText(a.kind)| + Bytes(Escape(a.id)) + if a.displayName.None? then 0 else 17 + Bytes(Escape(a.displayName.value))
  }

  lemma ActorSize(a: Actor)
    ensures SizeOf(ActorFields(a)) == 18 + ActorBytes(a)
  {
    TextSize("kind", ActorText(a.kind));
    TextSize("id", a.id);
    var name := if a.displayName.None? then [] else TextField("displayName", a.displayName.value);
    if a.displayName.Some? {
      TextSize("displayName", a.displayName.value);
    }
    Sum3(TextField("kind", ActorText(a.kind)), TextField("id", a.id), name);
  }

  /** What the header takes beside its timestamp. */
  function RestBytes(h: Header): nat {
    484 + ScopeBytes(h.origin.scope) + |Decimal.Write(h.totalBytes)| + |Decimal.Write(h.memberCount)| + ActorBytes(h.origin.createdBy)
  }

  /** The exact size of a header frame: the timestamp counts once for each of its characters. */
  lemma HeaderSize(h: Header)
    requires IsHexDigest(h.digest) && IsPlain(h.origin.createdAt)
    ensures FrameBytes(HeaderFields(h)) == RestBytes(h) + |h.origin.createdAt|
  {
    HeadSize(h);
    MiddleSize(h);
    ActorSize(h.origin.createdBy);
    ObjSize("createdBy", ActorFields(h.origin.createdBy));
    Sum3(HeadFields(h), MiddleFields(h), ObjField("createdBy", ActorFields(h.origin.createdBy)));
    FrameSize(HeaderFields(h));
  }

  function HeadFields(h: Header): Fields {
    TextField("type", Ascii("header")) + TextField("schemaVersion", Ascii("content-version/v1")) +
    ObjField("scope", ScopeFields(h.origin.scope))
  }

  function MiddleFields(h: Header): Fields {
    ObjField("completed", CompletedFields(h.digest)) + TotalFields(h.digest, h.totalBytes, h.memberCount) +
    TextField("createdAt", h.origin.createdAt)
  }

  lemma HeadSize(h: Header)
    ensures SizeOf(HeadFields(h)) == 109 + ScopeBytes(h.origin.scope)
  {
    TextSize("type", Ascii("header"));
    TextSize("schemaVersion", Ascii("content-version/v1"));
    ScopeSize(h.origin.scope);
    ObjSize("scope", ScopeFields(h.origin.scope));
    Sum3(TextField("type", Ascii("header")), TextField("schemaVersion", Ascii("content-version/v1")), ObjField("scope", ScopeFields(h.origin.scope)));
  }

  lemma MiddleSize(h: Header)
    requires IsHexDigest(h.digest) && IsPlain(h.origin.createdAt)
    ensures SizeOf(MiddleFields(h)) == 341 + |Decimal.Write(h.totalBytes)| + |Decimal.Write(h.memberCount)| + |h.origin.createdAt|
  {
    CompletedSize(h.digest);
    ObjSize("completed", CompletedFields(h.digest));
    TotalSize(h.digest, h.totalBytes, h.memberCount);
    TextSize("createdAt", h.origin.createdAt);
    Sum3(ObjField("completed", CompletedFields(h.digest)), TotalFields(h.digest, h.totalBytes, h.memberCount), TextField("createdAt", h.origin.createdAt));
  }

  lemma CompleteExact(v: Version)
    requires IsHexDigest(v.digest)
    ensures FrameBytes(CompleteFrame(v)) == 134 + |Decimal.Write(v.totalBytes)| + |Decimal.Write(|v.members|)|
  {
    TextSize("type", Ascii("complete"));
    TotalSize(v.digest, v.totalBytes, |v.members|);
    MembersConcat(Decimal.Codec(), TextField("type", Ascii("complete")), TotalFields(v.digest, v.totalBytes, |v.members|));
    FrameSize(CompleteFrame(v));
  }

  lemma CompleteSize(v: Version)
    requires GoodFields(v)
    ensures FrameBytes(CompleteFrame(v)) <= 147
  {
    CompleteExact(v);
    Digits(v.totalBytes, MAX_TOTAL_BYTES, 9);
    Digits(|v.members|, MAX_MEMBERS, 4);
  }

  lemma PathIsPlain(p: Text)
    requires GoodPath(p)
    ensures IsPlain(p) && |p| <= 512
  {
  }

  /** What a member frame takes beside the digits of its index. */
  function Cost(m: Member): nat {
    166 + |Decimal.Write(m.sizeBytes)| + |KindText(m.kind)| + |m.path| + Bytes(Escape(m.content))
  }

  lemma MemberFieldsSize(m: Member)
    requires IsPlain(m.path) && IsHexDigest(m.digest)
    ensures SizeOf(MemberFields(m)) == Cost(m) - 38
  {
    KindSize(m.kind);
    TextSize("path", m.path);
    TextSize("content", m.content);
    TextSize("digestSha256", m.digest);
    NumSize("sizeBytes", m.sizeBytes);
    var x := TextField("kind", KindText(m.kind)) + TextField("path", m.path) + TextField("content", m.content);
    Sum3(TextField("kind", KindText(m.kind)), TextField("path", m.path), TextField("content", m.content));
    Sum3(x, TextField("digestSha256", m.digest), NumField("sizeBytes", m.sizeBytes));
  }

  lemma KindSize(kind: Kind)
    ensures SizeOf(TextField("kind", KindText(kind))) == 10 + |KindText(kind)|
    ensures |KindText(kind)| == match kind case Manifest => 8 case TaskPrompt => 11 case BlockPrompt => 12 case DesktopLayout => 14
  {
    TextSize("kind", KindText(kind));
  }

  /** The exact size of a member frame. */
  lemma MemberFrameExact(index: nat, m: Member)
    requires IsPlain(m.path) && IsHexDigest(m.digest)
    ensures FrameBytes(MemberFrame(index, m)) == |Decimal.Write(index)| + Cost(m)
  {
    MemberFieldsSize(m);
    TextSize("type", Ascii("member"));
    NumSize("index", index);
    ObjSize("member", MemberFields(m));
    Sum3(TextField("type", Ascii("member")), NumField("index", index), ObjField("member", MemberFields(m)));
    FrameSize(MemberFrame(index, m));
  }

  /** A member frame takes at most six bytes for each content byte and 704 for the rest. */
  lemma MemberFrameSize(index: nat, m: Member)
    requires GoodMember(m) && index < MAX_MEMBERS
    ensures FrameBytes(MemberFrame(index, m)) <= 6 * m.sizeBytes + 704
  {
    PathIsPlain(m.path);
    MemberFrameExact(index, m);
    KindSize(m.kind);
    Digits(index, MAX_MEMBERS, 4);
    Digits(m.sizeBytes, MAX_MEMBER_BYTES, 8);
    EscapedBytes(m.content);
  }

  // ---------------------------------------------------------------------------------------------
  // The frame budget

  /** Identifiers and name as long as they get, in the characters that cost most, and the largest
      numbers. */
  function WorstHeader(t: Text): Header {
    var id := Repeat(0x61, 128);
    Header(Origin(Scope(id, id, id), t, Actor(LocalAdmin, id, Some(Nuls(128)))), Repeat(0x30, 64), MAX_TOTAL_BYTES, MAX_MEMBERS)
  }

  /** The longest timestamp with which every header fits: what the worst header leaves of the budget. */
  const TIMESTAMP_LIMIT: nat := 402_716_915

  lemma {:induction false} NulsAreNuls(n: nat)
    ensures forall i :: 0 <= i < n ==> Nuls(n)[i] == 0
  {
    if n > 0 {
      NulsAreNuls(n - 1);
    }
  }

  lemma WorstParts()
    ensures ScopeBytes(WorstHeader([]).origin.scope) == 384 && ActorBytes(WorstHeader([]).origin.createdBy) == 924
  {
    PlainEscape(Repeat(0x61, 128));
    NulBytes(128);
  }

  lemma WorstDigits()
    ensures |Decimal.Write(MAX_TOTAL_BYTES)| == 9 && |Decimal.Write(MAX_MEMBERS)| == 4
  {
    assert Decimal.Power10(3) == 1000 && Decimal.Power10(4) == 10_000;
    assert Decimal.Power10(8) == 10_000 * Decimal.Power10(4) && Decimal.Power10(9) == 100_000 * Decimal.Power10(4);
    Decimal.ExactDigits(MAX_TOTAL_BYTES, 9);
    Decimal.ExactDigits(MAX_MEMBERS, 4);
  }

  lemma WorstSize(t: Text)
    requires IsPlain(t)
    ensures FrameBytes(HeaderFields(WorstHeader(t))) == 1805 + |t|
  {
    WorstParts();
    WorstDigits();
    HeaderSize(WorstHeader(t));
  }

  lemma WorstIsGood(t: Text)
    requires IsTimestamp(t)
    ensures GoodHeader(WorstHeader(t))
  {
    NulsAreNuls(128);
    WhiteSpace.TrimFixes(IsWhiteUnit, Nuls(128));
  }

  lemma IdentifierBytes(t: Text)
    requires IsIdentifier(t)
    ensures Bytes(Escape(t)) <= 128
  {
    IdentifierIsPlain(t);
    PlainEscape(t);
  }

  lemma ActorIsBounded(a: Actor)
    requires GoodActor(a)
    ensures ActorBytes(a) <= 924
  {
    IdentifierBytes(a.id);
    if a.displayName.Some? {
      EscapedBytes(a.displayName.value);
    }
  }

  lemma RestIsBounded(h: Header)
    requires GoodHeader(h)
    ensures RestBytes(h) <= 1805
  {
    IdentifierBytes(h.origin.scope.workspaceId);
    IdentifierBytes(h.origin.scope.projectId);
    IdentifierBytes(h.origin.scope.canvasId);
    Digits(h.totalBytes, MAX_TOTAL_BYTES, 9);
    Digits(h.memberCount, MAX_MEMBERS, 4);
    ActorIsBounded(h.origin.createdBy);
  }

  /** Removing the timestamp saves exactly its characters. */
  lemma TimestampAdds(h: Header)
    requires IsHexDigest(h.digest) && IsPlain(h.origin.createdAt)
    ensures FrameBytes(HeaderFields(h)) == FrameBytes(HeaderFields(WithTimestamp(h, []))) + |h.origin.createdAt|
  {
    HeaderSize(h);
    HeaderSize(WithTimestamp(h, []));
  }

  ghost predicate AllHeadersFit(n: nat) {
    forall h :: GoodHeader(h) && |h.origin.createdAt| == n ==> FrameBytes(HeaderFields(h)) <= FRAME_BUDGET
  }

  lemma ShortHeadersFit(n: nat)
    requires n <= TIMESTAMP_LIMIT
    ensures AllHeadersFit(n)
  {
    forall h | GoodHeader(h) && |h.origin.createdAt| == n ensures FrameBytes(HeaderFields(h)) <= FRAME_BUDGET {
      HeaderFits(h);
    }
  }

  lemma LongHeaderOverflows(n: nat) returns (h: Header)
    requires n > TIMESTAMP_LIMIT
    ensures GoodHeader(h) && |h.origin.createdAt| == n && FrameBytes(HeaderFields(h)) > FRAME_BUDGET
  {
    var t := TimestampOfLength(n);
    LongTimestampOverflows(t);
    h := WorstHeader(t);
  }

  /** All headers with an n-character timestamp fit the frame budget exactly when n is within the
      limit, which is what the worst header leaves of the budget without a timestamp. */
  lemma HeadersFitExactly(n: nat)
    ensures AllHeadersFit(n) <==> n <= TIMESTAMP_LIMIT
    ensures FrameBytes(HeaderFields(WorstHeader([]))) == FRAME_BUDGET - TIMESTAMP_LIMIT
  {
    WorstSize([]);
    if n <= TIMESTAMP_LIMIT {
      ShortHeadersFit(n);
    } else {
      var h := LongHeaderOverflows(n);
    }
  }

  lemma HeaderFits(h: Header)
    requires GoodHeader(h) && |h.origin.createdAt| <= TIMESTAMP_LIMIT
    ensures FrameBytes(HeaderFields(h)) <= FRAME_BUDGET
  {
    TimestampIsPlain(h.origin.createdAt);
    HeaderSize(h);
    RestIsBounded(h);
  }

  /** Past the limit, by as little as one character, every timestamp makes a header that the schema
      accepts and the budget does not. */
  lemma LongTimestampOverflows(t: Text)
    requires IsTimestamp(t) && |t| > TIMESTAMP_LIMIT
    ensures GoodHeader(WorstHeader(t))
    ensures FrameBytes(HeaderFields(WorstHeader(t))) == FRAME_BUDGET + (|t| - TIMESTAMP_LIMIT)
  {
    WorstIsGood(t);
    TimestampIsPlain(t);
    WorstSize(t);
  }

  /** Member and completion frames of an accepted version always fit the frame budget, and so does
      its header when the timestamp is within the limit. */
  lemma FramesFit(compare: Compare, o: Origin, v: Version)
    requires Accepted(compare, v) && GoodOrigin(o)
    ensures |o.createdAt| <= TIMESTAMP_LIMIT ==> FrameBytes(HeaderFields(HeaderOf(o, v))) <= FRAME_BUDGET
    ensures FrameBytes(CompleteFrame(v)) <= FRAME_BUDGET
    ensures forall i :: 0 <= i < |v.members| ==> FrameBytes(MemberFrame(i, v.members[i])) <= FRAME_BUDGET
  {
    if |o.createdAt| <= TIMESTAMP_LIMIT {
      HeaderFits(HeaderOf(o, v));
    }
    CompleteSize(v);
    forall i | 0 <= i < |v.members| ensures FrameBytes(MemberFrame(i, v.members[i])) <= FRAME_BUDGET {
      MemberFrameSize(i, v.members[i]);
    }
  }

  // ---------------------------------------------------------------------------------------------
  // The wire budget

  lemma TotalIsSum(compare: Compare, v: Version)
    requires Accepted(compare, v)
    ensures SumSizes(v.members) == v.totalBytes
  {
    assert !Raised(compare, v, TotalMismatch);
  }

  /** The frames of a version fit the wire budget exactly when the timestamp is no longer than what
      they leave of it without one. */
  lemma WireFitsExactly(o: Origin, v: Version)
    requires IsHexDigest(v.digest) && IsTimestamp(o.createdAt)
    ensures WireBytes(o, v) <= WIRE_BUDGET <==> |o.createdAt| <= WIRE_BUDGET - WireBytes(o.(createdAt := []), v)
  {
    TimestampIsPlain(o.createdAt);
    TimestampAdds(HeaderOf(o, v));
    assert WithTimestamp(HeaderOf(o, v), []) == HeaderOf(o.(createdAt := []), v);
  }
}
