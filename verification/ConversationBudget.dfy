/** The host event payload budget and the conversation status events it has to admit. */
module ConversationBudget {
  import opened Wrappers
  import opened Numbers
  import opened JsonText
  import opened JsonValue
  import opened CanonicalJson
  import opened JsonBytes
  import opened Timestamps
  import Decimal

  datatype BudgetError = BudgetInvalid | TooLarge

  /** `hostEventPayloadBytes` */
  function PayloadBytes(payload: Text, budget: int): Result<nat, BudgetError> {
    if !(1 <= budget <= MAX_SAFE_INTEGER) then Err(BudgetInvalid)
    else if Bytes(payload) > budget then Err(TooLarge)
    else Ok(Bytes(payload))
  }

  datatype Status = Running | Completed | Failed | Cancelled

  function StatusText(s: Status): Text {
    match s
    case Running => Ascii("running")
    case Completed => Ascii("completed")
    case Failed => Ascii("failed")
    case Cancelled => Ascii("cancelled")
  }

  datatype StatusEvent = StatusEvent(
    operationId: Text, turnId: Text, attemptId: Text, sessionId: Text, messageId: Text, sequence: nat, timestamp: Text,
    status: Status, error: Option<Text>)

  function ErrorValue(error: Option<Text>): Value<nat> {
    if error.None? then Null else Str(error.value)
  }

  function PayloadFields(s: Status, error: Option<Text>): seq<(Text, Value<nat>)> {
    [(Ascii("kind"), Str(Ascii("status")))] + [(Ascii("status"), Str(StatusText(s)))] + [(Ascii("error"), ErrorValue(error))]
  }

  function TurnFields(e: StatusEvent): seq<(Text, Value<nat>)> {
    [(Ascii("operationId"), Str(e.operationId))] + [(Ascii("turnId"), Str(e.turnId))]
  }

  function AttemptFields(e: StatusEvent): seq<(Text, Value<nat>)> {
    [(Ascii("executionAttemptId"), Str(e.attemptId))] + [(Ascii("sessionId"), Str(e.sessionId))]
  }

  function IdentityFields(e: StatusEvent): seq<(Text, Value<nat>)> {
    TurnFields(e) + AttemptFields(e)
  }

  function MessageFields(e: StatusEvent): seq<(Text, Value<nat>)> {
    [(Ascii("messageId"), Str(e.messageId))] + [(Ascii("sequence"), Num(e.sequence))] + [(Ascii("timestamp"), Str(e.timestamp))]
  }

  function EventFields(e: StatusEvent): seq<(Text, Value<nat>)> {
    [(Ascii("protocolVersion"), Num(2))] + IdentityFields(e) + [(Ascii("type"), Str(Ascii("acp_conversation.event")))] +
    MessageFields(e) + [(Ascii("payload"), Obj(PayloadFields(e.status, e.error)))]
  }

  /** The event as it is sent. */
  function EventText(e: StatusEvent): Text {
    Print(Decimal.Codec(), Obj(EventFields(e)))
  }

  /** The event schema: identifiers of any content within their lengths, any error text. */
  ghost predicate InSchema(e: StatusEvent) {
    && 1 <= |e.operationId| <= 256 && 1 <= |e.turnId| <= 256 && 1 <= |e.attemptId| <= 256 && 1 <= |e.sessionId| <= 1024
    && 1 <= |e.messageId| <= 256
    && 1 <= e.sequence <= MAX_SAFE_INTEGER
    && IsTimestamp(e.timestamp)
  }

  /** The bytes of the error field's value. */
  function ErrorSize(error: Option<Text>): nat {
    if error.None? then 4 else Bytes(Escape(error.value)) + 2
  }

  /** The bytes a host chooses: status, error, message id and timestamp. */
  function ChosenBytes(s: Status, error: Option<Text>, messageId: Text, timestamp: Text): nat {
    |StatusText(s)| + ErrorSize(error) + Bytes(Escape(messageId)) + |timestamp|
  }

  // ---------------------------------------------------------------------------------------------
  // Sizes

  lemma ErrorBytes(error: Option<Text>)
    ensures Size(Decimal.Codec(), ErrorValue(error)) == ErrorSize(error)
  {
    if error.None? {
      AsciiBytes(NULL_TEXT);
    } else {
      QuoteBytes(error.value);
    }
  }

  lemma StatusIsPlain(s: Status)
    ensures IsPlain(StatusText(s)) && |StatusText(s)| == match s case Running => 7 case Completed => 9 case Failed => 6 case Cancelled => 9
  {
  }

  lemma PayloadSize(s: Status, error: Option<Text>)
    ensures Size(Decimal.Codec(), Obj(PayloadFields(s, error))) == 38 + |StatusText(s)| + ErrorSize(error)
  {
    var c := Decimal.Codec();
    Decimal.CodecIsFaithful();
    StatusIsPlain(s);
    TextMember(c, Ascii("kind"), Ascii("status"));
    TextMember(c, Ascii("status"), StatusText(s));
    ErrorBytes(error);
    ValueMember(c, Ascii("error"), ErrorValue(error));
    Concat3(c, [(Ascii("kind"), Str(Ascii("status")))], [(Ascii("status"), Str(StatusText(s)))], [(Ascii("error"), ErrorValue(error))]);
    ObjectBytes(c, PayloadFields(s, error));
  }

  function IdentityBytes(e: StatusEvent): nat {
    Bytes(Escape(e.operationId)) + Bytes(Escape(e.turnId)) + Bytes(Escape(e.attemptId)) + Bytes(Escape(e.sessionId))
  }

  lemma TurnSize(e: StatusEvent)
    ensures MembersSize(Decimal.Codec(), TurnFields(e)) == 29 + Bytes(Escape(e.operationId)) + Bytes(Escape(e.turnId))
  {
    var c := Decimal.Codec();
    TextMember(c, Ascii("operationId"), e.operationId);
    TextMember(c, Ascii("turnId"), e.turnId);
    MembersConcat(c, [(Ascii("operationId"), Str(e.operationId))], [(Ascii("turnId"), Str(e.turnId))]);
  }

  lemma AttemptSize(e: StatusEvent)
    ensures MembersSize(Decimal.Codec(), AttemptFields(e)) == 39 + Bytes(Escape(e.attemptId)) + Bytes(Escape(e.sessionId))
  {
    var c := Decimal.Codec();
    TextMember(c, Ascii("executionAttemptId"), e.attemptId);
    TextMember(c, Ascii("sessionId"), e.sessionId);
    MembersConcat(c, [(Ascii("executionAttemptId"), Str(e.attemptId))], [(Ascii("sessionId"), Str(e.sessionId))]);
  }

  lemma IdentitySize(e: StatusEvent)
    ensures MembersSize(Decimal.Codec(), IdentityFields(e)) == 68 + IdentityBytes(e)
  {
    TurnSize(e);
    AttemptSize(e);
    MembersConcat(Decimal.Codec(), TurnFields(e), AttemptFields(e));
  }

  lemma MessageSize(e: StatusEvent)
    requires IsPlain(e.timestamp)
    ensures MembersSize(Decimal.Codec(), MessageFields(e)) == 42 + |Decimal.Write(e.sequence)| + Bytes(Escape(e.messageId)) + |e.timestamp|
  {
    var c := Decimal.Codec();
    Decimal.CodecIsFaithful();
    TextMember(c, Ascii("messageId"), e.messageId);
    NumBytes(c, e.sequence);
    ValueMember(c, Ascii("sequence"), Num(e.sequence));
    TextMember(c, Ascii("timestamp"), e.timestamp);
    Concat3(c, [(Ascii("messageId"), Str(e.messageId))], [(Ascii("sequence"), Num(e.sequence))], [(Ascii("timestamp"), Str(e.timestamp))]);
  }

  /** The exact size of a status event. */
  lemma EventSize(e: StatusEvent)
    requires IsPlain(e.timestamp)
    ensures Bytes(EventText(e)) ==
            212 + IdentityBytes(e) + |Decimal.Write(e.sequence)| + ChosenBytes(e.status, e.error, e.messageId, e.timestamp)
  {
    var c := Decimal.Codec();
    Decimal.CodecIsFaithful();
    var version, kind := [(Ascii("protocolVersion"), Num(2))], [(Ascii("type"), Str(Ascii("acp_conversation.event")))];
    var payload := [(Ascii("payload"), Obj(PayloadFields(e.status, e.error)))];
    NumBytes(c, 2);
    ValueMember(c, Ascii("protocolVersion"), Num(2));
    IdentitySize(e);
    TextMember(c, Ascii("type"), Ascii("acp_conversation.event"));
    MessageSize(e);
    PayloadSize(e.status, e.error);
    ValueMember(c, Ascii("payload"), Obj(PayloadFields(e.status, e.error)));
    Concat3(c, version, IdentityFields(e), kind);
    Concat3(c, version + IdentityFields(e) + kind, MessageFields(e), payload);
    ObjectBytes(c, EventFields(e));
  }

  // ---------------------------------------------------------------------------------------------
  // The minimum budget

  const ZERO_ID: Text := Ascii("00000000-0000-0000-0000-000000000000")
  const LAST_TIME: Text := Ascii("9999-12-31T23:59:59.999Z")

  /** Identifiers of null characters and the largest sequence number. */
  function Worst(s: Status, error: Option<Text>, messageId: Text, timestamp: Text): StatusEvent {
    StatusEvent(Nuls(256), Nuls(256), Nuls(256), Nuls(1024), messageId, MAX_SAFE_INTEGER, timestamp, s, error)
  }

  /** The failure code the constant is computed with: 128 characters in all. */
  function LongestFailure(): (t: Text)
    ensures |t| == 128 && IsPlain(t)
  {
    Ascii("acp_conversation_") + seq(111, i => 0x78)
  }

  /** `ACP_CONVERSATION_MIN_HOST_EVENT_PAYLOAD_BYTES` */
  function MinimumBudget(): nat {
    Bytes(EventText(Worst(Failed, Some(LongestFailure()), ZERO_ID, LAST_TIME)))
  }

  lemma MinimumChosen()
    ensures ChosenBytes(Failed, Some(LongestFailure()), ZERO_ID, LAST_TIME) == 196
  {
    StatusIsPlain(Failed);
    PlainEscape(LongestFailure());
    PlainEscape(ZERO_ID);
  }

  /** The constant, as a number. */
  lemma MinimumIs()
    ensures MinimumBudget() == 11176
  {
    EventSize(Worst(Failed, Some(LongestFailure()), ZERO_ID, LAST_TIME));
    MinimumChosen();
    NulBytes(256);
    NulBytes(1024);
    assert Decimal.Power10(4) == 10_000;
    assert Decimal.Power10(8) == 10_000 * Decimal.Power10(4);
    assert Decimal.Power10(12) == 10_000 * Decimal.Power10(8);
    assert Decimal.Power10(16) == 10_000 * Decimal.Power10(12) && Decimal.Power10(15) == 1_000 * Decimal.Power10(12);
    Decimal.ExactDigits(MAX_SAFE_INTEGER, 16);
  }

  lemma WorstSize(s: Status, error: Option<Text>, messageId: Text, timestamp: Text)
    requires IsPlain(timestamp)
    ensures Bytes(EventText(Worst(s, error, messageId, timestamp))) == MinimumBudget() - 196 + ChosenBytes(s, error, messageId, timestamp)
  {
    EventSize(Worst(s, error, messageId, timestamp));
    EventSize(Worst(Failed, Some(LongestFailure()), ZERO_ID, LAST_TIME));
    MinimumChosen();
  }

  /** Whatever the host chooses, null-character identifiers and the largest sequence number make the
      longest event. */
  lemma WorstIsLargest(e: StatusEvent)
    requires InSchema(e)
    ensures Bytes(EventText(e)) <= Bytes(EventText(Worst(e.status, e.error, e.messageId, e.timestamp)))
  {
    var w := Worst(e.status, e.error, e.messageId, e.timestamp);
    TimestampIsPlain(e.timestamp);
    EventSize(e);
    EventSize(w);
    NulBytes(256);
    NulBytes(1024);
    EscapedBytes(e.operationId);
    EscapedBytes(e.turnId);
    EscapedBytes(e.attemptId);
    EscapedBytes(e.sessionId);
    Decimal.LargerIsLonger(e.sequence, w.sequence);
  }

  predicate Admitted(e: StatusEvent, budget: int) {
    PayloadBytes(EventText(e), budget).Ok?
  }

  /** The event has the status, error, message id and timestamp that the host chose. */
  predicate Chooses(e: StatusEvent, s: Status, error: Option<Text>, messageId: Text, timestamp: Text) {
    e.status == s && e.error == error && e.messageId == messageId && e.timestamp == timestamp
  }

  ghost predicate AllAdmitted(s: Status, error: Option<Text>, messageId: Text, timestamp: Text, budget: int) {
    forall e :: InSchema(e) && Chooses(e, s, error, messageId, timestamp) ==> Admitted(e, budget)
  }

  /** A budget admits every event of the schema with a given status, error, message id and timestamp,
      whatever its other identifiers hold, exactly when these four together are no longer than in the
      event the minimum was computed from, give or take what the budget has to spare. */
  lemma AdmitsWhateverTheIdentifiers(s: Status, error: Option<Text>, messageId: Text, timestamp: Text, budget: int)
    requires 1 <= |messageId| <= 256 && IsTimestamp(timestamp) && 1 <= budget <= MAX_SAFE_INTEGER
    ensures AllAdmitted(s, error, messageId, timestamp, budget) <==>
            ChosenBytes(s, error, messageId, timestamp) <= 196 + (budget - MinimumBudget())
  {
    var w := Worst(s, error, messageId, timestamp);
    TimestampIsPlain(timestamp);
    WorstSize(s, error, messageId, timestamp);
    assert InSchema(w) && Chooses(w, s, error, messageId, timestamp);
    if ChosenBytes(s, error, messageId, timestamp) <= 196 + (budget - MinimumBudget()) {
      forall e | InSchema(e) && Chooses(e, s, error, messageId, timestamp) ensures Admitted(e, budget) {
        WorstIsLargest(e);
      }
    } else {
      assert !Admitted(w, budget);
    }
  }

  /** What the constant was made for: a UUID-length message id, a 24-character timestamp and an error
      that is null or at most 128 unescaped ASCII characters. */
  ghost predicate AsIntended(e: StatusEvent) {
    InSchema(e) && |e.messageId| == 36 && IsPlain(e.messageId) && |e.timestamp| == 24
    && (e.error.Some? ==> |e.error.value| <= 128 && IsPlain(e.error.value))
  }

  ghost predicate AllIntendedAdmitted(s: Status, error: Option<Text>, budget: int) {
    forall e :: AsIntended(e) && e.status == s && e.error == error ==> Admitted(e, budget)
  }

  /** For any status and error of that kind, all such events fit a budget exactly when status and error
      are together no longer than in the event of the minimum, give or take what it has to spare. */
  lemma IntendedAdmittedExactly(s: Status, error: Option<Text>, budget: int)
    requires 1 <= budget <= MAX_SAFE_INTEGER && (error.Some? ==> |error.value| <= 128 && IsPlain(error.value))
    ensures AllIntendedAdmitted(s, error, budget) <==>
            |StatusText(s)| + (if error.None? then 4 else |error.value| + 2) <= 136 + (budget - MinimumBudget())
  {
    if error.Some? {
      PlainEscape(error.value);
    }
    PlainEscape(ZERO_ID);
    LastTimeIsGood();
    WorstSize(s, error, ZERO_ID, LAST_TIME);
    var w := Worst(s, error, ZERO_ID, LAST_TIME);
    assert AsIntended(w);
    if |StatusText(s)| + ErrorSize(error) <= 136 + (budget - MinimumBudget()) {
      forall e | AsIntended(e) && e.status == s && e.error == error ensures Admitted(e, budget) {
        IntendedIsBounded(e);
      }
    } else {
      assert !Admitted(w, budget);
    }
  }

  lemma IntendedIsBounded(e: StatusEvent)
    requires AsIntended(e)
    ensures Bytes(EventText(e)) <= MinimumBudget() - 136 + |StatusText(e.status)| + ErrorSize(e.error)
  {
    PlainEscape(e.messageId);
    TimestampIsPlain(e.timestamp);
    WorstIsLargest(e);
    WorstSize(e.status, e.error, e.messageId, e.timestamp);
  }

  /** Failures of that kind, and events of any status without an error, fit every budget from the
      minimum on. */
  lemma FailuresAreAdmitted(e: StatusEvent, budget: int)
    requires AsIntended(e) && MinimumBudget() <= budget <= MAX_SAFE_INTEGER
    requires e.status == Failed || e.error.None?
    ensures Admitted(e, budget)
  {
    StatusIsPlain(e.status);
    PlainEscape(e.messageId);
    if e.error.Some? {
      PlainEscape(e.error.value);
    }
    AdmitsWhateverTheIdentifiers(e.status, e.error, e.messageId, e.timestamp, budget);
    assert Chooses(e, e.status, e.error, e.messageId, e.timestamp);
  }

  lemma LastMinute()
    ensures IsMinute(LAST_TIME[..16])
  {
  }

  lemma LastSecond()
    ensures IsSecond(LAST_TIME[16..23])
  {
    var t, u := LAST_TIME, LAST_TIME[16..23];
    assert t[16] == 0x3A && t[17] == 0x35 && t[18] == 0x39 && t[19] == POINT && t[20] == t[21] == t[22] == 0x39;
    assert u[0] == t[16] && u[1] == t[17] && u[2] == t[18];
    var f := u[3..];
    assert |f| == 4 && f[0] == t[19] && f[1] == t[20] && f[2] == t[21] && f[3] == t[22];
  }

  lemma LastTimeIsGood()
    ensures IsTimestamp(LAST_TIME) && |LAST_TIME| == 24
  {
    LastMinute();
    LastSecond();
  }

  /** The minimum is not enough for every such event: "cancelled" is three characters longer than the
      "failed" it was computed with. */
  lemma MinimumMissesCancellation()
    ensures var e := Worst(Cancelled, Some(LongestFailure()), ZERO_ID, LAST_TIME);
            AsIntended(e) && !Admitted(e, MinimumBudget())
  {
    LastTimeIsGood();
    WorstSize(Cancelled, Some(LongestFailure()), ZERO_ID, LAST_TIME);
    MinimumChosen();
    StatusIsPlain(Cancelled);
    StatusIsPlain(Failed);
  }
}
