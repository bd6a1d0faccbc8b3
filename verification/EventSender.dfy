/** Telemetry batches as JSON text. Numbers and the time stamp arrive as text already formatted: a
    number as a stream writes it, finite or not, and the time stamp as digits and separators. */
module EventSender {
  import opened PolicyTypes
  import opened Utf8
  import opened Json
  import opened JsonUtf8
  import opened JsonWriter

  type StreamedNumber = s: Bytes | Streamed(s) witness [0x30]

  datatype TelemetryEvent = TelemetryEvent(
    eventType: Bytes, filePath: Bytes, fileName: Bytes, username: Bytes, processName: Bytes,
    classification: Bytes, riskLevel: Bytes, score: StreamedNumber, fileSize: StreamedNumber, wasBlocked: bool,
    blockReason: Bytes, timestamp: Label, keywords: seq<Bytes>)

  /** The names of the fields. What follows holds for any plain names; `NAMES` are those written. */
  datatype FieldNames = FieldNames(
    eventType: Label, filePath: Label, fileName: Label, username: Label, processName: Label,
    classification: Label, riskLevel: Label, score: Label, fileSize: Label, wasBlocked: Label,
    blockReason: Label, timestamp: Label, keywords: Label, deviceId: Label, events: Label)

  predicate PlainName(name: string) {
    forall i :: 0 <= i < |name| ==> ' ' <= name[i] <= '~' && name[i] != '"' && name[i] != '\\'
  }

  function Ascii(name: string): Label
    requires PlainName(name)
  {
    seq(|name|, i requires 0 <= i < |name| => name[i] as int)
  }

  const EVENT_TYPE := Ascii("event_type")
  const FILE_PATH := Ascii("file_path")
  const FILE_NAME := Ascii("file_name")
  const USERNAME := Ascii("username")
  const PROCESS_NAME := Ascii("process_name")
  const CLASSIFICATION := Ascii("classification")
  const RISK_LEVEL := Ascii("risk_level")
  const CLASSIFICATION_SCORE := Ascii("classification_score")
  const FILE_SIZE := Ascii("file_size")
  const WAS_BLOCKED := Ascii("was_blocked")
  const BLOCK_REASON := Ascii("block_reason")
  const TIMESTAMP := Ascii("timestamp")
  const KEYWORDS_FOUND := Ascii("keywords_found")
  const DEVICE_ID := Ascii("device_id")
  const EVENTS := Ascii("events")

  const NAMES := FieldNames(
    EVENT_TYPE, FILE_PATH, FILE_NAME, USERNAME, PROCESS_NAME,
    CLASSIFICATION, RISK_LEVEL, CLASSIFICATION_SCORE, FILE_SIZE, WAS_BLOCKED,
    BLOCK_REASON, TIMESTAMP, KEYWORDS_FOUND, DEVICE_ID, EVENTS)

  /** The fields in the order in which they are written. */
  function EventMembers(n: FieldNames, e: TelemetryEvent): seq<Member> {
    [ Member(n.eventType, Str(e.eventType)),
      Member(n.filePath, Str(e.filePath)),
      Member(n.fileName, Str(e.fileName)),
      Member(n.username, Str(e.username)),
      Member(n.processName, Str(e.processName)),
      Member(n.classification, Str(e.classification)),
      Member(n.riskLevel, Str(e.riskLevel)),
      Member(n.score, Num(e.score)),
      Member(n.fileSize, Num(e.fileSize)),
      Member(n.wasBlocked, Bool(e.wasBlocked)),
      Member(n.blockReason, Str(e.blockReason)),
      Member(n.timestamp, Str(e.timestamp)),
      Member(n.keywords, Arr(Strings(e.keywords))) ]
  }

  /** The same, field by field. */
  ghost predicate Fields(ms: seq<Member>, n: FieldNames, e: TelemetryEvent) {
    && |ms| == 13
    && ms[0] == Member(n.eventType, Str(e.eventType)) && ms[1] == Member(n.filePath, Str(e.filePath))
    && ms[2] == Member(n.fileName, Str(e.fileName)) && ms[3] == Member(n.username, Str(e.username))
    && ms[4] == Member(n.processName, Str(e.processName))
    && ms[5] == Member(n.classification, Str(e.classification)) && ms[6] == Member(n.riskLevel, Str(e.riskLevel))
    && ms[7] == Member(n.score, Num(e.score)) && ms[8] == Member(n.fileSize, Num(e.fileSize))
    && ms[9] == Member(n.wasBlocked, Bool(e.wasBlocked)) && ms[10] == Member(n.blockReason, Str(e.blockReason))
    && ms[11] == Member(n.timestamp, Str(e.timestamp)) && ms[12] == Member(n.keywords, Arr(Strings(e.keywords)))
  }

  lemma {:induction false} MembersAre(n: FieldNames, e: TelemetryEvent)
    ensures Fields(EventMembers(n, e), n, e)
  {
  }

  function EventValue(n: FieldNames, e: TelemetryEvent): Value {
    Obj(EventMembers(n, e))
  }

  function EventValues(n: FieldNames, batch: seq<TelemetryEvent>): (vs: seq<Value>)
    ensures |vs| == |batch| && forall i :: 0 <= i < |batch| ==> vs[i] == EventValue(n, batch[i])
  {
    seq(|batch|, i requires 0 <= i < |batch| => EventValue(n, batch[i]))
  }

  function BatchMembers(n: FieldNames, deviceId: Bytes, batch: seq<TelemetryEvent>): seq<Member> {
    [Member(n.deviceId, Str(deviceId)), Member(n.events, Arr(EventValues(n, batch)))]
  }

  function BatchValue(n: FieldNames, deviceId: Bytes, batch: seq<TelemetryEvent>): Value {
    Obj(BatchMembers(n, deviceId, batch))
  }

  // ---- The writers ----

  method FrontFields(n: FieldNames, e: TelemetryEvent, ghost ms: seq<Member>) returns (out: Bytes)
    requires Fields(ms, n, e)
    ensures FieldsUpTo(ms, 2, out)
  {
    NoFields(ms);
    out := TextField([], n.eventType, e.eventType, ms, 0);
    out := TextField(out, n.filePath, e.filePath, ms, 1);
  }

  method FileFields(front: Bytes, n: FieldNames, e: TelemetryEvent, ghost ms: seq<Member>) returns (out: Bytes)
    requires Fields(ms, n, e) && FieldsUpTo(ms, 2, front)
    ensures FieldsUpTo(ms, 4, out)
  {
    out := TextField(front, n.fileName, e.fileName, ms, 2);
    out := TextField(out, n.username, e.username, ms, 3);
  }

  method ClassFields(front: Bytes, n: FieldNames, e: TelemetryEvent, ghost ms: seq<Member>) returns (out: Bytes)
    requires Fields(ms, n, e) && FieldsUpTo(ms, 4, front)
    ensures FieldsUpTo(ms, 7, out)
  {
    out := TextField(front, n.processName, e.processName, ms, 4);
    out := TextField(out, n.classification, e.classification, ms, 5);
    out := TextField(out, n.riskLevel, e.riskLevel, ms, 6);
  }

  method MiddleFields(front: Bytes, n: FieldNames, e: TelemetryEvent, ghost ms: seq<Member>) returns (out: Bytes)
    requires Fields(ms, n, e) && FieldsUpTo(ms, 7, front)
    ensures FieldsUpTo(ms, 12, out)
  {
    out := TokenField(front, n.score, e.score, ms, 7);
    out := TokenField(out, n.fileSize, e.fileSize, ms, 8);
    out := TokenField(out, n.wasBlocked, if e.wasBlocked then TRUE else FALSE, ms, 9);
    out := TextField(out, n.blockReason, e.blockReason, ms, 10);
    out := LabelField(out, n.timestamp, e.timestamp, ms, 11);
  }

  method LastField(front: Bytes, n: FieldNames, e: TelemetryEvent, ghost ms: seq<Member>) returns (out: Bytes)
    requires Fields(ms, n, e) && FieldsUpTo(ms, 12, front)
    ensures out == PrintMembers(ms)
  {
    var keywords := WriteStrings(e.keywords);
    KeyOpens(n.keywords, Arr(Strings(e.keywords)));
    AllFields(ms, front);
    out := front + (Key(n.keywords) + ([0x5B] + keywords + [0x5D]));
  }

  /** The thirteen fields one by one, the time stamp as it stands, then the closing brace. */
  method SerializeEvent(n: FieldNames, e: TelemetryEvent) returns (out: Bytes)
    ensures out == Print(EventValue(n, e))
  {
    ghost var ms := EventMembers(n, e);
    MembersAre(n, e);
    out := FrontFields(n, e, ms);
    out := FileFields(out, n, e, ms);
    out := ClassFields(out, n, e, ms);
    out := MiddleFields(out, n, e, ms);
    out := LastField(out, n, e, ms);
    out := [0x7B] + out + [0x7D];
  }

  method WriteEvents(n: FieldNames, batch: seq<TelemetryEvent>) returns (out: Bytes)
    ensures out == PrintItems(EventValues(n, batch))
  {
    ghost var texts, vs := [], EventValues(n, batch);
    out := [];
    for i := 0 to |batch|
      invariant Written(vs, i, texts, out)
    {
      var text := SerializeEvent(n, batch[i]);
      WrittenOne(vs, i, texts, out, text);
      texts := texts + [text];
      out := Append(out, i == 0, text);
    }
    PrintItemsJoins(vs, texts);
  }

  method WriteBatch(n: FieldNames, deviceId: Bytes, batch: seq<TelemetryEvent>) returns (out: Bytes)
    ensures out == Print(BatchValue(n, deviceId, batch))
  {
    ghost var ms := BatchMembers(n, deviceId, batch);
    NoFields(ms);
    var device := TextField([], n.deviceId, deviceId, ms, 0);
    var events := WriteEvents(n, batch);
    KeyOpens(n.events, Arr(EventValues(n, batch)));
    AllFields(ms, device);
    out := [0x7B] + (device + (Key(n.events) + ([0x5B] + events + [0x5D]))) + [0x7D];
  }

  /** The batch text is the JSON object of device id and events, in order. It is JSON if and only if
      every score and size is a number, and UTF-8 if and only if every string field is. */
  method SerializeBatch(deviceId: Bytes, batch: seq<TelemetryEvent>) returns (out: Bytes)
    ensures out == Print(BatchValue(NAMES, deviceId, batch))
    ensures (forall i :: 0 <= i < |batch| ==> Finite(batch[i])) ==> ReadsBack(out, deviceId, batch)
    ensures Parses(out) <==> forall i :: 0 <= i < |batch| ==> Finite(batch[i])
    ensures WellFormed(out) <==> WellFormed(deviceId) && forall i :: 0 <= i < |batch| ==> Utf8Event(batch[i])
  {
    out := WriteBatch(NAMES, deviceId, batch);
    BatchParsesIff(NAMES, deviceId, batch);
    BatchUtf8Iff(NAMES, deviceId, batch);
    if forall i :: 0 <= i < |batch| ==> Finite(batch[i]) {
      BatchReadsBack(deviceId, batch);
    }
  }

  // ---- Reading a batch back ----

  lemma {:induction false} StringItems(ks: seq<Bytes>)
    ensures ProperItems(Strings(ks)) && StreamedItems(Strings(ks))
  {
    ProperEachItem(Strings(ks));
    StreamedEachItem(Strings(ks));
  }

  lemma {:induction false} ProperEach(ms: seq<Member>)
    ensures ProperMembers(ms) <==> forall i :: 0 <= i < |ms| ==> Proper(ms[i].value)
    decreases |ms|
  {
    if ms != [] {
      ProperEach(ms[1..]);
      assert forall i :: 1 <= i < |ms| ==> ms[i] == ms[1..][i - 1];
    }
  }

  lemma {:induction false} StreamedEach(ms: seq<Member>)
    requires forall i :: 0 <= i < |ms| ==> StreamedIn(ms[i].value)
    ensures StreamedMembers(ms)
    decreases |ms|
  {
    if ms != [] {
      StreamedEach(ms[1..]);
    }
  }

  /** The score and the size are numbers: a score that is not finite is not. */
  ghost predicate Finite(e: TelemetryEvent) {
    Number(e.score) && Number(e.fileSize)
  }

  lemma {:induction false} EventProperIff(n: FieldNames, e: TelemetryEvent)
    ensures Proper(EventValue(n, e)) <==> Finite(e)
    ensures StreamedIn(EventValue(n, e))
  {
    MembersAre(n, e);
    FieldsProperIff(EventMembers(n, e), n, e);
  }

  lemma {:induction false} FieldsProperIff(ms: seq<Member>, n: FieldNames, e: TelemetryEvent)
    requires Fields(ms, n, e)
    ensures (ProperMembers(ms) <==> Finite(e)) && StreamedMembers(ms)
  {
    ProperEach(ms);
    StringItems(e.keywords);
    FieldsStreamed(ms, n, e);
    assert Proper(ms[7].value) <==> Number(e.score);
    assert Proper(ms[8].value) <==> Number(e.fileSize);
  }

  lemma {:induction false} FieldsStreamed(ms: seq<Member>, n: FieldNames, e: TelemetryEvent)
    requires Fields(ms, n, e)
    ensures StreamedMembers(ms)
  {
    StringItems(e.keywords);
    StreamedEach(ms);
  }

  lemma {:induction false} ProperEachItem(vs: seq<Value>)
    ensures ProperItems(vs) <==> forall i :: 0 <= i < |vs| ==> Proper(vs[i])
    decreases |vs|
  {
    if vs != [] {
      ProperEachItem(vs[1..]);
      assert forall i :: 1 <= i < |vs| ==> vs[i] == vs[1..][i - 1];
    }
  }

  lemma {:induction false} StreamedEachItem(vs: seq<Value>)
    requires forall i :: 0 <= i < |vs| ==> StreamedIn(vs[i])
    ensures StreamedItems(vs)
    decreases |vs|
  {
    if vs != [] {
      StreamedEachItem(vs[1..]);
    }
  }

  lemma {:induction false} EventsProperIff(n: FieldNames, batch: seq<TelemetryEvent>, vs: seq<Value>)
    requires vs == EventValues(n, batch)
    ensures ProperItems(vs) <==> forall i :: 0 <= i < |batch| ==> Finite(batch[i])
    ensures StreamedItems(vs)
  {
    forall i | 0 <= i < |batch|
      ensures (Proper(vs[i]) <==> Finite(batch[i])) && StreamedIn(vs[i])
    {
      EventProperIff(n, batch[i]);
    }
    ProperEachItem(vs);
    StreamedEachItem(vs);
  }

  lemma {:induction false} PairProper(a: Member, b: Member)
    ensures ProperMembers([a, b]) <==> Proper(a.value) && Proper(b.value)
    ensures StreamedMembers([a, b]) <==> StreamedIn(a.value) && StreamedIn(b.value)
  {
    assert [a, b][1..] == [b] && [b][1..] == [];
    assert ProperMembers([b]) <==> Proper(b.value);
    assert StreamedMembers([b]) <==> StreamedIn(b.value);
  }

  lemma {:induction false} ObjectProper(n: FieldNames, deviceId: Bytes, vs: seq<Value>)
    ensures var v := Obj([Member(n.deviceId, Str(deviceId)), Member(n.events, Arr(vs))]);
      (Proper(v) <==> ProperItems(vs)) && (StreamedIn(v) <==> StreamedItems(vs))
  {
    PairProper(Member(n.deviceId, Str(deviceId)), Member(n.events, Arr(vs)));
  }

  lemma {:induction false} BatchProperIff(n: FieldNames, deviceId: Bytes, batch: seq<TelemetryEvent>)
    ensures Proper(BatchValue(n, deviceId, batch)) <==> forall i :: 0 <= i < |batch| ==> Finite(batch[i])
    ensures StreamedIn(BatchValue(n, deviceId, batch))
  {
    EventsProperIff(n, batch, EventValues(n, batch));
    ObjectProper(n, deviceId, EventValues(n, batch));
  }

  /** The text of a batch is JSON if and only if every score and size in it is a number; then a
      parser reads the device id and every field of every event back, each string ending at its own
      closing quote, whatever bytes the fields hold. */
  lemma {:induction false} BatchParsesIff(n: FieldNames, deviceId: Bytes, batch: seq<TelemetryEvent>)
    ensures Parses(Print(BatchValue(n, deviceId, batch))) <==> forall i :: 0 <= i < |batch| ==> Finite(batch[i])
    ensures (forall i :: 0 <= i < |batch| ==> Finite(batch[i])) ==>
      ParseValue(Print(BatchValue(n, deviceId, batch))) == Some((BatchValue(n, deviceId, batch), []))
  {
    BatchProperIff(n, deviceId, batch);
    ParsesIff(BatchValue(n, deviceId, batch));
  }

  /** The bytes are the characters of this name. */
  ghost predicate Spells(bytes: Bytes, name: string) {
    |bytes| == |name| && forall i :: 0 <= i < |name| ==> bytes[i] == name[i] as int
  }

  ghost predicate Named(m: Member, name: string, v: Value) {
    Spells(m.name, name) && m.value == v
  }

  /** The members of an event, name by name. */
  ghost predicate EventReads(v: Value, e: TelemetryEvent) {
    && v.Obj? && |v.members| == 13
    && Named(v.members[0], "event_type", Str(e.eventType))
    && Named(v.members[1], "file_path", Str(e.filePath))
    && Named(v.members[2], "file_name", Str(e.fileName))
    && Named(v.members[3], "username", Str(e.username))
    && Named(v.members[4], "process_name", Str(e.processName))
    && Named(v.members[5], "classification", Str(e.classification))
    && Named(v.members[6], "risk_level", Str(e.riskLevel))
    && Named(v.members[7], "classification_score", Num(e.score))
    && Named(v.members[8], "file_size", Num(e.fileSize))
    && Named(v.members[9], "was_blocked", Bool(e.wasBlocked))
    && Named(v.members[10], "block_reason", Str(e.blockReason))
    && Named(v.members[11], "timestamp", Str(e.timestamp))
    && Spells(v.members[12].name, "keywords_found") && KeywordsRead(v.members[12].value, e.keywords)
  }

  ghost predicate KeywordsRead(v: Value, keywords: seq<Bytes>) {
    v.Arr? && |v.items| == |keywords| && forall i :: 0 <= i < |keywords| ==> v.items[i] == Str(keywords[i])
  }

  ghost predicate BatchReads(v: Value, deviceId: Bytes, batch: seq<TelemetryEvent>) {
    && v.Obj? && |v.members| == 2 && Named(v.members[0], "device_id", Str(deviceId))
    && Spells(v.members[1].name, "events") && v.members[1].value.Arr? && |v.members[1].value.items| == |batch|
    && forall i :: 0 <= i < |batch| ==> EventReads(v.members[1].value.items[i], batch[i])
  }

  /** A parser reads the whole text, and reads this batch. */
  ghost predicate ReadsBack(text: Bytes, deviceId: Bytes, batch: seq<TelemetryEvent>) {
    && ParseValue(text).Some? && ParseValue(text).value.1 == []
    && BatchReads(ParseValue(text).value.0, deviceId, batch)
  }

  lemma {:induction false} NamesRead(e: TelemetryEvent)
    ensures EventReads(EventValue(NAMES, e), e)
  {
    MembersAre(NAMES, e);
  }

  /** If every score and size is a number, a parser reads back the device id and every field of every
      event under its own name, in order. */
  lemma {:induction false} BatchReadsBack(deviceId: Bytes, batch: seq<TelemetryEvent>)
    requires forall i :: 0 <= i < |batch| ==> Finite(batch[i])
    ensures ReadsBack(Print(BatchValue(NAMES, deviceId, batch)), deviceId, batch)
  {
    BatchParsesIff(NAMES, deviceId, batch);
    var v := BatchValue(NAMES, deviceId, batch);
    assert v.members[1].value.items == EventValues(NAMES, batch);
    forall i | 0 <= i < |batch|
      ensures EventReads(v.members[1].value.items[i], batch[i])
    {
      NamesRead(batch[i]);
    }
  }

  const NAN: Bytes := [0x6E, 0x61, 0x6E]

  /** One score that is not a number makes the whole batch unreadable. */
  lemma {:induction false} NanScoreFails(n: FieldNames, deviceId: Bytes, before: seq<TelemetryEvent>, e: TelemetryEvent,
                                         after: seq<TelemetryEvent>)
    requires e.score == NAN
    ensures !Parses(Print(BatchValue(n, deviceId, before + [e] + after)))
  {
    var batch := before + [e] + after;
    assert batch[|before|] == e;
    assert DigitsLength(NAN) == 0;
    BatchParsesIff(n, deviceId, batch);
  }

  /** Different readable batches never have the same text. */
  lemma {:induction false} BatchTextInjective(n: FieldNames, d: Bytes, batch: seq<TelemetryEvent>,
                                              d': Bytes, batch': seq<TelemetryEvent>)
    requires forall i :: 0 <= i < |batch| ==> Finite(batch[i])
    requires forall i :: 0 <= i < |batch'| ==> Finite(batch'[i])
    requires Print(BatchValue(n, d, batch)) == Print(BatchValue(n, d', batch'))
    ensures d == d' && batch == batch'
  {
    BatchParsesIff(n, d, batch);
    BatchParsesIff(n, d', batch');
    var ms, ms' := BatchMembers(n, d, batch), BatchMembers(n, d', batch');
    assert ms[0].value == ms'[0].value && ms[1].value == ms'[1].value;
    assert EventValues(n, batch) == EventValues(n, batch');
    forall i | 0 <= i < |batch|
      ensures batch[i] == batch'[i]
    {
      EventValueInjective(n, batch[i], batch'[i]);
    }
  }

  lemma {:induction false} EventValueInjective(n: FieldNames, e: TelemetryEvent, f: TelemetryEvent)
    requires EventValue(n, e) == EventValue(n, f)
    ensures e == f
  {
    MembersAre(n, e);
    MembersAre(n, f);
    FieldsInjective(EventMembers(n, e), n, e, f);
  }

  lemma {:induction false} FieldsInjective(ms: seq<Member>, n: FieldNames, e: TelemetryEvent, f: TelemetryEvent)
    requires Fields(ms, n, e) && Fields(ms, n, f)
    ensures e == f
  {
    forall i | 0 <= i < |e.keywords|
      ensures e.keywords[i] == f.keywords[i]
    {
      assert Strings(e.keywords)[i] == Strings(f.keywords)[i];
    }
  }

  // ---- The encoding of a batch ----

  /** The same as `WellFormed`, kept folded. */
  ghost predicate Utf8Text(s: Bytes) {
    forall x :: x == s ==> WellFormed(x)
  }

  ghost predicate Utf8Front(e: TelemetryEvent) {
    && Utf8Text(e.eventType) && Utf8Text(e.filePath) && Utf8Text(e.fileName) && Utf8Text(e.username)
    && Utf8Text(e.processName) && Utf8Text(e.classification) && Utf8Text(e.riskLevel)
  }

  /** Every string field and every keyword is UTF-8. */
  ghost predicate Utf8Event(e: TelemetryEvent) {
    && Utf8Front(e) && Utf8Text(e.blockReason)
    && forall i :: 0 <= i < |e.keywords| ==> WellFormed(e.keywords[i])
  }

  /** The same as `Utf8In`, kept folded. */
  ghost predicate Utf8Value(v: Value) {
    forall x :: x == v ==> Utf8In(x)
  }

  lemma {:induction false} Utf8Each(ms: seq<Member>)
    requires forall i :: 0 <= i < |ms| ==> Ascii7(ms[i].name)
    ensures Utf8Members(ms) <==> forall i :: 0 <= i < |ms| ==> Utf8Value(ms[i].value)
    decreases |ms|
  {
    if ms != [] {
      Utf8Each(ms[1..]);
      AsciiWellFormed(ms[0].name);
      assert Utf8Value(ms[0].value) <==> Utf8In(ms[0].value);
      assert forall i :: 1 <= i < |ms| ==> ms[i] == ms[1..][i - 1];
    }
  }

  lemma {:induction false} Utf8Strings(ks: seq<Bytes>)
    ensures Utf8Items(Strings(ks)) <==> forall i :: 0 <= i < |ks| ==> WellFormed(ks[i])
  {
    Utf8EachItem(Strings(ks));
    assert forall i :: 0 <= i < |ks| ==> (Utf8In(Strings(ks)[i]) <==> WellFormed(ks[i]));
  }

  lemma {:induction false} EventUtf8Iff(n: FieldNames, e: TelemetryEvent)
    ensures Utf8In(EventValue(n, e)) <==> Utf8Event(e)
  {
    MembersAre(n, e);
    FieldsUtf8Iff(EventMembers(n, e), n, e);
  }

  lemma {:induction false} FieldsUtf8Iff(ms: seq<Member>, n: FieldNames, e: TelemetryEvent)
    requires Fields(ms, n, e)
    ensures Utf8Members(ms) <==> Utf8Event(e)
  {
    Utf8Each(ms);
    FrontUtf8(ms, n, e);
    BackUtf8(ms, n, e);
    assert Utf8Members(ms) ==> Utf8Value(ms[0].value) && Utf8Value(ms[10].value) && Utf8Value(ms[12].value);
  }

  lemma {:induction false} FrontUtf8(ms: seq<Member>, n: FieldNames, e: TelemetryEvent)
    requires Fields(ms, n, e)
    ensures (forall i :: 0 <= i < 7 ==> Utf8Value(ms[i].value)) <==> Utf8Front(e)
  {
    StrUtf8(e.eventType);
    StrUtf8(e.filePath);
    StrUtf8(e.fileName);
    StrUtf8(e.username);
    StrUtf8(e.processName);
    StrUtf8(e.classification);
    StrUtf8(e.riskLevel);
    if forall i :: 0 <= i < 7 ==> Utf8Value(ms[i].value) {
      assert Utf8Value(ms[0].value) && Utf8Value(ms[1].value) && Utf8Value(ms[2].value) && Utf8Value(ms[3].value);
      assert Utf8Value(ms[4].value) && Utf8Value(ms[5].value) && Utf8Value(ms[6].value);
    }
  }

  lemma {:induction false} StrUtf8(s: Bytes)
    ensures Utf8Value(Str(s)) <==> Utf8Text(s)
  {
    assert Utf8Value(Str(s)) <==> Utf8In(Str(s));
    assert Utf8Text(s) <==> WellFormed(s);
  }

  lemma {:induction false} BackUtf8(ms: seq<Member>, n: FieldNames, e: TelemetryEvent)
    requires Fields(ms, n, e)
    ensures forall i :: 7 <= i < 10 || i == 11 ==> Utf8Value(ms[i].value)
    ensures Utf8Value(ms[10].value) <==> Utf8Text(e.blockReason)
    ensures Utf8Value(ms[12].value) <==> forall i :: 0 <= i < |e.keywords| ==> WellFormed(e.keywords[i])
  {
    AsciiWellFormed(e.timestamp);
    StrUtf8(e.timestamp);
    StrUtf8(e.blockReason);
    Utf8Strings(e.keywords);
    assert Utf8Value(ms[12].value) <==> Utf8In(Arr(Strings(e.keywords)));
    assert Utf8In(ms[7].value) && Utf8In(ms[8].value) && Utf8In(ms[9].value);
    assert Utf8Text(e.timestamp);
  }

  lemma {:induction false} Utf8EachItem(vs: seq<Value>)
    ensures Utf8Items(vs) <==> forall i :: 0 <= i < |vs| ==> Utf8In(vs[i])
    decreases |vs|
  {
    if vs != [] {
      Utf8EachItem(vs[1..]);
      assert forall i :: 1 <= i < |vs| ==> vs[i] == vs[1..][i - 1];
    }
  }

  lemma {:induction false} EventsUtf8Iff(n: FieldNames, batch: seq<TelemetryEvent>, vs: seq<Value>)
    requires vs == EventValues(n, batch)
    ensures Utf8Items(vs) <==> forall i :: 0 <= i < |batch| ==> Utf8Event(batch[i])
  {
    forall i | 0 <= i < |batch|
      ensures Utf8In(vs[i]) <==> Utf8Event(batch[i])
    {
      EventUtf8Iff(n, batch[i]);
    }
    Utf8EachItem(vs);
  }

  /** The text of a batch is UTF-8 if and only if the device id and every string field are. */
  lemma {:induction false} BatchUtf8Iff(n: FieldNames, deviceId: Bytes, batch: seq<TelemetryEvent>)
    ensures WellFormed(Print(BatchValue(n, deviceId, batch))) <==>
      WellFormed(deviceId) && forall i :: 0 <= i < |batch| ==> Utf8Event(batch[i])
  {
    var ms := BatchMembers(n, deviceId, batch);
    BatchProperIff(n, deviceId, batch);
    PrintUtf8Iff(BatchValue(n, deviceId, batch));
    Utf8Each(ms);
    EventsUtf8Iff(n, batch, EventValues(n, batch));
    assert Utf8Value(ms[0].value) <==> Utf8In(Str(deviceId));
    assert Utf8Value(ms[1].value) <==> Utf8In(Arr(EventValues(n, batch)));
  }
}
