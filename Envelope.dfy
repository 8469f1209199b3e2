/**
  The message envelope of a Maelstrom node: `Message<T>` with `src`, `dest`
  and a `Body<T>` holding the two optional `u32` correlation ids beside a
  payload whose fields are flattened into the body object.

  Rust's type argument `T` fixes, at compile time, which payload struct a
  line is read as; here `Kind` plays that role and `Payload` holds the
  payload structs the repository declares. Decoding never looks at the
  value under `"type"` to choose a payload: the caller's `Kind` does.

  Encoding and decoding follow the derived serde implementations:
  an absent `Option` is written as `null` (no skip attribute is present),
  a missing or `null` optional key reads as `None`, a known key seen twice
  is an error, unknown keys are ignored, and an id must fit in a `u32`.
 */
module Envelope {
  import opened Wrappers
  import opened Json

  /** Rust's `u32`. */
  type U32 = n: int | 0 <= n < 0x1_0000_0000

  /** The payload structs: `Init`, `InitOk`, `Echo` and the tests' `Payload { key, _type }`. */
  datatype Payload =
    | Init(typ: string, nodeId: string, nodeIds: seq<string>)
    | InitOk(typ: string)
    | Echo(typ: string, echo: string)
    | Keyed(key: U32, typ: string)

  /** Which payload struct a line is read as (the type argument of `Message<T>`). */
  datatype Kind = InitKind | InitOkKind | EchoKind | KeyedKind

  function KindOf(p: Payload): Kind
  {
    match p
    case Init(_, _, _) => InitKind
    case InitOk(_) => InitOkKind
    case Echo(_, _) => EchoKind
    case Keyed(_, _) => KeyedKind
  }

  datatype Body = Body(msgId: Option<U32>, inReplyTo: Option<U32>, payload: Payload)

  datatype Message = Message(src: string, dest: string, body: Body)

  /** Why a derived deserializer refuses a value; `NotJson` is a line that is not JSON text at all. */
  datatype DecodeError =
    | NotJson
    | InvalidType(field: string)
    | OutOfRange(field: string)
    | MissingField(field: string)
    | DuplicateField(field: string)
    | InvalidLength

  type Members = seq<(string, Json)>

  // ---------------------------------------------------------------- encoding

  function EncodeId(id: Option<U32>): Json
  {
    match id
    case None => JNull
    case Some(n) => JNumber(n)
  }

  function EncodeStrings(ss: seq<string>): seq<Json>
  {
    if |ss| == 0 then [] else [JString(ss[0])] + EncodeStrings(ss[1..])
  }

  /** The payload's fields, in declaration order, under their wire names. */
  function PayloadMembers(p: Payload): Members
  {
    match p
    case Init(t, id, ids) => [("type", JString(t)), ("node_id", JString(id)), ("node_ids", JArray(EncodeStrings(ids)))]
    case InitOk(t) => [("type", JString(t))]
    case Echo(t, e) => [("type", JString(t)), ("echo", JString(e))]
    case Keyed(k, t) => [("key", JNumber(k)), ("type", JString(t))]
  }

  /** `msg_id` and `in_reply_to` first, then the flattened payload fields at the same level. */
  function BodyMembers(b: Body): Members
  {
    [("msg_id", EncodeId(b.msgId)), ("in_reply_to", EncodeId(b.inReplyTo))] + PayloadMembers(b.payload)
  }

  function EncodeBody(b: Body): Json
  {
    JObject(BodyMembers(b))
  }

  function EncodeMessage(m: Message): Json
  {
    JObject([("src", JString(m.src)), ("dest", JString(m.dest)), ("body", EncodeBody(m.body))])
  }

  // ---------------------------------------------------------------- decoding

  /** A required field: it must occur exactly once. */
  function Field(ms: Members, key: string): Result<Json, DecodeError>
  {
    match Find(ms, key)
    case Absent => Err(MissingField(key))
    case Repeated => Err(DuplicateField(key))
    case Present(v) => Ok(v)
  }

  function StringField(ms: Members, key: string): Result<string, DecodeError>
  {
    var v :- Field(ms, key);
    if v.JString? then Ok(v.s) else Err(InvalidType(key))
  }

  function DecodeU32(v: Json, key: string): Result<U32, DecodeError>
  {
    if !v.JNumber? then Err(InvalidType(key))
    else if 0 <= v.n < 0x1_0000_0000 then Ok(v.n)
    else Err(OutOfRange(key))
  }

  function U32Field(ms: Members, key: string): Result<U32, DecodeError>
  {
    var v :- Field(ms, key);
    DecodeU32(v, key)
  }

  /** An `Option<u32>` field: a missing key and `null` both read as `None`. */
  function IdField(ms: Members, key: string): Result<Option<U32>, DecodeError>
  {
    match Find(ms, key)
    case Absent => Ok(None)
    case Repeated => Err(DuplicateField(key))
    case Present(v) =>
      if v.JNull? then Ok(None)
      else
        var n :- DecodeU32(v, key);
        Ok(Some(n))
  }

  function DecodeStrings(items: seq<Json>, key: string): Result<seq<string>, DecodeError>
  {
    if |items| == 0 then Ok([])
    else if !items[0].JString? then Err(InvalidType(key))
    else
      var rest :- DecodeStrings(items[1..], key);
      Ok([items[0].s] + rest)
  }

  function StringListField(ms: Members, key: string): Result<seq<string>, DecodeError>
  {
    var v :- Field(ms, key);
    if v.JArray? then DecodeStrings(v.items, key) else Err(InvalidType(key))
  }

  /**
    Reads the payload struct of the given kind from the body's members. With
    `#[serde(flatten)]` the payload sees the body's members other than
    `msg_id` and `in_reply_to`; no payload field has either name, so reading
    from all members is the same.
   */
  function DecodePayload(ms: Members, kind: Kind): Result<Payload, DecodeError>
  {
    match kind
    case InitKind =>
      var t :- StringField(ms, "type");
      var id :- StringField(ms, "node_id");
      var ids :- StringListField(ms, "node_ids");
      Ok(Init(t, id, ids))
    case InitOkKind =>
      var t :- StringField(ms, "type");
      Ok(InitOk(t))
    case EchoKind =>
      var t :- StringField(ms, "type");
      var e :- StringField(ms, "echo");
      Ok(Echo(t, e))
    case KeyedKind =>
      var k :- U32Field(ms, "key");
      var t :- StringField(ms, "type");
      Ok(Keyed(k, t))
  }

  function DecodeBody(j: Json, kind: Kind): Result<Body, DecodeError>
  {
    if !j.JObject? then Err(InvalidType("body"))
    else
      var msgId :- IdField(j.members, "msg_id");
      var inReplyTo :- IdField(j.members, "in_reply_to");
      var payload :- DecodePayload(j.members, kind);
      Ok(Body(msgId, inReplyTo, payload))
  }

  /**
    `Message` is not flattened, so its derived deserializer also takes the
    positional form `[src, dest, body]`; the flattened `Body` takes only an object.
   */
  function DecodeMessage(j: Json, kind: Kind): Result<Message, DecodeError>
  {
    match j
    case JObject(ms) =>
      var src :- StringField(ms, "src");
      var dest :- StringField(ms, "dest");
      var body :- Field(ms, "body");
      var b :- DecodeBody(body, kind);
      Ok(Message(src, dest, b))
    case JArray(items) =>
      if |items| != 3 then Err(InvalidLength)
      else if !items[0].JString? then Err(InvalidType("src"))
      else if !items[1].JString? then Err(InvalidType("dest"))
      else
        var b :- DecodeBody(items[2], kind);
        Ok(Message(items[0].s, items[1].s, b))
    case _ => Err(InvalidType("message"))
  }

  /** `serde_json::from_str` on one line: `None` stands for text that is not JSON. */
  function ParseMessage(line: Option<Json>, kind: Kind): Result<Message, DecodeError>
  {
    match line
    case None => Err(NotJson)
    case Some(j) => DecodeMessage(j, kind)
  }

  // ---------------------------------------------------------------- round trip

  lemma {:induction false} StringsRoundTrip(ss: seq<string>, key: string)
    ensures DecodeStrings(EncodeStrings(ss), key) == Ok(ss)
  {
    if |ss| > 0 {
      StringsRoundTrip(ss[1..], key);
      assert EncodeStrings(ss)[1..] == EncodeStrings(ss[1..]);
      assert [ss[0]] + ss[1..] == ss;
    }
  }

  lemma PayloadRoundTrip(b: Body)
    ensures DecodePayload(BodyMembers(b), KindOf(b.payload)) == Ok(b.payload)
  {
    var ms := BodyMembers(b);
    match b.payload
    case Init(t, id, ids) =>
      FindOnlyAt(ms, "type", 2);
      FindOnlyAt(ms, "node_id", 3);
      FindOnlyAt(ms, "node_ids", 4);
      StringsRoundTrip(ids, "node_ids");
    case InitOk(t) =>
      FindOnlyAt(ms, "type", 2);
    case Echo(t, e) =>
      FindOnlyAt(ms, "type", 2);
      FindOnlyAt(ms, "echo", 3);
    case Keyed(k, t) =>
      FindOnlyAt(ms, "key", 2);
      FindOnlyAt(ms, "type", 3);
  }

  /** No payload field is named `msg_id` or `in_reply_to`. */
  lemma IdsOnlyAtFront(b: Body)
    ensures OnlyAt(BodyMembers(b), "msg_id", 0)
    ensures OnlyAt(BodyMembers(b), "in_reply_to", 1)
  {
  }

  lemma BodyRoundTrip(b: Body)
    ensures DecodeBody(EncodeBody(b), KindOf(b.payload)) == Ok(b)
  {
    var ms := BodyMembers(b);
    IdsOnlyAtFront(b);
    FindOnlyAt(ms, "msg_id", 0);
    FindOnlyAt(ms, "in_reply_to", 1);
    PayloadRoundTrip(b);
  }

  /** Decoding an encoded message, read as its own payload kind, gives the message back. */
  lemma MessageRoundTrip(m: Message)
    ensures DecodeMessage(EncodeMessage(m), KindOf(m.body.payload)) == Ok(m)
  {
    var ms := EncodeMessage(m).members;
    FindOnlyAt(ms, "src", 0);
    FindOnlyAt(ms, "dest", 1);
    FindOnlyAt(ms, "body", 2);
    BodyRoundTrip(m.body);
  }

  // ---------------------------------------------------------------- what the declarations fix

  /**
    The payload's fields sit in the body object itself, beside `msg_id` and
    `in_reply_to`; there is no nested payload object; an absent id is written
    as `null`, not left out.
   */
  lemma FlattenedBody(b: Body)
    ensures EncodeBody(b).JObject?
    ensures Find(BodyMembers(b), "type") == Present(JString(b.payload.typ))
    ensures Find(BodyMembers(b), "payload") == Absent
    ensures Find(BodyMembers(b), "msg_id") == Present(if b.msgId.None? then JNull else JNumber(b.msgId.value))
    ensures Find(BodyMembers(b), "in_reply_to") == Present(if b.inReplyTo.None? then JNull else JNumber(b.inReplyTo.value))
  {
    var ms := BodyMembers(b);
    IdsOnlyAtFront(b);
    FindOnlyAt(ms, "msg_id", 0);
    FindOnlyAt(ms, "in_reply_to", 1);
    var typeAt := if b.payload.Keyed? then 3 else 2;
    FindOnlyAt(ms, "type", typeAt);
    assert forall i :: 0 <= i < |ms| ==> |ms[i].0| != |"payload"| || ms[i].0[0] != 'p';
    FindAbsent(ms, "payload");
  }

  /** A body without an `in_reply_to` (or `msg_id`) key reads that id as `None`. */
  lemma MissingIdReadsNone(ms: Members, kind: Kind)
    requires DecodeBody(JObject(ms), kind).Ok?
    ensures (forall i :: 0 <= i < |ms| ==> ms[i].0 != "in_reply_to") ==>
              DecodeBody(JObject(ms), kind).value.inReplyTo == None
    ensures (forall i :: 0 <= i < |ms| ==> ms[i].0 != "msg_id") ==>
              DecodeBody(JObject(ms), kind).value.msgId == None
  {
    FindAbsent(ms, "in_reply_to");
    FindAbsent(ms, "msg_id");
  }

  /** An id present once as a number in `u32` range reads as `Some` of that number. */
  lemma PresentIdReadsSome(ms: Members, kind: Kind, i: int, n: int)
    requires OnlyAt(ms, "msg_id", i) && ms[i].1 == JNumber(n) && 0 <= n < 0x1_0000_0000
    requires DecodeBody(JObject(ms), kind).Ok?
    ensures DecodeBody(JObject(ms), kind).value.msgId == Some(n)
  {
    FindOnlyAt(ms, "msg_id", i);
  }

  /** A `msg_id` outside the `u32` range, or given twice, makes the body unreadable. */
  lemma BadIdRejected(ms: Members, kind: Kind)
    ensures (exists i :: OnlyAt(ms, "msg_id", i) && ms[i].1.JNumber? && !(0 <= ms[i].1.n < 0x1_0000_0000)) ==>
              DecodeBody(JObject(ms), kind).Err?
    ensures (exists i, j :: 0 <= i < j < |ms| && ms[i].0 == "msg_id" && ms[j].0 == "msg_id") ==>
              DecodeBody(JObject(ms), kind).Err?
  {
    if i :| OnlyAt(ms, "msg_id", i) && ms[i].1.JNumber? && !(0 <= ms[i].1.n < 0x1_0000_0000) {
      FindOnlyAt(ms, "msg_id", i);
    }
    if i, j :| 0 <= i < j < |ms| && ms[i].0 == "msg_id" && ms[j].0 == "msg_id" {
      FindTwice(ms, "msg_id", i, j);
    }
  }

  /** Whatever payload was read, its `typ` is the string found under the body's `"type"` key. */
  lemma TypeKeyFillsTyp(ms: Members, kind: Kind)
    requires DecodeBody(JObject(ms), kind).Ok?
    ensures exists i :: OnlyAt(ms, "type", i) && ms[i].1 == JString(DecodeBody(JObject(ms), kind).value.payload.typ)
  {
    FoundOnlyAt(ms, "type");
  }

  /** The keys a body of the given kind reads; every other key is ignored. */
  /** The keys the payload struct of the given kind reads. */
  function PayloadKeys(kind: Kind): set<string>
  {
    {"type"} +
    match kind
    case InitKind => {"node_id", "node_ids"}
    case InitOkKind => {}
    case EchoKind => {"echo"}
    case KeyedKind => {"key"}
  }

  function KnownKeys(kind: Kind): set<string>
  {
    {"msg_id", "in_reply_to"} + PayloadKeys(kind)
  }

  lemma {:induction false} FindIgnoresOtherKey(ms: Members, key: string, v: Json, k: string)
    requires key != k
    ensures Find(ms + [(key, v)], k) == Find(ms, k)
  {
    if |ms| > 0 {
      assert (ms + [(key, v)])[1..] == ms[1..] + [(key, v)];
      FindIgnoresOtherKey(ms[1..], key, v, k);
    } else {
      assert [(key, v)][1..] == [];
    }
  }

  lemma PayloadIgnoresKey(ms: Members, kind: Kind, key: string, v: Json)
    requires key !in PayloadKeys(kind)
    ensures DecodePayload(ms + [(key, v)], kind) == DecodePayload(ms, kind)
  {
    var ms' := ms + [(key, v)];
    FindIgnoresOtherKey(ms, key, v, "type");
    assert StringField(ms', "type") == StringField(ms, "type");
    match kind
    case InitKind =>
      FindIgnoresOtherKey(ms, key, v, "node_id");
      FindIgnoresOtherKey(ms, key, v, "node_ids");
      assert StringField(ms', "node_id") == StringField(ms, "node_id");
      assert StringListField(ms', "node_ids") == StringListField(ms, "node_ids");
    case InitOkKind =>
    case EchoKind =>
      FindIgnoresOtherKey(ms, key, v, "echo");
      assert StringField(ms', "echo") == StringField(ms, "echo");
    case KeyedKind =>
      FindIgnoresOtherKey(ms, key, v, "key");
      assert U32Field(ms', "key") == U32Field(ms, "key");
  }

  /** A body member under a key its kind does not read changes nothing about the decoded body. */
  lemma UnknownKeyIgnored(ms: Members, kind: Kind, key: string, v: Json)
    requires key !in KnownKeys(kind)
    ensures DecodeBody(JObject(ms + [(key, v)]), kind) == DecodeBody(JObject(ms), kind)
  {
    var ms' := ms + [(key, v)];
    FindIgnoresOtherKey(ms, key, v, "msg_id");
    FindIgnoresOtherKey(ms, key, v, "in_reply_to");
    assert IdField(ms', "msg_id") == IdField(ms, "msg_id");
    assert IdField(ms', "in_reply_to") == IdField(ms, "in_reply_to");
    PayloadIgnoresKey(ms, kind, key, v);
  }

  /**
    A missing `msg_id` or `in_reply_to` key reads exactly as the key given
    with `null`: it is never an error, and it gives `None`.
   */
  lemma MissingIdReadsAsNull(ms: Members, kind: Kind, key: string)
    requires key == "msg_id" || key == "in_reply_to"
    requires forall i :: 0 <= i < |ms| ==> ms[i].0 != key
    ensures DecodeBody(JObject(ms + [(key, JNull)]), kind) == DecodeBody(JObject(ms), kind)
  {
    var ms' := ms + [(key, JNull)];
    FindAbsent(ms, key);
    FindOnlyAt(ms', key, |ms|);
    var other := if key == "msg_id" then "in_reply_to" else "msg_id";
    FindIgnoresOtherKey(ms, key, JNull, other);
    assert IdField(ms', key) == IdField(ms, key) == Ok(None);
    assert IdField(ms', other) == IdField(ms, other);
    PayloadIgnoresKey(ms, kind, key, JNull);
  }

  /** What an `Option<u32>` id may be: absent, `null`, or a number in `u32` range given once. */
  predicate IdAccepted(l: Lookup)
  {
    l.Absent? || (l.Present? && (l.value.JNull? || (l.value.JNumber? && 0 <= l.value.n < 0x1_0000_0000)))
  }

  /**
    A body decodes exactly when both ids are acceptable and the payload
    decodes: a string, boolean, array, object, out-of-range number or
    repeated key under either id is refused.
   */
  lemma BodyDecodesIff(ms: Members, kind: Kind)
    ensures DecodeBody(JObject(ms), kind).Ok? <==>
      IdAccepted(Find(ms, "msg_id")) && IdAccepted(Find(ms, "in_reply_to")) && DecodePayload(ms, kind).Ok?
  {
  }

  /** The positional form `[src, dest, body]` reads as the object form with those three members. */
  lemma ArrayFormReadsAlike(src: Json, dest: Json, body: Json, kind: Kind)
    ensures DecodeMessage(JArray([src, dest, body]), kind) ==
            DecodeMessage(JObject([("src", src), ("dest", dest), ("body", body)]), kind)
  {
    var ms := [("src", src), ("dest", dest), ("body", body)];
    FindOnlyAt(ms, "src", 0);
    FindOnlyAt(ms, "dest", 1);
    FindOnlyAt(ms, "body", 2);
  }

  // ---------------------------------------------------------------- the tests' sample

  /** `{"src": "test1", "dest": "test2", "body": {"type": "read", "msg_id": 123, "key": 3}}` */
  function SampleLine(): Json
  {
    JObject([
      ("src", JString("test1")),
      ("dest", JString("test2")),
      ("body", JObject([("type", JString("read")), ("msg_id", JNumber(123)), ("key", JNumber(3))]))
    ])
  }

  /** The sample line reads, as the tests' payload struct, to the message they expect. */
  lemma SampleLineDecodes()
    ensures DecodeMessage(SampleLine(), KeyedKind) == Ok(Message("test1", "test2", Body(Some(123), None, Keyed(3, "read"))))
  {
  }
}
