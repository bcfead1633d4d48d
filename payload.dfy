/** The request and response records of src/payload.rs, over an abstract JSON
    value, with the field rules their derived (de)serialisers follow. */
module Payload {
  import opened Wrappers
  import opened Bytes

  /** A JSON value (`serde_json::Value`). Objects keep their members in the
      order they were written, duplicates included; numbers are integers. */
  datatype Json =
    | JNull
    | JBool(b: bool)
    | JNum(n: int)
    | JStr(s: string)
    | JArr(items: seq<Json>)
    | JObj(members: seq<(string, Json)>)

  /** An inbound request. `partner_id` may be missing; `id` is a u32. */
  datatype MessagePayload = MessagePayload(methodName: string, partnerId: Option<string>, id: u32, params: Json)

  /** An outbound response: the request's `id` and the routed `result`. */
  datatype ResponsePayload = ResponsePayload(id: u32, result: Json)

  /** `ResponsePayload::new`. */
  function NewResponse(id: u32, result: Json): (r: ResponsePayload)
    ensures r.id == id && r.result == result
  {
    ResponsePayload(id, result)
  }

  /** How many members of an object carry the key `key`. */
  function KeyCount(members: seq<(string, Json)>, key: string): nat
  {
    if members == [] then 0
    else (if members[0].0 == key then 1 else 0) + KeyCount(members[1..], key)
  }

  /** The value of the first member named `key`, if any. */
  function Lookup(members: seq<(string, Json)>, key: string): (r: Option<Json>)
    ensures r.None? <==> KeyCount(members, key) == 0
    ensures r.Some? ==> (key, r.value) in members
  {
    if members == [] then None
    else if members[0].0 == key then Some(members[0].1)
    else Lookup(members[1..], key)
  }

  /** The field of a JSON object, by name; nothing for anything but an object. */
  function Field(j: Json, key: string): Option<Json>
  {
    if j.JObj? then Lookup(j.members, key) else None
  }

  /** A JSON string as a Rust `String`. */
  function AsString(j: Json): Option<string>
  {
    if j.JStr? then Some(j.s) else None
  }

  /** A JSON number as a `u32`: only integers from 0 to 2^32 - 1 fit. */
  function AsU32(j: Json): (r: Option<u32>)
    ensures r.Some? <==> j.JNum? && 0 <= j.n < U32_MODULUS
  {
    if j.JNum? && 0 <= j.n < U32_MODULUS then Some(j.n) else None
  }

  /** A JSON value as an `Option<String>`: `null` is `None`, a string is `Some`. */
  function AsOptionalString(j: Json): Option<Option<string>>
  {
    match j
    case JNull => Some(None)
    case JStr(s) => Some(Some(s))
    case _ => None
  }

  const REQUEST_FIELDS: seq<string> := ["method", "partner_id", "id", "params"]

  /** Some field of `MessagePayload` is named more than once. */
  predicate HasDuplicateField(members: seq<(string, Json)>)
  {
    KeyCount(members, "method") > 1 || KeyCount(members, "partner_id") > 1 ||
    KeyCount(members, "id") > 1 || KeyCount(members, "params") > 1
  }

  /** The four field values, in declaration order, as a `MessagePayload`. */
  function RequestFromValues(methodField: Json, partner: Option<Json>, id: Json, params: Json): Option<MessagePayload>
  {
    var m := AsString(methodField);
    var p := if partner.None? then Some(None) else AsOptionalString(partner.value);
    var i := AsU32(id);
    if m.Some? && p.Some? && i.Some? then Some(MessagePayload(m.value, p.value, i.value, params))
    else None
  }

  /** The derived `Deserialize` for `MessagePayload`. An object must name each
      field at most once and must carry `method`, `id` and `params`;
      `partner_id` may be absent; other members are ignored. An array must hold
      exactly the four field values in declaration order. */
  function RequestFromJson(j: Json): (r: Option<MessagePayload>)
    ensures r.Some? && j.JObj? ==>
      Field(j, "method") == Some(JStr(r.value.methodName)) &&
      Field(j, "id") == Some(JNum(r.value.id)) &&
      Field(j, "params") == Some(r.value.params)
    ensures r.Some? ==> j.JObj? || j.JArr?
  {
    match j
    case JObj(members) =>
      if HasDuplicateField(members) then None
      else
        var methodField := Lookup(members, "method");
        var id := Lookup(members, "id");
        var params := Lookup(members, "params");
        if methodField.None? || id.None? || params.None? then None
        else RequestFromValues(methodField.value, Lookup(members, "partner_id"), id.value, params.value)
    case JArr(items) =>
      if |items| != 4 then None
      else RequestFromValues(items[0], Some(items[1]), items[2], items[3])
    case _ => None
  }

  /** The object a client writes for a request: all four fields, `partner_id`
      as `null` when it is absent. */
  function RequestToJson(m: MessagePayload): Json
  {
    JObj([("method", JStr(m.methodName)),
          ("partner_id", if m.partnerId.Some? then JStr(m.partnerId.value) else JNull),
          ("id", JNum(m.id)),
          ("params", m.params)])
  }

  /** Every request survives being written as an object and read back. */
  lemma RequestRoundTrip(m: MessagePayload)
    ensures RequestFromJson(RequestToJson(m)) == Some(m)
  {
    var members := RequestToJson(m).members;
    forall k | k in REQUEST_FIELDS
      ensures KeyCount(members, k) == 1
    {
      assert KeyCount(members[3..], k) == (if k == "params" then 1 else 0);
      assert KeyCount(members[2..], k) == KeyCount(members[3..], k) + (if k == "id" then 1 else 0);
      assert KeyCount(members[1..], k) == KeyCount(members[2..], k) + (if k == "partner_id" then 1 else 0);
    }
    assert !HasDuplicateField(members);
    assert Lookup(members, "partner_id") == Some(members[1].1);
    assert Lookup(members, "id") == Some(members[2].1);
    assert Lookup(members, "params") == Some(members[3].1);
  }

  /** Counting keys distributes over concatenation. */
  lemma {:induction false} KeyCountAppend(a: seq<(string, Json)>, b: seq<(string, Json)>, key: string)
    ensures KeyCount(a + b, key) == KeyCount(a, key) + KeyCount(b, key)
  {
    if a == [] {
      assert a + b == b;
    } else {
      assert (a + b)[1..] == a[1..] + b;
      KeyCountAppend(a[1..], b, key);
    }
  }

  /** Looking a key up in a concatenation finds it in the first part if it
      is there, and in the second part otherwise. */
  lemma {:induction false} LookupAppend(a: seq<(string, Json)>, b: seq<(string, Json)>, key: string)
    ensures Lookup(a + b, key) == if KeyCount(a, key) > 0 then Lookup(a, key) else Lookup(b, key)
  {
    if a == [] {
      assert a + b == b;
    } else {
      assert (a + b)[1..] == a[1..] + b;
      LookupAppend(a[1..], b, key);
    }
  }

  /** `partner_id` may be left out of any object: an object without it reads
      exactly as the same object with `"partner_id": null` added, so whenever
      it reads as a request, that request has no partner. */
  lemma RequestAbsentPartnerIsNull(members: seq<(string, Json)>)
    requires KeyCount(members, "partner_id") == 0
    ensures RequestFromJson(JObj(members)) == RequestFromJson(JObj(members + [("partner_id", JNull)]))
    ensures RequestFromJson(JObj(members)).Some? ==> RequestFromJson(JObj(members)).value.partnerId == None
  {
    var extra := [("partner_id", JNull)];
    var extended := members + extra;
    KeyCountAppend(members, extra, "method");
    KeyCountAppend(members, extra, "partner_id");
    KeyCountAppend(members, extra, "id");
    KeyCountAppend(members, extra, "params");
    assert HasDuplicateField(extended) == HasDuplicateField(members);
    LookupAppend(members, extra, "method");
    LookupAppend(members, extra, "partner_id");
    LookupAppend(members, extra, "id");
    LookupAppend(members, extra, "params");
    assert Lookup(extended, "partner_id") == Some(JNull);
  }

  /** The smallest readable object: only `method`, `id` and `params`, which
      reads as a request without a partner. */
  lemma RequestWithoutPartner(name: string, id: u32, params: Json)
    ensures RequestFromJson(JObj([("method", JStr(name)), ("id", JNum(id)), ("params", params)]))
         == Some(MessagePayload(name, None, id, params))
  {
    var members := [("method", JStr(name)), ("id", JNum(id)), ("params", params)];
    forall k | k in REQUEST_FIELDS
      ensures KeyCount(members, k) <= 1
    {
      assert KeyCount(members[2..], k) == (if k == "params" then 1 else 0);
      assert KeyCount(members[1..], k) == KeyCount(members[2..], k) + (if k == "id" then 1 else 0);
    }
    assert !HasDuplicateField(members);
    assert Lookup(members, "id") == Some(members[1].1);
    assert Lookup(members, "params") == Some(members[2].1);
    assert Lookup(members, "partner_id") == None;
  }

  /** A field named twice makes the whole request unreadable. */
  lemma RequestDuplicateField(members: seq<(string, Json)>, k: string)
    requires k in REQUEST_FIELDS
    requires KeyCount(members, k) > 1
    ensures RequestFromJson(JObj(members)) == None
  {
  }

  /** The derived `Serialize` for `ResponsePayload`: an object of exactly two
      members, `id` then `result`. */
  function ResponseToJson(r: ResponsePayload): (j: Json)
    ensures j.JObj? && |j.members| == 2
    ensures Field(j, "id") == Some(JNum(r.id)) && Field(j, "result") == Some(r.result)
  {
    JObj([("id", JNum(r.id)), ("result", r.result)])
  }

  /** A reference reader for response objects, used only to state what a
      serialised response holds; `ResponsePayload` itself is never read back.
      `id` and `result` are required. */
  function ResponseFromJson(j: Json): Option<ResponsePayload>
  {
    var id := Field(j, "id");
    var result := Field(j, "result");
    if id.Some? && result.Some? && AsU32(id.value).Some? then
      Some(ResponsePayload(AsU32(id.value).value, result.value))
    else None
  }

  /** A serialised response keeps both its fields recoverably: it reads back
      as the same response. */
  lemma ResponseRoundTrip(r: ResponsePayload)
    ensures ResponseFromJson(ResponseToJson(r)) == Some(r)
  {
  }
}
