/** One turn of the server loop in src/main.rs: read the header, ask the codec
    to decode the frame, and decide what (if anything) to send back. */
module Dispatch {
  import opened Wrappers
  import opened Bytes
  import opened Payload
  import opened Timesync

  /** Every frame starts with a 32-byte header. */
  const HEADER_LEN: nat := 32

  /** The receive buffer holds at most 1024 bytes. */
  const RECV_BUFFER_LEN: nat := 1024

  /** The codec built from the cloud key (`codec::UDPCodec::new`). Its
      algorithm is not part of this model: `decode` takes the header and the
      encrypted body and yields the plaintext or nothing; `encode` takes the
      plaintext and the device id and yields the outbound frame. */
  datatype Codec = Codec(
    decode: (seq<byte>, seq<byte>) -> Option<string>,
    encode: (seq<byte>, u32) -> seq<byte>)

  /** The JSON text layer (`serde_json::from_str` and `to_vec`), left abstract:
      `parse` reads text into a JSON value or fails, `render` writes one out. */
  datatype JsonText = JsonText(
    parse: string -> Option<Json>,
    render: Json -> seq<byte>)

  /** What `recv_from` leaves in the 1024-byte buffer: the datagram, cut at
      the buffer's size. */
  function Received(datagram: seq<byte>): (frame: seq<byte>)
    ensures |frame| <= RECV_BUFFER_LEN && frame <= datagram
    ensures |datagram| <= RECV_BUFFER_LEN ==> frame == datagram
    ensures |datagram| >= RECV_BUFFER_LEN ==> |frame| == RECV_BUFFER_LEN
  {
    if |datagram| <= RECV_BUFFER_LEN then datagram else datagram[..RECV_BUFFER_LEN]
  }

  /** The stamp: the big-endian u32 in header bytes 12-15; zero means the
      device has not synchronised yet. */
  function Stamp(header: seq<byte>): u32
    requires |header| == HEADER_LEN
  {
    ReadBigEndian32(header[12..])
  }

  /** The device id: the big-endian u32 in header bytes 8-11. */
  function DeviceId(header: seq<byte>): u32
    requires |header| == HEADER_LEN
  {
    ReadBigEndian32(header[8..])
  }

  /** The stamp is exactly bytes 12-15, and it is zero exactly when all four
      of them are. */
  lemma StampIsBytes12To15(header: seq<byte>)
    requires |header| == HEADER_LEN
    ensures BigEndian32(Stamp(header)) == header[12..16]
    ensures Stamp(header) == 0 <==> header[12..16] == [0, 0, 0, 0]
  {
    assert header[12..][..4] == header[12..16];
    BigEndianOfRead32(header[12..16]);
    BigEndian32Injective(Stamp(header), 0);
  }

  /** The device id is exactly bytes 8-11. */
  lemma DeviceIdIsBytes8To11(header: seq<byte>)
    requires |header| == HEADER_LEN
    ensures BigEndian32(DeviceId(header)) == header[8..12]
  {
    assert header[8..][..4] == header[8..12];
    BigEndianOfRead32(header[8..12]);
  }

  /** The methods the server answers. */
  datatype Method =
    | OtcInfo
    | Props
    | EventStatus
    | EventLowPowerBack
    | GenPresignedUrl
    | BatchGenRoomUpUrl

  /** The wire name of each method. */
  function MethodName(m: Method): string
  {
    match m
    case OtcInfo => "_otc.info"
    case Props => "props"
    case EventStatus => "event.status"
    case EventLowPowerBack => "event.low_power_back"
    case GenPresignedUrl => "_sync.gen_presigned_url"
    case BatchGenRoomUpUrl => "_sync.batch_gen_room_up_url"
  }

  const KNOWN_METHOD_NAMES: set<string> :=
    {"_otc.info", "props", "event.status", "event.low_power_back",
     "_sync.gen_presigned_url", "_sync.batch_gen_room_up_url"}

  /** The `match` on the request's method: exact, case-sensitive comparison
      with the six names; anything else is unknown. */
  function LookupMethod(name: string): (m: Option<Method>)
    ensures m.Some? ==> MethodName(m.value) == name
    ensures m.Some? <==> name in KNOWN_METHOD_NAMES
  {
    if name == "_otc.info" then Some(OtcInfo)
    else if name == "props" then Some(Props)
    else if name == "event.status" then Some(EventStatus)
    else if name == "event.low_power_back" then Some(EventLowPowerBack)
    else if name == "_sync.gen_presigned_url" then Some(GenPresignedUrl)
    else if name == "_sync.batch_gen_room_up_url" then Some(BatchGenRoomUpUrl)
    else None
  }

  /** Every method is found under its own name, and only under it. */
  lemma LookupMethodName(m: Method, name: string)
    ensures LookupMethod(name) == Some(m) <==> name == MethodName(m)
  {
  }

  /** The OTC relay endpoint the device is pointed at. */
  function OtcEndpoint(): Json
  {
    JObj([("ip", JStr("130.83.47.181")), ("port", JNum(8053))])
  }

  /** The `_otc.info` result: the relay list and its test schedule. */
  function OtcInfoResult(): Json
  {
    JObj([("otc_list", JArr([OtcEndpoint()])),
          ("otc_test", JObj([("list", JArr([OtcEndpoint()])),
                             ("interval", JNum(1800)),
                             ("firsttest", JNum(1193))]))])
  }

  /** The `_sync.gen_presigned_url` result, expiring an hour after `now`. */
  function PresignedUrlResult(now: u64): Json
  {
    JObj([("", JObj([("url", JStr("http://us.ott.io.mi.com/robomap")),
                     ("obj_name", JStr("something")),
                     ("method", JStr("PUT")),
                     ("expires_time", JNum(now + 3600)),
                     ("ok", JBool(true)),
                     ("pwd", JStr("password"))]))])
  }

  const ROOM_UP_URLS: seq<string> :=
    ["http://us.ott.io.mi.com/robomap/1",
     "http://us.ott.io.mi.com/robomap/2",
     "http://us.ott.io.mi.com/robomap/3",
     "http://us.ott.io.mi.com/robomap/4"]

  /** The canned result for each method. */
  function MethodResult(m: Method, now: u64): Json
  {
    match m
    case OtcInfo => OtcInfoResult()
    case Props | EventStatus | EventLowPowerBack => JStr("ok")
    case GenPresignedUrl => PresignedUrlResult(now)
    case BatchGenRoomUpUrl => JArr([JStr(ROOM_UP_URLS[0]), JStr(ROOM_UP_URLS[1]),
                                    JStr(ROOM_UP_URLS[2]), JStr(ROOM_UP_URLS[3])])
  }

  /** The routing table: the response to a request, or nothing for an
      unknown method. A response always echoes the request's id. */
  function Route(request: MessagePayload, now: u64): (r: Option<ResponsePayload>)
    ensures r.Some? <==> request.methodName in KNOWN_METHOD_NAMES
    ensures r.Some? ==> r.value.id == request.id
  {
    match LookupMethod(request.methodName)
    case None => None
    case Some(m) => Some(NewResponse(request.id, MethodResult(m, now)))
  }

  /** `_otc.info` answers the relay list and its test schedule. */
  lemma RouteOtcInfo(request: MessagePayload, now: u64)
    requires request.methodName == "_otc.info"
    ensures Route(request, now) == Some(ResponsePayload(request.id, OtcInfoResult()))
  {
  }

  /** `props`, `event.status` and `event.low_power_back` answer "ok". */
  lemma RouteOk(request: MessagePayload, now: u64)
    requires request.methodName in {"props", "event.status", "event.low_power_back"}
    ensures Route(request, now) == Some(ResponsePayload(request.id, JStr("ok")))
  {
  }

  /** `_sync.batch_gen_room_up_url` answers the four map upload URLs, in order. */
  lemma RouteRoomUpUrls(request: MessagePayload, now: u64)
    requires request.methodName == "_sync.batch_gen_room_up_url"
    ensures var r := Route(request, now);
      r.Some? && r.value.result.JArr? && |r.value.result.items| == 4 &&
      forall i :: 0 <= i < 4 ==>
        r.value.result.items[i] == JStr("http://us.ott.io.mi.com/robomap/" + [(i + 1) as char + '0'])
  {
    var items := Route(request, now).value.result.items;
    forall i | 0 <= i < 4
      ensures items[i] == JStr("http://us.ott.io.mi.com/robomap/" + [(i + 1) as char + '0'])
    {
      assert ROOM_UP_URLS[i] == "http://us.ott.io.mi.com/robomap/" + [(i + 1) as char + '0'];
    }
  }

  /** The presigned upload URL expires an hour after `now`. */
  lemma PresignedUrlExpiry(now: u64)
    ensures Field(PresignedUrlResult(now), "").Some?
    ensures Field(Field(PresignedUrlResult(now), "").value, "expires_time") == Some(JNum(now + 3600))
  {
    var ms := PresignedUrlResult(now).members[0].1.members;
    assert ms[0].0 != "expires_time" && ms[1].0 != "expires_time" && ms[2].0 != "expires_time";
    assert Lookup(ms[3..], "expires_time") == Some(JNum(now + 3600));
    assert Lookup(ms[2..], "expires_time") == Lookup(ms[2..][1..], "expires_time");
    assert ms[2..][1..] == ms[3..];
    assert Lookup(ms[1..], "expires_time") == Lookup(ms[1..][1..], "expires_time");
    assert ms[1..][1..] == ms[2..];
    assert Lookup(ms, "expires_time") == Lookup(ms[1..], "expires_time");
  }

  /** `_sync.gen_presigned_url` answers the presigned upload URL. */
  lemma RoutePresigned(request: MessagePayload, now: u64)
    requires request.methodName == "_sync.gen_presigned_url"
    ensures Route(request, now) == Some(ResponsePayload(request.id, PresignedUrlResult(now)))
  {
  }

  /** The decoded plaintext as a request, or nothing when it does not parse. */
  function ParseRequest(json: JsonText, text: string): Option<MessagePayload>
  {
    match json.parse(text)
    case None => None
    case Some(value) => RequestFromJson(value)
  }

  /** One loop iteration: the bytes sent back for the received `frame`, or
      nothing. A frame shorter than the header makes the server panic, so it
      is excluded. */
  function Reply(codec: Codec, json: JsonText, frame: seq<byte>, now: u64): Option<seq<byte>>
    requires HEADER_LEN <= |frame| <= RECV_BUFFER_LEN
  {
    var header := frame[..HEADER_LEN];
    var body := frame[HEADER_LEN..];
    match codec.decode(header, body)
    case None =>
      if Stamp(header) == 0 then Some(TimesyncPacket(now)) else Some(frame)
    case Some(text) =>
      match ParseRequest(json, text)
      case None => None
      case Some(request) =>
        match Route(request, now)
        case None => None
        case Some(response) => Some(codec.encode(json.render(ResponseToJson(response)), DeviceId(header)))
  }

  /** A device that is not synchronised yet (stamp zero, nothing decodable)
      is sent the time-sync packet, whose own stamp is the current time. */
  lemma ReplyHandshake(codec: Codec, json: JsonText, frame: seq<byte>, now: u64)
    requires HEADER_LEN <= |frame| <= RECV_BUFFER_LEN
    requires codec.decode(frame[..HEADER_LEN], frame[HEADER_LEN..]).None?
    requires Stamp(frame[..HEADER_LEN]) == 0
    ensures var r := Reply(codec, json, frame, now);
      r == Some(TimesyncPacket(now)) && |r.value| == HEADER_LEN &&
      r.value[..4] == TIMESYNC_FLAGS + TIMESYNC_SIZE &&
      Stamp(r.value) == now % U32_MODULUS
  {
    TimesyncPacketLayout(now);
    TimesyncTimestampReadsBack(now);
    var p := TimesyncPacket(now);
    assert p[..HEADER_LEN] == p;
  }

  /** A frame with a nonzero stamp that cannot be decoded is sent back
      unchanged, byte for byte. */
  lemma ReplyEcho(codec: Codec, json: JsonText, frame: seq<byte>, now: u64)
    requires HEADER_LEN <= |frame| <= RECV_BUFFER_LEN
    requires codec.decode(frame[..HEADER_LEN], frame[HEADER_LEN..]).None?
    requires Stamp(frame[..HEADER_LEN]) != 0
    ensures Reply(codec, json, frame, now) == Some(frame)
  {
  }

  /** On a decode miss the reply depends only on the frame and the clock:
      the plaintext parser and the routing table are never consulted. */
  lemma ReplyMissIgnoresParser(codec: Codec, json1: JsonText, json2: JsonText, frame: seq<byte>, now: u64)
    requires HEADER_LEN <= |frame| <= RECV_BUFFER_LEN
    requires codec.decode(frame[..HEADER_LEN], frame[HEADER_LEN..]).None?
    ensures Reply(codec, json1, frame, now) == Reply(codec, json2, frame, now)
    ensures Reply(codec, json1, frame, now).Some?
  {
  }

  /** Plaintext that is not a request gets no reply. */
  lemma ReplyDropsUnparsed(codec: Codec, json: JsonText, frame: seq<byte>, now: u64)
    requires HEADER_LEN <= |frame| <= RECV_BUFFER_LEN
    requires codec.decode(frame[..HEADER_LEN], frame[HEADER_LEN..]).Some?
    requires ParseRequest(json, codec.decode(frame[..HEADER_LEN], frame[HEADER_LEN..]).value).None?
    ensures Reply(codec, json, frame, now).None?
  {
  }

  /** A request for an unknown method gets no reply. */
  lemma ReplyDropsUnknownMethod(codec: Codec, json: JsonText, frame: seq<byte>, now: u64, request: MessagePayload)
    requires HEADER_LEN <= |frame| <= RECV_BUFFER_LEN
    requires codec.decode(frame[..HEADER_LEN], frame[HEADER_LEN..]).Some?
    requires ParseRequest(json, codec.decode(frame[..HEADER_LEN], frame[HEADER_LEN..]).value) == Some(request)
    requires request.methodName !in KNOWN_METHOD_NAMES
    ensures Reply(codec, json, frame, now).None?
  {
  }

  /** A routed request is answered with a response that carries the request's
      id and the method's result, serialised and encoded for the device id
      read from the inbound header. */
  lemma ReplyRouted(codec: Codec, json: JsonText, frame: seq<byte>, now: u64, request: MessagePayload)
    requires HEADER_LEN <= |frame| <= RECV_BUFFER_LEN
    requires codec.decode(frame[..HEADER_LEN], frame[HEADER_LEN..]).Some?
    requires ParseRequest(json, codec.decode(frame[..HEADER_LEN], frame[HEADER_LEN..]).value) == Some(request)
    requires request.methodName in KNOWN_METHOD_NAMES
    ensures exists m: Method ::
      (MethodName(m) == request.methodName &&
       Reply(codec, json, frame, now) ==
         Some(codec.encode(json.render(JObj([("id", JNum(request.id)), ("result", MethodResult(m, now))])),
                           ReadBigEndian32(frame[8..12]))))
  {
    var header := frame[..HEADER_LEN];
    var m := LookupMethod(request.methodName).value;
    assert header[8..][..4] == frame[8..12];
    assert MethodName(m) == request.methodName;
  }

  /** A reply is sent exactly when the frame does not decode, or it decodes
      to a request for one of the six known methods. */
  lemma ReplySentIff(codec: Codec, json: JsonText, frame: seq<byte>, now: u64)
    requires HEADER_LEN <= |frame| <= RECV_BUFFER_LEN
    ensures var decoded := codec.decode(frame[..HEADER_LEN], frame[HEADER_LEN..]);
      Reply(codec, json, frame, now).Some? <==>
        decoded.None? ||
        (ParseRequest(json, decoded.value).Some? &&
         ParseRequest(json, decoded.value).value.methodName in KNOWN_METHOD_NAMES)
  {
  }

  /** A `props` request is answered `{"id": id, "result": "ok"}`. */
  lemma ReplyProps(codec: Codec, json: JsonText, frame: seq<byte>, now: u64, request: MessagePayload)
    requires HEADER_LEN <= |frame| <= RECV_BUFFER_LEN
    requires codec.decode(frame[..HEADER_LEN], frame[HEADER_LEN..]).Some?
    requires ParseRequest(json, codec.decode(frame[..HEADER_LEN], frame[HEADER_LEN..]).value) == Some(request)
    requires request.methodName == "props"
    ensures Reply(codec, json, frame, now) ==
      Some(codec.encode(json.render(JObj([("id", JNum(request.id)), ("result", JStr("ok"))])),
                        DeviceId(frame[..HEADER_LEN])))
  {
  }

  /** The outcome of one loop iteration as the source is written: the thread
      panics, or it finishes with an optional reply. */
  datatype Step = Panic | Done(reply: Option<seq<byte>>)

  /** One iteration from the raw datagram, as written: the datagram is cut to
      the receive buffer, and when fewer than 32 bytes remain the header slice
      panics, ending the server. */
  function StepAsWritten(codec: Codec, json: JsonText, datagram: seq<byte>, now: u64): Step
  {
    var frame := Received(datagram);
    if |frame| < HEADER_LEN then Panic else Done(Reply(codec, json, frame, now))
  }

  /** Any datagram shorter than the header brings the server down. */
  lemma ShortDatagramPanics(codec: Codec, json: JsonText, datagram: seq<byte>, now: u64)
    requires |datagram| < HEADER_LEN
    ensures StepAsWritten(codec, json, datagram, now) == Panic
  {
  }

  /** The empty datagram is one such input. */
  lemma EmptyDatagramPanics(codec: Codec, json: JsonText, now: u64)
    ensures StepAsWritten(codec, json, [], now) == Panic
  {
    ShortDatagramPanics(codec, json, [], now);
  }

  /** One iteration with the short-datagram case handled: a datagram shorter
      than the header is dropped without a reply and the server keeps going;
      every other datagram is answered exactly as the source answers it. */
  function Serve(codec: Codec, json: JsonText, datagram: seq<byte>, now: u64): (r: Option<seq<byte>>)
    ensures |datagram| < HEADER_LEN ==> r.None?
    ensures StepAsWritten(codec, json, datagram, now) != Panic ==>
      StepAsWritten(codec, json, datagram, now) == Done(r)
  {
    var frame := Received(datagram);
    if |frame| < HEADER_LEN then None else Reply(codec, json, frame, now)
  }

  /** A datagram too long for the receive buffer that does not decode and has
      a nonzero stamp is echoed as its first 1024 bytes. */
  lemma ServeEchoesTruncated(codec: Codec, json: JsonText, datagram: seq<byte>, now: u64)
    requires |datagram| > RECV_BUFFER_LEN
    requires codec.decode(datagram[..HEADER_LEN], datagram[HEADER_LEN..RECV_BUFFER_LEN]).None?
    requires Stamp(datagram[..HEADER_LEN]) != 0
    ensures Serve(codec, json, datagram, now) == Some(datagram[..RECV_BUFFER_LEN])
  {
    var frame := Received(datagram);
    assert frame[..HEADER_LEN] == datagram[..HEADER_LEN];
    assert frame[HEADER_LEN..] == datagram[HEADER_LEN..RECV_BUFFER_LEN];
    ReplyEcho(codec, json, frame, now);
  }
}
