# dummycloud: a Dafny model of the reply decision

dummycloud stands in for a vacuum robot's vendor cloud. It listens for UDP
datagrams. For each one it reads the 32-byte header and asks a codec, keyed by
the cloud key, to decrypt the body. It then answers with one of three things:

- a time-sync handshake packet,
- the frame echoed back unchanged,
- a canned JSON-RPC response, encrypted again for the sending device.

Sometimes it sends nothing.

This project models that decision for one datagram, the 32-byte time-sync
packet, the request and response records, and the byte-level helpers they use.

- `bytes.dfy`
  - `Wrappers`: an `Option` type.
  - `Bytes`: byte and fixed-width integer types, the big-endian `put_u32` and
    `get_u32` encodings, `as u32` truncation, and `ByteBuffer`, a class with
    a `seq` field that models the growable `BytesMut` buffer.
- `payload.rs` is modelled by `payload.dfy` (module `Payload`): `MessagePayload`,
  `ResponsePayload`, `ResponsePayload::new`, and an abstract JSON value. It also
  states the field rules that the derived deserialiser of `MessagePayload` and
  the derived serialiser of `ResponsePayload` follow.
- `timesync.dfy` (module `Timesync`): `create_timesync_packet`, as a method that
  fills a `ByteBuffer` step by step. The method is proved equal to the
  specification function `TimesyncPacket`. Lemmas about that function give the
  exact byte layout.
- `dispatch.dfy` (module `Dispatch`): the body of the server loop.
  - the header reads (`Stamp`, `DeviceId`);
  - the method table, as an enumeration with an explicit "unknown" case;
  - the canned results;
  - `Reply`, a function from the codec, the JSON text layer, the received frame
    and the current time to the optional bytes sent back.

The codec (`src/codec.rs`) is not part of this model. Its `decode_response`
and `encode_response` are fields of the `Codec` datatype. These fields can be
any total functions, and every lemma holds for all of them. The serde_json text
parser and writer are handled the same way, as the fields of `JsonText`.

The timestamp field is `as_secs() as u32`, which keeps the epoch seconds
modulo 2^32. As unsigned seconds, that field wraps in 2106. The source comment
says it "will fail in 2038", which is when a reader taking the field as
signed would overflow. The model follows the code: `TruncateToU32`.

## Model

| member | source | states |
|---|---|---|
| `Bytes.TruncateToU32` | src/main.rs:26-29 | `as u32` on the u64 seconds keeps the remainder modulo 2^32 and is the identity below 2^32 |
| `Bytes.BigEndian32` | src/main.rs:32 | `put_u32`'s encoding: four bytes, most significant first; no contract beyond its length, the lemmas below relate it to `ReadBigEndian32` |
| `Bytes.ReadBigEndian32` | src/main.rs:87-88 | `get_u32`'s decoding of the first four bytes; no contract of its own, the lemmas below state it inverts `BigEndian32` |
| `Bytes.ReadOfBigEndian32` | src/main.rs:32 | reading back the four bytes `put_u32` writes yields the original u32 |
| `Bytes.BigEndianOfRead32` | src/main.rs:87-88 | the u32 `get_u32` reads from four bytes writes back as exactly those bytes |
| `Bytes.BigEndian32Injective` | src/main.rs:32 | two u32 values are written as the same four bytes if and only if they are equal |
| `Bytes.ByteBuffer.WithCapacity` | src/main.rs:13 | a new `BytesMut::with_capacity` buffer is empty |
| `Bytes.ByteBuffer.PutU8` | src/main.rs:16-21 | `put_u8` appends exactly one byte |
| `Bytes.ByteBuffer.PutSlice` | src/main.rs:24 | `put_slice` appends exactly the given bytes |
| `Bytes.ByteBuffer.PutU32` | src/main.rs:32 | `put_u32` appends the four big-endian bytes of the value |
| `Timesync.TimesyncPacket` | src/main.rs:12-37 | the packet as a value: 32 bytes; its layout is stated by the lemmas below |
| `Timesync.CreateTimesyncPacket` | src/main.rs:12-37 | the buffer built step by step holds exactly `TimesyncPacket(now)`, in a fresh object |
| `Timesync.TimesyncPacketLayout` | src/main.rs:13-35 | the packet has 32 bytes: 0x21 0x31 0x00 0x20, then 0xFF in bytes 4-11, the big-endian truncated seconds in bytes 12-15, and 0xFF in bytes 16-31 |
| `Timesync.TimesyncTimestampReadsBack` | src/main.rs:26-32 | bytes 12-15 read as a big-endian u32 give the epoch seconds modulo 2^32 |
| `Timesync.TimesyncPacketsDifferOnlyInTimestamp` | src/main.rs:12-37 | two packets agree outside bytes 12-15, and are equal if and only if the two times agree modulo 2^32 |
| `Payload.NewResponse` | src/payload.rs:17-23 | `ResponsePayload::new` keeps the u32 `id` and the `result` unchanged |
| `Payload.RequestFromJson` | src/payload.rs:3-9 | a request read from a JSON object carries that object's string `method`, its u32 `id` and its `params`, so an object lacking a string `method` or a u32 `id` is rejected; only an object or an array can be read as a request |
| `Payload.RequestRoundTrip` | src/payload.rs:3-9 | every request, written as an object with its four fields, reads back unchanged |
| `Payload.RequestAbsentPartnerIsNull` | src/payload.rs:6 | for every object without `partner_id`, in any member order and with any extra members, reading it gives the same outcome as reading it with `"partner_id": null` added, and any request read has partner `None` |
| `Payload.RequestWithoutPartner` | src/payload.rs:4-9 | the object of exactly `method`, `id` and `params` does read, as the request with those values and partner `None` |
| `Payload.RequestDuplicateField` | src/payload.rs:3-9 | an object that names a request field twice is rejected |
| `Payload.ResponseToJson` | src/payload.rs:11-15 | a serialised response is an object of exactly two members, whose `id` and `result` are the response's |
| `Payload.ResponseRoundTrip` | src/payload.rs:11-15 | a serialised response reads back, through a reference reader, as the same response, so both fields are recoverable |
| `Dispatch.Received` | src/main.rs:76-83 | the frame is the datagram's prefix of at most 1024 bytes, and the whole datagram when it fits |
| `Dispatch.Stamp` | src/main.rs:87 | the stamp read from the header; no contract of its own, `StampIsBytes12To15` states which bytes it is |
| `Dispatch.DeviceId` | src/main.rs:88 | the device id read from the header; no contract of its own, `DeviceIdIsBytes8To11` states which bytes it is |
| `Dispatch.StampIsBytes12To15` | src/main.rs:87 | the stamp writes back as header bytes 12-15, and it is zero if and only if all four are zero |
| `Dispatch.DeviceIdIsBytes8To11` | src/main.rs:88 | the device id writes back as header bytes 8-11 |
| `Dispatch.LookupMethod` | src/main.rs:106-153 | a name finds a method if and only if it is one of the six listed names, and the method found has exactly that name |
| `Dispatch.LookupMethodName` | src/main.rs:107-150 | the method table is exact and case-sensitive: a name finds a method if and only if it is that method's name |
| `Dispatch.Route` | src/main.rs:107-153 | a response is produced if and only if the method is known, and it always carries the request's `id` |
| `Dispatch.OtcInfoResult` | src/main.rs:108-126 | the `_otc.info` result object: relay list and test schedule; canned data with no contract |
| `Dispatch.PresignedUrlResult` | src/main.rs:130-140 | the presigned upload object; no contract of its own, `PresignedUrlExpiry` states its expiry |
| `Dispatch.MethodResult` | src/main.rs:107-149 | the canned result per method; no contract of its own, the `Route*` lemmas state each of the six cases |
| `Dispatch.RouteOtcInfo` | src/main.rs:108-126 | `_otc.info` answers the relay-list object `OtcInfoResult` with the request's `id` |
| `Dispatch.RouteOk` | src/main.rs:127-129 | `props`, `event.status` and `event.low_power_back` answer the string `"ok"` with the request's `id` |
| `Dispatch.RouteRoomUpUrls` | src/main.rs:141-148 | `_sync.batch_gen_room_up_url` answers exactly four URLs, `.../robomap/1` up to `.../robomap/4`, in that order |
| `Dispatch.PresignedUrlExpiry` | src/main.rs:132-136 | the presigned upload object's `expires_time` is now + 3600 |
| `Dispatch.RoutePresigned` | src/main.rs:130-140 | `_sync.gen_presigned_url` answers the presigned upload object with the request's `id` |
| `Dispatch.ParseRequest` | src/main.rs:102-105 | `serde_json::from_str` into `MessagePayload`: the abstract text parser followed by `RequestFromJson`; no contract of its own |
| `Dispatch.Reply` | src/main.rs:83-156 | the per-datagram decision for a frame of 32 to 1024 bytes; no contract of its own, the `Reply*` lemmas state its behaviour |
| `Dispatch.ReplyHandshake` | src/main.rs:89-94 | decode miss with stamp zero: the reply is the 32-byte time-sync packet, with prefix 0x21 0x31 0x00 0x20, whose own stamp is the current time modulo 2^32 |
| `Dispatch.ReplyEcho` | src/main.rs:89-99 | decode miss with a nonzero stamp: the reply is the received frame, byte for byte |
| `Dispatch.ReplyMissIgnoresParser` | src/main.rs:89-99 | on a decode miss a reply is always sent, and the JSON parser and routing play no part in it |
| `Dispatch.ReplyDropsUnparsed` | src/main.rs:102-105 | decoded text that does not parse as a request gets no reply |
| `Dispatch.ReplyDropsUnknownMethod` | src/main.rs:150-153 | a request whose method is not one of the six gets no reply |
| `Dispatch.ReplyRouted` | src/main.rs:106-156 | a known request's reply encodes `{"id": request id, "result": the method's result}` with the device id read from header bytes 8-11 |
| `Dispatch.ReplySentIff` | src/main.rs:89-156 | a reply is sent if and only if decoding misses, or the text parses as a request for a known method |
| `Dispatch.ReplyProps` | src/main.rs:127-129 | a `props` request is answered with the encoding of `{"id": request id, "result": "ok"}` for the header's device id |
| `Dispatch.StepAsWritten` | src/main.rs:76-156 | one iteration from the raw datagram as written: the datagram is cut to 1024 bytes, a frame under 32 bytes panics, any other frame gets `Reply`; no contract of its own |
| `Dispatch.ShortDatagramPanics` | src/main.rs:83-85 | every datagram shorter than 32 bytes makes the iteration panic |
| `Dispatch.EmptyDatagramPanics` | src/main.rs:83-85 | the empty datagram, a concrete input, makes the iteration panic |
| `Dispatch.Serve` | src/main.rs:76-156 | corrected iteration: a datagram under 32 bytes gets no reply, and wherever the source does not panic the result is the source's own reply |
| `Dispatch.ServeEchoesTruncated` | src/main.rs:76-99 | an oversized datagram that does not decode and has a nonzero stamp is echoed as its first 1024 bytes |

## Left out

- Socket I/O is not modelled: `UdpSocket::bind`, `recv_from`, `send_to` and the endless `loop`. `Reply` is one iteration, and its result is what would be sent.
- A transport error ends the process through `?`. This is not modelled.
- `Received` assumes that a datagram longer than 1024 bytes is cut to the buffer's size, as `recv_from` does on common platforms.
- The command-line handling is not modelled: `getopts`, `print_usage` and `process::exit`. The cloud key only reaches the model through the `Codec` value.
- `println!` logging is not modelled.
- `SystemTime::now()` is replaced by the parameter `now`, the seconds since the epoch as a u64. One iteration reads the clock at most once, so a single parameter is enough. `duration_since(UNIX_EPOCH).unwrap()` panics when the clock reads earlier than 1970; a u64 `now` cannot express that, so this panic path is not modelled.
- `PresignedUrlResult` computes `now + 3600` as an unbounded integer. The u64 overflow for `now` above 2^64 - 3601 is not modelled.
- The codec's encryption, key derivation and checksum are not modelled, because `src/codec.rs` is not part of this model. No decode/encode round trip is claimed.
- The serde_json text parser and writer are abstract functions in `JsonText`. Their syntax, escaping and number formatting are not modelled.
- `Json` has no floating-point numbers. A request `id` such as `1.0` cannot be written in it.
- serde_json's default map is ordered by key. `Json` objects keep their members in the order written, and the abstract `render` hides the output order.
- `serde_json::to_value("ok")?` and `serde_json::to_vec(..)?` are treated as infallible. Serialising a value with string keys does not fail, so their error paths do not exist in the model.
- A datagram shorter than 32 bytes makes the slicing panic. `Reply` excludes it with its precondition. `StepAsWritten` models the panic and `Serve` the corrected behaviour; see Findings.

## Findings

| source | as written | input that shows it | evidently intended | confidence | as-written member | corrected member |
|---|---|---|---|---|---|---|
| src/main.rs:83-85 | `&buf[..32]` is taken before any length check, so a received datagram under 32 bytes panics and ends the server loop | any UDP datagram of 0 to 31 bytes, from any sender | drop the datagram without a reply and keep serving, like the other "ignore garbage" branches | high; not executed | `Dispatch.StepAsWritten` (shown by `Dispatch.ShortDatagramPanics` and `Dispatch.EmptyDatagramPanics`) | `Dispatch.Serve` |
