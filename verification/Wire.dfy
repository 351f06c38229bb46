// What the packers of src/mqtt.c put on the wire and what the unpackers make of it.
module Wire {
  import opened Types

  // ----- fixed header -----

  function RequiredFlags(ctype: nat): nat {
    if ctype == PUBREL || ctype == SUBSCRIBE || ctype == UNSUBSCRIBE then 2 else 0
  }

  function HeaderViolation(ctype: nat, flags: nat): Error {
    if !(1 <= ctype <= 14) then CONTROL_FORBIDDEN_TYPE
    else if ctype != PUBLISH && flags != RequiredFlags(ctype) then CONTROL_INVALID_FLAGS
    else OK
  }

  // The variable-length encoding of section 2.2.3 of MQTT 3.1.1: seven bits a byte, low bits first.
  function EncodeLength(n: nat): (s: seq<byte>)
    ensures |s| >= 1
  {
    if n < 128 then [n] else [n % 128 + 128] + EncodeLength(n / 128)
  }

  function Header(ctype: nat, flags: nat, rl: nat): (s: seq<byte>)
    requires ctype < 16 && flags < 16
    ensures |s| >= 2
  {
    [16 * ctype + flags] + EncodeLength(rl)
  }

  datatype PackOutcome = Packed(bytes: seq<byte>) | NoRoom | Refused(error: Error)

  function PackHeader(room: nat, ctype: nat, flags: nat, rl: nat): PackOutcome
    requires flags < 16
  {
    if HeaderViolation(ctype, flags) != OK then Refused(HeaderViolation(ctype, flags))
    else if room == 0 then NoRoom
    else if rl >= MAX_REMAINING_LENGTH then Refused(INVALID_REMAINING_LENGTH)
    else if room < |Header(ctype, flags, rl)| + rl then NoRoom
    else Packed(Header(ctype, flags, rl))
  }

  // ----- requests -----

  type CString = seq<byte>

  datatype Will = Will(topic: CString, message: Option<seq<byte>>)

  datatype Topic = Topic(name: CString, maxQos: byte)

  datatype Request =
    | ConnectRequest(clientId: CString, will: Option<Will>, userName: Option<CString>,
                     password: Option<CString>, connectFlags: byte, keepAlive: u16)
    | PublishRequest(topic: CString, id: u16, message: seq<byte>, publishFlags: byte)
    | AckRequest(ackType: nat, ackId: u16)
    | SubscribeRequest(subscribeId: u16, topics: seq<Topic>)
    | UnsubscribeRequest(unsubscribeId: u16, names: seq<CString>)
    | PingRequest
    | DisconnectRequest

  function U16(n: u16): (s: seq<byte>)
    ensures |s| == 2
  {
    [n / 256, n % 256]
  }

  function FromU16(hi: byte, lo: byte): u16 {
    256 * hi + lo
  }

  // A string is written behind its length as a 16-bit number, which keeps
  // only the low 16 bits of longer ones.
  function PackString(s: CString): seq<byte> {
    U16(|s| % 65536) + s[..|s| % 65536]
  }

  function Flag(f: byte, weight: nat): nat
    requires weight > 0
  {
    (f / weight) % 2
  }

  function Qos(f: byte): nat {
    (f / 2) % 4
  }

  function WillQos(f: byte): nat {
    (f / 8) % 4
  }

  function WithDup(b: byte): byte {
    if Flag(b, 8) == 0 then b + 8 else b
  }

  function WithoutDup(b: byte): byte {
    if Flag(b, 8) == 1 then b - 8 else b
  }

  function ConnectFlags(r: Request): byte
    requires r.ConnectRequest?
  {
    var f := r.connectFlags;
    (if r.userName.Some? then 128 else 0) + (if r.password.Some? then 64 else 0) +
    (if r.will.Some? then 32 * Flag(f, 32) + 8 * WillQos(f) + 4 else 0) + 2 * Flag(f, 2)
  }

  function TypeOf(r: Request): nat {
    match r
    case ConnectRequest(_, _, _, _, _, _) => CONNECT
    case PublishRequest(_, _, _, _) => PUBLISH
    case AckRequest(t, _) => t
    case SubscribeRequest(_, _) => SUBSCRIBE
    case UnsubscribeRequest(_, _) => UNSUBSCRIBE
    case PingRequest => PINGREQ
    case DisconnectRequest => DISCONNECT
  }

  function FlagsOf(r: Request): (f: nat)
    ensures f < 16
  {
    match r
    case PublishRequest(_, _, _, f) => (if Qos(f) == 0 then WithoutDup(f) else f) % 16
    case AckRequest(t, _) => if t == PUBREL then 2 else 0
    case SubscribeRequest(_, _) => 2
    case UnsubscribeRequest(_, _) => 2
    case _ => 0
  }

  // What a packer rejects before it looks at the buffer.
  function Rejection(r: Request): Error {
    match r
    case ConnectRequest(clientId, will, _, _, f, _) =>
      if clientId == [] && Flag(f, 2) == 0 then CLEAN_SESSION_IS_REQUIRED
      else if will.Some? && will.value.message.None? then CONNECT_NULL_WILL_MESSAGE
      else if will.Some? && WillQos(f) == 3 then CONNECT_FORBIDDEN_WILL_QOS
      else OK
    case PublishRequest(_, _, _, f) => if Qos(f) == 3 then PUBLISH_FORBIDDEN_QOS else OK
    case SubscribeRequest(_, ts) => if |ts| >= MAX_TOPICS then SUBSCRIBE_TOO_MANY_TOPICS else OK
    case UnsubscribeRequest(_, ts) => if |ts| >= MAX_TOPICS then UNSUBSCRIBE_TOO_MANY_TOPICS else OK
    case _ => OK
  }

  function TopicsLength(ts: seq<Topic>): nat {
    if ts == [] then 0 else TopicsLength(ts[..|ts| - 1]) + |ts[|ts| - 1].name| + 3
  }

  function NamesLength(ts: seq<CString>): nat {
    if ts == [] then 0 else NamesLength(ts[..|ts| - 1]) + |ts[|ts| - 1]| + 2
  }

  function OptionLength(s: Option<CString>): nat {
    if s.Some? then |s.value| + 2 else 0
  }

  function WillLength(w: Option<Will>): nat {
    if w.Some? && w.value.message.Some? then |w.value.topic| + 2 + |w.value.message.value| + 2 else 0
  }

  // The remaining length that the packer declares in the fixed header.
  function RemainingLength(r: Request): nat {
    match r
    case ConnectRequest(c, w, u, p, _, _) => 10 + |c| + 2 + WillLength(w) + OptionLength(u) + OptionLength(p)
    case PublishRequest(t, _, m, f) => |t| + 2 + (if Qos(f) > 0 then 2 else 0) + |m|
    case AckRequest(_, _) => 2
    case SubscribeRequest(_, ts) => 2 + TopicsLength(ts)
    case UnsubscribeRequest(_, ts) => 2 + NamesLength(ts)
    case _ => 0
  }

  function PackTopics(ts: seq<Topic>): seq<byte> {
    if ts == [] then []
    else PackTopics(ts[..|ts| - 1]) + PackString(ts[|ts| - 1].name) + [ts[|ts| - 1].maxQos]
  }

  function PackNames(ts: seq<CString>): seq<byte> {
    if ts == [] then [] else PackNames(ts[..|ts| - 1]) + PackString(ts[|ts| - 1])
  }

  function PackOption(s: Option<CString>): seq<byte> {
    if s.Some? then PackString(s.value) else []
  }

  function PackWill(w: Option<Will>): seq<byte> {
    if w.Some? && w.value.message.Some?
    then PackString(w.value.topic) + U16(|w.value.message.value| % 65536) + w.value.message.value
    else []
  }

  const PROTOCOL: seq<byte> := [0x00, 0x04, 0x4D, 0x51, 0x54, 0x54, 0x04]

  // Everything behind the fixed header.
  function Body(r: Request): seq<byte> {
    match r
    case ConnectRequest(c, w, u, p, _, k) =>
      PROTOCOL + [ConnectFlags(r)] + U16(k) + PackString(c) + PackWill(w) + PackOption(u) + PackOption(p)
    case PublishRequest(t, id, m, f) => PackString(t) + (if Qos(f) > 0 then U16(id) else []) + m
    case AckRequest(_, id) => U16(id)
    case SubscribeRequest(id, ts) => U16(id) + PackTopics(ts)
    case UnsubscribeRequest(id, ts) => U16(id) + PackNames(ts)
    case _ => []
  }

  // bytes are the packet for r, which no packer rejects.
  predicate Encodes(bytes: seq<byte>, r: Request) {
    && Rejection(r) == OK && HeaderViolation(TypeOf(r), FlagsOf(r)) == OK && RemainingLength(r) < MAX_REMAINING_LENGTH
    && bytes == Header(TypeOf(r), FlagsOf(r), RemainingLength(r)) + Body(r)
  }

  function Pack(room: nat, r: Request): PackOutcome {
    if Rejection(r) != OK then Refused(Rejection(r))
    else
      var h := PackHeader(room, TypeOf(r), FlagsOf(r), RemainingLength(r));
      if h.Packed? then Packed(h.bytes + Body(r)) else h
  }

  // ----- responses -----

  datatype Response =
    | Connack(sessionPresent: byte, returnCode: byte)
    | Publish(dup: nat, qos: nat, retain: nat, topic: seq<byte>, id: u16, message: seq<byte>)
    | Ack(ackType: nat, ackId: u16)
    | Suback(subackId: u16, codes: seq<byte>)
    | Pingresp

  // Overrun is a PUBLISH whose topic length exceeds its remaining length: the code reads on behind the packet.
  datatype UnpackOutcome =
    | Decoded(response: Response, consumed: nat)
    | Incomplete
    | Malformed(error: Error)
    | Overrun

  datatype LengthOutcome = Length(value: nat, used: nat) | NeedMore | TooLong

  // The length bytes behind the first byte; k of them have been read.
  function DecodeLength(s: seq<byte>, k: nat): (o: LengthOutcome)
    requires k <= 4
    ensures o.Length? ==> 1 <= o.used <= |s| && o.used <= 4 - k
    decreases 4 - k
  {
    if k == 4 then TooLong
    else if s == [] then NeedMore
    else if s[0] < 128 then Length(s[0], 1)
    else match DecodeLength(s[1..], k + 1)
      case Length(n, u) => Length(s[0] - 128 + 128 * n, u + 1)
      case other => other
  }

  datatype HeaderOutcome =
    | HeaderOf(ctype: nat, flags: nat, rl: nat, size: nat)
    | HeaderIncomplete
    | HeaderBad(error: Error)

  function UnpackHeader(s: seq<byte>): (o: HeaderOutcome)
    ensures o.HeaderOf? ==> 2 <= o.size <= 5 && o.size + o.rl <= |s| && 1 <= o.ctype <= 14 && o.flags < 16
  {
    if s == [] then HeaderIncomplete
    else
      match DecodeLength(s[1..], 0)
      case NeedMore => HeaderIncomplete
      case TooLong => HeaderBad(INVALID_REMAINING_LENGTH)
      case Length(n, u) =>
        if HeaderViolation(s[0] / 16, s[0] % 16) != OK then HeaderBad(HeaderViolation(s[0] / 16, s[0] % 16))
        else if |s| - 1 - u < n then HeaderIncomplete
        else HeaderOf(s[0] / 16, s[0] % 16, n, u + 1)
  }

  datatype BodyOutcome = BodyOf(response: Response) | BodyBad(error: Error) | BodyOverrun

  function UnpackConnack(b: seq<byte>): BodyOutcome {
    if |b| != 2 then BodyBad(MALFORMED_RESPONSE)
    else if b[0] > 1 then BodyBad(CONNACK_FORBIDDEN_FLAGS)
    else if b[1] > 5 then BodyBad(CONNACK_FORBIDDEN_CODE)
    else BodyOf(Connack(b[0], b[1]))
  }

  function UnpackPublish(flags: nat, b: seq<byte>): BodyOutcome
    requires flags < 16
  {
    if |b| < 4 then BodyBad(MALFORMED_RESPONSE)
    else
      var t := FromU16(b[0], b[1]);
      if Qos(flags) == 0 then
        if 2 + t > |b| then BodyOverrun
        else BodyOf(Publish(Flag(flags, 8), 0, flags % 2, b[2..2 + t], 0, b[2 + t..]))
      else
        if 4 + t > |b| then BodyOverrun
        else BodyOf(Publish(Flag(flags, 8), Qos(flags), flags % 2, b[2..2 + t], FromU16(b[2 + t], b[3 + t]),
                            b[4 + t..]))
  }

  function UnpackAck(ctype: nat, b: seq<byte>): BodyOutcome {
    if |b| != 2 then BodyBad(MALFORMED_RESPONSE) else BodyOf(Ack(ctype, FromU16(b[0], b[1])))
  }

  function UnpackSuback(b: seq<byte>): BodyOutcome {
    if |b| < 3 then BodyBad(MALFORMED_RESPONSE) else BodyOf(Suback(FromU16(b[0], b[1]), b[2..]))
  }

  function UnpackBody(ctype: nat, flags: nat, b: seq<byte>): BodyOutcome
    requires flags < 16
  {
    if ctype == CONNACK then UnpackConnack(b)
    else if ctype == PUBLISH then UnpackPublish(flags, b)
    else if PUBACK <= ctype <= PUBCOMP || ctype == UNSUBACK then UnpackAck(ctype, b)
    else if ctype == SUBACK then UnpackSuback(b)
    else BodyBad(RESPONSE_INVALID_CONTROL_TYPE)
  }

  // mqtt_unpack_response; a PINGRESP is taken to end with its fixed header.
  function Unpack(s: seq<byte>): (o: UnpackOutcome)
    ensures o.Decoded? ==> 2 <= o.consumed <= |s|
  {
    match UnpackHeader(s)
    case HeaderIncomplete => Incomplete
    case HeaderBad(e) => Malformed(e)
    case HeaderOf(t, f, rl, n) =>
      if t == PINGRESP then Decoded(Pingresp, n)
      else match UnpackBody(t, f, s[n..n + rl])
        case BodyOf(r) => Decoded(r, n + rl)
        case BodyBad(e) => Malformed(e)
        case BodyOverrun => Overrun
  }
}
