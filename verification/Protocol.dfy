// The client side of MQTT 3.1.1 as src/mqtt.c runs it, on values: what each
// call does to the queued messages, together with a history of what was issued,
// sent, acknowledged and delivered.
module Protocol {
  import opened Types
  import opened Wire
  import opened QueueMemory
  import opened MessageQueues
  import PacketId

  // ----- state -----

  // A message at the time it was queued; its serial is its index in `issued`.
  datatype Issue = Issue(bytes: seq<byte>, request: Request, ctype: nat, id: nat)

  datatype Event =
    | Sent(serial: nat, bytes: seq<byte>, first: bool)    // a whole packet on the wire
    | CutOff(serial: nat, bytes: seq<byte>)               // what a failing transport took of a packet
    | Acked(serial: nat, kind: nat, id: nat)                // completed by a response of type `kind`
    | Delivered(qos: nat, id: nat, topic: seq<byte>, message: seq<byte>)   // the publish callback

  // The queue, how many messages have left it, and the history.
  datatype Core = Core(q: seq<Message>, base: nat, issued: seq<Issue>, trace: seq<Event>)

  datatype Client = Client(
    core: Core,
    size: nat,                // bytes of the send buffer
    error: Error,
    lfsr: bv16,
    keepAlive: u16,
    responseTimeout: int,
    timeOfLastSend: nat,
    timeouts: nat,
    inbuf: seq<byte>,         // received bytes not yet consumed
    insize: nat,              // bytes of the receive buffer
    taken: seq<seq<byte>>)    // history: the packets consumed

  // What lies in the memory of a new header.
  datatype Stale = Stale(time: nat, id: u16)

  // ----- steps on the core -----

  function Drop(c: Core, h: nat): Core
    requires h <= |c.q|
  {
    c.(q := c.q[h..], base := c.base + h)
  }

  function Enqueue(c: Core, bytes: seq<byte>, r: Request, id: nat, time: nat): Core {
    c.(q := c.q + [Message(bytes, Unsent, time, TypeOf(r), id)], issued := c.issued + [Issue(bytes, r, TypeOf(r), id)])
  }

  predicate CompletesOnSend(ctype: nat, first: byte) {
    ctype == PUBACK || ctype == PUBCOMP || ctype == DISCONNECT || (ctype == PUBLISH && Qos(first) == 0)
  }

  function Dup(bytes: seq<byte>): seq<byte>
    requires |bytes| > 0
  {
    bytes[0 := WithDup(bytes[0])]
  }

  // The message after a transmission at time now.
  function AfterSend(x: Message, now: nat): Message
    requires |x.bytes| > 0
  {
    var y := x.(timeSent := now);
    if CompletesOnSend(x.ctype, x.bytes[0]) then y.(state := Complete)
    else if x.ctype == PUBLISH && Qos(x.bytes[0]) == 1 then y.(state := AwaitingAck, bytes := Dup(x.bytes))
    else y.(state := AwaitingAck)
  }

  function Transmit(c: Core, i: nat, now: nat): Core
    requires i < |c.q| && |c.q[i].bytes| > 0
  {
    c.(q := c.q[i := AfterSend(c.q[i], now)], trace := c.trace + [Sent(c.base + i, c.q[i].bytes, c.q[i].state.Unsent?)])
  }

  function Acknowledge(c: Core, k: nat, kind: nat, id: nat): Core
    requires k < |c.q|
  {
    c.(q := c.q[k := c.q[k].(state := Complete)], trace := c.trace + [Acked(c.base + k, kind, id)])
  }

  function Note(c: Core, e: Event): Core {
    c.(trace := c.trace + [e])
  }

  // ----- queueing: MQTT_CLIENT_TRY_PACK -----

  function Fail(s: Client, e: Error): (Client, Error) {
    (s.(error := e), e)
  }

  function CleanUp(s: Client): Client {
    s.(core := Drop(s.core, CompletePrefix(s.core.q)))
  }

  function Space(s: Client): nat {
    Room(s.size, |s.core.q|, TotalSize(s.core.q))
  }

  function IdOf(r: Request, stale: Stale): u16 {
    match r
    case PublishRequest(_, id, _, _) => id
    case AckRequest(_, id) => id
    case SubscribeRequest(id, _) => id
    case UnsubscribeRequest(id, _) => id
    case _ => stale.id
  }

  function Add(s: Client, bytes: seq<byte>, r: Request, stale: Stale): Client {
    s.(core := Enqueue(s.core, bytes, r, IdOf(r, stale), stale.time))
  }

  function TryPack(s: Client, r: Request, stale: Stale): (Client, Error) {
    if s.error != OK then (s, s.error)
    else
      match Pack(Space(s), r)
      case Refused(e) => Fail(s, e)
      case Packed(p) => (Add(s, p, r, stale), OK)
      case NoRoom =>
        var t := CleanUp(s);
        match Pack(Space(t), r)
        case Refused(e) => Fail(t, e)
        case NoRoom => Fail(t, SEND_BUFFER_IS_FULL)
        case Packed(p) => (Add(t, p, r, stale), OK)
  }

  // ----- the calls of the application -----

  ghost function DrawId(s: Client): Client {
    s.(lfsr := PacketId.NextId(s.lfsr, UsedIds(s.core.q)))
  }

  datatype Call =
    | CallConnect(request: Request)
    | CallPublish(topic: CString, message: seq<byte>, flags: byte)
    | CallSubscribe(name: CString, maxQos: byte)
    | CallUnsubscribe(name: CString)
    | CallPing
    | CallDisconnect
    | CallReconnect

  predicate DrawsId(c: Call) {
    c.CallPublish? || c.CallSubscribe? || c.CallUnsubscribe?
  }

  // The request of a call that has drawn id.
  function Drawing(c: Call, id: u16): Request
    requires DrawsId(c)
  {
    match c
    case CallPublish(topic, message, flags) => PublishRequest(topic, id, message, flags)
    case CallSubscribe(name, maxQos) => SubscribeRequest(id, [Topic(name, maxQos)])
    case CallUnsubscribe(name) => UnsubscribeRequest(id, [name])
  }

  // A call that draws an identifier returns only if one is available.
  ghost predicate Returns(s: Client, c: Call) {
    DrawsId(c) ==> PacketId.Available(UsedIds(s.core.q))
  }

  ghost function Perform(s: Client, c: Call, stale: Stale): (Client, Error)
    requires c.CallConnect? ==> c.request.ConnectRequest?
  {
    match c
    case CallConnect(r) =>
      var t := s.(keepAlive := r.keepAlive);
      TryPack(if t.error == CONNECT_NOT_CALLED then t.(error := OK) else t, r, stale)
    case CallPing => TryPack(s, PingRequest, stale)
    case CallDisconnect => TryPack(s, DisconnectRequest, stale)
    case CallReconnect =>
      var (t, e) := TryPack(s, DisconnectRequest, stale);
      if e == OK then (t.(error := RECONNECTING), OK) else (t, e)
    case _ =>
      var t := DrawId(s);
      TryPack(t, Drawing(c, PacketId.Number(t.lfsr)), stale)
  }

  // ----- __mqtt_send -----

  // mqtt_pal_sendall over a BIO: everything is sent, or an error after some bytes.
  datatype Attempt = Through | Breaks(after: nat)

  // What the environment does during one __mqtt_send: the transport for
  // message i, the two clock readings around it, and the last reading.
  datatype Outside = Outside(net: nat -> Attempt, checked: nat -> nat, sent: nat -> nat, last: nat, ping: Stale)

  predicate Qos2(x: Message) {
    x.ctype == PUBLISH && |x.bytes| > 0 && Qos(x.bytes[0]) == 2
  }

  predicate Expired(s: Client, i: nat, o: Outside)
    requires i < |s.core.q|
  {
    var x := s.core.q[i];
    x.state.AwaitingAck? && o.checked(i) > x.timeSent + s.responseTimeout
  }

  // Message i is to go out: it is new or overdue, and no QoS 2 PUBLISH ahead of a QoS 2 PUBLISH is in flight.
  predicate Due(s: Client, i: nat, inflight: bool, o: Outside)
    requires i < |s.core.q|
  {
    (s.core.q[i].state.Unsent? || Expired(s, i, o)) && !(Qos2(s.core.q[i]) && inflight)
  }

  predicate Outbound(ctype: nat) {
    ctype == CONNECT || ctype == PUBLISH || PUBACK <= ctype <= PUBCOMP || ctype == SUBSCRIBE || ctype == UNSUBSCRIBE ||
    ctype == PINGREQ || ctype == DISCONNECT
  }

  function CountTimeout(s: Client, i: nat, o: Outside): Client
    requires i < |s.core.q|
  {
    if Expired(s, i, o) then s.(timeouts := s.timeouts + 1) else s
  }

  function InFlight(s: Client, i: nat, inflight: bool): bool
    requires i < |s.core.q|
  {
    inflight || (Qos2(s.core.q[i]) && !s.core.q[i].state.Complete?)
  }

  // Whether every queued message has a first byte.
  predicate HasBytes(q: seq<Message>) {
    forall i :: 0 <= i < |q| ==> |q[i].bytes| > 0
  }

  // Sending message i when the transport takes it.
  function SendOne(s: Client, i: nat, o: Outside): (Client, Error)
    requires i < |s.core.q| && |s.core.q[i].bytes| > 0
  {
    var x := s.core.q[i];
    match o.net(i)
    case Breaks(n) =>
      var cut := if n < |x.bytes| then x.bytes[..n] else x.bytes[..|x.bytes| - 1];
      Fail(s.(core := Note(s.core, CutOff(s.core.base + i, cut))), SOCKET_ERROR)
    case Through =>
      if Outbound(x.ctype) then
        (s.(core := Transmit(s.core, i, o.sent(i)), timeOfLastSend := o.sent(i)), OK)
      else
        Fail(s.(timeOfLastSend := o.sent(i),
                core := s.core.(q := s.core.q[i := x.(timeSent := o.sent(i))],
                                trace := s.core.trace + [Sent(s.core.base + i, x.bytes, x.state.Unsent?)])),
             MALFORMED_REQUEST)
  }

  function SendFrom(s: Client, i: nat, inflight: bool, o: Outside): (Client, Error)
    requires HasBytes(s.core.q)
    decreases |s.core.q| - i
  {
    if i >= |s.core.q| then (s, OK)
    else
      var t := CountTimeout(s, i, o);
      if !Due(s, i, inflight, o) then SendFrom(t, i + 1, InFlight(s, i, inflight), o)
      else
        var (u, e) := SendOne(t, i, o);
        if e != OK then (u, e) else SendFrom(u, i + 1, InFlight(s, i, inflight), o)
  }

  // The keep-alive check behind the loop.
  function KeptAlive(s: Client, now: nat, stale: Stale): (Client, Error) {
    if now > s.timeOfLastSend + s.keepAlive * 3 / 4 then
      var (t, e) := TryPack(s, PingRequest, stale);
      if e != OK then Fail(t, e) else (t, OK)
    else (s, OK)
  }

  function Send(s: Client, o: Outside): (Client, Error)
    requires HasBytes(s.core.q)
  {
    if s.error != OK && s.error != SEND_BUFFER_IS_FULL then (s, s.error)
    else
      var (t, e) := SendFrom(s, 0, false, o);
      if e != OK then (t, e)
      else KeptAlive(t, o.last, o.ping)
  }

  // ----- __mqtt_recv: what a response does -----

  // Completes the message a response of type `kind` acknowledges.
  function Release(s: Client, ctype: nat, id: Option<u16>, kind: nat): (Client, Error) {
    var k := FindIn(s.core.q, ctype, id);
    if k == |s.core.q| then Fail(s, ACK_OF_UNKNOWN)
    else (s.(core := Acknowledge(s.core, k, kind, if id.Some? then id.value else s.core.q[k].id)), OK)
  }

  function Deliver(s: Client, qos: nat, id: u16, topic: seq<byte>, message: seq<byte>): Client {
    s.(core := Note(s.core, Delivered(qos, id, topic, message)))
  }

  // A packet queued in answer to a response; failing to queue it is an error of the client.
  function Answer(s: Client, ctype: nat, id: u16, stale: Stale): (Client, Error) {
    var (t, e) := TryPack(s, AckRequest(ctype, id), stale);
    if e != OK then Fail(t, e) else (t, OK)
  }

  predicate Queued(s: Client, ctype: nat, id: u16) {
    FindIn(s.core.q, ctype, Some(id)) < |s.core.q|
  }

  function HandlePublish(s: Client, qos: nat, id: u16, topic: seq<byte>, message: seq<byte>, stale: Stale)
      : (Client, Error)
  {
    if qos == 1 then
      var (t, e) := Answer(s, PUBACK, id, stale);
      if e != OK then (t, e) else (Deliver(t, qos, id, topic, message), OK)
    else if qos == 2 then
      if Queued(s, PUBREC, id) then (s, OK)
      else
        var (t, e) := Answer(s, PUBREC, id, stale);
        if e != OK then (t, e) else (Deliver(t, qos, id, topic, message), OK)
    else (Deliver(s, qos, id, topic, message), OK)
  }

  function HandleAck(s: Client, kind: nat, id: u16, stale: Stale): (Client, Error) {
    if kind == PUBACK then Release(s, PUBLISH, Some(id), kind)
    else if kind == PUBREC then
      if Queued(s, PUBREL, id) then (s, OK)
      else
        var (t, e) := Release(s, PUBLISH, Some(id), kind);
        if e != OK then (t, e) else Answer(t, PUBREL, id, stale)
    else if kind == PUBREL then
      var (t, e) := Release(s, PUBREC, Some(id), kind);
      if e != OK then (t, e) else Answer(t, PUBCOMP, id, stale)
    else if kind == PUBCOMP then Release(s, PUBREL, Some(id), kind)
    else if kind == UNSUBACK then Release(s, UNSUBSCRIBE, Some(id), kind)
    else Fail(s, MALFORMED_RESPONSE)
  }

  function Handle(s: Client, r: Response, stale: Stale): (Client, Error) {
    match r
    case Connack(_, code) =>
      var (t, e) := Release(s, CONNECT, None, CONNACK);
      if e != OK then (t, e)
      else if code == 0 then (t, OK)
      else Fail(t, if code == 2 then CONNECT_CLIENT_ID_REFUSED else CONNECTION_REFUSED)
    case Publish(_, qos, _, topic, id, message) => HandlePublish(s, qos, id, topic, message, stale)
    case Ack(kind, id) => HandleAck(s, kind, id, stale)
    case Suback(id, codes) =>
      var (t, e) := Release(s, SUBSCRIBE, Some(id), SUBACK);
      if e != OK then (t, e)
      else if codes != [] && codes[0] == 128 then Fail(t, SUBSCRIBE_FAILED)
      else (t, OK)
    case Pingresp => Release(s, PINGREQ, None, PINGRESP)
  }

  // ----- __mqtt_recv: the loop -----

  // One mqtt_pal_recvall: it finds up to n bytes available, or fails; the bytes
  // it has read before it fails are lost.
  datatype Read = Ready(n: nat) | Broken(n: nat)

  // The bytes the broker has yet to deliver, and how the reads to come will find them.
  datatype Link = Link(rest: seq<byte>, ready: seq<Read>)

  function Min(a: nat, b: nat): nat {
    if a < b then a else b
  }

  // How many bytes the next read takes into `room` bytes of buffer.
  function Arriving(l: Link, room: nat): nat {
    if l.ready == [] then 0 else Min(l.ready[0].n, Min(room, |l.rest|))
  }

  function AfterRead(l: Link, room: nat): Link {
    Link(l.rest[Arriving(l, room)..], if l.ready == [] then [] else l.ready[1..])
  }

  // The receive buffer and the link after a read.
  function Buffered(s: Client, l: Link): (buf: seq<byte>)
    requires |s.inbuf| <= s.insize
    ensures |buf| <= s.insize
  {
    s.inbuf + l.rest[..Arriving(l, s.insize - |s.inbuf|)]
  }

  function Onward(s: Client, l: Link): (l': Link)
    requires |s.inbuf| <= s.insize
    ensures |Buffered(s, l)| + |l'.rest| == |s.inbuf| + |l.rest|
  {
    AfterRead(l, s.insize - |s.inbuf|)
  }

  predicate Fails(l: Link) {
    l.ready != [] && l.ready[0].Broken?
  }

  // Handling the response decoded from the first n bytes of the buffer, and removing them.
  function Consume(s: Client, buf: seq<byte>, r: Response, n: nat, stale: Stale): (o: (Client, Error))
    requires n <= |buf|
    ensures o.0.insize == s.insize && o.0.inbuf == buf[n..] && o.0.taken == s.taken + [buf[..n]]
  {
    HandleKeepsBuffer(s.(inbuf := buf), r, stale);
    var (t, e) := Handle(s.(inbuf := buf), r, stale);
    (t.(inbuf := buf[n..], taken := t.taken + [buf[..n]]), e)
  }

  datatype Received = Received(client: Client, link: Link, error: Error)

  function RecvFrom(s: Client, l: Link, stales: nat -> Stale, i: nat): Received
    requires |s.inbuf| <= s.insize
    decreases |l.rest| + |s.inbuf|
  {
    var (buf, l') := (Buffered(s, l), Onward(s, l));
    if Fails(l) then Received(s.(error := SOCKET_ERROR), l', SOCKET_ERROR)
    else
      match Unpack(buf)
      case Malformed(e) => Received(s.(inbuf := buf, error := e), l', e)
      case Overrun => Received(s.(inbuf := buf, error := OVERRUN), l', OVERRUN)
      case Incomplete =>
        if |buf| == s.insize then Received(s.(inbuf := buf, error := RECV_BUFFER_TOO_SMALL), l', RECV_BUFFER_TOO_SMALL)
        else Received(s.(inbuf := buf), l', OK)
      case Decoded(r, n) =>
        var (t, e) := Consume(s, buf, r, n, stales(i));
        if e != OK then Received(t, l', e) else RecvFrom(t, l', stales, i + 1)
  }

  // What queueing and acknowledging leave alone.
  predicate SameBuffers(s: Client, t: Client) {
    t.insize == s.insize && t.inbuf == s.inbuf && t.taken == s.taken && t.size == s.size
  }

  lemma TryPackKeeps(s: Client, r: Request, stale: Stale)
    ensures SameBuffers(s, TryPack(s, r, stale).0)
  {
    hide Pack, Enqueue, Drop, Space, TypeOf, IdOf;
  }

  lemma ReleaseKeeps(s: Client, ctype: nat, id: Option<u16>, kind: nat)
    ensures SameBuffers(s, Release(s, ctype, id, kind).0)
  {
    hide FindIn, Acknowledge;
  }

  // A response leaves the receive side alone.
  lemma HandleKeepsBuffer(s: Client, r: Response, stale: Stale)
    ensures SameBuffers(s, Handle(s, r, stale).0)
  {
    hide TryPack, Release, Note, Queued;
    match r {
      case Connack(_, code) => ReleaseKeeps(s, CONNECT, None, CONNACK);
      case Publish(_, qos, _, topic, id, message) =>
        TryPackKeeps(s, AckRequest(PUBACK, id), stale);
        TryPackKeeps(s, AckRequest(PUBREC, id), stale);
      case Ack(kind, id) =>
        HandleAckKeeps(s, kind, id, stale);
      case Suback(id, codes) => ReleaseKeeps(s, SUBSCRIBE, Some(id), SUBACK);
      case Pingresp => ReleaseKeeps(s, PINGREQ, None, PINGRESP);
    }
  }

  lemma HandleAckKeeps(s: Client, kind: nat, id: u16, stale: Stale)
    ensures SameBuffers(s, HandleAck(s, kind, id, stale).0)
  {
    hide TryPack, Release, Queued;
    ReleaseKeeps(s, PUBLISH, Some(id), kind);
    ReleaseKeeps(s, PUBREC, Some(id), kind);
    ReleaseKeeps(s, PUBREL, Some(id), kind);
    ReleaseKeeps(s, UNSUBSCRIBE, Some(id), kind);
    TryPackKeeps(Release(s, PUBLISH, Some(id), kind).0, AckRequest(PUBREL, id), stale);
    TryPackKeeps(Release(s, PUBREC, Some(id), kind).0, AckRequest(PUBCOMP, id), stale);
  }

  // ----- mqtt_sync and runs -----

  // What happens outside during one mqtt_sync.
  datatype World = World(ready: seq<Read>, arriving: seq<byte>, stales: nat -> Stale, out: Outside)

  datatype Op = Invoke(call: Call, stale: Stale) | Sync(world: World)
}
