// What a call of the application queues.
module Calls {
  import opened Types
  import opened Wire
  import opened WireProofs
  import opened QueueMemory
  import opened MessageQueues
  import opened Protocol
  import opened Steps
  import opened Brokers
  import PacketId

  // ----- queueing -----

  // The bytes free for a packet behind these messages and their headers of 40 bytes, and its own.
  function Free(size: nat, q: seq<Message>): int {
    size - TotalSize(q) - 40 * (|q| + 1)
  }

  // t is s without the first h messages, all complete, and with one new message for r.
  ghost predicate Queues(s: Client, t: Client, r: Request, id: u16, h: nat) {
    && h <= |s.core.q| && (forall i :: 0 <= i < h ==> s.core.q[i].state == Complete)
    && |t.core.q| == |s.core.q| - h + 1
    && var x := t.core.q[|s.core.q| - h];
       && x.state == Unsent && x.id == id && 2 <= |x.bytes| <= Free(s.size, s.core.q[h..])
       && x.ctype == x.bytes[0] / 16 == TypeOf(r)
       && t == s.(core := Core(s.core.q[h..] + [x], s.core.base + h, s.core.issued + [Issue(x.bytes, r, x.ctype, id)],
                               s.core.trace))
       && Says(x.bytes, r)
  }

  // A broker reads these bytes as what r is to say, whatever follows, if its strings fit their lengths.
  ghost predicate Says(bytes: seq<byte>, r: Request) {
    LengthsFit(r) ==>
      forall rest :: ReadPacket(bytes + rest) == Taken(if Conforms(r) then Some(Meaning(r)) else None, rest)
  }

  // What the requests of this client are like.
  predicate ProperAck(r: Request) {
    r.AckRequest? ==> 4 <= r.ackType <= 7
  }

  lemma PackedSays(room: nat, r: Request)
    requires Pack(room, r).Packed? && ProperAck(r)
    ensures var p := Pack(room, r).bytes; 2 <= |p| <= room && p[0] / 16 == TypeOf(r) && Says(p, r)
  {
    PackedLength(room, r);
    FirstByteOf(TypeOf(r), FlagsOf(r));
    TypeBelow(r);
    hide Pack, Meaning, Conforms, TypeOf, FlagsOf, LengthsFit, ReadPacket, Header, RemainingLength;
    var p := Pack(room, r).bytes;
    if LengthsFit(r) {
      forall rest ensures ReadPacket(p + rest) == Taken(if Conforms(r) then Some(Meaning(r)) else None, rest) {
        PackedMeaning(room, r, rest);
      }
    }
  }

  lemma RoomIsFree(size: nat, q: seq<Message>, n: nat)
    requires 0 < n <= Room(size, |q|, TotalSize(q))
    ensures n <= Free(size, q)
  {
    hide TotalSize;
  }

  lemma AddQueues(s: Client, h: nat, r: Request, stale: Stale, bytes: seq<byte>)
    requires h <= |s.core.q| && (forall i :: 0 <= i < h ==> s.core.q[i].state == Complete)
    requires 2 <= |bytes| <= Free(s.size, s.core.q[h..]) && bytes[0] / 16 == TypeOf(r) && Says(bytes, r)
    ensures Queues(s, Add(s.(core := Drop(s.core, h)), bytes, r, stale), r, IdOf(r, stale), h)
  {
    hide Says, TypeOf, IdOf, Free;
  }

  lemma TypeBelow(r: Request)
    requires ProperAck(r)
    ensures 1 <= TypeOf(r) < 16
  {
  }

  // Exactly the complete messages at the front.
  ghost predicate CompleteFront(q: seq<Message>, h: nat) {
    && h <= |q| && (forall i :: 0 <= i < h ==> q[i].state == Complete)
    && (h < |q| ==> q[h].state != Complete)
  }

  // Whether the packet for r, as long as its header declares, fits behind these messages.
  predicate HasRoom(size: nat, q: seq<Message>, r: Request) {
    var n := RemainingLength(r);
    1 + LengthSize(n) + n <= Free(size, q)
  }

  // s without its first h messages.
  function Without(s: Client, h: nat): Client
    requires h <= |s.core.q|
  {
    s.(core := s.core.(q := s.core.q[h..], base := s.core.base + h))
  }

  // What queueing does; h is the number of complete messages at the front.
  // With an error set it does nothing, and what is forbidden is refused.
  // Otherwise the packet is queued last: without cleaning if it has the room as
  // it is, after cleaning if it has it then, and else not at all.
  ghost predicate Queueing(s: Client, r: Request, id: u16, t: Client, e: Error, h: nat) {
    && CompleteFront(s.core.q, h)
    && if s.error != OK then t == s && e == s.error
       else if Forbidden(r) then t == s.(error := e) && e == Reason(r) && e != OK
       else if RemainingLength(r) >= 0x1000_0000 then
         && (e == INVALID_REMAINING_LENGTH || e == SEND_BUFFER_IS_FULL)
         && (t == s.(error := e) || t == Without(s, h).(error := e))
       else if HasRoom(s.size, s.core.q, r) then e == OK && Queues(s, t, r, id, 0)
       else if HasRoom(s.size, s.core.q[h..], r) then e == OK && Queues(s, t, r, id, h)
       else e == SEND_BUFFER_IS_FULL && t == Without(s, h).(error := e)
  }

  lemma HasRoomIs(size: nat, q: seq<Message>, r: Request)
    ensures var (n, room) := (RemainingLength(r), Room(size, |q|, TotalSize(q)));
            HasRoom(size, q, r) <==> room >= 1 + LengthSize(n) + n
  {
    hide TotalSize, RemainingLength;
  }

  lemma PackInRoom(s: Client, h: nat, r: Request)
    requires h <= |s.core.q| && ProperAck(r)
    ensures var (u, n) := (Without(s, h), RemainingLength(r));
            && u == s.(core := Drop(s.core, h))
            && (Forbidden(r) ==> Pack(Space(u), r) == Refused(Reason(r)) && Reason(r) != OK)
            && (!Forbidden(r) && n >= 0x1000_0000 ==>
                  Pack(Space(u), r) == NoRoom || Pack(Space(u), r) == Refused(INVALID_REMAINING_LENGTH))
            && (!Forbidden(r) && n < 0x1000_0000 ==>
                  if HasRoom(s.size, s.core.q[h..], r)
                  then Pack(Space(u), r).Packed? && |Pack(Space(u), r).bytes| <= Free(s.size, s.core.q[h..])
                       && PackedAs(Pack(Space(u), r).bytes, r)
                  else Pack(Space(u), r) == NoRoom)
  {
    var u := Without(s, h);
    PackDecided(Space(u), r);
    HasRoomIs(s.size, u.core.q, r);
    if Pack(Space(u), r).Packed? {
      PackedSays(Space(u), r);
      hide Pack, Forbidden, HasRoom, Free, Room, TotalSize;
      RoomIsFree(s.size, u.core.q, |Pack(Space(u), r).bytes|);
    }
  }

  ghost predicate PackedAs(p: seq<byte>, r: Request) {
    |p| >= 2 && p[0] / 16 == TypeOf(r) && Says(p, r)
  }

  // The packet for r next to what is left of the queue.
  lemma PlacedIn(s: Client, h: nat, r: Request, stale: Stale)
    requires h <= |s.core.q| && (forall i :: 0 <= i < h ==> s.core.q[i].state == Complete) && ProperAck(r)
    requires !Forbidden(r) && RemainingLength(r) < 0x1000_0000
    ensures var (u, ok) := (Without(s, h), HasRoom(s.size, s.core.q[h..], r));
            && (ok ==>
                  Pack(Space(u), r).Packed?
                  && Queues(s, Add(u, Pack(Space(u), r).bytes, r, stale), r, IdOf(r, stale), h))
            && (!ok ==> Pack(Space(u), r) == NoRoom)
  {
    hide Pack, Space, HasRoom, Free, Forbidden, RemainingLength, Add, Queues, Says, TypeOf, IdOf;
    PackInRoom(s, h, r);
    if HasRoom(s.size, s.core.q[h..], r) {
      AddQueues(s, h, r, stale, Pack(Space(Without(s, h)), r).bytes);
    }
  }

  lemma FrontIs(s: Client)
    ensures var h := CompletePrefix(s.core.q); CompleteFront(s.core.q, h) && CleanUp(s) == Without(s, h)
    ensures Without(s, 0) == s && s.core.q[0..] == s.core.q
  {
  }

  lemma QueueingHolds(s: Client, r: Request, stale: Stale) returns (h: nat)
    requires ProperAck(r)
    ensures var (t, e) := TryPack(s, r, stale); Queueing(s, r, IdOf(r, stale), t, e, h)
  {
    hide Pack, Space, HasRoom, Free, Forbidden, Reason, RemainingLength, Add, Queues, Says, TypeOf, IdOf,
         CompletePrefix, CompleteFront, CleanUp, Without;
    h := CompletePrefix(s.core.q);
    FrontIs(s);
    FrontComplete(s.core.q, h);
    PackInRoom(s, 0, r);
    PackInRoom(s, h, r);
    if !Forbidden(r) && RemainingLength(r) < 0x1000_0000 {
      PlacedIn(s, 0, r, stale);
      PlacedIn(s, h, r, stale);
    }
  }

  lemma FrontComplete(q: seq<Message>, h: nat)
    requires CompleteFront(q, h)
    ensures h <= |q| && forall i :: 0 <= i < h ==> q[i].state == Complete
  {
  }

  // ----- calls -----

  // The request a call makes, with the identifier it draws if it draws one.
  function RequestOf(call: Call, id: u16): Request {
    match call
    case CallConnect(r) => r
    case CallPublish(topic, message, flags) => PublishRequest(topic, id, message, flags)
    case CallSubscribe(name, maxQos) => SubscribeRequest(id, [Topic(name, maxQos)])
    case CallUnsubscribe(name) => UnsubscribeRequest(id, [name])
    case CallPing => PingRequest
    case CallDisconnect => DisconnectRequest
    case CallReconnect => DisconnectRequest
  }

  predicate Draws(call: Call) {
    call.CallPublish? || call.CallSubscribe? || call.CallUnsubscribe?
  }

  // The client as a call hands it to the packing: mqtt_connect sets the
  // keep-alive and ends the state before it was called, and an identifier may have been drawn.
  function Prepared(s: Client, call: Call, lfsr: bv16): Client {
    s.(keepAlive := if call.CallConnect? && call.request.ConnectRequest? then call.request.keepAlive else s.keepAlive,
       error := if call.CallConnect? && s.error == CONNECT_NOT_CALLED then OK else s.error,
       lfsr := lfsr)
  }

  // Every call queues the one packet that a broker reads as what it asks for,
  // with an identifier in use by no queued message where there is one. When it
  // does so and what it does otherwise says Queueing. mqtt_reconnect also
  // leaves the error that makes the next mqtt_sync disconnect.
  lemma CallQueues(s: Client, call: Call, stale: Stale) returns (id: u16, h: nat)
    requires (call.CallConnect? ==> call.request.ConnectRequest?) && Returns(s, call)
    ensures Draws(call) ==> id >= 1 && forall i :: 0 <= i < |s.core.q| ==> s.core.q[i].id != id
    ensures Draws(call) ==> PacketId.Number(Perform(s, call, stale).0.lfsr) == id
    ensures var (t, e) := Perform(s, call, stale);
            && (!Draws(call) ==> t.lfsr == s.lfsr)
            && (call.CallReconnect? && e == OK ==> t.error == RECONNECTING)
            && Queueing(Prepared(s, call, t.lfsr), RequestOf(call, id), id,
                        if call.CallReconnect? && e == OK then t.(error := OK) else t, e, h)
  {
    hide TryPack, Queueing, PacketId.NextId, PacketId.Number, PacketId.Available, UsedIds;
    id := stale.id;
    var u := s;
    if Draws(call) {
      DrawnId(s);
      u := DrawId(s);
      id := PacketId.Number(u.lfsr);
      NotUsed(s.core.q, id);
    }
    var v := Prepared(s, call, u.lfsr);
    h := QueueingHolds(v, RequestOf(call, id), stale);
    var r := RequestOf(call, id);
    if TryPack(v, r, stale).1 == OK {
      QueueingOk(v, r, IdOf(r, stale), TryPack(v, r, stale).0, h);
    }
    TryPackLfsr(v, r, stale);
  }

  lemma NotUsed(q: seq<Message>, id: nat)
    requires id !in UsedIds(q)
    ensures forall i :: 0 <= i < |q| ==> q[i].id != id
  {
    forall i | 0 <= i < |q| ensures q[i].id != id {
      assert q[i].id in UsedIds(q);
    }
  }

  lemma QueueingOk(s: Client, r: Request, id: u16, t: Client, h: nat)
    requires Queueing(s, r, id, t, OK, h)
    ensures s.error == t.error == OK
  {
    hide HasRoom, Says, CompleteFront;
  }

  lemma TryPackLfsr(s: Client, r: Request, stale: Stale)
    ensures TryPack(s, r, stale).0.lfsr == s.lfsr
  {
    hide Pack, Enqueue, Drop, Space, TypeOf, IdOf;
  }
}
