// struct mqtt_client and the functions of src/mqtt.c that work on it, each
// proved to do what Protocol says it does.
module Clients {
  import opened Types
  import opened Wire
  import opened QueueMemory
  import opened MessageQueues
  import opened Protocol
  import opened Runs
  import opened Handshakes
  import opened Unpackers
  import opened Packers
  import LfsrWords
  import PacketId
  import Transport

  class MqttClient {
    const mq: MessageQueue
    const recvBuf: array<byte>
    var received: nat            // recv_buffer.curr, as an offset
    var error: Error
    var pidLfsr: bv16
    var keepAlive: u16
    var responseTimeout: int
    var timeOfLastSend: nat
    var numberOfTimeouts: nat
    var sendOffset: nat          // bytes of the packet under way that are out; 0 between packets
    ghost var base: nat
    ghost var issued: seq<Issue>
    ghost var trace: seq<Event>
    ghost var taken: seq<seq<byte>>

    ghost predicate Valid()
      reads this, mq, mq.mem, recvBuf
    {
      mq.Valid() && mq.mem != recvBuf && received <= recvBuf.Length && sendOffset == 0
    }

    // The client as a value, with its history.
    ghost function State(): Client
      requires Valid()
      reads this, mq, mq.mem, recvBuf
    {
      Client(Core(mq.Contents(), base, issued, trace), mq.mem.Length, error, pidLfsr, keepAlive, responseTimeout,
             timeOfLastSend, numberOfTimeouts, recvBuf[..received], recvBuf.Length, taken)
    }

    // mqtt_init; keep_alive and time_of_last_send keep what lay in memory.
    constructor (sendbuf: array<byte>, recvbuf: array<byte>, staleKeepAlive: u16, lastSend: nat)
      requires sendbuf != recvbuf && sendbuf.Length <= Range(8)
      ensures Valid() && mq.mem == sendbuf && recvBuf == recvbuf && fresh(mq)
      ensures State() == Init(sendbuf.Length, recvbuf.Length, staleKeepAlive, lastSend)
    {
      mq := new MessageQueue(sendbuf);
      recvBuf, received := recvbuf, 0;
      error, pidLfsr, keepAlive, responseTimeout := CONNECT_NOT_CALLED, 0, staleKeepAlive, 30;
      timeOfLastSend, numberOfTimeouts, sendOffset := lastSend, 0, 0;
      base, issued, trace, taken := 0, [], [], [];
    }

    method SetError(e: Error)
      requires Valid()
      modifies this`error
      ensures Valid() && State() == old(State()).(error := e)
    {
      error := e;
    }

    method CountTimeoutOf()
      requires Valid()
      modifies this`numberOfTimeouts
      ensures Valid() && State() == old(State()).(timeouts := old(State()).timeouts + 1)
    {
      numberOfTimeouts := numberOfTimeouts + 1;
    }

    // mqtt_mq_clean
    method CleanQueue()
      requires Valid()
      modifies this`base, mq, mq.mem
      ensures Valid() && State() == CleanUp(old(State()))
    {
      hide MessageQueue.Valid, MessageQueue.Contents, CompletePrefix;
      base := base + CompletePrefix(mq.Contents());
      mq.Clean();
    }

    // The packet for r lies at curr, n bytes long.
    ghost predicate Ready(r: Request, n: nat)
      requires Valid()
      reads this, mq, mq.mem, recvBuf
    {
      && 0 < n <= mq.currSz && mq.curr + n <= mq.mem.Length
      && Pack(Space(State()), r) == Packed(mq.mem[mq.curr..mq.curr + n])
    }

    // A packer called on the queue's free space.
    method PackRequest(r: Request) returns (n: nat, e: Error)
      requires Valid()
      modifies mq.mem
      ensures Valid() && State() == old(State())
      ensures match Pack(Space(State()), r)
              case Packed(p) => e == OK && n > 0 && Ready(r, n)
              case NoRoom => e == OK && n == 0
              case Refused(f) => e == f && e != OK && n == 0
    {
      hide Pack, Space, MessageQueue.Valid, MessageQueue.Contents;
      SpaceIsCurrSz();
      n, e := mq.Pack(r);
    }

    lemma SpaceIsCurrSz()
      requires Valid()
      ensures Space(State()) == mq.currSz
    {
      MessagesSize(mq.mem[..], mq.length, mq.curr);
    }

    // mqtt_mq_register and the assignments to control_type and packet_id that follow it.
    method RegisterRequest(r: Request, n: nat) returns (ghost stale: Stale)
      requires Valid() && TypeOf(r) < 16 && Ready(r, n)
      modifies this`issued, mq, mq.mem
      ensures Valid() && State() == Add(old(State()), Pack(Space(old(State())), r).bytes, r, stale)
    {
      hide Pack, Space, TypeOf, IdOf, MessageQueue.Valid, MessageQueue.Contents;
      ghost var p := mq.mem[mq.curr..mq.curr + n];
      stale := RegisterFields(mq, r, n, p);
      issued := issued + [Issue(p, r, TypeOf(r), IdOf(r, stale))];
    }

    // MQTT_CLIENT_TRY_PACK
    method TryPack(r: Request) returns (e: Error, ghost stale: Stale)
      requires Valid() && TypeOf(r) < 16
      modifies this`base, this`issued, this`error, mq, mq.mem
      ensures Valid() && (State(), e) == Protocol.TryPack(old(State()), r, stale)
    {
      Fields();
      hide State, Valid, Ready, Pack, Space, Add, CleanUp, TypeOf;
      stale := Stale(0, 0);
      if error != OK {
        return error, stale;
      }
      var n;
      n, e := PackRequest(r);
      if e != OK {
        SetError(e);
        return;
      }
      if n == 0 {
        CleanQueue();
        n, e := PackRequest(r);
        if e != OK {
          SetError(e);
          return;
        } else if n == 0 {
          SetError(SEND_BUFFER_IS_FULL);
          e := SEND_BUFFER_IS_FULL;
          return;
        }
      }
      stale := RegisterRequest(r, n);
    }

    // __mqtt_next_pid; it returns exactly if an identifier is available.
    method NextPid() returns (id: u16)
      requires Valid() && PacketId.Available(UsedIds(mq.Contents()))
      modifies this`pidLfsr
      ensures Valid() && State() == DrawId(old(State())) && id == PacketId.Number(State().lfsr)
    {
      hide PacketId.NextId, PacketId.Available, PacketId.Number, MessageQueue.Valid, MessageQueue.Contents;
      pidLfsr := SearchPid(mq, pidLfsr);
      id := PacketId.Number(pidLfsr);
    }

    // ----- the calls of the application -----

    // mqtt_connect
    method Connect(r: Request) returns (e: Error, ghost stale: Stale)
      requires Valid() && r.ConnectRequest?
      modifies this`base, this`issued, this`error, this`keepAlive, mq, mq.mem
      ensures Valid() && (State(), e) == Perform(old(State()), CallConnect(r), stale)
    {
      StartConnect(r.keepAlive);
      hide State, Valid, MessageQueue.Valid, MessageQueue.Contents, Protocol.TryPack;
      e, stale := TryPack(r);
    }

    method StartConnect(k: u16)
      requires Valid()
      modifies this`error, this`keepAlive
      ensures Valid()
      ensures var s := old(State());
              State() == s.(keepAlive := k, error := if s.error == CONNECT_NOT_CALLED then OK else s.error)
    {
      keepAlive := k;
      if error == CONNECT_NOT_CALLED {
        error := OK;
      }
    }

    // What mqtt_publish, mqtt_subscribe and mqtt_unsubscribe do.
    method Draw(c: Call) returns (e: Error, ghost stale: Stale)
      requires Valid() && DrawsId(c) && Returns(State(), c)
      modifies this`base, this`issued, this`error, this`pidLfsr, mq, mq.mem
      ensures Valid() && (State(), e) == Perform(old(State()), c, stale)
    {
      Fields();
      hide State, Valid, MessageQueue.Valid, MessageQueue.Contents, Protocol.TryPack, DrawId, PacketId.Number,
           PacketId.Available, Drawing;
      var id := NextPid();
      DrawingType(c, id);
      e, stale := TryPack(Drawing(c, id));
    }

    // mqtt_publish; it returns exactly if an identifier is available.
    method Publish(topic: CString, message: seq<byte>, flags: byte) returns (e: Error, ghost stale: Stale)
      requires Valid() && Returns(State(), CallPublish(topic, message, flags))
      modifies this`base, this`issued, this`error, this`pidLfsr, mq, mq.mem
      ensures Valid() && (State(), e) == Perform(old(State()), CallPublish(topic, message, flags), stale)
    {
      hide State, Valid, MessageQueue.Valid, MessageQueue.Contents, Perform, PacketId.Available;
      e, stale := Draw(CallPublish(topic, message, flags));
    }

    // mqtt_subscribe
    method Subscribe(name: CString, maxQos: byte) returns (e: Error, ghost stale: Stale)
      requires Valid() && Returns(State(), CallSubscribe(name, maxQos))
      modifies this`base, this`issued, this`error, this`pidLfsr, mq, mq.mem
      ensures Valid() && (State(), e) == Perform(old(State()), CallSubscribe(name, maxQos), stale)
    {
      hide State, Valid, MessageQueue.Valid, MessageQueue.Contents, Perform, PacketId.Available;
      e, stale := Draw(CallSubscribe(name, maxQos));
    }

    // mqtt_unsubscribe
    method Unsubscribe(name: CString) returns (e: Error, ghost stale: Stale)
      requires Valid() && Returns(State(), CallUnsubscribe(name))
      modifies this`base, this`issued, this`error, this`pidLfsr, mq, mq.mem
      ensures Valid() && (State(), e) == Perform(old(State()), CallUnsubscribe(name), stale)
    {
      hide State, Valid, MessageQueue.Valid, MessageQueue.Contents, Perform, PacketId.Available;
      e, stale := Draw(CallUnsubscribe(name));
    }

    // mqtt_ping
    method Ping() returns (e: Error, ghost stale: Stale)
      requires Valid()
      modifies this`base, this`issued, this`error, mq, mq.mem
      ensures Valid() && (State(), e) == Perform(old(State()), CallPing, stale)
    {
      hide State, Valid, MessageQueue.Valid, MessageQueue.Contents, Protocol.TryPack;
      e, stale := TryPack(PingRequest);
    }

    // mqtt_disconnect
    method Disconnect() returns (e: Error, ghost stale: Stale)
      requires Valid()
      modifies this`base, this`issued, this`error, mq, mq.mem
      ensures Valid() && (State(), e) == Perform(old(State()), CallDisconnect, stale)
    {
      hide State, Valid, MessageQueue.Valid, MessageQueue.Contents, Protocol.TryPack;
      e, stale := TryPack(DisconnectRequest);
    }

    // mqtt_reconnect
    method Reconnect() returns (e: Error, ghost stale: Stale)
      requires Valid()
      modifies this`base, this`issued, this`error, mq, mq.mem
      ensures Valid() && (State(), e) == Perform(old(State()), CallReconnect, stale)
    {
      hide State, Valid, MessageQueue.Valid, MessageQueue.Contents, Protocol.TryPack;
      e, stale := Disconnect();
      if e == OK {
        SetError(RECONNECTING);
      }
    }

    // ----- responses -----

    // Finds the message a response of type `kind` acknowledges and completes it.
    method Release(ctype: nat, id: Option<u16>, ghost kind: nat) returns (e: Error)
      requires Valid()
      modifies this`trace, this`error, mq.mem
      ensures Valid() && (State(), e) == Protocol.Release(old(State()), ctype, id, kind)
    {
      Fields();
      hide State, Valid, MessageQueue.Valid, MessageQueue.Contents, FindIn, Protocol.Acknowledge;
      var k := mq.Find(ctype, id);
      if k == mq.length {
        SetError(ACK_OF_UNKNOWN);
        return ACK_OF_UNKNOWN;
      }
      Complete(k, kind, if id.Some? then id.value else State().core.q[k].id);
      e := OK;
    }

    // state = MQTT_QUEUED_COMPLETE
    method Complete(k: nat, ghost kind: nat, ghost id: nat)
      requires Valid() && k < mq.length
      modifies this`trace, mq.mem
      ensures Valid() && State() == old(State()).(core := Protocol.Acknowledge(old(State()).core, k, kind, id))
    {
      hide MessageQueue.Valid, MessageQueue.Contents, Range;
      SmallRange();
      mq.SetMessageField(k, StateField, 2);
      trace := trace + [Acked(base + k, kind, id)];
    }

    // __mqtt_puback, __mqtt_pubrec, __mqtt_pubrel and __mqtt_pubcomp, and what __mqtt_recv does with their result.
    method Answer(ctype: nat, id: u16) returns (e: Error, ghost stale: Stale)
      requires Valid() && ctype < 16
      modifies this`base, this`issued, this`error, mq, mq.mem
      ensures Valid() && (State(), e) == Protocol.Answer(old(State()), ctype, id, stale)
    {
      hide State, Valid, MessageQueue.Valid, MessageQueue.Contents, Protocol.TryPack;
      e, stale := TryPack(AckRequest(ctype, id));
      if e != OK {
        SetError(e);
      }
    }

    method IsQueued(ctype: nat, id: u16) returns (b: bool)
      requires Valid()
      ensures b == Queued(State(), ctype, id)
    {
      Fields();
      hide State, Valid, MessageQueue.Valid, MessageQueue.Contents, FindIn;
      var k := mq.Find(ctype, Some(id));
      b := k < mq.length;
    }

    // publish_response_callback
    method Callback(ghost qos: nat, ghost id: u16, ghost topic: seq<byte>, ghost message: seq<byte>)
      requires Valid()
      modifies this`trace
      ensures Valid() && State() == Deliver(old(State()), qos, id, topic, message)
    {
      trace := trace + [Delivered(qos, id, topic, message)];
    }

    method HandlePublish(qos: nat, id: u16, topic: seq<byte>, message: seq<byte>) returns (e: Error, ghost stale: Stale)
      requires Valid()
      modifies this`base, this`issued, this`error, this`trace, mq, mq.mem
      ensures Valid() && (State(), e) == Protocol.HandlePublish(old(State()), qos, id, topic, message, stale)
    {
      hide State, Valid, MessageQueue.Valid, MessageQueue.Contents, Protocol.Answer, Queued, Deliver;
      e, stale := OK, Stale(0, 0);
      if qos == 1 {
        e, stale := Answer(PUBACK, id);
        if e != OK {
          return;
        }
      } else if qos == 2 {
        var duplicate := IsQueued(PUBREC, id);
        if duplicate {
          return;
        }
        e, stale := Answer(PUBREC, id);
        if e != OK {
          return;
        }
      }
      Callback(qos, id, topic, message);
    }

    method HandleAck(kind: nat, id: u16) returns (e: Error, ghost stale: Stale)
      requires Valid()
      modifies this`base, this`issued, this`error, this`trace, mq, mq.mem
      ensures Valid() && (State(), e) == Protocol.HandleAck(old(State()), kind, id, stale)
    {
      hide State, Valid, MessageQueue.Valid, MessageQueue.Contents, Protocol.Answer, Queued, Protocol.Release;
      e, stale := OK, Stale(0, 0);
      if kind == PUBACK {
        e := Release(PUBLISH, Some(id), kind);
      } else if kind == PUBREC {
        var duplicate := IsQueued(PUBREL, id);
        if duplicate {
          return;
        }
        e := Release(PUBLISH, Some(id), kind);
        if e == OK {
          e, stale := Answer(PUBREL, id);
        }
      } else if kind == PUBREL {
        e := Release(PUBREC, Some(id), kind);
        if e == OK {
          e, stale := Answer(PUBCOMP, id);
        }
      } else if kind == PUBCOMP {
        e := Release(PUBREL, Some(id), kind);
      } else if kind == UNSUBACK {
        e := Release(UNSUBSCRIBE, Some(id), kind);
      } else {
        SetError(MALFORMED_RESPONSE);
        e := MALFORMED_RESPONSE;
      }
    }

    // The switch of __mqtt_recv.
    method Handle(r: Response) returns (e: Error, ghost stale: Stale)
      requires Valid()
      modifies this`base, this`issued, this`error, this`trace, mq, mq.mem
      ensures Valid() && (State(), e) == Protocol.Handle(old(State()), r, stale)
    {
      hide State, Valid, MessageQueue.Valid, MessageQueue.Contents, Protocol.HandlePublish, Protocol.HandleAck,
           Protocol.Release;
      e, stale := OK, Stale(0, 0);
      match r {
        case Connack(_, code) =>
          e := Release(CONNECT, None, CONNACK);
          if e == OK && code != 0 {
            e := if code == 2 then CONNECT_CLIENT_ID_REFUSED else CONNECTION_REFUSED;
            SetError(e);
          }
        case Publish(_, qos, _, topic, id, message) =>
          e, stale := HandlePublish(qos, id, topic, message);
        case Ack(kind, id) =>
          e, stale := HandleAck(kind, id);
        case Suback(id, codes) =>
          e := Release(SUBSCRIBE, Some(id), SUBACK);
          if e == OK && codes != [] && codes[0] == 128 {
            e := SUBSCRIBE_FAILED;
            SetError(e);
          }
        case Pingresp =>
          e := Release(PINGREQ, None, PINGRESP);
      }
    }

    // ----- __mqtt_send -----

    lemma QueueHasBytes()
      requires Valid()
      ensures HasBytes(State().core.q) && |State().core.q| == mq.length
    {
      LayoutSpace(mq.mem[..], mq.length, mq.curr);
      hide Layout, At, Range, Room;
      forall k | 0 <= k < mq.length ensures |mq.Contents()[k].bytes| > 0 {
        MessagesAt(mq.mem[..], mq.length, mq.curr, k);
      }
    }

    // time_sent and time_of_last_send
    method Stamp(i: nat, now: nat)
      requires Valid() && i < mq.length && i < |State().core.q| && now < Range(8)
      modifies this`timeOfLastSend, mq.mem
      ensures Valid() && State() == Stamped(old(State()), i, now)
    {
      mq.SetMessageField(i, TimeSent, now);
      timeOfLastSend := now;
    }

    // Hands message i to the transport and, if it takes it, moves the message on.
    method SendMessage(i: nat, o: Outside, writes: Writes, ghost net: nat -> Attempt) returns (e: Error)
      requires Valid() && i < mq.length && i < |State().core.q| && |State().core.q[i].bytes| > 0 && o.sent(i) < Range(8)
      requires Transport.Sending(writes(i, |State().core.q[i].bytes|), |State().core.q[i].bytes|) == Some(net(i))
      modifies this`timeOfLastSend, this`trace, this`error, this`sendOffset, mq.mem
      ensures Valid() && (State(), e) == SendOne(old(State()), i, o.(net := net))
    {
      hide State, Valid, MessageQueue.Valid, MessageQueue.Contents, Range, Transport.Sending;
      SendInParts(State(), i, o.(net := net));
      hide AttemptEvent, Stamped, MovedOn, SendOne;
      e := HandOver(i, writes, net(i));
      if e != OK {
        SetError(e);
        return;
      }
      Stamp(i, o.sent(i));
      e := MoveOn(i);
      if e != OK {
        SetError(e);
      }
    }

    // Lets mqtt_pal_sendall send the packet from where it lies in the send
    // buffer; what has gone out is what the history records.
    method HandOver(i: nat, writes: Writes, ghost net: Attempt) returns (e: Error)
      requires Valid() && i < mq.length && i < |State().core.q| && |State().core.q[i].bytes| > 0
      requires Transport.Sending(writes(i, |State().core.q[i].bytes|), |State().core.q[i].bytes|) == Some(net)
      modifies this`trace, this`sendOffset
      ensures Valid() && State() == old(State()).(core := Note(old(State()).core, AttemptEvent(old(State()), i, net)))
      ensures e == if net.Through? then OK else SOCKET_ERROR
    {
      var r, size;
      ghost var wire;
      r, size, wire := WritePacket(i, writes, net);
      hide *;
      ghost var s := State();
      WireEvent(s, i, r, wire);
      Record(if r.Through? then Sent(s.core.base + i, wire, s.core.q[i].state.Unsent?)
             else CutOff(s.core.base + i, wire));
      if r.Breaks? {
        return SOCKET_ERROR;
      }
      CountSent(size, size);
      e := OK;
    }

    // mqtt_pal_sendall of what is left of packet i
    method WritePacket(i: nat, writes: Writes, ghost net: Attempt)
        returns (r: Attempt, size: nat, ghost wire: seq<byte>)
      requires Valid() && i < mq.length && i < |State().core.q| && |State().core.q[i].bytes| > 0
      requires Transport.Sending(writes(i, |State().core.q[i].bytes|), |State().core.q[i].bytes|) == Some(net)
      ensures r == net && size == |State().core.q[i].bytes| && (r.Breaks? ==> r.after < size)
      ensures wire == State().core.q[i].bytes[..if r.Through? then size else r.after]
    {
      hide MessageQueue.Valid, MessageQueue.Contents, Transport.Sending, MessageOf, At, State;
      Fields();
      var msg := mq.Get(i);
      MessageBytes(mq.mem[..], msg);
      size := msg.size - sendOffset;
      r, wire := Transport.SendAll(mq.mem, msg.start + sendOffset, size, writes(i, size));
    }

    // n more bytes of a packet of `size` bytes are out.
    method CountSent(n: nat, size: nat)
      requires Valid() && n == size
      modifies this`sendOffset
      ensures Valid() && State() == old(State())
    {
      sendOffset := sendOffset + n;
      if sendOffset == size {
        sendOffset := 0;
      }
    }

    ghost method Record(e: Event)
      requires Valid()
      modifies this`trace
      ensures Valid() && State() == old(State()).(core := Note(old(State()).core, e))
    {
      trace := trace + [e];
    }

    method MoveOn(i: nat) returns (e: Error)
      requires Valid() && i < mq.length && i < |State().core.q| && |State().core.q[i].bytes| > 0
      modifies mq.mem
      ensures Valid() && (State(), e) == MovedOn(old(State()), i)
    {
      hide MessageQueue.Valid, MessageQueue.Contents, AfterSend;
      e := MoveMessageOn(mq, i);
    }

    method Examine(i: nat, inflight: bool, o: Outside) returns (late: bool, resend: bool, inflight': bool)
      requires Valid() && i < mq.length && i < |State().core.q|
      ensures late == Expired(State(), i, o) && resend == Due(State(), i, inflight, o)
              && inflight' == InFlight(State(), i, inflight)
    {
      Fields();
      hide State, Valid, MessageQueue.Valid, MessageQueue.Contents, Qos2;
      late, resend, inflight' := Consider(mq, i, inflight, o.checked(i), responseTimeout);
    }

    // One turn of the loop of __mqtt_send.
    method SendTurn(i: nat, inflight: bool, o: Outside, writes: Writes, ghost net: nat -> Attempt)
      returns (e: Error, inflight': bool)
      requires Valid() && i < mq.length && HasBytes(State().core.q) && i < |State().core.q| && o.sent(i) < Range(8)
      requires Transport.Sending(writes(i, |State().core.q[i].bytes|), |State().core.q[i].bytes|) == Some(net(i))
      modifies this`numberOfTimeouts, this`timeOfLastSend, this`trace, this`error, this`sendOffset, mq.mem
      ensures Valid() && (State(), e) == Turned(old(State()), i, inflight, o.(net := net))
      ensures inflight' == InFlight(old(State()), i, inflight)
    {
      hide State, Valid, MessageQueue.Valid, MessageQueue.Contents, Range, SendOne, Due, InFlight, Expired,
           Transport.Sending;
      NetUnused(State(), i, inflight, o, net);
      var late, resend;
      late, resend, inflight' := Examine(i, inflight, o);
      if late {
        CountTimeoutOf();
      }
      e := OK;
      if resend {
        e := SendMessage(i, o, writes, net);
      }
    }

    // The loop of __mqtt_send over the queued messages.
    method SendAll(o: Outside, writes: Writes) returns (e: Error)
      requires Valid() && HasBytes(State().core.q) && (forall i: nat :: o.sent(i) < Range(8)) && Decide(writes)
      modifies this`numberOfTimeouts, this`timeOfLastSend, this`trace, this`error, this`sendOffset, mq.mem
      ensures Valid() && (State(), e) == SendFrom(old(State()), 0, false, o.(net := NetOf(old(State()).core.q, writes)))
    {
      ghost var s := State();
      ghost var net := NetOf(s.core.q, writes);
      ghost var o' := o.(net := net);
      var inflight := false;
      var i := 0;
      var len := mq.length;
      QueueHasBytes();
      hide State, Valid, MessageQueue.Valid, MessageQueue.Contents, Range, Turned, InFlight, HasBytes, Decide,
           Transport.Sending, NetOf, SameSizes;
      SameSizesSelf(s.core.q);
      while i < len
        invariant Valid() && i <= len == mq.length == |State().core.q| && HasBytes(State().core.q)
        invariant SameSizes(s.core.q, State().core.q)
        invariant SendFrom(s, 0, false, o') == SendFrom(State(), i, inflight, o')
      {
        TurnThenRest(State(), i, inflight, o');
        NetAt(s.core.q, State().core.q, writes, i);
        TurnSizes(s.core.q, State(), i, inflight, o');
        e, inflight := SendTurn(i, inflight, o, writes, net);
        if e != OK {
          return;
        }
        QueueHasBytes();
        i := i + 1;
      }
      SendFromEnd(State(), i, inflight, o');
      e := OK;
    }

    // __mqtt_send
    method Send(o: Outside, writes: Writes) returns (e: Error, ghost stale: Stale)
      requires Valid() && HasBytes(State().core.q) && (forall i: nat :: o.sent(i) < Range(8)) && Decide(writes)
      modifies this, mq, mq.mem
      ensures Valid()
      ensures (State(), e) == Protocol.Send(old(State()), o.(ping := stale, net := NetOf(old(State()).core.q, writes)))
    {
      Fields();
      hide State, Valid, MessageQueue.Valid, MessageQueue.Contents, Range, SendFrom, HasBytes, KeptAlive, NetOf, Decide;
      stale := Stale(0, 0);
      if error != OK && error != SEND_BUFFER_IS_FULL {
        return error, stale;
      }
      SendInTwo(State(), o.(net := NetOf(State().core.q, writes)));
      e := SendAll(o, writes);
      if e != OK {
        return;
      }
      e, stale := KeepAlive(o.last);
    }

    // The keep-alive check of __mqtt_send.
    method KeepAlive(now: nat) returns (e: Error, ghost stale: Stale)
      requires Valid()
      modifies this`base, this`issued, this`error, mq, mq.mem
      ensures Valid() && (State(), e) == KeptAlive(old(State()), now, stale)
    {
      Fields();
      hide State, Valid, MessageQueue.Valid, MessageQueue.Contents, Protocol.TryPack;
      e, stale := OK, Stale(0, 0);
      if now > timeOfLastSend + keepAlive * 3 / 4 {
        e, stale := TryPack(PingRequest);
        if e != OK {
          SetError(e);
        }
      }
    }

    // ----- __mqtt_recv -----

    // Lets mqtt_pal_recvall fill the free part of the receive buffer; r is the read it makes.
    method FillBuffer(rest: seq<byte>, fetches: Fetches, k: nat) returns (left: seq<byte>, ok: bool, ghost r: Read)
      requires Valid() && Arrive(fetches)
      modifies this`received, recvBuf
      ensures |old(State()).inbuf| <= old(State()).insize && Made(fetches, r)
      ensures var (s, l) := (old(State()), Link(rest, [r]));
              Valid() && ok == !Fails(l) && left == Onward(s, l).rest
                && State() == if ok then s.(inbuf := Buffered(s, l)) else s
    {
      hide *;
      InbufFits();
      ghost var s := State();
      var got := FetchInto(rest, fetches, k);
      r := got;
      ReadIs(s, rest, got);
      left, ok := rest[got.n..], got.Ready?;
      if ok {
        Advance(got.n, rest[..got.n]);
      }
    }

    method FetchInto(rest: seq<byte>, fetches: Fetches, k: nat) returns (got: Read)
      requires Valid() && Arrive(fetches)
      modifies recvBuf
      ensures Valid() && State() == old(State()) && Made(fetches, got)
      ensures |State().inbuf| + got.n <= State().insize && got.n <= |rest| && received + got.n <= recvBuf.Length
      ensures recvBuf[..received + got.n] == State().inbuf + rest[..got.n]
    {
      hide Transport.Receiving, MessageQueue.Valid, MessageQueue.Contents, Splice, Arrive, Made;
      var room := recvBuf.Length - received;
      Decided(fetches, k, room, |rest|);
      got := Transport.RecvAll(recvBuf, received, room, rest, fetches(k, room, |rest|));
      SplicedFront(old(recvBuf[..]), received, rest[..got.n]);
      MadeBy(fetches, k, room, |rest|, got);
      assert recvBuf[..][..received + got.n] == recvBuf[..received + got.n];
      assert recvBuf[..][..received] == recvBuf[..received];
      assert old(recvBuf[..])[..received] == old(recvBuf[..received]);
    }

    method Advance(n: nat, ghost x: seq<byte>)
      requires Valid() && received + n <= recvBuf.Length && recvBuf[..received + n] == State().inbuf + x
      modifies this`received
      ensures Valid() && State() == old(State()).(inbuf := old(State()).inbuf + x)
    {
      received := received + n;
    }

    // Removes a packet of n bytes that has been handled from the front of the receive buffer.
    method Discard(n: nat)
      requires Valid() && n <= |State().inbuf|
      modifies this`received, this`taken, recvBuf
      ensures Valid()
      ensures var s := old(State()); State() == s.(inbuf := s.inbuf[n..], taken := s.taken + [s.inbuf[..n]])
    {
      taken := taken + [recvBuf[..n]];
      assert recvBuf[..received][..n] == recvBuf[..n];
      received := MoveToFront(recvBuf, n, received);
    }

    // One turn of the loop of __mqtt_recv.
    method RecvTurn(rest: seq<byte>, fetches: Fetches, k: nat)
      returns (left: seq<byte>, e: Error, more: bool, ghost r: Read, ghost stale: Stale)
      requires Valid() && |State().inbuf| <= State().insize && Arrive(fetches)
      modifies this, mq, mq.mem, recvBuf
      ensures Valid() && Made(fetches, r)
              && (Received(State(), Link(left, []), e), more) == RecvOnce(old(State()), Link(rest, [r]), stale)
    {
      ghost var s := State();
      hide State, Valid, MessageQueue.Valid, MessageQueue.Contents, Buffered, Onward, Fails, Unpack, Met, RecvOnce,
           Arrive, Made;
      var ok;
      left, ok, r := FillBuffer(rest, fetches, k);
      RecvOnceIs(s, rest, r);
      stale, more := Stale(0, 0), false;
      if !ok {
        e := SOCKET_ERROR;
        SetError(e);
        return;
      }
      var o := Decode();
      e, more, stale := Meet(o);
    }

    method Meet(o: UnpackOutcome) returns (e: Error, more: bool, ghost stale: Stale)
      requires Valid() && (o.Decoded? ==> o.consumed <= |State().inbuf|)
      modifies this, mq, mq.mem, recvBuf
      ensures Valid() && (State(), e, more) == Met(old(State()), o, stale)
    {
      hide State, Valid, MessageQueue.Valid, MessageQueue.Contents, Consume;
      stale, more := Stale(0, 0), false;
      match o {
        case Malformed(f) =>
          e := f;
          SetError(e);
        case Overrun =>
          e := OVERRUN;
          SetError(e);
        case Incomplete =>
          var full := IsFull();
          if full {
            e := RECV_BUFFER_TOO_SMALL;
            SetError(e);
          } else {
            e := OK;
          }
        case Decoded(r, n) =>
          e, stale := Respond(r, n);
          more := e == OK;
      }
    }

    method IsFull() returns (b: bool)
      requires Valid()
      ensures b == (|State().inbuf| == State().insize)
    {
      b := received == recvBuf.Length;
    }

    method Decode() returns (o: UnpackOutcome)
      requires Valid()
      ensures o == Unpack(State().inbuf) && (o.Decoded? ==> 2 <= o.consumed <= |State().inbuf|)
    {
      hide UnpackHeader, UnpackBody;
      o := GetResponse(recvBuf, received);
    }

    method Respond(r: Response, n: nat) returns (e: Error, ghost stale: Stale)
      requires Valid() && n <= |State().inbuf|
      modifies this, mq, mq.mem, recvBuf
      ensures Valid() && (State(), e) == Consume(old(State()), old(State()).inbuf, r, n, stale)
    {
      ghost var s := State();
      hide State, Valid, MessageQueue.Valid, MessageQueue.Contents, Protocol.Handle;
      e, stale := Handle(r);
      HandleKeepsBuffer(s, r, stale);
      Discard(n);
    }

    // __mqtt_recv
    method Recv(rest: seq<byte>, fetches: Fetches)
      returns (left: seq<byte>, e: Error, ghost ready: seq<Read>, ghost stales: nat -> Stale)
      requires Valid() && Arrive(fetches)
      modifies this, mq, mq.mem, recvBuf
      ensures Valid() && |old(State()).inbuf| <= old(State()).insize && AllMade(fetches, ready)
      ensures Received(State(), Link(left, []), e) == RecvFrom(old(State()), Link(rest, ready), stales, 0)
    {
      hide *;
      ghost var (s, seen: seq<Stale>) := (State(), []);
      InbufFits();
      NoneMade(fetches);
      left, e, ready := rest, OK, [];
      var more := true;
      var k := 0;
      ContinuesStart(s, rest);
      while more
        invariant Valid() && |State().inbuf| <= State().insize && AllMade(fetches, ready)
        invariant Continues(s, rest, ready, Received(State(), Link(left, []), e), more, seen)
        decreases if more then |left| + |State().inbuf| + 1 else 0
      {
        ghost var t := Received(State(), Link(left, []), e);
        ghost var r, stale;
        left, e, more, r, stale := RecvTurn(left, fetches, k);
        InbufFits();
        ContinuesTurn(s, rest, ready, t, seen, r, stale);
        MadeMore(fetches, ready, r);
        ready, seen := ready + [r], seen + [stale];
        k := k + 1;
      }
      stales := ContinuesEnd(s, rest, ready, Received(State(), Link(left, []), e), seen);
    }

    lemma InbufFits()
      requires Valid()
      ensures |State().inbuf| <= State().insize
    {
    }

    // ----- mqtt_sync -----

    // mqtt_sync without inspector and reconnect callback
    method Synchronize(rest: seq<byte>, arriving: seq<byte>, fetches: Fetches, o: Outside, writes: Writes)
      returns (left: seq<byte>, e: Error, ghost w: World)
      requires Valid() && Ok(State()) && (forall i: nat :: o.sent(i) < Range(8)) && Arrive(fetches) && Decide(writes)
      modifies this, mq, mq.mem, recvBuf
      ensures w.arriving == arriving && w.out == o.(ping := w.out.ping, net := w.out.net)
      ensures AllMade(fetches, w.ready) && exists q :: w.out.net == NetOf(q, writes)
      ensures Valid() && (State(), left, e) == SyncClient(old(State()), rest, w)
    {
      Fields();
      hide State, Valid, MessageQueue.Valid, MessageQueue.Contents, Ok, RecvFrom, Protocol.Send, HasBytes, Range, NetOf,
           Decide, Arrive, AllMade;
      ghost var s := State();
      if error == RECONNECTING {
        SetError(OK);
      }
      ghost var ready, stales;
      left, e, ready, stales := Recv(rest + arriving, fetches);
      ghost var net := NetOf(State().core.q, writes);
      w := World(ready, arriving, stales, o.(net := net));
      if e != OK {
        return;
      }
      QueueHasBytes();
      ghost var stale;
      e, stale := Send(o, writes);
      w := World(ready, arriving, stales, o.(ping := stale, net := net));
    }

    lemma Fields()
      requires Valid()
      ensures State().error == error && State().lfsr == pidLfsr && State().keepAlive == keepAlive
      ensures State().responseTimeout == responseTimeout && State().timeOfLastSend == timeOfLastSend
      ensures State().core.q == mq.Contents() && State().core.base == base && |State().core.q| == mq.length
    {
    }
  }

  // The loops of __mqtt_next_pid.
  method SearchPid(mq: MessageQueue, seed: bv16) returns (lfsr: bv16)
    requires mq.Valid() && PacketId.Available(UsedIds(mq.Contents()))
    ensures lfsr == PacketId.NextId(seed, UsedIds(mq.Contents()))
  {
    ghost var used := UsedIds(mq.Contents());
    ghost var j := PacketId.SearchEndsAt(seed, used);
    ghost var k := 0;
    PacketId.SearchStart(seed);
    hide UsedIds, MessageQueue.Valid, MessageQueue.Contents, PacketId.AtTurn, PacketId.NextId, LfsrWords.StepBv,
      PacketId.EndsAt, PacketId.Available, PacketId.Number, PacketId.Seed;
    lfsr := Seeded(seed);
    var taken := true;
    while taken
      invariant k <= j && (taken <==> k < j) && PacketId.AtTurn(seed, k, lfsr)
      decreases j - k
    {
      k := k + 1;
      PacketId.SearchTurn(seed, used, j, k, lfsr);
      lfsr := Turn(lfsr);
      taken := mq.InUse(PacketId.Number(lfsr));
    }
    PacketId.SearchDone(seed, used, j, lfsr);
  }

  method Seeded(lfsr: bv16) returns (s: bv16)
    ensures s == PacketId.Seed(lfsr)
  {
    s := lfsr;
    if s == 0 {
      s := 163;
    }
  }

  // One turn of the linear feedback shift register.
  method Turn(lfsr: bv16) returns (next: bv16)
    ensures next == LfsrWords.StepBv(lfsr)
  {
    var lsb := lfsr & 1;
    next := lfsr >> 1;
    if lsb == 1 {
      next := next ^ 0xB400;
    }
  }

  // Message i replaced.
  function WithMessage(s: Client, i: nat, x: Message): Client
    requires i < |s.core.q|
  {
    s.(core := s.core.(q := s.core.q[i := x]))
  }

  function Stamped(s: Client, i: nat, now: nat): Client
    requires i < |s.core.q|
  {
    WithMessage(s, i, s.core.q[i].(timeSent := now)).(timeOfLastSend := now)
  }

  // What the transport makes of message i.
  function AttemptEvent(s: Client, i: nat, net: Attempt): Event
    requires i < |s.core.q| && |s.core.q[i].bytes| > 0
  {
    var x := s.core.q[i];
    match net
    case Through => Sent(s.core.base + i, x.bytes, x.state.Unsent?)
    case Breaks(n) => CutOff(s.core.base + i, if n < |x.bytes| then x.bytes[..n] else x.bytes[..|x.bytes| - 1])
  }

  // The BIO_writes that mqtt_pal_sendall makes for message i of `len` bytes.
  type Writes = (nat, nat) -> seq<Transport.Write>

  // Every mqtt_pal_sendall returns.
  ghost predicate Decide(writes: Writes) {
    forall i: nat, len: nat :: Transport.Sending(writes(i, len), len).Some?
  }

  // What the writes make of the queued messages.
  ghost function NetOf(q: seq<Message>, writes: Writes): nat -> Attempt {
    (i: nat) =>
      if i < |q| then
        match Transport.Sending(writes(i, |q[i].bytes|), |q[i].bytes|)
        case Some(a) => a
        case None => Through
      else Through
  }

  predicate SameSizes(q: seq<Message>, q': seq<Message>) {
    |q| == |q'| && forall j :: 0 <= j < |q| ==> |q'[j].bytes| == |q[j].bytes|
  }

  lemma SameSizesSelf(q: seq<Message>)
    ensures SameSizes(q, q)
  {
  }

  lemma NetAt(q: seq<Message>, q': seq<Message>, writes: Writes, i: nat)
    requires SameSizes(q, q') && Decide(writes) && i < |q'|
    ensures Transport.Sending(writes(i, |q'[i].bytes|), |q'[i].bytes|) == Some(NetOf(q, writes)(i))
  {
    hide Transport.Sending;
  }

  // No packet changes its size in a turn of the loop.
  lemma TurnSizes(q: seq<Message>, s: Client, i: nat, inflight: bool, o: Outside)
    requires SameSizes(q, s.core.q) && i < |s.core.q| && HasBytes(s.core.q)
    ensures SameSizes(q, Turned(s, i, inflight, o).0.core.q)
  {
    hide AfterSend, Due, Expired, Outbound;
    AfterSendStarted(s.core.q[i], o.sent(i));
  }

  lemma NetUnused(s: Client, i: nat, inflight: bool, o: Outside, net: nat -> Attempt)
    requires i < |s.core.q|
    ensures Expired(s, i, o.(net := net)) == Expired(s, i, o)
            && Due(s, i, inflight, o.(net := net)) == Due(s, i, inflight, o)
  {
  }

  lemma MessageBytes(m: seq<byte>, r: Record)
    requires r.start + r.size <= |m| && r.size > 0 && r.state <= 2
    ensures MessageOf(m, r).bytes == m[r.start..r.start + r.size] && (MessageOf(m, r).state.Unsent? <==> r.state == 0)
  {
  }

  // The event of an attempt holds the bytes that have gone out.
  lemma WireEvent(s: Client, i: nat, net: Attempt, wire: seq<byte>)
    requires i < |s.core.q| && |s.core.q[i].bytes| > 0 && (net.Breaks? ==> net.after < |s.core.q[i].bytes|)
    requires wire == s.core.q[i].bytes[..if net.Through? then |s.core.q[i].bytes| else net.after]
    ensures AttemptEvent(s, i, net) ==
            if net.Through? then Sent(s.core.base + i, wire, s.core.q[i].state.Unsent?)
            else CutOff(s.core.base + i, wire)
  {
  }

  // Whether message i is overdue and whether it is to go out, given the QoS 2 gate.
  method Consider(mq: MessageQueue, i: nat, inflight: bool, now: nat, timeout: int)
    returns (late: bool, resend: bool, inflight': bool)
    requires mq.Valid() && i < mq.length && i < |mq.Contents()|
    ensures var x := mq.Contents()[i];
            && late == (x.state.AwaitingAck? && now > x.timeSent + timeout)
            && resend == ((x.state.Unsent? || late) && !(Qos2(x) && inflight))
            && inflight' == (inflight || (Qos2(x) && !x.state.Complete?))
  {
    hide MessageQueue.Valid, MessageQueue.Contents;
    var msg := mq.Get(i);
    late, resend, inflight' := false, false, inflight;
    if msg.state == 0 {
      resend := true;
    } else if msg.state == 1 && now > msg.timeSent + timeout {
      late, resend := true, true;
    }
    if msg.ctype == PUBLISH && msg.state != 2 {
      var b := mq.FirstByte(i);
      if Qos(b) == 2 {
        if inflight {
          resend := false;
        }
        inflight' := true;
      }
    }
  }

  // The switch of __mqtt_send over the control type of a message just sent.
  method MoveMessageOn(mq: MessageQueue, i: nat) returns (e: Error)
    requires mq.Valid() && i < mq.length && i < |mq.Contents()|
    modifies mq.mem
    ensures mq.Valid() && |old(mq.Contents())[i].bytes| > 0
    ensures var (q, x) := (old(mq.Contents()), old(mq.Contents())[i]);
            && e == (if Outbound(x.ctype) then OK else MALFORMED_REQUEST)
            && mq.Contents() == if Outbound(x.ctype) then q[i := AfterSend(x, x.timeSent)] else q
  {
    hide MessageQueue.Valid, MessageQueue.Contents, WithDup, Range;
    SmallRange();
    e := OK;
    var msg := mq.Get(i);
    var b := mq.FirstByte(i);
    if msg.ctype == PUBACK || msg.ctype == PUBCOMP || msg.ctype == DISCONNECT {
      mq.SetMessageField(i, StateField, 2);
    } else if msg.ctype == PUBLISH {
      if Qos(b) == 0 {
        mq.SetMessageField(i, StateField, 2);
      } else if Qos(b) == 1 {
        mq.SetMessageField(i, StateField, 1);
        mq.SetDup(i);
      } else {
        mq.SetMessageField(i, StateField, 1);
      }
    } else if msg.ctype == CONNECT || msg.ctype == PUBREC || msg.ctype == PUBREL || msg.ctype == SUBSCRIBE ||
              msg.ctype == UNSUBSCRIBE || msg.ctype == PINGREQ {
      mq.SetMessageField(i, StateField, 1);
    } else {
      e := MALFORMED_REQUEST;
    }
  }

  lemma SmallRange()
    ensures 2 < Range(4)
  {
    WidthRange();
  }

  function MovedOn(s: Client, i: nat): (Client, Error)
    requires i < |s.core.q| && |s.core.q[i].bytes| > 0
  {
    var x := s.core.q[i];
    if Outbound(x.ctype) then (WithMessage(s, i, AfterSend(x, x.timeSent)), OK) else (s, MALFORMED_REQUEST)
  }

  // SendOne, as __mqtt_send goes about it.
  lemma SendInParts(s: Client, i: nat, o: Outside)
    requires i < |s.core.q| && |s.core.q[i].bytes| > 0
    ensures var t := s.(core := Note(s.core, AttemptEvent(s, i, o.net(i))));
            && i < |t.core.q| && |Stamped(t, i, o.sent(i)).core.q| == |t.core.q|
            && |Stamped(t, i, o.sent(i)).core.q[i].bytes| > 0
            && var (u, e) := MovedOn(Stamped(t, i, o.sent(i)), i);
               SendOne(s, i, o) == if o.net(i).Breaks? then Fail(t, SOCKET_ERROR)
                                   else if e != OK then Fail(u, e) else (u, OK)
  {
    var q := s.core.q;
    var y := q[i].(timeSent := o.sent(i));
    var z := AfterSend(y, y.timeSent);
    assert q[i := y][i := z] == q[i := z];
  }

  lemma TurnThenRest(s: Client, i: nat, inflight: bool, o: Outside)
    requires i < |s.core.q| && HasBytes(s.core.q)
    ensures var (t, e) := Turned(s, i, inflight, o);
            && |t.core.q| == |s.core.q| && HasBytes(t.core.q)
            && SendFrom(s, i, inflight, o) == if e != OK then (t, e)
               else SendFrom(t, i + 1, InFlight(s, i, inflight), o)
  {
    hide InFlight, Due, Expired, AfterSend, Transmit;
    if Due(s, i, inflight, o) {
      SendOneBytes(CountTimeout(s, i, o), i, o);
    }
  }

  lemma SendOneBytes(s: Client, i: nat, o: Outside)
    requires i < |s.core.q| && HasBytes(s.core.q)
    ensures |SendOne(s, i, o).0.core.q| == |s.core.q| && HasBytes(SendOne(s, i, o).0.core.q)
  {
    AfterSendStarted(s.core.q[i], o.sent(i));
    hide AfterSend;
  }

  lemma SendFromEnd(s: Client, i: nat, inflight: bool, o: Outside)
    requires HasBytes(s.core.q) && i >= |s.core.q|
    ensures SendFrom(s, i, inflight, o) == (s, OK)
  {
  }

  // What lies in the memory of a ping's header plays no part in the loop.
  lemma SendFromPing(s: Client, o: Outside)
    requires HasBytes(s.core.q)
    ensures forall p :: SendFrom(s, 0, false, o.(ping := p)) == SendFrom(s, 0, false, o)
  {
    forall p ensures SendFrom(s, 0, false, o.(ping := p)) == SendFrom(s, 0, false, o) {
      PingUnused(s, 0, false, o, p);
    }
  }

  lemma {:induction false} PingUnused(s: Client, i: nat, inflight: bool, o: Outside, p: Stale)
    requires HasBytes(s.core.q)
    ensures SendFrom(s, i, inflight, o.(ping := p)) == SendFrom(s, i, inflight, o)
    decreases |s.core.q| - i
  {
    hide SendFrom, Turned, InFlight;
    var o' := o.(ping := p);
    if i >= |s.core.q| {
      SendFromEnd(s, i, inflight, o);
      SendFromEnd(s, i, inflight, o');
    } else {
      TurnThenRest(s, i, inflight, o);
      TurnThenRest(s, i, inflight, o');
      TurnWithoutPing(s, i, inflight, o, p);
      var (t, e) := Turned(s, i, inflight, o);
      if e == OK {
        PingUnused(t, i + 1, InFlight(s, i, inflight), o, p);
      }
    }
  }

  lemma TurnWithoutPing(s: Client, i: nat, inflight: bool, o: Outside, p: Stale)
    requires i < |s.core.q| && HasBytes(s.core.q)
    ensures Turned(s, i, inflight, o.(ping := p)) == Turned(s, i, inflight, o)
  {
    hide AfterSend, Transmit;
  }

  lemma DrawingType(c: Call, id: u16)
    requires DrawsId(c)
    ensures TypeOf(Drawing(c, id)) < 16
  {
  }

  // Send is its loop, then the keep-alive check.
  lemma SendInTwo(s: Client, o: Outside)
    requires HasBytes(s.core.q) && (s.error == OK || s.error == SEND_BUFFER_IS_FULL)
    ensures forall p :: Protocol.Send(s, o.(ping := p)) ==
                        var (t, e) := SendFrom(s, 0, false, o); if e != OK then (t, e) else KeptAlive(t, o.last, p)
  {
    hide SendFrom, Protocol.TryPack;
    SendFromPing(s, o);
  }

  // memmove of the bytes from n to size to the front
  method MoveToFront(a: array<byte>, n: nat, size: nat) returns (left: nat)
    requires n <= size <= a.Length
    modifies a
    ensures left == size - n && a[..left] == old(a[..size])[n..]
  {
    MoveBytes(a, 0, n, size - n);
    left := size - n;
  }

  // The BIO_reads that the k-th mqtt_pal_recvall makes into `room` bytes with so many bytes on the way.
  type Fetches = (nat, nat, nat) -> seq<Transport.Fetch>

  // Every mqtt_pal_recvall returns.
  ghost predicate Arrive(fetches: Fetches) {
    forall k: nat, room: nat, avail: nat :: Transport.Receiving(fetches(k, room, avail), room, avail).Some?
  }

  // r is what one mqtt_pal_recvall makes of its BIO_reads.
  ghost predicate Made(fetches: Fetches, r: Read) {
    exists k: nat, room: nat, avail: nat :: Transport.Receiving(fetches(k, room, avail), room, avail) == Some(r)
  }

  ghost predicate AllMade(fetches: Fetches, rs: seq<Read>) {
    forall i :: 0 <= i < |rs| ==> Made(fetches, rs[i])
  }

  lemma Decided(fetches: Fetches, k: nat, room: nat, avail: nat)
    requires Arrive(fetches)
    ensures Transport.Receiving(fetches(k, room, avail), room, avail).Some?
  {
    hide Transport.Receiving;
  }

  lemma SplicedFront(m: seq<byte>, pos: nat, s: seq<byte>)
    requires pos + |s| <= |m|
    ensures |Splice(m, pos, s)| == |m| && Splice(m, pos, s)[..pos] == m[..pos]
            && Splice(m, pos, s)[..pos + |s|] == m[..pos] + s
  {
  }

  // What one read makes of the buffer and the bytes on the way.
  lemma ReadIs(s: Client, rest: seq<byte>, r: Read)
    requires |s.inbuf| + r.n <= s.insize && r.n <= |rest|
    ensures var l := Link(rest, [r]);
            Fails(l) == r.Broken? && Onward(s, l).rest == rest[r.n..] && Buffered(s, l) == s.inbuf + rest[..r.n]
  {
  }

  lemma MadeBy(fetches: Fetches, k: nat, room: nat, avail: nat, r: Read)
    requires Transport.Receiving(fetches(k, room, avail), room, avail) == Some(r)
    ensures Made(fetches, r)
  {
    hide Transport.Receiving;
  }

  lemma NoneMade(fetches: Fetches)
    ensures AllMade(fetches, [])
  {
  }

  lemma MadeMore(fetches: Fetches, rs: seq<Read>, r: Read)
    requires AllMade(fetches, rs) && Made(fetches, r)
    ensures AllMade(fetches, rs + [r])
  {
    hide Made;
  }

  // One turn of the loop of __mqtt_recv, and whether another follows.
  function RecvOnce(s: Client, l: Link, stale: Stale): (Received, bool)
    requires |s.inbuf| <= s.insize
  {
    var (buf, l') := (Buffered(s, l), Onward(s, l));
    if Fails(l) then (Received(s.(error := SOCKET_ERROR), l', SOCKET_ERROR), false)
    else
      var (t, e, more) := Met(s.(inbuf := buf), Unpack(buf), stale);
      (Received(t, l', e), more)
  }

  // What the loop does about what has been read, the new error, and whether it goes on.
  function Met(s: Client, o: UnpackOutcome, stale: Stale): (Client, Error, bool)
    requires o.Decoded? ==> o.consumed <= |s.inbuf|
  {
    match o
    case Malformed(e) => (s.(error := e), e, false)
    case Overrun => (s.(error := OVERRUN), OVERRUN, false)
    case Incomplete =>
      if |s.inbuf| == s.insize then (s.(error := RECV_BUFFER_TOO_SMALL), RECV_BUFFER_TOO_SMALL, false)
      else (s, OK, false)
    case Decoded(r, n) =>
      var (t, e) := Consume(s, s.inbuf, r, n, stale);
      (t, e, e == OK)
  }

  lemma RecvOnceIs(s: Client, rest: seq<byte>, r: Read)
    requires |s.inbuf| <= s.insize
    ensures var l := Link(rest, [r]);
            var (buf, left) := (Buffered(s, l), Link(Onward(s, l).rest, []));
            forall stale :: RecvOnce(s, l, stale) ==
                            if Fails(l) then (Received(s.(error := SOCKET_ERROR), left, SOCKET_ERROR), false)
                            else
                              var (t, e, more) := Met(s.(inbuf := buf), Unpack(buf), stale);
                              (Received(t, left, e), more)
  {
    hide Buffered, Unpack, Met;
    assert [r][1..] == [] && Onward(s, Link(rest, [r])).ready == [];
  }

  // g begins with what was seen.
  predicate Extends(g: nat -> Stale, seen: seq<Stale>) {
    forall k :: 0 <= k < |seen| ==> g(k) == seen[k]
  }

  // r is where the loop has come to by these reads, having seen these stale
  // headers; whatever reads follow, it goes on from there.
  ghost predicate Continues(s: Client, rest: seq<byte>, rs: seq<Read>, r: Received, more: bool, seen: seq<Stale>)
    requires |s.inbuf| <= s.insize
  {
    && (more ==> |r.client.inbuf| <= r.client.insize)
    && forall g, tail :: Extends(g, seen) ==>
         RecvFrom(s, Link(rest, rs + tail), g, 0) ==
         if more then RecvFrom(r.client, Link(r.link.rest, tail), g, |seen|) else With(r, tail)
  }

  function With(r: Received, tail: seq<Read>): Received {
    r.(link := Link(r.link.rest, tail))
  }

  lemma ContinuesStart(s: Client, rest: seq<byte>)
    requires |s.inbuf| <= s.insize
    ensures Continues(s, rest, [], Received(s, Link(rest, []), OK), true, [])
  {
    hide RecvFrom;
    forall tail: seq<Read> ensures [] + tail == tail {
    }
  }

  lemma ContinuesTurn(s: Client, rest: seq<byte>, rs: seq<Read>, t: Received, seen: seq<Stale>, rd: Read, stale: Stale)
    requires |s.inbuf| <= s.insize && Continues(s, rest, rs, t, true, seen)
    ensures var (r, more) := RecvOnce(t.client, Link(t.link.rest, [rd]), stale);
            && Continues(s, rest, rs + [rd], r, more, seen + [stale])
            && (more ==> |r.link.rest| + |r.client.inbuf| < |t.link.rest| + |t.client.inbuf|)
  {
    hide RecvOnce, RecvFrom;
    var l := Link(t.link.rest, [rd]);
    var (r, more) := RecvOnce(t.client, l, stale);
    TurnShrinks(t.client, l, stale);
    forall g, tail | Extends(g, seen + [stale])
      ensures RecvFrom(s, Link(rest, rs + [rd] + tail), g, 0) ==
              if more then RecvFrom(r.client, Link(r.link.rest, tail), g, |seen| + 1) else With(r, tail)
    {
      ExtendsShorter(g, seen, stale);
      OneRead(t.client, t.link.rest, rd, tail, stale);
      RecvOnceMore(t.client, Link(t.link.rest, [rd] + tail), g, |seen|);
      assert rs + [rd] + tail == rs + ([rd] + tail);
    }
  }

  // A turn makes one read, whatever reads follow.
  lemma OneRead(s: Client, rest: seq<byte>, rd: Read, tail: seq<Read>, stale: Stale)
    requires |s.inbuf| <= s.insize
    ensures var (r, more) := RecvOnce(s, Link(rest, [rd]), stale);
            RecvOnce(s, Link(rest, [rd] + tail), stale) == (With(r, tail), more)
  {
    hide Unpack, Consume;
    assert ([rd] + tail)[1..] == tail;
  }

  lemma ContinuesEnd(s: Client, rest: seq<byte>, rs: seq<Read>, r: Received, seen: seq<Stale>)
      returns (stales: nat -> Stale)
    requires |s.inbuf| <= s.insize && Continues(s, rest, rs, r, false, seen) && r.link.ready == []
    ensures RecvFrom(s, Link(rest, rs), stales, 0) == r
  {
    hide RecvFrom;
    stales := (n: nat) => if n < |seen| then seen[n] else Stale(0, 0);
    assert Extends(stales, seen);
    assert rs + [] == rs;
  }

  lemma RecvOnceMore(s: Client, l: Link, stales: nat -> Stale, i: nat)
    requires |s.inbuf| <= s.insize
    requires var (r, more) := RecvOnce(s, l, stales(i)); more ==> |r.client.inbuf| <= r.client.insize
    ensures var (r, more) := RecvOnce(s, l, stales(i));
            && RecvFrom(s, l, stales, i) == if more then RecvFrom(r.client, r.link, stales, i + 1) else r
  {
    hide Buffered, Onward, Unpack, Protocol.Handle;
    DecodedFits(Buffered(s, l));
  }

  lemma TurnShrinks(s: Client, l: Link, stale: Stale)
    requires |s.inbuf| <= s.insize
    ensures var (r, more) := RecvOnce(s, l, stale);
            more ==> |r.client.inbuf| <= r.client.insize && |r.link.rest| + |r.client.inbuf| < |l.rest| + |s.inbuf|
  {
    hide Unpack, Protocol.Handle;
    DecodedFits(Buffered(s, l));
  }

  lemma ExtendsShorter(g: nat -> Stale, seen: seq<Stale>, x: Stale)
    requires Extends(g, seen + [x])
    ensures Extends(g, seen) && g(|seen|) == x
  {
    assert (seen + [x])[|seen|] == x;
    forall k | 0 <= k < |seen| ensures g(k) == seen[k] {
      assert (seen + [x])[k] == seen[k];
    }
  }

  function HasId(r: Request): bool {
    !(r.ConnectRequest? || r.PingRequest? || r.DisconnectRequest?)
  }

  method RegisterFields(mq: MessageQueue, r: Request, n: nat, ghost p: seq<byte>) returns (ghost stale: Stale)
    requires mq.Valid() && TypeOf(r) < 16 && 0 < n <= mq.currSz && mq.curr + n <= mq.mem.Length
             && p == mq.mem[mq.curr..mq.curr + n]
    modifies mq, mq.mem
    ensures mq.Valid()
    ensures mq.Contents() == old(mq.Contents()) + [Message(p, Unsent, stale.time, TypeOf(r), IdOf(r, stale))]
  {
    hide MessageQueue.Valid, MessageQueue.Contents, NewMessage, TypeOf;
    ghost var (q, x) := (mq.Contents(), FutureMessage(mq, n));
    stale := RegisterBytes(mq, n, p);
    mq.Register(n);
    QueueSize(mq);
    SetTypeAndId(mq, r);
    LastUpdated(q, x, x.(ctype := TypeOf(r), id := IdOf(r, stale)));
  }

  // The message mqtt_mq_register is about to make.
  ghost function FutureMessage(mq: MessageQueue, n: nat): Message
    requires mq.Valid() && 0 < n <= mq.currSz
    reads mq, mq.mem
  {
    RoomFits(mq.mem.Length, mq.length, mq.curr, n);
    NewMessage(mq.mem[..], mq.length, mq.curr, n)
  }

  lemma RegisterBytes(mq: MessageQueue, n: nat, p: seq<byte>) returns (stale: Stale)
    requires mq.Valid() && 0 < n <= mq.currSz && mq.curr + n <= mq.mem.Length && p == mq.mem[mq.curr..mq.curr + n]
    ensures var x := FutureMessage(mq, n); x == Message(p, Unsent, stale.time, x.ctype, stale.id)
  {
    RoomFits(mq.mem.Length, mq.length, mq.curr, n);
    NewMessageIs(mq.mem[..], mq.length, mq.curr, n);
    var x := FutureMessage(mq, n);
    stale := Stale(x.timeSent, x.id);
  }

  lemma LastUpdated(q: seq<Message>, x: Message, y: Message)
    ensures (q + [x])[|q| := y] == q + [y]
  {
  }

  lemma QueueSize(mq: MessageQueue)
    requires mq.Valid()
    ensures |mq.Contents()| == mq.length
  {
  }

  // control_type, and packet_id where the packet has one, of the newest message
  method SetTypeAndId(mq: MessageQueue, r: Request)
    requires mq.Valid() && TypeOf(r) < 16 && mq.length > 0
    modifies mq.mem
    ensures mq.Valid()
    ensures var (q, k) := (old(mq.Contents()), mq.length - 1);
            mq.Contents() == q[k := q[k].(ctype := TypeOf(r), id := if HasId(r) then IdOf(r, Stale(0, 0)) else q[k].id)]
  {
    hide TypeOf, IdOf, Layout, Messages, Range;
    WidthRange();
    mq.SetMessageField(mq.length - 1, Ctype, TypeOf(r));
    if HasId(r) {
      mq.SetMessageField(mq.length - 1, Id, IdOf(r, Stale(0, 0)));
    }
  }

  lemma WidthRange()
    ensures 16 <= Range(4) && Range(2) == 65536
  {
    assert Range(2) == 256 * Range(1) && Range(1) == 256 * Range(0);
    assert Range(4) == 256 * Range(3) && Range(3) == 256 * Range(2);
  }
}
