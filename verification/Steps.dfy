// Every call of the client keeps the invariants and only moves messages forward.
module Steps {
  import opened Types
  import opened Wire
  import opened WireProofs
  import opened QueueMemory
  import opened MessageQueues
  import opened Protocol
  import opened Invariants
  import PacketId

  // ----- progress -----

  // How far message s has come; messages that left the queue count as complete.
  function Rank(c: Core, s: nat): nat {
    if s < c.base then 2
    else if s - c.base >= |c.q| then 0
    else match c.q[s - c.base].state case Unsent => 0 case AwaitingAck => 1 case Complete => 2
  }

  // Histories only grow, and no message falls back.
  ghost predicate Progress(c: Core, d: Core) {
    && c.base <= d.base && c.issued <= d.issued && c.trace <= d.trace
    && forall s :: 0 <= s < |c.issued| ==> Rank(c, s) <= Rank(d, s)
  }

  lemma ProgressTrans(c: Core, d: Core, e: Core)
    requires Progress(c, d) && Progress(d, e)
    ensures Progress(c, e)
  {
    hide Encodes, Rank;
  }

  // What a step keeps: the invariants and progress.
  ghost predicate Advances(c: Core, d: Core) {
    Inv(d) && Progress(c, d)
  }

  lemma AdvancesTrans(c: Core, d: Core, e: Core)
    requires Advances(c, d) && Advances(d, e)
    ensures Advances(c, e)
  {
    hide Encodes;
    ProgressTrans(c, d, e);
  }

  lemma AdvancesSelf(c: Core)
    requires Inv(c)
    ensures Advances(c, c)
  {
  }

  // ----- queueing -----

  lemma PackedIsOk(room: nat, r: Request, id: nat)
    requires Sendable(r) && Pack(room, r).Packed?
    ensures IssueOk(Issue(Pack(room, r).bytes, r, TypeOf(r), id))
  {
    PackedLength(room, r);
    var b := Pack(room, r).bytes[0];
    FirstByteOf(TypeOf(r), FlagsOf(r));
    if r.PublishRequest? {
      PublishFlags(r.publishFlags);
    }
  }

  lemma FirstByteOf(t: nat, f: nat)
    requires t < 16 && f < 16
    ensures (16 * t + f) / 16 == t && Qos(16 * t + f) == Qos(f)
  {
    assert (16 * t + f) / 2 == 8 * t + f / 2;
    assert (8 * t + f / 2) % 4 == (f / 2) % 4;
  }

  // The last message is the new one.
  ghost predicate NewLast(q: seq<Message>, r: Request, stale: Stale) {
    q != [] && q[|q| - 1].ctype == TypeOf(r) && q[|q| - 1].id == IdOf(r, stale) && q[|q| - 1].state.Unsent?
  }

  lemma AddAdvances(s: Client, room: nat, r: Request, stale: Stale)
    requires Inv(s.core) && Pack(room, r).Packed? && Sendable(r)
             && MayQueue(s.core.q, TypeOf(r), IdOf(r, stale))
    ensures var t := Add(s, Pack(room, r).bytes, r, stale);
            Advances(s.core, t.core) && t.core.trace == s.core.trace && t.error == s.error
              && NewLast(t.core.q, r, stale)
  {
    hide Encodes, Inv, IssueOk, MayQueue, Pack;
    PackedIsOk(room, r, IdOf(r, stale));
    EnqueueKeeps(s.core, Pack(room, r).bytes, r, IdOf(r, stale), stale.time);
  }

  lemma CleanAdvances(s: Client)
    requires Inv(s.core)
    ensures Advances(s.core, CleanUp(s).core) && CleanUp(s).core.trace == s.core.trace && CleanUp(s).error == s.error
  {
    hide Encodes, Inv;
    DropKeeps(s.core, CompletePrefix(s.core.q));
  }

  lemma MayQueueAfterDrop(q: seq<Message>, h: nat, ctype: nat, id: nat)
    requires h <= |q| && MayQueue(q, ctype, id)
    ensures MayQueue(q[h..], ctype, id)
  {
    hide Encodes, Pair;
  }

  // Queueing keeps the invariants, adds no event, and on success puts the new message last.
  lemma TryPackAdvances(s: Client, r: Request, stale: Stale)
    requires Inv(s.core) && Sendable(r) && MayQueue(s.core.q, TypeOf(r), IdOf(r, stale))
    ensures var (t, e) := TryPack(s, r, stale);
            && Advances(s.core, t.core) && t.core.trace == s.core.trace
            && (e == OK ==> s.error == OK && t.error == OK && NewLast(t.core.q, r, stale))
            && (e != OK ==> t.error == e) && (s.error != OK ==> t.error == s.error)
  {
    hide Encodes, Inv, MayQueue, Advances, Pack, Sendable, Add, CleanUp, NewLast, Space;
    AdvancesSelf(s.core);
    var t := CleanUp(s);
    RefusedIsError(Space(s), r);
    RefusedIsError(Space(t), r);
    CleanAdvances(s);
    CleanMayQueue(s, TypeOf(r), IdOf(r, stale));
    if Pack(Space(s), r).Packed? {
      AddAdvances(s, Space(s), r, stale);
    }
    AdvancesInv(s.core, t.core);
    if Pack(Space(t), r).Packed? {
      AddAdvances(t, Space(t), r, stale);
      AdvancesTrans(s.core, t.core, Add(t, Pack(Space(t), r).bytes, r, stale).core);
    }
  }

  lemma RefusedIsError(room: nat, r: Request)
    ensures Pack(room, r).Refused? ==> Pack(room, r).error != OK
  {
  }

  lemma CleanMayQueue(s: Client, ctype: nat, id: nat)
    requires MayQueue(s.core.q, ctype, id)
    ensures MayQueue(CleanUp(s).core.q, ctype, id)
  {
    hide Encodes, MayQueue;
    MayQueueAfterDrop(s.core.q, CompletePrefix(s.core.q), ctype, id);
  }

  lemma AdvancesInv(c: Core, d: Core)
    requires Advances(c, d)
    ensures Inv(d)
  {
  }

  // ----- the calls of the application -----

  lemma FreshId(q: seq<Message>, ctype: nat, id: nat)
    requires id !in UsedIds(q) && (ctype == PUBLISH || ctype == SUBSCRIBE || ctype == UNSUBSCRIBE)
    ensures MayQueue(q, ctype, id)
  {
    hide Encodes;
    forall i | 0 <= i < |q| ensures q[i].id != id {
      assert q[i].id in UsedIds(q);
    }
  }

  lemma NoIdNeeded(q: seq<Message>, ctype: nat, id: nat)
    requires ctype != PUBLISH && ctype != SUBSCRIBE && ctype != UNSUBSCRIBE && ctype != PUBREL && ctype != PUBREC
    ensures MayQueue(q, ctype, id)
  {
  }

  lemma DrawnId(s: Client)
    requires PacketId.Available(UsedIds(s.core.q))
    ensures var t := DrawId(s);
            && t.core == s.core && t.error == s.error && 1 <= PacketId.Number(t.lfsr) <= 65535
            && PacketId.Number(t.lfsr) !in UsedIds(s.core.q)
  {
    hide Encodes;
    hide PacketId.Available, PacketId.NextId;
    var j := PacketId.NextIdUnused(s.lfsr, UsedIds(s.core.q));
  }

  // Queueing a request that carries a freshly drawn identifier.
  lemma DrawnRequestAdvances(s: Client, r: Request, stale: Stale)
    requires Inv(s.core) && PacketId.Available(UsedIds(s.core.q))
    requires (r.PublishRequest? || r.SubscribeRequest? || r.UnsubscribeRequest?)
             && IdOf(r, stale) == PacketId.Number(DrawId(s).lfsr)
    ensures var (t, e) := TryPack(DrawId(s), r, stale);
            Advances(s.core, t.core) && t.core.trace == s.core.trace && (Dead(s.error) ==> Dead(t.error))
  {
    hide Encodes, Inv, Advances, TryPack, MayQueue, UsedIds, PacketId.Available, PacketId.Number, NewLast;
    DrawnId(s);
    FreshId(s.core.q, TypeOf(r), IdOf(r, stale));
    TryPackAdvances(DrawId(s), r, stale);
  }

  // No event is added, and an error, once set, is cleared only by mqtt_connect after initialization.
  lemma PerformAdvances(s: Client, call: Call, stale: Stale)
    requires Inv(s.core) && Returns(s, call) && (call.CallConnect? ==> call.request.ConnectRequest?)
    ensures var (t, e) := Perform(s, call, stale);
            && Advances(s.core, t.core) && t.core.trace == s.core.trace
            && (Dead(s.error) ==> Dead(t.error))
  {
    hide Encodes, Inv, Advances, TryPack, MayQueue, UsedIds, PacketId.Available, PacketId.Number, DrawId, NewLast;
    match call {
      case CallConnect(r) =>
        NoIdNeeded(s.core.q, CONNECT, IdOf(r, stale));
        var t := s.(keepAlive := r.keepAlive);
        TryPackAdvances(if t.error == CONNECT_NOT_CALLED then t.(error := OK) else t, r, stale);
      case CallPing =>
        NoIdNeeded(s.core.q, PINGREQ, stale.id);
        TryPackAdvances(s, PingRequest, stale);
      case CallDisconnect =>
        NoIdNeeded(s.core.q, DISCONNECT, stale.id);
        TryPackAdvances(s, DisconnectRequest, stale);
      case CallReconnect =>
        NoIdNeeded(s.core.q, DISCONNECT, stale.id);
        TryPackAdvances(s, DisconnectRequest, stale);
      case _ =>
        DrawnRequestAdvances(s, Drawing(call, PacketId.Number(DrawId(s).lfsr)), stale);
    }
  }

  // An error that mqtt_sync and mqtt_connect never clear and that stops __mqtt_send.
  predicate Dead(e: Error) {
    e != OK && e != SEND_BUFFER_IS_FULL && e != RECONNECTING && e != CONNECT_NOT_CALLED
  }

  // ----- __mqtt_send -----

  lemma InvHasBytes(c: Core)
    requires Inv(c)
    ensures HasBytes(c.q)
    ensures forall i :: 0 <= i < |c.q| ==> Outbound(c.q[i].ctype)
  {
    hide Encodes;
    forall i | 0 <= i < |c.q| ensures |c.q[i].bytes| > 0 && Outbound(c.q[i].ctype) {
      assert Tracks(c.q[i], c.issued[c.base + i]) && IssueOk(c.issued[c.base + i]);
      TrackedByte(c.q[i], c.issued[c.base + i]);
    }
  }

  // What the loop of __mqtt_send knows before message i: whether a QoS 2
  // PUBLISH ahead is in flight, and that everything else ahead has been sent.
  ghost predicate LoopState(q: seq<Message>, i: nat, inflight: bool) {
    && i <= |q|
    && (!inflight ==> forall j :: 0 <= j < i && Qos2(q[j]) ==> q[j].state.Complete?)
    && (forall j :: 0 <= j < i && !Qos2(q[j]) ==> !q[j].state.Unsent?)
  }

  lemma DueMaySend(s: Client, i: nat, inflight: bool, o: Outside)
    requires i < |s.core.q| && LoopState(s.core.q, i, inflight) && Due(s, i, inflight, o)
    ensures MaySend(s.core, i)
  {
    hide Encodes, Qos2;
  }

  lemma TransmitAdvances(c: Core, i: nat, now: nat)
    requires Inv(c) && MaySend(c, i)
    ensures |c.q[i].bytes| > 0 && Advances(c, Transmit(c, i, now))
  {
    hide Encodes;
    TransmitKeeps(c, i, now);
    hide Inv;
    assert Progress(c, Transmit(c, i, now));
  }

  lemma CutOffAdvances(c: Core, i: nat, n: nat)
    requires Inv(c) && i < |c.q| && n < |c.q[i].bytes|
    ensures Advances(c, Note(c, CutOff(c.base + i, c.q[i].bytes[..n])))
  {
    hide Encodes;
    CutOffKeeps(c, i, n);
    hide Inv;
  }

  predicate OnTheWire(e: Event) {
    e.Sent? || e.CutOff?
  }

  ghost predicate NoCut(trace: seq<Event>) {
    forall j :: 0 <= j < |trace| ==> !trace[j].CutOff?
  }

  // A cut-off packet is the last thing on the wire.
  ghost predicate CutIsLast(trace: seq<Event>) {
    forall i, j :: 0 <= i < j < |trace| && trace[i].CutOff? ==> !OnTheWire(trace[j])
  }

  lemma NoCutThen(trace: seq<Event>, e: Event)
    requires NoCut(trace)
    ensures CutIsLast(trace + [e]) && (!e.CutOff? ==> NoCut(trace + [e]))
  {
  }

  // Sending one message that is due.
  lemma SendOneAdvances(s: Client, i: nat, o: Outside)
    requires Inv(s.core) && MaySend(s.core, i) && NoCut(s.core.trace)
    ensures |s.core.q[i].bytes| > 0
    ensures var (t, e) := SendOne(s, i, o);
            && Advances(s.core, t.core) && CutIsLast(t.core.trace)
            && (e == OK ==> t.error == s.error && NoCut(t.core.trace) && t.core == Transmit(s.core, i, o.sent(i)))
            && (e != OK ==> e == SOCKET_ERROR == t.error)
  {
    hide *;
    MayBeSent(s.core, i);
    SendOneIs(s, i, o);
    var x := s.core.q[i];
    match o.net(i) {
      case Through =>
        TransmitAdvances(s.core, i, o.sent(i));
        NoCutThen(s.core.trace, Sent(s.core.base + i, x.bytes, x.state.Unsent?));
      case Breaks(n) =>
        var k := if n < |x.bytes| then n else |x.bytes| - 1;
        CutOffAdvances(s.core, i, k);
        NoCutThen(s.core.trace, CutOff(s.core.base + i, x.bytes[..k]));
    }
  }

  lemma MayBeSent(c: Core, i: nat)
    requires Inv(c) && MaySend(c, i)
    ensures i < |c.q| && |c.q[i].bytes| > 0 && Outbound(c.q[i].ctype)
  {
    InvHasBytes(c);
    hide Inv, Outbound;
  }

  lemma SendOneIs(s: Client, i: nat, o: Outside)
    requires i < |s.core.q| && |s.core.q[i].bytes| > 0 && Outbound(s.core.q[i].ctype)
    ensures var (x, (t, e)) := (s.core.q[i], SendOne(s, i, o));
            match o.net(i)
            case Through =>
              && e == OK && t.error == s.error && t.core == Transmit(s.core, i, o.sent(i))
              && t.core.trace == s.core.trace + [Sent(s.core.base + i, x.bytes, x.state.Unsent?)]
            case Breaks(n) =>
              var cut := CutOff(s.core.base + i, x.bytes[..if n < |x.bytes| then n else |x.bytes| - 1]);
              && e == SOCKET_ERROR == t.error && t.core == Note(s.core, cut) && t.core.trace == s.core.trace + [cut]
  {
    hide AfterSend, Outbound;
  }

  lemma LoopStateAfterSend(c: Core, i: nat, inflight: bool, now: nat)
    requires i < |c.q| && |c.q[i].bytes| > 0 && LoopState(c.q, i, inflight) && !c.q[i].state.Complete?
    requires Qos2(AfterSend(c.q[i], now)) == Qos2(c.q[i])
    ensures LoopState(Transmit(c, i, now).q, i + 1, inflight || Qos2(c.q[i]))
  {
    hide Encodes, Qos2;
  }

  lemma {:induction false} SendFromAdvances(s: Client, i: nat, inflight: bool, o: Outside)
    requires Inv(s.core) && HasBytes(s.core.q) && LoopState(s.core.q, i, inflight) && NoCut(s.core.trace)
    ensures var (t, e) := SendFrom(s, i, inflight, o);
            && Advances(s.core, t.core) && CutIsLast(t.core.trace)
            && (e == OK ==> t.error == s.error && NoCut(t.core.trace))
            && (e != OK ==> e == SOCKET_ERROR == t.error)
    decreases |s.core.q| - i
  {
    hide Encodes, Inv, Advances, LoopState, MaySend, Due, InFlight, SendOne, Transmit;
    if i >= |s.core.q| {
      AdvancesSelf(s.core);
    } else {
      var t := CountTimeout(s, i, o);
      if !Due(s, i, inflight, o) {
        NotDueLoopState(s, i, inflight, o);
        SendFromAdvances(t, i + 1, InFlight(s, i, inflight), o);
      } else {
        DueMaySend(s, i, inflight, o);
        SendOneAdvances(t, i, o);
        var (u, e) := SendOne(t, i, o);
        if e == OK {
          SentLoopState(s, i, inflight, o);
          AdvancesInv(s.core, u.core);
          InvHasBytes(u.core);
          SendFromAdvances(u, i + 1, InFlight(s, i, inflight), o);
          AdvancesTrans(s.core, u.core, SendFrom(u, i + 1, InFlight(s, i, inflight), o).0.core);
        }
      }
    }
  }

  lemma NotDueLoopState(s: Client, i: nat, inflight: bool, o: Outside)
    requires i < |s.core.q| && LoopState(s.core.q, i, inflight) && !Due(s, i, inflight, o)
    ensures LoopState(s.core.q, i + 1, InFlight(s, i, inflight))
  {
    hide Encodes, Qos2;
  }

  lemma SentLoopState(s: Client, i: nat, inflight: bool, o: Outside)
    requires Inv(s.core) && MaySend(s.core, i) && |s.core.q[i].bytes| > 0 && LoopState(s.core.q, i, inflight)
    ensures LoopState(Transmit(s.core, i, o.sent(i)).q, i + 1, InFlight(s, i, inflight))
    ensures |Transmit(s.core, i, o.sent(i)).q| == |s.core.q|
  {
    hide Encodes;
    var (m, x) := (s.core.q[i], s.core.issued[s.core.base + i]);
    assert Tracks(m, x) && IssueOk(x);
    TransmitTracks(m, x, o.sent(i));
    TrackedByte(m, x);
    TrackedByte(AfterSend(m, o.sent(i)), x);
    hide Inv, Tracks, IssueOk, LoopState, Transmit;
    LoopStateAfterSend(s.core, i, inflight, o.sent(i));
    TransmitSize(s.core, i, o.sent(i));
  }

  lemma TransmitSize(c: Core, i: nat, now: nat)
    requires i < |c.q| && |c.q[i].bytes| > 0
    ensures |Transmit(c, i, now).q| == |c.q|
  {
  }

  // What the client has put on the wire is intact while it is not dead.
  ghost predicate WireOk(s: Client) {
    CutIsLast(s.core.trace) && (NoCut(s.core.trace) || Dead(s.error))
  }

  lemma NotDead(s: Client)
    requires WireOk(s) && (s.error == OK || s.error == SEND_BUFFER_IS_FULL)
    ensures NoCut(s.core.trace) && !Dead(s.error)
  {
  }

  lemma StaysWireOk(t: Client, e: Error)
    requires CutIsLast(t.core.trace) && (e == OK ==> NoCut(t.core.trace)) && (e != OK ==> t.error == SOCKET_ERROR)
    ensures WireOk(t)
  {
  }

  // The keep-alive check queues at most a ping.
  lemma KeptAliveAdvances(s: Client, now: nat, stale: Stale)
    requires Inv(s.core) && NoCut(s.core.trace)
    ensures var t := KeptAlive(s, now, stale).0; Advances(s.core, t.core) && WireOk(t)
  {
    hide Inv, Advances, TryPack, MayQueue, NewLast, NoCut;
    AdvancesSelf(s.core);
    NoIdNeeded(s.core.q, PINGREQ, stale.id);
    TryPackAdvances(s, PingRequest, stale);
    NoCutIsWhole(s.core.trace);
  }

  lemma NoCutIsWhole(trace: seq<Event>)
    requires NoCut(trace)
    ensures CutIsLast(trace)
  {
  }

  lemma LoopStart(q: seq<Message>)
    ensures LoopState(q, 0, false)
  {
  }

  // __mqtt_send keeps the invariants and whole packets on the wire.
  lemma SendAdvances(s: Client, o: Outside)
    requires Inv(s.core) && WireOk(s)
    ensures HasBytes(s.core.q)
    ensures var (t, e) := Send(s, o);
            && Advances(s.core, t.core) && WireOk(t) && (Dead(s.error) ==> t == s)
  {
    InvHasBytes(s.core);
    hide Inv, Advances, SendFrom, KeptAlive, HasBytes, LoopState, CutIsLast, NoCut, WireOk;
    AdvancesSelf(s.core);
    if !(s.error != OK && s.error != SEND_BUFFER_IS_FULL) {
      NotDead(s);
      LoopStart(s.core.q);
      SendFromAdvances(s, 0, false, o);
      var (t, e) := SendFrom(s, 0, false, o);
      StaysWireOk(t, e);
      AdvancesInv(s.core, t.core);
      if e == OK {
        KeptAliveAdvances(t, o.last, o.ping);
        AdvancesTrans(s.core, t.core, KeptAlive(t, o.last, o.ping).0.core);
      }
    }
  }

  // ----- __mqtt_recv -----

  // Nothing was put on the wire.
  ghost predicate Quiet(a: seq<Event>, b: seq<Event>) {
    a <= b && forall j :: |a| <= j < |b| ==> !OnTheWire(b[j])
  }

  lemma QuietTrans(a: seq<Event>, b: seq<Event>, c: seq<Event>)
    requires Quiet(a, b) && Quiet(b, c)
    ensures Quiet(a, c)
  {
  }

  lemma QuietWire(a: seq<Event>, b: seq<Event>)
    requires Quiet(a, b)
    ensures CutIsLast(a) ==> CutIsLast(b)
    ensures NoCut(a) ==> NoCut(b)
  {
  }

  // What handling a response keeps: t and e are its outcome.
  ghost predicate Handled(s: Client, t: Client, e: Error) {
    && Advances(s.core, t.core) && Quiet(s.core.trace, t.core.trace)
    && (e == OK ==> t.error == s.error)
    && (e != OK ==> t.error == e)
    && (Dead(s.error) ==> Dead(t.error))
  }

  lemma HandledThen(s: Client, t: Client, u: Client, e: Error)
    requires Handled(s, t, OK) && Handled(t, u, e)
    ensures Handled(s, u, e)
  {
    hide Encodes;
    AdvancesTrans(s.core, t.core, u.core);
    QuietTrans(s.core.trace, t.core.trace, u.core.trace);
  }

  lemma HandledSelf(s: Client)
    requires Inv(s.core)
    ensures Handled(s, s, OK)
  {
    hide Encodes, Inv;
  }

  lemma HandledFail(s: Client, t: Client, e: Error)
    requires Handled(s, t, OK) && Dead(e)
    ensures Handled(s, Fail(t, e).0, e)
  {
    hide Encodes, Inv, Progress;
  }

  lemma ReleaseHandled(s: Client, ctype: nat, id: Option<u16>, kind: nat)
    requires Inv(s.core) && Acknowledges(kind, ctype)
    ensures var (t, e) := Release(s, ctype, id, kind); Handled(s, t, e)
  {
    hide Encodes, Inv, Acknowledges;
    var k := FindIn(s.core.q, ctype, id);
    if k == |s.core.q| {
      HandledSelf(s);
      HandledFail(s, s, ACK_OF_UNKNOWN);
    } else {
      AcknowledgeKeeps(s.core, k, kind);
      assert Progress(s.core, Acknowledge(s.core, k, kind, s.core.q[k].id));
    }
  }

  lemma AnswerHandled(s: Client, ctype: nat, id: u16, stale: Stale)
    requires Inv(s.core) && PUBACK <= ctype <= PUBCOMP && MayQueue(s.core.q, ctype, id)
    ensures var (t, e) := Answer(s, ctype, id, stale);
            && Handled(s, t, e) && t.core.trace == s.core.trace
            && (e == OK ==> NewLast(t.core.q, AckRequest(ctype, id), stale))
  {
    hide Encodes, Inv, MayQueue, TryPack, Advances, NewLast;
    TryPackAdvances(s, AckRequest(ctype, id), stale);
  }

  lemma DeliverHandled(s: Client, qos: nat, id: u16, topic: seq<byte>, message: seq<byte>)
    requires Inv(s.core) && (qos == 2 ==> !Open(s.core.trace, id) && Guarded(s.core.q, id))
    ensures Handled(s, Deliver(s, qos, id, topic, message), OK)
  {
    hide Encodes;
    DeliverKeeps(s.core, qos, id, topic, message);
    hide Inv, Guarded, Open;
    assert Progress(s.core, Deliver(s, qos, id, topic, message).core);
  }

  // Without a PUBREC in the queue nothing with that identifier is open, and one may be queued.
  lemma NoPubrec(s: Client, id: u16)
    requires Inv(s.core) && !Queued(s, PUBREC, id)
    ensures !Open(s.core.trace, id) && MayQueue(s.core.q, PUBREC, id)
  {
    hide Encodes, Registry, Pairs, Events, Ordering, Causes, Open;
    forall i | 0 <= i < |s.core.q| ensures !(s.core.q[i].ctype == PUBREC && s.core.q[i].id == id) {
      assert !Matches(s.core.q[i], PUBREC, Some(id));
    }
  }

  lemma HandlePublishHandled(s: Client, qos: nat, id: u16, topic: seq<byte>, message: seq<byte>, stale: Stale)
    requires Inv(s.core)
    ensures var (t, e) := HandlePublish(s, qos, id, topic, message, stale); Handled(s, t, e)
  {
    hide Encodes, Inv, MayQueue, Answer, Deliver, Handled, Queued, Open, Advances;
    HandledSelf(s);
    if qos == 1 {
      NoIdNeeded(s.core.q, PUBACK, id);
      AnswerHandled(s, PUBACK, id, stale);
      var (t, e) := Answer(s, PUBACK, id, stale);
      if e == OK {
        HandledInv(s, t, e);
        DeliverHandled(t, qos, id, topic, message);
        HandledThen(s, t, Deliver(t, qos, id, topic, message), OK);
      }
    } else if qos == 2 {
      if !Queued(s, PUBREC, id) {
        NoPubrec(s, id);
        AnswerHandled(s, PUBREC, id, stale);
        var (t, e) := Answer(s, PUBREC, id, stale);
        if e == OK {
          HandledInv(s, t, e);
          assert Guarded(t.core.q, id);
          DeliverHandled(t, qos, id, topic, message);
          HandledThen(s, t, Deliver(t, qos, id, topic, message), OK);
        }
      }
    } else {
      DeliverHandled(s, qos, id, topic, message);
    }
  }

  lemma HandledInv(s: Client, t: Client, e: Error)
    requires Handled(s, t, e)
    ensures Inv(t.core)
  {
  }

  // Once its PUBLISH is complete and no PUBREL is queued, a PUBREL may be queued.
  lemma MayRelease(s: Client, id: u16, k: nat)
    requires Pairs(s.core.q) && !Queued(s, PUBREL, id)
    requires k < |s.core.q| && s.core.q[k].ctype == PUBLISH && s.core.q[k].id == id
    ensures MayQueue(s.core.q[k := s.core.q[k].(state := Complete)], PUBREL, id)
  {
    hide Encodes;
    var q' := s.core.q[k := s.core.q[k].(state := Complete)];
    forall i | 0 <= i < |q'| ensures forall bytes, time :: Pair(q'[i], Message(bytes, Unsent, time, PUBREL, id)) {
      assert !Matches(s.core.q[i], PUBREL, Some(id));
      assert i < k ==> Pair(s.core.q[i], s.core.q[k]);
      assert k < i ==> Pair(s.core.q[k], s.core.q[i]);
    }
  }

  lemma PubrecHandled(s: Client, id: u16, stale: Stale)
    requires Inv(s.core)
    ensures var (t, e) := HandleAck(s, PUBREC, id, stale); Handled(s, t, e)
  {
    hide Encodes;
    HandledSelf(s);
    if !Queued(s, PUBREL, id) {
      ReleaseHandled(s, PUBLISH, Some(id), PUBREC);
      var (t, e) := Release(s, PUBLISH, Some(id), PUBREC);
      if e == OK {
        MayRelease(s, id, FindIn(s.core.q, PUBLISH, Some(id)));
        HandledInv(s, t, e);
        hide Inv, Handled, Queued, MayQueue, Answer;
        AnswerHandled(t, PUBREL, id, stale);
        HandledThen(s, t, Answer(t, PUBREL, id, stale).0, Answer(t, PUBREL, id, stale).1);
      }
    }
  }

  lemma PubrelHandled(s: Client, id: u16, stale: Stale)
    requires Inv(s.core)
    ensures var (t, e) := HandleAck(s, PUBREL, id, stale); Handled(s, t, e)
  {
    hide Encodes, Inv, Handled, Queued, MayQueue, Answer, Release;
    ReleaseHandled(s, PUBREC, Some(id), PUBREL);
    var (t, e) := Release(s, PUBREC, Some(id), PUBREL);
    if e == OK {
      HandledInv(s, t, e);
      NoIdNeeded(t.core.q, PUBCOMP, id);
      AnswerHandled(t, PUBCOMP, id, stale);
      HandledThen(s, t, Answer(t, PUBCOMP, id, stale).0, Answer(t, PUBCOMP, id, stale).1);
    }
  }

  lemma HandleAckHandled(s: Client, kind: nat, id: u16, stale: Stale)
    requires Inv(s.core)
    ensures var (t, e) := HandleAck(s, kind, id, stale); Handled(s, t, e)
  {
    hide Encodes;
    if kind == PUBREC {
      PubrecHandled(s, id, stale);
    } else if kind == PUBREL {
      PubrelHandled(s, id, stale);
    } else {
      hide Inv, Handled, Queued, Answer, Release;
      if kind == PUBACK {
        ReleaseHandled(s, PUBLISH, Some(id), kind);
      } else if kind == PUBCOMP {
        ReleaseHandled(s, PUBREL, Some(id), kind);
      } else if kind == UNSUBACK {
        ReleaseHandled(s, UNSUBSCRIBE, Some(id), kind);
      } else {
        HandledSelf(s);
        HandledFail(s, s, MALFORMED_RESPONSE);
      }
    }
  }

  lemma HandleHandled(s: Client, r: Response, stale: Stale)
    requires Inv(s.core)
    ensures var (t, e) := Handle(s, r, stale); Handled(s, t, e)
  {
    hide Encodes, Inv, Handled, HandlePublish, HandleAck, Release;
    match r {
      case Connack(_, code) =>
        ReleaseHandled(s, CONNECT, None, CONNACK);
        var (t, e) := Release(s, CONNECT, None, CONNACK);
        if e == OK {
          HandledFail(s, t, CONNECT_CLIENT_ID_REFUSED);
          HandledFail(s, t, CONNECTION_REFUSED);
        }
      case Publish(_, qos, _, topic, id, message) => HandlePublishHandled(s, qos, id, topic, message, stale);
      case Ack(kind, id) => HandleAckHandled(s, kind, id, stale);
      case Suback(id, codes) =>
        ReleaseHandled(s, SUBSCRIBE, Some(id), SUBACK);
        var (t, e) := Release(s, SUBSCRIBE, Some(id), SUBACK);
        if e == OK {
          HandledFail(s, t, SUBSCRIBE_FAILED);
        }
      case Pingresp => ReleaseHandled(s, PINGREQ, None, PINGRESP);
    }
  }
}
