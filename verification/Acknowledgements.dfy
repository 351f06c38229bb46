// Which acknowledgement finishes a PUBLISH: in every run each recorded
// acknowledgement came in as a packet from the broker, and what a packet may
// finish does not depend on the QoS of the PUBLISH.
module Acknowledgements {
  import opened Types
  import opened Wire
  import opened WireProofs
  import opened QueueMemory
  import opened MessageQueues
  import opened Protocol
  import opened Invariants
  import opened Steps
  import opened Handshakes
  import opened Receive
  import opened Runs
  import PacketId

  // p is a packet that acknowledges with this type and, where it has one, this identifier.
  predicate Says(p: seq<byte>, kind: nat, id: nat) {
    WholePacket(p) && Carries(Unpack(p).response, kind, id)
  }

  // One of these packets says so; what has been consumed for a PINGRESP need not be a whole packet.
  ghost predicate Said(ps: seq<seq<byte>>, kind: nat, id: nat) {
    kind == PINGRESP || exists k :: 0 <= k < |ps| && Says(ps[k], kind, id)
  }

  // Whatever is recorded as acknowledged from event a on was acknowledged by a packet consumed from packet b on.
  ghost predicate Heard(trace: seq<Event>, taken: seq<seq<byte>>, a: nat, b: nat) {
    && a <= |trace| && b <= |taken|
    && forall i :: a <= i < |trace| && trace[i].Acked? ==> Said(taken[b..], trace[i].kind, trace[i].id)
  }

  lemma SaidLater(ps: seq<seq<byte>>, p: seq<byte>, kind: nat, id: nat)
    ensures Said(ps, kind, id) || Says(p, kind, id) ==> Said(ps + [p], kind, id)
  {
    hide Says;
    var qs := ps + [p];
    if kind != PINGRESP {
      if k :| 0 <= k < |ps| && Says(ps[k], kind, id) {
        assert Says(qs[k], kind, id);
      }
      if Says(p, kind, id) {
        assert Says(qs[|ps|], kind, id);
      }
    }
  }

  // What is decoded from the front of a buffer is decoded from the bytes consumed alone.
  lemma ConsumedSays(buf: seq<byte>, kind: nat, id: nat)
    requires Unpack(buf).Decoded? && Carries(Unpack(buf).response, kind, id) && kind != PINGRESP
    ensures Says(buf[..Unpack(buf).consumed], kind, id)
  {
    NotPingresp(buf);
    DecodedIsComplete(buf);
    var n := Unpack(buf).consumed;
    assert buf == buf[..n] + buf[n..];
    hide Unpack, UnpackHeader;
    UnpackExtends(buf[..n], buf[n..]);
  }

  lemma NotPingresp(buf: seq<byte>)
    requires Unpack(buf).Decoded? && !Unpack(buf).response.Pingresp?
    ensures UnpackHeader(buf).HeaderOf? && UnpackHeader(buf).ctype != PINGRESP
  {
    hide UnpackHeader, UnpackBody;
  }

  lemma HeardThen(c: Core, d: Core, taken: seq<seq<byte>>, p: seq<byte>, r: Response, a: nat, b: nat)
    requires Heard(c.trace, taken, a, b) && AddsAck(c, d, r)
    requires forall kind: nat, id: nat :: Carries(r, kind, id) && kind != PINGRESP ==> Says(p, kind, id)
    ensures Heard(d.trace, taken + [p], a, b)
  {
    hide Says, Said, Carries, Names;
    var ps := taken[b..];
    assert (taken + [p])[b..] == ps + [p];
    forall i | a <= i < |d.trace| && d.trace[i].Acked? ensures Said(ps + [p], d.trace[i].kind, d.trace[i].id) {
      var e := d.trace[i];
      SaidLater(ps, p, e.kind, e.id);
      if i < |c.trace| {
        assert e == c.trace[i];
      } else {
        assert Carries(r, e.kind, e.id);
        PingrespSaid(ps + [p], e.id);
      }
    }
  }

  lemma PingrespSaid(ps: seq<seq<byte>>, id: nat)
    ensures Said(ps, PINGRESP, id)
  {
  }

  lemma ConsumeHeard(s: Client, buf: seq<byte>, stale: Stale, a: nat, b: nat)
    requires Unpack(buf).Decoded? && Unpack(buf).consumed <= |buf| && Heard(s.core.trace, s.taken, a, b)
    ensures var t := Consume(s, buf, Unpack(buf).response, Unpack(buf).consumed, stale).0;
            Heard(t.core.trace, t.taken, a, b)
  {
    var (r, n) := (Unpack(buf).response, Unpack(buf).consumed);
    AckedWhileQueued(s.(inbuf := buf), r, stale);
    hide Heard, AddsAck, Handle, Says, Unpack, Carries;
    forall kind: nat, id: nat | Carries(r, kind, id) && kind != PINGRESP ensures Says(buf[..n], kind, id) {
      ConsumedSays(buf, kind, id);
    }
    var t := Consume(s, buf, r, n, stale).0;
    HeardThen(s.core, t.core, s.taken, buf[..n], r, a, b);
  }

  lemma {:induction false} RecvHeard(s: Client, l: Link, stales: nat -> Stale, i: nat, a: nat, b: nat)
    requires |s.inbuf| <= s.insize && Heard(s.core.trace, s.taken, a, b)
    ensures var t := RecvFrom(s, l, stales, i).client; Heard(t.core.trace, t.taken, a, b)
    decreases |l.rest| + |s.inbuf|
  {
    hide Heard, Unpack, Consume, AfterRead, Arriving;
    var buf := Buffered(s, l);
    if !Fails(l) && Unpack(buf).Decoded? {
      ConsumedIsSome(buf);
      RecvTurn(s, l, stales, i);
      ConsumeHeard(s, buf, stales(i), a, b);
      var (t, e) := Consume(s, buf, Unpack(buf).response, Unpack(buf).consumed, stales(i));
      if e == OK {
        RecvHeard(t, Onward(s, l), stales, i + 1, a, b);
      }
    }
  }

  // What is added to the history is no acknowledgement.
  ghost predicate NoAck(a: seq<Event>, b: seq<Event>) {
    a <= b && forall i :: |a| <= i < |b| ==> !b[i].Acked?
  }

  lemma NoAckThen(a: seq<Event>, b: seq<Event>, c: seq<Event>)
    requires NoAck(a, b) && NoAck(b, c)
    ensures NoAck(a, c)
  {
  }

  lemma TurnedNoAck(s: Client, i: nat, inflight: bool, o: Outside)
    requires i < |s.core.q| && HasBytes(s.core.q)
    ensures NoAck(s.core.trace, Turned(s, i, inflight, o).0.core.trace)
  {
    hide AfterSend, Due, Expired, Outbound;
  }

  lemma {:induction false} SendFromNoAck(s: Client, i: nat, inflight: bool, o: Outside)
    requires HasBytes(s.core.q)
    ensures NoAck(s.core.trace, SendFrom(s, i, inflight, o).0.core.trace)
    decreases |s.core.q| - i
  {
    if i < |s.core.q| {
      TurnedNoAck(s, i, inflight, o);
      var (u, e) := Turned(s, i, inflight, o);
      SendFromTurn(s, i, inflight, o);
      if e == OK {
        hide *;
        SendFromNoAck(u, i + 1, InFlight(s, i, inflight), o);
        NoAckThen(s.core.trace, u.core.trace, SendFrom(s, i, inflight, o).0.core.trace);
      }
    }
  }

  lemma SendNoAck(s: Client, o: Outside)
    requires HasBytes(s.core.q)
    ensures NoAck(s.core.trace, Send(s, o).0.core.trace)
  {
    hide SendFrom, TryPack, HasBytes;
    SendFromNoAck(s, 0, false, o);
    TryPackKeepsDone(SendFrom(s, 0, false, o).0, PingRequest, o.ping, 0);
  }

  lemma HeardSame(s: Client, t: Client, a: nat, b: nat)
    requires Heard(s.core.trace, s.taken, a, b) && NoAck(s.core.trace, t.core.trace) && t.taken == s.taken
    ensures Heard(t.core.trace, t.taken, a, b)
  {
    hide Said;
  }

  lemma StepHeard(s: Client, rest: seq<byte>, op: Op, a: nat, b: nat)
    requires Ok(s) && Enabled(s, op) && Heard(s.core.trace, s.taken, a, b)
    ensures var t := Step(s, rest, op).0; Heard(t.core.trace, t.taken, a, b)
  {
    match op {
      case Invoke(call, stale) =>
        hide Inv, Perform, Heard, Advances;
        PerformAdvances(s, call, stale);
        PerformKeepsBuffer(s, call, stale);
      case Sync(w) =>
        hide Inv, RecvFrom, Send, Heard, NoAck;
        var t := if s.error == RECONNECTING then s.(error := OK) else s;
        var l := Link(rest + w.arriving, w.ready);
        RecvHeard(t, l, w.stales, 0, a, b);
        var r := RecvFrom(t, l, w.stales, 0);
        if r.error == OK {
          RecvAdvances(t, l, w.stales, 0);
          InvHasBytes(r.client.core);
          SendNoAck(r.client, w.out);
          SendKeepsBuffer(r.client, w.out);
          HeardSame(r.client, Send(r.client, w.out).0, a, b);
        }
    }
  }

  lemma {:induction false} ChainHeard(run: seq<Stage>, ops: seq<Op>, n: nat, a: nat, b: nat)
    requires Chain(run, ops) && n <= |ops| && Heard(run[0].client.core.trace, run[0].client.taken, a, b)
    ensures Heard(run[n].client.core.trace, run[n].client.taken, a, b)
  {
    hide Ok, Step, Enabled, Heard;
    if n > 0 {
      ChainHeard(run, ops, n - 1, a, b);
      var (stage, op) := (run[n - 1], ops[n - 1]);
      assert Follows(stage, op, run[n]);
      StepHeard(stage.client, stage.rest, op, a, b);
    }
  }

  // In any run from s to t each acknowledgement recorded on the way came in as
  // a packet that the client consumed on the way.
  lemma AckHeard(s: Client, rest: seq<byte>, ops: seq<Op>, t: Client, left: seq<byte>, i: nat)
    requires Reaches(s, rest, ops, t, left) && |s.core.trace| <= i < |t.core.trace| && t.core.trace[i].Acked?
    ensures |s.taken| <= |t.taken| && Said(t.taken[|s.taken|..], t.core.trace[i].kind, t.core.trace[i].id)
  {
    hide Said, Follows;
    var run :| Chain(run, ops) && run[0] == Stage(s, rest) && run[|ops|] == Stage(t, left);
    ChainHeard(run, ops, |ops|, |s.core.trace|, |s.taken|);
  }

  // ----- the QoS of a PUBLISH -----

  // The event that finishes a PUBLISH of this QoS (sections 4.3.1 to 4.3.3 of MQTT 3.1.1).
  predicate Fits(e: Event, qos: nat) {
    if qos == 0 then e.Sent? else e.Acked? && ((qos == 1 && e.kind == PUBACK) || (qos == 2 && e.kind == PUBREC))
  }

  // Message k has been finished by a PUBACK or PUBREC, which was right exactly if its QoS is the one for that.
  ghost predicate FinishedBy(c: Core, d: Core, k: nat, kind: nat, id: nat) {
    && k < |c.q| && |c.q[k].bytes| > 0 && Done(d, c.base + k)
    && var e := Acked(c.base + k, kind, id);
       d.trace == c.trace + [e]
         && (Fits(e, Qos(c.q[k].bytes[0])) <==> Qos(c.q[k].bytes[0]) == if kind == PUBACK then 1 else 2)
  }

  // What a PUBACK or PUBREC finishes is the first queued PUBLISH with its
  // identifier, and it is the right packet exactly when that one has its QoS.
  lemma AckFits(s: Client, k: nat, kind: nat, id: u16, stale: Stale)
    requires (kind == PUBACK || (kind == PUBREC && !Queued(s, PUBREL, id))) && HasBytes(s.core.q)
    requires Queued(s, PUBLISH, id) && k == FindIn(s.core.q, PUBLISH, Some(id))
    ensures FinishedBy(s.core, Handle(s, Ack(kind, id), stale).0.core, k, kind, id)
  {
    hide *;
    PacketTypes();
    var t := Release(s, PUBLISH, Some(id), kind).0;
    ReleaseCompletes(s, PUBLISH, id, kind);
    HandledAck(s, kind, id, stale);
    AnswerKeepsDone(t, PUBREL, id, stale, s.core.base + k);
    CompletedFinishes(s, t, k, kind, id);
    if kind == PUBREC {
      FinishedLater(s.core, t.core, Answer(t, PUBREL, id, stale).0.core, k, kind, id);
    }
  }

  lemma PacketTypes()
    ensures 0 < PUBLISH < PUBACK < PUBREC < PUBREL < PUBCOMP
  {
  }

  lemma CompletedFinishes(s: Client, t: Client, k: nat, kind: nat, id: u16)
    requires Completed(s, t, k, kind, id) && HasBytes(s.core.q) && (kind == PUBACK || kind == PUBREC)
    ensures FinishedBy(s.core, t.core, k, kind, id) && Done(t.core, s.core.base + k)
  {
  }

  lemma FinishedLater(c: Core, d: Core, d': Core, k: nat, kind: nat, id: nat)
    requires FinishedBy(c, d, k, kind, id) && d'.trace == d.trace && Done(d', c.base + k)
    ensures FinishedBy(c, d', k, kind, id)
  {
  }

  lemma HandledAck(s: Client, kind: nat, id: u16, stale: Stale)
    requires (kind == PUBACK || (kind == PUBREC && !Queued(s, PUBREL, id))) && Queued(s, PUBLISH, id)
    ensures var t := Release(s, PUBLISH, Some(id), kind).0;
            Handle(s, Ack(kind, id), stale).0 == if kind == PUBACK then t else Answer(t, PUBREL, id, stale).0
  {
    hide Answer, Acknowledge;
  }

  // ----- a PUBACK that comes too early -----

  // Queueing puts one new message last, whose serial is the next one; the others were queued before.
  ghost predicate NewOne(s: Client, t: Client, r: Request, id: u16) {
    && t.core.q != [] && t.core.q[|t.core.q| - 1].ctype == TypeOf(r) && t.core.q[|t.core.q| - 1].id == id
    && t.core.base + |t.core.q| == s.core.base + |s.core.q| + 1 && t.core.trace == s.core.trace
    && t.error == s.error == OK
    && t.lfsr == s.lfsr
    && |t.core.issued| == |s.core.issued| + 1 && t.core.issued[|s.core.issued|].request == r
    && forall i :: 0 <= i < |t.core.q| - 1 ==> t.core.q[i] in s.core.q
  }

  lemma TryPackNewOne(s: Client, r: Request, stale: Stale)
    requires TryPack(s, r, stale).1 == OK
    ensures NewOne(s, TryPack(s, r, stale).0, r, IdOf(r, stale))
  {
    hide Pack, Space, CompletePrefix, TypeOf, IdOf, Add, NewOne;
    RefusedIsError(Space(s), r);
    RefusedIsError(Space(CleanUp(s)), r);
    var t := CleanUp(s);
    if Pack(Space(s), r).Packed? {
      AddedOne(s, s, Pack(Space(s), r).bytes, r, stale);
    } else {
      CleanedSize(s);
      AddedOne(s, t, Pack(Space(t), r).bytes, r, stale);
    }
  }

  lemma CleanedSize(s: Client)
    ensures CompletePrefix(s.core.q) <= |s.core.q|
  {
  }

  lemma AddedOne(s: Client, t: Client, bytes: seq<byte>, r: Request, stale: Stale)
    requires s.error == OK == t.error && t.lfsr == s.lfsr && t.core.trace == s.core.trace
             && t.core.issued == s.core.issued
    requires t.core.base + |t.core.q| == s.core.base + |s.core.q|
             && forall i :: 0 <= i < |t.core.q| ==> t.core.q[i] in s.core.q
    ensures NewOne(s, Add(t, bytes, r, stale), r, IdOf(r, stale))
  {
    hide TypeOf, IdOf;
  }

  // The only message with this identifier is found.
  lemma OnlyOne(q: seq<Message>, others: seq<Message>, ctype: nat, id: u16)
    requires q != [] && q[|q| - 1].ctype == ctype && q[|q| - 1].id == id && id !in UsedIds(others)
    requires forall i :: 0 <= i < |q| - 1 ==> q[i] in others
    ensures FindIn(q, ctype, Some(id)) == |q| - 1
  {
    assert Matches(q[|q| - 1], ctype, Some(id));
    forall i | 0 <= i < |q| - 1 ensures q[i].id != id {
      var j :| 0 <= j < |others| && others[j] == q[i];
      assert others[j].id in UsedIds(others);
    }
  }

  // After mqtt_init and a successful mqtt_connect the client is in a state from
  // which a message can be lost and a PUBLISH finished by any PUBACK.
  lemma AfterConnect(size: nat, insize: nat, keepAlive: u16, lastSend: nat, r: Request, stale: Stale)
    requires r.ConnectRequest? && Perform(Init(size, insize, keepAlive, lastSend), CallConnect(r), stale).1 == OK
    ensures var s := Perform(Init(size, insize, keepAlive, lastSend), CallConnect(r), stale).0;
            && Reachable(s) && Ok(s) && s.error == OK && |s.core.q| == 1 && s.core.q[0].ctype == CONNECT
            && Space(s) == Room(size, 1, |s.core.q[0].bytes|) && forall id: u16 :: !Queued(s, PUBREC, id)
  {
    hide Perform, Ok, Space, Queued, Init, Reaches, Step;
    var start := Init(size, insize, keepAlive, lastSend);
    var op := Invoke(CallConnect(r), stale);
    Fresh(size, insize, keepAlive, lastSend);
    InitOk(size, insize, keepAlive, lastSend);
    ConnectedQueue(start, r, stale);
    NoOps(start);
    ReachesThen(start, [], [], start, [], op);
    InvokeStep(start, CallConnect(r), stale);
    ReachesOk(start, [], [] + [op], Perform(start, CallConnect(r), stale).0, []);
  }

  lemma NoOps(s: Client)
    ensures Reaches(s, [], [], s, [])
  {
    assert Chain([Stage(s, [])], []);
  }

  lemma Fresh(size: nat, insize: nat, keepAlive: u16, lastSend: nat)
    ensures var s := Init(size, insize, keepAlive, lastSend);
            s.core.q == [] && s.error == CONNECT_NOT_CALLED && s.size == size
  {
  }

  lemma InvokeStep(s: Client, call: Call, stale: Stale)
    requires Ok(s) && Enabled(s, Invoke(call, stale))
    ensures Step(s, [], Invoke(call, stale)) == (Perform(s, call, stale).0, [])
  {
    hide Ok, Perform, Enabled;
  }

  lemma ConnectedQueue(s: Client, r: Request, stale: Stale)
    requires s.core.q == [] && s.error == CONNECT_NOT_CALLED && r.ConnectRequest?
             && Perform(s, CallConnect(r), stale).1 == OK
    ensures var t := Perform(s, CallConnect(r), stale).0;
            && t.error == OK && |t.core.q| == 1 && t.core.q[0].ctype == CONNECT
            && Space(t) == Room(s.size, 1, |t.core.q[0].bytes|) && forall id: u16 :: !Queued(t, PUBREC, id)
  {
    hide TryPack, Room, Space, Queued, IdOf;
    var u := s.(keepAlive := r.keepAlive, error := OK);
    TryPackNewOne(u, r, stale);
    TryPackKeeps(u, r, stale);
    var t := Perform(s, CallConnect(r), stale).0;
    assert t == TryPack(u, r, stale).0;
    NoOthers(t.core.q, u.core.q);
    AloneInQueue(t);
  }

  lemma NoOthers(q: seq<Message>, others: seq<Message>)
    requires q != [] && forall i :: 0 <= i < |q| - 1 ==> q[i] in others
    ensures |q| > 1 ==> others != []
  {
    if |q| > 1 {
      assert q[0] in others;
    }
  }

  lemma AloneInQueue(t: Client)
    requires |t.core.q| == 1 && t.core.q[0].ctype == CONNECT
    ensures Space(t) == Room(t.size, 1, |t.core.q[0].bytes|) && forall id: u16 :: !Queued(t, PUBREC, id)
  {
    hide Room;
    assert t.core.q[..0] == [] && TotalSize(t.core.q[..0]) == 0;
    forall id: u16 ensures !Queued(t, PUBREC, id) {
      assert !Matches(t.core.q[0], PUBREC, Some(id));
    }
  }

  predicate SendsOf(e: Event, n: nat) {
    e.Sent? && e.serial == n
  }

  predicate Concerns(e: Event, n: nat) {
    (e.Sent? || e.Acked?) && e.serial == n
  }

  // No event concerns a message that is still to be queued.
  lemma NoneBefore(c: Core, n: nat)
    requires Inv(c) && n >= |c.issued|
    ensures forall i :: 0 <= i < |c.trace| ==> !Concerns(c.trace[i], n)
  {
    hide Registry, Pairs, Ordering, Causes, Reception;
    forall i | 0 <= i < |c.trace| ensures !Concerns(c.trace[i], n) {
      assert EventOk(c, c.trace[i]);
    }
  }

  lemma NotSentBehind(c: Core, j: nat, n: nat)
    requires Inv(c) && j < |c.trace| && c.trace[j].Acked? && c.trace[j].serial == n
    ensures forall i :: j < i < |c.trace| ==> !SendsOf(c.trace[i], n)
  {
    hide Registry, Pairs, Causes, Reception;
    forall i | j < i < |c.trace| ensures !SendsOf(c.trace[i], n) {
      assert InOrder(c.issued, c.trace[j], c.trace[i]) && EventOk(c, c.trace[j]) && EventOk(c, c.trace[i]);
    }
  }

  // Message n has not been sent when the __mqtt_send that follows is done.
  ghost predicate StaysUnsent(u: Client, n: nat, o: Outside) {
    HasBytes(u.core.q) && forall i :: 0 <= i < |Send(u, o).0.core.trace| ==> !SendsOf(Send(u, o).0.core.trace[i], n)
  }

  lemma NeverSent(u: Client, j: nat, n: nat, o: Outside)
    requires Inv(u.core) && WireOk(u) && |u.core.trace| == j + 1 && u.core.trace[j].Acked?
             && u.core.trace[j].serial == n
    requires forall i :: 0 <= i < j ==> !SendsOf(u.core.trace[i], n)
    ensures StaysUnsent(u, n, o)
  {
    hide Inv, WireOk, Send, HasBytes;
    SendAdvances(u, o);
    var c := Send(u, o).0.core;
    assert u.core.trace <= c.trace;
    NotSentBehind(c, j, n);
    forall i | 0 <= i < |c.trace| ensures !SendsOf(c.trace[i], n) {
      assert i <= j ==> c.trace[i] == u.core.trace[i];
    }
  }

  lemma IssuedSize(c: Core)
    requires Inv(c)
    ensures |c.issued| == c.base + |c.q|
  {
  }

  lemma StillWireOk(s: Client, u: Client, e: Event)
    requires WireOk(s) && s.error == OK && u.core.trace == s.core.trace + [e] && !e.CutOff?
    ensures WireOk(u)
  {
    NoCutThen(s.core.trace, e);
  }

  lemma PubackFinishes(t: Client, k: nat, id: u16, stale: Stale)
    requires Inv(t.core) && k < |t.core.q| && k == FindIn(t.core.q, PUBLISH, Some(id))
    ensures var (u, e) := Handle(t, Ack(PUBACK, id), stale);
            && e == OK && Inv(u.core) && Done(u.core, t.core.base + k) && u.core.issued == t.core.issued
            && u.core.trace == t.core.trace + [Acked(t.core.base + k, PUBACK, id)]
  {
    hide Inv, FindIn, Advances, Quiet;
    HandleHandled(t, Ack(PUBACK, id), stale);
    AdvancesInv(t.core, Handle(t, Ack(PUBACK, id), stale).0.core);
  }

  // The PUBLISH of a call, and a PUBACK with its identifier: u is the client after both.
  ghost predicate AckedUnsent(s: Client, call: Call, u: Client) {
    && call.CallPublish? && |u.core.issued| == |s.core.issued| + 1
    && var (n, x) := (|s.core.issued|, u.core.issued[|s.core.issued|]);
       && x.request.PublishRequest? && x.request.topic == call.topic && x.request.message == call.message
       && x.request.publishFlags == call.flags
       && Done(u.core, n) && u.core.trace == s.core.trace + [Acked(n, PUBACK, x.request.id)]
       && (forall i :: 0 <= i < |u.core.trace| ==> !SendsOf(u.core.trace[i], n))
       && forall o :: StaysUnsent(u, n, o)
  }

  // After any mqtt_publish that succeeds, whatever its QoS, a PUBACK with the
  // identifier drawn finishes the PUBLISH although nothing of it has been
  // sent, and it is never sent: mqtt_sync receives before it sends.
  lemma PubackOfAnyQos(s: Client, call: Call, stale: Stale, b: Stale)
    requires Ok(s) && call.CallPublish? && Returns(s, call) && Perform(s, call, stale).1 == OK
    ensures var t := Perform(s, call, stale).0;
            var (u, e) := Handle(t, Ack(PUBACK, PacketId.Number(t.lfsr)), b);
            e == OK && AckedUnsent(s, call, u)
  {
    hide Inv, WireOk, Handle, StaysUnsent, UsedIds, PacketId.Available, PacketId.Number, PacketId.NextId, TryPack,
         Release, FindIn, Queued;
    DrawnId(s);
    var (d, id) := (DrawId(s), PacketId.Number(DrawId(s).lfsr));
    var r := Drawing(call, id);
    TryPackNewOne(d, r, stale);
    PerformAdvances(s, call, stale);
    var t := Perform(s, call, stale).0;
    var n := |s.core.issued|;
    OnlyOne(t.core.q, s.core.q, PUBLISH, id);
    IssuedSize(s.core);
    PubackFinishes(t, |t.core.q| - 1, id, b);
    var u := Handle(t, Ack(PUBACK, id), b).0;
    StillWireOk(s, u, Acked(n, PUBACK, id));
    NoneBefore(s.core, n);
    assert forall i :: 0 <= i < |s.core.trace| ==> !SendsOf(s.core.trace[i], n);
    forall o ensures StaysUnsent(u, n, o) {
      NeverSent(u, |s.core.trace|, n, o);
    }
  }

  // A packet that acknowledges a PUBLISH with this identifier, but not one of this QoS.
  ghost predicate Misled(ps: seq<seq<byte>>, qos: nat, id: nat) {
    (qos != 1 && Said(ps, PUBACK, id)) || (qos != 2 && Said(ps, PUBREC, id))
  }

  // The first event that finishes message n, a PUBLISH that is finished in state t of a run.
  ghost predicate FirstFinished(t: Client, n: nat, j: nat) {
    && n < |t.core.issued| && |t.core.issued[n].bytes| > 0 && Qos(t.core.issued[n].bytes[0]) <= 2
    && j < |t.core.trace| && Finishes(t.core.issued, t.core.trace[j], n)
    && forall i :: 0 <= i < j ==> !Finishes(t.core.issued, t.core.trace[i], n)
  }

  // A PUBLISH that is queued after s and finished by t was first finished by
  // the event that its QoS asks for, or by an acknowledgement of the other
  // kind with its identifier, and then such a packet was handled between s and t.
  // Without one a QoS 0 PUBLISH is finished by being sent, a QoS 1 one by a
  // PUBACK and a QoS 2 one by a PUBREC. s may be the state in which the
  // PUBLISH is queued, and t the first one in which it is finished.
  lemma PublishFinished(s: Client, rest: seq<byte>, ops: seq<Op>, t: Client, left: seq<byte>, n: nat) returns (j: nat)
    requires Ok(s) && Reaches(s, rest, ops, t, left)
    requires |s.core.issued| <= n < |t.core.issued| && t.core.issued[n].ctype == PUBLISH && Done(t.core, n)
    ensures FirstFinished(t, n, j) && |s.taken| <= |t.taken|
    ensures var (x, e, ps) := (t.core.issued[n], t.core.trace[j], t.taken[|s.taken|..]);
            && (Fits(e, Qos(x.bytes[0])) ||
                (e.Acked? && e.id == x.id && (e.kind == PUBACK || e.kind == PUBREC) && Said(ps, e.kind, x.id)))
            && (!Misled(ps, Qos(x.bytes[0]), x.id) ==> Fits(e, Qos(x.bytes[0])))
  {
    j := FinishedFirst(s, rest, ops, t, left, n);
    TakenGrows(s, rest, ops, t, left);
    hide Said, Reaches, FirstFinished, Ok;
    if t.core.trace[j].Acked? {
      AckHeard(s, rest, ops, t, left, j);
    }
  }

  lemma TakenGrows(s: Client, rest: seq<byte>, ops: seq<Op>, t: Client, left: seq<byte>)
    requires Reaches(s, rest, ops, t, left)
    ensures |s.taken| <= |t.taken|
  {
    hide Said, Follows;
    var run :| Chain(run, ops) && run[0] == Stage(s, rest) && run[|ops|] == Stage(t, left);
    ChainHeard(run, ops, |ops|, |s.core.trace|, |s.taken|);
  }

  // That event comes after s, as nothing before concerns the message.
  lemma FinishedFirst(s: Client, rest: seq<byte>, ops: seq<Op>, t: Client, left: seq<byte>, n: nat) returns (j: nat)
    requires Ok(s) && Reaches(s, rest, ops, t, left)
    requires |s.core.issued| <= n < |t.core.issued| && t.core.issued[n].ctype == PUBLISH && Done(t.core, n)
    ensures FirstFinished(t, n, j) && |s.core.trace| <= j
    ensures var (x, e) := (t.core.issued[n], t.core.trace[j]);
            if e.Sent? then Qos(x.bytes[0]) == 0 else e.Acked? && e.id == x.id && (e.kind == PUBACK || e.kind == PUBREC)
  {
    ReachesOk(s, rest, ops, t, left);
    hide Pairs, Ordering, Reception, WireOk, Reaches, Done, Encodes, Rank;
    assert HasCause(t.core, n);
    var k :| 0 <= k < |t.core.trace| && Finishes(t.core.issued, t.core.trace[k], n);
    j := FirstFinish(t.core, n, k);
    var e := t.core.trace[j];
    FinishIs(t.core, n, e);
    assert EventOk(t.core, e);
    NoneBefore(s.core, n);
    assert Concerns(e, n);
  }

  lemma {:induction false} FirstFinish(c: Core, n: nat, k: nat) returns (j: nat)
    requires k < |c.trace| && Finishes(c.issued, c.trace[k], n)
    ensures j <= k && Finishes(c.issued, c.trace[j], n) && forall i :: 0 <= i < j ==> !Finishes(c.issued, c.trace[i], n)
  {
    hide Finishes;
    j := k;
    if i :| 0 <= i < k && Finishes(c.issued, c.trace[i], n) {
      j := FirstFinish(c, n, i);
    }
  }

  lemma FinishIs(c: Core, n: nat, e: Event)
    requires Finishes(c.issued, e, n)
    ensures (e.Sent? && CompletesOnSend(c.issued[n].ctype, c.issued[n].bytes[0])) || (e.Acked? && e.serial == n)
  {
  }
}
