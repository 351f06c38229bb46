// What the client owes its broker: every response that needs an answer gets
// it, and __mqtt_send leaves nothing unsent that it may send.
module Handshakes {
  import opened Types
  import opened Wire
  import opened WireProofs
  import opened QueueMemory
  import opened MessageQueues
  import opened Protocol
  import opened Invariants
  import opened Steps

  // The newest message is an unsent packet of this type and identifier, and a broker that reads it sees just that.
  ghost predicate Owed(c: Core, ctype: nat, id: u16) {
    && c.q != []
    && var x := c.q[|c.q| - 1];
       && x.ctype == ctype && x.id == id && x.state.Unsent?
       && forall rest :: Unpack(x.bytes + rest) == Decoded(Ack(ctype, id), |x.bytes|)
  }

  lemma AddOwed(s: Client, room: nat, ctype: nat, id: u16, stale: Stale)
    requires PUBACK <= ctype <= PUBCOMP && Pack(room, AckRequest(ctype, id)).Packed?
    ensures Owed(Add(s, Pack(room, AckRequest(ctype, id)).bytes, AckRequest(ctype, id), stale).core, ctype, id)
  {
    hide Pack, Unpack;
    forall rest ensures Unpack(Pack(room, AckRequest(ctype, id)).bytes + rest) ==
                        Decoded(Ack(ctype, id), |Pack(room, AckRequest(ctype, id)).bytes|) {
      AckRoundTrip(room, ctype, id, rest);
    }
  }

  // An answer that is not an error is queued behind what was queued; messages leave only by cleaning.
  lemma AnswerOwed(s: Client, ctype: nat, id: u16, stale: Stale)
    requires PUBACK <= ctype <= PUBCOMP && Answer(s, ctype, id, stale).1 == OK
    ensures Owed(Answer(s, ctype, id, stale).0.core, ctype, id)
            && Answer(s, ctype, id, stale).0.core.trace == s.core.trace
  {
    var r := AckRequest(ctype, id);
    RefusedIsError(Space(s), r);
    RefusedIsError(Space(CleanUp(s)), r);
    if Pack(Space(s), r).Packed? {
      AddOwed(s, Space(s), ctype, id, stale);
    } else if Pack(Space(CleanUp(s)), r).Packed? {
      AddOwed(CleanUp(s), Space(CleanUp(s)), ctype, id, stale);
    }
    hide Pack, Owed, Space, CompletePrefix;
  }

  // A PUBLISH of QoS 1 is answered by a PUBACK and delivered; one of QoS 2 is
  // answered by a PUBREC and delivered unless a PUBREC with its identifier is
  // queued already; any other is delivered, also one with both QoS bits set.
  lemma PublishAnswered(s: Client, r: Response, stale: Stale)
    requires r.Publish? && Handle(s, r, stale).1 == OK
    ensures var (c, d) := (s.core, Handle(s, r, stale).0.core);
            && (r.qos == 1 ==> Owed(d, PUBACK, r.id))
            && (r.qos == 2 ==> Queued(s, PUBREC, r.id) || Owed(d, PUBREC, r.id))
            && d.trace == c.trace + if r.qos == 2 && Queued(s, PUBREC, r.id) then []
               else [Delivered(r.qos, r.id, r.topic, r.message)]
  {
    hide Answer, Owed, Queued;
    if r.qos == 1 {
      AnswerOwed(s, PUBACK, r.id, stale);
      OwedNote(Answer(s, PUBACK, r.id, stale).0.core, Delivered(r.qos, r.id, r.topic, r.message), PUBACK, r.id);
    } else if r.qos == 2 && !Queued(s, PUBREC, r.id) {
      AnswerOwed(s, PUBREC, r.id, stale);
      OwedNote(Answer(s, PUBREC, r.id, stale).0.core, Delivered(r.qos, r.id, r.topic, r.message), PUBREC, r.id);
    }
  }

  lemma OwedNote(c: Core, e: Event, ctype: nat, id: u16)
    requires Owed(c, ctype, id)
    ensures Owed(Note(c, e), ctype, id)
  {
  }

  // The type of the message that a response of type `kind` completes.
  function Released(kind: nat): nat {
    if kind == PUBREL then PUBREC
    else if kind == PUBCOMP then PUBREL
    else if kind == UNSUBACK then UNSUBSCRIBE
    else PUBLISH
  }

  // Message k, and nothing else of the client, has been completed by a response.
  ghost predicate Completed(s: Client, t: Client, k: nat, kind: nat, id: u16) {
    && k < |s.core.q| == |t.core.q| && t == s.(core := t.core) && t.core.base == s.core.base
    && t.core.issued == s.core.issued
    && (forall j :: 0 <= j < |s.core.q| && j != k ==> t.core.q[j] == s.core.q[j])
    && t.core.q[k] == s.core.q[k].(state := Complete)
    && t.core.trace == s.core.trace + [Acked(s.core.base + k, kind, id)]
  }

  lemma ReleaseCompletes(s: Client, ctype: nat, id: u16, kind: nat)
    ensures Release(s, ctype, Some(id), kind).1 == OK <==> Queued(s, ctype, id)
    ensures Queued(s, ctype, id)
            ==> Completed(s, Release(s, ctype, Some(id), kind).0, FindIn(s.core.q, ctype, Some(id)), kind, id)
  {
    hide FindIn;
  }

  lemma AddKeepsDone(s: Client, bytes: seq<byte>, r: Request, stale: Stale, n: nat)
    ensures Done(s.core, n) ==> Done(Add(s, bytes, r, stale).core, n)
    ensures Add(s, bytes, r, stale).core.trace == s.core.trace
  {
    hide TypeOf, IdOf;
  }

  lemma CleanKeepsDone(s: Client, n: nat)
    ensures Done(s.core, n) ==> Done(CleanUp(s).core, n)
    ensures CleanUp(s).core.trace == s.core.trace
  {
    hide CompletePrefix;
    var h := CompletePrefix(s.core.q);
  }

  // Queueing leaves what is complete complete, until it leaves the queue as such, and is no event.
  lemma TryPackKeepsDone(s: Client, r: Request, stale: Stale, n: nat)
    ensures Done(s.core, n) ==> Done(TryPack(s, r, stale).0.core, n)
    ensures TryPack(s, r, stale).0.core.trace == s.core.trace
  {
    hide Pack, Space, Add, CleanUp, Done, CompletePrefix;
    var t := CleanUp(s);
    CleanKeepsDone(s, n);
    if Pack(Space(s), r).Packed? {
      AddKeepsDone(s, Pack(Space(s), r).bytes, r, stale, n);
    }
    if Pack(Space(t), r).Packed? {
      AddKeepsDone(t, Pack(Space(t), r).bytes, r, stale, n);
    }
  }

  lemma AnswerKeepsDone(s: Client, ctype: nat, id: u16, stale: Stale, n: nat)
    ensures Done(s.core, n) ==> Done(Answer(s, ctype, id, stale).0.core, n)
    ensures Answer(s, ctype, id, stale).0.core.trace == s.core.trace
  {
    hide TryPack, Done;
    TryPackKeepsDone(s, AckRequest(ctype, id), stale, n);
  }

  // The first message that the response names is complete, or has left the queue complete.
  ghost predicate Settled(s: Client, t: Client, kind: nat, id: u16) {
    && Queued(s, Released(kind), id)
    && var n := s.core.base + FindIn(s.core.q, Released(kind), Some(id));
       Done(t.core, n) && t.core.trace == s.core.trace + [Acked(n, kind, id)]
  }

  // An acknowledgement of something queued settles it; a PUBREC is answered by
  // a PUBREL, and a PUBREL by a PUBCOMP; the other acknowledgements complete
  // that one message and change nothing else. A PUBREC whose PUBREL is queued
  // changes nothing at all. An acknowledgement of nothing queued is an error.
  lemma AckAnswered(s: Client, kind: nat, id: u16, stale: Stale)
    requires (PUBACK <= kind <= PUBCOMP || kind == UNSUBACK) && Handle(s, Ack(kind, id), stale).1 == OK
    ensures var (t, k) := (Handle(s, Ack(kind, id), stale).0, FindIn(s.core.q, Released(kind), Some(id)));
            if kind == PUBREC && Queued(s, PUBREL, id) then t == s
            else
              && Settled(s, t, kind, id)
              && (kind == PUBREC ==> Owed(t.core, PUBREL, id))
              && (kind == PUBREL ==> Owed(t.core, PUBCOMP, id))
              && (kind != PUBREC && kind != PUBREL ==> Completed(s, t, k, kind, id))
  {
    hide Answer, Owed, Queued, Release;
    if !(kind == PUBREC && Queued(s, PUBREL, id)) {
      var ctype := Released(kind);
      ReleaseCompletes(s, ctype, id, kind);
      var u := Release(s, ctype, Some(id), kind).0;
      var n := s.core.base + FindIn(s.core.q, ctype, Some(id));
      if kind == PUBREC {
        AnswerOwed(u, PUBREL, id, stale);
        AnswerKeepsDone(u, PUBREL, id, stale, n);
      } else if kind == PUBREL {
        AnswerOwed(u, PUBCOMP, id, stale);
        AnswerKeepsDone(u, PUBCOMP, id, stale, n);
      }
    }
  }

  // ----- the loss of a new message -----

  lemma AckPacks(room: nat, ctype: nat, id: u16)
    requires PUBACK <= ctype <= PUBCOMP && room >= 4
    ensures Pack(room, AckRequest(ctype, id)).Packed? && |Pack(room, AckRequest(ctype, id)).bytes| == 4
  {
    LengthBytes(2);
  }

  // s with one more message of this type and identifier, of four bytes.
  ghost predicate OneMore(s: Client, t: Client, ctype: nat, id: u16) {
    && t.error == s.error && t.size == s.size && t.core.base == s.core.base && t.core.trace == s.core.trace
    && |t.core.q| == |s.core.q| + 1 && (forall i :: 0 <= i < |s.core.q| ==> t.core.q[i] == s.core.q[i])
    && var x := t.core.q[|s.core.q|]; x.ctype == ctype && x.id == id && |x.bytes| == 4
  }

  lemma AnswerFits(s: Client, ctype: nat, id: u16, stale: Stale)
    requires s.error == OK && PUBACK <= ctype <= PUBCOMP && Space(s) >= 4
    ensures var (t, e) := Answer(s, ctype, id, stale); e == OK && OneMore(s, t, ctype, id)
  {
    AckPacks(Space(s), ctype, id);
    hide Pack, Space;
  }

  lemma SpaceAfter(s: Client, t: Client, ctype: nat, id: u16)
    requires OneMore(s, t, ctype, id) && Space(s) >= 4 + HEADER
    ensures Space(t) == Space(s) - 4 - HEADER
  {
    var n := |s.core.q|;
    assert t.core.q[..n] == s.core.q;
    assert TotalSize(t.core.q) == TotalSize(s.core.q) + 4;
    hide TotalSize;
  }

  lemma {:induction false} SameTotal(q: seq<Message>, q': seq<Message>)
    requires |q| == |q'| && forall i :: 0 <= i < |q| ==> |q'[i].bytes| == |q[i].bytes|
    ensures TotalSize(q') == TotalSize(q)
  {
    if q != [] {
      SameTotal(q[..|q| - 1], q'[..|q| - 1]);
    }
  }

  lemma CompletedSpace(s: Client, t: Client, k: nat, kind: nat, id: u16)
    requires Completed(s, t, k, kind, id)
    ensures Space(t) == Space(s) && t.error == s.error
  {
    SameTotal(s.core.q, t.core.q);
    hide TotalSize;
  }

  // The one message of its kind is found.
  lemma FoundLast(s: Client, t: Client, ctype: nat, id: u16)
    requires OneMore(s, t, ctype, id) && !Queued(s, ctype, id)
    ensures Queued(t, ctype, id) && FindIn(t.core.q, ctype, Some(id)) == |s.core.q|
  {
    var (k, n) := (FindIn(t.core.q, ctype, Some(id)), |s.core.q|);
    assert Matches(t.core.q[n], ctype, Some(id));
    if k < n {
      assert Matches(s.core.q[k], ctype, Some(id));
    }
  }

  lemma FoundAt(s: Client, k: nat, ctype: nat, id: u16)
    requires k < |s.core.q| && s.core.q[k].ctype == ctype && s.core.q[k].id == id
    ensures Queued(s, ctype, id)
  {
    assert Matches(s.core.q[k], ctype, Some(id));
  }

  // A QoS 2 PUBLISH is delivered and its PUBREC queued.
  lemma FirstPublish(s: Client, r: Response, stale: Stale)
    requires s.error == OK && r.Publish? && r.qos == 2 && !Queued(s, PUBREC, r.id) && Space(s) >= 8 + HEADER
    ensures var (t, e) := Handle(s, r, stale);
            && e == OK == t.error && |t.core.q| == |s.core.q| + 1 && t.core.base == s.core.base && Space(t) >= 4
            && Queued(t, PUBREC, r.id) && FindIn(t.core.q, PUBREC, Some(r.id)) == |s.core.q|
            && t.core.trace == s.core.trace + [Delivered(2, r.id, r.topic, r.message)]
  {
    hide Answer, Queued, FindIn, Space, OneMore;
    AnswerFits(s, PUBREC, r.id, stale);
    var u := Answer(s, PUBREC, r.id, stale).0;
    SpaceAfter(s, u, PUBREC, r.id);
    FoundLast(s, u, PUBREC, r.id);
    OneMoreIs(s, u, PUBREC, r.id);
    SameQueue(u, Deliver(u, 2, r.id, r.topic, r.message), PUBREC, r.id);
  }

  lemma OneMoreIs(s: Client, t: Client, ctype: nat, id: u16)
    requires OneMore(s, t, ctype, id)
    ensures t.error == s.error && t.core.base == s.core.base && t.core.trace == s.core.trace
            && |t.core.q| == |s.core.q| + 1
    ensures forall i :: 0 <= i < |s.core.q| ==> t.core.q[i] == s.core.q[i]
  {
  }

  lemma SameQueue(s: Client, t: Client, ctype: nat, id: u16)
    requires t.core.q == s.core.q && t.size == s.size
    ensures Space(t) == Space(s) && (Queued(t, ctype, id) <==> Queued(s, ctype, id))
  {
  }

  // Its PUBREL completes that PUBREC, which stays in the queue, and queues a PUBCOMP.
  lemma ThenPubrel(s: Client, k: nat, id: u16, stale: Stale)
    requires s.error == OK && Queued(s, PUBREC, id) && k == FindIn(s.core.q, PUBREC, Some(id)) && Space(s) >= 4
    ensures var (t, e) := Handle(s, Ack(PUBREL, id), stale);
            && e == OK == t.error && Queued(t, PUBREC, id)
            && t.core.trace == s.core.trace + [Acked(s.core.base + k, PUBREL, id)]
  {
    hide Answer, Release, Queued, FindIn, Space, OneMore;
    ReleaseCompletes(s, PUBREC, id, PUBREL);
    var u := Release(s, PUBREC, Some(id), PUBREL).0;
    CompletedSpace(s, u, k, PUBREL, id);
    AnswerFits(u, PUBCOMP, id, stale);
    var t := Answer(u, PUBCOMP, id, stale).0;
    OneMoreIs(u, t, PUBCOMP, id);
    FoundIs(s, k, PUBREC, id);
    FoundAt(t, k, PUBREC, id);
  }

  lemma FoundIs(s: Client, k: nat, ctype: nat, id: u16)
    requires Queued(s, ctype, id) && k == FindIn(s.core.q, ctype, Some(id))
    ensures k < |s.core.q| && s.core.q[k].ctype == ctype && s.core.q[k].id == id
  {
  }

  // A message is lost: p is a QoS 2 PUBLISH, delivered and released by its
  // PUBREL; p' is a new one that reuses the identifier, as the broker may. As
  // the complete PUBREC of p has not been cleaned away, p' changes nothing: it
  // is neither delivered nor answered.
  lemma NewPublishLost(s: Client, p: Response, p': Response, a: Stale, b: Stale, c: Stale)
    requires s.error == OK && p.Publish? && p'.Publish? && p.qos == 2 == p'.qos && p.id == p'.id
    requires !Queued(s, PUBREC, p.id) && Space(s) >= 8 + HEADER
    ensures var (t, e) := Handle(s, p, a);
            var (u, f) := Handle(t, Ack(PUBREL, p.id), b);
            && e == f == OK && Handle(u, p', c) == (u, OK)
            && u.core.trace
               == s.core.trace + [Delivered(2, p.id, p.topic, p.message), Acked(s.core.base + |s.core.q|, PUBREL, p.id)]
  {
    hide Answer, Release, Queued, FindIn, Space;
    FirstPublish(s, p, a);
    var t := Handle(s, p, a).0;
    ThenPubrel(t, |s.core.q|, p.id, b);
  }

  // ----- which acknowledgement completes a message -----

  // The message acknowledged by e is queued, with the identifier and of a type that e names.
  predicate Names(c: Core, e: Event)
    requires e.Acked?
  {
    && c.base <= e.serial < c.base + |c.q|
    && var x := c.q[e.serial - c.base];
       x.id == e.id && Acknowledges(e.kind, x.ctype)
  }

  // The type and, where it has one, the identifier of a response.
  predicate Carries(r: Response, kind: nat, id: nat) {
    match r
    case Connack(_, _) => kind == CONNACK
    case Publish(_, _, _, _, _, _) => false
    case Ack(k, i) => kind == k && id == i
    case Suback(i, _) => kind == SUBACK && id == i
    case Pingresp => kind == PINGRESP
  }

  // What is acknowledged between c and d was queued in c, and r names it.
  ghost predicate AddsAck(c: Core, d: Core, r: Response) {
    && c.trace <= d.trace
    && forall i :: |c.trace| <= i < |d.trace| && d.trace[i].Acked? ==>
         Names(c, d.trace[i]) && Carries(r, d.trace[i].kind, d.trace[i].id)
  }

  lemma AddsNothing(c: Core, r: Response)
    ensures AddsAck(c, c, r)
  {
  }

  lemma ReleaseAdds(s: Client, ctype: nat, id: Option<u16>, kind: nat, r: Response)
    requires Acknowledges(kind, ctype)
             && (if id.Some? then Carries(r, kind, id.value) else forall i :: Carries(r, kind, i))
    ensures AddsAck(s.core, Release(s, ctype, id, kind).0.core, r)
  {
    hide FindIn, Acknowledges, Carries;
  }

  lemma AnswerAdds(c: Core, t: Client, ctype: nat, id: u16, stale: Stale, r: Response)
    requires AddsAck(c, t.core, r)
    ensures AddsAck(c, Answer(t, ctype, id, stale).0.core, r)
  {
    hide Answer, Names, Carries;
    AnswerKeepsDone(t, ctype, id, stale, 0);
  }

  lemma DeliverAdds(c: Core, t: Client, qos: nat, id: u16, topic: seq<byte>, message: seq<byte>, r: Response)
    requires AddsAck(c, t.core, r)
    ensures AddsAck(c, Deliver(t, qos, id, topic, message).core, r)
  {
    hide Names, Carries;
  }

  // A response completes only what it names by type and identifier, and only while that is queued.
  lemma AckedWhileQueued(s: Client, r: Response, stale: Stale)
    ensures AddsAck(s.core, Handle(s, r, stale).0.core, r)
  {
    hide Release, AddsAck, HandlePublish, HandleAck;
    match r {
      case Connack(_, _) => ReleaseAdds(s, CONNECT, None, CONNACK, r);
      case Publish(_, qos, _, topic, id, message) => PublishAdds(s, qos, id, topic, message, stale, r);
      case Ack(kind, id) => AckAdds(s, kind, id, stale);
      case Suback(id, _) => ReleaseAdds(s, SUBSCRIBE, Some(id), SUBACK, r);
      case Pingresp => ReleaseAdds(s, PINGREQ, None, PINGRESP, r);
    }
  }

  lemma PublishAdds(s: Client, qos: nat, id: u16, topic: seq<byte>, message: seq<byte>, stale: Stale, r: Response)
    ensures AddsAck(s.core, HandlePublish(s, qos, id, topic, message, stale).0.core, r)
  {
    hide Answer, AddsAck, Queued, Deliver;
    AddsNothing(s.core, r);
    AnswerAdds(s.core, s, PUBACK, id, stale, r);
    AnswerAdds(s.core, s, PUBREC, id, stale, r);
    DeliverAdds(s.core, s, qos, id, topic, message, r);
    DeliverAdds(s.core, Answer(s, PUBACK, id, stale).0, qos, id, topic, message, r);
    DeliverAdds(s.core, Answer(s, PUBREC, id, stale).0, qos, id, topic, message, r);
  }

  lemma AckAdds(s: Client, kind: nat, id: u16, stale: Stale)
    ensures AddsAck(s.core, HandleAck(s, kind, id, stale).0.core, Ack(kind, id))
  {
    hide Answer, AddsAck, Queued, Release;
    var r := Ack(kind, id);
    AddsNothing(s.core, r);
    if PUBACK <= kind <= PUBCOMP || kind == UNSUBACK {
      ReleaseAdds(s, Released(kind), Some(id), kind, r);
      var t := Release(s, Released(kind), Some(id), kind).0;
      AnswerAdds(s.core, t, PUBREL, id, stale, r);
      AnswerAdds(s.core, t, PUBCOMP, id, stale, r);
    }
  }

  // ----- nothing is held back -----

  // A QoS 2 PUBLISH that was under way at one of these positions when the loop came there.
  ghost predicate Blocked(q: seq<Message>, i: nat, k: nat) {
    exists j :: i <= j < k && j < |q| && Qos2(q[j]) && !q[j].state.Complete?
  }

  // Message k once the loop is behind it.
  ghost predicate Treated(s: Client, i: nat, inflight: bool, o: Outside, k: nat, y: Message)
    requires k < |s.core.q|
  {
    var (x, blocked) := (s.core.q[k], Qos2(s.core.q[k]) && (inflight || Blocked(s.core.q, i, k)));
    && (y.state.Unsent? ==> blocked)
    && (y == x || (y.timeSent == o.sent(k) && !y.state.Unsent?))
    && (x.state.AwaitingAck? && o.checked(k) > x.timeSent + s.responseTimeout ==> y.timeSent == o.sent(k) || blocked)
  }

  // The loop of __mqtt_send, if it meets no error, leaves unsent only QoS 2
  // PUBLISHes behind another one that was not complete, and sends everything
  // that was overdue except such PUBLISHes.
  lemma {:induction false} NothingHeldBack(s: Client, i: nat, inflight: bool, o: Outside, k: nat)
    requires HasBytes(s.core.q) && i <= k < |s.core.q| && SendFrom(s, i, inflight, o).1 == OK
    ensures |SendFrom(s, i, inflight, o).0.core.q| == |s.core.q|
    ensures Treated(s, i, inflight, o, k, SendFrom(s, i, inflight, o).0.core.q[k])
    decreases |s.core.q| - i
  {
    var u := Turned(s, i, inflight, o).0;
    LoopTurn(s, i, inflight, o);
    if k > i {
      hide SendFrom, Turned, HasBytes, InFlight, Treated;
      NothingHeldBack(u, i + 1, InFlight(s, i, inflight), o, k);
      TreatedLater(s, u, i, inflight, o, k, SendFrom(s, i, inflight, o).0.core.q[k]);
    } else {
      hide SendFrom, Turned, HasBytes, InFlight;
      BehindKept(u, i + 1, InFlight(s, i, inflight), o, i);
    }
  }

  // One turn of the loop of __mqtt_send.
  function Turned(s: Client, i: nat, inflight: bool, o: Outside): (Client, Error)
    requires i < |s.core.q| && HasBytes(s.core.q)
  {
    var t := CountTimeout(s, i, o);
    if Due(s, i, inflight, o) then SendOne(t, i, o) else (t, OK)
  }

  lemma SendFromTurn(s: Client, i: nat, inflight: bool, o: Outside)
    requires i < |s.core.q| && HasBytes(s.core.q)
    ensures var (u, e) := Turned(s, i, inflight, o);
            if e != OK then SendFrom(s, i, inflight, o) == (u, e)
            else && |u.core.q| == |s.core.q| && HasBytes(u.core.q)
                 && SendFrom(s, i, inflight, o) == SendFrom(u, i + 1, InFlight(s, i, inflight), o)
  {
    hide AfterSend, InFlight, Qos2, Outbound, Expired;
    AfterSendStarted(s.core.q[i], o.sent(i));
  }

  lemma LoopTurn(s: Client, i: nat, inflight: bool, o: Outside)
    requires i < |s.core.q| && HasBytes(s.core.q) && SendFrom(s, i, inflight, o).1 == OK
    ensures var (u, e) := Turned(s, i, inflight, o);
            && e == OK && |u.core.q| == |s.core.q| && HasBytes(u.core.q) && u.responseTimeout == s.responseTimeout
            && (forall j :: 0 <= j < |s.core.q| && j != i ==> u.core.q[j] == s.core.q[j])
            && SendFrom(s, i, inflight, o) == SendFrom(u, i + 1, InFlight(s, i, inflight), o)
            && Treated(s, i, inflight, o, i, u.core.q[i])
  {
    hide AfterSend, InFlight, Qos2, Outbound;
    AfterSendStarted(s.core.q[i], o.sent(i));
  }

  lemma AfterSendStarted(x: Message, now: nat)
    requires |x.bytes| > 0
    ensures var y := AfterSend(x, now); |y.bytes| == |x.bytes| && y.timeSent == now && !y.state.Unsent?
  {
  }

  // The rest of the loop does not come back to message k.
  lemma {:induction false} BehindKept(s: Client, i: nat, inflight: bool, o: Outside, k: nat)
    requires HasBytes(s.core.q) && k < i && k < |s.core.q| && SendFrom(s, i, inflight, o).1 == OK
    ensures |SendFrom(s, i, inflight, o).0.core.q| == |s.core.q|
            && SendFrom(s, i, inflight, o).0.core.q[k] == s.core.q[k]
    decreases |s.core.q| - i
  {
    if i < |s.core.q| {
      LoopTurn(s, i, inflight, o);
      hide SendFrom, Turned, HasBytes, InFlight, Treated;
      BehindKept(Turned(s, i, inflight, o).0, i + 1, InFlight(s, i, inflight), o, k);
    }
  }

  lemma TreatedLater(s: Client, u: Client, i: nat, inflight: bool, o: Outside, k: nat, y: Message)
    requires i < k < |s.core.q| == |u.core.q| && u.responseTimeout == s.responseTimeout
    requires forall j :: 0 <= j < |s.core.q| && j != i ==> u.core.q[j] == s.core.q[j]
    requires Treated(u, i + 1, InFlight(s, i, inflight), o, k, y)
    ensures Treated(s, i, inflight, o, k, y)
  {
    hide Qos2;
    if Blocked(u.core.q, i + 1, k) {
      var j :| i + 1 <= j < k && j < |u.core.q| && Qos2(u.core.q[j]) && !u.core.q[j].state.Complete?;
      assert Qos2(s.core.q[j]) && !s.core.q[j].state.Complete?;
    }
    if InFlight(s, i, inflight) && !inflight {
      assert Qos2(s.core.q[i]) && !s.core.q[i].state.Complete?;
    }
  }
}
