// What every step on the core keeps.
module Invariants {
  import opened Types
  import opened Wire
  import opened QueueMemory
  import opened Protocol

  // ----- messages and what was issued -----

  // A request of the application or an answer.
  predicate Sendable(r: Request) {
    Outbound(TypeOf(r)) && (r.AckRequest? ==> PUBACK <= r.ackType <= PUBCOMP)
  }

  predicate IssueOk(x: Issue) {
    && Encodes(x.bytes, x.request) && x.ctype == TypeOf(x.request) && |x.bytes| >= 2 && Sendable(x.request)
    && x.bytes[0] / 16 == x.ctype && (x.ctype == PUBLISH ==> Qos(x.bytes[0]) <= 2)
  }

  // The bytes of every transmission but the first: a QoS 1 PUBLISH is marked as a duplicate.
  function Again(x: Issue): seq<byte>
    requires |x.bytes| > 0
  {
    if x.ctype == PUBLISH && Qos(x.bytes[0]) == 1 then Dup(x.bytes) else x.bytes
  }

  predicate Tracks(m: Message, x: Issue)
    requires |x.bytes| > 0
  {
    && m.ctype == x.ctype && m.id == x.id
    && (m.bytes == x.bytes || m.bytes == Again(x))
    && (m.state.Unsent? ==> m.bytes == x.bytes)
    && (m.state.AwaitingAck? ==> m.bytes == Again(x))
  }

  ghost predicate Registry(c: Core) {
    && |c.issued| == c.base + |c.q|
    && (forall s :: 0 <= s < |c.issued| ==> IssueOk(c.issued[s]))
    && (forall i :: 0 <= i < |c.q| ==> Tracks(c.q[i], c.issued[c.base + i]))
  }

  // ----- pairs of queued messages -----

  predicate Requests(x: Message) {
    x.ctype == PUBLISH || x.ctype == SUBSCRIBE || x.ctype == UNSUBSCRIBE
  }

  // x is ahead of y in the queue.
  predicate Pair(x: Message, y: Message) {
    && (x.id == y.id ==>
        && !(Requests(x) && Requests(y))
        && !(x.ctype == PUBREL && y.ctype == PUBREL)
        && !(x.ctype == PUBREC && y.ctype == PUBREC)
        && !(x.ctype == PUBREL && Requests(y))
        && (Requests(x) && y.ctype == PUBREL ==> x.ctype == PUBLISH && x.state.Complete?))
    && (Qos2(x) && Qos2(y) && y.state.AwaitingAck? ==> x.state.Complete?)
  }

  ghost predicate Pairs(q: seq<Message>) {
    forall i, j :: 0 <= i < j < |q| ==> Pair(q[i], q[j])
  }

  // ----- events -----

  ghost predicate Started(c: Core, s: nat) {
    s < c.base || (s - c.base < |c.q| && !c.q[s - c.base].state.Unsent?)
  }

  ghost predicate Done(c: Core, s: nat) {
    s < c.base || (s - c.base < |c.q| && c.q[s - c.base].state.Complete?)
  }

  predicate Qos2Issue(x: Issue) {
    x.ctype == PUBLISH && |x.bytes| > 0 && Qos(x.bytes[0]) == 2
  }

  // QoS 2 PUBLISHes queue for the wire among themselves, everything else in one other lane.
  predicate SameLane(x: Issue, y: Issue) {
    Qos2Issue(x) == Qos2Issue(y)
  }

  // Everything up to serial s in its lane has been started.
  ghost predicate Passed(c: Core, s: nat)
    requires s < |c.issued|
  {
    forall t :: 0 <= t <= s && SameLane(c.issued[t], c.issued[s]) ==> Started(c, t)
  }

  // A response of type `kind` acknowledges a packet of type ctype.
  predicate Acknowledges(kind: nat, ctype: nat) {
    || (kind == CONNACK && ctype == CONNECT)
    || ((kind == PUBACK || kind == PUBREC) && ctype == PUBLISH)
    || (kind == PUBREL && ctype == PUBREC)
    || (kind == PUBCOMP && ctype == PUBREL)
    || (kind == SUBACK && ctype == SUBSCRIBE)
    || (kind == UNSUBACK && ctype == UNSUBSCRIBE)
    || (kind == PINGRESP && ctype == PINGREQ)
  }

  predicate Finishes(issued: seq<Issue>, e: Event, s: nat) {
    && s < |issued| && |issued[s].bytes| > 0
    && match e
       case Acked(t, _, _) => t == s
       case Sent(t, b, _) => t == s && CompletesOnSend(issued[s].ctype, issued[s].bytes[0])
       case _ => false
  }

  ghost predicate EventOk(c: Core, e: Event) {
    match e
    case Sent(s, b, first) =>
      && s < |c.issued| && IssueOk(c.issued[s]) && Started(c, s)
      && b == (if first then c.issued[s].bytes else Again(c.issued[s]))
      && (first ==> Passed(c, s))
      && (Finishes(c.issued, e, s) ==> Done(c, s))
    case CutOff(s, b) =>
      && s < |c.issued| && IssueOk(c.issued[s]) && |b| < |c.issued[s].bytes|
      && (b <= c.issued[s].bytes || b <= Again(c.issued[s]))
    case Acked(s, kind, id) =>
      s < |c.issued| && Acknowledges(kind, c.issued[s].ctype) && id == c.issued[s].id && Done(c, s)
    case Delivered(_, _, _, _) => true
  }

  ghost predicate Events(c: Core) {
    forall j :: 0 <= j < |c.trace| ==> EventOk(c, c.trace[j])
  }

  // Both are first transmissions, in the same lane.
  predicate FirstSends(issued: seq<Issue>, e: Event, f: Event) {
    && e.Sent? && f.Sent? && e.first && f.first && e.serial < |issued| && f.serial < |issued|
    && SameLane(issued[e.serial], issued[f.serial])
  }

  // e happens before f.
  predicate InOrder(issued: seq<Issue>, e: Event, f: Event) {
    && (FirstSends(issued, e, f) ==> e.serial < f.serial)
    && (f.Sent? ==> !Finishes(issued, e, f.serial))
  }

  ghost predicate Ordering(c: Core) {
    forall i, j :: 0 <= i < j < |c.trace| ==> InOrder(c.issued, c.trace[i], c.trace[j])
  }

  // Whatever is complete was completed by an event.
  ghost predicate HasCause(c: Core, s: nat) {
    exists j :: 0 <= j < |c.trace| && Finishes(c.issued, c.trace[j], s)
  }

  ghost predicate Causes(c: Core) {
    forall s :: 0 <= s < |c.issued| && Done(c, s) ==> HasCause(c, s)
  }

  // ----- QoS 2 receive -----

  predicate Delivers(e: Event, id: nat) {
    e.Delivered? && e.qos == 2 && e.id == id
  }

  predicate Closes(e: Event, id: nat) {
    e.Acked? && e.kind == PUBREL && e.id == id
  }

  // A QoS 2 delivery with this identifier has not been followed by its PUBREL.
  predicate Open(trace: seq<Event>, id: nat) {
    trace != [] &&
    var e := trace[|trace| - 1];
    Delivers(e, id) || (!Closes(e, id) && Open(trace[..|trace| - 1], id))
  }

  ghost predicate Guarded(q: seq<Message>, id: nat) {
    exists k :: 0 <= k < |q| && q[k].ctype == PUBREC && q[k].id == id && !q[k].state.Complete?
  }

  ghost predicate Reception(c: Core) {
    && (forall id: nat :: Open(c.trace, id) ==> Guarded(c.q, id))
    && (forall j :: 0 <= j < |c.trace| && c.trace[j].Delivered? && c.trace[j].qos == 2 ==>
          !Open(c.trace[..j], c.trace[j].id))
  }

  ghost predicate Inv(c: Core) {
    Registry(c) && Pairs(c.q) && Events(c) && Ordering(c) && Causes(c) && Reception(c)
  }

  // ----- removing complete messages from the front -----

  lemma DropKeeps(c: Core, h: nat)
    requires Inv(c) && h <= |c.q| && forall i :: 0 <= i < h ==> c.q[i].state.Complete?
    ensures Inv(Drop(c, h))
  {
    hide Encodes;
    var d := Drop(c, h);
    assert Registry(d);
    assert Pairs(d.q);
    SameProgress(c, d);
    assert Reception(d);
  }

  // Serials keep or advance their state, so events stay accounted for.
  lemma SameProgress(c: Core, d: Core)
    requires Events(c) && Ordering(c) && Causes(c)
    requires d.issued == c.issued && d.trace == c.trace
    requires forall s :: 0 <= s < |c.issued| ==> (Started(c, s) ==> Started(d, s)) && (Done(d, s) <==> Done(c, s))
    ensures Events(d) && Ordering(d) && Causes(d)
  {
  }

  // ----- queueing a message -----

  ghost predicate MayQueue(q: seq<Message>, ctype: nat, id: nat) {
    forall i :: 0 <= i < |q| ==> forall bytes, time :: Pair(q[i], Message(bytes, Unsent, time, ctype, id))
  }

  lemma EnqueueKeeps(c: Core, bytes: seq<byte>, r: Request, id: nat, time: nat)
    requires Inv(c) && IssueOk(Issue(bytes, r, TypeOf(r), id)) && MayQueue(c.q, TypeOf(r), id)
    ensures Inv(Enqueue(c, bytes, r, id, time))
  {
    hide Encodes;
    var d := Enqueue(c, bytes, r, id, time);
    hide TypeOf, Pair, IssueOk, Requests;
    assert Registry(d);
    assert Pairs(d.q);
    assert Reception(d) by {
      forall p: nat | Open(d.trace, p) ensures Guarded(d.q, p) {
        var k :| 0 <= k < |c.q| && c.q[k].ctype == PUBREC && c.q[k].id == p && !c.q[k].state.Complete?;
        assert d.q[k] == c.q[k];
      }
    }
    EnqueueEvents(c, bytes, r, id, time);
  }

  lemma EnqueueEvents(c: Core, bytes: seq<byte>, r: Request, id: nat, time: nat)
    requires Registry(c) && Events(c) && Ordering(c) && Causes(c)
    ensures var d := Enqueue(c, bytes, r, id, time); Events(d) && Ordering(d) && Causes(d)
  {
    hide Encodes, Events, Ordering, Causes, Registry;
    EnqueueKeepsEvents(c, bytes, r, id, time);
    EnqueueKeepsOrder(c, bytes, r, id, time);
    EnqueueKeepsCauses(c, bytes, r, id, time);
  }

  lemma EnqueueKeepsEvents(c: Core, bytes: seq<byte>, r: Request, id: nat, time: nat)
    requires Events(c)
    ensures Events(Enqueue(c, bytes, r, id, time))
  {
    hide Encodes, IssueOk, Acknowledges, TypeOf;
    var d := Enqueue(c, bytes, r, id, time);
    forall j | 0 <= j < |d.trace| ensures EventOk(d, d.trace[j]) {
      assert EventOk(c, c.trace[j]);
    }
  }

  lemma EnqueueKeepsOrder(c: Core, bytes: seq<byte>, r: Request, id: nat, time: nat)
    requires Events(c) && Ordering(c)
    ensures Ordering(Enqueue(c, bytes, r, id, time))
  {
    hide Encodes, IssueOk, Acknowledges, TypeOf, Started, Done, Passed;
    var d := Enqueue(c, bytes, r, id, time);
    forall i, j | 0 <= i < j < |d.trace| ensures InOrder(d.issued, d.trace[i], d.trace[j]) {
      assert InOrder(c.issued, c.trace[i], c.trace[j]) && EventOk(c, c.trace[i]) && EventOk(c, c.trace[j]);
    }
  }

  lemma EnqueueKeepsCauses(c: Core, bytes: seq<byte>, r: Request, id: nat, time: nat)
    requires Registry(c) && Causes(c)
    ensures Causes(Enqueue(c, bytes, r, id, time))
  {
    hide Encodes, IssueOk, TypeOf, Tracks;
    var d := Enqueue(c, bytes, r, id, time);
    forall s | 0 <= s < |d.issued| && Done(d, s) ensures HasCause(d, s) {
      assert Done(c, s) && HasCause(c, s);
      var j :| 0 <= j < |c.trace| && Finishes(c.issued, c.trace[j], s);
      assert Finishes(d.issued, d.trace[j], s);
    }
  }

  // ----- events appended to the trace -----

  // One more event on an otherwise possibly advanced core.
  lemma TraceGrows(c: Core, d: Core, e: Event)
    requires Events(c) && Ordering(c) && Causes(c)
    requires d.issued == c.issued && d.trace == c.trace + [e]
    requires forall s :: 0 <= s < |c.issued| ==> (Started(c, s) ==> Started(d, s)) && (Done(c, s) ==> Done(d, s))
    requires forall s :: 0 <= s < |c.issued| && Done(d, s) ==> Done(c, s) || Finishes(c.issued, e, s)
    requires EventOk(d, e) && forall i :: 0 <= i < |c.trace| ==> InOrder(c.issued, c.trace[i], e)
    ensures Events(d) && Ordering(d) && Causes(d)
  {
    hide Encodes, InOrder, Finishes;
    forall j | 0 <= j < |d.trace| ensures EventOk(d, d.trace[j]) {
      if j < |c.trace| {
        assert EventOk(c, c.trace[j]);
        EventStays(c, d, c.trace[j]);
      }
    }
    forall i, j | 0 <= i < j < |d.trace| ensures InOrder(d.issued, d.trace[i], d.trace[j]) {
      assert j < |c.trace| ==> InOrder(c.issued, c.trace[i], c.trace[j]);
    }
    forall s | 0 <= s < |d.issued| && Done(d, s) ensures HasCause(d, s) {
      if Finishes(c.issued, e, s) {
        assert Finishes(d.issued, d.trace[|c.trace|], s);
      } else {
        assert HasCause(c, s);
        var j :| 0 <= j < |c.trace| && Finishes(c.issued, c.trace[j], s);
        assert Finishes(d.issued, d.trace[j], s);
      }
    }
  }

  lemma EventStays(c: Core, d: Core, e: Event)
    requires EventOk(c, e) && d.issued == c.issued
    requires forall s :: 0 <= s < |c.issued| ==> (Started(c, s) ==> Started(d, s)) && (Done(c, s) ==> Done(d, s))
    ensures EventOk(d, e)
  {
    hide Encodes, IssueOk, Acknowledges, Started, Done;
  }

  // An event other than a delivery or a PUBREL leaves open what was open.
  lemma OpenGrows(trace: seq<Event>, e: Event, id: nat)
    ensures Open(trace + [e], id) == (Delivers(e, id) || (!Closes(e, id) && Open(trace, id)))
  {
    hide Encodes;
    assert (trace + [e])[..|trace|] == trace;
  }

  lemma ReceptionGrows(c: Core, d: Core, e: Event)
    requires Reception(c) && d.trace == c.trace + [e] && !(e.Delivered? && e.qos == 2)
    requires forall id :: Guarded(c.q, id) && !Closes(e, id) ==> Guarded(d.q, id)
    ensures Reception(d)
  {
    hide Encodes, Guarded;
    forall id: nat | Open(d.trace, id) ensures Guarded(d.q, id) {
      OpenGrows(c.trace, e, id);
    }
    forall j | 0 <= j < |d.trace| && d.trace[j].Delivered? && d.trace[j].qos == 2
      ensures !Open(d.trace[..j], d.trace[j].id) {
      assert j < |c.trace| && d.trace[..j] == c.trace[..j] && d.trace[j] == c.trace[j];
    }
  }

  // ----- transmission -----

  // Message i may be transmitted: it is not complete, an unsent one is the
  // next of its lane, and no QoS 2 PUBLISH overtakes another in flight.
  ghost predicate MaySend(c: Core, i: nat) {
    && i < |c.q| && !c.q[i].state.Complete?
    && (c.q[i].state.Unsent? ==> forall j :: 0 <= j < i && Qos2(c.q[j]) == Qos2(c.q[i]) ==> !c.q[j].state.Unsent?)
    && (Qos2(c.q[i]) ==> forall j :: 0 <= j < i && Qos2(c.q[j]) ==> c.q[j].state.Complete?)
  }

  lemma DupKeeps(b: byte)
    ensures WithDup(b) / 16 == b / 16 && Qos(WithDup(b)) == Qos(b) && WithDup(WithDup(b)) == WithDup(b)
  {
    hide Encodes;
    var (h, d, r) := (b / 16, Flag(b, 8), b % 8);
    assert b == 16 * h + 8 * d + r by { assert b / 8 == 2 * h + d; }
    Halves(h, 0, r);
    Halves(h, 1, r);
  }

  lemma Halves(h: nat, d: nat, r: nat)
    requires h < 16 && d < 2 && r < 8
    ensures var b := 16 * h + 8 * d + r; b < 256 && b / 16 == h && Flag(b, 8) == d && Qos(b) == (r / 2) % 4
  {
    hide Encodes;
    assert (16 * h + 8 * d + r) / 8 == 2 * h + d;
    assert (16 * h + 8 * d + r) / 2 == 8 * h + 4 * d + r / 2;
  }

  lemma AgainKeeps(x: Issue)
    requires IssueOk(x)
    ensures |Again(x)| == |x.bytes| && Again(x)[0] / 16 == x.ctype && Qos(Again(x)[0]) == Qos(x.bytes[0])
    ensures x.ctype == PUBLISH && Qos(x.bytes[0]) == 1 ==> Dup(Again(x)) == Again(x) && Dup(x.bytes) == Again(x)
  {
    hide Encodes;
    DupKeeps(x.bytes[0]);
  }

  // How a queued message relates to its issue, seen from its first byte.
  lemma TrackedByte(m: Message, x: Issue)
    requires IssueOk(x) && Tracks(m, x)
    ensures |m.bytes| == |x.bytes| && Qos(m.bytes[0]) == Qos(x.bytes[0])
    ensures Qos2(m) == Qos2Issue(x)
    ensures CompletesOnSend(m.ctype, m.bytes[0]) == CompletesOnSend(x.ctype, x.bytes[0])
  {
    hide Encodes, Qos, Dup, Outbound;
    AgainKeeps(x);
  }

  lemma TransmitTracks(m: Message, x: Issue, now: nat)
    requires IssueOk(x) && Tracks(m, x) && !m.state.Complete?
    ensures |m.bytes| > 0 && Tracks(AfterSend(m, now), x)
    ensures m.bytes == if m.state.Unsent? then x.bytes else Again(x)
  {
    hide Encodes, Qos, Dup, Outbound;
    AgainKeeps(x);
    TrackedByte(m, x);
  }

  lemma TransmitPairs(c: Core, i: nat, y: Message)
    requires Pairs(c.q) && MaySend(c, i)
    requires y.ctype == c.q[i].ctype && y.id == c.q[i].id && Qos2(y) == Qos2(c.q[i])
    ensures Pairs(c.q[i := y])
  {
    hide Encodes, Qos2;
    var q' := c.q[i := y];
    forall a, b | 0 <= a < b < |q'| ensures Pair(q'[a], q'[b]) {
      assert Pair(c.q[a], c.q[b]);
    }
  }

  // Nothing earlier in the trace forbids transmitting message i now.
  lemma TransmitInOrder(c: Core, i: nat, j: nat)
    requires Inv(c) && MaySend(c, i) && |c.q[i].bytes| > 0 && j < |c.trace|
    ensures InOrder(c.issued, c.trace[j], Sent(c.base + i, c.q[i].bytes, c.q[i].state.Unsent?))
  {
    hide Encodes, Pairs, Ordering, Causes, Reception, Tracks, CompletesOnSend;
    var (e, f) := (c.trace[j], Sent(c.base + i, c.q[i].bytes, c.q[i].state.Unsent?));
    assert EventOk(c, e);
    if FirstSends(c.issued, e, f) {
      assert Passed(c, e.serial);
      assert !Started(c, c.base + i);
    }
    assert !Done(c, c.base + i);
  }

  lemma TransmitKeeps(c: Core, i: nat, now: nat)
    requires Inv(c) && MaySend(c, i)
    ensures |c.q[i].bytes| > 0 && Inv(Transmit(c, i, now))
  {
    hide Encodes;
    var x := c.issued[c.base + i];
    assert IssueOk(x) && Tracks(c.q[i], x);
    TransmitTracks(c.q[i], x, now);
    TrackedByte(c.q[i], x);
    TrackedByte(AfterSend(c.q[i], now), x);
    var d := Transmit(c, i, now);
    hide IssueOk, Tracks;
    TransmitPairs(c, i, AfterSend(c.q[i], now));
    assert Registry(d);
    TransmitEvents(c, i, now);
    TransmitReception(c, i, now);
  }

  lemma TransmitReception(c: Core, i: nat, now: nat)
    requires Reception(c) && i < |c.q| && |c.q[i].bytes| > 0 && !c.q[i].state.Complete?
    ensures Reception(Transmit(c, i, now))
  {
    hide Encodes, Reception;
    var d := Transmit(c, i, now);
    forall id | Guarded(c.q, id) ensures Guarded(d.q, id) {
      var k :| 0 <= k < |c.q| && c.q[k].ctype == PUBREC && c.q[k].id == id && !c.q[k].state.Complete?;
      assert d.q[k].ctype == PUBREC && d.q[k].id == id && !d.q[k].state.Complete?;
    }
    ReceptionGrows(c, d, Sent(c.base + i, c.q[i].bytes, c.q[i].state.Unsent?));
  }

  lemma TransmitEvents(c: Core, i: nat, now: nat)
    requires Inv(c) && MaySend(c, i) && |c.q[i].bytes| > 0
    requires c.q[i].bytes == if c.q[i].state.Unsent? then c.issued[c.base + i].bytes else Again(c.issued[c.base + i])
    ensures var d := Transmit(c, i, now); Events(d) && Ordering(d) && Causes(d)
  {
    hide Encodes;
    var (d, e) := (Transmit(c, i, now), Sent(c.base + i, c.q[i].bytes, c.q[i].state.Unsent?));
    forall j | 0 <= j < |c.trace| ensures InOrder(c.issued, c.trace[j], e) {
      TransmitInOrder(c, i, j);
    }
    TransmitEventOk(c, i, now);
    assert Tracks(c.q[i], c.issued[c.base + i]);
    TrackedByte(c.q[i], c.issued[c.base + i]);
    hide IssueOk, Tracks, Reception, Pairs, InOrder, EventOk;
    forall s | 0 <= s < |c.issued|
      ensures (Started(c, s) ==> Started(d, s)) && (Done(c, s) ==> Done(d, s))
      ensures Done(d, s) ==> Done(c, s) || Finishes(c.issued, e, s)
    {
    }
    TraceGrows(c, d, e);
  }

  lemma TransmitEventOk(c: Core, i: nat, now: nat)
    requires Registry(c) && MaySend(c, i) && |c.q[i].bytes| > 0
    requires c.q[i].bytes == if c.q[i].state.Unsent? then c.issued[c.base + i].bytes else Again(c.issued[c.base + i])
    ensures var e := Sent(c.base + i, c.q[i].bytes, c.q[i].state.Unsent?); EventOk(Transmit(c, i, now), e)
  {
    hide Encodes;
    var d := Transmit(c, i, now);
    var s := c.base + i;
    assert Tracks(c.q[i], c.issued[s]) && IssueOk(c.issued[s]);
    TrackedByte(c.q[i], c.issued[s]);
    hide IssueOk, Tracks, CompletesOnSend;
    if c.q[i].state.Unsent? {
      forall t | 0 <= t <= s && SameLane(c.issued[t], c.issued[s]) ensures Started(d, t) {
        if c.base <= t < s {
          assert Tracks(c.q[t - c.base], c.issued[t]);
          TrackedByte(c.q[t - c.base], c.issued[t]);
        }
      }
    }
  }

  // ----- acknowledgement -----

  lemma AcknowledgeKeeps(c: Core, k: nat, kind: nat)
    requires Inv(c) && k < |c.q| && Acknowledges(kind, c.q[k].ctype)
    ensures Inv(Acknowledge(c, k, kind, c.q[k].id))
  {
    hide Encodes;
    var (d, e) := (Acknowledge(c, k, kind, c.q[k].id), Acked(c.base + k, kind, c.q[k].id));
    assert Registry(d) by {
      assert Tracks(c.q[k], c.issued[c.base + k]);
    }
    AcknowledgePairs(c, k);
    AcknowledgeReception(c, k, kind);
    assert Tracks(c.q[k], c.issued[c.base + k]) && IssueOk(c.issued[c.base + k]);
    hide IssueOk, Tracks, Reception, Pairs, Acknowledges;
    assert EventOk(d, e);
    hide EventOk, InOrder;
    forall i | 0 <= i < |c.trace| ensures InOrder(c.issued, c.trace[i], e) {
      NotASend(c.issued, c.trace[i], e);
    }
    TraceGrows(c, d, e);
  }

  lemma NotASend(issued: seq<Issue>, e: Event, f: Event)
    requires !f.Sent?
    ensures InOrder(issued, e, f)
  {
  }

  lemma AcknowledgePairs(c: Core, k: nat)
    requires Pairs(c.q) && k < |c.q|
    ensures Pairs(c.q[k := c.q[k].(state := Complete)])
  {
    hide Encodes;
    var q' := c.q[k := c.q[k].(state := Complete)];
    forall a, b | 0 <= a < b < |q'| ensures Pair(q'[a], q'[b]) {
      assert Pair(c.q[a], c.q[b]);
    }
  }

  lemma AcknowledgeReception(c: Core, k: nat, kind: nat)
    requires Reception(c) && k < |c.q| && Acknowledges(kind, c.q[k].ctype) && Pairs(c.q)
    ensures Reception(Acknowledge(c, k, kind, c.q[k].id))
  {
    hide Encodes, Reception;
    var (d, e) := (Acknowledge(c, k, kind, c.q[k].id), Acked(c.base + k, kind, c.q[k].id));
    forall id | Guarded(c.q, id) && !Closes(e, id) ensures Guarded(d.q, id) {
      var j :| 0 <= j < |c.q| && c.q[j].ctype == PUBREC && c.q[j].id == id && !c.q[j].state.Complete?;
      assert j != k;
      assert d.q[j] == c.q[j];
    }
    ReceptionGrows(c, d, e);
  }

  // ----- events that change no message -----

  lemma NoteEvents(c: Core, e: Event)
    requires Events(c) && Ordering(c) && Causes(c) && !e.Sent? && !e.Acked? && EventOk(c, e)
    ensures Events(Note(c, e)) && Ordering(Note(c, e)) && Causes(Note(c, e))
  {
    hide Encodes;
    forall i | 0 <= i < |c.trace| ensures InOrder(c.issued, c.trace[i], e) {
      NotASend(c.issued, c.trace[i], e);
    }
    assert EventOk(Note(c, e), e);
    TraceGrows(c, Note(c, e), e);
  }

  lemma CutOffKeeps(c: Core, i: nat, n: nat)
    requires Inv(c) && i < |c.q| && n < |c.q[i].bytes|
    ensures Inv(Note(c, CutOff(c.base + i, c.q[i].bytes[..n])))
  {
    hide Encodes;
    var e := CutOff(c.base + i, c.q[i].bytes[..n]);
    var x := c.issued[c.base + i];
    assert IssueOk(x) && Tracks(c.q[i], x);
    TrackedByte(c.q[i], x);
    assert EventOk(c, e);
    NoteEvents(c, e);
    hide Guarded;
    ReceptionGrows(c, Note(c, e), e);
  }

  // A delivery; a QoS 2 one needs its PUBREC queued and no earlier one open.
  lemma DeliverKeeps(c: Core, qos: nat, id: nat, topic: seq<byte>, message: seq<byte>)
    requires Inv(c) && (qos == 2 ==> !Open(c.trace, id) && Guarded(c.q, id))
    ensures Inv(Note(c, Delivered(qos, id, topic, message)))
  {
    hide Encodes;
    var e := Delivered(qos, id, topic, message);
    var d := Note(c, e);
    NoteEvents(c, e);
    hide Guarded;
    if qos != 2 {
      ReceptionGrows(c, d, e);
    } else {
      forall p: nat | Open(d.trace, p) ensures Guarded(d.q, p) {
        OpenGrows(c.trace, e, p);
      }
      forall j | 0 <= j < |d.trace| && d.trace[j].Delivered? && d.trace[j].qos == 2
        ensures !Open(d.trace[..j], d.trace[j].id) {
        assert d.trace[..j] == c.trace[..j];
      }
    }
  }
}
