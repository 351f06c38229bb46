// Runs of the client: any sequence of calls and mqtt_syncs, with any broker,
// any transport and any clock, and what holds in all of them.
module Runs {
  import opened Types
  import opened Wire
  import opened WireProofs
  import opened QueueMemory
  import opened MessageQueues
  import opened Protocol
  import opened Invariants
  import opened Steps
  import opened Receive
  import PacketId

  // ----- mqtt_sync -----

  // __mqtt_recv keeps the invariants and puts nothing on the wire.
  lemma {:induction false} RecvAdvances(s: Client, l: Link, stales: nat -> Stale, i: nat)
    requires Inv(s.core) && |s.inbuf| <= s.insize
    ensures var r := RecvFrom(s, l, stales, i);
            && Advances(s.core, r.client.core) && Quiet(s.core.trace, r.client.core.trace)
            && (Dead(s.error) ==> Dead(r.client.error))
            && |r.client.inbuf| <= r.client.insize
            && (r.error == OK ==> r.client.error == s.error)
    decreases |l.rest| + |s.inbuf|
  {
    hide Inv, Advances, Unpack, Consume, Quiet, Buffered, Onward;
    AdvancesSelf(s.core);
    QuietSelf(s.core.trace);
    var (buf, l', o) := (Buffered(s, l), Onward(s, l), Unpack(Buffered(s, l)));
    DecodedFits(buf);
    if !Fails(l) && o.Decoded? {
      ConsumeHandled(s, buf, o.response, o.consumed, stales(i));
      var (t, e) := Consume(s, buf, o.response, o.consumed, stales(i));
      if e == OK {
        AdvancesInv(s.core, t.core);
        RecvAdvances(t, l', stales, i + 1);
        var u := RecvFrom(t, l', stales, i + 1).client;
        AdvancesTrans(s.core, t.core, u.core);
        QuietTrans(s.core.trace, t.core.trace, u.core.trace);
      }
    }
  }

  lemma QuietSelf(trace: seq<Event>)
    ensures Quiet(trace, trace)
  {
  }

  lemma DecodedFits(buf: seq<byte>)
    ensures Unpack(buf).Decoded? ==> 2 <= Unpack(buf).consumed <= |buf|
    ensures Unpack(buf).Malformed? ==> Dead(Unpack(buf).error)
  {
    hide DecodeLength;
  }

  lemma ConsumeHandled(s: Client, buf: seq<byte>, r: Response, n: nat, stale: Stale)
    requires Inv(s.core) && n <= |buf|
    ensures var (t, e) := Consume(s, buf, r, n, stale);
            && Advances(s.core, t.core) && Quiet(s.core.trace, t.core.trace)
            && (Dead(s.error) ==> Dead(t.error)) && (e == OK ==> t.error == s.error)
  {
    hide Inv, Handle, Advances, Quiet;
    HandleHandled(s.(inbuf := buf), r, stale);
  }

  // What every state of a run satisfies.
  ghost predicate Ok(s: Client) {
    Inv(s.core) && WireOk(s) && |s.inbuf| <= s.insize
  }

  // mqtt_sync with no inspector and no reconnect callback; rest is what the broker has sent and the client not yet
  // read.
  ghost function SyncClient(s: Client, rest: seq<byte>, w: World): (Client, seq<byte>, Error)
    requires Ok(s)
  {
    var t := if s.error == RECONNECTING then s.(error := OK) else s;
    var r := RecvFrom(t, Link(rest + w.arriving, w.ready), w.stales, 0);
    if r.error != OK then (r.client, r.link.rest, r.error)
    else
      RecvAdvances(t, Link(rest + w.arriving, w.ready), w.stales, 0);
      InvHasBytes(r.client.core);
      var (u, e) := Send(r.client, w.out);
      (u, r.link.rest, e)
  }

  lemma SyncOk(s: Client, rest: seq<byte>, w: World)
    requires Ok(s)
    ensures var t := SyncClient(s, rest, w).0; Ok(t) && Advances(s.core, t.core)
  {
    hide Inv, Advances, RecvFrom, Send, Quiet, CutIsLast, NoCut;
    var t := if s.error == RECONNECTING then s.(error := OK) else s;
    var l := Link(rest + w.arriving, w.ready);
    RecvAdvances(t, l, w.stales, 0);
    var r := RecvFrom(t, l, w.stales, 0);
    QuietWire(t.core.trace, r.client.core.trace);
    AdvancesInv(t.core, r.client.core);
    if r.error == OK {
      SendAdvances(r.client, w.out);
      var (u, _) := Send(r.client, w.out);
      SendKeepsBuffer(r.client, w.out);
      AdvancesInv(r.client.core, u.core);
      AdvancesTrans(s.core, r.client.core, u.core);
    }
  }

  lemma {:induction false} SendFromBuffer(s: Client, i: nat, inflight: bool, o: Outside)
    requires HasBytes(s.core.q)
    ensures SameBuffers(s, SendFrom(s, i, inflight, o).0)
    decreases |s.core.q| - i
  {
    if i < |s.core.q| {
      var t := CountTimeout(s, i, o);
      hide AfterSend, Due, InFlight, Expired;
      if !Due(s, i, inflight, o) {
        SendFromBuffer(t, i + 1, InFlight(s, i, inflight), o);
      } else {
        var (u, e) := SendOne(t, i, o);
        if e == OK {
          SendFromBuffer(u, i + 1, InFlight(s, i, inflight), o);
        }
      }
    }
  }

  lemma SendKeepsBuffer(s: Client, o: Outside)
    requires HasBytes(s.core.q)
    ensures SameBuffers(s, Send(s, o).0)
  {
    hide SendFrom, TryPack, HasBytes;
    SendFromBuffer(s, 0, false, o);
    TryPackKeeps(SendFrom(s, 0, false, o).0, PingRequest, o.ping);
  }

  // ----- runs -----

  // After mqtt_init: nothing queued, nothing sent; the time of the last send and the keep-alive are whatever lay in
  // memory.
  function Init(size: nat, insize: nat, keepAlive: u16, lastSend: nat): Client {
    Client(Core([], 0, [], []), size, CONNECT_NOT_CALLED, 0, keepAlive, 30, lastSend, 0, [], insize, [])
  }

  // The call makes sense and returns.
  ghost predicate Enabled(s: Client, op: Op) {
    match op
    case Invoke(call, _) => Returns(s, call) && (call.CallConnect? ==> call.request.ConnectRequest?)
    case Sync(_) => true
  }

  // The client and the unread bytes after one operation.
  ghost function Step(s: Client, rest: seq<byte>, op: Op): (Client, seq<byte>)
    requires Ok(s) && Enabled(s, op)
  {
    match op
    case Invoke(call, stale) => (Perform(s, call, stale).0, rest)
    case Sync(w) => var (t, r, _) := SyncClient(s, rest, w); (t, r)
  }

  lemma StepOk(s: Client, rest: seq<byte>, op: Op)
    requires Ok(s) && Enabled(s, op)
    ensures var t := Step(s, rest, op).0; Ok(t) && Advances(s.core, t.core)
  {
    hide Inv, Advances, Perform, SyncClient, CutIsLast, NoCut;
    match op {
      case Invoke(call, stale) =>
        PerformAdvances(s, call, stale);
        AdvancesInv(s.core, Perform(s, call, stale).0.core);
        PerformKeepsBuffer(s, call, stale);
      case Sync(w) => SyncOk(s, rest, w);
    }
  }

  lemma PerformKeepsBuffer(s: Client, call: Call, stale: Stale)
    requires call.CallConnect? ==> call.request.ConnectRequest?
    ensures SameBuffers(s, Perform(s, call, stale).0)
  {
    hide TryPack;
    forall t: Client, r: Request ensures SameBuffers(t, TryPack(t, r, stale).0) {
      TryPackKeeps(t, r, stale);
    }
  }

  // The client between two operations, and what the broker has sent and it has not read.
  datatype Stage = Stage(client: Client, rest: seq<byte>)

  ghost predicate Follows(a: Stage, op: Op, b: Stage) {
    Ok(a.client) && Enabled(a.client, op) && (b.client, b.rest) == Step(a.client, a.rest, op)
  }

  // The stages of a run with these operations.
  ghost predicate Chain(run: seq<Stage>, ops: seq<Op>) {
    |run| == |ops| + 1 && forall i {:trigger ops[i]} :: 0 <= i < |ops| ==> Follows(run[i], ops[i], run[i + 1])
  }

  // t is reached from s, leaving `left` unread, by the operations in order.
  ghost predicate Reaches(s: Client, rest: seq<byte>, ops: seq<Op>, t: Client, left: seq<byte>) {
    exists run :: Chain(run, ops) && run[0] == Stage(s, rest) && run[|ops|] == Stage(t, left)
  }

  lemma {:induction false} ChainOk(run: seq<Stage>, ops: seq<Op>, n: nat)
    requires Chain(run, ops) && n <= |ops| && Ok(run[0].client)
    ensures Ok(run[n].client) && Advances(run[0].client.core, run[n].client.core)
  {
    hide Ok, Advances, Step, Enabled;
    if n == 0 {
      OkInv(run[0].client);
      AdvancesSelf(run[0].client.core);
    } else {
      ChainOk(run, ops, n - 1);
      var (a, op) := (run[n - 1], ops[n - 1]);
      assert Follows(a, op, run[n]);
      StepOk(a.client, a.rest, op);
      AdvancesTrans(run[0].client.core, a.client.core, run[n].client.core);
    }
  }

  lemma ReachesOk(s: Client, rest: seq<byte>, ops: seq<Op>, t: Client, left: seq<byte>)
    requires Ok(s) && Reaches(s, rest, ops, t, left)
    ensures Ok(t) && Advances(s.core, t.core)
  {
    hide Ok, Advances, Follows;
    var run :| Chain(run, ops) && run[0] == Stage(s, rest) && run[|ops|] == Stage(t, left);
    ChainOk(run, ops, |ops|);
  }

  // A run goes on with any enabled operation.
  lemma ReachesThen(s: Client, rest: seq<byte>, ops: seq<Op>, t: Client, left: seq<byte>, op: Op)
    requires Ok(s) && Reaches(s, rest, ops, t, left) && Enabled(t, op)
    ensures Ok(t)
    ensures var (u, r) := Step(t, left, op); Reaches(s, rest, ops + [op], u, r)
  {
    hide Ok, Advances, Step, Enabled;
    var run :| Chain(run, ops) && run[0] == Stage(s, rest) && run[|ops|] == Stage(t, left);
    ChainOk(run, ops, |ops|);
    var (u, r) := Step(t, left, op);
    ChainMore(run, ops, op, Stage(u, r));
    assert (run + [Stage(u, r)])[0] == Stage(s, rest) && (run + [Stage(u, r)])[|ops + [op]|] == Stage(u, r);
  }

  lemma ChainMore(run: seq<Stage>, ops: seq<Op>, op: Op, b: Stage)
    requires Chain(run, ops) && Follows(run[|ops|], op, b)
    ensures Chain(run + [b], ops + [op])
  {
    hide Follows;
    var (r, o) := (run + [b], ops + [op]);
    forall i | 0 <= i < |o| ensures Follows(r[i], o[i], r[i + 1]) {
      assert i < |ops| ==> o[i] == ops[i];
    }
  }

  lemma OkInv(s: Client)
    requires Ok(s)
    ensures Inv(s.core)
  {
  }

  // s is a state of some run from mqtt_init.
  ghost predicate Reachable(s: Client) {
    exists size: nat, insize: nat, keepAlive: u16, lastSend: nat, ops: seq<Op>, left: seq<byte> ::
      Reaches(Init(size, insize, keepAlive, lastSend), [], ops, s, left)
  }

  lemma InitOk(size: nat, insize: nat, keepAlive: u16, lastSend: nat)
    ensures Ok(Init(size, insize, keepAlive, lastSend))
  {
  }

  lemma ReachableOk(s: Client)
    requires Reachable(s)
    ensures Ok(s)
  {
    hide Ok, Reaches;
    var size: nat, insize: nat, keepAlive: u16, lastSend: nat, ops: seq<Op>, left: seq<byte> :|
      Reaches(Init(size, insize, keepAlive, lastSend), [], ops, s, left);
    InitOk(size, insize, keepAlive, lastSend);
    ReachesOk(Init(size, insize, keepAlive, lastSend), [], ops, s, left);
  }

  // ----- identifiers -----

  // In every reachable state: one PUBLISH, SUBSCRIBE or UNSUBSCRIBE, one
  // PUBREL and one PUBREC per identifier; and a PUBREL that shares its
  // identifier with one of the former comes behind it, and that one is a
  // complete PUBLISH.
  lemma IdsExclusive(s: Client, i: nat, j: nat)
    requires Reachable(s) && i < |s.core.q| && j < |s.core.q| && i != j && s.core.q[i].id == s.core.q[j].id
    ensures var (x, y) := (s.core.q[i], s.core.q[j]);
            && !(Requests(x) && Requests(y))
            && !(x.ctype == PUBREL && y.ctype == PUBREL)
            && !(x.ctype == PUBREC && y.ctype == PUBREC)
            && (Requests(x) && y.ctype == PUBREL ==> i < j && x.ctype == PUBLISH && x.state.Complete?)
  {
    ReachableOk(s);
    hide Registry, Events, Ordering, Causes, Reception, WireOk, Reachable, Qos2;
    if i < j {
      assert Pair(s.core.q[i], s.core.q[j]);
    } else {
      assert Pair(s.core.q[j], s.core.q[i]);
    }
  }

  // With fewer than 65535 messages queued, every call returns.
  lemma CallsReturn(s: Client, call: Call)
    requires |s.core.q| < 65535
    ensures Returns(s, call)
  {
    UsedIdsSize(s.core.q);
    PacketId.FewInUse(UsedIds(s.core.q));
  }

  lemma {:induction false} UsedIdsSize(q: seq<Message>)
    ensures |UsedIds(q)| <= |q|
  {
    if q == [] {
      assert UsedIds(q) == {};
    } else {
      var n := |q| - 1;
      UsedIdsSize(q[..n]);
      assert UsedIds(q) == UsedIds(q[..n]) + {q[n].id} by {
        assert forall i :: 0 <= i < n ==> q[..n][i] == q[i];
        forall id | id in UsedIds(q) ensures id in UsedIds(q[..n]) + {q[n].id} {
          var i :| 0 <= i < |q| && q[i].id == id;
          assert i < n ==> q[..n][i].id == id;
        }
      }
    }
  }

  // ----- the QoS 2 send gate -----

  // In every reachable state all QoS 2 PUBLISHes ahead of one that awaits its
  // acknowledgement are complete, so at most one is in flight.
  lemma OneQos2InFlight(s: Client, i: nat, j: nat)
    requires Reachable(s) && i < |s.core.q| && j < |s.core.q| && i != j
    requires Qos2(s.core.q[i]) && Qos2(s.core.q[j]) && s.core.q[j].state.AwaitingAck?
    ensures i < j ==> s.core.q[i].state.Complete?
    ensures !s.core.q[i].state.AwaitingAck?
  {
    ReachableOk(s);
    hide Registry, Events, Ordering, Causes, Reception, WireOk, Reachable, Qos2;
    if i < j {
      assert Pair(s.core.q[i], s.core.q[j]);
    } else {
      assert Pair(s.core.q[j], s.core.q[i]);
    }
  }

  // ----- QoS 2 delivery -----

  lemma {:induction false} StaysOpen(trace: seq<Event>, i: nat, n: nat, id: nat)
    requires i < n <= |trace| && Delivers(trace[i], id) && forall k :: i < k < n ==> !Closes(trace[k], id)
    ensures Open(trace[..n], id)
    decreases n
  {
    assert trace[..n][n - 1] == trace[n - 1] && trace[..n][..n - 1] == trace[..n - 1];
    if i < n - 1 {
      StaysOpen(trace, i, n - 1, id);
    }
  }

  // Between two QoS 2 deliveries with the same identifier, in any run, a
  // PUBREL with that identifier has been processed (section 4.3.3 of MQTT 3.1.1).
  lemma NoDuplicateDelivery(s: Client, i: nat, j: nat)
    requires Reachable(s) && i < j < |s.core.trace|
    requires s.core.trace[i].Delivered? && s.core.trace[j].Delivered?
    requires s.core.trace[i].qos == 2 == s.core.trace[j].qos && s.core.trace[i].id == s.core.trace[j].id
    ensures exists k :: i < k < j && Closes(s.core.trace[k], s.core.trace[i].id)
  {
    ReachableOk(s);
    hide Registry, Pairs, Events, Ordering, Causes, WireOk, Reachable, Open, Guarded;
    var (trace, id) := (s.core.trace, s.core.trace[i].id);
    if forall k :: i < k < j ==> !Closes(trace[k], id) {
      StaysOpen(trace, i, j, id);
    }
  }

  // ----- transmissions -----

  // First transmissions are in queue order among QoS 2 PUBLISHes, and in queue order among all other messages.
  lemma FirstSendsInOrder(s: Client, i: nat, j: nat)
    requires Reachable(s) && i < j < |s.core.trace|
    requires s.core.trace[i].Sent? && s.core.trace[j].Sent? && s.core.trace[i].first && s.core.trace[j].first
    ensures var (a, b) := (s.core.trace[i].serial, s.core.trace[j].serial);
            && a < |s.core.issued| && b < |s.core.issued|
            && (Qos2Issue(s.core.issued[a]) == Qos2Issue(s.core.issued[b]) ==> a < b)
  {
    ReachableOk(s);
    hide Registry, Pairs, Causes, Reception, WireOk, Reachable, Qos2Issue, IssueOk;
    assert EventOk(s.core, s.core.trace[i]) && EventOk(s.core, s.core.trace[j]);
    assert InOrder(s.core.issued, s.core.trace[i], s.core.trace[j]);
  }

  // What goes out is what was queued; a retransmission differs from it only
  // for a QoS 1 PUBLISH, and there only in the DUP bit of the first byte.
  lemma SentIsIssued(s: Client, j: nat)
    requires Reachable(s) && j < |s.core.trace| && s.core.trace[j].Sent?
    ensures var (e, q) := (s.core.trace[j], s.core.issued);
            && e.serial < |q| && |q[e.serial].bytes| >= 2 && |e.bytes| == |q[e.serial].bytes|
            && e.bytes[1..] == q[e.serial].bytes[1..]
            && e.bytes[0] == if !e.first && q[e.serial].ctype == PUBLISH && Qos(q[e.serial].bytes[0]) == 1
                             then WithDup(q[e.serial].bytes[0]) else q[e.serial].bytes[0]
  {
    ReachableOk(s);
    hide Registry, Pairs, Causes, Reception, WireOk, Reachable, Ordering;
    assert EventOk(s.core, s.core.trace[j]);
  }

  // Nothing is on the wire behind a packet that the transport cut off.
  lemma NothingAfterCut(s: Client, i: nat, j: nat)
    requires Reachable(s) && i < j < |s.core.trace| && s.core.trace[i].CutOff?
    ensures !s.core.trace[j].Sent? && !s.core.trace[j].CutOff?
  {
    ReachableOk(s);
    hide Inv, Reachable;
  }

  // ----- nothing is lost -----

  // A message that is complete or has left the queue, and is of a kind that
  // waits for an acknowledgement, was acknowledged by a response of the matching type and identifier.
  lemma CompleteMeansAcked(s: Client, n: nat) returns (j: nat)
    requires Reachable(s) && n < |s.core.issued| && Done(s.core, n)
    requires |s.core.issued[n].bytes| > 0 && !CompletesOnSend(s.core.issued[n].ctype, s.core.issued[n].bytes[0])
    ensures j < |s.core.trace| && s.core.trace[j].Acked? && s.core.trace[j].serial == n
    ensures Acknowledges(s.core.trace[j].kind, s.core.issued[n].ctype) && s.core.trace[j].id == s.core.issued[n].id
  {
    ReachableOk(s);
    hide Registry, Pairs, Ordering, Reception, WireOk, Reachable, Acknowledges, CompletesOnSend, Done;
    assert HasCause(s.core, n);
    j :| 0 <= j < |s.core.trace| && Finishes(s.core.issued, s.core.trace[j], n);
    assert EventOk(s.core, s.core.trace[j]);
  }

  // After its acknowledgement a message is never sent again.
  lemma NotSentAfterAck(s: Client, i: nat, j: nat)
    requires Reachable(s) && i < j < |s.core.trace| && s.core.trace[i].Acked? && s.core.trace[j].Sent?
    ensures s.core.trace[i].serial != s.core.trace[j].serial
  {
    ReachableOk(s);
    hide Pairs, Causes, Reception, WireOk, Reachable, Registry;
    assert InOrder(s.core.issued, s.core.trace[i], s.core.trace[j]);
    assert EventOk(s.core, s.core.trace[i]) && EventOk(s.core, s.core.trace[j]);
  }

  // A message that needs no acknowledgement is sent at most once.
  lemma UnacknowledgedSentOnce(s: Client, i: nat, j: nat)
    requires Reachable(s) && i < j < |s.core.trace| && s.core.trace[i].Sent? && s.core.trace[j].Sent?
    requires s.core.trace[i].serial == s.core.trace[j].serial < |s.core.issued|
    ensures var x := s.core.issued[s.core.trace[i].serial]; |x.bytes| > 0 && !CompletesOnSend(x.ctype, x.bytes[0])
  {
    ReachableOk(s);
    hide Pairs, Causes, Reception, WireOk, Reachable, CompletesOnSend;
    assert IssueOk(s.core.issued[s.core.trace[i].serial]);
    assert InOrder(s.core.issued, s.core.trace[i], s.core.trace[j]);
  }

  // From any reachable state on, messages keep their serials, only move from
  // unsent to awaiting to complete, and leave the queue only as complete ones.
  lemma MessagesMoveForward(s: Client, rest: seq<byte>, ops: seq<Op>, t: Client, left: seq<byte>, n: nat)
    requires Reachable(s) && Reaches(s, rest, ops, t, left) && n < |s.core.issued|
    ensures s.core.issued <= t.core.issued && s.core.trace <= t.core.trace && s.core.base <= t.core.base
    ensures Rank(s.core, n) <= Rank(t.core, n)
    ensures n < t.core.base ==> HasCause(t.core, n)
  {
    ReachableOk(s);
    ReachesOk(s, rest, ops, t, left);
    hide Registry, Pairs, Events, Ordering, Reception, WireOk, Reachable, Reaches, HasCause, Rank;
    if n < t.core.base {
      assert Done(t.core, n);
    }
  }

  // ----- the bytes on the wire -----

  function WireBytes(e: Event): seq<byte> {
    match e case Sent(_, b, _) => b case CutOff(_, b) => b case _ => []
  }

  // All bytes sent in a run.
  function Transcript(trace: seq<Event>): seq<byte> {
    if trace == [] then [] else Transcript(trace[..|trace| - 1]) + WireBytes(trace[|trace| - 1])
  }

  // The packets sent whole.
  function Packets(trace: seq<Event>): seq<seq<byte>> {
    if trace == [] then []
    else
      var (front, e) := (Packets(trace[..|trace| - 1]), trace[|trace| - 1]);
      if e.Sent? then front + [e.bytes] else front
  }

  lemma {:induction false} ConcatSnoc(ps: seq<seq<byte>>, p: seq<byte>)
    ensures Concat(ps + [p]) == Concat(ps) + p
  {
    if ps == [] {
      assert ps + [p] == [p] && Concat([p]) == p + Concat([]);
    } else {
      assert (ps + [p])[1..] == ps[1..] + [p];
      ConcatSnoc(ps[1..], p);
    }
  }

  lemma {:induction false} UncutWire(trace: seq<Event>, n: nat)
    requires n <= |trace| && forall j :: 0 <= j < n ==> !trace[j].CutOff?
    ensures Transcript(trace[..n]) == Concat(Packets(trace[..n]))
    decreases n
  {
    if n > 0 {
      var e := trace[n - 1];
      assert trace[..n][n - 1] == e && trace[..n][..n - 1] == trace[..n - 1];
      UncutWire(trace, n - 1);
      if e.Sent? {
        ConcatSnoc(Packets(trace[..n - 1]), e.bytes);
      }
    }
  }

  lemma {:induction false} SilentWire(trace: seq<Event>, i: nat, n: nat)
    requires i < n <= |trace| && forall j :: i < j < n ==> !OnTheWire(trace[j])
    ensures Transcript(trace[..n]) == Transcript(trace[..i + 1]) && Packets(trace[..n]) == Packets(trace[..i + 1])
    decreases n
  {
    if i + 1 < n {
      assert trace[..n][n - 1] == trace[n - 1] && trace[..n][..n - 1] == trace[..n - 1];
      SilentWire(trace, i, n - 1);
    }
  }

  // The bytes sent in a run are whole packets one after the other, followed at
  // most by one packet that a failing transport cut off, which nothing follows.
  lemma WireIsPackets(s: Client) returns (tail: seq<byte>, i: nat)
    requires Reachable(s)
    ensures Transcript(s.core.trace) == Concat(Packets(s.core.trace)) + tail
    ensures NoCut(s.core.trace) ==> tail == []
    ensures !NoCut(s.core.trace)
            ==> Dead(s.error) && i < |s.core.trace| && s.core.trace[i].CutOff? && s.core.trace[i].bytes == tail
  {
    ReachableOk(s);
    hide Inv, Reachable;
    var trace := s.core.trace;
    assert trace[..|trace|] == trace;
    tail, i := [], 0;
    if NoCut(trace) {
      UncutWire(trace, |trace|);
    } else {
      i :| 0 <= i < |trace| && trace[i].CutOff?;
      CutWire(trace, i);
      tail := trace[i].bytes;
    }
  }

  lemma CutWire(trace: seq<Event>, i: nat)
    requires CutIsLast(trace) && i < |trace| && trace[i].CutOff?
    ensures Transcript(trace) == Concat(Packets(trace)) + trace[i].bytes
  {
    assert trace[..|trace|] == trace;
    forall j | 0 <= j < i ensures !trace[j].CutOff? {
      assert trace[j].CutOff? ==> !OnTheWire(trace[i]);
    }
    UncutWire(trace, i);
    SilentWire(trace, i, |trace|);
    assert trace[..i + 1][..i] == trace[..i] && trace[..i + 1][i] == trace[i];
    hide Concat, CutIsLast;
  }

  // A packet that was cut off is a proper prefix of a queued one, as it was or marked as a duplicate.
  lemma CutOffIsPrefix(s: Client, i: nat)
    requires Reachable(s) && i < |s.core.trace| && s.core.trace[i].CutOff?
    ensures s.core.trace[i].serial < |s.core.issued|
    ensures var (b, x) := (s.core.trace[i].bytes, s.core.issued[s.core.trace[i].serial]);
            0 < |x.bytes| && |b| < |x.bytes| && (b <= x.bytes || b <= Dup(x.bytes))
  {
    ReachableOk(s);
    hide Registry, Pairs, Causes, Reception, WireOk, Reachable, Ordering;
    assert EventOk(s.core, s.core.trace[i]);
  }

  lemma DupHeader(t: nat, f: nat)
    requires t < 16 && f < 16
    ensures WithDup(f) < 16 && WithDup(16 * t + f) == 16 * t + WithDup(f)
  {
    assert (16 * t + f) / 8 == 2 * t + f / 8;
  }

  // A packet sent for a request whose strings fit their 16-bit lengths ends
  // where its fixed header says: a reader of the stream finds its end, whatever follows.
  lemma SentIsFramed(s: Client, j: nat, rest: seq<byte>)
    requires Reachable(s) && j < |s.core.trace| && s.core.trace[j].Sent?
    ensures s.core.trace[j].serial < |s.core.issued|
    ensures var (e, x) := (s.core.trace[j], s.core.issued[s.core.trace[j].serial]);
            var h := UnpackHeader(e.bytes + rest);
            StringsFit(x.request) ==> h.HeaderOf? && h.ctype == x.ctype && h.size + h.rl == |e.bytes|
  {
    ReachableOk(s);
    hide Pairs, Causes, Reception, WireOk, Reachable, Ordering;
    var e := s.core.trace[j];
    assert EventOk(s.core, e);
    var x := s.core.issued[e.serial];
    if StringsFit(x.request) {
      EncodedIsFramed(x, rest);
    }
  }

  predicate Frames(b: seq<byte>, rest: seq<byte>, ctype: nat) {
    var h := UnpackHeader(b + rest);
    h.HeaderOf? && h.ctype == ctype && h.size + h.rl == |b|
  }

  lemma EncodedIsFramed(x: Issue, rest: seq<byte>)
    requires IssueOk(x) && StringsFit(x.request) && x.ctype == TypeOf(x.request)
    ensures Frames(x.bytes, rest, x.ctype) && Frames(Again(x), rest, x.ctype)
  {
    var (t, f, body) := (TypeOf(x.request), FlagsOf(x.request), Body(x.request));
    BodyLength(x.request);
    hide Body, FlagsOf, TypeOf, UnpackHeader;
    HeaderRoundTrip(t, f, body, rest);
    if Again(x) != x.bytes {
      DupHeader(t, f);
      HeaderRoundTrip(t, WithDup(f), body, rest);
      assert Again(x) == Header(t, WithDup(f), |body|) + body;
    }
  }
}
