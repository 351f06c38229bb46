// What an mqtt_sync puts on the wire: everything that is new or overdue, once, in the order of the queue.
module Sends {
  import opened Types
  import opened Wire
  import opened WireProofs
  import opened QueueMemory
  import opened Protocol
  import opened Invariants
  import opened Steps
  import opened Handshakes
  import opened Runs
  import opened Streams
  import opened Calls
  import opened Brokers

  // ----- what is to go out -----

  // A PUBLISH of QoS 2, by its first byte (section 3.3.1 of MQTT 3.1.1).
  predicate ExactlyOnce(x: Message) {
    x.ctype == 3 && x.bytes != [] && x.bytes[0] / 2 % 4 == 2
  }

  // Never sent, or waiting for longer than the timeout when the clock is read for it.
  predicate NewOrOverdue(x: Message, checked: nat, timeout: int) {
    x.state == Unsent || (x.state == AwaitingAck && checked > x.timeSent + timeout)
  }

  // From position i on a QoS 2 PUBLISH ahead of message k is not complete.
  ghost predicate Behind(q: seq<Message>, i: nat, k: nat) {
    exists j :: i <= j < k && j < |q| && ExactlyOnce(q[j]) && q[j].state != Complete
  }

  // Message k is to go out: it is new or overdue, and no QoS 2 PUBLISH behind another one that is not complete.
  ghost predicate Wanted(q: seq<Message>, k: nat, o: Outside, timeout: int) {
    k < |q| && NewOrOverdue(q[k], o.checked(k), timeout) && !(ExactlyOnce(q[k]) && Behind(q, 0, k))
  }

  // What a transmission makes of a message: it is complete if nothing is to
  // come back for it, and waits otherwise; a QoS 1 PUBLISH gets the DUP bit.
  predicate WentOut(x: Message, y: Message, now: nat) {
    && x.bytes != [] && y.ctype == x.ctype && y.id == x.id && y.timeSent == now
    && |y.bytes| == |x.bytes| && y.bytes[1..] == x.bytes[1..]
    && var qos := x.bytes[0] / 2 % 4;
       && (y.state == if x.ctype in {4, 7, 14} || (x.ctype == 3 && qos == 0) then Complete else AwaitingAck)
       && y.bytes[0] == if x.ctype == 3 && qos == 1 && x.bytes[0] / 8 % 2 == 0 then x.bytes[0] + 8 else x.bytes[0]
  }

  ghost predicate Ascending(ks: seq<nat>, lo: nat, hi: nat) {
    && (forall m :: 0 <= m < |ks| ==> lo <= ks[m] < hi)
    && forall m, n :: 0 <= m < n < |ks| ==> ks[m] < ks[n]
  }

  // The events of sending these messages.
  function Sendings(q: seq<Message>, base: nat, ks: seq<nat>): (es: seq<Event>)
    requires forall m :: 0 <= m < |ks| ==> ks[m] < |q|
    ensures |es| == |ks|
  {
    seq(|ks|, m requires 0 <= m < |ks| => Sent(base + ks[m], q[ks[m]].bytes, q[ks[m]].state == Unsent))
  }

  // The time of the last transmission.
  function LastTime(ks: seq<nat>, o: Outside, before: nat): nat {
    if ks == [] then before else o.sent(ks[|ks| - 1])
  }

  // Between s and t the messages ks, from position lo on, have gone out, in order; then come the events es.
  ghost predicate Out(s: Client, t: Client, lo: nat, ks: seq<nat>, es: seq<Event>, o: Outside) {
    && Ascending(ks, lo, |s.core.q|)
    && t == s.(core := t.core, error := t.error, timeOfLastSend := LastTime(ks, o, s.timeOfLastSend),
               timeouts := t.timeouts)
    && t.core == s.core.(q := t.core.q, trace := s.core.trace + Sendings(s.core.q, s.core.base, ks) + es)
    && |t.core.q| == |s.core.q|
    && forall k :: 0 <= k < |s.core.q| ==>
         if k in ks then WentOut(s.core.q[k], t.core.q[k], o.sent(k)) else t.core.q[k] == s.core.q[k]
  }

  // What of message k a failing transport takes: never all of it.
  function Cut(x: Message, n: nat): seq<byte>
    requires x.bytes != []
  {
    if n < |x.bytes| then x.bytes[..n] else x.bytes[..|x.bytes| - 1]
  }

  // ----- the loop -----

  // Message k is to go out as far as the loop knows from position i on.
  ghost predicate WantedFrom(q: seq<Message>, i: nat, inflight: bool, k: nat, o: Outside, timeout: int) {
    && i <= k < |q| && NewOrOverdue(q[k], o.checked(k), timeout)
    && !(ExactlyOnce(q[k]) && (inflight || Behind(q, i, k)))
  }

  // How many messages from position i to hi are overdue, whether they may go out or not.
  function Overdue(q: seq<Message>, i: nat, hi: nat, o: Outside, timeout: int): nat
    requires hi <= |q|
    decreases hi - i
  {
    if i >= hi then 0
    else (if q[i].state == AwaitingAck && o.checked(i) > q[i].timeSent + timeout then 1 else 0)
         + Overdue(q, i + 1, hi, o, timeout)
  }

  // The messages ks are what is to go out from position i to hi, and the transport takes them.
  ghost predicate Sweep(q: seq<Message>, i: nat, inflight: bool, o: Outside, timeout: int, ks: seq<nat>, hi: nat) {
    && (forall m :: 0 <= m < |ks| ==>
          ks[m] < hi && WantedFrom(q, i, inflight, ks[m], o, timeout) && o.net(ks[m]) == Through)
    && forall j: nat :: j < hi && WantedFrom(q, i, inflight, j, o, timeout) ==> j in ks
  }

  // The loop from position i on: all that is to go out has gone out, or all in
  // front of message k, at which the transport fails.
  ghost predicate Swept(s: Client, i: nat, inflight: bool, o: Outside, t: Client, e: Error, ks: seq<nat>, k: nat) {
    && Sweep(s.core.q, i, inflight, o, s.responseTimeout, ks, k)
    && if e == OK then
         && k == |s.core.q| && Out(s, t, i, ks, [], o) && t.error == s.error
         && t.timeouts == s.timeouts + Overdue(s.core.q, i, k, o, s.responseTimeout)
       else
         && e == SOCKET_ERROR == t.error && k < |s.core.q|
         && t.timeouts == s.timeouts + Overdue(s.core.q, i, k + 1, o, s.responseTimeout)
         && WantedFrom(s.core.q, i, inflight, k, o, s.responseTimeout) && o.net(k).Breaks? && s.core.q[k].bytes != []
         && Out(s, t, i, ks, [CutOff(s.core.base + k, Cut(s.core.q[k], o.net(k).after))], o)
  }

  lemma DueWanted(s: Client, i: nat, inflight: bool, o: Outside)
    requires i < |s.core.q|
    ensures Due(s, i, inflight, o) <==> WantedFrom(s.core.q, i, inflight, i, o, s.responseTimeout)
    ensures InFlight(s, i, inflight) <==> inflight || (ExactlyOnce(s.core.q[i]) && s.core.q[i].state != Complete)
  {
  }

  // What is wanted behind message i does not depend on what the loop does with it.
  lemma WantedNext(s: Client, u: Client, i: nat, inflight: bool, o: Outside, k: nat)
    requires i < k && i < |s.core.q| == |u.core.q| && u.responseTimeout == s.responseTimeout
    requires forall j :: i < j < |s.core.q| ==> u.core.q[j] == s.core.q[j]
    ensures WantedFrom(u.core.q, i + 1, InFlight(s, i, inflight), k, o, u.responseTimeout)
            <==> WantedFrom(s.core.q, i, inflight, k, o, s.responseTimeout)
  {
    DueWanted(s, i, inflight, o);
    hide ExactlyOnce, InFlight, NewOrOverdue;
    var (q, q') := (s.core.q, u.core.q);
    if Behind(q', i + 1, k) {
      var j :| i + 1 <= j < k && j < |q'| && ExactlyOnce(q'[j]) && q'[j].state != Complete;
      assert ExactlyOnce(q[j]) && q[j].state != Complete;
    }
    if Behind(q, i, k) {
      var j :| i <= j < k && j < |q| && ExactlyOnce(q[j]) && q[j].state != Complete;
      assert j > i ==> ExactlyOnce(q'[j]) && q'[j].state != Complete;
    }
    if ExactlyOnce(q[i]) && q[i].state != Complete {
      assert Behind(q, i, k);
    }
  }

  lemma AfterSendWentOut(x: Message, now: nat)
    requires |x.bytes| > 0
    ensures WentOut(x, AfterSend(x, now), now)
  {
  }

  // Sending message i when it is due.
  lemma OneOut(s: Client, i: nat, o: Outside)
    requires i < |s.core.q| && |s.core.q[i].bytes| > 0 && Outbound(s.core.q[i].ctype)
    ensures var ((t, e), x) := (SendOne(s, i, o), s.core.q[i]);
            match o.net(i)
            case Through => e == OK && t.error == s.error && Out(s, t, i, [i], [], o)
            case Breaks(n) => e == SOCKET_ERROR == t.error && Out(s, t, i, [], [CutOff(s.core.base + i, Cut(x, n))], o)
  {
    AfterSendWentOut(s.core.q[i], o.sent(i));
    hide AfterSend, WentOut, Outbound;
    assert Sendings(s.core.q, s.core.base, []) == [];
    assert Sendings(s.core.q, s.core.base, [i])
           == [Sent(s.core.base + i, s.core.q[i].bytes, s.core.q[i].state == Unsent)];
  }

  lemma SendingsThen(q: seq<Message>, q': seq<Message>, base: nat, i: nat, first: seq<nat>, ks: seq<nat>)
    requires i < |q| == |q'| && (first == [] || first == [i]) && Ascending(ks, i + 1, |q|)
    requires forall j :: i < j < |q| ==> q'[j] == q[j]
    ensures Ascending(first + ks, i, |q|)
    ensures Sendings(q, base, first + ks) == Sendings(q, base, first) + Sendings(q', base, ks)
  {
    AscendingThen(i, first, ks, |q|);
    var (a, b) := (Sendings(q, base, first + ks), Sendings(q, base, first) + Sendings(q', base, ks));
    forall m | 0 <= m < |a| ensures a[m] == b[m] {
      if m >= |first| {
        assert (first + ks)[m] == ks[m - |first|];
      }
    }
  }

  lemma AscendingThen(i: nat, first: seq<nat>, ks: seq<nat>, n: nat)
    requires i < n && (first == [] || first == [i]) && Ascending(ks, i + 1, n)
    ensures Ascending(first + ks, i, n)
  {
  }

  lemma OutThen(s: Client, u: Client, t: Client, i: nat, first: seq<nat>, ks: seq<nat>, es: seq<Event>, o: Outside)
    requires i < |s.core.q| && (first == [] || first == [i])
    requires Out(s, u, i, first, [], o) && Out(u, t, i + 1, ks, es, o)
    ensures Out(s, t, i, first + ks, es, o)
  {
    hide WentOut;
    var q := s.core.q;
    forall j | i < j < |q| ensures u.core.q[j] == q[j] {
      assert j !in first;
    }
    SendingsThen(q, u.core.q, s.core.base, i, first, ks);
    var (a, b) := (Sendings(q, s.core.base, first), Sendings(u.core.q, s.core.base, ks));
    assert s.core.trace + a + [] + b + es == s.core.trace + (a + b) + es;
    hide Sendings, Ascending;
    forall k | 0 <= k < |q|
      ensures if k in first + ks then WentOut(q[k], t.core.q[k], o.sent(k)) else t.core.q[k] == q[k] {
      assert k in first + ks <==> k in first || k in ks;
      OnceEach(ks, i, k, |q|);
    }
  }

  lemma OnceEach(ks: seq<nat>, i: nat, k: nat, n: nat)
    requires Ascending(ks, i + 1, n)
    ensures k <= i ==> k !in ks
  {
  }

  // One turn of the loop.
  lemma TurnOut(s: Client, i: nat, inflight: bool, o: Outside)
    requires i < |s.core.q| && HasBytes(s.core.q) && Outbound(s.core.q[i].ctype)
    ensures var ((u, e), x) := (Turned(s, i, inflight, o), s.core.q[i]);
            && u.timeouts == s.timeouts + Overdue(s.core.q, i, i + 1, o, s.responseTimeout)
            && if Due(s, i, inflight, o) && o.net(i).Breaks? then
              && e == SOCKET_ERROR == u.error
              && Out(s, u, i, [], [CutOff(s.core.base + i, Cut(x, o.net(i).after))], o)
            else e == OK && u.error == s.error && Out(s, u, i, if Due(s, i, inflight, o) then [i] else [], [], o)
  {
    var t := CountTimeout(s, i, o);
    OneOut(t, i, o);
    hide Due, SendOne, Expired, WentOut, Outbound;
    assert Sendings(s.core.q, s.core.base, []) == [];
  }

  lemma OutQueue(s: Client, u: Client, i: nat, first: seq<nat>, o: Outside)
    requires Out(s, u, i, first, [], o) && (first == [] || first == [i])
    ensures |u.core.q| == |s.core.q| && u.core.base == s.core.base && u.responseTimeout == s.responseTimeout
    ensures forall j :: 0 <= j < |s.core.q| && j != i ==> u.core.q[j] == s.core.q[j]
    ensures forall j :: 0 <= j < |s.core.q| ==> u.core.q[j].ctype == s.core.q[j].ctype
  {
  }

  lemma SweepThen(s: Client, u: Client, i: nat, inflight: bool, o: Outside, ks: seq<nat>, hi: nat)
    requires i < |s.core.q| == |u.core.q| && u.responseTimeout == s.responseTimeout && i < hi
    requires forall j :: 0 <= j < |s.core.q| && j != i ==> u.core.q[j] == s.core.q[j]
    requires Due(s, i, inflight, o) ==> o.net(i) == Through
    requires Sweep(u.core.q, i + 1, InFlight(s, i, inflight), o, u.responseTimeout, ks, hi)
    ensures var first := if Due(s, i, inflight, o) then [i] else [];
            Sweep(s.core.q, i, inflight, o, s.responseTimeout, first + ks, hi)
  {
    hide *;
    var first := if Due(s, i, inflight, o) then [i] else [];
    var (all, q, q', n) := (first + ks, s.core.q, u.core.q, s.responseTimeout);
    DueWanted(s, i, inflight, o);
    SweepIs(q', i + 1, InFlight(s, i, inflight), o, n, ks, hi);
    forall m | 0 <= m < |all|
      ensures all[m] < hi && WantedFrom(q, i, inflight, all[m], o, n) && o.net(all[m]) == Through {
      if m >= |first| {
        assert all[m] == ks[m - |first|];
        WantedRange(q', i + 1, InFlight(s, i, inflight), ks[m - |first|], o, n);
        WantedNext(s, u, i, inflight, o, all[m]);
      }
    }
    forall j: nat | j < hi && WantedFrom(q, i, inflight, j, o, n) ensures j in all {
      WantedRange(q, i, inflight, j, o, n);
      if j > i {
        WantedNext(s, u, i, inflight, o, j);
      }
    }
    SweepWhole(q, i, inflight, o, n, all, hi);
  }

  lemma WantedRange(q: seq<Message>, i: nat, inflight: bool, k: nat, o: Outside, timeout: int)
    requires WantedFrom(q, i, inflight, k, o, timeout)
    ensures i <= k < |q|
  {
  }

  lemma SweepIs(q: seq<Message>, i: nat, inflight: bool, o: Outside, timeout: int, ks: seq<nat>, hi: nat)
    requires Sweep(q, i, inflight, o, timeout, ks, hi)
    ensures forall m :: 0 <= m < |ks| ==>
              ks[m] < hi && WantedFrom(q, i, inflight, ks[m], o, timeout) && o.net(ks[m]) == Through
    ensures forall j: nat :: j < hi && WantedFrom(q, i, inflight, j, o, timeout) ==> j in ks
  {
  }

  lemma SweepWhole(q: seq<Message>, i: nat, inflight: bool, o: Outside, timeout: int, ks: seq<nat>, hi: nat)
    requires forall m :: 0 <= m < |ks| ==>
               ks[m] < hi && WantedFrom(q, i, inflight, ks[m], o, timeout) && o.net(ks[m]) == Through
    requires forall j: nat :: j < hi && WantedFrom(q, i, inflight, j, o, timeout) ==> j in ks
    ensures Sweep(q, i, inflight, o, timeout, ks, hi)
  {
  }

  lemma SweptThen(s: Client, u: Client, i: nat, inflight: bool, o: Outside, first: seq<nat>, t: Client, e: Error,
                  ks: seq<nat>, k: nat)
    requires i < |s.core.q| && u.error == s.error && first == if Due(s, i, inflight, o) then [i] else []
    requires Out(s, u, i, first, [], o)
    requires Due(s, i, inflight, o) ==> o.net(i) == Through
    requires u.timeouts == s.timeouts + Overdue(s.core.q, i, i + 1, o, s.responseTimeout)
    requires Swept(u, i + 1, InFlight(s, i, inflight), o, t, e, ks, k)
    ensures Swept(s, i, inflight, o, t, e, first + ks, k)
  {
    hide Out, Sweep, WantedFrom, Overdue, Cut, Due, InFlight, Expired, Qos2;
    OutQueue(s, u, i, first, o);
    if e != OK {
      WantedRange(u.core.q, i + 1, InFlight(s, i, inflight), k, o, u.responseTimeout);
      WantedNext(s, u, i, inflight, o, k);
    }
    OverdueThen(s.core.q, u.core.q, i, if e == OK then k else k + 1, o, s.responseTimeout);
    SweepThen(s, u, i, inflight, o, ks, k);
    OutThen(s, u, t, i, first, ks, if e == OK then []
            else [CutOff(u.core.base + k, Cut(u.core.q[k], o.net(k).after))], o);
  }

  lemma {:induction false} OverdueSame(q: seq<Message>, q': seq<Message>, i: nat, hi: nat, o: Outside, timeout: int)
    requires hi <= |q| == |q'| && forall j :: i <= j < |q| ==> q'[j] == q[j]
    ensures Overdue(q', i, hi, o, timeout) == Overdue(q, i, hi, o, timeout)
    decreases hi - i
  {
    if i < hi {
      OverdueSame(q, q', i + 1, hi, o, timeout);
    }
  }

  lemma OverdueThen(q: seq<Message>, q': seq<Message>, i: nat, hi: nat, o: Outside, timeout: int)
    requires i < hi <= |q| == |q'| && forall j :: i < j < |q| ==> q'[j] == q[j]
    ensures Overdue(q, i, hi, o, timeout) == Overdue(q, i, i + 1, o, timeout) + Overdue(q', i + 1, hi, o, timeout)
  {
    OverdueSame(q, q', i + 1, hi, o, timeout);
    assert Overdue(q, i + 1, i + 1, o, timeout) == 0;
  }

  lemma NothingSwept(s: Client, i: nat, inflight: bool, o: Outside)
    requires i == |s.core.q|
    ensures Swept(s, i, inflight, o, s, OK, [], i)
  {
    assert Sendings(s.core.q, s.core.base, []) == [];
    assert s.core.trace + [] + [] == s.core.trace;
  }

  lemma BrokenSwept(s: Client, i: nat, inflight: bool, o: Outside, u: Client)
    requires i < |s.core.q| && Due(s, i, inflight, o) && o.net(i).Breaks? && s.core.q[i].bytes != []
    requires u.error == SOCKET_ERROR
    requires u.timeouts == s.timeouts + Overdue(s.core.q, i, i + 1, o, s.responseTimeout)
    requires Out(s, u, i, [], [CutOff(s.core.base + i, Cut(s.core.q[i], o.net(i).after))], o)
    ensures Swept(s, i, inflight, o, u, SOCKET_ERROR, [], i)
  {
    DueWanted(s, i, inflight, o);
    hide Out, Cut, Overdue;
  }

  // The loop from position i on sends what is to go out, in order, up to the first failure of the transport.
  lemma {:induction false} SweptLoop(s: Client, i: nat, inflight: bool, o: Outside) returns (ks: seq<nat>, k: nat)
    requires i <= |s.core.q| && HasBytes(s.core.q) && forall j :: 0 <= j < |s.core.q| ==> Outbound(s.core.q[j].ctype)
    ensures var (t, e) := SendFrom(s, i, inflight, o); Swept(s, i, inflight, o, t, e, ks, k)
    decreases |s.core.q| - i
  {
    hide *;
    if i == |s.core.q| {
      ks, k := [], i;
      NothingSwept(s, i, inflight, o);
      NothingLeft(s, i, inflight, o);
    } else {
      BytesAt(s.core.q, i);
      TurnOut(s, i, inflight, o);
      SendFromTurn(s, i, inflight, o);
      var (u, e) := Turned(s, i, inflight, o);
      if Due(s, i, inflight, o) && o.net(i).Breaks? {
        ks, k := [], i;
        BrokenSwept(s, i, inflight, o, u);
      } else {
        var first := if Due(s, i, inflight, o) then [i] else [];
        OutQueue(s, u, i, first, o);
        var later;
        later, k := SweptLoop(u, i + 1, InFlight(s, i, inflight), o);
        ks := first + later;
        var (t, f) := SendFrom(u, i + 1, InFlight(s, i, inflight), o);
        SweptThen(s, u, i, inflight, o, first, t, f, later, k);
      }
    }
  }

  lemma NothingLeft(s: Client, i: nat, inflight: bool, o: Outside)
    requires i == |s.core.q| && HasBytes(s.core.q)
    ensures SendFrom(s, i, inflight, o) == (s, OK)
  {
  }

  lemma BytesAt(q: seq<Message>, i: nat)
    requires i < |q| && HasBytes(q)
    ensures q[i].bytes != []
  {
  }

  // ----- mqtt_sync -----

  // The loop over the whole queue: ks are, in order, the messages that are to
  // go out, and the transport takes them; with k < |q| only those in front of
  // message k, which is to go out too and which the transport fails to take.
  ghost predicate LoopSent(s: Client, o: Outside, t: Client, e: Error, ks: seq<nat>, k: nat) {
    var q := s.core.q;
    && (forall j: nat :: j in ks <==> j < k && Wanted(q, j, o, s.responseTimeout))
    && (forall j: nat :: j in ks ==> o.net(j) == Through)
    && t.timeouts == s.timeouts + Overdue(q, 0, if k < |q| then k + 1 else |q|, o, s.responseTimeout)
    && if k == |q| then e == OK && t.error == s.error && Out(s, t, 0, ks, [], o)
       else
         && Wanted(q, k, o, s.responseTimeout) && o.net(k).Breaks? && e == SOCKET_ERROR == t.error && q[k].bytes != []
         && Out(s, t, 0, ks, [CutOff(s.core.base + k, Cut(q[k], o.net(k).after))], o)
  }

  // Behind the loop: a PINGREQ is queued if the last reading of the clock is
  // later than three quarters of the keep-alive after the last transmission.
  ghost predicate Pinged(t: Client, o: Outside, u: Client, e: Error, h: nat) {
    if o.last > t.timeOfLastSend + t.keepAlive * 3 / 4 then Queueing(t, PingRequest, o.ping.id, u, e, h)
    else u == t && e == OK
  }

  lemma WantedWhole(q: seq<Message>, k: nat, o: Outside, timeout: int)
    ensures WantedFrom(q, 0, false, k, o, timeout) <==> Wanted(q, k, o, timeout)
  {
  }

  lemma SweptIsLoop(s: Client, o: Outside, t: Client, e: Error, ks: seq<nat>, k: nat)
    requires Swept(s, 0, false, o, t, e, ks, k)
    ensures LoopSent(s, o, t, e, ks, k)
  {
    var (q, n) := (s.core.q, s.responseTimeout);
    hide Out, Cut, WantedFrom, Wanted, Overdue;
    WantedRanges(q, o, n);
    forall j: nat ensures WantedFrom(q, 0, false, j, o, n) <==> Wanted(q, j, o, n) {
      WantedWhole(q, j, o, n);
    }
    forall j: nat | j in ks ensures j < k && Wanted(q, j, o, n) && o.net(j) == Through {
      var m :| 0 <= m < |ks| && ks[m] == j;
    }
  }

  lemma WantedRanges(q: seq<Message>, o: Outside, n: int)
    ensures forall j: nat :: Wanted(q, j, o, n) ==> j < |q|
  {
  }

  lemma PingedAfter(t: Client, o: Outside) returns (h: nat)
    ensures var (u, e) := KeptAlive(t, o.last, o.ping); Pinged(t, o, u, e, h)
  {
    hide Queueing, TryPack;
    h := QueueingHolds(t, PingRequest, o.ping);
    QueueingError(t, PingRequest, o.ping.id, TryPack(t, PingRequest, o.ping).0, TryPack(t, PingRequest, o.ping).1, h);
  }

  lemma QueueingError(s: Client, r: Request, id: u16, t: Client, e: Error, h: nat)
    requires Queueing(s, r, id, t, e, h)
    ensures e != OK ==> t.error == e
  {
    hide HasRoom, Says, CompleteFront;
  }

  // The start of an mqtt_sync.
  function Awake(s: Client): Client {
    if s.error == RECONNECTING then s.(error := OK) else s
  }

  lemma AfterReceiving(s: Client, rest: seq<byte>, w: World)
    requires Ok(s)
    ensures |s.inbuf| <= s.insize && HasBytes(Receives(s, rest, w).client.core.q)
    ensures forall j :: 0 <= j < |Receives(s, rest, w).client.core.q| ==>
              Outbound(Receives(s, rest, w).client.core.q[j].ctype)
  {
    hide Inv, WireOk, Advances, RecvFrom, HasBytes, Quiet, Outbound;
    var a := Awake(s);
    RecvAdvances(a, Link(rest + w.arriving, w.ready), w.stales, 0);
    var c := Receives(s, rest, w).client;
    AdvancesInv(s.core, c.core);
    InvHasBytes(c.core);
  }

  lemma SyncIs(s: Client, rest: seq<byte>, w: World)
    requires Ok(s) && |s.inbuf| <= s.insize && HasBytes(Receives(s, rest, w).client.core.q)
    ensures var r := Receives(s, rest, w);
            SyncClient(s, rest, w) ==
            if r.error != OK then (r.client, r.link.rest, r.error)
            else (Send(r.client, w.out).0, r.link.rest, Send(r.client, w.out).1)
  {
    hide Inv, WireOk, RecvFrom, HasBytes, Send;
  }

  lemma SendIs(c: Client, o: Outside)
    requires HasBytes(c.core.q)
    ensures Send(c, o) ==
            if c.error != OK && c.error != SEND_BUFFER_IS_FULL then (c, c.error)
            else
              var (t, e) := SendFrom(c, 0, false, o);
              if e != OK then (t, e) else KeptAlive(t, o.last, o.ping)
  {
    hide SendFrom, KeptAlive, HasBytes;
  }

  lemma LoopStops(s: Client, o: Outside, t: Client, e: Error, ks: seq<nat>, k: nat)
    requires LoopSent(s, o, t, e, ks, k)
    ensures k <= |s.core.q| && (k < |s.core.q| <==> e != OK)
  {
  }

  // What an mqtt_sync does behind its receiving. If that fails, or an error is
  // set that is not a full send buffer, nothing is sent. Otherwise all that is
  // new or overdue goes out once and in the order of the queue, up to the first
  // failure of the transport, and then perhaps a PINGREQ is queued.
  lemma SyncSends(s: Client, rest: seq<byte>, w: World) returns (ks: seq<nat>, k: nat, t: Client, h: nat)
    requires Ok(s)
    ensures |s.inbuf| <= s.insize
    ensures var (r, (u, left, e)) := (Receives(s, rest, w), SyncClient(s, rest, w));
            var c := r.client;
            && left == r.link.rest
            && if r.error != OK then u == c && e == r.error
               else if c.error != OK && c.error != SEND_BUFFER_IS_FULL then u == c && e == c.error
               else if k < |c.core.q| then LoopSent(c, w.out, u, e, ks, k)
               else LoopSent(c, w.out, t, OK, ks, k) && Pinged(t, w.out, u, e, h)
  {
    hide *;
    ks, k, t, h := [], 0, s, 0;
    AfterReceiving(s, rest, w);
    SyncIs(s, rest, w);
    var c := Receives(s, rest, w).client;
    SendIs(c, w.out);
    if c.error == OK || c.error == SEND_BUFFER_IS_FULL {
      ks, k := SweptLoop(c, 0, false, w.out);
      var (v, e) := SendFrom(c, 0, false, w.out);
      t := v;
      SweptIsLoop(c, w.out, t, e, ks, k);
      LoopStops(c, w.out, t, e, ks, k);
      h := PingedAfter(t, w.out);
    }
  }

  lemma InitFields(size: nat, insize: nat, keepAlive: u16, lastSend: nat)
    ensures var s := Init(size, insize, keepAlive, lastSend);
            && s.core == Core([], 0, [], []) && s.inbuf == [] && s.responseTimeout == 30 && s.size == size
            && s.error == CONNECT_NOT_CALLED
  {
  }

  lemma RefusedBefore(s: Client, call: Call, stale: Stale)
    requires !call.CallConnect? && s.error == CONNECT_NOT_CALLED
    ensures Perform(s, call, stale).1 == CONNECT_NOT_CALLED && Perform(s, call, stale).0.core == s.core
  {
    hide Pack;
  }

  lemma SilentBefore(s: Client, rest: seq<byte>, w: World)
    requires Ok(s) && s.error == CONNECT_NOT_CALLED && s.core.trace == []
    ensures SyncClient(s, rest, w).2 != OK
    ensures forall e <- SyncClient(s, rest, w).0.core.trace :: !e.Sent? && !e.CutOff?
  {
    OkInv(s);
    hide Inv, WireOk, RecvFrom, Send, Advances, HasBytes, Outbound;
    AfterReceiving(s, rest, w);
    SyncIs(s, rest, w);
    SendIs(Receives(s, rest, w).client, w.out);
    RecvAdvances(s, Link(rest + w.arriving, w.ready), w.stales, 0);
  }

  // After mqtt_init nothing is queued, messages are to be sent again after 30
  // seconds, and until mqtt_connect every other call is refused and an
  // mqtt_sync sends nothing.
  lemma BeforeConnect(size: nat, insize: nat, keepAlive: u16, lastSend: nat, call: Call, stale: Stale, rest: seq<byte>,
                      w: World)
    requires !call.CallConnect?
    ensures var s := Init(size, insize, keepAlive, lastSend);
            && s.core == Core([], 0, [], []) && s.inbuf == [] && s.responseTimeout == 30 && s.size == size
            && Perform(s, call, stale).1 == CONNECT_NOT_CALLED && Perform(s, call, stale).0.core == s.core
            && Ok(s) && SyncClient(s, rest, w).2 != OK
            && forall e <- SyncClient(s, rest, w).0.core.trace :: !e.Sent? && !e.CutOff?
  {
    hide *;
    InitFields(size, insize, keepAlive, lastSend);
    InitOk(size, insize, keepAlive, lastSend);
    var s := Init(size, insize, keepAlive, lastSend);
    RefusedBefore(s, call, stale);
    SilentBefore(s, rest, w);
  }

  // ----- what the broker reads -----

  // Setting the DUP bit among the flags.
  lemma DupFlags(f: byte)
    ensures var g := WithDup(f);
            && g % 16 == WithDup(f % 16) && Qos(g) == Qos(f) && g % 2 == f % 2 && Flag(g, 8) == 1
  {
    var (h, d, q, r) := (f / 16, Flag(f, 8), Qos(f), f % 2);
    FlagSplit(f);
    assert f % 16 == 8 * d + 2 * q + r;
    FlagBits(d, q, r);
    assert WithDup(f) == 16 * h + 8 + 2 * q + r;
    assert (16 * h + 8 + 2 * q + r) / 2 == 8 * h + 4 + q;
    assert (16 * h + 8 + 2 * q + r) / 8 == 2 * h + 1;
  }

  function Duplicate(r: Request): Request
    requires r.PublishRequest?
  {
    r.(publishFlags := WithDup(r.publishFlags))
  }

  lemma DupMeaning(r: Request)
    requires r.PublishRequest? && Qos(r.publishFlags) == 1
    ensures Meaning(Duplicate(r)) == Repeated(Meaning(r)) && (LengthsFit(r) ==> LengthsFit(Duplicate(r)))
  {
    DupFlags(r.publishFlags);
    hide WithDup;
  }

  lemma DupParts(r: Request)
    requires r.PublishRequest? && Qos(r.publishFlags) == 1
    ensures var r' := Duplicate(r);
            && FlagsOf(r') == WithDup(FlagsOf(r)) && Body(r') == Body(r) && RemainingLength(r') == RemainingLength(r)
            && Rejection(r') == OK && TypeOf(r') == TypeOf(r) == PUBLISH && HeaderViolation(PUBLISH, FlagsOf(r')) == OK
  {
    DupFlags(r.publishFlags);
    hide WithDup, WithoutDup, PackString;
  }

  lemma DupFirst(f: nat, n: nat, b: seq<byte>)
    requires f < 16
    ensures var p := Header(PUBLISH, f, n) + b;
            WithDup(f) < 16 && p[0 := WithDup(p[0])] == Header(PUBLISH, WithDup(f), n) + b
  {
    hide WithDup, EncodeLength;
    DupHeader(PUBLISH, f);
  }

  // The bytes of a QoS 1 PUBLISH with the DUP bit are its packet with that flag.
  lemma DupEncodes(bytes: seq<byte>, r: Request)
    requires Encodes(bytes, r) && r.PublishRequest? && Qos(r.publishFlags) == 1
    ensures bytes != [] && Encodes(bytes[0 := WithDup(bytes[0])], Duplicate(r))
    ensures Meaning(Duplicate(r)) == Repeated(Meaning(r)) && (LengthsFit(r) ==> LengthsFit(Duplicate(r)))
  {
    hide Header, Body, Qos, Flag, WithDup, FlagsOf, Meaning, RemainingLength, LengthsFit, HeaderViolation, TypeOf,
         Rejection, Duplicate;
    DupMeaning(r);
    DupParts(r);
    DupFirst(FlagsOf(r), RemainingLength(r), Body(r));
  }

  lemma IssuedQos(x: Issue)
    requires IssueOk(x)
    ensures Encodes(x.bytes, x.request) && Sendable(x.request)
    ensures x.ctype == PUBLISH <==> x.request.PublishRequest?
    ensures x.request.PublishRequest? ==> Qos(x.bytes[0]) == Qos(x.request.publishFlags) <= 2
  {
    var r := x.request;
    FirstByteOf(TypeOf(r), FlagsOf(r));
    if r.PublishRequest? {
      PublishFlags(r.publishFlags);
    }
    hide Body, RemainingLength, FlagsOf;
  }

  lemma AgainSays(x: Issue, rest: seq<byte>)
    requires IssueOk(x) && LengthsFit(x.request)
    ensures var r := x.request;
            ReadPacket(Again(x) + rest) == Taken(if Conforms(r) then Some(Repeated(Meaning(r))) else None, rest)
  {
    var r := x.request;
    IssuedQos(x);
    hide IssueOk, ReadPacket, Encodes, LengthsFit, Duplicate;
    if x.ctype == PUBLISH && Qos(x.bytes[0]) == 1 {
      DupEncodes(x.bytes, r);
      EncodedMeaning(Again(x), Duplicate(r), rest);
    } else {
      EncodedMeaning(x.bytes, r, rest);
    }
  }

  // Whatever is sent in a run is read by a broker as what was asked for when
  // it was queued, marked as a duplicate when a QoS 1 PUBLISH is sent again,
  // provided that its strings fit their lengths.
  lemma SentSays(s: Client, j: nat, rest: seq<byte>)
    requires Reachable(s) && j < |s.core.trace| && s.core.trace[j].Sent?
    ensures var e := s.core.trace[j];
            && e.serial < |s.core.issued|
            && var r := s.core.issued[e.serial].request;
               LengthsFit(r) ==>
                 ReadPacket(e.bytes + rest)
                 == Taken(if !Conforms(r) then None
                          else Some(if e.first then Meaning(r) else Repeated(Meaning(r))), rest)
  {
    ReachableOk(s);
    hide Pairs, Causes, Reception, WireOk, Reachable, Ordering, Encodes;
    var e := s.core.trace[j];
    assert EventOk(s.core, e);
    var x := s.core.issued[e.serial];
    hide Inv, ReadPacket, Conforms, Meaning, LengthsFit, WithDup;
    if LengthsFit(x.request) {
      if e.first {
        EncodedMeaning(x.bytes, x.request, rest);
      } else {
        AgainSays(x, rest);
      }
    }
  }
}
