// The broker's stream over any number of calls of __mqtt_recv: a call ends at
// the first packet that has not arrived completely, and a later one goes on.
module Streams {
  import opened Types
  import opened Wire
  import opened WireProofs
  import opened Protocol
  import opened Invariants
  import opened Steps
  import opened Receive
  import opened Runs

  // What one call finds: the bytes that have arrived since the last one and how its reads cut them up.
  datatype Delivery = Delivery(arriving: seq<byte>, ready: seq<Read>)

  function Arrived(ds: seq<Delivery>): seq<byte> {
    if ds == [] then [] else ds[0].arriving + Arrived(ds[1..])
  }

  // __mqtt_recv called once for every delivery until one call fails. What lies
  // in the memory of new headers goes by the number of packets consumed before.
  function Calls(s: Client, rest: seq<byte>, ds: seq<Delivery>, stales: nat -> Stale): (r: Received)
    requires |s.inbuf| <= s.insize
    ensures |r.client.inbuf| <= r.client.insize
    decreases |ds|
  {
    if ds == [] then Received(s, Link(rest, []), OK)
    else
      RecvFits(s, Link(rest + ds[0].arriving, ds[0].ready), stales, |s.taken|);
      var r := RecvFrom(s, Link(rest + ds[0].arriving, ds[0].ready), stales, |s.taken|);
      if r.error != OK then r else Calls(r.client, r.link.rest, ds[1..], stales)
  }

  lemma {:induction false} RecvFits(s: Client, l: Link, stales: nat -> Stale, i: nat)
    requires |s.inbuf| <= s.insize
    ensures var c := RecvFrom(s, l, stales, i).client; |c.inbuf| <= c.insize
    decreases |l.rest| + |s.inbuf|
  {
    hide Unpack, Consume, AfterRead, Arriving;
    var (buf, l') := (Buffered(s, l), Onward(s, l));
    if !Fails(l) && Unpack(buf).Decoded? {
      RecvTurn(s, l, stales, i);
      var (t, e) := Consume(s, buf, Unpack(buf).response, Unpack(buf).consumed, stales(i));
      if e == OK {
        RecvFits(t, l', stales, i + 1);
      }
    }
  }

  // The bytes at hand and those to arrive are the front of a stream of complete packets.
  ghost predicate OnStream(s: Client, rest: seq<byte>, ds: seq<Delivery>, ps: seq<seq<byte>>) {
    s.inbuf + rest + Arrived(ds) <= Concat(ps) && AllComplete(ps)
  }

  lemma OnStreamIs(s: Client, rest: seq<byte>, ds: seq<Delivery>, ps: seq<seq<byte>>)
    ensures OnStream(s, rest, ds, ps) <==> s.inbuf + rest + Arrived(ds) <= Concat(ps) && AllComplete(ps)
  {
    hide AllComplete, Arrived, Concat;
  }

  // The calls on a stream of complete packets, m of which they consumed.
  ghost predicate Followed(s: Client, rest: seq<byte>, ds: seq<Delivery>, r: Received, ps: seq<seq<byte>>, m: nat) {
    var all := s.inbuf + rest + Arrived(ds);
    && m <= |ps| && r.client.taken == s.taken + ps[..m]
    && Concat(ps[..m]) + r.client.inbuf <= all && r.client.inbuf <= Concat(ps[m..])
    && (r.error == OK ==> all == Concat(ps[..m]) + r.client.inbuf + r.link.rest)
    && (r.error == OK && ds != [] ==> m == |ps| || |r.client.inbuf| < |ps[m]|)
  }

  lemma AheadIs(s: Client, l: Link, ps: seq<seq<byte>>)
    ensures Ahead(s, l, ps) <==> s.inbuf + l.rest <= Concat(ps) && AllComplete(ps)
  {
    hide AllComplete, Concat;
  }

  lemma NothingCalled(s: Client, rest: seq<byte>, ps: seq<seq<byte>>)
    requires |s.inbuf| <= s.insize && s.inbuf + rest <= Concat(ps)
    ensures Followed(s, rest, [], Received(s, Link(rest, []), OK), ps, 0)
  {
    assert ps[..0] == [] && ps[0..] == ps;
    assert s.inbuf + rest + [] == s.inbuf + rest;
    assert [] + s.inbuf == s.inbuf && s.inbuf == (s.inbuf + rest)[..|s.inbuf|] == Concat(ps)[..|s.inbuf|];
  }

  lemma FirstFails(s: Client, rest: seq<byte>, ds: seq<Delivery>, r: Received, ps: seq<seq<byte>>, m: nat)
    requires ds != [] && r.error != OK && Framed(s, Link(rest + ds[0].arriving, ds[0].ready), r, ps, m)
    ensures Followed(s, rest, ds, r, ps, m)
  {
    var (a, b) := (s.inbuf + (rest + ds[0].arriving), Arrived(ds[1..]));
    assert s.inbuf + rest + Arrived(ds) == a + b;
    Longer(Concat(ps[..m]) + r.client.inbuf, a, b);
  }

  lemma Longer(p: seq<byte>, a: seq<byte>, b: seq<byte>)
    requires p <= a
    ensures p <= a + b
  {
  }

  lemma FrontThen(ps: seq<seq<byte>>, m: nat, n: nat)
    requires m <= |ps| && n <= |ps[m..]|
    ensures ps[..m + n] == ps[..m] + ps[m..][..n]
  {
  }

  lemma Regroup(a: seq<byte>, b: seq<byte>, c: seq<byte>, d: seq<byte>)
    ensures a + b + (c + d) == a + (b + c) + d
  {
  }

  lemma {:induction false} RestOfStream(front: seq<byte>, later: seq<byte>, inbuf: seq<byte>, tail: seq<byte>,
                                        ps: seq<seq<byte>>, m: nat)
    requires m <= |ps| && front + later <= Concat(ps) && front == Concat(ps[..m]) + inbuf + tail
    ensures inbuf + tail + later <= Concat(ps[m..])
  {
    ConcatSplit(ps, m);
    hide Concat;
    assert front + later == Concat(ps[..m]) + (inbuf + tail + later);
    Cancel(Concat(ps[..m]), inbuf + tail + later, Concat(ps[m..]));
  }

  lemma Cancel(p: seq<byte>, a: seq<byte>, b: seq<byte>)
    requires p + a <= p + b
    ensures a <= b
  {
    assert a == (p + a)[|p|..] && (p + b)[..|p + a|][|p|..] == b[..|a|];
  }

  lemma FollowedThen(s: Client, rest: seq<byte>, ds: seq<Delivery>, r: Received, t: Received, ps: seq<seq<byte>>,
                     m: nat, k: nat)
    requires ds != [] && r.error == OK && Framed(s, Link(rest + ds[0].arriving, ds[0].ready), r, ps, m)
    requires Followed(r.client, r.link.rest, ds[1..], t, ps[m..], k)
    requires ds[1..] == [] ==> t.client == r.client
    ensures Followed(s, rest, ds, t, ps, m + k)
  {
    FramedFacts(s, Link(rest + ds[0].arriving, ds[0].ready), r, ps, m);
    FollowedIs(r.client, r.link.rest, ds[1..], t, ps[m..], k);
    FollowedIs(s, rest, ds, t, ps, m + k);
    ArrivedTurn(ds);
    hide *;
    PacketsThen(s.taken, ps, m, k);
    Splits(s.inbuf, rest, ds[0].arriving, Arrived(ds[1..]), Concat(ps[..m]), r.client.inbuf, r.link.rest,
           Concat(ps[m..][..k]), t.client.inbuf, t.link.rest);
    if ds[1..] == [] {
      assert |r.client.taken| == |t.client.taken|;
    }
  }

  lemma PacketsThen(taken: seq<seq<byte>>, ps: seq<seq<byte>>, m: nat, k: nat)
    requires m <= |ps| && k <= |ps[m..]|
    ensures ps[m + k..] == ps[m..][k..] && (k == 0 ==> m + k == m)
    ensures taken + ps[..m] + ps[m..][..k] == taken + ps[..m + k]
    ensures Concat(ps[..m + k]) == Concat(ps[..m]) + Concat(ps[m..][..k])
    ensures k < |ps[m..]| ==> ps[m..][k] == ps[m + k]
  {
    hide Concat;
    ConcatAdd(ps[..m], ps[m..][..k]);
    assert ps[..m + k] == ps[..m] + ps[m..][..k];
  }

  lemma FollowedIs(s: Client, rest: seq<byte>, ds: seq<Delivery>, r: Received, ps: seq<seq<byte>>, m: nat)
    ensures var all := s.inbuf + rest + Arrived(ds);
            Followed(s, rest, ds, r, ps, m) <==>
            && m <= |ps| && r.client.taken == s.taken + ps[..m]
            && Concat(ps[..m]) + r.client.inbuf <= all && r.client.inbuf <= Concat(ps[m..])
            && (r.error == OK ==> all == Concat(ps[..m]) + r.client.inbuf + r.link.rest)
            && (r.error == OK && ds != [] ==> m == |ps| || |r.client.inbuf| < |ps[m]|)
  {
    hide Concat, Arrived;
  }

  // Bytes received in a first call and later: p and q are the packets consumed.
  lemma Splits(s: seq<byte>, rest: seq<byte>, first: seq<byte>, later: seq<byte>, p: seq<byte>, inbuf: seq<byte>,
               tail: seq<byte>, q: seq<byte>, inbuf': seq<byte>, tail': seq<byte>)
    requires s + (rest + first) == p + inbuf + tail && q + inbuf' <= inbuf + tail + later
    ensures (p + q) + inbuf' <= s + rest + (first + later)
    ensures inbuf + tail + later == q + inbuf' + tail' ==> s + rest + (first + later) == (p + q) + inbuf' + tail'
  {
    var x := inbuf + tail + later;
    assert s + rest + (first + later) == s + (rest + first) + later == p + x;
    Extend(p, q + inbuf', x);
    assert p + (q + inbuf') == (p + q) + inbuf';
    assert p + (q + inbuf' + tail') == (p + q) + inbuf' + tail';
  }

  lemma Extend(p: seq<byte>, a: seq<byte>, b: seq<byte>)
    requires a <= b
    ensures p + a <= p + b
  {
  }

  lemma {:induction false} ConcatAdd(a: seq<seq<byte>>, b: seq<seq<byte>>)
    ensures Concat(a + b) == Concat(a) + Concat(b)
  {
    ConcatSplit(a + b, |a|);
    assert (a + b)[..|a|] == a && (a + b)[|a|..] == b;
  }

  lemma {:induction false} HandleAllThen(s: Client, ps: seq<seq<byte>>, qs: seq<seq<byte>>, stales: nat -> Stale,
                                         i: nat)
    requires AllComplete(ps)
    ensures var (t, e) := HandleAll(s, ps, stales, i);
            HandleAll(s, ps + qs, stales, i) == if e != OK then (t, e) else HandleAll(t, qs, stales, i + |ps|)
    decreases |ps|
  {
    hide Handle, Unpack;
    if ps == [] {
      assert ps + qs == qs;
    } else {
      assert (ps + qs)[0] == ps[0] && (ps + qs)[1..] == ps[1..] + qs;
      assert WholePacket(ps[0]);
      var (t, e) := Handle(s, Unpack(ps[0]).response, stales(i));
      if e == OK {
        HandleAllThen(t, ps[1..], qs, stales, i + 1);
      }
    }
  }

  // t is s, apart from the receive side, after handling m packets one by one.
  ghost predicate OneByOne(s: Client, t: Client, ps: seq<seq<byte>>, m: nat, stales: nat -> Stale, b: seq<byte>,
                           k: seq<seq<byte>>) {
    m <= |ps| && HandleAll(Holding(s, b, k), ps[..m], stales, |s.taken|) == (Holding(t, b, k), OK)
  }

  lemma OneByOneIs(s: Client, t: Client, ps: seq<seq<byte>>, m: nat, stales: nat -> Stale, b: seq<byte>,
                   k: seq<seq<byte>>)
    ensures OneByOne(s, t, ps, m, stales, b, k) <==>
            m <= |ps| && HandleAll(Holding(s, b, k), ps[..m], stales, |s.taken|) == (Holding(t, b, k), OK)
  {
    hide HandleAll, Holding;
  }

  // However the stream is divided among calls and reads, the packets consumed
  // are the next ones of the stream, the bytes received are the packets
  // consumed and the buffer, and after a successful call the buffer holds no
  // complete packet; and the calls have the effect of handling the packets one by one.
  lemma {:induction false} CallsFollow(s: Client, rest: seq<byte>, ds: seq<Delivery>, stales: nat -> Stale,
                                       ps: seq<seq<byte>>, b: seq<byte>, k: seq<seq<byte>>) returns (m: nat)
    requires |s.inbuf| <= s.insize && OnStream(s, rest, ds, ps)
    ensures Followed(s, rest, ds, Calls(s, rest, ds, stales), ps, m)
    ensures Calls(s, rest, ds, stales).error == OK
            ==> OneByOne(s, Calls(s, rest, ds, stales).client, ps, m, stales, b, k)
    decreases |ds|
  {
    hide *;
    ArrivedTurn(ds);
    OnStreamIs(s, rest, ds, ps);
    CallsTurn(s, rest, ds, stales);
    if ds == [] {
      m := 0;
      assert ps[..0] == [] && s.inbuf + rest + [] == s.inbuf + rest;
      NothingCalled(s, rest, ps);
      NothingHandled(Holding(s, b, k), stales, |s.taken|);
      OneByOneIs(s, s, ps, 0, stales, b, k);
    } else {
      var (l, later) := (Link(rest + ds[0].arriving, ds[0].ready), Arrived(ds[1..]));
      Regroup(s.inbuf, rest, ds[0].arriving, later);
      Shorter(s.inbuf + l.rest, later, Concat(ps));
      AheadIs(s, l, ps);
      var r := RecvFrom(s, l, stales, |s.taken|);
      if r.error != OK {
        m := RecvFraming(s, l, stales, |s.taken|, ps);
        FirstFails(s, rest, ds, r, ps, m);
      } else {
        m := RecvIsHandleAll(s, l, stales, |s.taken|, ps, b, k);
        FramedFacts(s, l, r, ps, m);
        RestOfStream(s.inbuf + l.rest, later, r.client.inbuf, r.link.rest, ps, m);
        CompleteBehind(ps, m);
        OnStreamIs(r.client, r.link.rest, ds[1..], ps[m..]);
        var n := CallsFollow(r.client, r.link.rest, ds[1..], stales, ps[m..], b, k);
        var t := Calls(r.client, r.link.rest, ds[1..], stales);
        CallsTurn(r.client, r.link.rest, ds[1..], stales);
        FollowedThen(s, rest, ds, r, t, ps, m, n);
        FollowedFacts(r.client, r.link.rest, ds[1..], t, ps[m..], n);
        HandleAllThen(Holding(s, b, k), ps[..m], ps[m..][..n], stales, |s.taken|);
        FrontThen(ps, m, n);
        OneByOneIs(r.client, t.client, ps[m..], n, stales, b, k);
        OneByOneIs(s, t.client, ps, m + n, stales, b, k);
        m := m + n;
      }
    }
  }

  lemma ArrivedTurn(ds: seq<Delivery>)
    ensures Arrived(ds) == if ds == [] then [] else ds[0].arriving + Arrived(ds[1..])
  {
  }

  lemma NothingHandled(s: Client, stales: nat -> Stale, i: nat)
    ensures HandleAll(s, [], stales, i) == (s, OK)
  {
  }

  lemma CallsTurn(s: Client, rest: seq<byte>, ds: seq<Delivery>, stales: nat -> Stale)
    requires |s.inbuf| <= s.insize
    ensures ds == [] ==> Calls(s, rest, ds, stales) == Received(s, Link(rest, []), OK)
    ensures ds != [] ==>
              var r := RecvFrom(s, Link(rest + ds[0].arriving, ds[0].ready), stales, |s.taken|);
              && |r.client.inbuf| <= r.client.insize
              && Calls(s, rest, ds, stales) == if r.error != OK then r
                 else Calls(r.client, r.link.rest, ds[1..], stales)
  {
    hide RecvFrom;
    if ds != [] {
      RecvFits(s, Link(rest + ds[0].arriving, ds[0].ready), stales, |s.taken|);
    }
  }

  lemma Shorter(a: seq<byte>, b: seq<byte>, s: seq<byte>)
    requires a + b <= s
    ensures a <= s
  {
    assert a == (a + b)[..|a|] == s[..|a|];
  }

  lemma FramedFacts(s: Client, l: Link, r: Received, ps: seq<seq<byte>>, m: nat)
    requires Framed(s, l, r, ps, m) && r.error == OK
    ensures m <= |ps| && s.inbuf + l.rest == Concat(ps[..m]) + r.client.inbuf + r.link.rest
    ensures |r.client.inbuf| <= r.client.insize && r.client.taken == s.taken + ps[..m]
    ensures m == |ps| || |r.client.inbuf| < |ps[m]|
  {
  }

  lemma FollowedFacts(s: Client, rest: seq<byte>, ds: seq<Delivery>, r: Received, ps: seq<seq<byte>>, m: nat)
    requires Followed(s, rest, ds, r, ps, m)
    ensures m <= |ps| && r.client.taken == s.taken + ps[..m]
    ensures r.error == OK ==> s.inbuf + rest + Arrived(ds) == Concat(ps[..m]) + r.client.inbuf + r.link.rest
    ensures r.error == OK && ds != [] ==> m == |ps| || |r.client.inbuf| < |ps[m]|
  {
  }

  lemma CompleteBehind(ps: seq<seq<byte>>, m: nat)
    requires AllComplete(ps) && m <= |ps|
    ensures AllComplete(ps[m..]) && AllComplete(ps[..m])
  {
  }

  // Two sequences of calls that succeed and have received the same bytes of
  // the same stream leave the same client behind, wherever calls and reads
  // divide the stream, inside packets included.
  lemma {:induction false} SegmentationIrrelevant(s: Client, rest: seq<byte>, ds: seq<Delivery>, rest': seq<byte>,
                                                  ds': seq<Delivery>, stales: nat -> Stale, ps: seq<seq<byte>>)
    requires |s.inbuf| <= s.insize && OnStream(s, rest, ds, ps) && OnStream(s, rest', ds', ps) && ds != [] && ds' != []
    requires var (r, r') := (Calls(s, rest, ds, stales), Calls(s, rest', ds', stales));
             && r.error == OK && r'.error == OK
             && |rest| + |Arrived(ds)| - |r.link.rest| == |rest'| + |Arrived(ds')| - |r'.link.rest|
    ensures Calls(s, rest, ds, stales).client == Calls(s, rest', ds', stales).client
  {
    hide *;
    var (r, r') := (Calls(s, rest, ds, stales), Calls(s, rest', ds', stales));
    var m := CallsFollow(s, rest, ds, stales, ps, [], []);
    var m' := CallsFollow(s, rest', ds', stales, ps, [], []);
    FollowedSame(s, rest, ds, r, m, rest', ds', r', m', ps);
    OneByOneSame(s, r.client, r'.client, ps, m, stales);
  }

  lemma FollowedSame(s: Client, rest: seq<byte>, ds: seq<Delivery>, r: Received, m: nat,
                     rest': seq<byte>, ds': seq<Delivery>, r': Received, m': nat, ps: seq<seq<byte>>)
    requires OnStream(s, rest, ds, ps) && Followed(s, rest, ds, r, ps, m) && r.error == OK && ds != []
    requires OnStream(s, rest', ds', ps) && Followed(s, rest', ds', r', ps, m') && r'.error == OK && ds' != []
    requires |rest| + |Arrived(ds)| - |r.link.rest| == |rest'| + |Arrived(ds')| - |r'.link.rest|
    ensures m == m' && r.client.inbuf == r'.client.inbuf && r.client.taken == r'.client.taken
  {
    hide AllComplete, Arrived, Concat;
    SamePackets(ps, m, r.client.inbuf, r.link.rest, m', r'.client.inbuf, r'.link.rest);
  }

  // The same number of bytes of one stream, split into whole packets and less than another one.
  lemma SamePackets(ps: seq<seq<byte>>, m: nat, x: seq<byte>, t: seq<byte>, m': nat, x': seq<byte>, t': seq<byte>)
    requires m <= |ps| && m' <= |ps| && Concat(ps[..m]) + x + t <= Concat(ps)
             && Concat(ps[..m']) + x' + t' <= Concat(ps)
    requires |Concat(ps[..m])| + |x| == |Concat(ps[..m'])| + |x'|
    requires (m == |ps| || |x| < |ps[m]|) && (m' == |ps| || |x'| < |ps[m']|)
    ensures m == m' && x == x'
  {
    hide *;
    if m < m' {
      ConcatLonger(ps, m, m');
    } else if m' < m {
      ConcatLonger(ps, m', m);
    }
    Shorter(Concat(ps[..m]) + x, t, Concat(ps));
    Shorter(Concat(ps[..m']) + x', t', Concat(ps));
    Tails(Concat(ps[..m]), x, x', Concat(ps));
  }

  lemma Tails(p: seq<byte>, a: seq<byte>, b: seq<byte>, s: seq<byte>)
    requires p + a <= s && p + b <= s && |a| == |b|
    ensures a == b
  {
    assert a == s[|p|..|p| + |a|] && b == s[|p|..|p| + |b|];
  }

  lemma OneByOneSame(s: Client, a: Client, b: Client, ps: seq<seq<byte>>, m: nat, stales: nat -> Stale)
    requires OneByOne(s, a, ps, m, stales, [], []) && OneByOne(s, b, ps, m, stales, [], [])
    requires a.inbuf == b.inbuf && a.taken == b.taken
    ensures a == b
  {
    hide HandleAll;
    assert a == Holding(Holding(a, [], []), a.inbuf, a.taken);
    assert b == Holding(Holding(b, [], []), b.inbuf, b.taken);
  }

  // ----- the stream in a run -----

  // All the broker has sent by the end of these operations.
  ghost function Broadcast(ops: seq<Op>): seq<byte> {
    if ops == [] then []
    else
      var (front, op) := (Broadcast(ops[..|ops| - 1]), ops[|ops| - 1]);
      match op case Sync(w) => front + w.arriving case _ => front
  }

  ghost predicate NoReadFails(ops: seq<Op>) {
    forall i {:trigger ops[i]} :: 0 <= i < |ops| && ops[i].Sync? ==> Intact(ops[i].world.ready)
  }

  // The __mqtt_recv of an mqtt_sync.
  ghost function Receives(s: Client, rest: seq<byte>, w: World): Received
    requires |s.inbuf| <= s.insize
  {
    RecvFrom(if s.error == RECONNECTING then s.(error := OK) else s, Link(rest + w.arriving, w.ready), w.stales, 0)
  }

  // What follows it in the mqtt_sync leaves the receive side alone.
  lemma SyncReceives(s: Client, rest: seq<byte>, w: World)
    requires Ok(s)
    ensures |s.inbuf| <= s.insize
    ensures var (u, left, e) := SyncClient(s, rest, w);
            var r := Receives(s, rest, w);
            u.taken == r.client.taken && u.inbuf == r.client.inbuf && left == r.link.rest
  {
    hide RecvFrom, Send, Inv, Quiet, Advances, WireOk, HasBytes;
    var t := if s.error == RECONNECTING then s.(error := OK) else s;
    var l := Link(rest + w.arriving, w.ready);
    var r := RecvFrom(t, l, w.stales, 0);
    if r.error == OK {
      RecvAdvances(t, l, w.stales, 0);
      AdvancesInv(t.core, r.client.core);
      InvHasBytes(r.client.core);
      SendKeepsBuffer(r.client, w.out);
    }
  }

  // One mqtt_sync on a stream of complete packets: whatever it does besides, it consumes the next of them.
  lemma SyncFollows(s: Client, rest: seq<byte>, w: World, ps: seq<seq<byte>>) returns (k: nat)
    requires Ok(s) && s.inbuf + (rest + w.arriving) <= Concat(ps) && AllComplete(ps) && Intact(w.ready)
    ensures var (u, left, e) := SyncClient(s, rest, w);
            k <= |ps| && u.taken == s.taken + ps[..k]
              && s.inbuf + (rest + w.arriving) == Concat(ps[..k]) + u.inbuf + left
  {
    SyncReceives(s, rest, w);
    hide Ok, SyncClient, RecvFrom, Concat, AllComplete, Intact;
    var t := if s.error == RECONNECTING then s.(error := OK) else s;
    k := RecvFraming(t, Link(rest + w.arriving, w.ready), w.stales, 0, ps);
  }

  // The stages of a run keep in step with the stream.
  ghost predicate InStep(a: Stage, sent: seq<byte>, ps: seq<seq<byte>>, m: nat) {
    m <= |ps| && a.client.taken == ps[..m] && sent == Concat(ps[..m]) + a.client.inbuf + a.rest
  }

  lemma NothingInStep(a: Stage, ops: seq<Op>, ps: seq<seq<byte>>)
    requires a.client.taken == [] && a.client.inbuf == [] && a.rest == []
    ensures InStep(a, Broadcast(ops[..0]), ps, 0)
  {
    assert ps[..0] == [];
  }

  lemma ChainSize(run: seq<Stage>, ops: seq<Op>)
    requires Chain(run, ops)
    ensures |run| == |ops| + 1
  {
  }

  // The last stage of the first n, and what the broker has sent by then.
  lemma ChainStage(run: seq<Stage>, ops: seq<Op>, n: nat)
    requires Chain(run, ops) && 0 < n <= |ops| && NoReadFails(ops)
    ensures |run| == |ops| + 1
    ensures var (a, op) := (run[n - 1], ops[n - 1]);
            && Follows(a, op, run[n]) && (op.Sync? ==> Intact(op.world.ready))
            && Broadcast(ops[..n]) == Broadcast(ops[..n - 1]) + if op.Sync? then op.world.arriving else []
  {
    hide Follows, Intact;
    assert ops[..n][..n - 1] == ops[..n - 1] && ops[..n][n - 1] == ops[n - 1];
    BroadcastTurn(ops[..n]);
  }

  lemma {:induction false} ChainInStep(run: seq<Stage>, ops: seq<Op>, n: nat, ps: seq<seq<byte>>) returns (m: nat)
    requires Chain(run, ops) && n <= |ops| && NoReadFails(ops) && AllComplete(ps) && Broadcast(ops[..n]) <= Concat(ps)
    requires run[0].client.taken == [] && run[0].client.inbuf == [] && run[0].rest == []
    ensures InStep(run[n], Broadcast(ops[..n]), ps, m)
  {
    ChainSize(run, ops);
    hide *;
    if n == 0 {
      m := 0;
      NothingInStep(run[0], ops, ps);
    } else {
      ChainStage(run, ops, n);
      var (a, op, b) := (run[n - 1], ops[n - 1], run[n]);
      var sent := Broadcast(ops[..n - 1]);
      Shorter(sent, if op.Sync? then op.world.arriving else [], Concat(ps));
      m := ChainInStep(run, ops, n - 1, ps);
      m := StageInStep(a, op, b, sent, ps, m);
    }
  }

  lemma BroadcastTurn(ops: seq<Op>)
    requires ops != []
    ensures var (front, op) := (Broadcast(ops[..|ops| - 1]), ops[|ops| - 1]);
            Broadcast(ops) == front + if op.Sync? then op.world.arriving else []
  {
    assert Broadcast(ops[..|ops| - 1]) + [] == Broadcast(ops[..|ops| - 1]);
  }

  lemma StageInStep(a: Stage, op: Op, b: Stage, sent: seq<byte>, ps: seq<seq<byte>>, m: nat) returns (k: nat)
    requires Follows(a, op, b) && InStep(a, sent, ps, m) && AllComplete(ps) && (op.Sync? ==> Intact(op.world.ready))
    requires sent + (if op.Sync? then op.world.arriving else []) <= Concat(ps)
    ensures InStep(b, sent + if op.Sync? then op.world.arriving else [], ps, k)
  {
    hide Ok, Perform, SyncClient, InStep, AllComplete, Concat, Intact;
    match op {
      case Invoke(call, stale) =>
        PerformKeepsBuffer(a.client, call, stale);
        assert sent + [] == sent;
        k := m;
        InStepKept(a, b, sent, ps, m);
      case Sync(w) =>
        InStepAhead(a, w.arriving, sent, ps, m);
        CompleteBehind(ps, m);
        var j := SyncFollows(a.client, a.rest, w, ps[m..]);
        k := m + j;
        InStepThen(a, w.arriving, b, sent, ps, m, j);
    }
  }

  lemma InStepKept(a: Stage, b: Stage, sent: seq<byte>, ps: seq<seq<byte>>, m: nat)
    requires InStep(a, sent, ps, m) && b.client.taken == a.client.taken && b.client.inbuf == a.client.inbuf
             && b.rest == a.rest
    ensures InStep(b, sent, ps, m)
  {
  }

  // What arrives next is the next part of the stream.
  lemma InStepAhead(a: Stage, x: seq<byte>, sent: seq<byte>, ps: seq<seq<byte>>, m: nat)
    requires InStep(a, sent, ps, m) && sent + x <= Concat(ps)
    ensures m <= |ps| && a.client.inbuf + (a.rest + x) <= Concat(ps[m..])
  {
    InStepIs(a, sent, ps, m);
    hide *;
    RestOfStream(sent, x, a.client.inbuf, a.rest, ps, m);
    assert a.client.inbuf + a.rest + x == a.client.inbuf + (a.rest + x);
  }

  // Consuming the next j packets keeps in step.
  lemma InStepThen(a: Stage, x: seq<byte>, b: Stage, sent: seq<byte>, ps: seq<seq<byte>>, m: nat, j: nat)
    requires InStep(a, sent, ps, m) && m + j <= |ps| && b.client.taken == a.client.taken + ps[m..][..j]
    requires a.client.inbuf + (a.rest + x) == Concat(ps[m..][..j]) + b.client.inbuf + b.rest
    ensures InStep(b, sent + x, ps, m + j)
  {
    InStepIs(a, sent, ps, m);
    InStepIs(b, sent + x, ps, m + j);
    hide *;
    PacketsThen([], ps, m, j);
    assert [] + ps[..m] == ps[..m] && [] + ps[..m + j] == ps[..m + j];
    BytesThen(sent, x, Concat(ps[..m]), a.client.inbuf, a.rest, Concat(ps[m..][..j]), b.client.inbuf, b.rest);
  }

  lemma InStepIs(a: Stage, sent: seq<byte>, ps: seq<seq<byte>>, m: nat)
    ensures InStep(a, sent, ps, m) <==>
            m <= |ps| && a.client.taken == ps[..m] && sent == Concat(ps[..m]) + a.client.inbuf + a.rest
  {
    hide Concat;
  }

  lemma BytesThen(sent: seq<byte>, x: seq<byte>, p: seq<byte>, inbuf: seq<byte>, rest: seq<byte>, q: seq<byte>,
                  inbuf': seq<byte>, rest': seq<byte>)
    requires sent == p + inbuf + rest && inbuf + (rest + x) == q + inbuf' + rest'
    ensures sent + x == (p + q) + inbuf' + rest'
  {
    assert sent + x == p + (inbuf + (rest + x)) == p + (q + inbuf' + rest');
  }

  // In any run, whatever the application and the sending side do in between,
  // whatever errors the handling of a packet meets and however the stream is
  // divided, as long as no read fails: the packets consumed are the first ones
  // of the stream, and what the broker has sent is these, the buffer, and what is still unread.
  lemma StreamInRun(size: nat, insize: nat, keepAlive: u16, lastSend: nat, ops: seq<Op>, s: Client, left: seq<byte>,
                    ps: seq<seq<byte>>)
    returns (m: nat)
    requires Reaches(Init(size, insize, keepAlive, lastSend), [], ops, s, left)
    requires NoReadFails(ops) && AllComplete(ps) && Broadcast(ops) <= Concat(ps)
    ensures m <= |ps| && s.taken == ps[..m] && Broadcast(ops) == Concat(ps[..m]) + s.inbuf + left
  {
    hide NoReadFails, AllComplete, Broadcast, Concat, Follows;
    var run :| Chain(run, ops) && run[0] == Stage(Init(size, insize, keepAlive, lastSend), [])
      && run[|ops|] == Stage(s, left);
    assert ops[..|ops|] == ops;
    m := ChainInStep(run, ops, |ops|, ps);
  }
}
