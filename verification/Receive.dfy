// __mqtt_recv as a stream processor: packets come out of the byte stream whole
// and in order, however the reads cut the stream up.
module Receive {
  import opened Types
  import opened Wire
  import opened WireProofs
  import opened QueueMemory
  import opened MessageQueues
  import opened Protocol

  function Concat(ps: seq<seq<byte>>): seq<byte> {
    if ps == [] then [] else ps[0] + Concat(ps[1..])
  }

  ghost predicate AllComplete(ps: seq<seq<byte>>) {
    forall i :: 0 <= i < |ps| ==> WholePacket(ps[i])
  }

  lemma {:induction false} ConcatSplit(ps: seq<seq<byte>>, m: nat)
    requires m <= |ps|
    ensures Concat(ps) == Concat(ps[..m]) + Concat(ps[m..])
  {
    if m == 0 {
      assert ps[0..] == ps;
    } else {
      ConcatSplit(ps[1..], m - 1);
      assert ps[..m][1..] == ps[1..][..m - 1] && ps[m..] == ps[1..][m - 1..];
    }
  }

  // What is found at the front of a stream of packets of which only a part has arrived.
  lemma FrontOfStream(buf: seq<byte>, ps: seq<seq<byte>>)
    requires buf <= Concat(ps) && AllComplete(ps)
    ensures ps == [] || |buf| < |ps[0]| ==> Unpack(buf) == Incomplete
    ensures ps != [] && |buf| >= |ps[0]|
            ==> buf[..|ps[0]|] == ps[0] && Unpack(buf) == Unpack(ps[0]) && WholePacket(ps[0])
    ensures ps != [] && |buf| >= |ps[0]| ==> buf[|ps[0]|..] <= Concat(ps[1..])
  {
    hide Unpack;
    if ps == [] {
      assert Unpack([]) == Incomplete by { NothingToUnpack(); }
    } else {
      var (p, rest) := (ps[0], Concat(ps[1..]));
      assert buf == (p + rest)[..|buf|];
      if |buf| < |p| {
        assert buf == p[..|buf|];
        UnpackPrefix(p, |buf|);
      } else {
        assert buf == p + rest[..|buf| - |p|];
        UnpackExtends(p, rest[..|buf| - |p|]);
      }
    }
  }

  lemma NothingToUnpack()
    ensures Unpack([]) == Incomplete
  {
  }

  // No read fails.
  ghost predicate Intact(ready: seq<Read>) {
    forall i :: 0 <= i < |ready| ==> ready[i].Ready?
  }

  // What is at hand and what is still to be read is the front of a stream of complete packets.
  ghost predicate Ahead(s: Client, l: Link, ps: seq<seq<byte>>) {
    s.inbuf + l.rest <= Concat(ps) && AllComplete(ps)
  }

  // The outcome of __mqtt_recv on a stream of complete packets, m of which it consumed.
  ghost predicate Framed(s: Client, l: Link, r: Received, ps: seq<seq<byte>>, m: nat) {
    && m <= |ps|
    && r.client.taken == s.taken + ps[..m]
    && Concat(ps[..m]) + r.client.inbuf <= s.inbuf + l.rest && r.client.inbuf <= Concat(ps[m..])
    && (r.error != SOCKET_ERROR || Intact(l.ready)
        ==> s.inbuf + l.rest == Concat(ps[..m]) + r.client.inbuf + r.link.rest)
    && |r.client.inbuf| <= r.client.insize == s.insize
    && (r.error == OK ==> m == |ps| || |r.client.inbuf| < |ps[m]|)
  }

  // The first read turns the stream into buffer and rest without changing it.
  lemma ReadKeepsStream(s: Client, l: Link)
    requires |s.inbuf| <= s.insize
    ensures Buffered(s, l) + Onward(s, l).rest == s.inbuf + l.rest
    ensures Intact(l.ready) ==> Intact(Onward(s, l).ready) && !Fails(l)
  {
  }

  // While the first packet has not arrived completely there is nothing to unpack.
  lemma NothingComplete(s: Client, l: Link, ps: seq<seq<byte>>)
    requires |s.inbuf| <= s.insize && Ahead(s, l, ps)
    requires ps == [] || |Buffered(s, l)| < |ps[0]|
    ensures Unpack(Buffered(s, l)) == Incomplete
  {
    ReadKeepsStream(s, l);
    Prefixes(Buffered(s, l), Onward(s, l).rest, Concat(ps));
    FrontOfStream(Buffered(s, l), ps);
  }

  lemma FirstUnpacked(s: Client, l: Link, ps: seq<seq<byte>>)
    requires |s.inbuf| <= s.insize && Ahead(s, l, ps)
    requires ps != [] && |Buffered(s, l)| >= |ps[0]|
    ensures Unpack(Buffered(s, l)) == Unpack(ps[0])
  {
    ReadKeepsStream(s, l);
    Prefixes(Buffered(s, l), Onward(s, l).rest, Concat(ps));
    FrontOfStream(Buffered(s, l), ps);
  }

  // For every way the reads cut up the stream, the packets consumed are the
  // next ones of the stream, bytes are neither lost nor duplicated, and the
  // buffer holds no complete packet when the call succeeds.
  lemma {:induction false} RecvFraming(s: Client, l: Link, stales: nat -> Stale, i: nat, ps: seq<seq<byte>>)
      returns (m: nat)
    requires |s.inbuf| <= s.insize && Ahead(s, l, ps)
    ensures Framed(s, l, RecvFrom(s, l, stales, i), ps, m)
    decreases |l.rest| + |s.inbuf|
  {
    hide *;
    if Fails(l) {
      m := 0;
      FailedRead(s, l, stales, i, ps);
    } else if ps == [] || |Buffered(s, l)| < |ps[0]| {
      m := 0;
      NothingComplete(s, l, ps);
      Waiting(s, l, stales, i, ps);
    } else {
      TakenFirst(s, l, stales, i, ps);
      var (buf, l', o) := (Buffered(s, l), Onward(s, l), Unpack(Buffered(s, l)));
      var (t, e) := Consume(s, buf, o.response, o.consumed, stales(i));
      if e != OK {
        m := 1;
        FramedOnce(s, l, t, l', e, ps);
      } else {
        var k := RecvFraming(t, l', stales, i + 1, ps[1..]);
        m := k + 1;
        FramedMore(s, l, t, l', RecvFrom(t, l', stales, i + 1), ps, k);
      }
    }
  }

  // One turn of the loop, when a packet is there.
  lemma RecvTurn(s: Client, l: Link, stales: nat -> Stale, i: nat)
    requires |s.inbuf| <= s.insize && !Fails(l) && Unpack(Buffered(s, l)).Decoded?
    ensures var (o, l') := (Unpack(Buffered(s, l)), Onward(s, l));
            var (t, e) := Consume(s, Buffered(s, l), o.response, o.consumed, stales(i));
            && o.consumed >= 2 && |t.inbuf| <= t.insize && |l'.rest| + |t.inbuf| < |l.rest| + |s.inbuf|
            && RecvFrom(s, l, stales, i) == if e != OK then Received(t, l', e) else RecvFrom(t, l', stales, i + 1)
  {
    hide Unpack, Consume, AfterRead, Arriving;
    ConsumedIsSome(Buffered(s, l));
  }

  lemma ConsumedIsSome(buf: seq<byte>)
    requires Unpack(buf).Decoded?
    ensures 2 <= Unpack(buf).consumed <= |buf|
  {
  }

  lemma FailedRead(s: Client, l: Link, stales: nat -> Stale, i: nat, ps: seq<seq<byte>>)
    requires |s.inbuf| <= s.insize && Ahead(s, l, ps) && Fails(l)
    ensures Framed(s, l, RecvFrom(s, l, stales, i), ps, 0)
  {
    assert ps[..0] == [] && ps[0..] == ps;
  }

  lemma Waiting(s: Client, l: Link, stales: nat -> Stale, i: nat, ps: seq<seq<byte>>)
    requires |s.inbuf| <= s.insize && Ahead(s, l, ps) && !Fails(l)
    requires Unpack(Buffered(s, l)) == Incomplete && (ps == [] || |Buffered(s, l)| < |ps[0]|)
    ensures Framed(s, l, RecvFrom(s, l, stales, i), ps, 0)
  {
    WaitingIs(s, l, stales, i);
    ReadKeepsStream(s, l);
    hide *;
    FramedNone(s, l, RecvFrom(s, l, stales, i), ps);
  }

  lemma FramedNone(s: Client, l: Link, r: Received, ps: seq<seq<byte>>)
    requires r.client.taken == s.taken && r.client.inbuf + r.link.rest == s.inbuf + l.rest
             && s.inbuf + l.rest <= Concat(ps)
    requires |r.client.inbuf| <= r.client.insize == s.insize
             && (r.error == OK ==> ps == [] || |r.client.inbuf| < |ps[0]|)
    ensures Framed(s, l, r, ps, 0)
  {
    assert ps[..0] == [] && ps[0..] == ps && Concat(ps[..0]) == [] && s.taken + [] == s.taken;
    NothingTaken(r.client.inbuf, r.link.rest, s.inbuf + l.rest, Concat(ps));
    hide Concat, Intact;
  }

  lemma NothingTaken(x: seq<byte>, y: seq<byte>, stream: seq<byte>, all: seq<byte>)
    requires x + y == stream <= all
    ensures [] + x <= stream && x <= all && stream == [] + x + y
  {
    assert [] + x == x;
    Prefixes(x, y, all);
  }

  lemma WaitingIs(s: Client, l: Link, stales: nat -> Stale, i: nat)
    requires |s.inbuf| <= s.insize && !Fails(l) && Unpack(Buffered(s, l)) == Incomplete
    ensures var r := RecvFrom(s, l, stales, i);
            && r.client.taken == s.taken && r.client.inbuf == Buffered(s, l) && r.client.insize == s.insize
            && r.link == Onward(s, l) && r.error != SOCKET_ERROR
  {
    hide Unpack, Buffered, Onward, Consume, Fails;
  }

  // The stream before and after the first packet is taken from the buffer.
  lemma TakeFirst(buf: seq<byte>, rest: seq<byte>, ps: seq<seq<byte>>)
    requires buf + rest <= Concat(ps) && AllComplete(ps) && ps != [] && |buf| >= |ps[0]|
    ensures Unpack(buf).Decoded? && Unpack(buf).consumed == |ps[0]| && buf[..|ps[0]|] == ps[0]
    ensures buf[|ps[0]|..] + rest <= Concat(ps[1..])
    ensures buf + rest == ps[0] + buf[|ps[0]|..] + rest
  {
    hide Unpack;
    Prefixes(buf, rest, Concat(ps));
    FrontOfStream(buf, ps);
    CompleteIs(ps[0]);
    var (p, tail) := (ps[0], buf[|ps[0]|..]);
    assert buf == p + tail;
    assert buf + rest == p + (tail + rest);
    Behind(p, tail + rest, Concat(ps[1..]), buf + rest);
  }

  // One packet has been consumed and nothing else of the stream.
  ghost predicate Took(s: Client, l: Link, t: Client, l': Link, ps: seq<seq<byte>>) {
    && ps != [] && t.taken == s.taken + [ps[0]] && s.inbuf + l.rest == ps[0] + t.inbuf + l'.rest
    && t.insize == s.insize && (Intact(l.ready) ==> Intact(l'.ready))
  }

  // One turn of the loop on a stream whose first packet has arrived.
  lemma TakenFirst(s: Client, l: Link, stales: nat -> Stale, i: nat, ps: seq<seq<byte>>)
    requires |s.inbuf| <= s.insize && Ahead(s, l, ps) && !Fails(l)
    requires ps != [] && |Buffered(s, l)| >= |ps[0]|
    ensures var (buf, l', o) := (Buffered(s, l), Onward(s, l), Unpack(Buffered(s, l)));
            && o.Decoded? && o.consumed <= |buf|
            && var (t, e) := Consume(s, buf, o.response, o.consumed, stales(i));
               && |t.inbuf| <= t.insize && Ahead(t, l', ps[1..])
               && |l'.rest| + |t.inbuf| < |l.rest| + |s.inbuf| && Took(s, l, t, l', ps)
               && RecvFrom(s, l, stales, i) == if e != OK then Received(t, l', e) else RecvFrom(t, l', stales, i + 1)
  {
    ReadKeepsStream(s, l);
    TakeFirst(Buffered(s, l), Onward(s, l).rest, ps);
    RestComplete(ps);
    RecvTurn(s, l, stales, i);
    hide Buffered, Onward, Unpack, Consume, Concat, AllComplete, Intact, RecvFrom, Fails;
  }

  lemma Prefixes(a: seq<byte>, b: seq<byte>, c: seq<byte>)
    requires a + b <= c
    ensures a <= c
  {
    assert a == (a + b)[..|a|] == c[..|a + b|][..|a|];
  }

  lemma RestComplete(ps: seq<seq<byte>>)
    requires AllComplete(ps) && ps != []
    ensures AllComplete(ps[1..])
  {
  }

  lemma CompleteIs(p: seq<byte>)
    requires WholePacket(p)
    ensures Unpack(p).Decoded? && Unpack(p).consumed == |p|
  {
  }

  lemma Behind(p: seq<byte>, a: seq<byte>, b: seq<byte>, s: seq<byte>)
    requires s == p + a && s <= p + b
    ensures a <= b
  {
    assert (p + b)[..|s|] == s;
    assert a == s[|p|..] && (p + b)[..|s|][|p|..] == b[..|a|];
  }

  lemma FramedOnce(s: Client, l: Link, v: Client, l': Link, e: Error, ps: seq<seq<byte>>)
    requires Took(s, l, v, l', ps) && e != OK && |v.inbuf| <= v.insize && Ahead(v, l', ps[1..])
    ensures Framed(s, l, Received(v, l', e), ps, 1)
  {
    assert ps[..1] == [ps[0]] && ps[..1][1..] == [];
    assert Concat(ps[..1]) == ps[0] + [];
  }

  lemma FramedMore(s: Client, l: Link, v: Client, l': Link, r: Received, ps: seq<seq<byte>>, k: nat)
    requires Took(s, l, v, l', ps) && Framed(v, l', r, ps[1..], k)
    ensures Framed(s, l, r, ps, k + 1)
  {
    var (qs, inbuf, rest) := (ps[..k + 1], r.client.inbuf, r.link.rest);
    assert qs[1..] == ps[1..][..k] && ps[k + 1..] == ps[1..][k..];
    assert k < |ps[1..]| ==> ps[1..][k] == ps[k + 1];
    var front := Concat(ps[1..][..k]);
    assert Concat(qs) == ps[0] + front;
    assert ps[0] + v.inbuf + l'.rest == ps[0] + (v.inbuf + l'.rest);
    assert ps[0] + front + inbuf + rest == ps[0] + (front + inbuf + rest);
    assert s.taken + [ps[0]] + ps[1..][..k] == s.taken + qs;
  }

  // ----- the effect of a call does not depend on how the stream was cut up -----

  // The client with other received bytes.
  function Holding(s: Client, inbuf: seq<byte>, taken: seq<seq<byte>>): Client {
    s.(inbuf := inbuf, taken := taken)
  }

  lemma TryPackAt(s: Client, r: Request, stale: Stale, b: seq<byte>, k: seq<seq<byte>>)
    ensures TryPack(Holding(s, b, k), r, stale) == (Holding(TryPack(s, r, stale).0, b, k), TryPack(s, r, stale).1)
  {
    hide Pack, Enqueue, Drop, TypeOf, IdOf, Room, TotalSize;
  }

  lemma AnswerAt(s: Client, ctype: nat, id: u16, stale: Stale, b: seq<byte>, k: seq<seq<byte>>)
    ensures Answer(Holding(s, b, k), ctype, id, stale)
            == (Holding(Answer(s, ctype, id, stale).0, b, k), Answer(s, ctype, id, stale).1)
  {
    hide TryPack;
    TryPackAt(s, AckRequest(ctype, id), stale, b, k);
  }

  lemma ReleaseAt(s: Client, ctype: nat, id: Option<u16>, kind: nat, b: seq<byte>, k: seq<seq<byte>>)
    ensures Release(Holding(s, b, k), ctype, id, kind)
            == (Holding(Release(s, ctype, id, kind).0, b, k), Release(s, ctype, id, kind).1)
  {
    hide FindIn, Acknowledge;
  }

  lemma HandlePublishAt(s: Client, qos: nat, id: u16, topic: seq<byte>, message: seq<byte>, stale: Stale, b: seq<byte>,
                        k: seq<seq<byte>>)
    ensures var (t, e) := HandlePublish(s, qos, id, topic, message, stale);
            HandlePublish(Holding(s, b, k), qos, id, topic, message, stale) == (Holding(t, b, k), e)
  {
    hide Answer, Note;
    AnswerAt(s, PUBACK, id, stale, b, k);
    AnswerAt(s, PUBREC, id, stale, b, k);
  }

  lemma HandleAckAt(s: Client, kind: nat, id: u16, stale: Stale, b: seq<byte>, k: seq<seq<byte>>)
    ensures var (t, e) := HandleAck(s, kind, id, stale);
            HandleAck(Holding(s, b, k), kind, id, stale) == (Holding(t, b, k), e)
  {
    hide Answer, Release;
    ReleaseAt(s, PUBLISH, Some(id), kind, b, k);
    ReleaseAt(s, PUBREC, Some(id), kind, b, k);
    ReleaseAt(s, PUBREL, Some(id), kind, b, k);
    ReleaseAt(s, UNSUBSCRIBE, Some(id), kind, b, k);
    AnswerAt(Release(s, PUBLISH, Some(id), kind).0, PUBREL, id, stale, b, k);
    AnswerAt(Release(s, PUBREC, Some(id), kind).0, PUBCOMP, id, stale, b, k);
  }

  // Handling a response neither reads nor changes the receive buffer.
  lemma HandleAt(s: Client, r: Response, stale: Stale, b: seq<byte>, k: seq<seq<byte>>)
    ensures Handle(Holding(s, b, k), r, stale) == (Holding(Handle(s, r, stale).0, b, k), Handle(s, r, stale).1)
  {
    hide HandlePublish, HandleAck, Release;
    match r {
      case Connack(_, _) => ReleaseAt(s, CONNECT, None, CONNACK, b, k);
      case Publish(_, qos, _, topic, id, message) => HandlePublishAt(s, qos, id, topic, message, stale, b, k);
      case Ack(kind, id) => HandleAckAt(s, kind, id, stale, b, k);
      case Suback(id, _) => ReleaseAt(s, SUBSCRIBE, Some(id), SUBACK, b, k);
      case Pingresp => ReleaseAt(s, PINGREQ, None, PINGRESP, b, k);
    }
  }

  // Handling packets one after the other, with no stream and no buffer in between.
  function HandleAll(s: Client, ps: seq<seq<byte>>, stales: nat -> Stale, i: nat): (Client, Error)
    decreases |ps|
  {
    if ps == [] || !Unpack(ps[0]).Decoded? then (s, OK)
    else
      var (t, e) := Handle(s, Unpack(ps[0]).response, stales(i));
      if e != OK then (t, e) else HandleAll(t, ps[1..], stales, i + 1)
  }

  lemma StaysUp(s: Client, l: Link, stales: nat -> Stale, i: nat)
    requires |s.inbuf| <= s.insize && RecvFrom(s, l, stales, i).error == OK
    ensures !Fails(l)
  {
    hide Unpack, Consume, Onward, Buffered;
  }

  // A call that finds no complete packet handles none.
  lemma WaitingHandles(s: Client, l: Link, stales: nat -> Stale, i: nat, ps: seq<seq<byte>>, b: seq<byte>,
                       k: seq<seq<byte>>)
    requires |s.inbuf| <= s.insize && !Fails(l) && Unpack(Buffered(s, l)) == Incomplete
             && RecvFrom(s, l, stales, i).error == OK
    ensures Handles(s, RecvFrom(s, l, stales, i).client, ps, 0, stales, i, b, k)
  {
    assert ps[..0] == [];
    hide Unpack, Buffered, Onward, Consume, Handle;
  }

  // A successful __mqtt_recv does what handling the consumed packets one by one does.

  // Handling the first m packets one by one takes s to t, apart from the receive side.
  ghost predicate Handles(s: Client, t: Client, ps: seq<seq<byte>>, m: nat, stales: nat -> Stale, i: nat, b: seq<byte>,
                          k: seq<seq<byte>>) {
    m <= |ps| && HandleAll(Holding(s, b, k), ps[..m], stales, i) == (Holding(t, b, k), OK)
  }

  lemma {:induction false} RecvHandles(s: Client, l: Link, stales: nat -> Stale, i: nat, ps: seq<seq<byte>>,
                                       b: seq<byte>, k: seq<seq<byte>>)
    returns (m: nat)
    requires |s.inbuf| <= s.insize && Ahead(s, l, ps)
    requires RecvFrom(s, l, stales, i).error == OK
    ensures Framed(s, l, RecvFrom(s, l, stales, i), ps, m)
            && Handles(s, RecvFrom(s, l, stales, i).client, ps, m, stales, i, b, k)
    decreases |l.rest| + |s.inbuf|
  {
    hide *;
    StaysUp(s, l, stales, i);
    if ps == [] || |Buffered(s, l)| < |ps[0]| {
      m := 0;
      NothingComplete(s, l, ps);
      Waiting(s, l, stales, i, ps);
      WaitingHandles(s, l, stales, i, ps, b, k);
    } else {
      TakenFirst(s, l, stales, i, ps);
      var (t, l') := (FirstConsumed(s, l, stales(i)), Onward(s, l));
      FirstConsumedIs(s, l, stales(i));
      var j := RecvHandles(t, l', stales, i + 1, ps[1..], b, k);
      m := j + 1;
      FramedMore(s, l, t, l', RecvFrom(t, l', stales, i + 1), ps, j);
      HandlesMore(s, l, RecvFrom(t, l', stales, i + 1).client, ps, j, stales, i, b, k);
    }
  }

  lemma RecvIsHandleAll(s: Client, l: Link, stales: nat -> Stale, i: nat, ps: seq<seq<byte>>, b: seq<byte>,
                        k: seq<seq<byte>>)
    returns (m: nat)
    requires |s.inbuf| <= s.insize && Ahead(s, l, ps)
    requires RecvFrom(s, l, stales, i).error == OK
    ensures Framed(s, l, RecvFrom(s, l, stales, i), ps, m)
    ensures HandleAll(Holding(s, b, k), ps[..m], stales, i) == (Holding(RecvFrom(s, l, stales, i).client, b, k), OK)
  {
    hide HandleAll, Holding, RecvFrom, Framed, Concat, AllComplete;
    m := RecvHandles(s, l, stales, i, ps, b, k);
  }

  lemma FramedBound(s: Client, l: Link, r: Received, ps: seq<seq<byte>>, m: nat)
    requires Framed(s, l, r, ps, m)
    ensures m <= |ps|
  {
  }

  // The client after the packet at the front of the buffer.
  function FirstConsumed(s: Client, l: Link, stale: Stale): Client
    requires |s.inbuf| <= s.insize && Unpack(Buffered(s, l)).Decoded?
             && Unpack(Buffered(s, l)).consumed <= |Buffered(s, l)|
  {
    var (buf, o) := (Buffered(s, l), Unpack(Buffered(s, l)));
    Consume(s, buf, o.response, o.consumed, stale).0
  }

  lemma FirstConsumedIs(s: Client, l: Link, stale: Stale)
    requires |s.inbuf| <= s.insize && Unpack(Buffered(s, l)).Decoded?
             && Unpack(Buffered(s, l)).consumed <= |Buffered(s, l)|
    ensures FirstConsumed(s, l, stale)
            == Consume(s, Buffered(s, l), Unpack(Buffered(s, l)).response, Unpack(Buffered(s, l)).consumed, stale).0
  {
    hide Unpack, Consume, Buffered;
  }

  lemma HandleFirst(s: Client, l: Link, ps: seq<seq<byte>>, j: nat, stales: nat -> Stale, i: nat, b: seq<byte>,
                    k: seq<seq<byte>>)
    requires |s.inbuf| <= s.insize && Ahead(s, l, ps)
    requires ps != [] && j < |ps| && |Buffered(s, l)| >= |ps[0]| && Unpack(Buffered(s, l)).Decoded?
    requires var (buf, o) := (Buffered(s, l), Unpack(Buffered(s, l)));
             o.consumed <= |buf| && Consume(s, buf, o.response, o.consumed, stales(i)).1 == OK
    ensures HandleAll(Holding(s, b, k), ps[..j + 1], stales, i) ==
            HandleAll(Holding(FirstConsumed(s, l, stales(i)), b, k), ps[1..][..j], stales, i + 1)
  {
    FirstUnpacked(s, l, ps);
    hide Unpack, Handle, Buffered, Concat, AllComplete;
    var buf := Buffered(s, l);
    var r := Unpack(buf).response;
    HandleAt(s, r, stales(i), b, k);
    HandleAt(s, r, stales(i), buf, s.taken);
    assert ps[..j + 1][1..] == ps[1..][..j];
  }

  lemma HandlesMore(s: Client, l: Link, u: Client, ps: seq<seq<byte>>, j: nat, stales: nat -> Stale, i: nat,
                    b: seq<byte>, k: seq<seq<byte>>)
    requires |s.inbuf| <= s.insize && Ahead(s, l, ps)
    requires ps != [] && |Buffered(s, l)| >= |ps[0]| && Unpack(Buffered(s, l)).Decoded?
    requires var (buf, o) := (Buffered(s, l), Unpack(Buffered(s, l)));
             o.consumed <= |buf| && Consume(s, buf, o.response, o.consumed, stales(i)).1 == OK
    requires Handles(FirstConsumed(s, l, stales(i)), u, ps[1..], j, stales, i + 1, b, k)
    ensures Handles(s, u, ps, j + 1, stales, i, b, k)
  {
    hide Buffered, Unpack, Consume, FirstConsumed, HandleAll, Holding, Concat, AllComplete;
    HandleFirst(s, l, ps, j, stales, i, b, k);
  }

  lemma {:induction false} ConcatLonger(ps: seq<seq<byte>>, m: nat, n: nat)
    requires m < n <= |ps|
    ensures |Concat(ps[..m])| + |ps[m]| <= |Concat(ps[..n])|
  {
    var qs := ps[..n];
    ConcatSplit(qs, m);
    assert qs[..m] == ps[..m] && qs[m..][0] == ps[m];
    assert Concat(qs[m..]) == ps[m] + Concat(qs[m..][1..]);
  }

  // ----- when the buffer is too small -----

  lemma TryPackErrors(s: Client, r: Request, stale: Stale)
    requires s.error != RECV_BUFFER_TOO_SMALL
    ensures TryPack(s, r, stale).1 != RECV_BUFFER_TOO_SMALL && TryPack(s, r, stale).0.error != RECV_BUFFER_TOO_SMALL
  {
    hide Enqueue, Drop, TypeOf, IdOf, Room, TotalSize, Header, Body, FlagsOf;
  }

  lemma AnswerErrors(s: Client, ctype: nat, id: u16, stale: Stale)
    requires s.error != RECV_BUFFER_TOO_SMALL
    ensures Answer(s, ctype, id, stale).1 != RECV_BUFFER_TOO_SMALL
  {
    hide TryPack;
    TryPackErrors(s, AckRequest(ctype, id), stale);
  }

  lemma ReleaseErrors(s: Client, ctype: nat, id: Option<u16>, kind: nat)
    ensures Release(s, ctype, id, kind).1 == OK || Release(s, ctype, id, kind).1 == ACK_OF_UNKNOWN
    ensures Release(s, ctype, id, kind).1 == OK ==> Release(s, ctype, id, kind).0.error == s.error
  {
    hide FindIn, Acknowledge;
  }

  lemma HandleAckErrors(s: Client, kind: nat, id: u16, stale: Stale)
    requires s.error != RECV_BUFFER_TOO_SMALL
    ensures HandleAck(s, kind, id, stale).1 != RECV_BUFFER_TOO_SMALL
  {
    hide Answer, Release;
    ReleaseErrors(s, PUBLISH, Some(id), kind);
    ReleaseErrors(s, PUBREC, Some(id), kind);
    ReleaseErrors(s, PUBREL, Some(id), kind);
    ReleaseErrors(s, UNSUBSCRIBE, Some(id), kind);
    if Release(s, PUBLISH, Some(id), kind).1 == OK {
      AnswerErrors(Release(s, PUBLISH, Some(id), kind).0, PUBREL, id, stale);
    }
    if Release(s, PUBREC, Some(id), kind).1 == OK {
      AnswerErrors(Release(s, PUBREC, Some(id), kind).0, PUBCOMP, id, stale);
    }
  }

  // Handling a response never reports a small buffer.
  lemma HandleErrors(s: Client, r: Response, stale: Stale)
    requires s.error != RECV_BUFFER_TOO_SMALL
    ensures Handle(s, r, stale).1 != RECV_BUFFER_TOO_SMALL
  {
    hide Answer, Release, HandleAck, Deliver;
    match r {
      case Connack(_, _) => ReleaseErrors(s, CONNECT, None, CONNACK);
      case Publish(_, _, _, _, id, _) =>
        AnswerErrors(s, PUBACK, id, stale);
        AnswerErrors(s, PUBREC, id, stale);
      case Ack(kind, id) => HandleAckErrors(s, kind, id, stale);
      case Suback(id, _) => ReleaseErrors(s, SUBSCRIBE, Some(id), SUBACK);
      case Pingresp => ReleaseErrors(s, PINGREQ, None, PINGRESP);
    }
  }

  // On a stream of complete packets the buffer is reported too small only when
  // the next packet is larger than it, or when that error was set before the call.
  lemma {:induction false} TooSmall(s: Client, l: Link, stales: nat -> Stale, i: nat, ps: seq<seq<byte>>)
      returns (m: nat)
    requires |s.inbuf| <= s.insize && Ahead(s, l, ps)
    requires RecvFrom(s, l, stales, i).error == RECV_BUFFER_TOO_SMALL
    ensures Framed(s, l, RecvFrom(s, l, stales, i), ps, m)
    ensures s.error != RECV_BUFFER_TOO_SMALL && m < |ps| ==> |ps[m]| > s.insize
    ensures s.error != RECV_BUFFER_TOO_SMALL && m == |ps|
            ==> RecvFrom(s, l, stales, i).client.inbuf == [] && s.insize == 0
    decreases |l.rest| + |s.inbuf|
  {
    hide *;
    NotBroken(s, l, stales, i);
    if s.error == RECV_BUFFER_TOO_SMALL {
      m := RecvFraming(s, l, stales, i, ps);
    } else if ps == [] || |Buffered(s, l)| < |ps[0]| {
      m := 0;
      TooSmallHere(s, l, stales, i, ps);
    } else {
      TakenFirst(s, l, stales, i, ps);
      var (buf, l', o) := (Buffered(s, l), Onward(s, l), Unpack(Buffered(s, l)));
      var (t, e) := Consume(s, buf, o.response, o.consumed, stales(i));
      ConsumeErrors(s, buf, o.response, o.consumed, stales(i));
      var j := TooSmall(t, l', stales, i + 1, ps[1..]);
      m := j + 1;
      TooSmallMore(s, l, t, l', RecvFrom(t, l', stales, i + 1), ps, j);
    }
  }

  lemma TooSmallMore(s: Client, l: Link, v: Client, l': Link, r: Received, ps: seq<seq<byte>>, k: nat)
    requires Took(s, l, v, l', ps) && Framed(v, l', r, ps[1..], k)
    requires k < |ps[1..]| ==> |ps[1..][k]| > s.insize
    ensures Framed(s, l, r, ps, k + 1) && k < |ps| && (k + 1 < |ps| ==> |ps[k + 1]| > s.insize)
    ensures k + 1 == |ps| ==> k == |ps[1..]|
  {
    hide *;
    FramedMore(s, l, v, l', r, ps, k);
    FramedBound(v, l', r, ps[1..], k);
  }

  lemma NotBroken(s: Client, l: Link, stales: nat -> Stale, i: nat)
    requires |s.inbuf| <= s.insize && RecvFrom(s, l, stales, i).error == RECV_BUFFER_TOO_SMALL
    ensures !Fails(l)
  {
    hide Unpack, Consume, Onward, Buffered;
  }

  lemma TooSmallHere(s: Client, l: Link, stales: nat -> Stale, i: nat, ps: seq<seq<byte>>)
    requires |s.inbuf| <= s.insize && Ahead(s, l, ps) && !Fails(l)
    requires ps == [] || |Buffered(s, l)| < |ps[0]|
    requires RecvFrom(s, l, stales, i).error == RECV_BUFFER_TOO_SMALL
    ensures Framed(s, l, RecvFrom(s, l, stales, i), ps, 0)
    ensures ps != [] ==> |ps[0]| > s.insize
    ensures ps == [] ==> RecvFrom(s, l, stales, i).client.inbuf == [] && s.insize == 0
  {
    NothingComplete(s, l, ps);
    Waiting(s, l, stales, i, ps);
    ReadKeepsStream(s, l);
    hide Unpack, Consume, Onward, Buffered, Framed, AllComplete, Concat, Intact;
  }

  lemma ConsumeErrors(s: Client, buf: seq<byte>, r: Response, n: nat, stale: Stale)
    requires n <= |buf| && s.error != RECV_BUFFER_TOO_SMALL
    ensures var (t, e) := Consume(s, buf, r, n, stale); e != RECV_BUFFER_TOO_SMALL && (e == OK ==> t.error == s.error)
  {
    hide Handle;
    HandleErrors(s.(inbuf := buf), r, stale);
    HandleOk(s.(inbuf := buf), r, stale);
  }

  lemma HandleOk(s: Client, r: Response, stale: Stale)
    ensures Handle(s, r, stale).1 == OK ==> Handle(s, r, stale).0.error == s.error
  {
    hide Pack, Enqueue, Drop, TypeOf, IdOf, Room, TotalSize, FindIn, Acknowledge, Note;
  }

  // ----- when __mqtt_recv stops -----

  // The last packet consumed was refused: handling what it says gave the error.
  ghost predicate RefusedLast(r: Received) {
    && r.client.taken != []
    && var p := r.client.taken[|r.client.taken| - 1];
       var o := Unpack(p + r.client.inbuf);
       && o.Decoded? && o.consumed == |p|
       && exists u: Client, stale: Stale :: Refuses(u, o.response, stale, r.error, r.client.core)
  }

  predicate Refuses(u: Client, r: Response, stale: Stale, e: Error, c: Core) {
    Handle(u, r, stale).1 == e && Handle(u, r, stale).0.core == c
  }

  // Without an error no packet is left to unpack and the buffer has room; an
  // error has one of five causes.
  ghost predicate Stopped(l: Link, r: Received) {
    var o := Unpack(r.client.inbuf);
    if r.error == OK then o == Incomplete && |r.client.inbuf| < r.client.insize
    else
      || (r.error == SOCKET_ERROR && exists i :: 0 <= i < |l.ready| && l.ready[i].Broken?)
      || o == Malformed(r.error)
      || (o == Overrun && r.error == OVERRUN)
      || (o == Incomplete && |r.client.inbuf| == r.client.insize && r.error == RECV_BUFFER_TOO_SMALL)
      || RefusedLast(r)
  }

  // With nothing consumed it stops at the first read.
  lemma StoppedFirst(s: Client, l: Link, stales: nat -> Stale, i: nat)
    requires |s.inbuf| <= s.insize && (Fails(l) || !Unpack(Buffered(s, l)).Decoded?)
    ensures Stopped(l, RecvFrom(s, l, stales, i))
  {
    hide Unpack, Buffered, Onward, RefusedLast;
    assert Fails(l) ==> l.ready[0].Broken?;
    BadIsError(Buffered(s, l));
  }

  lemma StoppedRefused(s: Client, l: Link, stales: nat -> Stale, i: nat)
    requires |s.inbuf| <= s.insize && !Fails(l) && Unpack(Buffered(s, l)).Decoded?
    requires Unpack(Buffered(s, l)).consumed <= |Buffered(s, l)|
    ensures var o := Unpack(Buffered(s, l));
            var (t, e) := Consume(s, Buffered(s, l), o.response, o.consumed, stales(i));
            e != OK ==> Stopped(l, Received(t, Onward(s, l), e))
  {
    hide Unpack, Buffered, Onward, Handle;
    var (buf, o) := (Buffered(s, l), Unpack(Buffered(s, l)));
    var (t, e) := Consume(s, buf, o.response, o.consumed, stales(i));
    var (v, f) := Handle(s.(inbuf := buf), o.response, stales(i));
    assert buf[..o.consumed] + buf[o.consumed..] == buf;
    assert Refuses(s.(inbuf := buf), o.response, stales(i), e, t.core);
  }

  lemma StoppedLater(s: Client, l: Link, r: Received)
    requires |s.inbuf| <= s.insize && Stopped(Onward(s, l), r)
    ensures Stopped(l, r)
  {
    hide Unpack, RefusedLast;
    var l' := Onward(s, l);
    if i :| 0 <= i < |l'.ready| && l'.ready[i].Broken? {
      assert l.ready[i + 1].Broken?;
    }
  }

  // Why __mqtt_recv returns, for every stream, well formed or not.
  lemma {:induction false} RecvStops(s: Client, l: Link, stales: nat -> Stale, i: nat)
    requires |s.inbuf| <= s.insize
    ensures Stopped(l, RecvFrom(s, l, stales, i))
    decreases |l.rest| + |s.inbuf|
  {
    hide *;
    if Fails(l) || !Unpack(Buffered(s, l)).Decoded? {
      StoppedFirst(s, l, stales, i);
    } else {
      ConsumedIsSome(Buffered(s, l));
      RecvTurn(s, l, stales, i);
      StoppedRefused(s, l, stales, i);
      var o := Unpack(Buffered(s, l));
      var (t, e) := Consume(s, Buffered(s, l), o.response, o.consumed, stales(i));
      if e == OK {
        RecvStops(t, Onward(s, l), stales, i + 1);
        StoppedLater(s, l, RecvFrom(t, Onward(s, l), stales, i + 1));
      }
    }
  }

  // Every read brings all that has arrived and fits, and there are as many as the bytes can keep busy.
  ghost predicate Prompt(s: Client, l: Link) {
    && |l.ready| > |s.inbuf| + |l.rest|
    && forall i :: 0 <= i < |l.ready| ==> l.ready[i].Ready? && l.ready[i].n >= s.insize
  }

  lemma PromptRead(s: Client, l: Link)
    requires |s.inbuf| <= s.insize && Prompt(s, l)
    ensures !Fails(l)
    ensures |Buffered(s, l)| < s.insize ==> Onward(s, l).rest == []
  {
  }

  lemma PromptNext(s: Client, l: Link, t: Client)
    requires |s.inbuf| <= s.insize && Prompt(s, l) && t.insize == s.insize
    requires |t.inbuf| + |Onward(s, l).rest| < |s.inbuf| + |l.rest|
    ensures Prompt(t, Onward(s, l))
  {
  }

  lemma WaitingLeaves(s: Client, l: Link, stales: nat -> Stale, i: nat)
    requires |s.inbuf| <= s.insize && Prompt(s, l) && !Unpack(Buffered(s, l)).Decoded?
    requires RecvFrom(s, l, stales, i).error == OK
    ensures RecvFrom(s, l, stales, i).link.rest == []
  {
    PromptRead(s, l);
    BadIsError(Buffered(s, l));
    hide Unpack, Buffered, Onward, Prompt;
  }

  lemma BadIsError(buf: seq<byte>)
    ensures Unpack(buf).Malformed? ==> Unpack(buf).error != OK
  {
    hide DecodeLength;
  }

  lemma ConsumeSize(s: Client, l: Link, stale: Stale)
    requires |s.inbuf| <= s.insize && Unpack(Buffered(s, l)).Decoded?
    requires Unpack(Buffered(s, l)).consumed <= |Buffered(s, l)|
    ensures FirstConsumed(s, l, stale).insize == s.insize
  {
    hide Unpack, Handle, Buffered;
  }

  // If every read brings what has arrived, a successful call leaves nothing
  // unread: with RecvFraming, every complete packet sent has been consumed.
  lemma {:induction false} RecvTakesAll(s: Client, l: Link, stales: nat -> Stale, i: nat)
    requires |s.inbuf| <= s.insize && Prompt(s, l) && RecvFrom(s, l, stales, i).error == OK
    ensures RecvFrom(s, l, stales, i).link.rest == []
    decreases |l.rest| + |s.inbuf|
  {
    hide *;
    PromptRead(s, l);
    if !Unpack(Buffered(s, l)).Decoded? {
      WaitingLeaves(s, l, stales, i);
    } else {
      ConsumedIsSome(Buffered(s, l));
      RecvTurn(s, l, stales, i);
      FirstConsumedIs(s, l, stales(i));
      ConsumeSize(s, l, stales(i));
      var t := FirstConsumed(s, l, stales(i));
      PromptNext(s, l, t);
      RecvTakesAll(t, Onward(s, l), stales, i + 1);
    }
  }
}
