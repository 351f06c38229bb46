// What the client makes of a packet from the broker: of its bytes, and then of the queue.
module Responses {
  import opened Types
  import opened Wire
  import opened WireProofs
  import opened QueueMemory
  import opened MessageQueues
  import opened Protocol
  import opened Brokers
  import opened Calls

  // ----- from the bytes -----

  // The flags of a PUBLISH, and what is behind its fixed header (section 3.3).
  function PublishBits(r: Response): (f: nat)
    requires WellFormed(r) && r.Publish?
    ensures f < 16
  {
    8 * r.dup + 2 * r.qos + r.retain
  }

  function PublishBytes(r: Response): (b: seq<byte>)
    requires WellFormed(r) && r.Publish?
    ensures 4 <= |b| < 0x1000_0000
  {
    [|r.topic| / 256, |r.topic| % 256] + r.topic + (if r.qos > 0 then [r.id / 256, r.id % 256] else []) + r.message
  }

  // The packet a broker writes for a response (sections 3.2 to 3.7, 3.9, 3.11 and 3.13 of MQTT 3.1.1).
  function Written(r: Response): seq<byte>
    requires WellFormed(r)
  {
    match r
    case Connack(present, code) => [0x20, 2, present, code]
    case Publish(_, _, _, _, _, _) => [0x30 + PublishBits(r)] + EncodeLength(|PublishBytes(r)|) + PublishBytes(r)
    case Ack(kind, id) => [16 * kind + (if kind == 6 then 2 else 0), 2, id / 256, id % 256]
    case Suback(id, codes) => [0x90] + EncodeLength(2 + |codes|) + [id / 256, id % 256] + codes
    case Pingresp => [0xD0, 0]
  }

  // The responses there are, but for a PUBLISH of fewer than four bytes behind its fixed header.
  predicate WellFormed(r: Response) {
    match r
    case Connack(present, code) => present <= 1 && code <= 5
    case Publish(dup, qos, retain, topic, id, message) =>
      && dup <= 1 && qos <= 3 && retain <= 1 && |topic| < 65536 && (qos == 0 ==> id == 0)
      && 4 <= 2 + |topic| + (if qos > 0 then 2 else 0) + |message| < 0x1000_0000
    case Ack(kind, _) => 4 <= kind <= 7 || kind == 11
    case Suback(_, codes) => 1 <= |codes| < 0x1000_0000 - 2
    case Pingresp => true
  }

  lemma SmallHeader(ctype: nat, flags: nat, body: seq<byte>, rest: seq<byte>)
    requires flags < 16 && HeaderViolation(ctype, flags) == OK && |body| < 128 && ctype != PINGRESP
    ensures [16 * ctype + flags, |body|] == Header(ctype, flags, |body|)
    ensures Unpack([16 * ctype + flags, |body|] + body + rest) ==
            match UnpackBody(ctype, flags, body)
            case BodyOf(r) => Decoded(r, 2 + |body|)
            case BodyBad(e) => Malformed(e)
            case BodyOverrun => Overrun
  {
    TypeFits(ctype, flags);
    UnpackHeaded(ctype, flags, body, rest);
    assert EncodeLength(|body|) == [|body|];
    hide Unpack, UnpackBody, HeaderViolation, EncodeLength;
  }

  // Any CONNACK of two bytes.
  lemma ConnackRead(present: byte, code: byte, rest: seq<byte>)
    ensures Unpack([0x20, 2, present, code] + rest) ==
            if present > 1 then Malformed(CONNACK_FORBIDDEN_FLAGS)
            else if code > 5 then Malformed(CONNACK_FORBIDDEN_CODE)
            else Decoded(Connack(present, code), 4)
  {
    SmallHeader(CONNACK, 0, [present, code], rest);
    assert [0x20, 2] + [present, code] + rest == [0x20, 2, present, code] + rest;
    hide Unpack;
  }

  lemma AckDecoded(kind: nat, id: u16, rest: seq<byte>)
    requires 4 <= kind <= 7 || kind == 11
    ensures Unpack([16 * kind + (if kind == 6 then 2 else 0), 2, id / 256, id % 256] + rest)
            == Decoded(Ack(kind, id), 4)
  {
    var f := if kind == 6 then 2 else 0;
    SmallHeader(kind, f, [id / 256, id % 256], rest);
    assert [16 * kind + f, 2] + [id / 256, id % 256] + rest == [16 * kind + f, 2, id / 256, id % 256] + rest;
    hide Unpack;
  }

  lemma SubackDecoded(id: u16, codes: seq<byte>, rest: seq<byte>)
    requires 1 <= |codes| < 0x1000_0000 - 2
    ensures var p := [0x90] + EncodeLength(2 + |codes|) + [id / 256, id % 256] + codes;
            Unpack(p + rest) == Decoded(Suback(id, codes), |p|)
  {
    var body := [id / 256, id % 256] + codes;
    UnpackHeaded(SUBACK, 0, body, rest);
    assert body[2..] == codes;
    assert Header(SUBACK, 0, |body|) + body + rest
           == [0x90] + EncodeLength(2 + |codes|) + [id / 256, id % 256] + codes + rest;
    hide Unpack, EncodeLength;
  }

  lemma PingrespDecoded(rest: seq<byte>)
    ensures Unpack([0xD0, 0] + rest) == Decoded(Pingresp, 2)
  {
    assert EncodeLength(0) == [0];
    HeaderRoundTrip(PINGRESP, 0, [], rest);
    assert [0xD0, 0] + [] + rest == [0xD0, 0] + rest;
    assert Header(PINGRESP, 0, 0) == [0xD0, 0];
    hide UnpackHeader;
  }

  lemma PublishFirst(r: Response)
    requires WellFormed(r) && r.Publish?
    ensures var f := PublishBits(r);
            f < 16 && Flag(f, 8) == r.dup && Qos(f) == r.qos && f % 2 == r.retain && HeaderViolation(PUBLISH, f) == OK
  {
    FlagBits(r.dup, r.qos, r.retain);
  }

  lemma PublishFields(r: Response, f: nat)
    requires WellFormed(r) && r.Publish? && f < 16 && Qos(f) == r.qos
    ensures UnpackPublish(f, PublishBytes(r)) ==
            BodyOf(Publish(Flag(f, 8), Qos(f), f % 2, r.topic, r.id, r.message))
  {
    var ids: seq<byte> := if r.qos > 0 then [r.id / 256, r.id % 256] else [];
    var (n, b) := ([|r.topic| / 256, |r.topic| % 256], PublishBytes(r));
    Parts(n, r.topic, ids, r.message);
    assert b[0] == n[0] && b[1] == n[1];
    assert b[2..2 + |r.topic|] == r.topic;
    if r.qos > 0 {
      assert b[2 + |r.topic|] == ids[0] && b[3 + |r.topic|] == ids[1];
    }
    hide Flag, Qos, PublishBytes;
  }

  lemma PublishIs(r: Response)
    requires WellFormed(r) && r.Publish?
    ensures var (f, b) := (PublishBits(r), PublishBytes(r));
            && Written(r) == Header(PUBLISH, f, |b|) + b && |b| < MAX_REMAINING_LENGTH && PUBLISH != PINGRESP
            && UnpackBody(PUBLISH, f, b) == UnpackPublish(f, b)
  {
    hide EncodeLength, UnpackPublish, PublishBytes, PublishBits;
  }

  lemma PublishDecoded(r: Response, rest: seq<byte>)
    requires WellFormed(r) && r.Publish?
    ensures Unpack(Written(r) + rest) == Decoded(r, |Written(r)|)
  {
    var f: nat := PublishBits(r);
    hide *;
    PublishFirst(r);
    PublishIs(r);
    PublishFields(r, f);
    UnpackHeaded(PUBLISH, f, PublishBytes(r), rest);
  }

  // Every response a broker writes is decoded as just that, whatever follows.
  lemma ResponseRead(r: Response, rest: seq<byte>)
    requires WellFormed(r)
    ensures Unpack(Written(r) + rest) == Decoded(r, |Written(r)|)
  {
    match r {
      case Connack(present, code) => ConnackRead(present, code, rest);
      case Publish(_, _, _, _, _, _) => PublishDecoded(r, rest);
      case Ack(kind, id) => AckDecoded(kind, id, rest);
      case Suback(id, codes) => SubackDecoded(id, codes, rest);
      case Pingresp => PingrespDecoded(rest);
    }
  }

  // ----- what is refused -----

  // The types a server sends (table 2.1 of MQTT 3.1.1).
  predicate FromServer(ctype: nat) {
    ctype in {2, 3, 4, 5, 6, 7, 9, 11, 13}
  }

  // Behind the fixed header: the lengths and values a body of this type must not have.
  predicate BadBody(ctype: nat, flags: nat, b: seq<byte>) {
    if ctype == 3 then |b| < 4
    else if ctype == 9 then |b| < 3
    else if ctype == 13 then false
    else |b| != 2 || (ctype == 2 && (b[0] > 1 || b[1] > 5))
  }

  // The error for what is at the front of the buffer, whose remaining length
  // has been read as n with the bytes t behind it; None if it is not refused yet or not at all.
  function Refusal(first: byte, n: nat, t: seq<byte>): Option<Error> {
    var (ctype, flags) := (first / 16, first % 16);
    if ctype == 0 || ctype == 15 then Some(CONTROL_FORBIDDEN_TYPE)
    else if ctype != 3 && flags != (if ctype in {6, 8, 10} then 2 else 0) then Some(CONTROL_INVALID_FLAGS)
    else if |t| < n then None
    else if !FromServer(ctype) then Some(RESPONSE_INVALID_CONTROL_TYPE)
    else if !BadBody(ctype, flags, t[..n]) then None
    else if ctype == 2 && n == 2 then Some(if t[0] > 1 then CONNACK_FORBIDDEN_FLAGS else CONNACK_FORBIDDEN_CODE)
    else Some(MALFORMED_RESPONSE)
  }

  lemma {:induction false} LengthAgrees(s: seq<byte>, k: nat)
    requires k <= 4
    ensures match DecodeLength(s, k)
            case Length(n, used) => used <= |s| && TakeLength(s, 4 - k) == Taken(n, s[used..])
            case TooLong => TakeLength(s, 4 - k) == Bad && |s| >= 4 - k
                            && forall i :: 0 <= i < 4 - k ==> s[i] >= 128
            case NeedMore => TakeLength(s, 4 - k) == Bad && |s| < 4 - k
    decreases 4 - k
  {
    if k < 4 && s != [] && s[0] >= 128 {
      LengthAgrees(s[1..], k + 1);
    }
  }

  lemma NothingYet(s: seq<byte>)
    requires s == []
    ensures Unpack(s) == Incomplete
  {
  }

  lemma LengthRefused(s: seq<byte>)
    requires s != [] && TakeLength(s[1..], 4) == Bad
    ensures Unpack(s) == if |s| >= 5 then Malformed(INVALID_REMAINING_LENGTH) else Incomplete
  {
    hide DecodeLength, TakeLength, UnpackHeader;
    LengthAgrees(s[1..], 0);
    HeaderIs(s);
  }

  lemma HeaderIsRefused(s: seq<byte>, n: nat, t: seq<byte>)
    requires s != [] && TakeLength(s[1..], 4) == Taken(n, t)
    ensures var (c, f, h) := (s[0] / 16, s[0] % 16, UnpackHeader(s));
            if c == 0 || c == 15 then h == HeaderBad(CONTROL_FORBIDDEN_TYPE)
            else if c != 3 && f != (if c in {6, 8, 10} then 2 else 0) then h == HeaderBad(CONTROL_INVALID_FLAGS)
            else if |t| < n then h == HeaderIncomplete
            else h.HeaderOf? && h.ctype == c && h.flags == f && h.rl == n && s[h.size..h.size + n] == t[..n]
  {
    hide DecodeLength, TakeLength, UnpackHeader;
    LengthAgrees(s[1..], 0);
    HeaderIs(s);
  }

  lemma HeaderRefused(s: seq<byte>, n: nat, t: seq<byte>)
    requires s != [] && TakeLength(s[1..], 4) == Taken(n, t)
    ensures Unpack(s).Malformed? <==> Refusal(s[0], n, t).Some?
    ensures Unpack(s).Malformed? ==> Unpack(s) == Malformed(Refusal(s[0], n, t).value)
    ensures Unpack(s) == Incomplete <==> Refusal(s[0], n, t).None? && |t| < n
  {
    hide TakeLength, UnpackHeader, UnpackBody, BadBody, FromServer;
    HeaderIsRefused(s, n, t);
    var h := UnpackHeader(s);
    if h.HeaderOf? {
      BodyRefused(h.ctype, h.flags, t[..n]);
      PingrespIs(h.flags, t[..n]);
    }
  }

  lemma PingrespIs(flags: nat, b: seq<byte>)
    ensures FromServer(13) && !BadBody(13, flags, b) && PINGRESP == 13
  {
  }

  // Which bytes are refused, and with which error, and which are waited for:
  // the remaining length, read as section 2.2.3 of MQTT 3.1.1 says, may have four bytes at most.
  lemma RefusedExactly(s: seq<byte>)
    ensures s == [] ==> Unpack(s) == Incomplete
    ensures s != [] ==>
              match TakeLength(s[1..], 4)
              case Bad => Unpack(s) == if |s| >= 5 then Malformed(INVALID_REMAINING_LENGTH) else Incomplete
              case Taken(n, t) =>
                && (Unpack(s).Malformed? <==> Refusal(s[0], n, t).Some?)
                && (Unpack(s).Malformed? ==> Unpack(s) == Malformed(Refusal(s[0], n, t).value))
                && (Unpack(s) == Incomplete <==> Refusal(s[0], n, t).None? && |t| < n)
  {
    hide *;
    if s == [] {
      NothingYet(s);
    } else {
      LengthAgrees(s[1..], 0);
      match TakeLength(s[1..], 4) {
        case Bad => LengthRefused(s);
        case Taken(n, t) => HeaderRefused(s, n, t);
      }
    }
  }

  lemma BodyRefused(ctype: nat, flags: nat, b: seq<byte>)
    requires 1 <= ctype <= 14 && flags < 16
    ensures ctype != PINGRESP ==>
              var o := UnpackBody(ctype, flags, b);
              && (o.BodyBad? <==> !FromServer(ctype) || BadBody(ctype, flags, b))
              && (!FromServer(ctype) ==> o == BodyBad(RESPONSE_INVALID_CONTROL_TYPE))
              && (FromServer(ctype) && BadBody(ctype, flags, b) ==>
                    o == BodyBad(if ctype == 2 && |b| == 2 then
                                   if b[0] > 1 then CONNACK_FORBIDDEN_FLAGS else CONNACK_FORBIDDEN_CODE
                                 else MALFORMED_RESPONSE))
  {
    hide Qos, Flag;
  }

  // ----- what it does -----

  // A message a response may be meant for: of the type, and with the
  // identifier, or not complete where the response carries none.
  predicate Meant(x: Message, ctype: nat, id: Option<u16>) {
    x.ctype == ctype && match id case None => x.state != Complete case Some(n) => x.id == n
  }

  // Message k is the first one meant; with k == |q| there is none.
  ghost predicate FirstMeant(q: seq<Message>, ctype: nat, id: Option<u16>, k: nat) {
    k <= |q| && (k < |q| ==> Meant(q[k], ctype, id)) && forall j :: 0 <= j < k ==> !Meant(q[j], ctype, id)
  }

  // s with message k complete, acknowledged by a response of this kind.
  function Acknowledged(s: Client, k: nat, kind: nat): Client
    requires k < |s.core.q|
  {
    s.(core := s.core.(q := s.core.q[k := s.core.q[k].(state := Complete)],
                       trace := s.core.trace + [Acked(s.core.base + k, kind, s.core.q[k].id)]))
  }

  // The first message meant, if there is one, is acknowledged, and the verdict
  // becomes the error; an acknowledgement of nothing is an error of its own.
  ghost predicate Settling(s: Client, ctype: nat, id: Option<u16>, kind: nat, verdict: Error, t: Client, e: Error,
                           k: nat) {
    && FirstMeant(s.core.q, ctype, id, k)
    && if k == |s.core.q| then e == ACK_OF_UNKNOWN && t == s.(error := ACK_OF_UNKNOWN)
       else e == verdict && t == if verdict == OK then Acknowledged(s, k, kind)
         else Acknowledged(s, k, kind).(error := verdict)
  }

  // As before without a verdict, and then an answer is queued.
  ghost predicate Answering(s: Client, ctype: nat, id: u16, kind: nat, answer: nat, t: Client, e: Error, k: nat,
                            h: nat) {
    && FirstMeant(s.core.q, ctype, Some(id), k)
    && if k == |s.core.q| then e == ACK_OF_UNKNOWN && t == s.(error := ACK_OF_UNKNOWN)
       else Queueing(Acknowledged(s, k, kind), AckRequest(answer, id), id, t, e, h)
  }

  // A PUBLISH is delivered once its answer, if any, is queued.
  ghost predicate Delivering(s: Client, r: Response, answer: nat, t: Client, e: Error, h: nat)
    requires r.Publish?
  {
    var event := Delivered(r.qos, r.id, r.topic, r.message);
    && t.core.trace == s.core.trace + (if e == OK then [event] else [])
    && var u := t.(core := t.core.(trace := s.core.trace));
       if answer == 0 then u == s && e == OK else Queueing(s, AckRequest(answer, r.id), r.id, u, e, h)
  }

  // What a response does: k is the first message meant for it, or for the
  // second check of a PUBREC or QoS 2 PUBLISH j the first PUBREL or PUBREC with its identifier.
  ghost predicate Handling(s: Client, r: Response, t: Client, e: Error, k: nat, j: nat, h: nat) {
    match r
    case Connack(_, code) =>
      Settling(s, 1, None, 2, if code == 0 then OK
               else if code == 2 then CONNECT_CLIENT_ID_REFUSED else CONNECTION_REFUSED, t, e, k)
    case Publish(_, qos, _, _, id, _) =>
      if qos == 1 then Delivering(s, r, 4, t, e, h)
      else if qos == 2 then
        FirstMeant(s.core.q, 5, Some(id), j) && if j < |s.core.q| then t == s && e == OK
          else Delivering(s, r, 5, t, e, h)
      else Delivering(s, r, 0, t, e, h)
    case Ack(kind, id) =>
      if kind == 4 then Settling(s, 3, Some(id), 4, OK, t, e, k)
      else if kind == 5 then
        FirstMeant(s.core.q, 6, Some(id), j)
        && if j < |s.core.q| then t == s && e == OK else Answering(s, 3, id, 5, 6, t, e, k, h)
      else if kind == 6 then Answering(s, 5, id, 6, 7, t, e, k, h)
      else if kind == 7 then Settling(s, 6, Some(id), 7, OK, t, e, k)
      else if kind == 11 then Settling(s, 10, Some(id), 11, OK, t, e, k)
      else true
    case Suback(id, codes) =>
      Settling(s, 8, Some(id), 9, if codes != [] && codes[0] == 0x80 then SUBSCRIBE_FAILED else OK, t, e, k)
    case Pingresp => Settling(s, 12, None, 13, OK, t, e, k)
  }

  lemma ReleaseIs(s: Client, ctype: nat, id: Option<u16>, kind: nat) returns (k: nat)
    ensures FirstMeant(s.core.q, ctype, id, k)
    ensures Release(s, ctype, id, kind) ==
            if k == |s.core.q| then (s.(error := ACK_OF_UNKNOWN), ACK_OF_UNKNOWN) else (Acknowledged(s, k, kind), OK)
  {
    k := FindIn(s.core.q, ctype, id);
    forall x: Message ensures Matches(x, ctype, id) <==> Meant(x, ctype, id) {
    }
  }

  lemma QueuedIs(s: Client, ctype: nat, id: u16) returns (j: nat)
    ensures FirstMeant(s.core.q, ctype, Some(id), j) && (Queued(s, ctype, id) <==> j < |s.core.q|)
  {
    j := FindIn(s.core.q, ctype, Some(id));
    forall x: Message ensures Matches(x, ctype, Some(id)) <==> Meant(x, ctype, Some(id)) {
    }
  }

  lemma AnswerIs(s: Client, ctype: nat, id: u16, stale: Stale) returns (h: nat)
    requires 4 <= ctype <= 7
    ensures Queueing(s, AckRequest(ctype, id), id, Answer(s, ctype, id, stale).0, Answer(s, ctype, id, stale).1, h)
    ensures Answer(s, ctype, id, stale).0.core.trace == s.core.trace
  {
    hide Queueing, TryPack;
    var r := AckRequest(ctype, id);
    h := QueueingHolds(s, r, stale);
    var (t, e) := TryPack(s, r, stale);
    QueueingOutcome(s, r, id, t, e, h);
    assert e != OK ==> t.(error := e) == t;
  }

  // An error is kept in the client, and queueing is no event.
  lemma QueueingOutcome(s: Client, r: Request, id: u16, t: Client, e: Error, h: nat)
    requires Queueing(s, r, id, t, e, h)
    ensures t.error == e && t.core.trace == s.core.trace
  {
    hide HasRoom, Says, CompleteFront, Forbidden, Reason, RemainingLength, Free;
  }

  lemma PublishHandling(s: Client, r: Response, stale: Stale) returns (j: nat, h: nat)
    requires r.Publish?
    ensures var (t, e) := HandlePublish(s, r.qos, r.id, r.topic, r.message, stale); Handling(s, r, t, e, 0, j, h)
  {
    hide Queueing, Answer, Queued, FirstMeant;
    j, h := 0, 0;
    if r.qos == 1 {
      h := AnswerIs(s, PUBACK, r.id, stale);
      var (u, e) := Answer(s, PUBACK, r.id, stale);
      Undelivered(s, u, r);
    } else if r.qos == 2 {
      j := QueuedIs(s, PUBREC, r.id);
      h := AnswerIs(s, PUBREC, r.id, stale);
      var (u, e) := Answer(s, PUBREC, r.id, stale);
      Undelivered(s, u, r);
    } else {
      Undelivered(s, s, r);
    }
  }

  lemma Undelivered(s: Client, u: Client, r: Response)
    requires r.Publish? && u.core.trace == s.core.trace
    ensures var t := Deliver(u, r.qos, r.id, r.topic, r.message);
            && t.(core := t.core.(trace := s.core.trace)) == u == u.(core := u.core.(trace := s.core.trace))
            && t.core.trace == s.core.trace + [Delivered(r.qos, r.id, r.topic, r.message)]
    ensures s.core.trace + [] == s.core.trace
  {
  }

  lemma AckHandling(s: Client, kind: nat, id: u16, stale: Stale) returns (k: nat, j: nat, h: nat)
    ensures var (t, e) := HandleAck(s, kind, id, stale); Handling(s, Ack(kind, id), t, e, k, j, h)
  {
    hide Queueing, Answer, Queued, FirstMeant, Release, Acknowledged;
    k, j, h := 0, 0, 0;
    if kind == PUBACK {
      k := ReleaseIs(s, PUBLISH, Some(id), kind);
    } else if kind == PUBREC {
      j := QueuedIs(s, PUBREL, id);
      k := ReleaseIs(s, PUBLISH, Some(id), kind);
      h := AnswerIs(Release(s, PUBLISH, Some(id), kind).0, PUBREL, id, stale);
    } else if kind == PUBREL {
      k := ReleaseIs(s, PUBREC, Some(id), kind);
      h := AnswerIs(Release(s, PUBREC, Some(id), kind).0, PUBCOMP, id, stale);
    } else if kind == PUBCOMP {
      k := ReleaseIs(s, PUBREL, Some(id), kind);
    } else if kind == UNSUBACK {
      k := ReleaseIs(s, UNSUBSCRIBE, Some(id), kind);
    }
  }

  // What the client does with any response.
  lemma ResponseHandled(s: Client, r: Response, stale: Stale) returns (k: nat, j: nat, h: nat)
    ensures var (t, e) := Handle(s, r, stale); Handling(s, r, t, e, k, j, h)
  {
    k, j, h := 0, 0, 0;
    match r {
      case Connack(_, _) =>
        hide FirstMeant, Release, Acknowledged;
        k := ReleaseIs(s, CONNECT, None, CONNACK);
      case Publish(_, qos, _, topic, id, message) =>
        hide HandlePublish, Handling;
        j, h := PublishHandling(s, r, stale);
      case Ack(kind, id) =>
        hide HandleAck, Handling;
        k, j, h := AckHandling(s, kind, id, stale);
      case Suback(id, codes) =>
        hide FirstMeant, Release, Acknowledged;
        k := ReleaseIs(s, SUBSCRIBE, Some(id), SUBACK);
      case Pingresp =>
        hide FirstMeant, Release, Acknowledged;
        k := ReleaseIs(s, PINGREQ, None, PINGRESP);
    }
  }

  // What a CONNACK decides, from its four bytes: it completes the first CONNECT
  // that is not complete, and the client is connected exactly at return code 0.
  lemma ConnackDecides(s: Client, k: nat, present: byte, code: byte, rest: seq<byte>, stale: Stale)
    requires k < |s.core.q| && FirstMeant(s.core.q, 1, None, k) && present <= 1 && code <= 5
    ensures var o := Unpack([0x20, 2, present, code] + rest);
            && o.Decoded? && o.consumed == 4
            && var (t, e) := Handle(s, o.response, stale);
               && t == Acknowledged(s, k, 2).(error := t.error)
               && (e == OK <==> code == 0) && (code == 0 ==> t.error == s.error) && (code != 0 ==> t.error == e)
               && (e == CONNECT_CLIENT_ID_REFUSED <==> code == 2)
               && (e == CONNECTION_REFUSED <==> code in {1, 3, 4, 5})
  {
    ConnackRead(present, code, rest);
    hide Unpack, Handle, Acknowledged;
    var j, _, _ := ResponseHandled(s, Connack(present, code), stale);
    OnlyFirst(s.core.q, 1, None, j, k);
    AcknowledgedKeeps(s, k, 2);
  }

  lemma OnlyFirst(q: seq<Message>, ctype: nat, id: Option<u16>, j: nat, k: nat)
    requires FirstMeant(q, ctype, id, j) && FirstMeant(q, ctype, id, k)
    ensures j == k
  {
  }

  lemma AcknowledgedKeeps(s: Client, k: nat, kind: nat)
    requires k < |s.core.q|
    ensures Acknowledged(s, k, kind).error == s.error
  {
  }

  // What a SUBACK decides: the subscription fails exactly if the first return code is 0x80.
  lemma SubackDecides(s: Client, k: nat, id: u16, codes: seq<byte>, rest: seq<byte>, stale: Stale)
    requires k < |s.core.q| && FirstMeant(s.core.q, 8, Some(id), k) && 1 <= |codes| < 0x1000_0000 - 2
    ensures var p := [0x90] + EncodeLength(2 + |codes|) + [id / 256, id % 256] + codes;
            var o := Unpack(p + rest);
            && o.Decoded? && o.consumed == |p|
            && var (t, e) := Handle(s, o.response, stale);
               && t == Acknowledged(s, k, 9).(error := t.error)
               && (e == SUBSCRIBE_FAILED <==> codes[0] == 0x80) && (e == OK <==> codes[0] != 0x80)
               && t.error == if codes[0] == 0x80 then SUBSCRIBE_FAILED else s.error
  {
    SubackDecoded(id, codes, rest);
    hide Unpack, Handle, Acknowledged;
    var j, _, _ := ResponseHandled(s, Suback(id, codes), stale);
    OnlyFirst(s.core.q, 8, Some(id), j, k);
    AcknowledgedKeeps(s, k, 9);
  }
}
