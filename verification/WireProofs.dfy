// Round trips, exact lengths and framing of the wire format.
module WireProofs {
  import opened Types
  import opened Wire

  // ----- remaining length -----

  // A number below 2^28 takes one to four bytes and is read back unchanged, whatever follows.
  lemma {:induction false} LengthRoundTrip(n: nat, rest: seq<byte>, k: nat)
    requires k <= 3 && n < Capacity(4 - k)
    ensures DecodeLength(EncodeLength(n) + rest, k) == Length(n, |EncodeLength(n)|)
    decreases 4 - k
  {
    var s := EncodeLength(n) + rest;
    if n >= 128 {
      assert s[1..] == EncodeLength(n / 128) + rest;
      LengthRoundTrip(n / 128, rest, k + 1);
    }
  }

  // What c length bytes can express.
  function Capacity(c: nat): nat {
    if c == 0 then 1 else 128 * Capacity(c - 1)
  }

  // No encoding of n is shorter than the one that is packed.
  lemma {:induction false} LengthMinimal(s: seq<byte>, k: nat)
    requires k <= 4 && DecodeLength(s, k).Length?
    ensures var o := DecodeLength(s, k); |EncodeLength(o.value)| <= o.used && o.value < Capacity(o.used)
    decreases 4 - k
  {
    if s[0] >= 128 {
      LengthMinimal(s[1..], k + 1);
      var (n, o) := (DecodeLength(s, k).value, DecodeLength(s[1..], k + 1));
      assert n / 128 == o.value;
    }
  }

  lemma LengthBytes(n: nat)
    requires n < MAX_REMAINING_LENGTH
    ensures |EncodeLength(n)| == if n < 0x80 then 1 else if n < 0x4000 then 2 else if n < 0x20_0000 then 3 else 4
  {
    if n >= 0x80 {
      var m := n / 128;
      if m >= 0x80 {
        var l := m / 128;
        assert EncodeLength(m) == [m % 128 + 128] + EncodeLength(l);
        if l >= 0x80 {
          assert EncodeLength(l) == [l % 128 + 128] + EncodeLength(l / 128);
        }
      }
    }
  }

  lemma {:induction false} LengthExtends(s: seq<byte>, k: nat, rest: seq<byte>)
    requires k <= 4 && DecodeLength(s, k).Length?
    ensures DecodeLength(s + rest, k) == DecodeLength(s, k)
    decreases 4 - k
  {
    if s[0] >= 128 {
      assert (s + rest)[1..] == s[1..] + rest;
      LengthExtends(s[1..], k + 1, rest);
    }
  }

  lemma {:induction false} LengthPrefix(s: seq<byte>, k: nat, j: nat)
    requires k <= 4 && DecodeLength(s, k).Length? && j < DecodeLength(s, k).used
    ensures DecodeLength(s[..j], k) == NeedMore
    decreases 4 - k
  {
    if j > 0 {
      assert s[..j][1..] == s[1..][..j - 1];
      LengthPrefix(s[1..], k + 1, j - 1);
    }
  }

  // Decoding a length looks only at the bytes it uses.
  lemma {:induction false} LengthLocal(s: seq<byte>, k: nat, j: nat)
    requires k <= 4 && DecodeLength(s, k).Length? && DecodeLength(s, k).used <= j <= |s|
    ensures DecodeLength(s[..j], k) == DecodeLength(s, k)
    decreases 4 - k
  {
    if s[0] >= 128 {
      assert s[..j][1..] == s[1..][..j - 1];
      LengthLocal(s[1..], k + 1, j - 1);
    }
  }

  lemma LengthFront(s: seq<byte>, j: nat)
    requires DecodeLength(s, 0).Length? && j <= |s|
    ensures var l := DecodeLength(s, 0); DecodeLength(s[..j], 0) == if j < l.used then NeedMore else l
  {
    hide DecodeLength;
    if j < DecodeLength(s, 0).used {
      LengthPrefix(s, 0, j);
    } else {
      LengthLocal(s, 0, j);
    }
  }

  // ----- framing -----

  // A complete packet: it is decoded, and decoding uses all of it.
  predicate WholePacket(p: seq<byte>) {
    Unpack(p).Decoded? && Unpack(p).consumed == |p|
  }

  lemma HeaderExtends(p: seq<byte>, rest: seq<byte>)
    requires UnpackHeader(p).HeaderOf?
    ensures UnpackHeader(p + rest) == UnpackHeader(p)
  {
    LengthExtends(p[1..], 0, rest);
    assert (p + rest)[1..] == p[1..] + rest;
  }

  // The header by its first byte, the length behind it and the number of bytes there are.
  function HeaderBy(b: byte, l: LengthOutcome, n: nat): HeaderOutcome {
    match l
    case NeedMore => HeaderIncomplete
    case TooLong => HeaderBad(INVALID_REMAINING_LENGTH)
    case Length(value, used) =>
      if HeaderViolation(b / 16, b % 16) != OK then HeaderBad(HeaderViolation(b / 16, b % 16))
      else if n - 1 - used < value then HeaderIncomplete
      else HeaderOf(b / 16, b % 16, value, used + 1)
  }

  lemma HeaderIs(s: seq<byte>)
    ensures UnpackHeader(s) == if s == [] then HeaderIncomplete else HeaderBy(s[0], DecodeLength(s[1..], 0), |s|)
  {
    hide DecodeLength, HeaderViolation;
  }

  lemma HeaderByLess(b: byte, l: LengthOutcome, n: nat, j: nat)
    requires HeaderBy(b, l, n).HeaderOf? && j <= n
    ensures var h := HeaderBy(b, l, n);
            l.Length? && h.size == l.used + 1 && HeaderBy(b, l, j) == if j < h.size + h.rl then HeaderIncomplete else h
    ensures HeaderBy(b, NeedMore, j) == HeaderIncomplete
  {
    hide HeaderViolation;
  }

  lemma Front(s: seq<byte>, j: nat)
    requires 0 < j <= |s|
    ensures |s[..j]| == j && s[..j][0] == s[0] && s[..j][1..] == s[1..][..j - 1]
  {
  }

  // The header of a prefix is known once the prefix holds the whole packet, and is incomplete before that.
  lemma HeaderPrefix(s: seq<byte>, j: nat)
    requires UnpackHeader(s).HeaderOf? && j <= |s|
    ensures var h := UnpackHeader(s);
            UnpackHeader(s[..j]) == if j < h.size + h.rl then HeaderIncomplete else h
  {
    hide *;
    HeaderIs(s);
    HeaderIs(s[..j]);
    if j > 0 {
      var l := DecodeLength(s[1..], 0);
      Front(s, j);
      HeaderByLess(s[0], l, |s|, j);
      LengthFront(s[1..], j - 1);
    }
  }

  // Bytes behind a packet change nothing.
  lemma UnpackExtends(p: seq<byte>, rest: seq<byte>)
    requires WholePacket(p)
    ensures Unpack(p + rest) == Unpack(p)
  {
    hide UnpackHeader, UnpackBody;
    var h := UnpackHeader(p);
    HeaderExtends(p, rest);
    assert p[h.size..h.size + h.rl] == (p + rest)[h.size..h.size + h.rl];
  }

  // A packet cut short is never decoded, and never an error.
  lemma UnpackPrefix(p: seq<byte>, j: nat)
    requires WholePacket(p) && j < |p|
    ensures Unpack(p[..j]) == Incomplete
  {
    hide UnpackHeader, UnpackBody;
    HeaderPrefix(p, j);
  }

  // Whatever is decoded from the front of a buffer is a complete packet, unless it is a PINGRESP with a body.
  lemma DecodedIsComplete(s: seq<byte>)
    requires Unpack(s).Decoded?
    ensures WholePacket(s[..Unpack(s).consumed]) <==> (UnpackHeader(s).ctype == PINGRESP ==> UnpackHeader(s).rl == 0)
  {
    hide UnpackHeader, UnpackBody;
    var (h, n) := (UnpackHeader(s), Unpack(s).consumed);
    HeaderPrefix(s, n);
    if n == h.size + h.rl {
      assert s[..n][h.size..h.size + h.rl] == s[h.size..h.size + h.rl];
    }
  }

  // ----- declared and actual length -----

  // Every string is short enough for its 16-bit length.
  predicate StringsFit(r: Request) {
    match r
    case ConnectRequest(c, w, u, p, _, _) =>
      && |c| < 65536
      && (w.Some? && w.value.message.Some? ==> |w.value.topic| < 65536)
      && (u.Some? ==> |u.value| < 65536)
      && (p.Some? ==> |p.value| < 65536)
    case PublishRequest(t, _, _, _) => |t| < 65536
    case SubscribeRequest(_, ts) => forall i :: 0 <= i < |ts| ==> |ts[i].name| < 65536
    case UnsubscribeRequest(_, ts) => forall i :: 0 <= i < |ts| ==> |ts[i]| < 65536
    case _ => true
  }

  lemma StringLength(s: CString)
    ensures |PackString(s)| <= |s| + 2 && (|PackString(s)| == |s| + 2 <==> |s| < 65536)
  {
  }

  lemma {:induction false} TopicsSize(ts: seq<Topic>)
    ensures |PackTopics(ts)| <= TopicsLength(ts)
    ensures |PackTopics(ts)| == TopicsLength(ts) <==> forall i :: 0 <= i < |ts| ==> |ts[i].name| < 65536
  {
    if ts != [] {
      var n := |ts| - 1;
      StringLength(ts[n].name);
      TopicsSize(ts[..n]);
      assert forall i :: 0 <= i < |ts| ==> i == n || (i < n && ts[i] == ts[..n][i]);
      assert forall i :: 0 <= i < n ==> ts[..n][i] == ts[i];
    }
  }

  lemma {:induction false} NamesSize(ts: seq<CString>)
    ensures |PackNames(ts)| <= NamesLength(ts)
    ensures |PackNames(ts)| == NamesLength(ts) <==> forall i :: 0 <= i < |ts| ==> |ts[i]| < 65536
  {
    if ts != [] {
      var n := |ts| - 1;
      StringLength(ts[n]);
      NamesSize(ts[..n]);
      assert forall i :: 0 <= i < |ts| ==> i == n || (i < n && ts[i] == ts[..n][i]);
      assert forall i :: 0 <= i < n ==> ts[..n][i] == ts[i];
    }
  }

  lemma ConnectLength(r: Request)
    requires r.ConnectRequest?
    ensures |Body(r)| <= RemainingLength(r)
    ensures |Body(r)| == RemainingLength(r) <==> StringsFit(r)
  {
    hide PackString;
    StringLength(r.clientId);
    if r.will.Some? && r.will.value.message.Some? { StringLength(r.will.value.topic); }
    if r.userName.Some? { StringLength(r.userName.value); }
    if r.password.Some? { StringLength(r.password.value); }
  }

  // The body is never longer than the length declared for it, and equal to it exactly when all strings fit.
  lemma BodyLength(r: Request)
    ensures |Body(r)| <= RemainingLength(r)
    ensures |Body(r)| == RemainingLength(r) <==> StringsFit(r)
  {
    hide PackString;
    match r {
      case ConnectRequest(_, _, _, _, _, _) => ConnectLength(r);
      case PublishRequest(t, _, _, _) => StringLength(t);
      case SubscribeRequest(_, ts) => TopicsSize(ts);
      case UnsubscribeRequest(_, ts) => NamesSize(ts);
      case _ =>
    }
  }

  // A packet never exceeds the room it was packed into, and its length is
  // header plus declared remaining length exactly when all strings fit.
  lemma PackedLength(room: nat, r: Request)
    requires Pack(room, r).Packed?
    ensures var p := Pack(room, r).bytes;
            var h := Header(TypeOf(r), FlagsOf(r), RemainingLength(r));
            && 2 <= |p| <= room
            && h <= p && p[0] == 16 * TypeOf(r) + FlagsOf(r)
            && (|p| == |h| + RemainingLength(r) <==> StringsFit(r))
  {
    BodyLength(r);
  }

  // ----- round trips -----

  lemma TypeFits(ctype: nat, flags: nat)
    requires HeaderViolation(ctype, flags) == OK
    ensures ctype <= 14
  {
  }

  lemma HeaderParts(ctype: nat, flags: nat, body: seq<byte>, rest: seq<byte>)
    requires ctype < 16 && flags < 16 && |body| < MAX_REMAINING_LENGTH
    ensures var (h, l) := (Header(ctype, flags, |body|), EncodeLength(|body|));
            && |h| == 1 + |l| && (h + body + rest)[0] == 16 * ctype + flags
            && (h + body + rest)[1..] == l + (body + rest)
            && (h + body + rest)[|h|..|h| + |body|] == body && |body| < Capacity(4)
            && |h + body + rest| == |h| + |body| + |rest|
  {
    hide EncodeLength;
  }

  lemma HeaderFits(ctype: nat, flags: nat, value: nat, used: nat, n: nat)
    requires ctype < 16 && flags < 16 && HeaderViolation(ctype, flags) == OK && n >= 1 + used + value
    ensures HeaderBy(16 * ctype + flags, Length(value, used), n) == HeaderOf(ctype, flags, value, used + 1)
  {
    hide HeaderViolation;
  }

  lemma HeaderRoundTrip(ctype: nat, flags: nat, body: seq<byte>, rest: seq<byte>)
    requires flags < 16 && HeaderViolation(ctype, flags) == OK && |body| < MAX_REMAINING_LENGTH
    ensures var h := Header(ctype, flags, |body|);
            UnpackHeader(h + body + rest) == HeaderOf(ctype, flags, |body|, |h|)
    ensures var h := Header(ctype, flags, |body|);
            (h + body + rest)[|h|..|h| + |body|] == body
  {
    TypeFits(ctype, flags);
    hide *;
    var h := Header(ctype, flags, |body|);
    HeaderParts(ctype, flags, body, rest);
    LengthRoundTrip(|body|, body + rest, 0);
    HeaderIs(h + body + rest);
    HeaderFits(ctype, flags, |body|, |EncodeLength(|body|)|, |h + body + rest|);
  }

  // What is decoded from a header, a body and what follows.
  lemma UnpackHeaded(ctype: nat, flags: nat, body: seq<byte>, rest: seq<byte>)
    requires flags < 16 && HeaderViolation(ctype, flags) == OK && |body| < MAX_REMAINING_LENGTH && ctype != PINGRESP
    ensures var h := Header(ctype, flags, |body|);
            Unpack(h + body + rest) ==
            match UnpackBody(ctype, flags, body)
            case BodyOf(r) => Decoded(r, |h| + |body|)
            case BodyBad(e) => Malformed(e)
            case BodyOverrun => Overrun
  {
    HeaderRoundTrip(ctype, flags, body, rest);
    hide Header, UnpackHeader, UnpackBody, HeaderViolation;
  }

  // PUBACK, PUBREC, PUBREL and PUBCOMP (sections 3.4 to 3.7 of MQTT 3.1.1).
  lemma AckRoundTrip(room: nat, ctype: nat, id: u16, rest: seq<byte>)
    requires PUBACK <= ctype <= PUBCOMP && Pack(room, AckRequest(ctype, id)).Packed?
    ensures var p := Pack(room, AckRequest(ctype, id)).bytes;
            Unpack(p + rest) == Decoded(Ack(ctype, id), |p|)
  {
    var r := AckRequest(ctype, id);
    HeaderRoundTrip(ctype, FlagsOf(r), Body(r), rest);
  }

  // A packed PUBLISH (section 3.3 of MQTT 3.1.1) whose topic fits its 16-bit
  // length is decoded to what was published exactly when its remaining length
  // is at least 4; a shorter one, legal on the wire, is reported as malformed.
  lemma PublishRoundTrip(room: nat, topic: CString, id: u16, message: seq<byte>, flags: byte, rest: seq<byte>)
    requires |topic| < 65536 && Pack(room, PublishRequest(topic, id, message, flags)).Packed?
    ensures var r := PublishRequest(topic, id, message, flags);
            var p := Pack(room, r).bytes;
            var q := Qos(flags);
            Unpack(p + rest) ==
              if RemainingLength(r) < 4 then Malformed(MALFORMED_RESPONSE)
              else Decoded(Publish(if q == 0 then 0 else Flag(flags, 8), q, flags % 2, topic,
                                    if q == 0 then 0 else id, message), |p|)
  {
    var r := PublishRequest(topic, id, message, flags);
    var (f, b) := (FlagsOf(r), Body(r));
    BodyLength(r);
    UnpackHeaded(PUBLISH, f, b, rest);
    PublishFlags(flags);
    hide Header, Unpack, HeaderViolation, Body, FlagsOf, Qos, Flag;
    if |b| >= 4 {
      PublishBody(topic, id, message, flags);
    }
  }

  lemma PublishFlags(flags: byte)
    ensures var f := FlagsOf(PublishRequest([], 0, [], flags));
            && Qos(f) == Qos(flags) && f % 2 == flags % 2
            && Flag(f, 8) == if Qos(flags) == 0 then 0 else Flag(flags, 8)
  {
    hide Flag, Qos;
    FlagSplit(flags);
    var (a, d, q, r) := (flags / 16, Flag(flags, 8), Qos(flags), flags % 2);
    FlagBits(d, q, r);
    FlagBits(0, q, r);
    assert WithoutDup(flags) == if d == 1 then flags - 8 else flags;
    assert (16 * a + (8 * d + 2 * q + r)) % 16 == 8 * d + 2 * q + r;
    assert (16 * a + (2 * q + r)) % 16 == 2 * q + r;
  }

  lemma FlagSplit(flags: byte)
    ensures flags == 16 * (flags / 16) + 8 * Flag(flags, 8) + 2 * Qos(flags) + flags % 2
    ensures Flag(flags, 8) < 2 && Qos(flags) < 4
  {
    assert flags / 8 == 2 * (flags / 16) + (flags / 8) % 2;
    assert flags / 2 == 4 * (flags / 8) + (flags / 2) % 4;
  }

  lemma FlagBits(d: nat, q: nat, r: nat)
    requires d < 2 && q < 4 && r < 2
    ensures var f := 8 * d + 2 * q + r; f < 16 && Qos(f) == q && Flag(f, 8) == d && f % 2 == r
  {
  }

  lemma PublishBody(topic: CString, id: u16, message: seq<byte>, flags: byte)
    requires |topic| < 65536 && Qos(flags) < 3
    requires |Body(PublishRequest(topic, id, message, flags))| >= 4
    ensures var f := FlagsOf(PublishRequest(topic, id, message, flags));
            var q := Qos(flags);
            UnpackPublish(f, Body(PublishRequest(topic, id, message, flags))) ==
            BodyOf(Publish(if q == 0 then 0 else Flag(flags, 8), q, flags % 2, topic,
                           if q == 0 then 0 else id, message))
  {
    var (b, n) := (Body(PublishRequest(topic, id, message, flags)), |topic|);
    var ids := if Qos(flags) > 0 then U16(id) else [];
    PublishFlags(flags);
    assert topic[..n % 65536] == topic;
    assert b == U16(n) + topic + ids + message;
    Parts(U16(n), topic, ids, message);
    hide Flag, Qos, FlagsOf, Body, U16;
    U16Back(n);
    U16Back(id);
    assert b[2..2 + n] == topic;
    assert b[0] == U16(n)[0] && b[1] == U16(n)[1];
    if Qos(flags) > 0 {
      assert b[2 + n] == ids[0] && b[3 + n] == ids[1];
    }
  }

  lemma U16Back(n: u16)
    ensures FromU16(U16(n)[0], U16(n)[1]) == n
  {
  }

  lemma Parts(a: seq<byte>, b: seq<byte>, c: seq<byte>, d: seq<byte>)
    ensures var s := a + b + c + d;
            && s[..|a|] == a && s[|a|..|a| + |b|] == b && s[|a| + |b|..|a| + |b| + |c|] == c
            && s[|a| + |b| + |c|..] == d
  {
  }
}
