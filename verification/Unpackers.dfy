// The unpackers of src/mqtt.c on the receive buffer, each proved to return what Wire says.
module Unpackers {
  import opened Types
  import opened Wire

  // 128 to the power k: the weight of length byte k.
  function Weight(k: nat): nat {
    if k == 0 then 1 else 128 * Weight(k - 1)
  }

  function Term(k: nat, b: byte): nat {
    Weight(k) * (b % 128)
  }

  // The length decoded from byte k on, on top of what the bytes before gave.
  function OnTop(o: LengthOutcome, rl: nat, k: nat): LengthOutcome {
    match o
    case Length(n, u) => Length(rl + Weight(k) * n, u + k)
    case other => other
  }

  lemma OnTopNext(s: seq<byte>, rl: nat, k: nat)
    requires k < 4 && s != []
    ensures s[0] >= 128
            ==> OnTop(DecodeLength(s, k), rl, k) == OnTop(DecodeLength(s[1..], k + 1), rl + Term(k, s[0]), k + 1)
    ensures s[0] < 128 ==> OnTop(DecodeLength(s, k), rl, k) == Length(rl + Term(k, s[0]), k + 1)
  {
    if s[0] >= 128 {
      assert s[0] % 128 == s[0] - 128;
      match DecodeLength(s[1..], k + 1) {
        case Length(n, u) => Distribute(Weight(k), s[0] - 128, n);
        case _ =>
      }
    }
  }

  lemma Distribute(w: nat, b: nat, n: nat)
    ensures w * (b + 128 * n) == w * b + 128 * w * n
  {
  }

  lemma StartOnTop(s: seq<byte>)
    ensures OnTop(DecodeLength(s, 0), 0, 0) == DecodeLength(s, 0)
  {
  }

  lemma NoLength(s: seq<byte>, rl: nat, k: nat)
    requires k <= 4
    ensures k == 4 ==> OnTop(DecodeLength(s, k), rl, k) == TooLong
    ensures k < 4 && s == [] ==> OnTop(DecodeLength(s, k), rl, k) == NeedMore
  {
  }

  // The loop of mqtt_unpack_fixed_header over the length bytes behind the first byte.
  method GetLength(a: array<byte>, size: nat) returns (o: LengthOutcome)
    requires 0 < size <= a.Length
    ensures o == DecodeLength(a[1..size], 0)
  {
    var rl: nat, k: nat, more := 0, 0, true;
    ghost var s := a[1..size];
    assert s[0..] == s;
    StartOnTop(s);
    hide DecodeLength, OnTop, Term;
    while more
      invariant k <= 4 && k <= |s| && (k == 0 ==> more)
      invariant more ==> DecodeLength(s, 0) == OnTop(DecodeLength(s[k..], k), rl, k)
      invariant !more ==> DecodeLength(s, 0) == Length(rl, k)
      decreases 4 - k, more
    {
      if k == 4 {
        NoLength(s[k..], rl, k);
        return TooLong;
      }
      if k + 1 == size {
        NoLength(s[k..], rl, k);
        return NeedMore;
      }
      var b := a[k + 1];
      assert s[k..][0] == b && s[k..][1..] == s[k + 1..];
      OnTopNext(s[k..], rl, k);
      rl := rl + Term(k, b);
      more := b >= 128;
      k := k + 1;
    }
    o := Length(rl, k);
  }

  // mqtt_unpack_fixed_header
  method GetHeader(a: array<byte>, size: nat) returns (o: HeaderOutcome)
    requires size <= a.Length
    ensures o == UnpackHeader(a[..size])
  {
    if size == 0 {
      return HeaderIncomplete;
    }
    assert a[..size][1..] == a[1..size];
    var (ctype, flags) := (a[0] / 16, a[0] % 16);
    var length := GetLength(a, size);
    hide DecodeLength, HeaderViolation;
    match length {
      case NeedMore => o := HeaderIncomplete;
      case TooLong => o := HeaderBad(INVALID_REMAINING_LENGTH);
      case Length(rl, used) =>
        var e := HeaderViolation(ctype, flags);
        if e != OK {
          o := HeaderBad(e);
        } else if size - 1 - used < rl {
          o := HeaderIncomplete;
        } else {
          o := HeaderOf(ctype, flags, rl, used + 1);
        }
    }
  }

  // __mqtt_unpack_uint16
  method GetU16(a: array<byte>, pos: nat) returns (n: u16)
    requires pos + 2 <= a.Length
    ensures n == FromU16(a[pos], a[pos + 1])
  {
    n := FromU16(a[pos], a[pos + 1]);
  }

  // mqtt_unpack_connack_response
  method GetConnack(a: array<byte>, pos: nat, rl: nat) returns (o: BodyOutcome)
    requires pos + rl <= a.Length
    ensures o == UnpackConnack(a[pos..pos + rl])
  {
    if rl != 2 {
      return BodyBad(MALFORMED_RESPONSE);
    }
    if a[pos] / 2 != 0 {
      return BodyBad(CONNACK_FORBIDDEN_FLAGS);
    }
    if a[pos + 1] > 5 {
      return BodyBad(CONNACK_FORBIDDEN_CODE);
    }
    o := BodyOf(Connack(a[pos], a[pos + 1]));
  }

  // mqtt_unpack_publish_response
  method GetPublish(a: array<byte>, pos: nat, rl: nat, flags: nat) returns (o: BodyOutcome)
    requires pos + rl <= a.Length && flags < 16
    ensures o == UnpackPublish(flags, a[pos..pos + rl])
  {
    var (dup, qos, retain) := (Flag(flags, 8), Qos(flags), flags % 2);
    if rl < 4 {
      return BodyBad(MALFORMED_RESPONSE);
    }
    ghost var b := a[pos..pos + rl];
    var size := GetU16(a, pos);
    var p := pos + 2;
    if p + size + (if qos > 0 then 2 else 0) > pos + rl {
      return BodyOverrun;
    }
    var topic := a[p..p + size];
    assert topic == b[2..2 + size];
    p := p + size;
    var id := 0;
    if qos > 0 {
      id := GetU16(a, p);
      p := p + 2;
    }
    assert id == if qos > 0 then FromU16(b[2 + size], b[3 + size]) else 0;
    assert a[p..pos + rl] == b[p - pos..];
    o := BodyOf(Publish(dup, qos, retain, topic, id, a[p..pos + rl]));
  }

  // mqtt_unpack_pubxxx_response and mqtt_unpack_unsuback_response
  method GetAck(a: array<byte>, pos: nat, rl: nat, ctype: nat) returns (o: BodyOutcome)
    requires pos + rl <= a.Length
    ensures o == UnpackAck(ctype, a[pos..pos + rl])
  {
    if rl != 2 {
      return BodyBad(MALFORMED_RESPONSE);
    }
    var id := GetU16(a, pos);
    o := BodyOf(Ack(ctype, id));
  }

  // mqtt_unpack_suback_response
  method GetSuback(a: array<byte>, pos: nat, rl: nat) returns (o: BodyOutcome)
    requires pos + rl <= a.Length
    ensures o == UnpackSuback(a[pos..pos + rl])
  {
    if rl < 3 {
      return BodyBad(MALFORMED_RESPONSE);
    }
    var id := GetU16(a, pos);
    assert a[pos..pos + rl][2..] == a[pos + 2..pos + rl];
    o := BodyOf(Suback(id, a[pos + 2..pos + rl]));
  }

  // mqtt_unpack_response on the first size bytes of the buffer
  method GetResponse(a: array<byte>, size: nat) returns (o: UnpackOutcome)
    requires size <= a.Length
    ensures o == Unpack(a[..size])
  {
    hide UnpackHeader, UnpackConnack, UnpackPublish, UnpackAck, UnpackSuback;
    var header := GetHeader(a, size);
    match header {
      case HeaderIncomplete => return Incomplete;
      case HeaderBad(e) => return Malformed(e);
      case HeaderOf(ctype, flags, rl, n) =>
        assert a[..size][n..n + rl] == a[n..n + rl];
        var body;
        if ctype == CONNACK {
          body := GetConnack(a, n, rl);
        } else if ctype == PUBLISH {
          body := GetPublish(a, n, rl, flags);
        } else if PUBACK <= ctype <= PUBCOMP || ctype == UNSUBACK {
          body := GetAck(a, n, rl, ctype);
        } else if ctype == SUBACK {
          body := GetSuback(a, n, rl);
        } else if ctype == PINGRESP {
          return Decoded(Pingresp, n);
        } else {
          return Malformed(RESPONSE_INVALID_CONTROL_TYPE);
        }
        match body {
          case BodyOf(r) => o := Decoded(r, n + rl);
          case BodyBad(e) => o := Malformed(e);
          case BodyOverrun => o := Overrun;
        }
    }
  }
}
