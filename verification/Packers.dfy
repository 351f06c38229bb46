// The packers of src/mqtt.c, writing in place.  A result n > 0 is the number of
// bytes packed, n == 0 with error OK means the buffer is too small, and any
// other error is the negative return code.  `lo` is where the packet starts.
module Packers {
  import opened Types
  import opened Wire
  import opened WireProofs

  // Memory m with s written over it at pos.
  function Splice(m: seq<byte>, pos: nat, s: seq<byte>): (r: seq<byte>)
    requires pos + |s| <= |m|
    ensures |r| == |m|
  {
    m[..pos] + s + m[pos + |s|..]
  }

  lemma SpliceNothing(m: seq<byte>, pos: nat)
    requires pos <= |m|
    ensures Splice(m, pos, []) == m
  {
  }

  lemma SpliceSplice(m: seq<byte>, pos: nat, s: seq<byte>, t: seq<byte>)
    requires pos + |s| + |t| <= |m|
    ensures Splice(Splice(m, pos, s), pos + |s|, t) == Splice(m, pos, s + t)
  {
  }

  // What a packer with `room` bytes at `lo` may return for outcome o: it
  // touches nothing outside its room, and a packed packet is all it writes.
  ghost predicate Result(o: PackOutcome, m: seq<byte>, m': seq<byte>, lo: nat, room: nat, n: nat, error: Error)
    requires lo + room <= |m|
  {
    && Scratch(m, m', lo, room)
    && match o
       case Packed(p) => error == OK && 0 < n == |p| <= room && m' == Splice(m, lo, p)
       case NoRoom => error == OK && n == 0
       case Refused(e) => error == e && e != OK && n == 0
  }

  ghost predicate Scratch(m: seq<byte>, m': seq<byte>, lo: nat, room: nat)
    requires lo + room <= |m|
  {
    exists s: seq<byte> :: |s| <= room && m' == Splice(m, lo, s)
  }

  lemma ScratchOf(m: seq<byte>, m': seq<byte>, lo: nat, room: nat, s: seq<byte>)
    requires lo + room <= |m| && |s| <= room && m' == Splice(m, lo, s)
    ensures Scratch(m, m', lo, room)
  {
  }

  lemma ScratchBehind(m: seq<byte>, m': seq<byte>, lo: nat, room: nat, b: byte)
    requires lo + room <= |m| && room > 0 && Scratch(Splice(m, lo, [b]), m', lo + 1, room - 1)
    ensures Scratch(m, m', lo, room)
  {
    hide Splice;
    var s: seq<byte> :| |s| <= room - 1 && m' == Splice(Splice(m, lo, [b]), lo + 1, s);
    SpliceSplice(m, lo, [b], s);
    ScratchOf(m, m', lo, room, [b] + s);
  }

  method PutByte(a: array<byte>, pos: nat, b: byte) returns (end: nat)
    requires pos < a.Length
    modifies a
    ensures end == pos + 1 && a[..] == Splice(old(a[..]), pos, [b])
  {
    a[pos] := b;
    end := pos + 1;
  }

  // memcpy
  method PutBytes(a: array<byte>, pos: nat, s: seq<byte>) returns (end: nat)
    requires pos + |s| <= a.Length
    modifies a
    ensures end == pos + |s| && a[..] == Splice(old(a[..]), pos, s)
  {
    forall i | 0 <= i < |s| {
      a[pos + i] := s[i];
    }
    end := pos + |s|;
  }

  // __mqtt_pack_uint16
  method PutU16(a: array<byte>, pos: nat, n: u16) returns (end: nat)
    requires pos + 2 <= a.Length
    modifies a
    ensures end == pos + 2 && a[..] == Splice(old(a[..]), pos, U16(n))
  {
    a[pos] := n / 256;
    a[pos + 1] := n % 256;
    end := pos + 2;
  }

  // __mqtt_pack_str
  method PutString(a: array<byte>, pos: nat, s: CString) returns (end: nat)
    requires pos + |s| + 2 <= a.Length
    modifies a
    ensures end == pos + |PackString(s)| && a[..] == Splice(old(a[..]), pos, PackString(s))
  {
    hide Splice;
    ghost var m := a[..];
    var length := |s| % 65536;
    end := PutU16(a, pos, length);
    var i := 0;
    assert U16(length) + s[..0] == U16(length);
    while i < length
      invariant 0 <= i <= length && end == pos + 2 + i
      invariant a[..] == Splice(m, pos, U16(length) + s[..i])
    {
      end := PutByte(a, end, s[i]);
      SpliceSplice(m, pos, U16(length) + s[..i], [s[i]]);
      assert U16(length) + s[..i] + [s[i]] == U16(length) + s[..i + 1];
      i := i + 1;
    }
  }

  // The loop of mqtt_pack_fixed_header: the length bytes go from `pos` on,
  // below `hi`; 0 when they do not fit.
  method PutLength(a: array<byte>, pos: nat, hi: nat, n: nat) returns (end: nat)
    requires pos <= hi <= a.Length
    modifies a
    ensures end == if pos + |EncodeLength(n)| <= hi then pos + |EncodeLength(n)| else 0
    ensures end > 0 ==> a[..] == Splice(old(a[..]), pos, EncodeLength(n))
    ensures Scratch(old(a[..]), a[..], pos, hi - pos)
  {
    hide Splice, EncodeLength, Scratch;
    ghost var (m, done: seq<byte>) := (a[..], []);
    SpliceNothing(m, pos);
    assert EncodeLength(n) == [] + EncodeLength(n);
    var rest, at, more := n, pos, true;
    while more
      invariant pos <= at == pos + |done| <= hi
      invariant EncodeLength(n) == done + (if more then EncodeLength(rest) else [])
      invariant a[..] == Splice(m, pos, done)
      decreases more, rest
    {
      if at == hi {
        ScratchOf(m, a[..], pos, hi - pos, done);
        return 0;
      }
      EncodeStep(done, rest);
      more := rest > 127;
      var b: byte := if more then rest % 128 + 128 else rest;
      at := PutByte(a, at, b);
      SpliceSplice(m, pos, done, [b]);
      done := done + [b];
      rest := rest / 128;
    }
    ScratchOf(m, a[..], pos, hi - pos, done);
    assert done + [] == done;
    end := at;
  }

  lemma EncodeStep(done: seq<byte>, n: nat)
    ensures done + EncodeLength(n) ==
            if n > 127 then done + [n % 128 + 128] + EncodeLength(n / 128) else done + [n] + []
  {
  }

  // mqtt_pack_fixed_header
  method PutHeader(a: array<byte>, lo: nat, room: nat, ctype: nat, flags: nat, rl: nat) returns (n: nat, error: Error)
    requires lo + room <= a.Length && flags < 16
    modifies a
    ensures Result(PackHeader(room, ctype, flags, rl), old(a[..]), a[..], lo, room, n, error)
  {
    hide Splice, EncodeLength, Scratch;
    ghost var m := a[..];
    SpliceNothing(m, lo);
    ScratchOf(m, m, lo, room, []);
    error := HeaderViolation(ctype, flags);
    if error != OK {
      return 0, error;
    }
    if room == 0 {
      return 0, OK;
    }
    var first: byte := 16 * ctype + flags;
    var end := PutByte(a, lo, first);
    if rl >= MAX_REMAINING_LENGTH {
      ScratchOf(m, a[..], lo, room, [first]);
      return 0, INVALID_REMAINING_LENGTH;
    }
    end := PutLength(a, end, lo + room, rl);
    ScratchBehind(m, a[..], lo, room, first);
    if end == 0 || lo + room - end < rl {
      return 0, OK;
    }
    SpliceSplice(m, lo, [first], EncodeLength(rl));
    n := end - lo;
  }

  // ----- what goes behind the fixed header -----

  // mqtt_pack_publish_request
  method PutPublishBody(a: array<byte>, pos: nat, topic: CString, id: u16, message: seq<byte>, flags: byte)
    returns (end: nat)
    requires pos + RemainingLength(PublishRequest(topic, id, message, flags)) <= a.Length
    modifies a
    ensures var b := Body(PublishRequest(topic, id, message, flags));
            end == pos + |b| && end <= a.Length && a[..] == Splice(old(a[..]), pos, b)
  {
    hide Splice;
    ghost var m := a[..];
    StringLength(topic);
    end := PutString(a, pos, topic);
    ghost var s := PackString(topic);
    if Qos(flags) > 0 {
      end := PutU16(a, end, id);
      SpliceSplice(m, pos, s, U16(id));
      s := s + U16(id);
    }
    end := PutBytes(a, end, message);
    SpliceSplice(m, pos, s, message);
    assert s + message == Body(PublishRequest(topic, id, message, flags));
  }

  method PutTopic(a: array<byte>, pos: nat, t: Topic) returns (end: nat)
    requires pos + |t.name| + 3 <= a.Length
    modifies a
    ensures var b := PackString(t.name) + [t.maxQos];
            end == pos + |b| <= pos + |t.name| + 3 && a[..] == Splice(old(a[..]), pos, b)
  {
    hide Splice;
    ghost var m := a[..];
    StringLength(t.name);
    end := PutString(a, pos, t.name);
    end := PutByte(a, end, t.maxQos);
    SpliceSplice(m, pos, PackString(t.name), [t.maxQos]);
  }

  lemma PackTopicsSnoc(s: seq<byte>, ts: seq<Topic>, i: nat)
    requires i < |ts|
    ensures s + PackTopics(ts[..i + 1]) == s + PackTopics(ts[..i]) + (PackString(ts[i].name) + [ts[i].maxQos])
  {
    assert ts[..i + 1][..i] == ts[..i];
  }

  // mqtt_pack_subscribe_request
  method PutSubscribeBody(a: array<byte>, pos: nat, id: u16, topics: seq<Topic>) returns (end: nat)
    requires pos + 2 + TopicsLength(topics) <= a.Length
    modifies a
    ensures var b := U16(id) + PackTopics(topics);
            end == pos + |b| && end <= a.Length && a[..] == Splice(old(a[..]), pos, b)
  {
    hide Splice, PackString, U16;
    ghost var m := a[..];
    end := PutU16(a, pos, id);
    ghost var s := U16(id);
    assert s + [] == s;
    for i := 0 to |topics|
      invariant s == U16(id) + PackTopics(topics[..i]) && end == pos + |s| <= pos + 2 + TopicsLength(topics[..i])
      invariant end <= a.Length && a[..] == Splice(m, pos, s)
    {
      hide PackTopics, TopicsLength;
      TopicsGrow(topics, i);
      ghost var b := PackString(topics[i].name) + [topics[i].maxQos];
      end := PutTopic(a, end, topics[i]);
      SpliceSplice(m, pos, s, b);
      PackTopicsSnoc(U16(id), topics, i);
      s := s + b;
    }
    assert topics[..|topics|] == topics;
  }

  lemma {:induction false} TopicsGrow(ts: seq<Topic>, i: nat)
    requires i < |ts|
    ensures TopicsLength(ts[..i]) + |ts[i].name| + 3 == TopicsLength(ts[..i + 1]) <= TopicsLength(ts)
    decreases |ts|
  {
    var n := |ts| - 1;
    assert ts[..i + 1][..i] == ts[..i];
    if i < n {
      TopicsGrow(ts[..n], i);
      assert ts[..n][..i] == ts[..i] && ts[..n][..i + 1] == ts[..i + 1];
    } else {
      assert ts[..i + 1] == ts;
    }
  }

  lemma PackNamesSnoc(s: seq<byte>, ts: seq<CString>, i: nat)
    requires i < |ts|
    ensures s + PackNames(ts[..i + 1]) == s + PackNames(ts[..i]) + PackString(ts[i])
  {
    assert ts[..i + 1][..i] == ts[..i];
  }

  // mqtt_pack_unsubscribe_request
  method PutUnsubscribeBody(a: array<byte>, pos: nat, id: u16, names: seq<CString>) returns (end: nat)
    requires pos + 2 + NamesLength(names) <= a.Length
    modifies a
    ensures var b := U16(id) + PackNames(names);
            end == pos + |b| && end <= a.Length && a[..] == Splice(old(a[..]), pos, b)
  {
    hide Splice, PackString, U16;
    ghost var m := a[..];
    end := PutU16(a, pos, id);
    ghost var s := U16(id);
    assert s + [] == s;
    for i := 0 to |names|
      invariant s == U16(id) + PackNames(names[..i]) && end == pos + |s| <= pos + 2 + NamesLength(names[..i])
      invariant end <= a.Length && a[..] == Splice(m, pos, s)
    {
      hide PackNames, NamesLength;
      NamesGrow(names, i);
      StringLength(names[i]);
      end := PutString(a, end, names[i]);
      SpliceSplice(m, pos, s, PackString(names[i]));
      PackNamesSnoc(U16(id), names, i);
      s := s + PackString(names[i]);
    }
    assert names[..|names|] == names;
  }

  lemma {:induction false} NamesGrow(ts: seq<CString>, i: nat)
    requires i < |ts|
    ensures NamesLength(ts[..i]) + |ts[i]| + 2 == NamesLength(ts[..i + 1]) <= NamesLength(ts)
    decreases |ts|
  {
    var n := |ts| - 1;
    assert ts[..i + 1][..i] == ts[..i];
    if i < n {
      NamesGrow(ts[..n], i);
      assert ts[..n][..i] == ts[..i] && ts[..n][..i + 1] == ts[..i + 1];
    } else {
      assert ts[..i + 1] == ts;
    }
  }

  method PutOption(a: array<byte>, pos: nat, s: Option<CString>) returns (end: nat)
    requires pos + OptionLength(s) <= a.Length
    modifies a
    ensures end == pos + |PackOption(s)| && end <= pos + OptionLength(s)
    ensures a[..] == Splice(old(a[..]), pos, PackOption(s))
  {
    hide Splice;
    end := pos;
    SpliceNothing(a[..], pos);
    if s.Some? {
      StringLength(s.value);
      end := PutString(a, pos, s.value);
    }
  }

  method PutWill(a: array<byte>, pos: nat, w: Option<Will>) returns (end: nat)
    requires pos + WillLength(w) <= a.Length && (w.Some? ==> w.value.message.Some?)
    modifies a
    ensures end == pos + |PackWill(w)| && end <= pos + WillLength(w)
    ensures a[..] == Splice(old(a[..]), pos, PackWill(w))
  {
    hide Splice;
    ghost var m := a[..];
    end := pos;
    SpliceNothing(m, pos);
    if w.Some? {
      var (t, p) := (w.value.topic, w.value.message.value);
      StringLength(t);
      end := PutString(a, pos, t);
      end := PutU16(a, end, |p| % 65536);
      SpliceSplice(m, pos, PackString(t), U16(|p| % 65536));
      end := PutBytes(a, end, p);
      SpliceSplice(m, pos, PackString(t) + U16(|p| % 65536), p);
    }
  }

  // mqtt_pack_connection_request
  method PutConnectBody(a: array<byte>, pos: nat, r: Request) returns (end: nat)
    requires r.ConnectRequest? && Rejection(r) == OK && pos + RemainingLength(r) <= a.Length
    modifies a
    ensures end == pos + |Body(r)| && end <= a.Length && a[..] == Splice(old(a[..]), pos, Body(r))
  {
    hide Splice, PackString, PackWill, PackOption, WillLength, OptionLength, ConnectFlags;
    ghost var m := a[..];
    StringLength(r.clientId);
    end := PutBytes(a, pos, PROTOCOL);
    ghost var s := PROTOCOL;
    end := PutByte(a, end, ConnectFlags(r));
    SpliceSplice(m, pos, s, [ConnectFlags(r)]);
    s := s + [ConnectFlags(r)];
    end := PutU16(a, end, r.keepAlive);
    SpliceSplice(m, pos, s, U16(r.keepAlive));
    s := s + U16(r.keepAlive);
    end := PutString(a, end, r.clientId);
    SpliceSplice(m, pos, s, PackString(r.clientId));
    s := s + PackString(r.clientId);
    end := PutWill(a, end, r.will);
    SpliceSplice(m, pos, s, PackWill(r.will));
    s := s + PackWill(r.will);
    end := PutOption(a, end, r.userName);
    SpliceSplice(m, pos, s, PackOption(r.userName));
    s := s + PackOption(r.userName);
    end := PutOption(a, end, r.password);
    SpliceSplice(m, pos, s, PackOption(r.password));
  }

  method PutBody(a: array<byte>, pos: nat, r: Request) returns (end: nat)
    requires Rejection(r) == OK && pos + RemainingLength(r) <= a.Length
    modifies a
    ensures end == pos + |Body(r)| && end <= a.Length && a[..] == Splice(old(a[..]), pos, Body(r))
  {
    end := pos;
    match r {
      case ConnectRequest(_, _, _, _, _, _) => end := PutConnectBody(a, pos, r);
      case PublishRequest(t, id, m, f) => end := PutPublishBody(a, pos, t, id, m, f);
      case AckRequest(_, id) => end := PutU16(a, pos, id);
      case SubscribeRequest(id, ts) => end := PutSubscribeBody(a, pos, id, ts);
      case UnsubscribeRequest(id, ts) => end := PutUnsubscribeBody(a, pos, id, ts);
      case _ => SpliceNothing(a[..], pos);
    }
  }

  // Any mqtt_pack_*_request: checks, fixed header, then the rest.
  method PutRequest(a: array<byte>, lo: nat, room: nat, r: Request) returns (n: nat, error: Error)
    requires lo + room <= a.Length
    modifies a
    ensures Result(Pack(room, r), old(a[..]), a[..], lo, room, n, error)
  {
    hide Splice, Body, Rejection, FlagsOf, TypeOf, RemainingLength;
    ghost var m := a[..];
    SpliceNothing(m, lo);
    error := Rejection(r);
    if error != OK {
      return 0, error;
    }
    n, error := PutHeader(a, lo, room, TypeOf(r), FlagsOf(r), RemainingLength(r));
    if error != OK || n == 0 {
      return;
    }
    ghost var h := Header(TypeOf(r), FlagsOf(r), RemainingLength(r));
    BodyLength(r);
    assert lo + n + |Body(r)| <= |m|;
    var end := PutBody(a, lo + n, r);
    SpliceSplice(m, lo, h, Body(r));
    ScratchOf(m, a[..], lo, room, h + Body(r));
    n := end - lo;
  }
}
