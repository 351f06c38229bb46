// What a broker reads in the packets of the client, after the layout of MQTT 3.1.1.
module Brokers {
  import opened Types
  import opened Wire
  import opened WireProofs

  datatype WillRead = WillRead(topic: seq<byte>, message: seq<byte>, qos: nat, retain: bool)

  datatype Packet =
    | Connecting(clientId: seq<byte>, will: Option<WillRead>, userName: Option<seq<byte>>,
                 password: Option<seq<byte>>, cleanSession: bool, keepAlive: nat)
    | Publishing(dup: bool, qos: nat, retain: bool, topic: seq<byte>, publishId: Option<nat>, message: seq<byte>)
    | Acknowledging(ctype: nat, id: nat)
    | Subscribing(id: nat, topics: seq<Topic>)
    | Unsubscribing(id: nat, names: seq<seq<byte>>)
    | Pinging
    | Leaving

  // ----- the reader -----

  // A field at the front and what is behind it.
  datatype Taken<+T> = Bad | Taken(value: T, rest: seq<byte>)

  // The bit of this weight.
  predicate Bit(b: nat, weight: nat)
    requires weight > 0
  {
    b / weight % 2 == 1
  }

  // An integer of 16 bits, the most significant byte first (section 1.5.2 of MQTT 3.1.1).
  function TakeNumber(s: seq<byte>): Taken<nat> {
    if |s| < 2 then Bad else Taken(256 * (s[0] as nat) + s[1], s[2..])
  }

  // A string behind its length (section 1.5.3).
  function TakeString(s: seq<byte>): Taken<seq<byte>> {
    match TakeNumber(s)
    case Bad => Bad
    case Taken(n, t) => if |t| < n then Bad else Taken(t[..n], t[n..])
  }

  function TakeOption(present: bool, s: seq<byte>): Taken<Option<seq<byte>>> {
    if !present then Taken(None, s)
    else match TakeString(s)
      case Bad => Bad
      case Taken(v, t) => Taken(Some(v), t)
  }

  // The remaining length: seven bits a byte, low bits first, at most k bytes (section 2.2.3).
  function TakeLength(s: seq<byte>, k: nat): Taken<nat> {
    if s == [] || k == 0 then Bad
    else if s[0] < 128 then Taken(s[0], s[1..])
    else match TakeLength(s[1..], k - 1)
      case Bad => Bad
      case Taken(v, t) => Taken(s[0] % 128 + 128 * v, t)
  }

  // The will, which has a topic, a message, a QoS and a retain flag; without one its bits are zero (sections 3.1.2.5
  // to 3.1.2.7, 3.1.3.2 and 3.1.3.3).
  function TakeWill(f: byte, s: seq<byte>): Taken<Option<WillRead>> {
    if !Bit(f, 4) then
      if f / 8 % 4 != 0 || Bit(f, 32) then Bad else Taken(None, s)
    else match TakeString(s)
      case Bad => Bad
      case Taken(topic, t) =>
        match TakeString(t)
        case Bad => Bad
        case Taken(message, u) =>
          if f / 8 % 4 == 3 then Bad else Taken(Some(WillRead(topic, message, f / 8 % 4, Bit(f, 32))), u)
  }

  // The payload of a CONNECT by its connect flags (section 3.1.3): the fields that the flags announce, in order, and
  // nothing else. There is no password without a user name (section 3.1.2.9).
  function ReadPayload(f: byte, keepAlive: nat, s: seq<byte>): Option<Packet> {
    match TakeString(s)
    case Bad => None
    case Taken(clientId, t) =>
      match TakeWill(f, t)
      case Bad => None
      case Taken(will, u) =>
        match TakeOption(Bit(f, 128), u)
        case Bad => None
        case Taken(userName, v) =>
          match TakeOption(Bit(f, 64), v)
          case Bad => None
          case Taken(password, w) =>
            if w != [] || (password.Some? && userName.None?) then None
            else Some(Connecting(clientId, will, userName, password, Bit(f, 2), keepAlive))
  }

  // Protocol name "MQTT", level 4, connect flags with the reserved bit zero, keep-alive (section 3.1.2), payload.
  function ReadConnect(s: seq<byte>): Option<Packet> {
    match TakeString(s)
    case Bad => None
    case Taken(name, t) =>
      if name != [0x4D, 0x51, 0x54, 0x54] || |t| < 2 || t[0] != 4 || Bit(t[1], 1) then None
      else match TakeNumber(t[2..])
        case Bad => None
        case Taken(keepAlive, u) => ReadPayload(t[1], keepAlive, u)
  }

  // Topic, an identifier at QoS 1 and 2 only, message; there is no QoS 3 and no duplicate at QoS 0 (section 3.3).
  function ReadPublish(flags: nat, s: seq<byte>): Option<Packet> {
    var qos := flags / 2 % 4;
    match TakeString(s)
    case Bad => None
    case Taken(topic, t) =>
      if qos == 3 || (qos == 0 && Bit(flags, 8)) then None
      else if qos == 0 then Some(Publishing(false, 0, Bit(flags, 1), topic, None, t))
      else match TakeNumber(t)
        case Bad => None
        case Taken(id, u) => Some(Publishing(Bit(flags, 8), qos, Bit(flags, 1), topic, Some(id), u))
  }

  // Topics, each behind by its QoS, up to the end.
  function ReadTopics(s: seq<byte>): Option<seq<Topic>>
    decreases |s|
  {
    if s == [] then Some([])
    else match TakeString(s)
      case Bad => None
      case Taken(name, t) =>
        if t == [] || t[0] > 2 then None
        else match ReadTopics(t[1..])
          case None => None
          case Some(ts) => Some([Topic(name, t[0])] + ts)
  }

  function ReadNames(s: seq<byte>): Option<seq<seq<byte>>>
    decreases |s|
  {
    if s == [] then Some([])
    else match TakeString(s)
      case Bad => None
      case Taken(name, t) =>
        match ReadNames(t)
        case None => None
        case Some(ts) => Some([name] + ts)
  }

  // Identifier and at least one topic (section 3.8).
  function ReadSubscribe(s: seq<byte>): Option<Packet> {
    match TakeNumber(s)
    case Bad => None
    case Taken(id, t) =>
      match ReadTopics(t)
      case None => None
      case Some(ts) => if ts == [] then None else Some(Subscribing(id, ts))
  }

  // Identifier and at least one topic (section 3.10).
  function ReadUnsubscribe(s: seq<byte>): Option<Packet> {
    match TakeNumber(s)
    case Bad => None
    case Taken(id, t) =>
      match ReadNames(t)
      case None => None
      case Some(ts) => if ts == [] then None else Some(Unsubscribing(id, ts))
  }

  // A packet by its type, its flags and what is behind the fixed header (section 2.2).
  function ReadBody(ctype: nat, flags: nat, s: seq<byte>): Option<Packet> {
    if ctype == 3 then ReadPublish(flags, s)
    else if flags != (if ctype == 6 || ctype == 8 || ctype == 10 then 2 else 0) then None
    else if ctype == 1 then ReadConnect(s)
    else if 4 <= ctype <= 7 then
      if |s| == 2 then Some(Acknowledging(ctype, 256 * (s[0] as nat) + s[1])) else None
    else if ctype == 8 then ReadSubscribe(s)
    else if ctype == 10 then ReadUnsubscribe(s)
    else if ctype == 12 && s == [] then Some(Pinging)
    else if ctype == 14 && s == [] then Some(Leaving)
    else None
  }

  // The packet at the front of a stream.
  function ReadPacket(s: seq<byte>): Taken<Option<Packet>> {
    if s == [] then Bad
    else match TakeLength(s[1..], 4)
      case Bad => Bad
      case Taken(n, t) => if |t| < n then Bad else Taken(ReadBody(s[0] / 16, s[0] % 16, t[..n]), t[n..])
  }

  // ----- what the packers say -----

  // What a request is to say.
  function Meaning(r: Request): Packet {
    match r
    case ConnectRequest(clientId, will, userName, password, f, keepAlive) =>
      Connecting(clientId,
                 if will.None? || will.value.message.None? then None
                 else Some(WillRead(will.value.topic, will.value.message.value, f / 8 % 4, Bit(f, 32))),
                 userName, password, Bit(f, 2), keepAlive)
    case PublishRequest(topic, id, message, f) =>
      var qos := f / 2 % 4;
      Publishing(qos > 0 && Bit(f, 8), qos, Bit(f, 1), topic, if qos > 0 then Some(id) else None, message)
    case AckRequest(ctype, id) => Acknowledging(ctype, id)
    case SubscribeRequest(id, topics) => Subscribing(id, topics)
    case UnsubscribeRequest(id, names) => Unsubscribing(id, names)
    case PingRequest => Pinging
    case DisconnectRequest => Leaving
  }

  // What the standard asks of a request and no packer checks.
  predicate Conforms(r: Request) {
    match r
    case ConnectRequest(_, _, userName, password, _, _) => password.Some? ==> userName.Some?
    case SubscribeRequest(_, ts) => ts != [] && forall i :: 0 <= i < |ts| ==> ts[i].maxQos <= 2
    case UnsubscribeRequest(_, ts) => ts != []
    case AckRequest(ctype, _) => 4 <= ctype <= 7
    case _ => true
  }

  // All strings, and the message of the will, fit a 16-bit length.
  predicate LengthsFit(r: Request) {
    && StringsFit(r)
    && (r.ConnectRequest? && r.will.Some? && r.will.value.message.Some? ==> |r.will.value.message.value| < 65536)
  }

  lemma NumberTaken(n: u16, rest: seq<byte>)
    ensures TakeNumber(U16(n) + rest) == Taken(n, rest)
  {
    assert (U16(n) + rest)[2..] == rest;
  }

  lemma StringTaken(s: CString, rest: seq<byte>)
    requires |s| < 65536
    ensures PackString(s) == U16(|s|) + s && TakeString(U16(|s|) + s + rest) == Taken(s, rest)
  {
    NumberTaken(|s|, s + rest);
    assert U16(|s|) + s + rest == U16(|s|) + (s + rest);
    assert s[..|s|] == s;
  }

  lemma OptionTaken(s: Option<CString>, rest: seq<byte>)
    requires s.Some? ==> |s.value| < 65536
    ensures TakeOption(s.Some?, PackOption(s) + rest) == Taken(s, rest)
  {
    if s.Some? {
      StringTaken(s.value, rest);
    } else {
      assert PackOption(s) + rest == rest;
    }
  }

  lemma {:induction false} LengthTaken(n: nat, k: nat, rest: seq<byte>)
    requires 1 <= k && n < Capacity(k)
    ensures TakeLength(EncodeLength(n) + rest, k) == Taken(n, rest)
  {
    var s := EncodeLength(n) + rest;
    if n < 128 {
      assert s[1..] == rest;
    } else {
      assert s[1..] == EncodeLength(n / 128) + rest;
      LengthTaken(n / 128, k - 1, rest);
    }
  }

  lemma HeaderRead(ctype: nat, flags: nat, body: seq<byte>, rest: seq<byte>)
    requires ctype < 16 && flags < 16 && |body| < MAX_REMAINING_LENGTH
    ensures ReadPacket(Header(ctype, flags, |body|) + body + rest) == Taken(ReadBody(ctype, flags, body), rest)
  {
    hide ReadBody, EncodeLength, TakeLength;
    var (s, l) := (Header(ctype, flags, |body|) + body + rest, EncodeLength(|body|));
    assert s[1..] == l + (body + rest);
    LengthTaken(|body|, 4, body + rest);
    assert (body + rest)[..|body|] == body && (body + rest)[|body|..] == rest;
    assert s[0] == 16 * ctype + flags;
    assert s[0] / 16 == ctype && s[0] % 16 == flags;
  }

  // A topic in front of more.
  lemma TopicRead(x: Topic, more: seq<byte>)
    requires |x.name| < 65536
    ensures var s := PackString(x.name) + [x.maxQos] + more;
            && s != []
            && ReadTopics(s) ==
               if x.maxQos > 2 || ReadTopics(more).None? then None else Some([x] + ReadTopics(more).value)
  {
    StringTaken(x.name, [x.maxQos] + more);
    assert ([x.maxQos] + more)[1..] == more;
    assert PackString(x.name) + [x.maxQos] + more == U16(|x.name|) + x.name + ([x.maxQos] + more);
    hide TakeString, PackString;
  }

  // Topics, if acceptable, in front of what has been read.
  function Joined<T>(ok: bool, ts: seq<T>, o: Option<seq<T>>): Option<seq<T>> {
    if ok && o.Some? then Some(ts + o.value) else None
  }

  predicate QosOk(ts: seq<Topic>) {
    forall i :: 0 <= i < |ts| ==> ts[i].maxQos <= 2
  }

  lemma JoinedNothing<T>(o: Option<seq<T>>)
    ensures Joined(true, [], o) == o
  {
    assert o.Some? ==> [] + o.value == o.value;
  }

  lemma JoinedMore<T>(ok: bool, ts: seq<T>, x: T, o: Option<seq<T>>)
    ensures Joined(ok, ts, if o.None? then None else Some([x] + o.value)) == Joined(ok, ts + [x], o)
  {
    assert o.Some? ==> ts + ([x] + o.value) == ts + [x] + o.value;
  }

  lemma QosOkMore(ts: seq<Topic>, x: Topic)
    ensures QosOk(ts + [x]) <==> QosOk(ts) && x.maxQos <= 2
  {
    assert forall i :: 0 <= i < |ts| ==> (ts + [x])[i] == ts[i];
    assert (ts + [x])[|ts|] == x;
  }

  lemma Snoc<T>(ts: seq<T>)
    requires ts != []
    ensures ts == ts[..|ts| - 1] + [ts[|ts| - 1]]
  {
  }

  lemma {:induction false} TopicsRead(ts: seq<Topic>, more: seq<byte>)
    requires forall i :: 0 <= i < |ts| ==> |ts[i].name| < 65536
    ensures ReadTopics(PackTopics(ts) + more) == Joined(QosOk(ts), ts, ReadTopics(more))
  {
    if ts == [] {
      JoinedNothing(ReadTopics(more));
      assert PackTopics(ts) + more == more;
    } else {
      var (us, x) := (ts[..|ts| - 1], ts[|ts| - 1]);
      var s := PackString(x.name) + [x.maxQos] + more;
      assert PackTopics(ts) + more == PackTopics(us) + s;
      hide *;
      Snoc(ts);
      TopicsRead(us, s);
      TopicRead(x, more);
      JoinedMore(QosOk(us), us, x, ReadTopics(more));
      QosOkMore(us, x);
      NoneJoined(ts, us, ReadTopics(more));
    }
  }

  lemma NoneJoined<T>(ts: seq<T>, us: seq<T>, o: Option<seq<T>>)
    ensures Joined(false, ts, o) == None == Joined(true, us, None) == Joined(false, us, None) == Joined(false, us, o)
  {
  }

  lemma NameRead(x: CString, more: seq<byte>)
    requires |x| < 65536
    ensures ReadNames(PackString(x) + more) ==
            if ReadNames(more).None? then None else Some([x] + ReadNames(more).value)
  {
    StringTaken(x, more);
    hide TakeString;
  }

  lemma {:induction false} NamesRead(ts: seq<CString>, more: seq<byte>)
    requires forall i :: 0 <= i < |ts| ==> |ts[i]| < 65536
    ensures ReadNames(PackNames(ts) + more) == Joined(true, ts, ReadNames(more))
  {
    if ts == [] {
      JoinedNothing(ReadNames(more));
      assert PackNames(ts) + more == more;
    } else {
      var (us, x) := (ts[..|ts| - 1], ts[|ts| - 1]);
      assert PackNames(ts) + more == PackNames(us) + (PackString(x) + more);
      hide *;
      Snoc(ts);
      NamesRead(us, PackString(x) + more);
      NameRead(x, more);
      JoinedMore(true, us, x, ReadNames(more));
    }
  }

  // ----- every packet says what its request is to say -----

  lemma AckRead(ctype: nat, id: u16)
    requires 4 <= ctype <= 7
    ensures ReadBody(ctype, if ctype == 6 then 2 else 0, U16(id)) == Some(Acknowledging(ctype, id))
  {
  }

  lemma PublishRead(topic: CString, id: u16, message: seq<byte>, f: byte)
    requires |topic| < 65536 && Qos(f) < 3
    ensures var r := PublishRequest(topic, id, message, f);
            ReadPublish(FlagsOf(r), Body(r)) == Some(Meaning(r))
  {
    var r := PublishRequest(topic, id, message, f);
    var ids := if Qos(f) > 0 then U16(id) else [];
    PublishFlags(f);
    StringTaken(topic, ids + message);
    NumberTaken(id, message);
    assert Body(r) == U16(|topic|) + topic + (ids + message);
    if Qos(f) == 0 {
      assert ids + message == message;
    }
    hide TakeString, TakeNumber, Body, FlagsOf;
  }

  lemma SubscribeRead(id: u16, ts: seq<Topic>)
    requires forall i :: 0 <= i < |ts| ==> |ts[i].name| < 65536
    ensures ReadSubscribe(U16(id) + PackTopics(ts)) ==
            if ts != [] && QosOk(ts) then Some(Subscribing(id, ts)) else None
  {
    NumberTaken(id, PackTopics(ts));
    TopicsRead(ts, []);
    assert PackTopics(ts) + [] == PackTopics(ts) && ts + [] == ts;
    assert ReadTopics([]) == Some([]);
    hide ReadTopics, PackTopics, QosOk;
  }

  lemma UnsubscribeRead(id: u16, ts: seq<CString>)
    requires forall i :: 0 <= i < |ts| ==> |ts[i]| < 65536
    ensures ReadUnsubscribe(U16(id) + PackNames(ts)) == if ts != [] then Some(Unsubscribing(id, ts)) else None
  {
    NumberTaken(id, PackNames(ts));
    NamesRead(ts, []);
    assert PackNames(ts) + [] == PackNames(ts) && ts + [] == ts;
    assert ReadNames([]) == Some([]);
    hide ReadNames, PackNames;
  }

  // The bits of the connect flags.
  lemma ConnectBits(r: Request)
    requires r.ConnectRequest?
    ensures var (f, g) := (r.connectFlags, ConnectFlags(r));
            && !Bit(g, 1) && (Bit(g, 2) <==> Bit(f, 2)) && (Bit(g, 4) <==> r.will.Some?)
            && g / 8 % 4 == (if r.will.Some? then f / 8 % 4 else 0)
            && (Bit(g, 32) <==> r.will.Some? && Bit(f, 32))
            && (Bit(g, 64) <==> r.password.Some?) && (Bit(g, 128) <==> r.userName.Some?)
  {
    var f := r.connectFlags;
    FlagParts(if r.userName.Some? then 1 else 0, if r.password.Some? then 1 else 0,
              if r.will.Some? then Flag(f, 32) else 0, if r.will.Some? then WillQos(f) else 0,
              if r.will.Some? then 1 else 0, Flag(f, 2));
  }

  lemma Quotients(g: nat)
    ensures g / 4 == g / 2 / 2 && g / 8 == g / 4 / 2 && g / 32 == g / 8 / 4 && g / 64 == g / 32 / 2
    ensures g / 128 == g / 64 / 2
  {
  }

  lemma FlagParts(u: nat, p: nat, t: nat, q: nat, w: nat, c: nat)
    requires u < 2 && p < 2 && t < 2 && q < 4 && w < 2 && c < 2
    ensures var g := 128 * u + 64 * p + 32 * t + 8 * q + 4 * w + 2 * c;
            && g % 2 == 0 && g / 2 % 2 == c && g / 4 % 2 == w && g / 8 % 4 == q && g / 32 % 2 == t && g / 64 % 2 == p
            && g / 128 % 2 == u
  {
    var g := 128 * u + 64 * p + 32 * t + 8 * q + 4 * w + 2 * c;
    var (a, b, d, e) := (16 * u + 8 * p + 4 * t + q, 4 * u + 2 * p + t, 2 * u + p, 32 * u + 16 * p + 8 * t + 2 * q + w);
    Quotients(g);
    assert g == 2 * (2 * e + c) && e == 2 * a + w && a == 4 * b + q && b == 2 * d + t;
    assert g / 2 == 2 * e + c;
    assert g / 4 == e;
    assert g / 8 == a;
    assert g / 32 == b;
    assert g / 64 == d;
  }

  lemma WillTaken(f: byte, will: Option<Will>, rest: seq<byte>)
    requires will.Some? ==> will.value.message.Some? && |will.value.topic| < 65536 && |will.value.message.value| < 65536
    requires Bit(f, 4) <==> will.Some?
    requires if will.Some? then f / 8 % 4 != 3 else f / 8 % 4 == 0 && !Bit(f, 32)
    ensures TakeWill(f, PackWill(will) + rest) ==
            Taken(if will.None? then None
                  else Some(WillRead(will.value.topic, will.value.message.value, f / 8 % 4, Bit(f, 32))), rest)
  {
    if will.Some? {
      var (topic, message) := (will.value.topic, will.value.message.value);
      StringTaken(message, rest);
      StringTaken(topic, U16(|message|) + message + rest);
      WillPacked(will, rest);
      hide TakeString, PackString, PackWill, U16;
    } else {
      assert PackWill(will) + rest == rest;
    }
  }

  lemma WillPacked(will: Option<Will>, rest: seq<byte>)
    requires will.Some? && will.value.message.Some? && |will.value.topic| < 65536
    requires |will.value.message.value| < 65536
    ensures var (topic, message) := (will.value.topic, will.value.message.value);
            PackWill(will) + rest == U16(|topic|) + topic + (U16(|message|) + message + rest)
  {
    var (topic, message) := (will.value.topic, will.value.message.value);
    StringTaken(topic, []);
    assert PackWill(will) == U16(|topic|) + topic + U16(|message|) + message;
    hide PackWill, PackString, U16, TakeString;
    Regroup(U16(|topic|) + topic, U16(|message|), message, rest);
  }

  lemma Regroup(a: seq<byte>, b: seq<byte>, c: seq<byte>, d: seq<byte>)
    ensures a + b + c + d == a + (b + c + d)
  {
  }

  // The payload by what is taken from it, field by field.
  lemma PayloadIs(g: byte, k: nat, s: seq<byte>, id: seq<byte>, t: seq<byte>, will: Option<WillRead>, u: seq<byte>,
                  name: Option<seq<byte>>, v: seq<byte>, password: Option<seq<byte>>)
    requires TakeString(s) == Taken(id, t) && TakeWill(g, t) == Taken(will, u)
    requires TakeOption(Bit(g, 128), u) == Taken(name, v) && TakeOption(Bit(g, 64), v) == Taken(password, [])
    ensures ReadPayload(g, k, s) == if password.Some? && name.None? then None
                                    else Some(Connecting(id, will, name, password, Bit(g, 2), k))
  {
    hide TakeString, TakeWill, TakeOption, Bit;
  }

  lemma FitsParts(r: Request)
    requires r.ConnectRequest? && LengthsFit(r) && Rejection(r) == OK
    ensures |r.clientId| < 65536 && (r.userName.Some? ==> |r.userName.value| < 65536)
    ensures r.password.Some? ==> |r.password.value| < 65536
    ensures r.will.Some? ==> r.will.value.message.Some? && |r.will.value.topic| < 65536
                             && |r.will.value.message.value| < 65536 && r.connectFlags / 8 % 4 != 3
  {
  }

  lemma MeaningIs(r: Request, g: byte)
    requires r.ConnectRequest? && (r.will.Some? ==> r.will.value.message.Some?)
             && (Bit(g, 2) <==> Bit(r.connectFlags, 2))
    requires r.will.Some? ==> g / 8 % 4 == r.connectFlags / 8 % 4 && (Bit(g, 32) <==> Bit(r.connectFlags, 32))
    ensures Conforms(r) <==> !(r.password.Some? && r.userName.None?)
    ensures Meaning(r) ==
            Connecting(r.clientId,
                       if r.will.None? then None
                       else Some(WillRead(r.will.value.topic, r.will.value.message.value, g / 8 % 4, Bit(g, 32))),
                       r.userName, r.password, Bit(g, 2), r.keepAlive)
  {
    hide Bit;
  }

  lemma PayloadRead(r: Request, g: byte)
    requires r.ConnectRequest? && LengthsFit(r) && Rejection(r) == OK && g == ConnectFlags(r)
    ensures ReadPayload(g, r.keepAlive,
                        PackString(r.clientId) + (PackWill(r.will) + (PackOption(r.userName) + PackOption(r.password))))
            == if Conforms(r) then Some(Meaning(r)) else None
  {
    hide *;
    var c := PackOption(r.password);
    var b := PackOption(r.userName) + c;
    var a := PackWill(r.will) + b;
    FitsParts(r);
    ConnectBits(r);
    StringTaken(r.clientId, a);
    WillTaken(g, r.will, b);
    OptionTaken(r.userName, c);
    OptionTaken(r.password, []);
    assert c + [] == c;
    var will := if r.will.None? then None
                else Some(WillRead(r.will.value.topic, r.will.value.message.value, g / 8 % 4, Bit(g, 32)));
    PayloadIs(g, r.keepAlive, PackString(r.clientId) + a, r.clientId, a, will, b, r.userName, c, r.password);
    MeaningIs(r, g);
  }

  // The first ten bytes of a CONNECT and what is behind them.
  lemma ConnectStart(g: byte, k: u16, p: seq<byte>)
    requires !Bit(g, 1)
    ensures ReadConnect(PROTOCOL + [g] + U16(k) + p) == ReadPayload(g, k, p)
  {
    var name: seq<byte> := [0x4D, 0x51, 0x54, 0x54];
    var t := [4, g] + (U16(k) + p);
    NumberTaken(k, p);
    StringTaken(name, t);
    assert U16(|name|) == [0, 4] && |t| >= 2 && t[0] == 4 && t[1] == g && t[2..] == U16(k) + p;
    assert PROTOCOL + [g] + U16(k) + p == U16(|name|) + name + t;
    hide TakeString, TakeNumber, ReadPayload, Bit, U16;
  }

  lemma ConnectBody(r: Request)
    requires r.ConnectRequest?
    ensures Body(r) == PROTOCOL + [ConnectFlags(r)] + U16(r.keepAlive)
                       + (PackString(r.clientId)
                          + (PackWill(r.will) + (PackOption(r.userName) + PackOption(r.password))))
  {
    var (a, b, c) := (PackString(r.clientId), PackWill(r.will), PackOption(r.userName));
    var d := PackOption(r.password);
    var front := PROTOCOL + [ConnectFlags(r)] + U16(r.keepAlive);
    assert Body(r) == front + a + b + c + d;
    hide *;
    Nested(front, a, b, c, d);
  }

  lemma Nested(front: seq<byte>, a: seq<byte>, b: seq<byte>, c: seq<byte>, d: seq<byte>)
    ensures front + a + b + c + d == front + (a + (b + (c + d)))
  {
  }

  lemma ConnectRead(r: Request)
    requires r.ConnectRequest? && LengthsFit(r) && Rejection(r) == OK
    ensures ReadConnect(Body(r)) == if Conforms(r) then Some(Meaning(r)) else None
  {
    hide *;
    ConnectBits(r);
    ConnectBody(r);
    PayloadRead(r, ConnectFlags(r));
    ConnectStart(ConnectFlags(r), r.keepAlive, PackString(r.clientId)
                 + (PackWill(r.will) + (PackOption(r.userName) + PackOption(r.password))));
  }

  // Every request that is packed is read as what it is to say, whatever
  // follows; what the standard forbids and no packer refuses is not accepted: a
  // password without a user name, and no topic or a QoS above 2 in a
  // subscription.
  lemma PackedMeaning(room: nat, r: Request, rest: seq<byte>)
    requires Pack(room, r).Packed? && LengthsFit(r) && (r.AckRequest? ==> 4 <= r.ackType <= 7)
    ensures ReadPacket(Pack(room, r).bytes + rest) == Taken(if Conforms(r) then Some(Meaning(r)) else None, rest)
  {
    assert Encodes(Pack(room, r).bytes, r);
    hide Encodes, Pack, ReadPacket, Meaning, Conforms, LengthsFit;
    EncodedMeaning(Pack(room, r).bytes, r, rest);
  }

  lemma EncodedMeaning(bytes: seq<byte>, r: Request, rest: seq<byte>)
    requires Encodes(bytes, r) && LengthsFit(r) && (r.AckRequest? ==> 4 <= r.ackType <= 7)
    ensures ReadPacket(bytes + rest) == Taken(if Conforms(r) then Some(Meaning(r)) else None, rest)
  {
    var (t, f, b) := (TypeOf(r), FlagsOf(r), Body(r));
    BodyLength(r);
    HeaderRead(t, f, b, rest);
    BodyRead(r);
    hide ReadPacket, ReadBody, Body, Header, Meaning, Conforms, FlagsOf, StringsFit;
  }

  // What is read when the DUP bit of a QoS 1 PUBLISH has been set.
  function Repeated(p: Packet): Packet {
    if p.Publishing? && p.qos == 1 then p.(dup := true) else p
  }

  lemma BodyRead(r: Request)
    requires Rejection(r) == OK && LengthsFit(r) && (r.AckRequest? ==> 4 <= r.ackType <= 7)
    ensures ReadBody(TypeOf(r), FlagsOf(r), Body(r)) == if Conforms(r) then Some(Meaning(r)) else None
  {
    match r {
      case ConnectRequest(_, _, _, _, _, _) => ConnectRead(r);
      case PublishRequest(topic, id, message, f) => PublishRead(topic, id, message, f);
      case AckRequest(ctype, id) => AckRead(ctype, id);
      case SubscribeRequest(id, ts) => SubscribeRead(id, ts);
      case UnsubscribeRequest(id, ts) => UnsubscribeRead(id, ts);
      case _ =>
    }
  }

  // ----- which requests are packed -----

  // What the standard forbids and the packers refuse: a CONNECT with an empty
  // client identifier and no clean session (section 3.1.3.1), a will without
  // message or with QoS 3, a PUBLISH with QoS 3; and, of this client, eight topics or more.
  predicate Forbidden(r: Request) {
    match r
    case ConnectRequest(clientId, will, _, _, f, _) =>
      (clientId == [] && !Bit(f, 2)) || (will.Some? && (will.value.message == None || f / 8 % 4 == 3))
    case PublishRequest(_, _, _, f) => f / 2 % 4 == 3
    case SubscribeRequest(_, ts) => |ts| >= 8
    case UnsubscribeRequest(_, ts) => |ts| >= 8
    case _ => false
  }

  // How many bytes the length of n bytes takes (table 2.4 of MQTT 3.1.1).
  function LengthSize(n: nat): nat {
    if n <= 127 then 1 else if n <= 16_383 then 2 else if n <= 2_097_151 then 3 else 4
  }

  // The error code for what is forbidden; refused in this order.
  function Reason(r: Request): Error
    requires Forbidden(r)
  {
    match r
    case ConnectRequest(clientId, will, _, _, f, _) =>
      if clientId == [] && !Bit(f, 2) then CLEAN_SESSION_IS_REQUIRED
      else if will.value.message == None then CONNECT_NULL_WILL_MESSAGE
      else CONNECT_FORBIDDEN_WILL_QOS
    case PublishRequest(_, _, _, _) => PUBLISH_FORBIDDEN_QOS
    case SubscribeRequest(_, _) => SUBSCRIBE_TOO_MANY_TOPICS
    case UnsubscribeRequest(_, _) => UNSUBSCRIBE_TOO_MANY_TOPICS
  }

  // A request is packed exactly if it is not forbidden, not too long for the
  // length field, and has the room; the length counts whole strings.
  lemma PackDecided(room: nat, r: Request)
    requires r.AckRequest? ==> 4 <= r.ackType <= 7
    ensures var n := RemainingLength(r);
            && (Forbidden(r) ==> Pack(room, r) == Refused(Reason(r)) && Reason(r) != OK)
            && (!Forbidden(r) && n >= 0x1000_0000 ==>
                  Pack(room, r) == if room == 0 then NoRoom else Refused(INVALID_REMAINING_LENGTH))
            && (!Forbidden(r) && n < 0x1000_0000 && room < 1 + LengthSize(n) + n ==> Pack(room, r) == NoRoom)
            && (!Forbidden(r) && n < 0x1000_0000 && room >= 1 + LengthSize(n) + n ==> Pack(room, r).Packed?)
  {
    hide RemainingLength, EncodeLength, Body;
    var n := RemainingLength(r);
    if n < MAX_REMAINING_LENGTH {
      LengthBytes(n);
    }
  }
}
