// The memory of the send queue (include/mqtt.h:927-1083): one byte array with
// packed packets growing up from its start and 40-byte headers, the LP64
// layout of struct mqtt_queued_message, growing down from its end.
module QueueMemory {
  import opened Types
  import opened Packers

  const HEADER := 40

  datatype State = Unsent | AwaitingAck | Complete

  // A queued message as the protocol sees it.
  datatype Message = Message(bytes: seq<byte>, state: State, timeSent: nat, ctype: nat, id: nat)

  // A header as it lies in memory; `start` is an offset from mem_start.
  datatype Record = Record(start: nat, size: nat, state: nat, timeSent: nat, ctype: nat, id: nat)

  // ----- little-endian integers -----

  function Le(n: nat, width: nat): (s: seq<byte>)
    ensures |s| == width
  {
    if width == 0 then [] else [n % 256] + Le(n / 256, width - 1)
  }

  function FromLe(s: seq<byte>): nat {
    if s == [] then 0 else s[0] + 256 * FromLe(s[1..])
  }

  function Range(width: nat): nat {
    if width == 0 then 1 else 256 * Range(width - 1)
  }

  lemma {:induction false} LeRoundTrip(n: nat, width: nat)
    requires n < Range(width)
    ensures FromLe(Le(n, width)) == n
  {
    if width > 0 {
      LeRoundTrip(n / 256, width - 1);
    }
  }

  // ----- headers -----

  function RecordOf(h: seq<byte>): Record
    requires |h| == HEADER
  {
    Record(FromLe(h[0..8]), FromLe(h[8..16]), FromLe(h[16..20]), FromLe(h[24..32]), FromLe(h[32..36]),
           FromLe(h[36..38]))
  }

  // Where header k starts: mqtt_mq_get(mq, k).
  function HeadPos(size: nat, k: nat): nat
    requires HEADER * (k + 1) <= size
  {
    size - HEADER * (k + 1)
  }

  function At(m: seq<byte>, k: nat): Record
    requires HEADER * (k + 1) <= |m|
  {
    RecordOf(m[HeadPos(|m|, k)..HeadPos(|m|, k) + HEADER])
  }

  function StateOf(n: nat): State {
    if n == 0 then Unsent else if n == 1 then AwaitingAck else Complete
  }

  // n messages whose packets fill the first `curr` bytes without gaps, clear of the headers.
  ghost predicate Layout(m: seq<byte>, n: nat, curr: nat) {
    && curr + HEADER * n <= |m|
    && if n == 0 then curr == 0
       else
         var r := At(m, n - 1);
         r.start + r.size == curr && r.size > 0 && r.state <= 2 && Layout(m, n - 1, r.start)
  }

  // The message that a header describes.
  function MessageOf(m: seq<byte>, r: Record): Message
    requires r.start + r.size <= |m|
  {
    Message(m[r.start..r.start + r.size], StateOf(r.state), r.timeSent, r.ctype, r.id)
  }

  ghost function Messages(m: seq<byte>, n: nat, curr: nat): (q: seq<Message>)
    requires Layout(m, n, curr)
    ensures |q| == n
  {
    if n == 0 then []
    else
      var r := At(m, n - 1);
      Messages(m, n - 1, r.start) + [MessageOf(m, r)]
  }

  function TotalSize(q: seq<Message>): nat {
    if q == [] then 0 else TotalSize(q[..|q| - 1]) + |q[|q| - 1].bytes|
  }

  // mqtt_mq_currsz for messages of `total` bytes altogether
  function Room(size: nat, n: nat, total: nat): nat {
    if total >= size - HEADER * (n + 1) then 0 else size - HEADER * (n + 1) - total
  }

  lemma RoomFits(size: nat, n: nat, total: nat, nbytes: nat)
    requires 0 < nbytes <= Room(size, n, total)
    ensures total + nbytes + HEADER * (n + 1) <= size
  {
  }

  // ----- reading a layout -----

  lemma {:induction false} MessagesSize(m: seq<byte>, n: nat, curr: nat)
    requires Layout(m, n, curr)
    ensures TotalSize(Messages(m, n, curr)) == curr
  {
    hide At;
    if n > 0 {
      MessagesSize(m, n - 1, At(m, n - 1).start);
      assert Messages(m, n, curr)[..n - 1] == Messages(m, n - 1, At(m, n - 1).start);
    }
  }

  // Message k is what header k describes.
  lemma {:induction false} MessagesAt(m: seq<byte>, n: nat, curr: nat, k: nat)
    requires Layout(m, n, curr) && k < n
    ensures var r := At(m, k);
            && r.start + r.size <= curr && r.size > 0 && r.state <= 2
            && Messages(m, n, curr)[k] == MessageOf(m, r)
  {
    hide At, MessageOf;
    if k < n - 1 {
      MessagesAt(m, n - 1, At(m, n - 1).start, k);
    }
  }

  // The first k messages are laid out where message k starts.
  lemma {:induction false} LayoutFront(m: seq<byte>, n: nat, curr: nat, k: nat)
    requires Layout(m, n, curr) && k < n
    ensures Layout(m, k, At(m, k).start)
    ensures Messages(m, k, At(m, k).start) == Messages(m, n, curr)[..k]
  {
    hide At;
    var s := At(m, n - 1).start;
    assert Messages(m, n, curr)[..n - 1] == Messages(m, n - 1, s);
    if k < n - 1 {
      LayoutFront(m, n - 1, s, k);
      assert Messages(m, n, curr)[..k] == Messages(m, n - 1, s)[..k];
    }
  }

  // ----- changing memory -----

  ghost predicate Same(m: seq<byte>, m': seq<byte>, lo: nat, hi: nat) {
    |m| == |m'| && hi <= |m| && forall i :: lo <= i < hi ==> m'[i] == m[i]
  }

  lemma SameSlice(m: seq<byte>, m': seq<byte>, lo: nat, hi: nat, a: nat, b: nat)
    requires Same(m, m', lo, hi) && lo <= a <= b <= hi
    ensures m'[a..b] == m[a..b] && Same(m, m', a, b)
  {
  }

  lemma SameMessage(m: seq<byte>, m': seq<byte>, lo: nat, hi: nat, r: Record)
    requires Same(m, m', lo, hi) && lo <= r.start && r.start + r.size <= hi
    ensures MessageOf(m', r) == MessageOf(m, r)
  {
    SameSlice(m, m', lo, hi, r.start, r.start + r.size);
  }

  lemma SameHeader(m: seq<byte>, m': seq<byte>, lo: nat, k: nat)
    requires HEADER * (k + 1) <= |m| && lo <= HeadPos(|m|, k) && Same(m, m', lo, HeadPos(|m|, k) + HEADER)
    ensures At(m', k) == At(m, k)
  {
    hide RecordOf, Same;
    SameSlice(m, m', lo, HeadPos(|m|, k) + HEADER, HeadPos(|m|, k), HeadPos(|m|, k) + HEADER);
  }

  // Memory that differs only outside the packets and the first n headers reads the same.
  lemma {:induction false} LayoutFrame(m: seq<byte>, m': seq<byte>, n: nat, curr: nat)
    requires Layout(m, n, curr) && Same(m, m', 0, curr) && Same(m, m', |m| - HEADER * n, |m|)
    ensures Layout(m', n, curr) && Messages(m', n, curr) == Messages(m, n, curr)
  {
    hide At, Same, MessageOf;
    if n > 0 {
      var r := At(m, n - 1);
      SameLength(m, m', 0, curr);
      SameSlice(m, m', |m| - HEADER * n, |m|, |m| - HEADER * n, |m| - HEADER * (n - 1));
      SameSlice(m, m', |m| - HEADER * n, |m|, |m| - HEADER * (n - 1), |m|);
      SameSlice(m, m', 0, curr, 0, r.start);
      SameHeader(m, m', |m| - HEADER * n, n - 1);
      SameMessage(m, m', 0, curr, r);
      LayoutFrame(m, m', n - 1, r.start);
    }
  }

  lemma SameLength(m: seq<byte>, m': seq<byte>, lo: nat, hi: nat)
    requires Same(m, m', lo, hi)
    ensures |m| == |m'|
  {
  }

  // Header k keeps its packet and holds a state.
  ghost predicate KeepsPlace(m: seq<byte>, m': seq<byte>, k: nat) {
    && HEADER * (k + 1) <= |m| == |m'|
    && At(m', k).start == At(m, k).start && At(m', k).size == At(m, k).size && At(m', k).state <= 2
  }

  // Headers that keep their packets keep the layout.
  lemma {:induction false} LayoutKept(m: seq<byte>, m': seq<byte>, n: nat, curr: nat)
    requires Layout(m, n, curr) && |m'| == |m|
    requires forall k :: 0 <= k < n ==> KeepsPlace(m, m', k)
    ensures Layout(m', n, curr)
  {
    hide At;
    if n > 0 {
      assert KeepsPlace(m, m', n - 1);
      LayoutKept(m, m', n - 1, At(m, n - 1).start);
    }
  }

  // Every record but the k-th is unchanged, and the k-th keeps its place.
  lemma RecordChanged(m: seq<byte>, m': seq<byte>, n: nat, curr: nat, k: nat)
    requires Layout(m, n, curr) && k < n && Same(m, m', 0, curr)
    requires forall j :: 0 <= j < n && j != k ==> At(m', j) == At(m, j)
    requires KeepsPlace(m, m', k)
    ensures At(m', k).start + At(m', k).size <= |m|
    ensures Layout(m', n, curr)
    ensures Messages(m', n, curr) == Messages(m, n, curr)[k := MessageOf(m, At(m', k))]
  {
    hide At, Layout, Messages, MessageOf, Same;
    LayoutSpace(m, n, curr);
    SameLength(m, m', 0, curr);
    forall j | 0 <= j < n ensures KeepsPlace(m, m', j) {
      MessagesAt(m, n, curr, j);
    }
    LayoutKept(m, m', n, curr);
    MessagesAt(m, n, curr, k);
    forall j | 0 <= j < n
      ensures Messages(m', n, curr)[j] == if j == k then MessageOf(m, At(m', k)) else Messages(m, n, curr)[j]
    {
      RecordMessage(m, m', n, curr, j);
    }
  }

  lemma RecordMessage(m: seq<byte>, m': seq<byte>, n: nat, curr: nat, j: nat)
    requires Layout(m, n, curr) && Layout(m', n, curr) && j < n && Same(m, m', 0, curr)
    requires At(m', j).start == At(m, j).start && At(m', j).size == At(m, j).size
    ensures At(m', j).start + At(m', j).size <= |m|
    ensures Messages(m', n, curr)[j] == MessageOf(m, At(m', j))
    ensures At(m', j) == At(m, j) ==> Messages(m', n, curr)[j] == Messages(m, n, curr)[j]
  {
    LayoutSpace(m, n, curr);
    SameLength(m, m', 0, curr);
    hide At, Layout, Messages, MessageOf, Same;
    MessagesAt(m, n, curr, j);
    MessagesAt(m', n, curr, j);
    SameMessage(m, m', 0, curr, At(m', j));
  }

  // Writing s into header k at `off` changes that header only.
  lemma SpliceAt(m: seq<byte>, k: nat, off: nat, s: seq<byte>, j: nat)
    requires HEADER * (k + 1) <= |m| && HEADER * (j + 1) <= |m| && off + |s| <= HEADER
    ensures var (p, q) := (HeadPos(|m|, k), HeadPos(|m|, j));
            At(Splice(m, p + off, s), j) == if j == k then RecordOf(Splice(m[p..p + HEADER], off, s)) else At(m, j)
  {
    hide RecordOf;
    var (p, q) := (HeadPos(|m|, k), HeadPos(|m|, j));
    var m' := Splice(m, p + off, s);
    if j == k {
      SpliceWithin(m, p, off, s);
    } else {
      hide Splice, At;
      HeadsApart(|m|, k, j);
      SpliceSame(m, p + off, s, q, q + HEADER);
      SameHeader(m, m', q, j);
    }
  }

  lemma SpliceWithin(m: seq<byte>, p: nat, off: nat, s: seq<byte>)
    requires p + HEADER <= |m| && off + |s| <= HEADER
    ensures Splice(m, p + off, s)[p..p + HEADER] == Splice(m[p..p + HEADER], off, s)
  {
  }

  lemma HeadsApart(size: nat, k: nat, j: nat)
    requires HEADER * (k + 1) <= size && HEADER * (j + 1) <= size && k != j
    ensures HeadPos(size, k) + HEADER <= HeadPos(size, j) || HeadPos(size, j) + HEADER <= HeadPos(size, k)
  {
    if k < j {
      assert HEADER * (k + 1) + HEADER <= HEADER * (j + 1);
    } else {
      assert HEADER * (j + 1) + HEADER <= HEADER * (k + 1);
    }
  }

  // Bytes outside the range written over stay.
  lemma SpliceSame(m: seq<byte>, pos: nat, s: seq<byte>, lo: nat, hi: nat)
    requires pos + |s| <= |m| && hi <= |m| && (hi <= pos || pos + |s| <= lo)
    ensures Same(m, Splice(m, pos, s), lo, hi)
  {
  }

  // ----- writing one field of a header -----

  datatype Field = Start | Size | StateField | TimeSent | Ctype | Id

  function Offset(f: Field): nat {
    match f case Start => 0 case Size => 8 case StateField => 16 case TimeSent => 24 case Ctype => 32 case Id => 36
  }

  function Width(f: Field): nat {
    match f case Start => 8 case Size => 8 case StateField => 4 case TimeSent => 8 case Ctype => 4 case Id => 2
  }

  function WithField(r: Record, f: Field, v: nat): Record {
    match f
    case Start => r.(start := v)
    case Size => r.(size := v)
    case StateField => r.(state := v)
    case TimeSent => r.(timeSent := v)
    case Ctype => r.(ctype := v)
    case Id => r.(id := v)
  }

  function SetField(m: seq<byte>, k: nat, f: Field, v: nat): (r: seq<byte>)
    requires HEADER * (k + 1) <= |m|
    ensures |r| == |m|
  {
    Splice(m, HeadPos(|m|, k) + Offset(f), Le(v, Width(f)))
  }

  lemma FieldRecord(h: seq<byte>, f: Field, v: nat)
    requires |h| == HEADER && v < Range(Width(f))
    ensures RecordOf(Splice(h, Offset(f), Le(v, Width(f)))) == WithField(RecordOf(h), f, v)
  {
    hide FromLe, Le, Range;
    LeRoundTrip(v, Width(f));
    var h' := Splice(h, Offset(f), Le(v, Width(f)));
    var s := Le(v, Width(f));
    SpliceSlice(h, Offset(f), s, 0, 8);
    SpliceSlice(h, Offset(f), s, 8, 16);
    SpliceSlice(h, Offset(f), s, 16, 20);
    SpliceSlice(h, Offset(f), s, 24, 32);
    SpliceSlice(h, Offset(f), s, 32, 36);
    SpliceSlice(h, Offset(f), s, 36, 38);
    hide Splice;
  }

  lemma SpliceSlice(m: seq<byte>, pos: nat, s: seq<byte>, lo: nat, hi: nat)
    requires pos + |s| <= |m| && lo <= hi <= |m|
    ensures hi <= pos || pos + |s| <= lo ==> Splice(m, pos, s)[lo..hi] == m[lo..hi]
    ensures lo == pos && hi == pos + |s| ==> Splice(m, pos, s)[lo..hi] == s
  {
    var r := Splice(m, pos, s);
    if hi <= pos || pos + |s| <= lo {
      forall i | lo <= i < hi ensures r[i] == m[i] {
        assert i < pos ==> r[i] == m[..pos][i];
        assert i >= pos + |s| ==> r[i] == m[pos + |s|..][i - (pos + |s|)];
      }
      SameElements(r, m, lo, hi);
    }
  }

  lemma SameElements(r: seq<byte>, m: seq<byte>, lo: nat, hi: nat)
    requires |r| == |m| && lo <= hi <= |m| && forall i :: lo <= i < hi ==> r[i] == m[i]
    ensures r[lo..hi] == m[lo..hi]
  {
  }

  lemma SetFieldAt(m: seq<byte>, k: nat, f: Field, v: nat, j: nat)
    requires HEADER * (k + 1) <= |m| && HEADER * (j + 1) <= |m| && v < Range(Width(f))
    ensures At(SetField(m, k, f, v), j) == if j == k then WithField(At(m, k), f, v) else At(m, j)
  {
    hide RecordOf, Splice, Le, Range;
    SpliceAt(m, k, Offset(f), Le(v, Width(f)), j);
    FieldRecord(m[HeadPos(|m|, k)..HeadPos(|m|, k) + HEADER], f, v);
  }

  // Outside header k nothing changes.
  lemma SetFieldOutside(m: seq<byte>, k: nat, f: Field, v: nat, lo: nat, hi: nat)
    requires HEADER * (k + 1) <= |m| && hi <= |m| && (hi <= HeadPos(|m|, k) || HeadPos(|m|, k) + HEADER <= lo)
    ensures Same(m, SetField(m, k, f, v), lo, hi)
  {
    hide Splice, Same;
    SpliceSame(m, HeadPos(|m|, k) + Offset(f), Le(v, Width(f)), lo, hi);
  }

  function WithMessageField(x: Message, f: Field, v: nat): Message {
    match f
    case StateField => x.(state := StateOf(v))
    case TimeSent => x.(timeSent := v)
    case Ctype => x.(ctype := v)
    case Id => x.(id := v)
    case _ => x
  }

  // Writing a field other than start and size of header k changes that field of message k, and nothing else.
  lemma SetFieldMessages(m: seq<byte>, n: nat, curr: nat, k: nat, f: Field, v: nat)
    requires Layout(m, n, curr) && k < n && !f.Start? && !f.Size? && v < Range(Width(f)) && (f.StateField? ==> v <= 2)
    ensures Layout(SetField(m, k, f, v), n, curr)
    ensures Messages(SetField(m, k, f, v), n, curr) ==
            Messages(m, n, curr)[k := WithMessageField(Messages(m, n, curr)[k], f, v)]
  {
    LayoutSpace(m, n, curr);
    hide At, Layout, Messages, SetField, Range, Same, MessageOf;
    var m' := SetField(m, k, f, v);
    SetFieldOutside(m, k, f, v, 0, curr);
    forall j | 0 <= j < n ensures At(m', j) == if j == k then WithField(At(m, k), f, v) else At(m, j) {
      SetFieldAt(m, k, f, v, j);
    }
    MessagesAt(m, n, curr, k);
    RecordChanged(m, m', n, curr, k);
    FieldMessage(m, At(m, k), f, v);
  }

  lemma FieldMessage(m: seq<byte>, r: Record, f: Field, v: nat)
    requires r.start + r.size <= |m| && !f.Start? && !f.Size?
    ensures MessageOf(m, WithField(r, f, v)) == WithMessageField(MessageOf(m, r), f, v)
  {
  }

  lemma LayoutSpace(m: seq<byte>, n: nat, curr: nat)
    requires Layout(m, n, curr)
    ensures curr + HEADER * n <= |m|
  {
  }

  // Where packet k lies.
  lemma PacketBounds(m: seq<byte>, n: nat, curr: nat, k: nat)
    requires Layout(m, n, curr) && k < n
    ensures HEADER * (k + 1) <= |m| && curr <= |m| && |Messages(m, n, curr)| == n
    ensures At(m, k).start + At(m, k).size <= curr && |Messages(m, n, curr)[k].bytes| == At(m, k).size
  {
    LayoutSpace(m, n, curr);
    MessagesAt(m, n, curr, k);
    hide Layout, Messages, At;
  }

  // The packet with the byte changed.
  lemma SamePacket(m: seq<byte>, n: nat, curr: nat, k: nat, i: nat, b: byte)
    requires Layout(m, n, curr) && k < n && HEADER * (k + 1) <= |m| && i < At(m, k).size
             && At(m, k).start + At(m, k).size <= |m|
    requires var m' := Splice(m, At(m, k).start + i, [b]); Layout(m', n, curr) && At(m', k) == At(m, k)
    ensures var m' := Splice(m, At(m, k).start + i, [b]);
            && |Messages(m', n, curr)| == n && |Messages(m, n, curr)[k].bytes| == At(m, k).size
            && Messages(m', n, curr)[k] == Messages(m, n, curr)[k].(bytes := Messages(m, n, curr)[k].bytes[i := b])
  {
    MessagesAt(m, n, curr, k);
    MessagesAt(Splice(m, At(m, k).start + i, [b]), n, curr, k);
    MessageOfByte(m, At(m, k), i, b);
    hide Layout, Messages, At, Splice, MessageOf;
  }

  lemma ByteUpdate(q: seq<Message>, q': seq<Message>, n: nat, k: nat, i: nat, b: byte)
    requires k < |q| == |q'| == n && i < |q[k].bytes| && q'[k] == q[k].(bytes := q[k].bytes[i := b])
    requires forall j :: 0 <= j < n && j != k ==> q'[j] == q[j]
    ensures q' == q[k := q[k].(bytes := q[k].bytes[i := b])]
  {
  }

  // Overwriting one byte of packet k changes that byte of message k, and nothing else.
  lemma ByteChanged(m: seq<byte>, n: nat, curr: nat, k: nat, i: nat, b: byte)
    requires Layout(m, n, curr) && k < n && i < |Messages(m, n, curr)[k].bytes|
    ensures HEADER * (k + 1) <= |m| && At(m, k).start + i < curr <= |m|
    ensures var m' := Splice(m, At(m, k).start + i, [b]);
            && Layout(m', n, curr)
            && Messages(m', n, curr)
               == Messages(m, n, curr)[k := Messages(m, n, curr)[k].(bytes := Messages(m, n, curr)[k].bytes[i := b])]
  {
    hide *;
    PacketBounds(m, n, curr, k);
    var p := At(m, k).start + i;
    var m' := Splice(m, p, [b]);
    LayoutBeyond(m, n, curr, p, b);
    assert At(m', k) == At(m, k);
    OtherPackets(m, n, curr, k, p, b);
    SamePacket(m, n, curr, k, i, b);
    ByteUpdate(Messages(m, n, curr), Messages(m', n, curr), n, k, i, b);
  }

  lemma OtherPackets(m: seq<byte>, n: nat, curr: nat, k: nat, p: nat, b: byte)
    requires Layout(m, n, curr) && k < n && HEADER * (k + 1) <= |m|
    requires At(m, k).start <= p < At(m, k).start + At(m, k).size && p < curr <= |m|
    ensures Layout(Splice(m, p, [b]), n, curr)
    ensures forall j :: 0 <= j < n && j != k ==> Messages(Splice(m, p, [b]), n, curr)[j] == Messages(m, n, curr)[j]
  {
    hide Layout, Messages, At, Splice;
    LayoutBeyond(m, n, curr, p, b);
    forall j | 0 <= j < n && j != k ensures Messages(Splice(m, p, [b]), n, curr)[j] == Messages(m, n, curr)[j] {
      OtherPacket(m, n, curr, k, p, b, j);
    }
  }

  // A byte among the packets is no part of a header.
  lemma LayoutBeyond(m: seq<byte>, n: nat, curr: nat, p: nat, b: byte)
    requires Layout(m, n, curr) && p < curr && curr <= |m|
    ensures forall j :: 0 <= j < n ==> HEADER * (j + 1) <= |m| && At(Splice(m, p, [b]), j) == At(m, j)
    ensures Layout(Splice(m, p, [b]), n, curr)
  {
    LayoutSpace(m, n, curr);
    hide Splice, At, Layout, Same;
    var m' := Splice(m, p, [b]);
    forall j | 0 <= j < n ensures At(m', j) == At(m, j) {
      SpliceSame(m, p, [b], HeadPos(|m|, j), HeadPos(|m|, j) + HEADER);
      SameHeader(m, m', HeadPos(|m|, j), j);
    }
    forall j | 0 <= j < n ensures KeepsPlace(m, m', j) {
      MessagesAt(m, n, curr, j);
    }
    LayoutKept(m, m', n, curr);
  }

  lemma MessageOfByte(m: seq<byte>, r: Record, i: nat, b: byte)
    requires r.start + r.size <= |m|
    ensures |MessageOf(m, r).bytes| == r.size
    ensures i < r.size
            ==> MessageOf(Splice(m, r.start + i, [b]), r) == MessageOf(m, r).(bytes := MessageOf(m, r).bytes[i := b])
  {
    if i < r.size {
      var (lo, hi) := (r.start, r.start + r.size);
      assert Splice(m, lo + i, [b])[lo..hi] == m[lo..hi][i := b];
    }
  }

  lemma OtherPacket(m: seq<byte>, n: nat, curr: nat, k: nat, p: nat, b: byte, j: nat)
    requires Layout(m, n, curr) && k < n && j < n && j != k
    requires At(m, k).start <= p < At(m, k).start + At(m, k).size && p < |m|
    requires Layout(Splice(m, p, [b]), n, curr) && At(Splice(m, p, [b]), j) == At(m, j)
    ensures Messages(Splice(m, p, [b]), n, curr)[j] == Messages(m, n, curr)[j]
  {
    LayoutSpace(m, n, curr);
    hide Splice, At, Layout, Messages, MessageOf, Same;
    MessagesAt(m, n, curr, j);
    MessagesAt(Splice(m, p, [b]), n, curr, j);
    Disjoint(m, n, curr, k, j);
    var r := At(m, j);
    SpliceSame(m, p, [b], r.start, r.start + r.size);
    SameMessage(m, Splice(m, p, [b]), r.start, r.start + r.size, r);
  }

  // Packets do not overlap: they lie in queue order.
  lemma {:induction false} Ordered(m: seq<byte>, n: nat, curr: nat, k: nat, j: nat)
    requires Layout(m, n, curr) && k < j < n
    ensures At(m, k).start + At(m, k).size <= At(m, j).start
  {
    hide At;
    LayoutFront(m, n, curr, j);
    MessagesAt(m, j, At(m, j).start, k);
  }

  lemma Disjoint(m: seq<byte>, n: nat, curr: nat, k: nat, j: nat)
    requires Layout(m, n, curr) && k < n && j < n && k != j
    ensures At(m, k).start + At(m, k).size <= At(m, j).start || At(m, j).start + At(m, j).size <= At(m, k).start
  {
    hide At, Layout;
    if k < j { Ordered(m, n, curr, k, j); } else { Ordered(m, n, curr, j, k); }
  }

  // ----- register -----

  // The header that mqtt_mq_register fills in: its other fields keep what lay in that memory.
  function Registered(m: seq<byte>, n: nat, curr: nat, nbytes: nat): (r: seq<byte>)
    requires HEADER * (n + 1) <= |m|
    ensures |r| == |m|
  {
    SetField(SetField(SetField(m, n, Start, curr), n, Size, nbytes), n, StateField, 0)
  }

  function NewMessage(m: seq<byte>, n: nat, curr: nat, nbytes: nat): Message
    requires HEADER * (n + 1) <= |m| && curr + nbytes <= |m|
  {
    MessageOf(m, At(m, n).(start := curr, size := nbytes, state := 0))
  }

  lemma {:induction false} FromLeBound(s: seq<byte>)
    ensures FromLe(s) < Range(|s|)
  {
    if s != [] {
      FromLeBound(s[1..]);
    }
  }

  lemma NewMessageIs(m: seq<byte>, n: nat, curr: nat, nbytes: nat)
    requires HEADER * (n + 1) <= |m| && curr + nbytes <= |m|
    ensures var x := NewMessage(m, n, curr, nbytes);
            x.bytes == m[curr..curr + nbytes] && x.state.Unsent? && x.id < 65536
  {
    var h := m[HeadPos(|m|, n)..HeadPos(|m|, n) + HEADER];
    FromLeBound(h[36..38]);
    assert Range(2) == 256 * Range(1) && Range(1) == 256 * Range(0);
  }

  lemma SameTrans(m: seq<byte>, m1: seq<byte>, m2: seq<byte>, lo: nat, hi: nat)
    requires Same(m, m1, lo, hi) && Same(m1, m2, lo, hi)
    ensures Same(m, m2, lo, hi)
  {
  }

  lemma RegisteredOutside(m: seq<byte>, n: nat, curr: nat, nbytes: nat, lo: nat, hi: nat)
    requires HEADER * (n + 1) <= |m| && hi <= |m| && (hi <= HeadPos(|m|, n) || HeadPos(|m|, n) + HEADER <= lo)
    ensures Same(m, Registered(m, n, curr, nbytes), lo, hi)
  {
    hide SetField, Same;
    var m1 := SetField(m, n, Start, curr);
    var m2 := SetField(m1, n, Size, nbytes);
    var m3 := SetField(m2, n, StateField, 0);
    SetFieldOutside(m, n, Start, curr, lo, hi);
    SetFieldOutside(m1, n, Size, nbytes, lo, hi);
    SetFieldOutside(m2, n, StateField, 0, lo, hi);
    SameTrans(m, m1, m2, lo, hi);
    SameTrans(m, m2, m3, lo, hi);
  }

  lemma RegisteredAt(m: seq<byte>, n: nat, curr: nat, nbytes: nat)
    requires HEADER * (n + 1) <= |m| && curr < Range(8) && nbytes < Range(8)
    ensures At(Registered(m, n, curr, nbytes), n) == At(m, n).(start := curr, size := nbytes, state := 0)
  {
    hide At, SetField;
    var m1 := SetField(m, n, Start, curr);
    var m2 := SetField(m1, n, Size, nbytes);
    SetFieldAt(m, n, Start, curr, n);
    SetFieldAt(m1, n, Size, nbytes, n);
    assert 0 < Range(4);
    SetFieldAt(m2, n, StateField, 0, n);
  }

  // Registering appends the message whose bytes were just packed.
  lemma RegisteredMessages(m: seq<byte>, n: nat, curr: nat, nbytes: nat)
    requires Layout(m, n, curr) && nbytes > 0 && curr + nbytes + HEADER * (n + 1) <= |m| && |m| <= Range(8)
    ensures var m' := Registered(m, n, curr, nbytes);
            && Layout(m', n + 1, curr + nbytes)
            && Messages(m', n + 1, curr + nbytes) == Messages(m, n, curr) + [NewMessage(m, n, curr, nbytes)]
  {
    hide At, Registered, Range, Same, MessageOf;
    var m' := Registered(m, n, curr, nbytes);
    RegisteredOutside(m, n, curr, nbytes, 0, curr);
    RegisteredOutside(m, n, curr, nbytes, |m| - HEADER * n, |m|);
    RegisteredOutside(m, n, curr, nbytes, 0, curr + nbytes);
    RegisteredAt(m, n, curr, nbytes);
    LayoutFrame(m, m', n, curr);
    SameMessage(m, m', 0, curr + nbytes, At(m', n));
  }

  // ----- clean -----

  // The first `len` bytes of m' are those of m from `gap` on.
  ghost predicate MovedDown(m: seq<byte>, m': seq<byte>, gap: nat, len: nat) {
    len <= |m'| && gap + len <= |m| && forall i :: 0 <= i < len ==> m'[i] == m[gap + i]
  }

  lemma MovedMessage(m: seq<byte>, m': seq<byte>, gap: nat, len: nat, r: Record)
    requires MovedDown(m, m', gap, len) && gap <= r.start && r.start + r.size <= gap + len
    ensures MessageOf(m', r.(start := r.start - gap)) == MessageOf(m, r)
    ensures MovedDown(m, m', gap, r.start - gap)
  {
  }

  // Header j of m' is header j + h of m, rebased by `gap`.
  ghost predicate Rebased(m: seq<byte>, m': seq<byte>, j: nat, h: nat, gap: nat) {
    && HEADER * (j + h + 1) <= |m| == |m'|
    && At(m, j + h).start >= gap
    && At(m', j) == At(m, j + h).(start := At(m, j + h).start - gap)
  }

  ghost predicate AllRebased(m: seq<byte>, m': seq<byte>, count: nat, h: nat, gap: nat) {
    forall j :: 0 <= j < count ==> Rebased(m, m', j, h, gap)
  }

  // h messages dropped from the front, the rest moved down by `gap` bytes.
  lemma {:induction false} Shifted(m: seq<byte>, m': seq<byte>, n: nat, curr: nat, h: nat, gap: nat)
    requires Layout(m, n, curr) && h <= n && |m'| == |m| && gap <= curr
    requires Layout(m, h, gap)
    requires AllRebased(m, m', n - h, h, gap)
    requires MovedDown(m, m', gap, curr - gap)
    requires h == n ==> gap == curr
    ensures Layout(m', n - h, curr - gap)
    ensures Messages(m', n - h, curr - gap) == Messages(m, n, curr)[h..]
    decreases n
  {
    hide At, MovedDown, MessageOf, Layout, Messages;
    if h < n {
      LayoutLast(m, n, curr);
      var r := At(m, n - 1);
      assert Rebased(m, m', n - 1 - h, h, gap);
      assert AllRebased(m, m', n - 1 - h, h, gap);
      hide Rebased, AllRebased;
      MovedMessage(m, m', gap, curr - gap, r);
      if h == n - 1 {
        LayoutUnique(m, h, gap, r.start);
      }
      Shifted(m, m', n - 1, r.start, h, gap);
      LayoutSnoc(m', n - 1 - h, r.start - gap, curr - gap);
    } else {
      LayoutNone(m');
    }
  }

  lemma LayoutNone(m: seq<byte>)
    ensures Layout(m, 0, 0) && Messages(m, 0, 0) == []
  {
  }

  lemma LayoutLast(m: seq<byte>, n: nat, curr: nat)
    requires Layout(m, n, curr) && n > 0
    ensures curr + HEADER * n <= |m|
    ensures var r := At(m, n - 1);
            && r.start + r.size == curr && r.size > 0 && r.state <= 2 && Layout(m, n - 1, r.start)
            && Messages(m, n, curr) == Messages(m, n - 1, r.start) + [MessageOf(m, r)]
  {
  }

  lemma LayoutSnoc(m: seq<byte>, n: nat, mid: nat, curr: nat)
    requires Layout(m, n, mid) && curr + HEADER * (n + 1) <= |m|
    requires At(m, n).start == mid && At(m, n).start + At(m, n).size == curr && At(m, n).size > 0 && At(m, n).state <= 2
    ensures Layout(m, n + 1, curr)
    ensures Messages(m, n + 1, curr) == Messages(m, n, mid) + [MessageOf(m, At(m, n))]
  {
  }

  lemma {:induction false} LayoutUnique(m: seq<byte>, n: nat, curr: nat, curr': nat)
    requires Layout(m, n, curr) && Layout(m, n, curr')
    ensures curr == curr'
  {
  }

  lemma ScratchSame(m: seq<byte>, m': seq<byte>, pos: nat, room: nat, lo: nat, hi: nat)
    requires pos + room <= |m| && hi <= |m| && (hi <= pos || pos + room <= lo) && Scratch(m, m', pos, room)
    ensures Same(m, m', lo, hi)
  {
    hide Splice, Same;
    var s: seq<byte> :| |s| <= room && m' == Splice(m, pos, s);
    SpliceSame(m, pos, s, lo, hi);
  }

  // The two memmoves of mqtt_mq_clean: packets down, headers up.
  function Compacted(m: seq<byte>, n: nat, curr: nat, h: nat, gap: nat): (r: seq<byte>)
    requires h <= n && gap <= curr && curr + HEADER * n <= |m|
    ensures |r| == |m|
  {
    var m1 := Splice(m, 0, m[gap..curr]);
    Splice(m1, |m| - HEADER * (n - h), m1[|m| - HEADER * n..|m| - HEADER * h])
  }

  // One header of a block of memory moved from src to dst.
  lemma BlockSlice(m: seq<byte>, dst: nat, src: nat, len: nat, off: nat)
    requires dst + len <= |m| && src + len <= |m| && off + HEADER <= len
    ensures Splice(m, dst, m[src..src + len])[dst + off..dst + off + HEADER] == m[src + off..src + off + HEADER]
  {
    var s := m[src..src + len];
    var t := Splice(m, dst, s);
    SpliceSlice(m, dst, s, dst, dst + len);
    hide Splice;
    SliceOfSlice(t, dst, len, off);
    SliceOfSlice(m, src, len, off);
  }

  lemma SliceOfSlice(m: seq<byte>, pos: nat, len: nat, off: nat)
    requires pos + len <= |m| && off + HEADER <= len
    ensures m[pos..pos + len][off..off + HEADER] == m[pos + off..pos + off + HEADER]
  {
    var (a, b) := (m[pos..pos + len][off..off + HEADER], m[pos + off..pos + off + HEADER]);
    forall i | 0 <= i < HEADER ensures a[i] == b[i] {
      assert a[i] == m[pos..pos + len][off + i] == m[pos + (off + i)];
    }
    assert |a| == |b|;
  }

  lemma CompactedHeaders(m: seq<byte>, n: nat, curr: nat, h: nat, gap: nat, j: nat)
    requires h <= n && gap <= curr && curr + HEADER * n <= |m| && j < n - h
    ensures At(Compacted(m, n, curr, h, gap), j) == At(m, j + h)
  {
    hide RecordOf;
    var m1 := Splice(m, 0, m[gap..curr]);
    var m2 := Compacted(m, n, curr, h, gap);
    var (p, q) := (HeadPos(|m|, j), HeadPos(|m|, j + h));
    BlockSlice(m1, |m| - HEADER * (n - h), |m| - HEADER * n, HEADER * (n - h), p - (|m| - HEADER * (n - h)));
    SpliceSame(m, 0, m[gap..curr], q, q + HEADER);
    hide Same, Splice;
    SameSlice(m, m1, q, q + HEADER, q, q + HEADER);
  }

  lemma CompactedPackets(m: seq<byte>, n: nat, curr: nat, h: nat, gap: nat)
    requires h <= n && gap <= curr && curr + HEADER * n <= |m|
    ensures MovedDown(m, Compacted(m, n, curr, h, gap), gap, curr - gap)
  {
  }

  lemma MovedSame(m: seq<byte>, m1: seq<byte>, m2: seq<byte>, gap: nat, len: nat)
    requires MovedDown(m, m1, gap, len) && Same(m1, m2, 0, len)
    ensures MovedDown(m, m2, gap, len)
  {
  }
}
