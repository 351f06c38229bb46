// The send queue of src/mqtt.c: mqtt_mq_init, mqtt_mq_register, mqtt_mq_clean, mqtt_mq_find.
module MessageQueues {
  import opened Types
  import opened Wire
  import opened Packers
  import opened QueueMemory

  // How many messages mqtt_mq_clean removes: the longest run of complete messages at the front.
  function CompletePrefix(q: seq<Message>): (h: nat)
    ensures h <= |q|
    ensures forall i :: 0 <= i < h ==> q[i].state.Complete?
    ensures h < |q| ==> !q[h].state.Complete?
  {
    if q == [] || !q[0].state.Complete? then 0 else 1 + CompletePrefix(q[1..])
  }

  lemma CompletePrefixUnique(q: seq<Message>, h: nat)
    requires h <= |q| && (forall i :: 0 <= i < h ==> q[i].state.Complete?) && (h < |q| ==> !q[h].state.Complete?)
    ensures h == CompletePrefix(q)
  {
  }

  // Without an identifier only messages that are not complete match; with one the state does not matter.
  predicate Matches(x: Message, ctype: nat, id: Option<u16>) {
    x.ctype == ctype && if id.None? then !x.state.Complete? else x.id == id.value
  }

  // The first match, or |q|.
  function FindIn(q: seq<Message>, ctype: nat, id: Option<u16>): (k: nat)
    ensures k <= |q|
    ensures k < |q| ==> Matches(q[k], ctype, id)
    ensures forall i :: 0 <= i < k ==> !Matches(q[i], ctype, id)
  {
    if q == [] || Matches(q[0], ctype, id) then 0 else 1 + FindIn(q[1..], ctype, id)
  }

  lemma FindUnique(q: seq<Message>, ctype: nat, id: Option<u16>, k: nat)
    requires k <= |q|
             && (forall i :: 0 <= i < k ==> !Matches(q[i], ctype, id)) && (k < |q| ==> Matches(q[k], ctype, id))
    ensures k == FindIn(q, ctype, id)
  {
  }

  ghost function UsedIds(q: seq<Message>): set<nat> {
    set i | 0 <= i < |q| :: q[i].id
  }

  // memmove
  method MoveBytes(a: array<byte>, dst: nat, src: nat, n: nat)
    requires dst + n <= a.Length && src + n <= a.Length
    modifies a
    ensures a[..] == Splice(old(a[..]), dst, old(a[..])[src..src + n])
  {
    forall i | 0 <= i < n {
      a[dst + i] := a[src + i];
    }
  }

  method ReadHeader(a: array<byte>, k: nat) returns (r: Record)
    requires HEADER * (k + 1) <= a.Length
    ensures r == At(a[..], k)
  {
    var p := a.Length - HEADER * (k + 1);
    assert a[p..p + HEADER] == a[..][p..p + HEADER];
    r := RecordOf(a[p..p + HEADER]);
  }

  method WriteField(a: array<byte>, k: nat, f: Field, v: nat)
    requires HEADER * (k + 1) <= a.Length
    modifies a
    ensures a[..] == SetField(old(a[..]), k, f, v)
  {
    var end := PutBytes(a, a.Length - HEADER * (k + 1) + Offset(f), Le(v, Width(f)));
  }

  // What mqtt_mq_register writes: header n for the nbytes packed at curr.
  method FillHeader(a: array<byte>, n: nat, curr: nat, nbytes: nat)
    requires Layout(a[..], n, curr) && nbytes > 0 && curr + nbytes + HEADER * (n + 1) <= a.Length <= Range(8)
    modifies a
    ensures Layout(a[..], n + 1, curr + nbytes)
    ensures Messages(a[..], n + 1, curr + nbytes)
            == old(Messages(a[..], n, curr)) + [NewMessage(old(a[..]), n, curr, nbytes)]
  {
    hide SetField, Layout, Messages, NewMessage, Range;
    RegisteredMessages(a[..], n, curr, nbytes);
    WriteField(a, n, Start, curr);
    WriteField(a, n, Size, nbytes);
    WriteField(a, n, StateField, 0);
  }

  lemma SameRefl(m: seq<byte>, lo: nat, hi: nat)
    requires hi <= |m|
    ensures Same(m, m, lo, hi)
  {
  }

  // The packets behind message h start behind it.
  lemma StartsBehind(m: seq<byte>, n: nat, c: nat, h: nat, k: nat)
    requires Layout(m, n, c) && h <= k < n
    ensures At(m, h).start <= At(m, k).start <= c
  {
    hide Layout, At;
    MessagesAt(m, n, c, k);
    if h < k {
      Ordered(m, n, c, h, k);
    }
  }

  lemma SmallerRange(start: nat, gap: nat, size: nat)
    requires gap <= start <= size <= Range(8)
    ensures start - gap <= Range(8) && (gap > 0 || start < size ==> start - gap < Range(8))
  {
    hide Range;
  }

  // One turn of the loop that bumps back the `start`s.
  lemma RebasedNext(m: seq<byte>, n: nat, c: nat, h: nat, gap: nat, m2: seq<byte>, m3: seq<byte>, i: nat)
    requires Layout(m, n, c) && 0 < h < n && i < n - h && |m| <= Range(8)
    requires gap == At(m, h).start && gap <= c && c + HEADER * n <= |m| == |m2| == |m3|
    requires m2 == Compacted(m, n, c, h, gap) && At(m3, i) == At(m2, i) && AllRebased(m, m3, i, h, gap)
    ensures At(m3, i).start >= gap && At(m3, i).start - gap < Range(8)
    ensures var m4 := SetField(m3, i, Start, At(m3, i).start - gap);
            && (forall j :: 0 <= j < n - h && j != i ==> At(m4, j) == At(m3, j))
            && AllRebased(m, m4, i + 1, h, gap)
            && Same(m3, m4, 0, c - gap)
  {
    hide Layout, At, Compacted, Same, SetField, AllRebased, Range;
    CompactedHeaders(m, n, c, h, gap, i);
    StartsBehind(m, n, c, h, i + h);
    var v := At(m3, i).start - gap;
    SmallerRange(At(m3, i).start, gap, |m|);
    SetFieldOutside(m3, i, Start, v, 0, c - gap);
    forall j | 0 <= j < n - h
      ensures At(SetField(m3, i, Start, v), j) == if j == i then WithField(At(m3, i), Start, v) else At(m3, j)
    {
      SetFieldAt(m3, i, Start, v, j);
    }
    RebasedMore(m, m3, SetField(m3, i, Start, v), h, gap, i);
  }

  lemma RebasedMore(m: seq<byte>, m3: seq<byte>, m4: seq<byte>, h: nat, gap: nat, i: nat)
    requires AllRebased(m, m3, i, h, gap) && |m3| == |m4| == |m| && HEADER * (i + h + 1) <= |m|
    requires forall j :: 0 <= j < i ==> At(m4, j) == At(m3, j)
    requires At(m, i + h).start >= gap && At(m4, i) == At(m, i + h).(start := At(m, i + h).start - gap)
    ensures AllRebased(m, m4, i + 1, h, gap)
  {
    hide At;
    forall j | 0 <= j < i + 1 ensures Rebased(m, m4, j, h, gap) {
      assert j < i ==> Rebased(m, m3, j, h, gap);
    }
  }

  class MessageQueue {
    const mem: array<byte>
    var curr: nat      // offset of the next packet
    var currSz: nat    // bytes that may be packed there
    var length: nat    // headers between queue_tail and mem_end

    ghost predicate Valid()
      reads this, mem
    {
      && mem.Length <= Range(8)
      && Layout(mem[..], length, curr)
      && currSz == Room(mem.Length, length, curr)
    }

    ghost function Contents(): seq<Message>
      requires Valid()
      reads this, mem
    {
      Messages(mem[..], length, curr)
    }

    // mqtt_mq_init
    constructor (buf: array<byte>)
      requires buf.Length <= Range(8)
      ensures Valid() && mem == buf && Contents() == []
    {
      mem := buf;
      curr, length := 0, 0;
      currSz := Room(buf.Length, 0, 0);
    }

    // queue_tail, curr and curr_sz for n messages in c bytes
    method SetMarks(n: nat, c: nat)
      modifies this`length, this`curr, this`currSz
      ensures length == n && curr == c && currSz == Room(mem.Length, n, c) && mem[..] == old(mem[..])
    {
      hide Room;
      length := n;
      curr := c;
      currSz := Room(mem.Length, n, c);
    }

    // mqtt_mq_get: the header of message k.
    method Get(k: nat) returns (r: Record)
      requires Valid() && k < length
      ensures HEADER * (k + 1) <= mem.Length && r == At(mem[..], k)
      ensures r.start + r.size <= curr <= mem.Length && r.size > 0 && r.state <= 2
      ensures Contents()[k] == MessageOf(mem[..], r)
    {
      LayoutSpace(mem[..], length, curr);
      MessagesAt(mem[..], length, curr, k);
      hide Layout, Messages, At, MessageOf;
      r := ReadHeader(mem, k);
    }

    // The first byte of message k, which holds its flags.
    method FirstByte(k: nat) returns (b: byte)
      requires Valid() && k < length
      ensures |Contents()[k].bytes| > 0 && b == Contents()[k].bytes[0]
    {
      var r := Get(k);
      b := mem[r.start];
    }

    method SetMessageField(k: nat, f: Field, v: nat)
      requires Valid() && k < length && !f.Start? && !f.Size? && v < Range(Width(f))
      requires f.StateField? ==> v <= 2
      modifies mem
      ensures Valid() && Contents() == old(Contents())[k := WithMessageField(old(Contents())[k], f, v)]
    {
      LayoutSpace(mem[..], length, curr);
      hide Layout, Messages, SetField;
      SetFieldMessages(mem[..], length, curr, k, f, v);
      WriteField(mem, k, f, v);
    }

    // start[0] |= MQTT_PUBLISH_DUP
    method SetDup(k: nat)
      requires Valid() && k < length
      modifies mem
      ensures Valid() && |old(Contents())[k].bytes| > 0
      ensures var (q, b) := (old(Contents()), old(Contents())[k].bytes);
              Contents() == q[k := q[k].(bytes := b[0 := WithDup(b[0])])]
    {
      hide Layout, Messages;
      var r := Get(k);
      var b := WithDup(mem[r.start]);
      ByteChanged(mem[..], length, curr, k, 0, b);
      var end := PutByte(mem, r.start, b);
    }

    // A packer called on curr and curr_sz: whatever it writes, the queue is unharmed.
    method Pack(r: Request) returns (n: nat, error: Error)
      requires Valid()
      modifies mem
      ensures Valid() && Contents() == old(Contents())
      ensures match Wire.Pack(currSz, r)
              case Packed(p) => error == OK && 0 < n == |p| <= currSz && curr + n <= mem.Length
                && mem[curr..curr + n] == p
              case NoRoom => error == OK && n == 0
              case Refused(e) => error == e && e != OK && n == 0
    {
      hide Layout, Messages;
      LayoutSpace(mem[..], length, curr);
      ghost var m := mem[..];
      n, error := PutRequest(mem, curr, currSz, r);
      ScratchSame(m, mem[..], curr, currSz, 0, curr);
      ScratchSame(m, mem[..], curr, currSz, mem.Length - HEADER * length, mem.Length);
      LayoutFrame(m, mem[..], length, curr);
    }

    // mqtt_mq_register: the new message has the bytes just packed; its time,
    // type and identifier are whatever lay in the memory of its header.
    method Register(nbytes: nat)
      requires Valid() && 0 < nbytes <= currSz
      modifies this, mem
      ensures Valid() && length == old(length) + 1
      ensures Contents() == old(Contents()) + [NewMessage(old(mem[..]), old(length), old(curr), nbytes)]
    {
      RoomFits(mem.Length, length, curr, nbytes);
      hide Layout, Messages, NewMessage, Range, Room;
      FillHeader(mem, length, curr, nbytes);
      SetMarks(length + 1, curr + nbytes);
    }

    // mqtt_mq_find: the first match, or `length`.
    method Find(ctype: nat, id: Option<u16>) returns (k: nat)
      requires Valid()
      ensures k == FindIn(Contents(), ctype, id)
    {
      hide Layout, Messages;
      ghost var q := Contents();
      assert |q| == length;
      k := 0;
      while k < length
        invariant k <= length
        invariant forall i :: 0 <= i < k ==> !Matches(q[i], ctype, id)
      {
        var r := Get(k);
        if r.ctype == ctype && if id.None? then r.state != 2 else r.id == id.value {
          break;
        }
        k := k + 1;
      }
      FindUnique(q, ctype, id, k);
    }

    // The loop of __mqtt_next_pid over the queued messages.
    method InUse(id: nat) returns (b: bool)
      requires Valid()
      ensures b <==> id in UsedIds(Contents())
    {
      hide Layout, Messages;
      ghost var q := Contents();
      assert |q| == length;
      b := false;
      var k := 0;
      while k < length
        invariant k <= length && !b
        invariant forall i :: 0 <= i < k ==> q[i].id != id
      {
        var m := Get(k);
        if m.id == id {
          assert q[k].id == id;
          return true;
        }
        k := k + 1;
      }
    }

    // The first loop of mqtt_mq_clean.
    method FirstIncomplete() returns (h: nat)
      requires Valid()
      ensures h == CompletePrefix(Contents())
    {
      ghost var q := Contents();
      hide Layout, Messages;
      h := 0;
      while h < length
        invariant h <= length
        invariant forall i :: 0 <= i < h ==> q[i].state.Complete?
      {
        var r := Get(h);
        if r.state != 2 {
          break;
        }
        h := h + 1;
      }
      CompletePrefixUnique(q, h);
    }

    // mqtt_mq_clean
    method Clean()
      requires Valid()
      modifies this, mem
      ensures Valid() && Contents() == old(Contents())[CompletePrefix(old(Contents()))..]
    {
      LayoutNone(mem[..]);
      hide Layout, Messages, Range;
      var h := FirstIncomplete();
      if h == length {
        SetMarks(0, 0);
      } else if h > 0 {
        RemoveFront(h);
      }
    }

    method RemoveFront(h: nat)
      requires Valid() && 0 < h < length
      modifies this, mem
      ensures Valid() && Contents() == old(Contents())[h..]
    {
      hide Layout, Messages, Range;
      var removing := DropFront(mem, length, curr, h);
      SetMarks(length - h, curr - removing);
    }
  }

  // mqtt_mq_clean once it has found that header h is to be the first.
  method DropFront(a: array<byte>, n: nat, curr: nat, h: nat) returns (removing: nat)
    requires Layout(a[..], n, curr) && 0 < h < n && a.Length <= Range(8)
    modifies a
    ensures removing <= curr && Layout(a[..], n - h, curr - removing)
    ensures Messages(a[..], n - h, curr - removing) == old(Messages(a[..], n, curr))[h..]
  {
    LayoutSpace(a[..], n, curr);
    hide Layout, Messages, At, AllRebased, MovedDown, Range, MessageOf;
    ghost var m := a[..];
    var head := ReadHeader(a, h);
    removing := head.start;
    MessagesAt(m, n, curr, h);
    LayoutFront(m, n, curr, h);
    Compact(a, n, curr, h, removing);
    Shifted(m, a[..], n, curr, h, removing);
  }

  // The two memmoves of mqtt_mq_clean and the loop that rebases `start`.
  method Compact(a: array<byte>, length: nat, curr: nat, h: nat, removing: nat)
    requires Layout(a[..], length, curr) && 0 < h < length && a.Length <= Range(8)
    requires removing == At(a[..], h).start && removing <= curr && curr + HEADER * length <= a.Length
    modifies a
    ensures AllRebased(old(a[..]), a[..], length - h, h, removing)
    ensures MovedDown(old(a[..]), a[..], removing, curr - removing)
  {
    hide Layout, At, Splice, Same, MovedDown, Rebased, SetField, Range;
    ghost var m := a[..];
    MoveBytes(a, 0, removing, curr - removing);
    MoveBytes(a, a.Length - HEADER * (length - h), a.Length - HEADER * length, HEADER * (length - h));
    CompactedPackets(m, length, curr, h, removing);
    hide Compacted;
    Rebase(a, m, length, curr, h, removing);
  }

  // The loop that bumps back the `start` of every remaining header.
  method Rebase(a: array<byte>, ghost m: seq<byte>, length: nat, ghost curr: nat, h: nat, removing: nat)
    requires Layout(m, length, curr) && 0 < h < length && |m| == a.Length <= Range(8)
    requires removing == At(m, h).start && removing <= curr && curr + HEADER * length <= a.Length
    requires a[..] == Compacted(m, length, curr, h, removing) && MovedDown(m, a[..], removing, curr - removing)
    modifies a
    ensures AllRebased(m, a[..], length - h, h, removing)
    ensures MovedDown(m, a[..], removing, curr - removing)
  {
    hide Layout, At, Splice, Same, MovedDown, Rebased, SetField, Range, Compacted;
    ghost var m2 := a[..];
    SameRefl(m2, 0, curr - removing);
    var i := 0;
    while i < length - h
      invariant i <= length - h
      invariant AllRebased(m, a[..], i, h, removing)
      invariant forall j :: i <= j < length - h ==> At(a[..], j) == At(m2, j)
      invariant Same(m2, a[..], 0, curr - removing)
    {
      ghost var m3 := a[..];
      RebasedNext(m, length, curr, h, removing, m2, m3, i);
      var r := ReadHeader(a, i);
      WriteField(a, i, Start, r.start - removing);
      SameTrans(m2, m3, a[..], 0, curr - removing);
      i := i + 1;
    }
    MovedSame(m, m2, a[..], removing, curr - removing);
  }
}
