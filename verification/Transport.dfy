// The transport of the program, an OpenSSL BIO (src/mqtt_pal.c:286-313): what
// mqtt_pal_sendall and mqtt_pal_recvall make of the calls to BIO_write and
// BIO_read, and that this is what Protocol takes a transport to do.
module Transport {
  import opened Types
  import opened Packers
  import opened Protocol

  // BIO_write takes up to n bytes; if it takes none, retry is BIO_should_retry.
  datatype Write = Writing(n: nat, retry: bool)

  // BIO_read brings up to n bytes; last is BIO_should_read behind it.
  datatype Fetch = Fetching(n: nat, retry: bool, last: bool)

  // mqtt_pal_sendall of `left` bytes over these writes; None if they do not decide it.
  function Sending(ws: seq<Write>, left: nat): (r: Option<Attempt>)
    ensures r.Some? && r.value.Breaks? ==> r.value.after < left
  {
    if left == 0 then Some(Through)
    else if ws == [] then None
    else
      var n := Min(ws[0].n, left);
      if n == 0 && !ws[0].retry then Some(Breaks(0)) else Further(Sending(ws[1..], left - n), n)
  }

  // The same after n bytes have gone out.
  function Further(r: Option<Attempt>, n: nat): Option<Attempt> {
    match r
    case Some(Breaks(k)) => Some(Breaks(n + k))
    case other => other
  }

  // mqtt_pal_recvall into `room` bytes with `avail` on the way; None if the calls do not decide it.
  function Receiving(fs: seq<Fetch>, room: nat, avail: nat): (r: Option<Read>)
    ensures r.Some? ==> r.value.n <= Min(room, avail)
  {
    if fs == [] then None
    else
      var n := Min(fs[0].n, Min(room, avail));
      if n == 0 && !fs[0].retry then Some(Broken(0))
      else if fs[0].last || n == room then Some(Ready(n))
      else Onwards(Receiving(fs[1..], room - n, avail - n), n)
  }

  function Onwards(r: Option<Read>, n: nat): Option<Read> {
    match r
    case Some(Ready(k)) => Some(Ready(n + k))
    case Some(Broken(k)) => Some(Broken(n + k))
    case None => None
  }

  // Write i, with `sent` bytes out before it.
  lemma SendingTurn(ws: seq<Write>, i: nat, len: nat, sent: nat)
    requires i <= |ws| && sent < len && Sending(ws[i..], len - sent).Some?
    ensures i < |ws|
    ensures var n := Min(ws[i].n, len - sent);
            Further(Sending(ws[i..], len - sent), sent) ==
            if n == 0 && !ws[i].retry then Some(Breaks(sent))
            else Further(Sending(ws[i + 1..], len - (sent + n)), sent + n)
    ensures var n := Min(ws[i].n, len - sent); n > 0 || ws[i].retry ==> Sending(ws[i + 1..], len - (sent + n)).Some?
  {
    if i < |ws| {
      assert ws[i..][0] == ws[i] && ws[i..][1..] == ws[i + 1..];
    }
  }

  lemma SendingDone(ws: seq<Write>, n: nat)
    ensures Further(Sending(ws, 0), n) == Some(Through)
  {
  }

  lemma SendingStart(ws: seq<Write>, len: nat)
    ensures ws[0..] == ws && Further(Sending(ws, len), 0) == Sending(ws, len)
  {
  }

  lemma NextPart(m: seq<byte>, from: nat, len: nat, sent: nat, n: nat)
    requires from + len <= |m| && sent + n <= len
    ensures m[from..from + len][..sent] + m[from + sent..from + sent + n] == m[from..from + len][..sent + n]
  {
  }

  // mqtt_pal_sendall: all of the buffer goes out, or an error is returned and a strict prefix of it has gone out.
  method SendAll(buf: array<byte>, from: nat, len: nat, ws: seq<Write>) returns (r: Attempt, ghost wire: seq<byte>)
    requires from + len <= buf.Length && Sending(ws, len).Some?
    ensures Some(r) == Sending(ws, len)
    ensures r.Breaks? ==> r.after < len
    ensures wire == buf[from..from + len][..if r.Through? then len else r.after]
  {
    hide Sending, Further;
    var sent: nat, i: nat := 0, 0;
    wire := [];
    ghost var (was, b) := (Sending(ws, len), buf[from..from + len]);
    SendingStart(ws, len);
    while sent < len
      invariant sent <= len && i <= |ws| && wire == b[..sent]
      invariant Sending(ws[i..], len - sent).Some?
      invariant was == Further(Sending(ws[i..], len - sent), sent)
      decreases |ws| - i
    {
      SendingTurn(ws, i, len, sent);
      var tmp := Min(ws[i].n, len - sent);
      if tmp > 0 {
        NextPart(buf[..], from, len, sent, tmp);
        wire := wire + buf[from + sent..from + sent + tmp];
        sent := sent + tmp;
      } else if !ws[i].retry {
        return Breaks(sent), wire;
      }
      i := i + 1;
    }
    SendingDone(ws[i..], sent);
    r := Through;
  }

  // One read, with `got` bytes in before it.
  lemma ReceivingOne(fs: seq<Fetch>, room: nat, avail: nat, got: nat)
    requires got <= room && got <= avail && Receiving(fs, room - got, avail - got).Some?
    ensures fs != []
    ensures var n := Min(fs[0].n, Min(room - got, avail - got));
            Onwards(Receiving(fs, room - got, avail - got), got) ==
            if n == 0 && !fs[0].retry then Some(Broken(got))
            else if fs[0].last || got + n == room then Some(Ready(got + n))
            else Onwards(Receiving(fs[1..], room - (got + n), avail - (got + n)), got + n)
    ensures var n := Min(fs[0].n, Min(room - got, avail - got));
            (n > 0 || fs[0].retry) && !fs[0].last && got + n < room ==>
              Receiving(fs[1..], room - (got + n), avail - (got + n)).Some?
  {
  }

  // Read i of them.
  lemma ReceivingTurn(fs: seq<Fetch>, i: nat, room: nat, avail: nat, got: nat)
    requires i <= |fs| && got <= room && got <= avail && Receiving(fs[i..], room - got, avail - got).Some?
    ensures i < |fs|
    ensures var n := Min(fs[i].n, Min(room - got, avail - got));
            Onwards(Receiving(fs[i..], room - got, avail - got), got) ==
            if n == 0 && !fs[i].retry then Some(Broken(got))
            else if fs[i].last || got + n == room then Some(Ready(got + n))
            else Onwards(Receiving(fs[i + 1..], room - (got + n), avail - (got + n)), got + n)
    ensures var n := Min(fs[i].n, Min(room - got, avail - got));
            (n > 0 || fs[i].retry) && !fs[i].last && got + n < room ==>
              Receiving(fs[i + 1..], room - (got + n), avail - (got + n)).Some?
  {
    hide Receiving, Onwards;
    ReceivingOne(fs[i..], room, avail, got);
    assert fs[i..][0] == fs[i] && fs[i..][1..] == fs[i + 1..];
  }

  lemma ReceivingStart(fs: seq<Fetch>, room: nat, avail: nat)
    ensures fs[0..] == fs && Onwards(Receiving(fs, room, avail), 0) == Receiving(fs, room, avail)
  {
  }

  // mqtt_pal_recvall: the bytes it reports, and those it has read before an
  // error, are the next ones of the stream, in order.
  method RecvAll(buf: array<byte>, pos: nat, room: nat, rest: seq<byte>, fs: seq<Fetch>) returns (r: Read)
    requires pos + room <= buf.Length && Receiving(fs, room, |rest|).Some?
    modifies buf
    ensures Some(r) == Receiving(fs, room, |rest|) && r.n <= Min(room, |rest|)
    ensures buf[..] == Splice(old(buf[..]), pos, rest[..r.n])
  {
    hide Splice, Receiving, Onwards;
    var got: nat, i: nat, more := 0, 0, true;
    ghost var m := buf[..];
    SpliceNothing(m, pos);
    ReceivingStart(fs, room, |rest|);
    while more
      invariant got <= room && got <= |rest| && i <= |fs| && buf[..] == Splice(m, pos, rest[..got])
      invariant more ==> Receiving(fs[i..], room - got, |rest| - got).Some?
      invariant more ==> Receiving(fs, room, |rest|) == Onwards(Receiving(fs[i..], room - got, |rest| - got), got)
      invariant !more ==> Receiving(fs, room, |rest|) == Some(Ready(got))
      decreases |fs| - i, more
    {
      ReceivingTurn(fs, i, room, |rest|, got);
      var rv := Min(fs[i].n, Min(room - got, |rest| - got));
      if rv > 0 {
        var end := PutBytes(buf, pos + got, rest[got..got + rv]);
        SpliceSplice(m, pos, rest[..got], rest[got..got + rv]);
        assert rest[..got] + rest[got..got + rv] == rest[..got + rv];
        got := got + rv;
      } else if !fs[i].retry {
        return Broken(got);
      }
      more := !fs[i].last && got < room;
      i := i + 1;
    }
    r := Ready(got);
  }

  // What mqtt_pal_recvall does is one read of Protocol.
  lemma RecvAllIsRead(fs: seq<Fetch>, room: nat, rest: seq<byte>)
    requires Receiving(fs, room, |rest|).Some?
    ensures var r := Receiving(fs, room, |rest|).value;
            && Arriving(Link(rest, [r]), room) == r.n && AfterRead(Link(rest, [r]), room) == Link(rest[r.n..], [])
            && (Fails(Link(rest, [r])) <==> r.Broken?)
  {
  }

  // ----- when the transport fails -----

  // What i writes can take altogether.
  function WrittenBy(ws: seq<Write>, i: nat): nat
    requires i <= |ws|
  {
    if i == 0 then 0 else WrittenBy(ws, i - 1) + ws[i - 1].n
  }

  // i writes go on, and then the next one fails, or all has been taken.
  ghost predicate WriteEnds(ws: seq<Write>, len: nat, r: Attempt, i: nat) {
    && i <= |ws| && (forall j :: 0 <= j < i ==> (ws[j].n > 0 || ws[j].retry) && WrittenBy(ws, j) < len)
    && match r
       case Through => WrittenBy(ws, i) >= len
       case Breaks(k) => i < |ws| && ws[i].n == 0 && !ws[i].retry && k == WrittenBy(ws, i) < len
  }

  lemma SendsLater(ws: seq<Write>, len: nat, r: Attempt, j: nat)
    requires ws != [] && ws[0].n < len && (ws[0].n > 0 || ws[0].retry) && WriteEnds(ws[1..], len - ws[0].n, r, j)
    ensures WriteEnds(ws, len, if r.Through? then r else Breaks(ws[0].n + r.after), j + 1)
  {
    TakenFirst(ws, j);
    forall k | 0 <= k < j + 1 ensures (ws[k].n > 0 || ws[k].retry) && WrittenBy(ws, k) < len {
      if k > 0 {
        assert ws[1..][k - 1] == ws[k];
        TakenFirst(ws, k - 1);
      }
    }
    if r.Breaks? {
      assert ws[1..][j] == ws[j + 1];
    }
  }

  // mqtt_pal_sendall fails only at a write that takes nothing and is not to be
  // tried again, in front of which i writes have not taken everything; it ends well once they have.
  lemma {:induction false} SendDecided(ws: seq<Write>, len: nat) returns (i: nat)
    requires Sending(ws, len).Some?
    ensures WriteEnds(ws, len, Sending(ws, len).value, i)
  {
    if len == 0 || (ws[0].n == 0 && !ws[0].retry) {
      i := 0;
    } else if ws[0].n >= len {
      i := 1;
      assert WrittenBy(ws, 0) == 0 && WrittenBy(ws, 1) == WrittenBy(ws, 0) + ws[0].n;
    } else {
      var j := SendDecided(ws[1..], len - ws[0].n);
      hide WriteEnds, WrittenBy;
      SendsLater(ws, len, Sending(ws[1..], len - ws[0].n).value, j);
      i := j + 1;
    }
  }

  lemma {:induction false} TakenFirst(ws: seq<Write>, k: nat)
    requires k < |ws|
    ensures WrittenBy(ws, k + 1) == ws[0].n + WrittenBy(ws[1..], k)
  {
    if k > 0 {
      TakenFirst(ws, k - 1);
      assert ws[1..][k - 1] == ws[k];
    }
  }

  // What i reads can bring altogether.
  function Brought(fs: seq<Fetch>, i: nat): nat
    requires i <= |fs|
  {
    if i == 0 then 0 else Brought(fs, i - 1) + fs[i - 1].n
  }

  lemma {:induction false} BroughtFirst(fs: seq<Fetch>, k: nat)
    requires k < |fs|
    ensures Brought(fs, k + 1) == fs[0].n + Brought(fs[1..], k)
  {
    if k > 0 {
      BroughtFirst(fs, k - 1);
      assert fs[1..][k - 1] == fs[k];
    }
  }

  // Read j brings something, or nothing and is to be tried again; and it is not the last.
  predicate GoesOn(fs: seq<Fetch>, j: nat, room: nat, avail: nat)
    requires j < |fs|
  {
    var (a, b) := (Min(Brought(fs, j), Min(room, avail)), Min(Brought(fs, j + 1), Min(room, avail)));
    !fs[j].last && b < room && (a < b || fs[j].retry)
  }

  // mqtt_pal_recvall ends at the first read that is the last one or fills the
  // room, with all that has come; or it fails at one that brings nothing and is not to be tried again.
  ghost predicate ReadEnds(fs: seq<Fetch>, room: nat, avail: nat, r: Read, i: nat) {
    && i < |fs| && (forall j :: 0 <= j < i ==> GoesOn(fs, j, room, avail))
    && var (a, b) := (Min(Brought(fs, i), Min(room, avail)), Min(Brought(fs, i + 1), Min(room, avail)));
       match r
       case Ready(k) => k == b && (fs[i].last || b == room) && (a < b || fs[i].retry)
       case Broken(k) => k == a == b && !fs[i].retry
  }

  lemma EndsLater(fs: seq<Fetch>, room: nat, avail: nat, r: Read, j: nat, n: nat)
    requires fs != [] && n == Min(fs[0].n, Min(room, avail)) && n < room && ReadEnds(fs[1..], room - n, avail - n, r, j)
    requires GoesOn(fs, 0, room, avail)
    ensures ReadEnds(fs, room, avail, if r.Ready? then Ready(n + r.n) else Broken(n + r.n), j + 1)
  {
    forall k | 0 <= k < |fs| - 1
      ensures Min(Brought(fs, k + 1), Min(room, avail)) == n + Min(Brought(fs[1..], k), Min(room - n, avail - n)) {
      BroughtFirst(fs, k);
    }
    forall k | 0 <= k < j + 1 ensures GoesOn(fs, k, room, avail) {
      if k > 0 {
        assert GoesOn(fs[1..], k - 1, room - n, avail - n);
        assert fs[1..][k - 1] == fs[k];
        BroughtFirst(fs, k);
      }
    }
    BroughtFirst(fs, j + 1);
    assert fs[1..][j] == fs[j + 1];
  }

  lemma {:induction false} RecvDecided(fs: seq<Fetch>, room: nat, avail: nat) returns (i: nat)
    requires Receiving(fs, room, avail).Some?
    ensures ReadEnds(fs, room, avail, Receiving(fs, room, avail).value, i)
  {
    var n := Min(fs[0].n, Min(room, avail));
    assert Brought(fs, 0) == 0 && Brought(fs, 1) == fs[0].n;
    if (n == 0 && !fs[0].retry) || fs[0].last || n == room {
      i := 0;
    } else {
      var j := RecvDecided(fs[1..], room - n, avail - n);
      i := j + 1;
      EndsLater(fs, room, avail, Receiving(fs[1..], room - n, avail - n).value, j, n);
      hide ReadEnds, Brought;
    }
  }
}
