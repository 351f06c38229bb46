// The timers of src/eloop.c: registration, cancellation and the dispatch loop,
// with handlers that register and cancel timers while the loop runs.
module EventLoop {
  import opened Types

  // struct timeval, with tv_usec below a million
  datatype Time = Time(sec: nat, usec: nat)

  const SECOND := 1000000

  function Micros(t: Time): nat {
    t.sec * SECOND + t.usec
  }

  predicate Normal(t: Time) {
    t.usec < SECOND
  }

  // timercmp(a, b, <)
  predicate Less(a: Time, b: Time) {
    if a.sec == b.sec then a.usec < b.usec else a.sec < b.sec
  }

  // A reading of the monotonic clock.
  function TimeOf(micros: nat): (t: Time)
    ensures Normal(t) && Micros(t) == micros
  {
    Time(micros / SECOND, micros % SECOND)
  }

  lemma LessIsEarlier(a: Time, b: Time)
    requires Normal(a) && Normal(b)
    ensures Less(a, b) <==> Micros(a) < Micros(b)
  {
  }

  // An entry of the timeout list; node tells allocations apart and counts them.
  datatype Timeout = Timeout(time: Time, handler: nat, eloopData: nat, userData: nat, node: nat)

  const ALL_CTX: nat := 0xFFFF_FFFF_FFFF_FFFF

  predicate Selects(x: Timeout, handler: nat, eloopData: nat, userData: nat) {
    x.handler == handler && (x.eloopData == eloopData || eloopData == ALL_CTX)
      && (x.userData == userData || userData == ALL_CTX)
  }

  // ----- the list as a value -----

  // Behind every entry that is not later.
  function Insert(q: seq<Timeout>, x: Timeout): seq<Timeout> {
    if q == [] || Less(x.time, q[0].time) then [x] + q else [q[0]] + Insert(q[1..], x)
  }

  // What a cancellation leaves.
  function Keep(q: seq<Timeout>, h: nat, e: nat, u: nat): seq<Timeout> {
    if q == [] then []
    else (if Selects(q[0], h, e, u) then [] else [q[0]]) + Keep(q[1..], h, e, u)
  }

  // The nodes it frees.
  function Freed(q: seq<Timeout>, h: nat, e: nat, u: nat): seq<nat> {
    if q == [] then []
    else (if Selects(q[0], h, e, u) then [q[0].node] else []) + Freed(q[1..], h, e, u)
  }

  // ----- the loop as a state machine -----

  datatype Firing = Firing(timeout: Timeout, at: nat)

  datatype Loop = Loop(
    q: seq<Timeout>,
    clock: nat,             // the last reading, in microseconds
    registered: nat,         // how many timers have been registered
    fired: seq<Firing>,     // history
    cancelled: seq<nat>,    // history
    terminate: bool)

  // What a handler may do; wait is the time passing before the clock is read.
  datatype Action =
    | Register(wait: nat, secs: nat, usecs: nat, handler: nat, eloopData: nat, userData: nat)
    | Cancel(handler: nat, eloopData: nat, userData: nat)
    | Terminate

  function NewTimeout(s: Loop, a: Action): (x: Timeout)
    requires a.Register?
    ensures Normal(x.time) && x.node == s.registered && Micros(x.time) == s.clock + a.wait + a.secs * SECOND + a.usecs
  {
    Timeout(TimeOf(s.clock + a.wait + a.secs * SECOND + a.usecs), a.handler, a.eloopData, a.userData, s.registered)
  }

  function Act(s: Loop, a: Action): Loop {
    match a
    case Register(wait, _, _, _, _, _) =>
      s.(clock := s.clock + wait, q := Insert(s.q, NewTimeout(s, a)), registered := s.registered + 1)
    case Cancel(h, e, u) => s.(q := Keep(s.q, h, e, u), cancelled := s.cancelled + Freed(s.q, h, e, u))
    case Terminate => s.(terminate := true)
  }

  function Acts(s: Loop, acts: seq<Action>): Loop
    decreases |acts|
  {
    if acts == [] then s else Acts(Act(s, acts[0]), acts[1..])
  }

  // One turn of eloop_run: the time until each of its clock readings, what
  // signal handlers, the timer's handler and socket handlers do, whether there
  // are sockets to wait for and whether select fails.
  datatype Turn = Turn(before: nat, after: nat, signals: seq<Action>, timer: seq<Action>, sockets: seq<Action>,
                       readers: bool, broken: bool)

  predicate Reached(s: Loop) {
    s.q != [] && !Less(TimeOf(s.clock), s.q[0].time)
  }

  // The head is unlinked before its handler runs.
  function Fire(s: Loop): Loop
    requires s.q != []
  {
    s.(q := s.q[1..], fired := s.fired + [Firing(s.q[0], s.clock)])
  }

  function Wait(s: Loop, t: nat): Loop {
    if s.q == [] then s else s.(clock := s.clock + t)
  }

  // Behind select.
  function Dispatch(s: Loop, t: Turn): Loop {
    var a := Wait(Acts(s, t.signals), t.after);
    Acts(if Reached(a) then Acts(Fire(a), t.timer) else a, t.sockets)
  }

  predicate Goes(s: Loop, t: Turn) {
    !s.terminate && (s.q != [] || t.readers)
  }

  function Run(s: Loop, turns: seq<Turn>): Loop
    decreases |turns|
  {
    if turns == [] || !Goes(s, turns[0]) then s
    else
      var a := Wait(s, turns[0].before);
      if turns[0].broken then a else Run(Dispatch(a, turns[0]), turns[1..])
  }

  // ----- what holds in every state -----

  // x before y: an earlier deadline, or the same and registered first
  predicate Before(x: Timeout, y: Timeout) {
    Micros(x.time) < Micros(y.time) || (Micros(x.time) == Micros(y.time) && x.node < y.node)
  }

  ghost predicate Ordered(q: seq<Timeout>) {
    forall i, j :: 0 <= i < j < |q| ==> Before(q[i], q[j])
  }

  ghost predicate Wellformed(q: seq<Timeout>, registered: nat) {
    forall i :: 0 <= i < |q| ==> Normal(q[i].time) && q[i].node < registered
  }

  function TimersOf(fired: seq<Firing>): (q: seq<Timeout>)
    ensures |q| == |fired| && forall i :: 0 <= i < |q| ==> q[i] == fired[i].timeout
  {
    seq(|fired|, i requires 0 <= i < |fired| => fired[i].timeout)
  }

  // No timer fires early.
  ghost predicate Punctual(s: Loop) {
    forall i :: 0 <= i < |s.fired| ==> Micros(s.fired[i].timeout.time) <= s.fired[i].at <= s.clock
  }

  // How often registration n is in the list.
  function Times(q: seq<Timeout>, n: nat): nat {
    if q == [] then 0 else (if q[0].node == n then 1 else 0) + Times(q[1..], n)
  }

  function TimesIn(c: seq<nat>, n: nat): nat {
    if c == [] then 0 else (if c[0] == n then 1 else 0) + TimesIn(c[1..], n)
  }

  // Registration n is pending, has fired or has been cancelled, and only one of these, once.
  predicate Accounted(s: Loop, n: nat) {
    Times(s.q, n) + Times(TimersOf(s.fired), n) + TimesIn(s.cancelled, n) == if n < s.registered then 1 else 0
  }

  ghost predicate Conserved(s: Loop) {
    forall n: nat :: Accounted(s, n)
  }

  // What has fired and then what is pending is in order of deadline, with equal deadlines in order of registration.
  ghost predicate Inv(s: Loop) {
    && Ordered(TimersOf(s.fired) + s.q)
    && Wellformed(TimersOf(s.fired) + s.q, s.registered)
    && Punctual(s)
    && Conserved(s)
  }

  // ----- registering -----

  // The list splits around the new entry: what is not later in front, what is later behind.
  lemma {:induction false} InsertSplits(q: seq<Timeout>, x: Timeout) returns (k: nat)
    ensures k <= |q| && Insert(q, x) == q[..k] + [x] + q[k..]
    ensures (forall i :: 0 <= i < k ==> !Less(x.time, q[i].time)) && (k < |q| ==> Less(x.time, q[k].time))
  {
    if q == [] || Less(x.time, q[0].time) {
      k := 0;
    } else {
      var j := InsertSplits(q[1..], x);
      k := j + 1;
      SplitBehind(q, j, x);
    }
  }

  lemma SplitBehind(q: seq<Timeout>, j: nat, x: Timeout)
    requires j < |q|
    ensures [q[0]] + (q[1..][..j] + [x] + q[1..][j..]) == q[..j + 1] + [x] + q[j + 1..]
  {
    assert q[1..][..j] == q[1..j + 1] && q[1..][j..] == q[j + 1..] && [q[0]] + q[1..j + 1] == q[..j + 1];
  }

  lemma InsertAt(q: seq<Timeout>, x: Timeout, k: nat)
    requires k <= |q| && (forall i :: 0 <= i < k ==> !Less(x.time, q[i].time)) && (k < |q| ==> Less(x.time, q[k].time))
    ensures Insert(q, x) == q[..k] + [x] + q[k..]
    decreases k
  {
    hide Less;
    if k > 0 {
      forall i | 0 <= i < k - 1 ensures !Less(x.time, q[1..][i].time) {
        assert q[1..][i] == q[i + 1];
      }
      InsertAt(q[1..], x, k - 1);
      assert !Less(x.time, q[0].time);
      SplitBehind(q, k - 1, x);
    }
  }

  // Inserting behind everything not later keeps the order.
  lemma InsertOrdered(f: seq<Timeout>, q: seq<Timeout>, x: Timeout, n: nat)
    requires Ordered(f + q) && Wellformed(f + q, n) && Normal(x.time) && x.node == n
    requires forall i :: 0 <= i < |f| ==> Micros(f[i].time) <= Micros(x.time)
    ensures Ordered(f + Insert(q, x)) && Wellformed(f + Insert(q, x), n + 1)
  {
    var k := InsertSplits(q, x);
    var (a, b) := (f + q, f + Insert(q, x));
    hide Micros, Less, Insert, Normal;
    var m := |f| + k;
    assert b == a[..m] + [x] + a[m..];
    forall i | 0 <= i < |a| ensures i < m ==> Before(a[i], x)
      ensures i >= m ==> Before(x, a[i])
    {
      assert a[i] == if i < |f| then f[i] else q[i - |f|];
      LessIsEarlier(x.time, a[i].time);
      if i >= m {
        LessIsEarlier(x.time, a[m].time);
        assert a[m] == q[k];
        assert i > m ==> Before(a[m], a[i]);
      }
    }
    forall i, j | 0 <= i < j < |b| ensures Before(b[i], b[j]) {
      var (u, v) := (if i < m then i else i - 1, if j < m then j else j - 1);
      assert i != m ==> b[i] == a[u];
      assert j != m ==> b[j] == a[v];
    }
  }

  lemma {:induction false} TimesConcat(a: seq<Timeout>, b: seq<Timeout>, n: nat)
    ensures Times(a + b, n) == Times(a, n) + Times(b, n)
  {
    if a == [] {
      assert a + b == b;
    } else {
      TimesConcat(a[1..], b, n);
      assert (a + b)[1..] == a[1..] + b;
    }
  }

  lemma TimesOne(x: Timeout, n: nat)
    ensures Times([x], n) == if x.node == n then 1 else 0
  {
    assert [x][1..] == [];
  }

  lemma {:induction false} TimesInConcat(a: seq<nat>, b: seq<nat>, n: nat)
    ensures TimesIn(a + b, n) == TimesIn(a, n) + TimesIn(b, n)
  {
    if a == [] {
      assert a + b == b;
    } else {
      TimesInConcat(a[1..], b, n);
      assert (a + b)[1..] == a[1..] + b;
    }
  }

  lemma InsertTimes(q: seq<Timeout>, x: Timeout, n: nat)
    ensures Times(Insert(q, x), n) == Times(q, n) + if x.node == n then 1 else 0
  {
    hide Times, Less, Insert;
    var k := InsertSplits(q, x);
    TimesConcat(q[..k], [x], n);
    TimesConcat(q[..k] + [x], q[k..], n);
    TimesConcat(q[..k], q[k..], n);
    TimesOne(x, n);
    assert q[..k] + q[k..] == q;
  }

  lemma RegisterInv(s: Loop, a: Action)
    requires Inv(s) && a.Register?
    ensures Inv(Act(s, a))
  {
    var (x, t) := (NewTimeout(s, a), Act(s, a));
    hide Times, TimesIn, Insert, Ordered, Wellformed;
    InsertOrdered(TimersOf(s.fired), s.q, x, s.registered);
    forall n: nat ensures Accounted(t, n) {
      assert Accounted(s, n);
      InsertTimes(s.q, x, n);
    }
  }

  // ----- cancelling -----

  // The positions from i on that stay.
  function Stay(q: seq<Timeout>, i: nat, h: nat, e: nat, u: nat): seq<nat>
    requires i <= |q|
    decreases |q| - i
  {
    if i == |q| then [] else (if Selects(q[i], h, e, u) then [] else [i]) + Stay(q, i + 1, h, e, u)
  }

  lemma InCons(k: nat, i: nat, rest: seq<nat>)
    ensures k in [i] + rest <==> k == i || k in rest
  {
  }

  // Exactly the positions that do not match, in order.
  lemma {:induction false} StayHas(q: seq<Timeout>, i: nat, h: nat, e: nat, u: nat, k: nat)
    requires i <= |q|
    ensures k in Stay(q, i, h, e, u) <==> i <= k < |q| && !Selects(q[k], h, e, u)
    decreases |q| - i
  {
    if i < |q| {
      StayHas(q, i + 1, h, e, u, k);
      var rest := Stay(q, i + 1, h, e, u);
      assert Stay(q, i, h, e, u) == if Selects(q[i], h, e, u) then rest else [i] + rest;
      hide Stay, Selects;
      InCons(k, i, rest);
    }
  }

  predicate Increasing(pos: seq<nat>, from: nat) {
    (forall a :: 0 <= a < |pos| ==> pos[a] >= from) && (forall a, b :: 0 <= a < b < |pos| ==> pos[a] < pos[b])
  }

  lemma IncreasingCons(i: nat, rest: seq<nat>, pos: seq<nat>)
    requires Increasing(rest, i + 1) && |pos| == |rest| + 1 && pos[0] == i
             && forall a :: 0 <= a < |rest| ==> pos[a + 1] == rest[a]
    ensures Increasing(pos, i)
  {
    forall a | 0 < a < |pos| ensures pos[a] > i {
      assert pos[(a - 1) + 1] == rest[a - 1];
    }
    forall a, b | 0 < a < b < |pos| ensures pos[a] < pos[b] {
      assert pos[(a - 1) + 1] == rest[a - 1] && pos[(b - 1) + 1] == rest[b - 1];
    }
  }

  lemma {:induction false} StaySorted(q: seq<Timeout>, i: nat, h: nat, e: nat, u: nat)
    requires i <= |q|
    ensures Increasing(Stay(q, i, h, e, u), i)
    decreases |q| - i
  {
    if i < |q| {
      StaySorted(q, i + 1, h, e, u);
      var rest := Stay(q, i + 1, h, e, u);
      if Selects(q[i], h, e, u) {
        assert Stay(q, i, h, e, u) == rest;
      } else {
        var pos := [i] + rest;
        assert Stay(q, i, h, e, u) == pos;
        hide Stay, Increasing, Selects;
        IncreasingCons(i, rest, pos);
      }
    }
  }

  // The entries kept are those at these positions.
  lemma {:induction false} KeepIs(q: seq<Timeout>, i: nat, h: nat, e: nat, u: nat)
    requires i <= |q|
    ensures var (r, pos) := (Keep(q[i..], h, e, u), Stay(q, i, h, e, u));
            |r| == |pos| && forall k :: 0 <= k < |r| ==> pos[k] < |q| && r[k] == q[pos[k]]
    decreases |q| - i
  {
    if i < |q| {
      KeepIs(q, i + 1, h, e, u);
      hide Selects;
      assert q[i..][0] == q[i] && q[i..][1..] == q[i + 1..];
    }
  }

  // A cancellation removes exactly the matching entries and leaves the others in order.
  lemma CancelExact(q: seq<Timeout>, h: nat, e: nat, u: nat)
    ensures var (r, pos) := (Keep(q, h, e, u), Stay(q, 0, h, e, u));
            && |r| == |pos| && (forall k :: 0 <= k < |r| ==> pos[k] < |q| && r[k] == q[pos[k]])
            && (forall a, b :: 0 <= a < b < |pos| ==> pos[a] < pos[b])
            && (forall k :: 0 <= k < |q| ==>
                  (k in pos <==> !(q[k].handler == h && (q[k].eloopData == e || e == 0xFFFF_FFFF_FFFF_FFFF)
                                   && (q[k].userData == u || u == 0xFFFF_FFFF_FFFF_FFFF))))
    ensures |Freed(q, h, e, u)| == |q| - |Keep(q, h, e, u)|
  {
    hide Keep, Stay;
    assert q[0..] == q;
    KeepIs(q, 0, h, e, u);
    StaySorted(q, 0, h, e, u);
    forall k: nat | k < |q| ensures k in Stay(q, 0, h, e, u) <==> !Selects(q[k], h, e, u) {
      StayHas(q, 0, h, e, u, k);
    }
    FreedSize(q, h, e, u);
  }

  lemma {:induction false} FreedSize(q: seq<Timeout>, h: nat, e: nat, u: nat)
    ensures |Freed(q, h, e, u)| + |Keep(q, h, e, u)| == |q|
  {
    if q != [] {
      FreedSize(q[1..], h, e, u);
      hide Selects;
    }
  }

  lemma {:induction false} KeepTimes(q: seq<Timeout>, h: nat, e: nat, u: nat, n: nat)
    ensures Times(Keep(q, h, e, u), n) + TimesIn(Freed(q, h, e, u), n) == Times(q, n)
  {
    if q != [] {
      KeepTimes(q[1..], h, e, u, n);
      var (r, f) := (Keep(q[1..], h, e, u), Freed(q[1..], h, e, u));
      hide Selects;
      if Selects(q[0], h, e, u) {
        assert ([q[0].node] + f)[1..] == f;
        assert [] + r == r;
      } else {
        assert ([q[0]] + r)[1..] == r;
        assert [] + f == f;
      }
    }
  }

  lemma {:induction false} CancelOrdered(f: seq<Timeout>, q: seq<Timeout>, n: nat, h: nat, e: nat, u: nat)
    requires Ordered(f + q) && Wellformed(f + q, n)
    ensures Ordered(f + Keep(q, h, e, u)) && Wellformed(f + Keep(q, h, e, u), n)
  {
    CancelExact(q, h, e, u);
    var (b, r, pos) := (f + q, f + Keep(q, h, e, u), Stay(q, 0, h, e, u));
    hide Keep, Freed, Stay, Before, Selects, Normal;
    forall i | 0 <= i < |r| ensures var k := if i < |f| then i else |f| + pos[i - |f|]; k < |b| && r[i] == b[k] {
    }
    forall i, j | 0 <= i < j < |r| ensures Before(r[i], r[j]) {
      var (k, m) := (if i < |f| then i else |f| + pos[i - |f|], if j < |f| then j else |f| + pos[j - |f|]);
      assert k < m && r[i] == b[k] && r[j] == b[m];
    }
  }

  lemma CancelInv(s: Loop, a: Action)
    requires Inv(s) && a.Cancel?
    ensures Inv(Act(s, a))
  {
    var (t, h, e, u) := (Act(s, a), a.handler, a.eloopData, a.userData);
    hide Keep, Freed, Before, Micros, Selects, Ordered, Wellformed, Times, TimesIn, TimersOf;
    CancelOrdered(TimersOf(s.fired), s.q, s.registered, h, e, u);
    forall n: nat ensures Accounted(t, n) {
      assert Accounted(s, n);
      KeepTimes(s.q, h, e, u, n);
      TimesInConcat(s.cancelled, Freed(s.q, h, e, u), n);
    }
  }

  // ----- running -----

  lemma {:induction false} ActsInv(s: Loop, acts: seq<Action>)
    requires Inv(s)
    ensures Inv(Acts(s, acts))
    decreases |acts|
  {
    if acts != [] {
      hide Inv, Act;
      ActInv(s, acts[0]);
      ActsInv(Act(s, acts[0]), acts[1..]);
    }
  }

  lemma ActInv(s: Loop, a: Action)
    requires Inv(s)
    ensures Inv(Act(s, a))
  {
    match a {
      case Register(_, _, _, _, _, _) => RegisterInv(s, a);
      case Cancel(_, _, _) => CancelInv(s, a);
      case Terminate => SameConserved(s, Act(s, a));
    }
  }

  lemma SameConserved(s: Loop, t: Loop)
    requires Conserved(s) && t.q == s.q && t.fired == s.fired && t.cancelled == s.cancelled
             && t.registered == s.registered
    ensures Conserved(t)
  {
    forall n: nat ensures Accounted(t, n) {
      assert Accounted(s, n);
    }
  }

  lemma WaitInv(s: Loop, t: nat)
    requires Inv(s)
    ensures Inv(Wait(s, t))
  {
    SameConserved(s, Wait(s, t));
    hide Conserved, Ordered, Wellformed;
  }

  lemma FireInv(s: Loop)
    requires Inv(s) && Reached(s)
    ensures Inv(Fire(s))
  {
    var (t, x) := (Fire(s), s.q[0]);
    assert (TimersOf(s.fired) + s.q)[|s.fired|] == x;
    LessIsEarlier(TimeOf(s.clock), x.time);
    assert TimersOf(t.fired) == TimersOf(s.fired) + [x];
    assert TimersOf(t.fired) + t.q == TimersOf(s.fired) + s.q;
    FireConserved(s);
    hide TimersOf, Micros, Ordered, Wellformed, Conserved;
  }

  lemma FireConserved(s: Loop)
    requires Conserved(s) && s.q != []
    ensures Conserved(Fire(s))
  {
    var (t, x) := (Fire(s), s.q[0]);
    assert TimersOf(t.fired) == TimersOf(s.fired) + [x];
    assert s.q == [x] + t.q;
    hide TimersOf, Times, TimesIn;
    forall n: nat ensures Accounted(t, n) {
      assert Accounted(s, n);
      TimesConcat(TimersOf(s.fired), [x], n);
      TimesConcat([x], t.q, n);
    }
  }

  lemma DispatchInv(s: Loop, t: Turn)
    requires Inv(s)
    ensures Inv(Dispatch(s, t))
  {
    hide Inv, Acts, Wait, Reached, Fire;
    ActsInv(s, t.signals);
    var a := Wait(Acts(s, t.signals), t.after);
    WaitInv(Acts(s, t.signals), t.after);
    if Reached(a) {
      DueHead(a);
      FireInv(a);
      ActsInv(Fire(a), t.timer);
    }
    ActsInv(if Reached(a) then Acts(Fire(a), t.timer) else a, t.sockets);
  }

  lemma DueHead(s: Loop)
    requires Reached(s)
    ensures s.q != []
  {
  }

  lemma {:induction false} RunInv(s: Loop, turns: seq<Turn>)
    requires Inv(s)
    ensures Inv(Run(s, turns))
    decreases |turns|
  {
    hide Inv, Dispatch, Wait, Goes;
    if turns != [] && Goes(s, turns[0]) {
      var a := Wait(s, turns[0].before);
      WaitInv(s, turns[0].before);
      if !turns[0].broken {
        DispatchInv(a, turns[0]);
        RunInv(Dispatch(a, turns[0]), turns[1..]);
      }
    }
  }

  // After eloop_init, at a first reading of the clock.
  function Init(clock: nat): Loop {
    Loop([], clock, 0, [], [], false)
  }

  // A state of some run: anything registered before eloop_run, then turns of the loop.
  ghost predicate Reachable(s: Loop) {
    exists clock: nat, acts: seq<Action>, turns: seq<Turn> :: s == Run(Acts(Init(clock), acts), turns)
  }

  lemma ReachableInv(s: Loop)
    requires Reachable(s)
    ensures Inv(s)
  {
    hide Inv, Run, Acts;
    var clock: nat, acts: seq<Action>, turns: seq<Turn> :| s == Run(Acts(Init(clock), acts), turns);
    InitInv(clock);
    ActsInv(Init(clock), acts);
    RunInv(Acts(Init(clock), acts), turns);
  }

  lemma InitInv(clock: nat)
    ensures Inv(Init(clock))
  {
  }

  // Deadlines fire in order over the whole run, equal deadlines in order of registration, and none early.
  lemma FiredInOrder(s: Loop, i: nat, j: nat)
    requires Reachable(s) && i < j < |s.fired|
    ensures var (x, y) := (s.fired[i].timeout, s.fired[j].timeout);
            Micros(x.time) < Micros(y.time) || (Micros(x.time) == Micros(y.time) && x.node < y.node)
    ensures Micros(s.fired[i].timeout.time) <= s.fired[i].at && Micros(s.fired[j].timeout.time) <= s.fired[j].at
  {
    ReachableInv(s);
    var all := TimersOf(s.fired) + s.q;
    assert all[i] == s.fired[i].timeout && all[j] == s.fired[j].timeout;
    assert Before(all[i], all[j]);
  }

  // The list is sorted and stable, and nothing pending is due before what has fired.
  lemma PendingSorted(s: Loop, i: nat, j: nat)
    requires Reachable(s) && i < j < |s.q|
    ensures Before(s.q[i], s.q[j]) && (s.fired != [] ==> Before(s.fired[|s.fired| - 1].timeout, s.q[i]))
  {
    ReachableInv(s);
    var (all, n) := (TimersOf(s.fired) + s.q, |s.fired|);
    assert all[n + i] == s.q[i] && all[n + j] == s.q[j];
    if n > 0 {
      assert all[n - 1] == s.fired[n - 1].timeout;
    }
  }

  // Every timer registered is pending, has fired once or has been cancelled once, and only one of these.
  lemma TimerAccounted(s: Loop, n: nat)
    requires Reachable(s)
    ensures Times(s.q, n) + Times(TimersOf(s.fired), n) + TimesIn(s.cancelled, n) == if n < s.registered then 1 else 0
  {
    ReachableInv(s);
    assert Accounted(s, n);
  }

  // ----- what a step does -----

  // The new timer is behind all that are not later and in front of all that are.
  ghost predicate Placed(q: seq<Timeout>, r: seq<Timeout>, k: nat) {
    && k <= |q| && |r| == |q| + 1 && r == q[..k] + [r[k]] + q[k..]
    && (forall i :: 0 <= i < k ==> Micros(q[i].time) <= Micros(r[k].time))
    && (forall i :: k <= i < |q| ==> Micros(r[k].time) < Micros(q[i].time))
  }

  // A registration puts one timer into the list, with the deadline asked for
  // from the clock as it is then, at the place Placed says.
  lemma RegisterExact(s: Loop, a: Action) returns (k: nat)
    requires Inv(s) && a.Register?
    ensures var t := Act(s, a);
            && Placed(s.q, t.q, k)
            && t == s.(q := t.q, clock := s.clock + a.wait, registered := s.registered + 1)
            && var x := t.q[k];
               && x == Timeout(x.time, a.handler, a.eloopData, a.userData, s.registered)
               && Normal(x.time) && Micros(x.time) == s.clock + a.wait + a.secs * 1_000_000 + a.usecs
  {
    var x := NewTimeout(s, a);
    k := InsertSplits(s.q, x);
    assert Act(s, a).q[k] == x;
    PendingOrder(s);
    hide Inv, Micros, Less, Normal, Insert;
    forall i | 0 <= i < |s.q| ensures Less(x.time, s.q[i].time) <==> Micros(x.time) < Micros(s.q[i].time) {
      LessIsEarlier(x.time, s.q[i].time);
    }
  }

  // A cancellation takes out exactly the timers with this handler and these
  // data, or with any data where all are meant, leaves the others in order, and records as many as it has taken out.
  lemma CancelActs(s: Loop, h: nat, e: nat, u: nat) returns (pos: seq<nat>)
    ensures var t := Act(s, Cancel(h, e, u));
            && t == s.(q := t.q, cancelled := t.cancelled)
            && s.cancelled <= t.cancelled && |t.cancelled| - |s.cancelled| == |s.q| - |t.q|
            && |pos| == |t.q| && (forall k :: 0 <= k < |pos| ==> pos[k] < |s.q| && t.q[k] == s.q[pos[k]])
            && (forall a, b :: 0 <= a < b < |pos| ==> pos[a] < pos[b])
            && (forall k: nat :: k < |s.q| ==>
                  (k in pos <==> !(s.q[k].handler == h && (s.q[k].eloopData == e || e == 0xFFFF_FFFF_FFFF_FFFF)
                                   && (s.q[k].userData == u || u == 0xFFFF_FFFF_FFFF_FFFF))))
    ensures Act(s, Terminate) == s.(terminate := true)
  {
    hide Keep, Freed, Stay;
    CancelExact(s.q, h, e, u);
    pos := Stay(s.q, 0, h, e, u);
  }

  // The deadlines in the list are normal and do not decrease.
  lemma PendingOrder(s: Loop)
    requires Inv(s)
    ensures forall i :: 0 <= i < |s.q| ==> Normal(s.q[i].time)
    ensures forall i, j :: 0 <= i < j < |s.q| ==> Micros(s.q[i].time) <= Micros(s.q[j].time)
  {
    var (all, n) := (TimersOf(s.fired) + s.q, |s.fired|);
    hide Conserved, Punctual, Normal;
    forall i | 0 <= i < |s.q| ensures Normal(s.q[i].time) {
      assert all[n + i] == s.q[i];
    }
    forall i, j | 0 <= i < j < |s.q| ensures Micros(s.q[i].time) <= Micros(s.q[j].time) {
      assert all[n + i] == s.q[i] && all[n + j] == s.q[j];
    }
  }

  lemma {:induction false} ActsKeepFired(s: Loop, acts: seq<Action>)
    ensures Acts(s, acts).fired == s.fired && s.clock <= Acts(s, acts).clock
    decreases |acts|
  {
    if acts != [] {
      hide Insert, Keep, Freed;
      ActsKeepFired(Act(s, acts[0]), acts[1..]);
    }
  }

  lemma DispatchIs(s: Loop, t: Turn)
    ensures var b := Acts(s, t.signals);
            var a := b.(clock := if b.q == [] then b.clock else b.clock + t.after);
            Dispatch(s, t) ==
            if a.q != [] && Reached(a) then
              Acts(Acts(a.(q := a.q[1..], fired := a.fired + [Firing(a.q[0], a.clock)]), t.timer), t.sockets)
            else Acts(a, t.sockets)
  {
    hide Acts, Less, TimeOf;
  }

  lemma ReachedIs(s: Loop)
    requires s.q != [] && Normal(s.q[0].time)
    ensures Reached(s) <==> Micros(s.q[0].time) <= s.clock
  {
    LessIsEarlier(TimeOf(s.clock), s.q[0].time);
    hide Less, Micros, Normal;
  }

  // The part of a turn behind select: the signal handlers act; then, if the
  // head's deadline is not later than the second reading of the clock, the head
  // is taken out and fires at that time, and its handler acts; then the socket
  // handlers act. Nothing else fires.
  lemma TurnExact(s: Loop, t: Turn)
    requires Inv(s)
    ensures var b := Acts(s, t.signals);
            var a := b.(clock := if b.q == [] then b.clock else b.clock + t.after);
            var r := Dispatch(s, t);
            if a.q != [] && Micros(a.q[0].time) <= a.clock then
              var f := a.(q := a.q[1..], fired := s.fired + [Firing(a.q[0], a.clock)]);
              r == Acts(Acts(f, t.timer), t.sockets) && r.fired == s.fired + [Firing(a.q[0], a.clock)]
            else r == Acts(a, t.sockets) && r.fired == s.fired
  {
    hide *;
    var b := Acts(s, t.signals);
    var a := b.(clock := if b.q == [] then b.clock else b.clock + t.after);
    ActsInv(s, t.signals);
    PendingOrder(b);
    ActsKeepFired(s, t.signals);
    DispatchIs(s, t);
    if a.q != [] {
      ReachedIs(a);
      var f := a.(q := a.q[1..], fired := s.fired + [Firing(a.q[0], a.clock)]);
      ActsKeepFired(f, t.timer);
      ActsKeepFired(Acts(f, t.timer), t.sockets);
    }
    ActsKeepFired(a, t.sockets);
  }

  // The loop ends once it is to terminate, when nothing is left to wait for and
  // when select fails; otherwise a turn goes on from its first reading of the clock.
  lemma LoopEnds(s: Loop, turns: seq<Turn>)
    requires turns != []
    ensures var a := s.(clock := if s.q == [] then s.clock else s.clock + turns[0].before);
            Run(s, turns) ==
            if s.terminate || (s.q == [] && !turns[0].readers) then s
            else if turns[0].broken then a else Run(Dispatch(a, turns[0]), turns[1..])
  {
    hide Dispatch;
  }

  // A turn in which no handler does anything.
  predicate Idle(t: Turn) {
    t.signals == t.timer == t.sockets == []
  }

  // Once the clock is past all deadlines, as many turns as there are timers,
  // with handlers that do nothing, fire them all, in the order of the list.
  lemma {:induction false} AllFire(s: Loop, turns: seq<Turn>)
    requires Inv(s) && !s.terminate && |turns| == |s.q|
    requires forall i :: 0 <= i < |turns| ==> Idle(turns[i]) && !turns[i].broken
    requires forall i :: 0 <= i < |s.q| ==> Micros(s.q[i].time) <= s.clock + turns[0].before + turns[0].after
    ensures var t := Run(s, turns);
            && t.q == [] && TimersOf(t.fired) == TimersOf(s.fired) + s.q
            && t == s.(q := [], fired := t.fired, clock := t.clock)
    decreases |turns|
  {
    if turns == [] {
      assert TimersOf(s.fired) + s.q == TimersOf(s.fired);
    } else {
      var a := Wait(s, turns[0].before);
      WaitInv(s, turns[0].before);
      TurnExact(a, turns[0]);
      DispatchInv(a, turns[0]);
      var r := Dispatch(a, turns[0]);
      assert TimersOf(r.fired) == TimersOf(s.fired) + [s.q[0]];
      assert TimersOf(s.fired) + [s.q[0]] + s.q[1..] == TimersOf(s.fired) + s.q;
      hide Inv, Micros, Dispatch;
      AllFire(r, turns[1..]);
    }
  }

  // ----- the code -----

  lemma SameTime(a: Time, b: Time)
    requires Normal(a) && Normal(b) && Micros(a) == Micros(b)
    ensures a == b
  {
  }

  // The deadline of eloop_register_timeout.
  method Deadline(now: nat, secs: nat, usecs: nat) returns (t: Time)
    ensures Normal(t) && Micros(t) == now + secs * SECOND + usecs
  {
    var start := TimeOf(now);
    var sec: nat, usec: nat := start.sec + secs, start.usec + usecs;
    while usec >= SECOND
      invariant sec * SECOND + usec == now + secs * SECOND + usecs
    {
      sec := sec + 1;
      usec := usec - SECOND;
    }
    t := Time(sec, usec);
  }

  // timersub(deadline, now): what select waits for when the deadline is ahead
  method Remaining(deadline: Time, now: nat) returns (tv: Time)
    requires Normal(deadline) && now < Micros(deadline)
    ensures Normal(tv) && now + Micros(tv) == Micros(deadline)
  {
    var t := TimeOf(now);
    LessIsEarlier(t, deadline);
    if deadline.usec >= t.usec {
      tv := Time(deadline.sec - t.sec, deadline.usec - t.usec);
    } else {
      tv := Time(deadline.sec - t.sec - 1, deadline.usec + SECOND - t.usec);
    }
  }

  // struct eloop_timeout
  class Node {
    const timeout: Timeout
    var next: Node?

    constructor (timeout: Timeout)
      ensures this.timeout == timeout && next == null
    {
      this.timeout, next := timeout, null;
    }
  }

  // The list that starts at eloop.timeout.
  class TimeoutList {
    var head: Node?
    ghost var nodes: seq<Node>
    ghost var repr: set<Node>

    ghost predicate Valid()
      reads this, repr
    {
      Within(nodes, repr) && head == NodeAt(nodes, 0) && Chained(nodes)
    }

    ghost function Contents(): seq<Timeout>
      reads this
    {
      TimeoutsOf(nodes)
    }

    constructor ()
      ensures Valid() && Contents() == [] && repr == {}
    {
      head, nodes, repr := null, [], {};
    }

    // The search of eloop_register_timeout: the node behind which a deadline belongs, null for the head of the list.
    method Search(timeout: Timeout) returns (prev: Node?, ghost k: nat)
      requires Valid()
      ensures prev == null ==> head == null || Less(timeout.time, head.timeout.time)
      ensures prev != null ==>
                && prev in repr && !Less(timeout.time, prev.timeout.time)
                && (prev.next == null || Less(timeout.time, prev.next.timeout.time))
      ensures k <= |nodes| && prev == NodeBefore(nodes, k)
      ensures Insert(Contents(), timeout) == Contents()[..k] + [timeout] + Contents()[k..]
    {
      hide Insert, Less;
      k := 0;
      var tmp := head;
      prev := null;
      while tmp != null && !Less(timeout.time, tmp.timeout.time)
        invariant k <= |nodes| && tmp == NodeAt(nodes, k) && prev == NodeBefore(nodes, k)
        invariant forall i :: 0 <= i < k ==> !Less(timeout.time, nodes[i].timeout.time)
        decreases |nodes| - k
      {
        prev, tmp, k := tmp, tmp.next, k + 1;
      }
      InsertAt(Contents(), timeout, k);
    }

    // Its splicing of the new node behind prev.
    method Splice(prev: Node?, node: Node, ghost k: nat)
      requires Valid() && k <= |nodes| && prev == NodeBefore(nodes, k) && node !in repr
      modifies this, repr, node
      ensures Valid() && repr == old(repr) + {node} && nodes == old(nodes)[..k] + [node] + old(nodes)[k..]
    {
      hide *;
      ListParts(this);
      Apart(nodes, repr, k);
      SplicedWithin(nodes, node, k, repr);
      if prev == null {
        node.next := head;
        head := node;
      } else {
        node.next := prev.next;
        prev.next := node;
      }
      SplicedChain(old(nodes), node, k);
      nodes, repr := nodes[..k] + [node] + nodes[k..], repr + {node};
      ListWhole(this);
    }

    // eloop_register_timeout, once the deadline is known
    method Add(timeout: Timeout)
      requires Valid()
      modifies this, repr
      ensures Valid() && fresh(repr - old(repr)) && Contents() == Insert(old(Contents()), timeout)
    {
      hide Insert, Within, Chained;
      var prev, k := Search(timeout);
      var node := new Node(timeout);
      Spliced(nodes, node, k);
      Splice(prev, node, k);
    }

    // The unlinking of the head in eloop_run.
    method Pop() returns (timeout: Timeout)
      requires Valid() && Contents() != []
      modifies this
      ensures Valid() && repr == old(repr) && timeout == old(Contents())[0] && Contents() == old(Contents())[1..]
    {
      timeout := head.timeout;
      head, nodes := head.next, nodes[1..];
    }

    // The unlinking of eloop_cancel_timeout.
    method Unlink(prev: Node?, next: Node?, ghost k: nat)
      requires Valid() && k < |nodes| && prev == NodeBefore(nodes, k) && next == NodeAt(nodes, k + 1)
      modifies this, repr
      ensures Valid() && repr == old(repr) && nodes == old(nodes)[..k] + old(nodes)[k + 1..]
    {
      hide *;
      ListParts(this);
      Apart(nodes, repr, k);
      UnlinkedWithin(nodes, k, repr);
      if prev == null {
        head := next;
      } else {
        prev.next := next;
      }
      UnlinkedChain(nodes, k);
      nodes := nodes[..k] + nodes[k + 1..];
      ListWhole(this);
    }

    // The loop of eloop_cancel_timeout; freed are the entries it frees.
    method Cancel(handler: nat, eloopData: nat, userData: nat) returns (removed: nat)
      requires Valid()
      modifies this, repr
      ensures Valid() && repr == old(repr) && Contents() == Keep(old(Contents()), handler, eloopData, userData)
      ensures removed == |Freed(old(Contents()), handler, eloopData, userData)|
    {
      hide Keep, Freed, Selects, Within, Chained, Cancelling;
      ghost var q, freed := Contents(), [];
      ghost var k: nat := 0;
      removed := 0;
      var prev: Node?, timeout := null, head;
      CancelNothing(q, Contents(), handler, eloopData, userData);
      while timeout != null
        invariant Valid() && repr == old(repr) && k <= |nodes| && removed == |freed|
        invariant timeout == NodeAt(nodes, k) && prev == NodeBefore(nodes, k)
        invariant Cancelling(q, Contents()[..k], Contents()[k..], freed, handler, eloopData, userData)
        decreases |nodes| - k
      {
        NextNode(nodes, k);
        var next := timeout.next;
        CancelTurn(q, Contents()[..k], Contents()[k..], freed, handler, eloopData, userData);
        NextPart(Contents(), k);
        if Selects(timeout.timeout, handler, eloopData, userData) {
          Unlinked(nodes, k);
          Unlink(prev, next, k);
          freed, removed := freed + [timeout.timeout.node], removed + 1;
        } else {
          prev, k := timeout, k + 1;
        }
        timeout := next;
      }
      CancelDone(q, Contents()[..k], Contents()[k..], freed, handler, eloopData, userData);
    }
  }

  function NodeAt(nodes: seq<Node>, i: nat): Node? {
    if i < |nodes| then nodes[i] else null
  }

  function NodeBefore(nodes: seq<Node>, i: nat): Node?
    requires i <= |nodes|
  {
    if i == 0 then null else nodes[i - 1]
  }

  ghost predicate Within(nodes: seq<Node>, repr: set<Node>) {
    && (forall i :: 0 <= i < |nodes| ==> nodes[i] in repr)
    && forall i, j :: 0 <= i < j < |nodes| ==> nodes[i] != nodes[j]
  }

  ghost predicate Chained(nodes: seq<Node>)
    reads nodes
  {
    forall i :: 0 <= i < |nodes| ==> nodes[i].next == NodeAt(nodes, i + 1)
  }

  lemma ListParts(q: TimeoutList)
    requires q.Valid()
    ensures Within(q.nodes, q.repr) && q.head == NodeAt(q.nodes, 0) && Chained(q.nodes)
  {
  }

  lemma ListWhole(q: TimeoutList)
    requires Within(q.nodes, q.repr) && q.head == NodeAt(q.nodes, 0) && Chained(q.nodes)
    ensures q.Valid()
  {
  }

  // Behind a node comes the next one.
  lemma NextNode(nodes: seq<Node>, k: nat)
    requires k <= |nodes| && Chained(nodes)
    ensures k < |nodes| ==> nodes[k].next == NodeAt(nodes, k + 1)
    ensures k > 0 ==> nodes[k - 1].next == NodeAt(nodes, k)
  {
  }

  // The node before place k is another than the others, and they keep their successors when it gets a new one.
  lemma Apart(nodes: seq<Node>, repr: set<Node>, k: nat)
    requires k <= |nodes| && Within(nodes, repr) && Chained(nodes)
    ensures NodeBefore(nodes, k) == if k == 0 then null else nodes[k - 1]
    ensures k > 0 ==> NodeAt(nodes, 0) == nodes[0] && nodes[k - 1].next == NodeAt(nodes, k)
    ensures forall i :: 0 <= i < |nodes| ==> nodes[i] in repr && nodes[i].next == NodeAt(nodes, i + 1)
    ensures forall i :: 0 <= i < |nodes| && i != k - 1 ==> k == 0 || nodes[i] != nodes[k - 1]
  {
  }

  lemma SplicedWithin(nodes: seq<Node>, node: Node, k: nat, repr: set<Node>)
    requires k <= |nodes| && Within(nodes, repr) && node !in repr
    ensures Within(nodes[..k] + [node] + nodes[k..], repr + {node})
  {
  }

  lemma UnlinkedWithin(nodes: seq<Node>, k: nat, repr: set<Node>)
    requires k < |nodes| && Within(nodes, repr)
    ensures Within(nodes[..k] + nodes[k + 1..], repr)
  {
  }

  // The chain once a node stands between the first k nodes and the others.
  lemma SplicedChain(nodes: seq<Node>, node: Node, k: nat)
    requires k <= |nodes| && node.next == NodeAt(nodes, k) && (k > 0 ==> nodes[k - 1].next == node)
    requires forall i :: 0 <= i < |nodes| && i != k - 1 ==> nodes[i].next == NodeAt(nodes, i + 1)
    ensures Chained(nodes[..k] + [node] + nodes[k..])
    ensures NodeAt(nodes[..k] + [node] + nodes[k..], 0) == if k == 0 then node else nodes[0]
  {
    var m := nodes[..k] + [node] + nodes[k..];
    forall i | 0 <= i < |m| ensures m[i].next == NodeAt(m, i + 1) {
      if i > k {
        assert m[i] == nodes[i - 1];
      } else if i < k {
        assert m[i] == nodes[i];
      }
    }
  }

  // The chain without its node k.
  lemma UnlinkedChain(nodes: seq<Node>, k: nat)
    requires k < |nodes| && (k > 0 ==> nodes[k - 1].next == NodeAt(nodes, k + 1))
    requires forall i :: 0 <= i < |nodes| && i != k - 1 ==> nodes[i].next == NodeAt(nodes, i + 1)
    ensures Chained(nodes[..k] + nodes[k + 1..])
    ensures NodeAt(nodes[..k] + nodes[k + 1..], 0) == if k == 0 then NodeAt(nodes, 1) else nodes[0]
  {
    var m := nodes[..k] + nodes[k + 1..];
    forall i | 0 <= i < |m| ensures m[i].next == NodeAt(m, i + 1) {
      assert m[i] == nodes[if i < k then i else i + 1];
    }
  }

  ghost function TimeoutsOf(nodes: seq<Node>): (q: seq<Timeout>)
    ensures |q| == |nodes| && forall i :: 0 <= i < |nodes| ==> q[i] == nodes[i].timeout
  {
    seq(|nodes|, i requires 0 <= i < |nodes| => nodes[i].timeout)
  }

  lemma Spliced(nodes: seq<Node>, node: Node, k: nat)
    requires k <= |nodes|
    ensures var (q, r) := (TimeoutsOf(nodes), TimeoutsOf(nodes[..k] + [node] + nodes[k..]));
            r == q[..k] + [node.timeout] + q[k..]
  {
  }

  lemma Unlinked(nodes: seq<Node>, k: nat)
    requires k < |nodes|
    ensures var (q, r) := (TimeoutsOf(nodes), TimeoutsOf(nodes[..k] + nodes[k + 1..]));
            r[..k] == q[..k] && r[k..] == q[k + 1..]
  {
  }

  // struct eloop_data, as far as timers go.
  class Eloop {
    const timeouts: TimeoutList
    var clock: nat
    var registered: nat
    var terminate: bool
    ghost var fired: seq<Firing>
    ghost var cancelled: seq<nat>

    ghost predicate Valid()
      reads this, timeouts, timeouts.repr
    {
      timeouts.Valid()
    }

    ghost function State(): Loop
      reads this, timeouts
    {
      Loop(timeouts.Contents(), clock, registered, fired, cancelled, terminate)
    }

    // eloop_init
    constructor (now: nat)
      ensures Valid() && State() == Init(now) && fresh(timeouts) && fresh(timeouts.repr)
    {
      timeouts := new TimeoutList();
      clock, registered, terminate, fired, cancelled := now, 0, false, [], [];
    }

    // eloop_register_timeout, with the clock read `wait` after the last reading
    method RegisterTimeout(wait: nat, secs: nat, usecs: nat, handler: nat, eloopData: nat, userData: nat)
      requires Valid()
      modifies this, timeouts, timeouts.repr
      ensures Valid() && fresh(timeouts.repr - old(timeouts.repr))
      ensures State() == Act(old(State()), Register(wait, secs, usecs, handler, eloopData, userData))
    {
      hide Insert, Within, Chained, Micros, Normal, Less, TimeOf;
      clock := clock + wait;
      var time := Deadline(clock, secs, usecs);
      SameTime(time, TimeOf(clock + secs * SECOND + usecs));
      timeouts.Add(Timeout(time, handler, eloopData, userData, registered));
      registered := registered + 1;
    }

    // eloop_cancel_timeout
    method CancelTimeout(handler: nat, eloopData: nat, userData: nat) returns (removed: nat)
      requires Valid()
      modifies this, timeouts, timeouts.repr
      ensures Valid() && timeouts.repr == old(timeouts.repr)
      ensures State() == Act(old(State()), Cancel(handler, eloopData, userData))
      ensures removed == |Freed(old(State()).q, handler, eloopData, userData)|
    {
      hide Keep, Freed, Selects;
      cancelled := cancelled + Freed(timeouts.Contents(), handler, eloopData, userData);
      removed := timeouts.Cancel(handler, eloopData, userData);
    }

    // What a handler does, step by step.
    method Perform(acts: seq<Action>)
      requires Valid()
      modifies this, timeouts, timeouts.repr
      ensures Valid() && fresh(timeouts.repr - old(timeouts.repr))
      ensures State() == Acts(old(State()), acts)
    {
      var i := 0;
      assert acts[0..] == acts;
      hide Act;
      while i < |acts|
        invariant Valid() && fresh(timeouts.repr - old(timeouts.repr))
        invariant i <= |acts| && Acts(old(State()), acts) == Acts(State(), acts[i..])
      {
        assert acts[i..][0] == acts[i] && acts[i..][1..] == acts[i + 1..];
        match acts[i] {
          case Register(wait, secs, usecs, h, e, u) => RegisterTimeout(wait, secs, usecs, h, e, u);
          case Cancel(h, e, u) => var removed := CancelTimeout(h, e, u);
          case Terminate => Stop();
        }
        i := i + 1;
      }
    }

    // eloop_terminate
    method Stop()
      requires Valid()
      modifies this
      ensures Valid() && State() == Act(old(State()), Terminate)
    {
      terminate := true;
    }

    method ReadClock(t: nat)
      requires Valid()
      modifies this
      ensures Valid() && State() == Wait(old(State()), t)
    {
      if timeouts.head != null {
        clock := clock + t;
      }
    }

    // How long select may wait: until the first deadline, at once when it has passed, and without end when there is
    // none.
    method SelectTimeout() returns (tv: Option<Time>)
      requires Valid() && Inv(State())
      ensures tv.Some? <==> State().q != []
      ensures tv.Some? ==>
                var head := Micros(State().q[0].time);
                Normal(tv.value) && clock + Micros(tv.value) == if clock < head then head else clock
    {
      if timeouts.head == null {
        return None;
      }
      var head := timeouts.head.timeout.time;
      assert (TimersOf(fired) + timeouts.Contents())[|fired|].time == head;
      LessIsEarlier(TimeOf(clock), head);
      if Less(TimeOf(clock), head) {
        var t := Remaining(head, clock);
        tv := Some(t);
      } else {
        tv := Some(Time(0, 0));
      }
    }

    // The timer part of a turn: the head goes when it is due, before its handler runs.
    method FireHead(acts: seq<Action>)
      requires Valid()
      modifies this, timeouts, timeouts.repr
      ensures Valid() && fresh(timeouts.repr - old(timeouts.repr))
      ensures State() == if Reached(old(State())) then Acts(Fire(old(State())), acts) else old(State())
    {
      hide Acts;
      if timeouts.head != null && !Less(TimeOf(clock), timeouts.head.timeout.time) {
        var timeout := timeouts.Pop();
        fired := fired + [Firing(timeout, clock)];
        Perform(acts);
      }
    }

    // The part of a turn behind select.
    method TakeTurn(t: Turn)
      requires Valid()
      modifies this, timeouts, timeouts.repr
      ensures Valid() && fresh(timeouts.repr - old(timeouts.repr))
      ensures State() == Dispatch(old(State()), t)
    {
      hide Acts, Wait, Reached, Fire, Insert;
      Perform(t.signals);
      ReadClock(t.after);
      FireHead(t.timer);
      Perform(t.sockets);
    }

    // eloop_run
    method EloopRun(turns: seq<Turn>)
      requires Valid() && Inv(State())
      modifies this, timeouts, timeouts.repr
      ensures Valid() && State() == Run(old(State()), turns) && Inv(State())
    {
      var i := 0;
      assert turns[0..] == turns;
      hide Dispatch, Wait, Inv;
      while i < |turns| && !terminate && (timeouts.head != null || turns[i].readers)
        invariant Valid() && fresh(timeouts.repr - old(timeouts.repr))
        invariant i <= |turns| && Run(old(State()), turns) == Run(State(), turns[i..]) && Inv(State())
      {
        var t := turns[i];
        assert turns[i..][0] == t && turns[i..][1..] == turns[i + 1..];
        WaitInv(State(), t.before);
        ReadClock(t.before);
        DispatchInv(State(), t);
        var tv := SelectTimeout();
        if t.broken {
          return;
        }
        TakeTurn(t);
        i := i + 1;
      }
      if i < |turns| {
        assert turns[i..][0] == turns[i];
      }
    }
  }

  lemma NextPart(q: seq<Timeout>, k: nat)
    requires k < |q|
    ensures q[..k] + [q[k]] == q[..k + 1] && q[k..][0] == q[k] && q[k..][1..] == q[k + 1..]
  {
  }

  // How far a cancellation has come: what it has kept, what it has still to look at, what it has freed.
  ghost predicate Cancelling(q: seq<Timeout>, kept: seq<Timeout>, rest: seq<Timeout>, freed: seq<nat>, h: nat, e: nat,
                             u: nat) {
    Keep(q, h, e, u) == kept + Keep(rest, h, e, u) && Freed(q, h, e, u) == freed + Freed(rest, h, e, u)
  }

  lemma CancelNothing(q: seq<Timeout>, t: seq<Timeout>, h: nat, e: nat, u: nat)
    requires t == q
    ensures Cancelling(q, t[..0], t[0..], [], h, e, u)
  {
    hide Keep, Freed;
    assert t[0..] == q;
    assert [] + Keep(q, h, e, u) == Keep(q, h, e, u) && [] + Freed(q, h, e, u) == Freed(q, h, e, u);
  }

  lemma CancelTurn(q: seq<Timeout>, kept: seq<Timeout>, rest: seq<Timeout>, freed: seq<nat>, h: nat, e: nat, u: nat)
    requires rest != [] && Cancelling(q, kept, rest, freed, h, e, u)
    ensures if Selects(rest[0], h, e, u) then Cancelling(q, kept, rest[1..], freed + [rest[0].node], h, e, u)
            else Cancelling(q, kept + [rest[0]], rest[1..], freed, h, e, u)
  {
    var (a, b, x) := (Keep(rest[1..], h, e, u), Freed(rest[1..], h, e, u), rest[0]);
    hide Selects;
    if Selects(x, h, e, u) {
      assert Keep(rest, h, e, u) == a && Freed(rest, h, e, u) == [x.node] + b;
      hide Keep, Freed;
      assert freed + ([x.node] + b) == freed + [x.node] + b;
    } else {
      assert Keep(rest, h, e, u) == [x] + a && Freed(rest, h, e, u) == b;
      hide Keep, Freed;
      assert kept + ([x] + a) == kept + [x] + a;
    }
  }

  lemma CancelDone(q: seq<Timeout>, kept: seq<Timeout>, rest: seq<Timeout>, freed: seq<nat>, h: nat, e: nat, u: nat)
    requires rest == [] && Cancelling(q, kept, rest, freed, h, e, u)
    ensures Keep(q, h, e, u) == kept && Freed(q, h, e, u) == freed
  {
  }
}
