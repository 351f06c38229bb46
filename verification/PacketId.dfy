// The packet identifier generator of src/mqtt.c: the identifiers its register
// runs through and the search for one that no queued message carries.
module PacketId {
  import opened Lfsr
  import opened LfsrWords
  import opened LfsrPeriod

  // ----- identifiers -----

  function Orbit(n: nat, s: bv16): bv16 {
    if n == 0 then s else StepBv(Orbit(n - 1, s))
  }

  // The identifier the register holds after n turns.
  function OrbitId(n: nat, s: bv16): nat {
    Orbit(n, s) as nat
  }

  lemma {:induction false} OrbitIsPow(n: nat, s: bv16)
    ensures FromBv(Orbit(n, s)) == Pow(n, FromBv(s))
  {
    hide FromBv;
    if n > 0 {
      OrbitIsPow(n - 1, s);
      FromBvStep(Orbit(n - 1, s));
    }
  }

  lemma NonzeroFromBv(s: bv16)
    requires s != 0
    ensures FromBv(s) != ZERO
  {
    hide FromBv;
    Feedback();
    if FromBv(s) == ZERO {
      FromBvInjective(s, 0);
    }
  }

  lemma SameId(a: bv16, b: bv16)
    requires a as nat == b as nat
    ensures a == b
  {
    assert (a as nat) as bv16 == a;
    assert (b as nat) as bv16 == b;
  }

  // No identifier comes back within 65535 turns of a nonzero register, and none is zero.
  lemma OrbitDistinct(s: bv16, i: nat, j: nat)
    requires s != 0 && i < j < i + 65535
    ensures OrbitId(i, s) != OrbitId(j, s)
  {
    hide Orbit, FromBv, ZERO, Pow;
    if OrbitId(i, s) == OrbitId(j, s) {
      SameId(Orbit(i, s), Orbit(j, s));
      OrbitIsPow(i, s);
      OrbitIsPow(j, s);
      PowAdd(i, j - i, FromBv(s));
      PowInjective(i, Pow(j - i, FromBv(s)), FromBv(s));
      NonzeroFromBv(s);
      FullPeriod(FromBv(s), j - i);
    }
  }

  lemma OrbitNonzero(n: nat, s: bv16)
    requires s != 0
    ensures 0 < OrbitId(n, s) < 65536
  {
    hide Orbit, OrbitId, FromBv, ZERO, Pow;
    OrbitIdIs(n, s);
    WordRange(Orbit(n, s));
    if Orbit(n, s) == 0 {
      OrbitIsPow(n, s);
      Feedback();
      PowZero(n);
      PowInjective(n, FromBv(s), ZERO);
      NonzeroFromBv(s);
    }
  }

  lemma WordRange(a: bv16)
    ensures a as nat < 65536 && (a != 0 ==> a as nat > 0)
  {
  }

  lemma OrbitIdIs(n: nat, s: bv16)
    ensures OrbitId(n, s) == Orbit(n, s) as nat
  {
  }

  ghost function Visited(n: nat, s: bv16): set<nat> {
    if n == 0 then {} else Visited(n - 1, s) + {OrbitId(n, s)}
  }

  lemma {:induction false} VisitedOrbit(n: nat, s: bv16, id: nat)
    requires id in Visited(n, s)
    ensures exists k: nat :: 1 <= k <= n && id == OrbitId(k, s)
  {
    if id == OrbitId(n, s) {
    } else {
      VisitedOrbit(n - 1, s, id);
    }
  }

  lemma {:induction false} VisitedSize(n: nat, s: bv16)
    requires s != 0 && n <= 65535
    ensures |Visited(n, s)| == n
  {
    hide Orbit;
    if n > 0 {
      VisitedSize(n - 1, s);
      if OrbitId(n, s) in Visited(n - 1, s) {
        VisitedOrbit(n - 1, s, OrbitId(n, s));
        var k :| 1 <= k <= n - 1 && OrbitId(n, s) == OrbitId(k, s);
        OrbitDistinct(s, k, n);
      }
    }
  }

  ghost function Ids(n: nat): set<nat> {
    if n == 0 then {} else Ids(n - 1) + {n}
  }

  lemma {:induction false} IdsSize(n: nat)
    ensures |Ids(n)| == n && forall i :: i in Ids(n) <==> 1 <= i <= n
  {
    if n > 0 {
      IdsSize(n - 1);
    }
  }

  lemma SubsetSize(a: set<nat>, b: set<nat>)
    requires a <= b
    ensures |a| <= |b| && (|a| == |b| ==> a == b)
  {
    var rest := b - a;
    assert b == a + rest;
    assert |b| == |a| + |rest|;
  }

  // Every nonzero identifier is reached.
  lemma OrbitCovers(s: bv16, id: nat)
    requires s != 0 && 1 <= id <= 65535
    ensures exists k: nat :: 1 <= k <= 65535 && id == OrbitId(k, s)
  {
    hide Orbit, Visited, Ids;
    VisitedSize(65535, s);
    IdsSize(65535);
    forall i | i in Visited(65535, s) ensures i in Ids(65535) {
      VisitedOrbit(65535, s, i);
      var k: nat :| 1 <= k <= 65535 && i == OrbitId(k, s);
      OrbitNonzero(k, s);
    }
    SubsetSize(Visited(65535, s), Ids(65535));
    VisitedOrbit(65535, s, id);
  }

  // ----- __mqtt_next_pid -----

  // Some identifier is carried by no queued message.
  ghost predicate Available(used: set<nat>) {
    exists id: nat :: 1 <= id <= 65535 && id !in used
  }

  function Seed(lfsr: bv16): bv16 {
    if lfsr == 0 then 163 else lfsr
  }

  // The content of the register as an identifier.
  function Number(w: bv16): (n: nat)
    ensures n < 65536
  {
    w as nat
  }

  // The loop body: turn the register until its content is not in use.
  function FirstFree(s: bv16, used: set<nat>, fuel: nat): bv16
    decreases fuel
  {
    var t := StepBv(s);
    if fuel == 0 || t as nat !in used then t else FirstFree(t, used, fuel - 1)
  }

  function NextId(lfsr: bv16, used: set<nat>): bv16 {
    FirstFree(Seed(lfsr), used, 65535)
  }

  // The first identifier of a fresh client.
  lemma FirstId()
    ensures Number(NextId(0, {})) == 46161
  {
    assert StepBv(163) == 46161;
  }

  // All identifiers on the orbit strictly between turns m and n are in use.
  ghost predicate AllUsed(s: bv16, m: nat, n: nat, used: set<nat>) {
    forall i :: m < i < n ==> OrbitId(i, s) in used
  }

  lemma {:induction false} FirstFreeInOrbit(s: bv16, n: nat, used: set<nat>, fuel: nat, k: nat) returns (j: nat)
    requires n < k <= n + fuel && OrbitId(k, s) !in used
    ensures n < j <= k && FirstFree(Orbit(n, s), used, fuel) == Orbit(j, s)
    ensures OrbitId(j, s) !in used && AllUsed(s, n, j, used)
    decreases fuel
  {
    hide StepBv, OrbitId;
    assert Orbit(n + 1, s) == StepBv(Orbit(n, s));
    OrbitIdIs(n + 1, s);
    if OrbitId(n + 1, s) in used {
      j := FirstFreeInOrbit(s, n + 1, used, fuel - 1, k);
      assert AllUsed(s, n, j, used) by {
        forall i | n < i < j ensures OrbitId(i, s) in used {
          if i > n + 1 {
            assert AllUsed(s, n + 1, j, used);
          }
        }
      }
    } else {
      j := n + 1;
    }
  }

  // The identifier returned is unused and nonzero, and every one the search passed over is in use.
  lemma NextIdUnused(lfsr: bv16, used: set<nat>) returns (j: nat)
    requires Available(used)
    ensures 1 <= NextId(lfsr, used) as nat <= 65535 && NextId(lfsr, used) as nat !in used
    ensures 1 <= j <= 65535 && NextId(lfsr, used) == Orbit(j, Seed(lfsr)) && AllUsed(Seed(lfsr), 0, j, used)
  {
    hide Orbit, OrbitId, FirstFree, AllUsed;
    var s := Seed(lfsr);
    var id: nat :| 1 <= id <= 65535 && id !in used;
    OrbitCovers(s, id);
    var k: nat :| 1 <= k <= 65535 && id == OrbitId(k, s);
    OrbitNone(s);
    j := FirstFreeInOrbit(s, 0, used, 65535, k);
    OrbitNonzero(j, s);
    OrbitIdIs(j, s);
  }

  // The search from lfsr ends at turn j.
  ghost predicate EndsAt(lfsr: bv16, used: set<nat>, j: nat) {
    && 0 < j && NextId(lfsr, used) == Orbit(j, Seed(lfsr)) && Number(Orbit(j, Seed(lfsr))) !in used
    && AllUsed(Seed(lfsr), 0, j, used)
  }

  lemma SearchEndsAt(lfsr: bv16, used: set<nat>) returns (j: nat)
    requires Available(used)
    ensures EndsAt(lfsr, used, j)
  {
    hide Seed, Orbit, NextId, AllUsed, Available;
    j := NextIdUnused(lfsr, used);
  }

  // w is the register after k turns.
  ghost predicate AtTurn(lfsr: bv16, k: nat, w: bv16) {
    w == Orbit(k, Seed(lfsr))
  }

  lemma SearchStart(lfsr: bv16)
    ensures AtTurn(lfsr, 0, Seed(lfsr))
  {
  }

  // Turn k of a search that ends at turn j.
  lemma SearchTurn(lfsr: bv16, used: set<nat>, j: nat, k: nat, w: bv16)
    requires 0 < k <= j && EndsAt(lfsr, used, j) && AtTurn(lfsr, k - 1, w)
    ensures AtTurn(lfsr, k, StepBv(w)) && (Number(StepBv(w)) in used <==> k < j)
  {
    hide StepBv, Seed, NextId;
    OrbitIdIs(k, Seed(lfsr));
    assert k < j ==> OrbitId(k, Seed(lfsr)) in used;
  }

  lemma SearchDone(lfsr: bv16, used: set<nat>, j: nat, w: bv16)
    requires EndsAt(lfsr, used, j) && AtTurn(lfsr, j, w)
    ensures w == NextId(lfsr, used)
  {
  }

  lemma OrbitNone(s: bv16)
    ensures Orbit(0, s) == s
  {
  }

  // The search meets an unused identifier if and only if one is available.
  lemma SearchEnds(lfsr: bv16, used: set<nat>)
    ensures (exists k: nat :: 1 <= k && OrbitId(k, Seed(lfsr)) !in used) <==> Available(used)
  {
    hide Orbit, OrbitId;
    var s := Seed(lfsr);
    assert s != 0;
    if k: nat :| 1 <= k && OrbitId(k, s) !in used {
      OrbitNonzero(k, s);
      OrbitIdIs(k, s);
    }
    if Available(used) {
      var id: nat :| 1 <= id <= 65535 && id !in used;
      OrbitCovers(s, id);
      var k: nat :| 1 <= k <= 65535 && id == OrbitId(k, s);
    }
  }

  // Fewer than 65535 identifiers in use leave one available.
  lemma FewInUse(used: set<nat>)
    requires |used| < 65535
    ensures Available(used)
  {
    IdsSize(65535);
    if forall id: nat :: 1 <= id <= 65535 ==> id in used {
      SubsetSize(Ids(65535), used);
    }
  }
}
