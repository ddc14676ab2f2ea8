/** What every mesh plan guarantees, and what the partial plan covers and costs. */
module MeshGuarantees {
  import opened Mesh
  import opened Sorting
  import opened Arithmetic

  ghost predicate IdsDistinct(a: seq<Candidate>) {
    forall i, j :: 0 <= i < j < |a| ==> a[i].agentId != a[j].agentId
  }

  // From agents to usable agents ---------------------------------------------------------

  lemma SortKeepsIds(s: seq<Candidate>)
    requires IdsDistinct(s)
    ensures IdsDistinct(SortBy(s, ByName))
  {
    ByNameOrders();
    var id := (c: Candidate) => c.agentId;
    assert AllDiffer(s, id);
    SortKeepsDifferent(s, ByName, id);
    var t := SortBy(s, ByName);
    forall i, j | 0 <= i < j < |t| ensures t[i].agentId != t[j].agentId {
      assert id(t[i]) != id(t[j]);
    }
  }

  lemma {:induction false} UsableAre(s: seq<Candidate>)
    ensures forall x :: x in Usable(s) <==> x in s && IsUsable(x)
    ensures IdsDistinct(s) ==> IdsDistinct(Usable(s))
  {
    if s != [] {
      var init, last := s[..|s| - 1], s[|s| - 1];
      assert s == init + [last];
      UsableAre(init);
      if IdsDistinct(s) {
        forall x | x in init ensures x.agentId != last.agentId {
          var i :| 0 <= i < |init| && init[i] == x;
          assert s[i] == x;
        }
      }
    }
  }

  /** The agents a cycle is planned over. */
  function Members(agents: seq<Candidate>): seq<Candidate> {
    Usable(SortBy(agents, ByName))
  }

  lemma MembersAre(agents: seq<Candidate>)
    ensures forall x :: x in Members(agents) <==> x in agents && x.online && x.mqp && x.address != ""
    ensures IdsDistinct(agents) ==> IdsDistinct(Members(agents))
  {
    ByNameOrders();
    SortByMembers(agents, ByName);
    UsableAre(SortBy(agents, ByName));
    if IdsDistinct(agents) {
      SortKeepsIds(agents);
    }
  }

  // Where the wanted pairs come from -----------------------------------------------------

  /** Both ends are distinct members. */
  predicate Between(p: Pairing, a: seq<Candidate>) {
    p.sender in a && p.reflector in a && p.sender.agentId != p.reflector.agentId
  }

  ghost predicate AllBetween(ps: seq<Pairing>, a: seq<Candidate>) {
    forall p :: p in ps ==> Between(p, a)
  }

  lemma DistinctPositions(a: seq<Candidate>, i: nat, j: nat)
    requires IdsDistinct(a) && i < |a| && j < |a| && i != j
    ensures a[i].agentId != a[j].agentId
  {
  }

  lemma {:induction false} FullRowAre(a: seq<Candidate>, i: nat, j: nat)
    requires i < |a| && j <= |a|
    ensures forall p :: p in FullRow(a, i, j) <==> exists k :: 0 <= k < j && k != i && p == Pairing(a[i], a[k])
  {
    if j > 0 {
      FullRowAre(a, i, j - 1);
      if j - 1 != i {
        assert FullRow(a, i, j) == FullRow(a, i, j - 1) + [Pairing(a[i], a[j - 1])];
      }
    }
  }

  /** The full mesh is every ordered pair of different positions. */
  lemma {:induction false} FullRowsAre(a: seq<Candidate>, i: nat)
    requires i <= |a|
    ensures forall p :: p in FullRows(a, i) <==>
      exists r, k :: 0 <= r < i && 0 <= k < |a| && k != r && p == Pairing(a[r], a[k])
  {
    if i > 0 {
      FullRowsAre(a, i - 1);
      FullRowAre(a, i - 1, |a|);
      forall p ensures p in FullRows(a, i) <==>
        exists r, k :: 0 <= r < i && 0 <= k < |a| && k != r && p == Pairing(a[r], a[k])
      {
        assert p in FullRows(a, i) <==> p in FullRows(a, i - 1) || p in FullRow(a, i - 1, |a|);
      }
    }
  }

  lemma FullRowsBetween(a: seq<Candidate>)
    requires IdsDistinct(a)
    ensures AllBetween(FullRows(a, |a|), a)
  {
    FullRowsAre(a, |a|);
    forall p | p in FullRows(a, |a|) ensures Between(p, a) {
      var r, k :| 0 <= r < |a| && 0 <= k < |a| && k != r && p == Pairing(a[r], a[k]);
      DistinctPositions(a, r, k);
    }
  }

  lemma RingsBetween(a: seq<Candidate>)
    requires IdsDistinct(a) && |a| >= 2
    ensures AllBetween(Rings(a), a)
  {
    forall p | p in Rings(a) ensures Between(p, a) {
      var i :| 0 <= i < |a| && Rings(a)[i] == p;
      Wrap(i + 1, |a|);
      DistinctPositions(a, i, (i + 1) % |a|);
    }
  }

  lemma {:induction false} HubsAndSpokesAre(a: seq<Candidate>)
    ensures forall x :: x in Hubs(a) <==> x in a && x.hub
    ensures forall x :: x in Spokes(a) <==> x in a && !x.hub
  {
    if a != [] {
      var init, last := a[..|a| - 1], a[|a| - 1];
      assert a == init + [last];
      HubsAndSpokesAre(init);
    }
  }

  lemma {:induction false} HubsDistinct(a: seq<Candidate>)
    requires IdsDistinct(a)
    ensures IdsDistinct(Hubs(a))
  {
    if a != [] {
      var init, last := a[..|a| - 1], a[|a| - 1];
      HubsDistinct(init);
      HubsAndSpokesAre(init);
      forall x | x in Hubs(init) ensures x.agentId != last.agentId {
        var i :| 0 <= i < |init| && init[i] == x;
        assert a[i] == x;
      }
    }
  }

  lemma {:induction false} CrossRowAre(s: Candidate, hubs: seq<Candidate>, j: nat)
    requires j <= |hubs|
    ensures forall p :: p in CrossRow(s, hubs, j) <==> p.sender == s && p.reflector in hubs[..j]
  {
    if j > 0 {
      CrossRowAre(s, hubs, j - 1);
      assert hubs[..j] == hubs[..j - 1] + [hubs[j - 1]];
    }
  }

  lemma {:induction false} CrossRowsAre(spokes: seq<Candidate>, hubs: seq<Candidate>, i: nat)
    requires i <= |spokes|
    ensures forall p :: p in CrossRows(spokes, hubs, i) <==> p.sender in spokes[..i] && p.reflector in hubs
  {
    if i > 0 {
      CrossRowsAre(spokes, hubs, i - 1);
      CrossRowAre(spokes[i - 1], hubs, |hubs|);
      assert hubs[..|hubs|] == hubs;
      assert spokes[..i] == spokes[..i - 1] + [spokes[i - 1]];
    }
  }

  lemma SameIdSameAgent(a: seq<Candidate>, x: Candidate, y: Candidate)
    requires IdsDistinct(a) && x in a && y in a && x.agentId == y.agentId
    ensures x == y
  {
  }

  lemma HubPlanBetween(a: seq<Candidate>)
    requires IdsDistinct(a)
    ensures AllBetween(CrossRows(Spokes(a), Hubs(a), |Spokes(a)|) + FullRows(Hubs(a), |Hubs(a)|), a)
  {
    HubsAndSpokesAre(a);
    HubsDistinct(a);
    var spokes, hubs := Spokes(a), Hubs(a);
    CrossRowsAre(spokes, hubs, |spokes|);
    assert spokes[..|spokes|] == spokes;
    forall p | p in CrossRows(spokes, hubs, |spokes|) ensures Between(p, a) {
      if p.sender.agentId == p.reflector.agentId {
        SameIdSameAgent(a, p.sender, p.reflector);
      }
    }
    FullRowsBetween(hubs);
  }

  // Rotation --------------------------------------------------------------------------------

  function Offset(n: nat, f: nat, cycle: nat, k: nat): (o: nat)
    requires n >= 2
    ensures o < n - 1
  {
    (cycle * f + k) % (n - 1)
  }

  /** One step round the circle of `n`, spelled out. */
  lemma Wrap(x: nat, n: nat)
    requires n > 0 && x < 2 * n
    ensures x % n == if x < n then x else x - n
  {
  }

  lemma PeerIs(n: nat, f: nat, cycle: nat, i: nat, k: nat)
    requires n >= 2 && i < n
    ensures var x := i + 1 + Offset(n, f, cycle, k);
      Peer(n, f, cycle, i, k) == if x < n then x else x - n
    ensures Peer(n, f, cycle, i, k) != i
  {
    Wrap(i + 1 + Offset(n, f, cycle, k), n);
  }

  lemma OffsetsDiffer(n: nat, f: nat, cycle: nat, k: nat, l: nat)
    requires n >= 2 && f <= n - 1 && k < l < f
    ensures Offset(n, f, cycle, k) != Offset(n, f, cycle, l)
  {
    if Offset(n, f, cycle, k) == Offset(n, f, cycle, l) {
      SameRemainder(cycle * f + k, cycle * f + l, n - 1);
    }
  }

  lemma PeersDiffer(n: nat, f: nat, cycle: nat, i: nat, k: nat, l: nat)
    requires n >= 2 && f <= n - 1 && k < l < f && i < n
    ensures Peer(n, f, cycle, i, k) != Peer(n, f, cycle, i, l)
  {
    PeerIs(n, f, cycle, i, k);
    PeerIs(n, f, cycle, i, l);
    OffsetsDiffer(n, f, cycle, k, l);
  }

  /** The one agent that probes `j` k-th. */
  function Prober(n: nat, f: nat, cycle: nat, j: nat, k: nat): (i: nat)
    requires n >= 2 && j < n
    ensures i < n
  {
    var o := Offset(n, f, cycle, k);
    if j >= 1 + o then j - 1 - o else j + n - 1 - o
  }

  lemma ProberIs(n: nat, f: nat, cycle: nat, i: nat, j: nat, k: nat)
    requires n >= 2 && i < n && j < n
    ensures Peer(n, f, cycle, i, k) == j <==> i == Prober(n, f, cycle, j, k)
  {
    PeerIs(n, f, cycle, i, k);
  }

  ghost predicate AllDifferent(row: seq<nat>) {
    forall k, l :: 0 <= k < l < |row| ==> row[k] != row[l]
  }

  /** The agents that probe `x`. */
  function Probers(rota: Rota, x: nat): set<nat> {
    set i | 0 <= i < |rota| && x in rota[i]
  }

  /** Every one of `n` agents probes `f` different others and is probed by `f`
      different others. */
  ghost predicate Regular(rota: Rota, n: nat, f: nat) {
    && |rota| == n && RotaFor(rota, n)
    && (forall i :: 0 <= i < n ==> |rota[i]| == f && AllDifferent(rota[i]) && i !in rota[i])
    && (forall x :: 0 <= x < n ==> |Probers(rota, x)| == f && x !in Probers(rota, x))
  }

  function FirstProbers(n: nat, f: nat, cycle: nat, j: nat, m: nat): set<nat>
    requires n >= 2 && j < n
  {
    set k | 0 <= k < m :: Prober(n, f, cycle, j, k)
  }

  lemma ProbersDiffer(n: nat, f: nat, cycle: nat, j: nat, k: nat, l: nat)
    requires n >= 2 && f <= n - 1 && k < l < f && j < n
    ensures Prober(n, f, cycle, j, k) != Prober(n, f, cycle, j, l)
  {
    OffsetsDiffer(n, f, cycle, k, l);
  }

  lemma {:induction false} ProbersCount(n: nat, f: nat, cycle: nat, j: nat, m: nat)
    requires n >= 2 && f <= n - 1 && m <= f && j < n
    ensures |FirstProbers(n, f, cycle, j, m)| == m
  {
    if m > 0 {
      ProbersCount(n, f, cycle, j, m - 1);
      var last := Prober(n, f, cycle, j, m - 1);
      forall k | 0 <= k < m - 1 ensures Prober(n, f, cycle, j, k) != last {
        ProbersDiffer(n, f, cycle, j, k, m - 1);
      }
      assert FirstProbers(n, f, cycle, j, m) == FirstProbers(n, f, cycle, j, m - 1) + {last};
    }
  }

  lemma ProberInRow(n: nat, f: nat, cycle: nat, i: nat, j: nat)
    requires n >= 2 && i < n && j < n
    ensures j in RowOf(n, f, cycle, i) <==> i in FirstProbers(n, f, cycle, j, f)
  {
    var row := RowOf(n, f, cycle, i);
    forall k | 0 <= k < f ensures row[k] == j <==> i == Prober(n, f, cycle, j, k) {
      ProberIs(n, f, cycle, i, j, k);
    }
  }

  lemma RowIsFair(n: nat, f: nat, cycle: nat, i: nat)
    requires n >= 2 && f <= n - 1 && i < n
    ensures AllDifferent(RowOf(n, f, cycle, i)) && i !in RowOf(n, f, cycle, i)
  {
    var row := RowOf(n, f, cycle, i);
    forall k, l | 0 <= k < l < f ensures row[k] != row[l] {
      PeersDiffer(n, f, cycle, i, k, l);
    }
    forall k | 0 <= k < f ensures row[k] != i {
      PeerIs(n, f, cycle, i, k);
    }
  }

  /** In every cycle each agent probes exactly `f` others and is probed by exactly
      `f` others. */
  lemma PartialIsRegular(n: nat, f: nat, cycle: nat)
    requires n >= 2 && 1 <= f <= n - 1
    ensures Regular(RotaOf(n, f, cycle), n, f)
  {
    var rota := RotaOf(n, f, cycle);
    forall i | 0 <= i < n ensures AllDifferent(rota[i]) && i !in rota[i] {
      RowIsFair(n, f, cycle, i);
    }
    forall x | 0 <= x < n ensures |Probers(rota, x)| == f && x !in Probers(rota, x) {
      ProbersCount(n, f, cycle, x, f);
      forall i | 0 <= i < n ensures x in rota[i] <==> i in FirstProbers(n, f, cycle, x, f) {
        ProberInRow(n, f, cycle, i, x);
      }
      assert Probers(rota, x) == FirstProbers(n, f, cycle, x, f);
    }
  }

  /** How many consecutive cycles at fanout `f` walk the whole circle of n - 1 peers. */
  function CyclesNeeded(n: nat, f: nat): nat
    requires n >= 2 && f >= 1
  {
    (n - 1 + f - 1) / f
  }

  /** Any that many consecutive cycles cover every ordered pair. */
  lemma PartialCoversMesh(n: nat, f: nat, first: nat, i: nat, j: nat) returns (cycle: nat)
    requires n >= 2 && 1 <= f <= n - 1 && i < n && j < n && i != j
    ensures first <= cycle < first + CyclesNeeded(n, f)
    ensures j in RotaOf(n, f, cycle)[i]
  {
    var want := if j > i then j - i - 1 else j + n - i - 1;
    var base := first * f;
    var m := HitsRemainder(base, want, n - 1);
    cycle := m / f;
    var k := m % f;
    assert m == cycle * f + k;
    CycleInRange(first, cycle, k, f, m, n - 1);
    assert Offset(n, f, cycle, k) == want;
    PeerIs(n, f, cycle, i, k);
    assert RowOf(n, f, cycle, i)[k] == j;
  }

  lemma CycleInRange(first: nat, cycle: nat, k: nat, f: nat, m: nat, p: nat)
    requires f >= 1 && k < f && m == cycle * f + k && first * f <= m < first * f + p
    ensures first <= cycle < first + (p + f - 1) / f
  {
    if cycle + 1 <= first {
      ProductGrows(cycle + 1, first, f);
      Distribute(cycle, 1, f);
    }
    var c := (p + f - 1) / f;
    assert p + f - 1 == c * f + (p + f - 1) % f;
    if first + c <= cycle {
      ProductGrows(first + c, cycle, f);
      Distribute(first, c, f);
    }
  }

  /** The `%` of Go, which truncates toward zero. */
  function GoRem(x: int, m: nat): int
    requires m > 0
  {
    if x >= 0 then x % m else -(-x % m)
  }

  function Shift(n: nat, f: nat, cycle: int, k: nat): int
    requires n >= 2
  {
    GoRem(cycle * f + k, n - 1)
  }

  /** The index the planner computes for any cycle number, negative ones included. */
  function PeerIndex(n: nat, f: nat, cycle: int, i: nat, k: nat): int
    requires n >= 2
  {
    GoRem(i + 1 + Shift(n, f, cycle, k), n)
  }

  predicate ProperPeer(n: nat, f: nat, cycle: int, i: nat, k: nat)
    requires n >= 2
  {
    0 <= PeerIndex(n, f, cycle, i, k) < n && PeerIndex(n, f, cycle, i, k) != i
  }

  /** Every agent is given `f` peers that exist and are not itself. */
  ghost predicate Rotates(n: nat, f: nat, cycle: int)
    requires n >= 2
  {
    forall i: nat, k: nat :: i < n && k < f ==> ProperPeer(n, f, cycle, i, k)
  }

  lemma RemainderIs(x: int, m: nat)
    requires m > 0
    ensures GoRem(x, m) < m && GoRem(x, m) + m > 0
    ensures x >= 0 ==> GoRem(x, m) >= 0
    ensures x < 0 ==> (GoRem(x, m) >= 0 <==> -x % m == 0)
  {
  }

  lemma ProperPeerIff(n: nat, f: nat, cycle: int, i: nat, k: nat)
    requires n >= 2 && i < n
    ensures Shift(n, f, cycle, k) >= 0 ==> ProperPeer(n, f, cycle, i, k)
    ensures Shift(n, f, cycle, k) < 0 ==> !ProperPeer(n, f, cycle, 0, k)
  {
    var o := Shift(n, f, cycle, k);
    RemainderIs(cycle * f + k, n - 1);
    if o >= 0 {
      Wrap(i + 1 + o, n);
    } else if o == -1 {
      Wrap(0, n);
    } else {
      Wrap(-(1 + o), n);
    }
  }

  lemma RotatesIff(n: nat, f: nat, cycle: int)
    requires n >= 2
    ensures Rotates(n, f, cycle) <==> forall k: nat :: k < f ==> Shift(n, f, cycle, k) >= 0
  {
    forall i: nat, k: nat | i < n && k < f
      ensures Shift(n, f, cycle, k) >= 0 ==> ProperPeer(n, f, cycle, i, k)
    {
      ProperPeerIff(n, f, cycle, i, k);
    }
    forall k: nat | k < f ensures Shift(n, f, cycle, k) < 0 ==> !ProperPeer(n, f, cycle, 0, k) {
      ProperPeerIff(n, f, cycle, 0, k);
    }
  }

  lemma ShiftBack(n: nat, f: nat, cycle: int, k: nat)
    requires n >= 2 && cycle < 0 && k < f
    ensures -cycle * f - k > 0 && (Shift(n, f, cycle, k) >= 0 <==> (-cycle * f - k) % (n - 1) == 0)
  {
    ProductGrows(1, -cycle, f);
    assert cycle * f + k == -(-cycle * f - k);
    RemainderIs(cycle * f + k, n - 1);
  }

  /** The planner counts on its cycle numbers not being negative: a negative one
      gives an index out of range, or pairs an agent with itself, unless the fanout
      is one and it is a multiple of n - 1. */
  lemma NegativeCycles(n: nat, f: nat, cycle: int)
    requires n >= 2 && 1 <= f <= n - 1
    ensures Rotates(n, f, cycle) <==> cycle >= 0 || (f == 1 && -cycle % (n - 1) == 0)
  {
    RotatesIff(n, f, cycle);
    if cycle >= 0 {
      forall k: nat | k < f ensures Shift(n, f, cycle, k) >= 0 {
        ProductGrows(0, cycle, f);
        RemainderIs(cycle * f + k, n - 1);
      }
    } else {
      ShiftBack(n, f, cycle, 0);
      if f >= 2 {
        ShiftBack(n, f, cycle, 1);
        TwoInARow(-cycle * f - 1, n - 1);
      }
    }
  }

  lemma TwoInARow(x: nat, m: nat)
    requires m >= 2
    ensures x % m != 0 || (x + 1) % m != 0
  {
    if x % m == 0 && (x + 1) % m == 0 {
      SameRemainder(x, x + 1, m);
    }
  }

  lemma {:induction false} RotaRowAre(a: seq<Candidate>, i: nat, row: seq<nat>)
    requires i < |a| && forall k :: 0 <= k < |row| ==> row[k] < |a|
    ensures forall p :: p in RotaRow(a, i, row) <==> exists k :: 0 <= k < |row| && p == Pairing(a[i], a[row[k]])
  {
    if row != [] {
      var n := |row| - 1;
      RotaRowAre(a, i, row[..n]);
      forall p ensures p in RotaRow(a, i, row) <==> exists k :: 0 <= k < |row| && p == Pairing(a[i], a[row[k]]) {
        if p in RotaRow(a, i, row[..n]) {
          var k :| 0 <= k < n && p == Pairing(a[i], a[row[..n][k]]);
          assert p == Pairing(a[i], a[row[k]]);
        }
        if k :| 0 <= k < |row| && p == Pairing(a[i], a[row[k]]) {
          if k < n { assert row[..n][k] == row[k]; }
        }
      }
    }
  }

  lemma {:induction false} RowWithin(a: seq<Candidate>, rota: Rota, i: nat, p: Pairing)
    requires RotaFor(rota, |a|) && i < |rota| && p in RotaRow(a, i, rota[i])
    ensures p in RotaRows(a, rota)
  {
    var n := |rota| - 1;
    if i < n {
      RowWithin(a, rota[..n], i, p);
    }
  }

  lemma {:induction false} RowOfPair(a: seq<Candidate>, rota: Rota, p: Pairing) returns (i: nat)
    requires RotaFor(rota, |a|) && p in RotaRows(a, rota)
    ensures i < |rota| && p in RotaRow(a, i, rota[i])
  {
    var n := |rota| - 1;
    if p in RotaRow(a, n, rota[n]) {
      i := n;
    } else {
      i := RowOfPair(a, rota[..n], p);
    }
  }

  /** A pair is in a cycle exactly when its reflector is among its sender's peers. */
  lemma RotaPair(a: seq<Candidate>, rota: Rota, p: Pairing) returns (i: nat, j: nat)
    requires RotaFor(rota, |a|) && p in RotaRows(a, rota)
    ensures i < |rota| && j in rota[i] && j < |a| && p == Pairing(a[i], a[j])
  {
    i := RowOfPair(a, rota, p);
    RotaRowAre(a, i, rota[i]);
    var k :| 0 <= k < |rota[i]| && p == Pairing(a[i], a[rota[i][k]]);
    j := rota[i][k];
  }

  lemma RotaHas(a: seq<Candidate>, rota: Rota, i: nat, j: nat)
    requires RotaFor(rota, |a|) && i < |rota| && j in rota[i]
    ensures j < |a| && Pairing(a[i], a[j]) in RotaRows(a, rota)
  {
    RotaRowAre(a, i, rota[i]);
    var k :| 0 <= k < |rota[i]| && rota[i][k] == j;
    RowWithin(a, rota, i, Pairing(a[i], a[rota[i][k]]));
  }

  lemma RotaBetween(a: seq<Candidate>, rota: Rota, f: nat)
    requires IdsDistinct(a) && Regular(rota, |a|, f)
    ensures AllBetween(RotaRows(a, rota), a)
  {
    forall p | p in RotaRows(a, rota) ensures Between(p, a) {
      var i, j := RotaPair(a, rota, p);
      DistinctPositions(a, i, j);
    }
  }

  lemma WantedBetween(plan: MeshPlan, fanout: int, a: seq<Candidate>, cycle: int)
    requires plan.Partial? ==> cycle >= 0
    requires IdsDistinct(a) && |a| >= 2
    ensures AllBetween(Wanted(plan, fanout, a, cycle), a)
  {
    FullRowsBetween(a);
    RingsBetween(a);
    HubPlanBetween(a);
    if plan.Partial? {
      PartialIsRegular(|a|, Clamped(fanout, |a|), cycle);
      RotaBetween(a, RotaOf(|a|, Clamped(fanout, |a|), cycle), Clamped(fanout, |a|));
    }
  }

  // Orientation -----------------------------------------------------------------------------------

  lemma {:induction false} OrientAllAre(ps: seq<Pairing>)
    ensures forall p :: p in OrientAll(ps) <==> exists w :: w in ps && Placeable(w) && p == Oriented(w)
  {
    if ps != [] {
      var init, last := ps[..|ps| - 1], ps[|ps| - 1];
      assert ps == init + [last];
      OrientAllAre(init);
    }
  }

  lemma {:induction false} RefusalsAre(ps: seq<Pairing>)
    ensures forall e :: e in Refusals(ps) <==> exists w :: w in ps && !Placeable(w) && e == Refusal(w)
  {
    if ps != [] {
      var init, last := ps[..|ps| - 1], ps[|ps| - 1];
      assert ps == init + [last];
      RefusalsAre(init);
    }
  }

  ghost predicate NoRepeats(ps: seq<Pairing>) {
    forall i, j :: 0 <= i < j < |ps| ==> ps[i].Key() != ps[j].Key()
  }

  /** Deduplication keeps one pairing for each directed pair of different agents. */
  lemma {:induction false} DedupedIs(ps: seq<Pairing>)
    ensures NoRepeats(Deduped(ps))
    ensures forall p :: p in Deduped(ps) ==> p in ps && p.sender.agentId != p.reflector.agentId
    ensures forall p :: p in ps && p.sender.agentId != p.reflector.agentId ==> p.Key() in Keys(Deduped(ps))
  {
    if ps != [] {
      var init, last := ps[..|ps| - 1], ps[|ps| - 1];
      assert ps == init + [last];
      DedupedIs(init);
      var d := Deduped(init);
      forall p | p in d ensures p.Key() in Keys(d) {
      }
      if Deduped(ps) != d {
        assert Deduped(ps) == d + [last];
        assert Keys(d + [last]) == Keys(d) + {last.Key()};
      }
    }
  }

  /** Every pairing of every plan can really be run: the sender may originate, the
      reflector can be reached, both are usable and they are different agents; and
      no directed pair appears twice. No assumption on the agents is needed. */
  lemma PlanIsSafe(plan: MeshPlan, fanout: int, agents: seq<Candidate>, cycle: int)
    requires plan.Partial? ==> cycle >= 0
    ensures var ps := PlanFor(plan, fanout, agents, cycle).pairings;
      && NoRepeats(ps)
      && forall p :: p in ps ==>
           && p.sender in agents && p.reflector in agents
           && p.sender.agentId != p.reflector.agentId
           && !p.sender.reflectorOnly && p.reflector.inboundReachable
           && p.sender.online && p.sender.mqp && p.sender.address != ""
           && p.reflector.online && p.reflector.mqp && p.reflector.address != ""
  {
    var a := Members(agents);
    if |a| >= 2 {
      var wanted := Wanted(plan, fanout, a, cycle);
      DedupedIs(OrientAll(wanted));
      OrientAllAre(wanted);
      MembersAre(agents);
      WantedFromMembers(plan, fanout, a, cycle);
    }
  }

  lemma WantedFromMembers(plan: MeshPlan, fanout: int, a: seq<Candidate>, cycle: int)
    requires plan.Partial? ==> cycle >= 0
    requires |a| >= 2
    ensures forall p :: p in Wanted(plan, fanout, a, cycle) ==> p.sender in a && p.reflector in a
  {
    FullFromMembers(a);
    HubPlanFromMembers(a);
    if plan.Partial? {
      RotaFromMembers(a, RotaOf(|a|, Clamped(fanout, |a|), cycle));
    }
  }

  lemma FullFromMembers(a: seq<Candidate>)
    ensures forall p :: p in FullRows(a, |a|) ==> p.sender in a && p.reflector in a
  {
    FullRowsAre(a, |a|);
  }

  lemma HubPlanFromMembers(a: seq<Candidate>)
    ensures forall p :: p in CrossRows(Spokes(a), Hubs(a), |Spokes(a)|) + FullRows(Hubs(a), |Hubs(a)|) ==>
      p.sender in a && p.reflector in a
  {
    HubsAndSpokesAre(a);
    CrossRowsAre(Spokes(a), Hubs(a), |Spokes(a)|);
    assert Spokes(a)[..|Spokes(a)|] == Spokes(a);
    FullFromMembers(Hubs(a));
  }

  lemma RotaFromMembers(a: seq<Candidate>, rota: Rota)
    requires RotaFor(rota, |a|)
    ensures forall p :: p in RotaRows(a, rota) ==> p.sender in a && p.reflector in a
  {
    forall p | p in RotaRows(a, rota) ensures p.sender in a && p.reflector in a {
      var i, j := RotaPair(a, rota, p);
    }
  }

  /** What becomes of each wanted pair: it keeps its direction whenever it can, is
      turned round when only that works, and otherwise is reported excluded. */
  lemma EveryWantedPairIsSettled(plan: MeshPlan, fanout: int, agents: seq<Candidate>, cycle: int, w: Pairing)
    requires plan.Partial? ==> cycle >= 0
    requires IdsDistinct(agents) && |Members(agents)| >= 2
    requires w in Wanted(plan, fanout, Members(agents), cycle)
    ensures var pl := PlanFor(plan, fanout, agents, cycle);
      && (Orientable(w.sender, w.reflector) ==> w in pl.pairings)
      && (!Orientable(w.sender, w.reflector) && Orientable(w.reflector, w.sender) ==> w.Flipped() in pl.pairings)
      && (!Placeable(w) ==> Refusal(w) in pl.excluded)
  {
    var a := Members(agents);
    var wanted := Wanted(plan, fanout, a, cycle);
    MembersAre(agents);
    WantedBetween(plan, fanout, a, cycle);
    RefusalsAre(wanted);
    if Placeable(w) {
      PlaceableSurvives(a, wanted, w);
    }
  }

  lemma PlaceableSurvives(a: seq<Candidate>, wanted: seq<Pairing>, w: Pairing)
    requires IdsDistinct(a) && AllBetween(wanted, a) && w in wanted && Placeable(w)
    ensures Oriented(w) in Deduped(OrientAll(wanted))
  {
    OrientAllAre(wanted);
    DedupedIs(OrientAll(wanted));
    var d, o := Deduped(OrientAll(wanted)), Oriented(w);
    assert Between(w, a);
    assert o in OrientAll(wanted) && o.sender.agentId != o.reflector.agentId;
    assert o.Key() in Keys(d);
    var p :| p in d && p.Key() == o.Key();
    var v :| v in wanted && Placeable(v) && p == Oriented(v);
    assert Between(v, a);
    SameIdSameAgent(a, p.sender, o.sender);
    SameIdSameAgent(a, p.reflector, o.reflector);
  }

  /** Exactly which directed pairs a plan measures: those wanted that can be run as
      they are, and those wanted the other way round that can only be run like this. */
  lemma PlannedExactly(plan: MeshPlan, fanout: int, agents: seq<Candidate>, cycle: int, s: Candidate, r: Candidate)
    requires plan.Partial? ==> cycle >= 0
    requires IdsDistinct(agents) && |Members(agents)| >= 2
    ensures var wanted := Wanted(plan, fanout, Members(agents), cycle);
      Pairing(s, r) in PlanFor(plan, fanout, agents, cycle).pairings <==>
        Orientable(s, r) && (Pairing(s, r) in wanted || (Pairing(r, s) in wanted && !Orientable(r, s)))
  {
    var a, p := Members(agents), Pairing(s, r);
    var wanted := Wanted(plan, fanout, a, cycle);
    MembersAre(agents);
    WantedBetween(plan, fanout, a, cycle);
    if p in Deduped(OrientAll(wanted)) {
      DedupedIs(OrientAll(wanted));
      OrientAllAre(wanted);
      var w :| w in wanted && Placeable(w) && p == Oriented(w);
      assert w == p || w == p.Flipped();
    }
    if Orientable(s, r) && p in wanted {
      PlaceableSurvives(a, wanted, p);
    } else if Orientable(s, r) && p.Flipped() in wanted && !Orientable(r, s) {
      PlaceableSurvives(a, wanted, p.Flipped());
    }
  }

  /** In a ring an agent probes the next, or the previous one where that one could
      not do the probing itself. */
  lemma RingMeasuresNeighbours(fanout: int, agents: seq<Candidate>, cycle: int, x: nat, y: nat)
    requires IdsDistinct(agents) && |Members(agents)| >= 2 && x < |Members(agents)| && y < |Members(agents)|
    ensures var a := Members(agents);
      Pairing(a[x], a[y]) in PlanFor(Ring, fanout, agents, cycle).pairings <==>
        Orientable(a[x], a[y]) &&
        (y == (x + 1) % |a| || (x == (y + 1) % |a| && !Orientable(a[y], a[x])))
  {
    var a := Members(agents);
    MembersAre(agents);
    PlannedExactly(Ring, fanout, agents, cycle, a[x], a[y]);
    RingHas(a, x, y);
    RingHas(a, y, x);
  }

  lemma RingHas(a: seq<Candidate>, x: nat, y: nat)
    requires IdsDistinct(a) && x < |a| && y < |a|
    ensures Pairing(a[x], a[y]) in Rings(a) <==> y == (x + 1) % |a|
  {
    assert Rings(a)[x] == Pairing(a[x], a[(x + 1) % |a|]);
    if Pairing(a[x], a[y]) in Rings(a) {
      var i :| 0 <= i < |a| && Rings(a)[i] == Pairing(a[x], a[y]);
      SamePosition(a, x, i);
      SamePosition(a, y, (i + 1) % |a|);
    }
  }

  lemma SamePosition(a: seq<Candidate>, i: nat, j: nat)
    requires IdsDistinct(a) && i < |a| && j < |a| && a[i] == a[j]
    ensures i == j
  {
  }

  /** With a hub among the members, what is measured is each spoke to each hub and
      each hub to each other, and a hub probes a spoke only where the spoke could
      not do the probing. */
  lemma HubPlanMeasuresHubs(fanout: int, agents: seq<Candidate>, cycle: int, x: Candidate, y: Candidate)
    requires IdsDistinct(agents) && |Members(agents)| >= 2 && Hubs(Members(agents)) != []
    requires x in agents && y in agents && IsUsable(x) && IsUsable(y) && x != y
    ensures Pairing(x, y) in PlanFor(Hub, fanout, agents, cycle).pairings <==>
      Orientable(x, y) && (y.hub || (x.hub && !Orientable(y, x)))
  {
    var a := Members(agents);
    MembersAre(agents);
    PlannedExactly(Hub, fanout, agents, cycle, x, y);
    HubPlanHas(a, x, y);
    HubPlanHas(a, y, x);
  }

  lemma HubPlanHas(a: seq<Candidate>, x: Candidate, y: Candidate)
    requires x in a && y in a && x != y
    ensures Pairing(x, y) in CrossRows(Spokes(a), Hubs(a), |Spokes(a)|) + FullRows(Hubs(a), |Hubs(a)|) <==> y.hub
  {
    var spokes, hubs, p := Spokes(a), Hubs(a), Pairing(x, y);
    HubsAndSpokesAre(a);
    CrossRowsAre(spokes, hubs, |spokes|);
    assert spokes[..|spokes|] == spokes;
    FullRowsAre(hubs, |hubs|);
    if x.hub && y.hub {
      var i :| 0 <= i < |hubs| && hubs[i] == x;
      var j :| 0 <= j < |hubs| && hubs[j] == y;
      assert p == Pairing(hubs[i], hubs[j]);
    }
  }

  /** An exclusion names both agents, in the order wanted, and the reason given is the
      constraint that really binds. */
  lemma ExclusionNamesTheConstraint(w: Pairing)
    requires !Placeable(w)
    ensures Refusal(w).sender == w.sender.name && Refusal(w).reflector == w.reflector.name
    ensures var s, r, why := w.sender, w.reflector, Refusal(w).reason;
      && (why == BothReflectorOnly <==> s.reflectorOnly && r.reflectorOnly)
      && (why == BothBehindNat <==> !s.inboundReachable && !r.inboundReachable && !(s.reflectorOnly && r.reflectorOnly))
      && (why == SenderCannotSend <==> OnlyReacherMayNotSend(s, r) || OnlyReacherMayNotSend(r, s))
  {
  }

  /** `x` could reach `y` but may not originate; `y` may, but cannot reach `x`. */
  predicate OnlyReacherMayNotSend(x: Candidate, y: Candidate) {
    x.reflectorOnly && y.inboundReachable && !y.reflectorOnly && !x.inboundReachable
  }

  /** A full mesh leaves out no pair of agents that can be measured at all: `x` probes
      `y` exactly when both are online, speak the protocol and have an address, `x` may
      originate and `y` can be reached. */
  lemma FullMeshMeasuresEveryPair(fanout: int, agents: seq<Candidate>, cycle: int, x: Candidate, y: Candidate)
    requires IdsDistinct(agents) && x in agents && y in agents && x != y
    ensures Pairing(x, y) in PlanFor(Full, fanout, agents, cycle).pairings <==>
      && x.online && x.mqp && x.address != "" && y.online && y.mqp && y.address != ""
      && !x.reflectorOnly && y.inboundReachable
  {
    PlanIsSafe(Full, fanout, agents, cycle);
    if IsUsable(x) && IsUsable(y) {
      FullMeshHas(fanout, agents, cycle, x, y);
    }
  }

  lemma FullMeshHas(fanout: int, agents: seq<Candidate>, cycle: int, x: Candidate, y: Candidate)
    requires IdsDistinct(agents) && x in agents && y in agents && IsUsable(x) && IsUsable(y) && x != y
    ensures Orientable(x, y) ==> Pairing(x, y) in PlanFor(Full, fanout, agents, cycle).pairings
  {
    var a := Members(agents);
    MembersAre(agents);
    var i :| 0 <= i < |a| && a[i] == x;
    var j :| 0 <= j < |a| && a[j] == y;
    FullRowsAre(a, |a|);
    assert Pairing(a[i], a[j]) in Wanted(Full, fanout, a, cycle);
    EveryWantedPairIsSettled(Full, fanout, agents, cycle, Pairing(x, y));
  }

  /** The plan depends on which agents there are, not on the order they come in. */
  lemma OrderIsIrrelevant(plan: MeshPlan, fanout: int, agents: seq<Candidate>, others: seq<Candidate>, cycle: int)
    requires plan.Partial? ==> cycle >= 0
    requires NamesDistinct(agents) && multiset(agents) == multiset(others)
    ensures PlanFor(plan, fanout, agents, cycle) == PlanFor(plan, fanout, others, cycle)
  {
    ByNameOrders();
    forall x, y | x in agents && y in agents && ByName(x, y) && ByName(y, x) ensures x == y {
      NameLeqTotal(x.name, y.name);
      var i :| 0 <= i < |agents| && agents[i] == x;
      var j :| 0 <= j < |agents| && agents[j] == y;
    }
    SortForgetsOrder(agents, others, ByName);
  }

  // Load --------------------------------------------------------------------------------------------

  /** How many sessions of a plan an agent takes part in, at either end. */
  function Sessions(ps: seq<Pairing>, id: AgentId): nat {
    if ps == [] then 0 else Sessions(ps[..|ps| - 1], id) + if ps[|ps| - 1].Involves(id) then 1 else 0
  }

  lemma {:induction false} SessionsConcat(p: seq<Pairing>, q: seq<Pairing>, id: AgentId)
    ensures Sessions(p + q, id) == Sessions(p, id) + Sessions(q, id)
  {
    if q == [] {
      assert p + q == p;
    } else {
      assert (p + q)[..|p + q| - 1] == p + q[..|q| - 1];
      SessionsConcat(p, q[..|q| - 1], id);
    }
  }

  lemma SessionsOne(p: Pairing, id: AgentId)
    ensures Sessions([p], id) == if p.Involves(id) then 1 else 0
  {
    assert [p][..0] == [];
  }

  /** Turning pairs round and dropping duplicates never adds load. */
  lemma {:induction false} OrientingAddsNoLoad(ps: seq<Pairing>, id: AgentId)
    ensures Sessions(OrientAll(ps), id) <= Sessions(ps, id)
  {
    if ps != [] {
      var last := ps[|ps| - 1];
      OrientingAddsNoLoad(ps[..|ps| - 1], id);
      SessionsConcat(OrientAll(ps[..|ps| - 1]), if Placeable(last) then [Oriented(last)] else [], id);
      SessionsOne(Oriented(last), id);
    }
  }

  lemma {:induction false} DedupingAddsNoLoad(ps: seq<Pairing>, id: AgentId)
    ensures Sessions(Deduped(ps), id) <= Sessions(ps, id)
  {
    if ps != [] {
      var last := ps[|ps| - 1];
      DedupingAddsNoLoad(ps[..|ps| - 1], id);
      SessionsConcat(Deduped(ps[..|ps| - 1]), [last], id);
      SessionsOne(last, id);
    }
  }

  lemma {:induction false} RowLoad(a: seq<Candidate>, i: nat, row: seq<nat>, x: nat)
    requires IdsDistinct(a) && i < |a| && x < |a| && forall k :: 0 <= k < |row| ==> row[k] < |a|
    requires AllDifferent(row) && i !in row
    ensures Sessions(RotaRow(a, i, row), a[x].agentId) == if i == x then |row| else if x in row then 1 else 0
  {
    if row != [] {
      var n := |row| - 1;
      var j, id := row[n], a[x].agentId;
      assert row == row[..n] + [j];
      RowLoad(a, i, row[..n], x);
      SessionsConcat(RotaRow(a, i, row[..n]), [Pairing(a[i], a[j])], id);
      SessionsOne(Pairing(a[i], a[j]), id);
      assert Pairing(a[i], a[j]).Involves(id) <==> i == x || j == x;
      assert j !in row[..n];
    }
  }

  lemma {:induction false} RowsLoad(a: seq<Candidate>, rota: Rota, f: nat, x: nat)
    requires IdsDistinct(a) && RotaFor(rota, |a|) && x < |a|
    requires forall i :: 0 <= i < |rota| ==> |rota[i]| == f && AllDifferent(rota[i]) && i !in rota[i]
    ensures Sessions(RotaRows(a, rota), a[x].agentId) == (if x < |rota| then f else 0) + |Probers(rota, x)|
  {
    if rota != [] {
      var n := |rota| - 1;
      RowsLoad(a, rota[..n], f, x);
      RowLoad(a, n, rota[n], x);
      SessionsConcat(RotaRows(a, rota[..n]), RotaRow(a, n, rota[n]), a[x].agentId);
      ProbersStep(rota, x);
    } else {
      assert Probers(rota, x) == {};
    }
  }

  lemma ProbersStep(rota: Rota, x: nat)
    requires rota != []
    ensures |Probers(rota, x)| == |Probers(rota[..|rota| - 1], x)| + if x in rota[|rota| - 1] then 1 else 0
  {
    var n := |rota| - 1;
    var before := Probers(rota[..n], x);
    if x in rota[n] {
      assert Probers(rota, x) == before + {n};
    } else {
      assert Probers(rota, x) == before;
    }
  }

  /** The fanout a partial plan over `n` agents really runs at. */
  predicate IsFanout(f: nat, fanout: int, n: nat) {
    && (fanout < 1 ==> f == 1)
    && (1 <= fanout <= n - 1 ==> f == fanout)
    && (fanout >= 1 && fanout > n - 1 ==> f == n - 1)
  }

  lemma ClampedIs(f: nat, fanout: int, n: nat)
    requires n >= 2
    ensures IsFanout(f, fanout, n) <==> f == Clamped(fanout, n)
  {
  }

  lemma RotaLoad(a: seq<Candidate>, f: nat, cycle: nat, x: nat)
    requires IdsDistinct(a) && |a| >= 2 && 1 <= f <= |a| - 1 && x < |a|
    ensures Sessions(RotaRows(a, RotaOf(|a|, f, cycle)), a[x].agentId) == 2 * f
  {
    PartialIsRegular(|a|, f, cycle);
    RowsLoad(a, RotaOf(|a|, f, cycle), f, x);
  }

  /** In each cycle of the partial plan an agent is wanted in exactly 2f sessions, f
      at each end; turning pairs round moves sessions from one end to the other but
      never past that total. */
  lemma PartialLoad(fanout: int, agents: seq<Candidate>, cycle: nat, x: nat)
    requires IdsDistinct(agents) && |Members(agents)| >= 2 && x < |Members(agents)|
    ensures var a := Members(agents);
      var wanted := Sessions(Wanted(Partial, fanout, a, cycle), a[x].agentId);
      && (fanout < 1 ==> wanted == 2)
      && (1 <= fanout <= |a| - 1 ==> wanted == 2 * fanout)
      && (fanout >= |a| - 1 && fanout >= 1 ==> wanted == 2 * (|a| - 1))
      && Sessions(PlanFor(Partial, fanout, agents, cycle).pairings, a[x].agentId) <= wanted
  {
    var a := Members(agents);
    var id, wanted := a[x].agentId, Wanted(Partial, fanout, a, cycle);
    MembersAre(agents);
    RotaLoad(a, Clamped(fanout, |a|), cycle, x);
    OrientingAddsNoLoad(wanted, id);
    DedupingAddsNoLoad(OrientAll(wanted), id);
  }

  /** How many sessions of a plan an agent sends: what its fanout is meant to bound. */
  function Sends(ps: seq<Pairing>, id: AgentId): nat {
    if ps == [] then 0 else Sends(ps[..|ps| - 1], id) + if ps[|ps| - 1].sender.agentId == id then 1 else 0
  }

  function Targets(ps: seq<Pairing>, a: seq<Candidate>, x: nat): set<nat>
    requires x < |a|
  {
    set y | 0 <= y < |a| && Pairing(a[x], a[y]) in ps
  }

  /** Without repeats, an agent sends once to each of its targets. */
  lemma {:induction false} SendsAreTargets(ps: seq<Pairing>, a: seq<Candidate>, x: nat)
    requires IdsDistinct(a) && x < |a| && NoRepeats(ps) && AllBetween(ps, a)
    ensures Sends(ps, a[x].agentId) == |Targets(ps, a, x)|
  {
    if ps == [] {
      assert Targets(ps, a, x) == {};
    } else {
      var init, last := ps[..|ps| - 1], ps[|ps| - 1];
      assert ps == init + [last];
      SendsAreTargets(init, a, x);
      assert Between(last, a);
      if last.sender.agentId == a[x].agentId {
        SameIdSameAgent(a, last.sender, a[x]);
        var y :| 0 <= y < |a| && a[y] == last.reflector;
        NewTarget(init, last, a, x, y);
      } else {
        assert Targets(ps, a, x) == Targets(init, a, x);
      }
    }
  }

  lemma NewTarget(init: seq<Pairing>, last: Pairing, a: seq<Candidate>, x: nat, y: nat)
    requires IdsDistinct(a) && x < |a| && y < |a| && last == Pairing(a[x], a[y]) && NoRepeats(init + [last])
    ensures |Targets(init + [last], a, x)| == |Targets(init, a, x)| + 1
  {
    var ps := init + [last];
    forall k | 0 <= k < |init| ensures init[k] != last {
      assert ps[k].Key() != ps[|init|].Key();
    }
    forall z | 0 <= z < |a| && a[z] == a[y] ensures z == y {
      SamePosition(a, z, y);
    }
    assert Targets(ps, a, x) == Targets(init, a, x) + {y};
  }

  /** Exactly whom agent `x` probes in a cycle of the partial plan: the peers of its
      own it can probe, and those due to probe it that cannot. */
  lemma PartialPlanIs(fanout: int, f: nat, agents: seq<Candidate>, cycle: nat, x: nat, y: nat)
    requires IdsDistinct(agents) && |Members(agents)| >= 2 && x < |Members(agents)| && y < |Members(agents)|
    requires IsFanout(f, fanout, |Members(agents)|)
    ensures var a := Members(agents);
      var rota := RotaOf(|a|, f, cycle);
      Pairing(a[x], a[y]) in PlanFor(Partial, fanout, agents, cycle).pairings <==>
        Orientable(a[x], a[y]) && (y in rota[x] || (x in rota[y] && !Orientable(a[y], a[x])))
  {
    var a := Members(agents);
    var rota := RotaOf(|a|, f, cycle);
    ClampedIs(f, fanout, |a|);
    MembersAre(agents);
    PlannedExactly(Partial, fanout, agents, cycle, a[x], a[y]);
    RotaHasExactly(a, rota, x, y);
    RotaHasExactly(a, rota, y, x);
  }

  lemma RotaTargets(a: seq<Candidate>, f: nat, cycle: nat, x: nat)
    requires IdsDistinct(a) && |a| >= 2 && 1 <= f <= |a| - 1 && x < |a|
    ensures var targets := Targets(RotaRows(a, RotaOf(|a|, f, cycle)), a, x);
      && x !in targets && |targets| == f
      && (f == |a| - 1 ==> forall y :: 0 <= y < |a| && y != x ==> y in targets)
  {
    var rota := RotaOf(|a|, f, cycle);
    var targets := Targets(RotaRows(a, rota), a, x);
    PartialIsRegular(|a|, f, cycle);
    RowSet(rota[x], |a|);
    forall y | 0 <= y < |a| ensures y in targets <==> y in rota[x] {
      RotaHasExactly(a, rota, x, y);
    }
    assert targets == set y | 0 <= y < |a| && y in rota[x];
    if f == |a| - 1 {
      FillsUp(targets + {x}, |a|);
    }
  }

  /** At fanout f an agent wants to probe f different others in a cycle: one where less
      than one was asked for, and all of them where the fanout allows it. */
  lemma PartialWants(fanout: int, agents: seq<Candidate>, cycle: nat, x: nat)
    requires IdsDistinct(agents) && |Members(agents)| >= 2 && x < |Members(agents)|
    ensures var a := Members(agents);
      var targets := Targets(Wanted(Partial, fanout, a, cycle), a, x);
      && x !in targets
      && (fanout < 1 ==> |targets| == 1)
      && (1 <= fanout <= |a| - 1 ==> |targets| == fanout)
      && (fanout >= |a| - 1 && fanout >= 1 ==> forall y :: 0 <= y < |a| && y != x ==> y in targets)
  {
    MembersAre(agents);
    RotaTargets(Members(agents), Clamped(fanout, |Members(agents)|), cycle, x);
  }

  /** A set of numbers below `n` has at most `n` of them, and `n` exactly if it has all. */
  lemma {:induction false} FillsUp(t: set<nat>, n: nat)
    requires forall y :: y in t ==> y < n
    ensures |t| <= n
    ensures |t| == n <==> forall y :: 0 <= y < n ==> y in t
  {
    if n > 0 {
      var rest := t - {n - 1};
      FillsUp(rest, n - 1);
      assert |t| == |rest| + if n - 1 in t then 1 else 0 by {
        if n - 1 in t { assert t == rest + {n - 1}; } else { assert t == rest; }
      }
    } else {
      assert t == {};
    }
  }

  lemma RotaHasExactly(a: seq<Candidate>, rota: Rota, x: nat, y: nat)
    requires IdsDistinct(a) && RotaFor(rota, |a|) && x < |rota| && y < |a|
    ensures Pairing(a[x], a[y]) in RotaRows(a, rota) <==> y in rota[x]
  {
    if y in rota[x] {
      RotaHas(a, rota, x, y);
    }
    if Pairing(a[x], a[y]) in RotaRows(a, rota) {
      var i, j := RotaPair(a, rota, Pairing(a[x], a[y]));
      SamePosition(a, x, i);
      SamePosition(a, y, j);
    }
  }

  /** The peers of its own that `x` cannot probe. */
  function OutOfReach(a: seq<Candidate>, rota: Rota, x: nat): set<nat>
    requires x < |rota| <= |a|
  {
    set y | 0 <= y < |a| && y in rota[x] && !Orientable(a[x], a[y])
  }

  /** Those due to probe `x`, and no peers of its own, that leave the probing to it. */
  function TakenOver(a: seq<Candidate>, rota: Rota, x: nat): set<nat>
    requires x < |a| == |rota|
  {
    set y | 0 <= y < |a| && x in rota[y] && y !in rota[x] && Orientable(a[x], a[y]) && !Orientable(a[y], a[x])
  }

  lemma {:induction false} RowSet(row: seq<nat>, n: nat)
    requires AllDifferent(row) && forall k :: 0 <= k < |row| ==> row[k] < n
    ensures |set y | 0 <= y < n && y in row| == |row|
  {
    var all := set y | 0 <= y < n && y in row;
    if row == [] {
      assert all == {};
    } else {
      var init, last := row[..|row| - 1], row[|row| - 1];
      assert row == init + [last];
      RowSet(init, n);
      assert all == (set y | 0 <= y < n && y in init) + {last};
    }
  }

  /** What an agent really sends in a cycle: its fanout, less the peers it cannot
      probe, plus the sessions it takes over from agents that cannot probe it. So it
      stays within its fanout exactly when it takes over no more than it gives up. */
  lemma PartialSends(fanout: int, f: nat, agents: seq<Candidate>, cycle: nat, x: nat)
    requires IdsDistinct(agents) && |Members(agents)| >= 2 && x < |Members(agents)|
    requires IsFanout(f, fanout, |Members(agents)|)
    ensures var a := Members(agents);
      var rota := RotaOf(|a|, f, cycle);
      var sends := Sends(PlanFor(Partial, fanout, agents, cycle).pairings, a[x].agentId);
      && sends + |OutOfReach(a, rota, x)| == f + |TakenOver(a, rota, x)|
      && (sends <= f <==> |TakenOver(a, rota, x)| <= |OutOfReach(a, rota, x)|)
  {
    var a := Members(agents);
    var rota, ps := RotaOf(|a|, f, cycle), PlanFor(Partial, fanout, agents, cycle).pairings;
    ClampedIs(f, fanout, |a|);
    PartialPlanBetween(fanout, agents, cycle);
    SendsAreTargets(ps, a, x);
    forall y | 0 <= y < |a|
      ensures y in Targets(ps, a, x) <==>
        Orientable(a[x], a[y]) && (y in rota[x] || (x in rota[y] && !Orientable(a[y], a[x])))
    {
      PartialPlanIs(fanout, f, agents, cycle, x, y);
    }
    PartialIsRegular(|a|, f, cycle);
    RowSet(rota[x], |a|);
    TargetsBalance(a, rota, x, Targets(ps, a, x));
  }

  lemma PartialPlanBetween(fanout: int, agents: seq<Candidate>, cycle: nat)
    requires IdsDistinct(agents) && |Members(agents)| >= 2
    ensures IdsDistinct(Members(agents))
    ensures var ps := PlanFor(Partial, fanout, agents, cycle).pairings; NoRepeats(ps) && AllBetween(ps, Members(agents))
  {
    MembersAre(agents);
    PlanIsSafe(Partial, fanout, agents, cycle);
  }

  lemma TargetsBalance(a: seq<Candidate>, rota: Rota, x: nat, targets: set<nat>)
    requires x < |a| == |rota|
    requires forall y :: y in targets ==> y < |a|
    requires forall y :: 0 <= y < |a| ==> (y in targets <==>
      Orientable(a[x], a[y]) && (y in rota[x] || (x in rota[y] && !Orientable(a[y], a[x]))))
    ensures |targets| + |OutOfReach(a, rota, x)| == |set y | 0 <= y < |a| && y in rota[x]| + |TakenOver(a, rota, x)|
  {
    var own := set y | 0 <= y < |a| && y in rota[x];
    var lost, gained := OutOfReach(a, rota, x), TakenOver(a, rota, x);
    assert lost <= own && gained !! own;
    assert targets == (own - lost) + gained;
    assert |targets| == |own - lost| + |gained|;
  }

  /** Three agents at fanout one, the first behind NAT: it takes over the session of
      the one due to probe it, and sends twice. */
  lemma FanoutExceededByFlip(agents: seq<Candidate>)
    requires |agents| == 3 && IdsDistinct(agents)
    requires agents[0].name == "a" && agents[1].name == "b" && agents[2].name == "c"
    requires IsUsable(agents[0]) && IsUsable(agents[1]) && IsUsable(agents[2])
    requires !agents[0].inboundReachable && agents[1].inboundReachable && agents[2].inboundReachable
    requires !agents[0].reflectorOnly && !agents[1].reflectorOnly && !agents[2].reflectorOnly
    ensures Sends(PlanFor(Partial, 1, agents, 0).pairings, agents[0].agentId) == 2
  {
    ThreeMembers(agents[0], agents[1], agents[2]);
    assert agents == [agents[0], agents[1], agents[2]];
    ThreeRota();
    FirstTakesOverThird(agents, [[1], [2], [0]]);
    FirstSendsTwice(agents, [[1], [2], [0]]);
  }

  lemma FirstSendsTwice(all: seq<Candidate>, rota: Rota)
    requires |all| == 3 && Members(all) == all && IdsDistinct(all) && rota == RotaOf(3, 1, 0)
    requires |OutOfReach(all, rota, 0)| == 0 && |TakenOver(all, rota, 0)| == 1
    ensures Sends(PlanFor(Partial, 1, all, 0).pairings, all[0].agentId) == 2
  {
    PartialSends(1, 1, all, 0, 0);
  }

  lemma ThreeRota()
    ensures RotaOf(3, 1, 0) == [[1], [2], [0]]
  {
    NextOfThree(0);
    NextOfThree(1);
    NextOfThree(2);
  }

  lemma NextOfThree(i: nat)
    requires i < 3
    ensures RowOf(3, 1, 0, i) == [if i == 2 then 0 else i + 1]
  {
    PeerIs(3, 1, 0, i, 0);
  }

  lemma FirstTakesOverThird(all: seq<Candidate>, rota: Rota)
    requires |all| == 3 && rota == [[1], [2], [0]]
    requires Orientable(all[0], all[1]) && Orientable(all[0], all[2]) && !Orientable(all[2], all[0])
    ensures |OutOfReach(all, rota, 0)| == 0 && |TakenOver(all, rota, 0)| == 1
  {
    assert OutOfReach(all, rota, 0) == {};
    assert TakenOver(all, rota, 0) == {2};
  }

  lemma ThreeMembers(a: Candidate, b: Candidate, c: Candidate)
    requires a.name == "a" && b.name == "b" && c.name == "c"
    requires IsUsable(a) && IsUsable(b) && IsUsable(c)
    ensures Members([a, b, c]) == [a, b, c]
  {
    assert [a, b, c][..2] == [a, b] && [a, b][..1] == [a] && [a][..0] == [];
    assert SortBy([a], ByName) == [a];
    assert ByName(a, b) && ByName(b, c);
    assert SortBy([a, b], ByName) == [a, b];
    assert SortBy([a, b, c], ByName) == [a, b, c];
    assert Usable([a]) == [a];
    assert Usable([a, b]) == [a, b];
  }

  function Peers(row: seq<nat>): set<nat> {
    set y | y in row
  }

  lemma {:induction false} PeersSize(row: seq<nat>)
    ensures |Peers(row)| <= |row|
  {
    if row == [] {
      assert Peers(row) == {};
    } else {
      var init, last := row[..|row| - 1], row[|row| - 1];
      PeersSize(init);
      assert row == init + [last];
      assert Peers(row) == Peers(init) + {last};
    }
  }

  /** Whom agent `i` is given over `m` cycles. */
  function Covered(n: nat, f: nat, first: nat, m: nat, i: nat): set<nat>
    requires n >= 2 && i < n
  {
    if m == 0 then {} else Covered(n, f, first, m - 1, i) + Peers(RotaOf(n, f, first + m - 1)[i])
  }

  lemma {:induction false} CoveredSize(n: nat, f: nat, first: nat, m: nat, i: nat)
    requires n >= 2 && 1 <= f <= n - 1 && i < n
    ensures |Covered(n, f, first, m, i)| <= m * f && i !in Covered(n, f, first, m, i)
    ensures forall y :: y in Covered(n, f, first, m, i) ==> y < n
  {
    if m > 0 {
      CoveredSize(n, f, first, m - 1, i);
      RowIsFair(n, f, first + m - 1, i);
      PeersSize(RowOf(n, f, first + m - 1, i));
      Distribute(m, 1, f);
    }
  }

  lemma {:induction false} CoveredHas(n: nat, f: nat, first: nat, m: nat, i: nat, c: nat)
    requires n >= 2 && i < n && first <= c < first + m
    ensures Peers(RotaOf(n, f, c)[i]) <= Covered(n, f, first, m, i)
  {
    if c < first + m - 1 {
      CoveredHas(n, f, first, m - 1, i, c);
    }
  }

  /** No fewer cycles will do: while m cycles hold fewer than n - 1 peers, each agent has
      another it is not given in any of them. */
  lemma FewerCyclesMissAPair(n: nat, f: nat, first: nat, m: nat, i: nat) returns (j: nat)
    requires n >= 2 && 1 <= f <= n - 1 && i < n && m * f < n - 1
    ensures j < n && j != i && forall c :: first <= c < first + m ==> j !in RotaOf(n, f, c)[i]
  {
    var t := Covered(n, f, first, m, i) + {i};
    CoveredSize(n, f, first, m, i);
    FillsUp(t, n);
    j :| 0 <= j < n && j !in t;
    forall c | first <= c < first + m ensures j !in RotaOf(n, f, c)[i] {
      CoveredHas(n, f, first, m, i, c);
    }
  }

  lemma PartialWantsEveryPair(f: nat, a: seq<Candidate>, first: nat, x: Candidate, y: Candidate)
    returns (cycle: nat)
    requires x in a && y in a && x != y && |a| >= 2 && 1 <= f <= |a| - 1
    ensures first <= cycle < first + (|a| - 1 + f - 1) / f
    ensures Pairing(x, y) in RotaRows(a, RotaOf(|a|, f, cycle))
  {
    var i :| 0 <= i < |a| && a[i] == x;
    var j :| 0 <= j < |a| && a[j] == y;
    cycle := PartialCoversMesh(|a|, f, first, i, j);
    RotaHas(a, RotaOf(|a|, f, cycle), i, j);
  }

  /** Over any ceil((n - 1) / f) consecutive cycles the partial plan measures every pair
      of usable agents that can be measured at all. */
  lemma PartialMeasuresEveryPair(fanout: int, f: nat, agents: seq<Candidate>, first: nat, x: Candidate, y: Candidate)
    returns (cycle: nat)
    requires IdsDistinct(agents) && x in agents && y in agents && IsUsable(x) && IsUsable(y) && x != y
    requires |Members(agents)| >= 2 && IsFanout(f, fanout, |Members(agents)|)
    ensures first <= cycle < first + (|Members(agents)| - 1 + f - 1) / f
    ensures Pairing(x, y) in Wanted(Partial, fanout, Members(agents), cycle)
    ensures var pl := PlanFor(Partial, fanout, agents, cycle);
      && (Orientable(x, y) ==> Pairing(x, y) in pl.pairings)
      && (!Orientable(x, y) && Orientable(y, x) ==> Pairing(y, x) in pl.pairings)
      && (!Placeable(Pairing(x, y)) ==> Refusal(Pairing(x, y)) in pl.excluded)
  {
    cycle := EveryPairIsWanted(fanout, f, agents, first, x, y);
    EveryWantedPairIsSettled(Partial, fanout, agents, cycle, Pairing(x, y));
  }

  lemma EveryPairIsWanted(fanout: int, f: nat, agents: seq<Candidate>, first: nat, x: Candidate, y: Candidate)
    returns (cycle: nat)
    requires x in agents && y in agents && IsUsable(x) && IsUsable(y) && x != y
    requires |Members(agents)| >= 2 && IsFanout(f, fanout, |Members(agents)|)
    ensures first <= cycle < first + (|Members(agents)| - 1 + f - 1) / f
    ensures Pairing(x, y) in Wanted(Partial, fanout, Members(agents), cycle)
  {
    MembersAre(agents);
    ClampedIs(f, fanout, |Members(agents)|);
    cycle := PartialWantsEveryPair(f, Members(agents), first, x, y);
  }

  // Exclusions ------------------------------------------------------------------------------

  /** `e` reports agent `x` as unfit, for the first of three reasons that applies. */
  predicate ReportsUnfit(x: Candidate, e: Exclusion) {
    && e.sender == x.name && e.reflector == ""
    && (|| (e.reason == Offline && !x.online)
        || (e.reason == NoMqp && x.online && !x.mqp)
        || (e.reason == NoAddress && x.online && x.mqp && x.address == ""))
  }

  lemma {:induction false} UnusableAre(s: seq<Candidate>, e: Exclusion)
    ensures e in Unusable(s) <==> exists x :: x in s && ReportsUnfit(x, e)
  {
    if s != [] {
      var init, last := s[..|s| - 1], s[|s| - 1];
      assert s == init + [last];
      UnusableAre(init, e);
      if x :| x in init && ReportsUnfit(x, e) { assert x in s; }
      if ReportsUnfit(last, e) { assert last in s; }
    }
  }

  lemma UnfitExactly(agents: seq<Candidate>, e: Exclusion)
    ensures e in Unusable(SortBy(agents, ByName)) <==> exists x :: x in agents && ReportsUnfit(x, e)
  {
    ByNameOrders();
    SortByMembers(agents, ByName);
    UnusableAre(SortBy(agents, ByName), e);
  }

  lemma NoHubs(a: seq<Candidate>)
    ensures Hubs(a) == [] <==> forall x :: x in a ==> !x.hub
  {
    HubsAndSpokesAre(a);
    if Hubs(a) != [] {
      assert Hubs(a)[0] in Hubs(a);
    }
  }

  /** The plan measures less than it appears to only where it says so. What it reports:
      each unfit agent; a hub plan without hubs; and each wanted pair that cannot be run
      either way. */
  lemma ExcludedExactly(plan: MeshPlan, fanout: int, agents: seq<Candidate>, cycle: int, e: Exclusion)
    requires plan.Partial? ==> cycle >= 0
    requires |Members(agents)| >= 2
    ensures var a := Members(agents);
      e in PlanFor(plan, fanout, agents, cycle).excluded <==>
        || (exists x :: x in agents && ReportsUnfit(x, e))
        || (plan.Hub? && (forall x :: x in a ==> !x.hub) && e == Exclusion("", "", NoHub))
        || (exists w :: w in Wanted(plan, fanout, a, cycle) && !Placeable(w) && e == Refusal(w))
  {
    var a := Members(agents);
    var wanted := Wanted(plan, fanout, a, cycle);
    UnfitExactly(agents, e);
    NoHubs(a);
    RefusalsAre(wanted);
    var noted := if plan.Hub? && Hubs(a) == [] then [Exclusion("", "", NoHub)] else [];
    assert PlanFor(plan, fanout, agents, cycle).excluded
        == Unusable(SortBy(agents, ByName)) + noted + Refusals(wanted);
  }

  /** Fewer than two fit agents are not planned for; one left alone is reported. */
  lemma TooFewAgents(plan: MeshPlan, fanout: int, agents: seq<Candidate>, cycle: int, e: Exclusion)
    requires plan.Partial? ==> cycle >= 0
    requires |Members(agents)| < 2
    ensures var a, planned := Members(agents), PlanFor(plan, fanout, agents, cycle);
      && planned.pairings == []
      && (e in planned.excluded <==>
            || (exists x :: x in agents && ReportsUnfit(x, e))
            || (|a| == 1 && e == Exclusion(a[0].name, "", SingleAgent)))
  {
    UnfitExactly(agents, e);
  }

  /** A hub plan without hubs, and a plan the scheduler does not know, are planned as a
      ring. */
  lemma FallsBackToRing(plan: MeshPlan, fanout: int, agents: seq<Candidate>, cycle: int)
    requires plan.Unrecognised? || (plan.Hub? && forall x :: x in Members(agents) ==> !x.hub)
    ensures PlanFor(plan, fanout, agents, cycle).pairings == PlanFor(Ring, fanout, agents, cycle).pairings
  {
    var a := Members(agents);
    NoHubs(a);
    if |a| >= 2 {
      assert Wanted(plan, fanout, a, cycle) == Wanted(Ring, fanout, a, cycle);
    }
  }

  // Order ---------------------------------------------------------------------------------------

  /** Names compare character by character, a prefix before what it begins. */
  lemma {:induction false} NameOrder(a: string, b: string)
    ensures NameLeq(a, b) <==>
      exists k :: 0 <= k <= |a| && k <= |b| && a[..k] == b[..k] && (k == |a| || (k < |b| && a[k] < b[k]))
  {
    if a == [] {
      assert a[..0] == b[..0];
    } else if b == [] {
    } else if a[0] != b[0] {
      assert a[..0] == b[..0];
    } else {
      NameOrder(a[1..], b[1..]);
      if k :| 0 <= k <= |a| && k <= |b| && a[..k] == b[..k] && (k == |a| || (k < |b| && a[k] < b[k])) {
        assert a[1..][..k - 1] == a[..k][1..] && b[1..][..k - 1] == b[..k][1..];
      }
      var u, v := a[1..], b[1..];
      if k :| 0 <= k <= |u| && k <= |v| && u[..k] == v[..k] && (k == |u| || (k < |v| && u[k] < v[k])) {
        assert a[..k + 1] == [a[0]] + a[1..][..k] && b[..k + 1] == [b[0]] + b[1..][..k];
      }
    }
  }

  lemma {:induction false} UsableInOrder(s: seq<Candidate>)
    requires SortedBy(s, ByName)
    ensures SortedBy(Usable(s), ByName)
  {
    if s != [] {
      var init, last := s[..|s| - 1], s[|s| - 1];
      UsableInOrder(init);
      UsableAre(init);
      var u := Usable(init);
      forall k | 0 <= k < |u| ensures ByName(u[k], last) {
        assert u[k] in u && u[k] in init;
        var i :| 0 <= i < |init| && init[i] == u[k];
        assert ByName(s[i], s[|s| - 1]);
      }
      assert SortedBy(u + [last], ByName);
    }
  }

  /** The members are planned over in the order of their names. */
  lemma MembersInOrder(agents: seq<Candidate>, i: nat, j: nat)
    requires i < j < |Members(agents)|
    ensures NameLeq(Members(agents)[i].name, Members(agents)[j].name)
  {
    ByNameOrders();
    SortBySorts(agents, ByName);
    UsableInOrder(SortBy(agents, ByName));
    assert ByName(Members(agents)[i], Members(agents)[j]);
  }
}
