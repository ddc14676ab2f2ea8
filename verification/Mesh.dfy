/** Mesh planning: which agents of a group probe which in one cycle. */
module Mesh {
  import opened Sorting

  type AgentId = nat

  datatype Candidate = Candidate(
    agentId: AgentId,
    name: string,
    address: string,
    inboundReachable: bool,
    hub: bool,
    reflectorOnly: bool,
    online: bool,
    mqp: bool)

  datatype Pairing = Pairing(sender: Candidate, reflector: Candidate) {
    function Key(): (AgentId, AgentId) {
      (sender.agentId, reflector.agentId)
    }

    function Flipped(): Pairing {
      Pairing(reflector, sender)
    }

    predicate Involves(id: AgentId) {
      sender.agentId == id || reflector.agentId == id
    }
  }

  datatype Reason =
    | Offline
    | NoMqp
    | NoAddress
    | SingleAgent
    | NoHub
    | BothReflectorOnly
    | BothBehindNat
    | SenderCannotSend

  datatype Exclusion = Exclusion(sender: string, reflector: string, reason: Reason)

  datatype MeshPlan = Full | Ring | Hub | Partial | Unrecognised

  // Order by name ------------------------------------------------------------------------

  predicate NameLeq(a: string, b: string) {
    a == [] || (b != [] && (a[0] < b[0] || (a[0] == b[0] && NameLeq(a[1..], b[1..]))))
  }

  lemma {:induction false} NameLeqTotal(a: string, b: string)
    ensures NameLeq(a, b) || NameLeq(b, a)
    ensures NameLeq(a, b) && NameLeq(b, a) ==> a == b
  {
    if a != [] && b != [] && a[0] == b[0] {
      NameLeqTotal(a[1..], b[1..]);
      assert a == [a[0]] + a[1..] && b == [b[0]] + b[1..];
    }
  }

  lemma {:induction false} NameLeqTransitive(a: string, b: string, c: string)
    requires NameLeq(a, b) && NameLeq(b, c)
    ensures NameLeq(a, c)
  {
    if a != [] && a[0] == b[0] == c[0] {
      NameLeqTransitive(a[1..], b[1..], c[1..]);
    }
  }

  predicate ByName(a: Candidate, b: Candidate) {
    NameLeq(a.name, b.name)
  }

  lemma ByNameOrders()
    ensures Ordering(ByName)
  {
    forall x: Candidate, y: Candidate ensures ByName(x, y) || ByName(y, x) {
      NameLeqTotal(x.name, y.name);
    }
    forall x: Candidate, y: Candidate, z: Candidate | ByName(x, y) && ByName(y, z) ensures ByName(x, z) {
      NameLeqTransitive(x.name, y.name, z.name);
    }
  }

  ghost predicate NamesDistinct(s: seq<Candidate>) {
    forall i, j :: 0 <= i < j < |s| ==> s[i].name != s[j].name
  }

  // Candidate pairs ----------------------------------------------------------------------------

  /** The first `j` entries of row `i` of the full mesh. */
  function FullRow(a: seq<Candidate>, i: nat, j: nat): seq<Pairing>
    requires i < |a| && j <= |a|
  {
    if j == 0 then [] else FullRow(a, i, j - 1) + if j - 1 != i then [Pairing(a[i], a[j - 1])] else []
  }

  function FullRows(a: seq<Candidate>, i: nat): seq<Pairing>
    requires i <= |a|
  {
    if i == 0 then [] else FullRows(a, i - 1) + FullRow(a, i - 1, |a|)
  }

  /** Each agent and the next, wrapping. */
  function Rings(a: seq<Candidate>): seq<Pairing> {
    seq(|a|, i requires 0 <= i < |a| => Pairing(a[i], a[(i + 1) % |a|]))
  }

  function CrossRow(s: Candidate, hubs: seq<Candidate>, j: nat): seq<Pairing>
    requires j <= |hubs|
  {
    if j == 0 then [] else CrossRow(s, hubs, j - 1) + [Pairing(s, hubs[j - 1])]
  }

  function CrossRows(spokes: seq<Candidate>, hubs: seq<Candidate>, i: nat): seq<Pairing>
    requires i <= |spokes|
  {
    if i == 0 then [] else CrossRows(spokes, hubs, i - 1) + CrossRow(spokes[i - 1], hubs, |hubs|)
  }

  function Hubs(a: seq<Candidate>): seq<Candidate> {
    if a == [] then [] else Hubs(a[..|a| - 1]) + if a[|a| - 1].hub then [a[|a| - 1]] else []
  }

  function Spokes(a: seq<Candidate>): seq<Candidate> {
    if a == [] then [] else Spokes(a[..|a| - 1]) + if a[|a| - 1].hub then [] else [a[|a| - 1]]
  }

  /** Fanout clamped to what `n` agents allow. */
  function Clamped(fanout: int, n: nat): (f: nat)
    requires n >= 2
    ensures 1 <= f <= n - 1
  {
    if fanout < 1 then 1 else if fanout > n - 1 then n - 1 else fanout
  }

  /** Whom agent `i` of `n` probes k-th in a cycle at fanout `f`. */
  function Peer(n: nat, f: nat, cycle: nat, i: nat, k: nat): (j: nat)
    requires n >= 2
    ensures j < n
  {
    (i + 1 + (cycle * f + k) % (n - 1)) % n
  }

  /** Who probes whom in one cycle, as positions: row `i` lists the peers of `i`. */
  type Rota = seq<seq<nat>>

  predicate RotaFor(rota: Rota, n: nat) {
    |rota| <= n && forall i, k :: 0 <= i < |rota| && 0 <= k < |rota[i]| ==> rota[i][k] < n
  }

  function RowOf(n: nat, f: nat, cycle: nat, i: nat): (row: seq<nat>)
    requires n >= 2
    ensures |row| == f && forall k :: 0 <= k < f ==> row[k] == Peer(n, f, cycle, i, k)
  {
    seq(f, k requires 0 <= k < f => Peer(n, f, cycle, i, k))
  }

  function RotaOf(n: nat, f: nat, cycle: nat): (rota: Rota)
    requires n >= 2
    ensures |rota| == n && RotaFor(rota, n) && forall i :: 0 <= i < n ==> rota[i] == RowOf(n, f, cycle, i)
  {
    seq(n, i requires 0 <= i < n => RowOf(n, f, cycle, i))
  }

  function RotaRow(a: seq<Candidate>, i: nat, row: seq<nat>): seq<Pairing>
    requires i < |a| && forall k :: 0 <= k < |row| ==> row[k] < |a|
  {
    if row == [] then [] else RotaRow(a, i, row[..|row| - 1]) + [Pairing(a[i], a[row[|row| - 1]])]
  }

  function RotaRows(a: seq<Candidate>, rota: Rota): seq<Pairing>
    requires RotaFor(rota, |a|)
  {
    if rota == [] then [] else RotaRows(a, rota[..|rota| - 1]) + RotaRow(a, |rota| - 1, rota[|rota| - 1])
  }

  method FullMesh(a: seq<Candidate>) returns (out: seq<Pairing>)
    ensures out == FullRows(a, |a|)
  {
    out := [];
    for i := 0 to |a|
      invariant out == FullRows(a, i)
    {
      for j := 0 to |a|
        invariant out == FullRows(a, i) + FullRow(a, i, j)
      {
        if i != j {
          out := out + [Pairing(a[i], a[j])];
        }
      }
    }
  }

  method RingOf(a: seq<Candidate>) returns (out: seq<Pairing>)
    ensures |out| == |a|
    ensures forall i :: 0 <= i < |a| ==> out[i] == Pairing(a[i], a[(i + 1) % |a|])
  {
    out := [];
    for i := 0 to |a|
      invariant |out| == i
      invariant forall k :: 0 <= k < i ==> out[k] == Pairing(a[k], a[(k + 1) % |a|])
    {
      out := out + [Pairing(a[i], a[(i + 1) % |a|])];
    }
  }

  method HubAndSpoke(a: seq<Candidate>) returns (out: seq<Pairing>, noted: seq<Exclusion>)
    ensures out ==
      if Hubs(a) == [] then Rings(a)
      else CrossRows(Spokes(a), Hubs(a), |Spokes(a)|) + FullRows(Hubs(a), |Hubs(a)|)
    ensures noted == if Hubs(a) == [] then [Exclusion("", "", NoHub)] else []
  {
    var hubs: seq<Candidate>, spokes: seq<Candidate> := [], [];
    for i := 0 to |a|
      invariant hubs == Hubs(a[..i]) && spokes == Spokes(a[..i])
    {
      assert a[..i + 1][..i] == a[..i];
      if a[i].hub {
        hubs := hubs + [a[i]];
      } else {
        spokes := spokes + [a[i]];
      }
    }
    assert a[..|a|] == a;
    if hubs == [] {
      out := RingOf(a);
      assert out == Rings(a);
      return out, [Exclusion("", "", NoHub)];
    }
    out, noted := [], [];
    for i := 0 to |spokes|
      invariant out == CrossRows(spokes, hubs, i)
    {
      for j := 0 to |hubs|
        invariant out == CrossRows(spokes, hubs, i) + CrossRow(spokes[i], hubs, j)
      {
        out := out + [Pairing(spokes[i], hubs[j])];
      }
    }
    var between := FullMesh(hubs);
    out := out + between;
  }

  lemma RotaRowsStep(a: seq<Candidate>, rota: Rota, i: nat)
    requires RotaFor(rota, |a|) && i < |rota|
    ensures RotaRows(a, rota[..i + 1]) == RotaRows(a, rota[..i]) + RotaRow(a, i, rota[i])
  {
    assert rota[..i + 1][..i] == rota[..i];
  }

  method PartialMesh(a: seq<Candidate>, fanout: int, cycle: nat) returns (out: seq<Pairing>)
    requires |a| >= 2
    ensures out == RotaRows(a, RotaOf(|a|, Clamped(fanout, |a|), cycle))
  {
    var n := |a|;
    var f := fanout;
    if f < 1 {
      f := 1;
    }
    if f > n - 1 {
      f := n - 1;
    }
    out := RowsOf(a, f, cycle);
  }

  method RowsOf(a: seq<Candidate>, f: nat, cycle: nat) returns (out: seq<Pairing>)
    requires |a| >= 2
    ensures out == RotaRows(a, RotaOf(|a|, f, cycle))
  {
    ghost var rota := RotaOf(|a|, f, cycle);
    out := [];
    for i := 0 to |a|
      invariant out == RotaRows(a, rota[..i])
    {
      var row := PairsOf(a, f, cycle, i);
      RotaRowsStep(a, rota, i);
      out := out + row;
    }
    assert rota[..|a|] == rota;
  }

  method PairsOf(a: seq<Candidate>, f: nat, cycle: nat, i: nat) returns (out: seq<Pairing>)
    requires |a| >= 2 && i < |a|
    ensures out == RotaRow(a, i, RowOf(|a|, f, cycle, i))
  {
    var n := |a|;
    ghost var row := RowOf(n, f, cycle, i);
    out := [];
    for k := 0 to f
      invariant out == RotaRow(a, i, row[..k])
    {
      // Advancing by cycle * f walks the whole circle of peers over successive cycles.
      var offset := (cycle * f + k) % (n - 1);
      var j := (i + 1 + offset) % n;
      assert row[k] == j && row[..k + 1][..k] == row[..k];
      out := out + [Pairing(a[i], a[j])];
    }
    assert row[..f] == row;
  }

  // Orientation ----------------------------------------------------------------------------------

  predicate Orientable(from: Candidate, to: Candidate) {
    !from.reflectorOnly && to.inboundReachable
  }

  function OrientationFailure(a: Candidate, b: Candidate): Reason {
    if a.reflectorOnly && b.reflectorOnly then BothReflectorOnly
    else if !a.inboundReachable && !b.inboundReachable then BothBehindNat
    else SenderCannotSend
  }

  predicate Placeable(p: Pairing) {
    Orientable(p.sender, p.reflector) || Orientable(p.reflector, p.sender)
  }

  function Oriented(p: Pairing): Pairing {
    if Orientable(p.sender, p.reflector) then p else p.Flipped()
  }

  function OrientAll(ps: seq<Pairing>): seq<Pairing> {
    if ps == [] then
      []
    else
      var last := ps[|ps| - 1];
      OrientAll(ps[..|ps| - 1]) + if Placeable(last) then [Oriented(last)] else []
  }

  function Refusal(p: Pairing): Exclusion {
    Exclusion(p.sender.name, p.reflector.name, OrientationFailure(p.sender, p.reflector))
  }

  function Refusals(ps: seq<Pairing>): seq<Exclusion> {
    if ps == [] then [] else Refusals(ps[..|ps| - 1]) + if Placeable(ps[|ps| - 1]) then [] else [Refusal(ps[|ps| - 1])]
  }

  function Keys(ps: seq<Pairing>): set<(AgentId, AgentId)> {
    set p | p in ps :: p.Key()
  }

  function Deduped(ps: seq<Pairing>): seq<Pairing> {
    if ps == [] then
      []
    else
      var d, p := Deduped(ps[..|ps| - 1]), ps[|ps| - 1];
      if p.Key() in Keys(d) || p.sender.agentId == p.reflector.agentId then d else d + [p]
  }

  method Dedupe(ps: seq<Pairing>) returns (out: seq<Pairing>)
    ensures out == Deduped(ps)
  {
    var seen := {};
    out := [];
    for i := 0 to |ps|
      invariant out == Deduped(ps[..i]) && seen == Keys(out)
    {
      assert ps[..i + 1][..i] == ps[..i];
      var p := ps[i];
      if p.Key() in seen {
        continue;
      }
      if p.sender.agentId == p.reflector.agentId {
        continue;
      }
      assert Keys(out + [p]) == Keys(out) + {p.Key()};
      seen := seen + {p.Key()};
      out := out + [p];
    }
    assert ps[..|ps|] == ps;
  }

  // The plan for one cycle -----------------------------------------------------------------------

  predicate IsUsable(a: Candidate) {
    a.online && a.mqp && a.address != ""
  }

  function Usable(s: seq<Candidate>): seq<Candidate> {
    if s == [] then [] else Usable(s[..|s| - 1]) + if IsUsable(s[|s| - 1]) then [s[|s| - 1]] else []
  }

  function Unusable(s: seq<Candidate>): seq<Exclusion> {
    if s == [] then
      []
    else
      var a := s[|s| - 1];
      Unusable(s[..|s| - 1]) +
        if !a.online then [Exclusion(a.name, "", Offline)]
        else if !a.mqp then [Exclusion(a.name, "", NoMqp)]
        else if a.address == "" then [Exclusion(a.name, "", NoAddress)]
        else []
  }

  /** Only the partial plan looks at the cycle number. */
  function Wanted(plan: MeshPlan, fanout: int, a: seq<Candidate>, cycle: int): seq<Pairing>
    requires |a| >= 2 && (plan.Partial? ==> cycle >= 0)
  {
    match plan
    case Full => FullRows(a, |a|)
    case Hub =>
      if Hubs(a) == [] then Rings(a)
      else CrossRows(Spokes(a), Hubs(a), |Spokes(a)|) + FullRows(Hubs(a), |Hubs(a)|)
    case Partial => RotaRows(a, RotaOf(|a|, Clamped(fanout, |a|), cycle))
    case Ring => Rings(a)
    case Unrecognised => Rings(a)
  }

  datatype Planned = Planned(pairings: seq<Pairing>, excluded: seq<Exclusion>)

  function PlanFor(plan: MeshPlan, fanout: int, agents: seq<Candidate>, cycle: int): Planned
    requires plan.Partial? ==> cycle >= 0
  {
    var sorted := SortBy(agents, ByName);
    var a, out := Usable(sorted), Unusable(sorted);
    if |a| < 2 then
      Planned([], if |a| == 1 then out + [Exclusion(a[0].name, "", SingleAgent)] else out)
    else
      var wanted := Wanted(plan, fanout, a, cycle);
      var noted := if plan.Hub? && Hubs(a) == [] then [Exclusion("", "", NoHub)] else [];
      Planned(Deduped(OrientAll(wanted)), out + noted + Refusals(wanted))
  }

  method FindUsable(sorted: seq<Candidate>) returns (usable: seq<Candidate>, excluded: seq<Exclusion>)
    ensures usable == Usable(sorted) && excluded == Unusable(sorted)
  {
    usable, excluded := [], [];
    for i := 0 to |sorted|
      invariant usable == Usable(sorted[..i]) && excluded == Unusable(sorted[..i])
    {
      assert sorted[..i + 1][..i] == sorted[..i];
      var a := sorted[i];
      if !a.online {
        excluded := excluded + [Exclusion(a.name, "", Offline)];
      } else if !a.mqp {
        excluded := excluded + [Exclusion(a.name, "", NoMqp)];
      } else if a.address == "" {
        excluded := excluded + [Exclusion(a.name, "", NoAddress)];
      } else {
        usable := usable + [a];
      }
    }
    assert sorted[..|sorted|] == sorted;
  }

  method Orient(wanted: seq<Pairing>) returns (kept: seq<Pairing>, excluded: seq<Exclusion>)
    ensures kept == OrientAll(wanted) && excluded == Refusals(wanted)
  {
    kept, excluded := [], [];
    for i := 0 to |wanted|
      invariant kept == OrientAll(wanted[..i]) && excluded == Refusals(wanted[..i])
    {
      assert wanted[..i + 1][..i] == wanted[..i];
      var p := wanted[i];
      if Orientable(p.sender, p.reflector) {
        kept := kept + [p];
      } else if Orientable(p.reflector, p.sender) {
        kept := kept + [Pairing(p.reflector, p.sender)];
      } else {
        excluded := excluded + [Exclusion(p.sender.name, p.reflector.name, OrientationFailure(p.sender, p.reflector))];
      }
    }
    assert wanted[..|wanted|] == wanted;
  }

  /** The candidate pairs of a plan, and what is to be noted about it. */
  method WantedPairs(plan: MeshPlan, fanout: int, usable: seq<Candidate>, cycle: int)
    returns (wanted: seq<Pairing>, noted: seq<Exclusion>)
    requires |usable| >= 2 && (plan.Partial? ==> cycle >= 0)
    ensures wanted == Wanted(plan, fanout, usable, cycle)
    ensures noted == if plan.Hub? && Hubs(usable) == [] then [Exclusion("", "", NoHub)] else []
  {
    noted := [];
    match plan {
      case Full => wanted := FullMesh(usable);
      case Hub => wanted, noted := HubAndSpoke(usable);
      case Partial => wanted := PartialMesh(usable, fanout, cycle);
      case Ring =>
        wanted := RingOf(usable);
        assert wanted == Rings(usable);
      case Unrecognised =>
        wanted := RingOf(usable);
        assert wanted == Rings(usable);
    }
  }

  method PlanMesh(plan: MeshPlan, fanout: int, agents: seq<Candidate>, cycle: int)
    returns (pairings: seq<Pairing>, excluded: seq<Exclusion>)
    requires plan.Partial? ==> cycle >= 0
    ensures Planned(pairings, excluded) == PlanFor(plan, fanout, agents, cycle)
  {
    var usable;
    usable, excluded := FindUsable(SortBy(agents, ByName));
    if |usable| < 2 {
      if |usable| == 1 {
        excluded := excluded + [Exclusion(usable[0].name, "", SingleAgent)];
      }
      return [], excluded;
    }
    var wanted, noted := WantedPairs(plan, fanout, usable, cycle);
    var kept, refused := Orient(wanted);
    excluded := excluded + noted + refused;
    pairings := Dedupe(kept);
  }
}
