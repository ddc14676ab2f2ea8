/** What the plan guarantees over whole runs of leasing, reaping, firing and
    withdrawal, in any interleaving. */
module PlanRuns {
  import opened Wrappers
  import opened TaskPlan
  import opened Subsequences
  import opened Arithmetic
  import opened SetSizes

  /** One operation on the plan, with the reading of the clock it was given. `pick`
      is the due recurring task `next_due` settles on. */
  datatype Event =
    | Lease(now: nat, task: Task, expiresIn: Option<nat>)
    | Reap(now: nat)
    | Next(now: nat, pick: string)
    | Withdraw(now: nat, id: string)
    | Reconcile(now: nat, keep: seq<string>)

  ghost predicate Legal(p: PlanState, e: Event) {
    e.Next? ==> LegalPick(p, e.now, e.pick)
  }

  function After(p: PlanState, e: Event): PlanState {
    match e
    case Lease(now, task, expiresIn) => Accepted(p, task, expiresIn, now)
    case Reap(now) => Reaped(p, now)
    case Next(now, pick) => Advanced(p, now, pick)
    case Withdraw(_, id) => Withdrawn(p, id)
    case Reconcile(_, keep) => Reconciled(p, keep)
  }

  function Run(p: PlanState, events: seq<Event>): PlanState {
    if events == [] then p else After(Run(p, events[..|events| - 1]), events[|events| - 1])
  }

  ghost predicate LegalRun(p: PlanState, events: seq<Event>) {
    events == [] || (LegalRun(p, events[..|events| - 1]) && Legal(Run(p, events[..|events| - 1]), events[|events| - 1]))
  }

  /** `e` hands the recurring task `id` to the runner. */
  predicate Fires(p: PlanState, e: Event, id: string) {
    e.Next? && p.oneshot == [] && e.pick == id && p.IsDue(id, e.now)
  }

  function FireCount(p: PlanState, events: seq<Event>, id: string): (n: nat)
    ensures n <= |events|
  {
    if events == [] then
      0
    else
      var before := events[..|events| - 1];
      FireCount(p, before, id) + if Fires(Run(p, before), events[|events| - 1], id) then 1 else 0
  }

  /** `interval` is the task's own, or where it has none the plan's. */
  predicate RunsAt(q: PlanState, id: string, interval: nat) {
    id in q.recurring &&
    var own := q.recurring[id].task.interval;
    interval == if own.Some? then own.value else q.defaultInterval
  }

  /** `id` stays in the plan, at interval `interval`, before and after every event. */
  ghost predicate KeptAt(p: PlanState, events: seq<Event>, id: string, interval: nat) {
    && (events == [] || KeptAt(p, events[..|events| - 1], id, interval))
    && RunsAt(Run(p, events), id, interval)
  }

  lemma OnlyFiringMovesDue(p: PlanState, e: Event, id: string)
    requires id in p.recurring && id in After(p, e).recurring && Legal(p, e)
    ensures After(p, e).recurring[id].dueAt ==
      if Fires(p, e, id) then NextDueAt(p.recurring[id].dueAt, p.Interval(id), e.now) else p.recurring[id].dueAt
  {
  }

  // Cadence ---------------------------------------------------------------------------------

  /** No firing of `id` comes more than `interval` after its due time. */
  ghost predicate NeverMissed(p: PlanState, events: seq<Event>, id: string, interval: nat) {
    events == [] ||
      (var before, e := events[..|events| - 1], events[|events| - 1];
       var q := Run(p, before);
       NeverMissed(p, before, id, interval) && (Fires(q, e, id) ==> e.now - q.recurring[id].dueAt <= interval))
  }

  lemma GridStep(start: nat, due: nat, n: nat, interval: nat, now: nat)
    requires due <= now && due >= start + n * interval
    ensures var next := NextDueAt(due, interval, now);
      && next >= start + (n + 1) * interval
      && (next == start + (n + 1) * interval <==> due == start + n * interval && now - due <= interval)
  {
    assert (n + 1) * interval == n * interval + interval;
  }

  /** The cadence never runs ahead of the grid it started on, and stays on it, the
      k-th due time being the first plus k intervals, exactly as long as no firing
      is more than one interval late. */
  lemma {:induction false} NoDrift(p: PlanState, events: seq<Event>, id: string, interval: nat)
    requires LegalRun(p, events) && KeptAt(p, events, id, interval)
    ensures id in p.recurring
    ensures var grid := p.recurring[id].dueAt + FireCount(p, events, id) * interval;
      && Run(p, events).recurring[id].dueAt >= grid
      && (Run(p, events).recurring[id].dueAt == grid <==> NeverMissed(p, events, id, interval))
  {
    if events != [] {
      var before, e := events[..|events| - 1], events[|events| - 1];
      NoDrift(p, before, id, interval);
      var q, n := Run(p, before), FireCount(p, before, id);
      OnlyFiringMovesDue(q, e, id);
      if Fires(q, e, id) {
        GridStep(p.recurring[id].dueAt, q.recurring[id].dueAt, n, interval, e.now);
      }
    }
  }

  ghost predicate Within(events: seq<Event>, from: nat, window: nat) {
    forall i :: 0 <= i < |events| ==> from <= events[i].now <= from + window
  }

  /** What `n` firings inside a window starting at `from` leave as the due time. */
  ghost predicate Spread(n: nat, due: nat, interval: nat, from: nat, window: nat) {
    && (n >= 1 ==> due >= from + (n - 1) * interval)
    && (n >= 2 ==> (n - 2) * interval <= window)
  }

  lemma SpreadStep(n: nat, due: nat, interval: nat, from: nat, window: nat, now: nat)
    requires Spread(n, due, interval, from, window) && due <= now && from <= now <= from + window
    ensures Spread(n + 1, NextDueAt(due, interval, now), interval, from, window)
  {
    if n >= 1 {
      assert n * interval == (n - 1) * interval + interval;
    }
  }

  /** From the second firing on, each one is pushed a whole interval further from
      the start of the window. */
  lemma {:induction false} FiringsSpread(p: PlanState, events: seq<Event>, id: string,
      interval: nat, from: nat, window: nat)
    requires LegalRun(p, events) && KeptAt(p, events, id, interval) && Within(events, from, window)
    ensures Spread(FireCount(p, events, id), Run(p, events).recurring[id].dueAt, interval, from, window)
  {
    if events != [] {
      var before, e := events[..|events| - 1], events[|events| - 1];
      FiringsSpread(p, before, id, interval, from, window);
      var q := Run(p, before);
      OnlyFiringMovesDue(q, e, id);
      if Fires(q, e, id) {
        SpreadStep(FireCount(p, before, id), q.recurring[id].dueAt, interval, from, window, e.now);
      }
    }
  }

  /** In any stretch of time of length `window`, starting from any state however
      stale, a task fires at most floor(window / interval) + 2 times. */
  lemma NoBursts(p: PlanState, events: seq<Event>, id: string, interval: nat, from: nat, window: nat)
    requires LegalRun(p, events) && KeptAt(p, events, id, interval) && interval > 0
    requires Within(events, from, window)
    ensures FireCount(p, events, id) <= window / interval + 2
  {
    FiringsSpread(p, events, id, interval, from, window);
    SpreadBound(FireCount(p, events, id), Run(p, events).recurring[id].dueAt, interval, from, window);
  }

  lemma SpreadBound(n: nat, due: nat, interval: nat, from: nat, window: nat)
    requires Spread(n, due, interval, from, window) && interval > 0
    ensures n <= window / interval + 2
  {
    if n >= 2 {
      QuotientBounds(n - 2, interval, window);
    }
  }

  // Starvation: readings past the due time ------------------------------------------------

  /** The other recurring tasks due no later than `id`. */
  function Ahead(p: PlanState, id: string): set<string>
    requires id in p.recurring
  {
    set k | k in p.recurring && k != id && p.recurring[k].dueAt <= p.recurring[id].dueAt
  }

  /** A call, with no one-shot waiting, at a reading past `due`. */
  predicate IsLateTurn(q: PlanState, e: Event, due: nat) {
    e.Next? && q.oneshot == [] && due < e.now
  }

  function LateTurns(p: PlanState, events: seq<Event>, due: nat): nat {
    if events == [] then
      0
    else
      var before, e := events[..|events| - 1], events[|events| - 1];
      LateTurns(p, before, due) + if IsLateTurn(Run(p, before), e, due) then 1 else 0
  }

  /** A recurring task joins the plan, due no later than `due`. */
  predicate Joins(q: PlanState, e: Event, due: nat) {
    e.Lease? && e.task.recurring && e.task.taskId !in q.recurring && e.now <= due
  }

  function Newcomers(p: PlanState, events: seq<Event>, due: nat): nat {
    if events == [] then
      0
    else
      var before, e := events[..|events| - 1], events[|events| - 1];
      Newcomers(p, before, due) + if Joins(Run(p, before), e, due) then 1 else 0
  }

  /** `id` stays in the plan before and after every event. */
  ghost predicate Kept(p: PlanState, events: seq<Event>, id: string) {
    && (events == [] || Kept(p, events[..|events| - 1], id))
    && id in Run(p, events).recurring
  }

  /** A late turn that passes `id` over takes a task out from ahead of it for good,
      whatever its interval. */
  lemma LateTurnPassesOne(q: PlanState, e: Event, id: string)
    requires id in q.recurring && Legal(q, e) && !Fires(q, e, id)
    requires IsLateTurn(q, e, q.recurring[id].dueAt)
    ensures e.pick in Ahead(q, id) && Ahead(After(q, e), id) == Ahead(q, id) - {e.pick}
  {
    assert q.IsDue(id, e.now) && q.AnyDue(e.now);
    assert q.Picks(e.pick, e.now);
    assert After(q, e).recurring[e.pick].dueAt >= e.now;
  }

  lemma OthersStayBehind(q: PlanState, e: Event, id: string)
    requires id in q.recurring && id in After(q, e).recurring && Legal(q, e) && !Fires(q, e, id)
    ensures var due := q.recurring[id].dueAt;
      && After(q, e).recurring[id].dueAt == due
      && |Ahead(After(q, e), id)| + (if IsLateTurn(q, e, due) then 1 else 0)
           <= |Ahead(q, id)| + (if Joins(q, e, due) then 1 else 0)
  {
    var due, r := q.recurring[id].dueAt, After(q, e);
    OnlyFiringMovesDue(q, e, id);
    if IsLateTurn(q, e, due) {
      LateTurnPassesOne(q, e, id);
    } else {
      var most := Ahead(q, id) + if Joins(q, e, due) then {e.task.taskId} else {};
      forall k | k in Ahead(r, id) ensures k in most {
        if k in q.recurring { OnlyFiringMovesDue(q, e, k); }
      }
      SubsetSize(Ahead(r, id), most);
    }
  }

  lemma {:induction false} WaitingTurns(p: PlanState, events: seq<Event>, id: string)
    requires LegalRun(p, events) && Kept(p, events, id) && FireCount(p, events, id) == 0
    ensures id in p.recurring
    ensures var q, due := Run(p, events), p.recurring[id].dueAt;
      && q.recurring[id].dueAt == due
      && LateTurns(p, events, due) + |Ahead(q, id)| <= |Ahead(p, id)| + Newcomers(p, events, due)
  {
    if events != [] {
      var before, e := events[..|events| - 1], events[|events| - 1];
      WaitingTurns(p, before, id);
      OthersStayBehind(Run(p, before), e, id);
    }
  }

  lemma AheadBound(p: PlanState, id: string)
    requires id in p.recurring
    ensures |Ahead(p, id)| <= |p.recurring| - 1
  {
    var others := p.recurring.Keys - {id};
    SubsetSize(Ahead(p, id), others);
    assert |others| == |p.recurring.Keys| - 1;
  }

  /** A task is never starved once the clock has passed its due time: with n
      recurring tasks it is handed out within n turns, whatever the intervals, zero
      included, whatever the ties, and through any other operations, counting one
      more turn for each task that joined ahead of it. */
  lemma NotStarved(p: PlanState, events: seq<Event>, id: string)
    requires LegalRun(p, events) && Kept(p, events, id) && id in p.recurring
    requires var due := p.recurring[id].dueAt; LateTurns(p, events, due) >= |p.recurring| + Newcomers(p, events, due)
    ensures FireCount(p, events, id) >= 1
  {
    if FireCount(p, events, id) == 0 {
      WaitingTurns(p, events, id);
      AheadBound(p, id);
    }
  }

  // Starvation: readings at the due time --------------------------------------------------

  function Early(p: PlanState, id: string): set<string>
    requires id in p.recurring
  {
    set k | k in p.recurring && k != id && p.recurring[k].dueAt < p.recurring[id].dueAt
  }

  function Tied(p: PlanState, id: string): set<string>
    requires id in p.recurring
  {
    set k | k in p.recurring && k != id && p.recurring[k].dueAt == p.recurring[id].dueAt
  }

  /** How many calls other tasks can still take before `id`. */
  function Rank(p: PlanState, id: string): nat
    requires id in p.recurring
  {
    2 * |Early(p, id)| + |Tied(p, id)|
  }

  lemma RankBound(p: PlanState, id: string)
    requires id in p.recurring
    ensures Rank(p, id) <= 2 * (|p.recurring| - 1)
  {
    var early, tied, others := Early(p, id), Tied(p, id), p.recurring.Keys - {id};
    assert early !! tied && early + tied <= others;
    SubsetSize(early + tied, others);
    assert |early + tied| == |early| + |tied|;
    assert |others| == |p.recurring.Keys| - 1;
  }

  /** Some other task due no later than `id` has a zero interval. */
  ghost predicate HasZeroNeighbour(p: PlanState, id: string)
    requires id in p.recurring
  {
    exists k :: k in Ahead(p, id) && RunsAt(p, k, 0)
  }

  /** While `id` waits, every other firing uses up rank. */
  lemma FiringUsesRank(p: PlanState, e: Event, id: string)
    requires id in p.recurring && e.Next? && Legal(p, e)
    requires p.oneshot == [] && p.IsDue(id, e.now) && !Fires(p, e, id)
    requires !HasZeroNeighbour(p, id)
    ensures id in After(p, e).recurring && Rank(After(p, e), id) < Rank(p, id)
  {
    var k, q := e.pick, After(p, e);
    assert p.AnyDue(e.now);
    assert p.Picks(k, e.now) && k != id;
    assert k in Ahead(p, id);
    assert q.recurring.Keys == p.recurring.Keys && q.recurring[k].dueAt > p.recurring[k].dueAt;
    assert q.recurring[k].dueAt >= e.now >= p.recurring[id].dueAt;
    if p.recurring[k].dueAt < p.recurring[id].dueAt {
      EarlyUsesRank(p, q, k, id);
    } else {
      TiedUsesRank(p, q, k, id);
    }
  }

  /** `q` is `p` with task `k` moved from no later than `id` to no earlier. */
  ghost predicate MovedBehind(p: PlanState, q: PlanState, k: string, id: string) {
    && k in p.recurring && id in p.recurring && k != id
    && q.recurring.Keys == p.recurring.Keys
    && (forall j :: j in p.recurring && j != k ==> q.recurring[j].dueAt == p.recurring[j].dueAt)
    && q.recurring[k].dueAt > p.recurring[k].dueAt
    && p.recurring[k].dueAt <= p.recurring[id].dueAt <= q.recurring[k].dueAt
  }

  lemma EarlyUsesRank(p: PlanState, q: PlanState, k: string, id: string)
    requires MovedBehind(p, q, k, id) && k in Early(p, id)
    ensures Rank(q, id) < Rank(p, id)
  {
    var more := Tied(p, id) + {k};
    assert Tied(q, id) <= more;
    SubsetSize(Tied(q, id), more);
    assert Early(q, id) == Early(p, id) - {k};
  }

  lemma TiedUsesRank(p: PlanState, q: PlanState, k: string, id: string)
    requires MovedBehind(p, q, k, id) && k in Tied(p, id)
    ensures Rank(q, id) < Rank(p, id)
  {
    assert Early(q, id) == Early(p, id);
    assert Tied(q, id) == Tied(p, id) - {k};
  }

  /** No zero neighbour of `id` before any of the events. */
  ghost predicate Unthreatened(p: PlanState, events: seq<Event>, id: string) {
    events == [] ||
      (var q := Run(p, events[..|events| - 1]);
       Unthreatened(p, events[..|events| - 1], id) && id in q.recurring && !HasZeroNeighbour(q, id))
  }

  /** Calls with no one-shot waiting. */
  function Turns(p: PlanState, events: seq<Event>): (n: nat)
    ensures n <= |events|
  {
    if events == [] then
      0
    else
      var before, e := events[..|events| - 1], events[|events| - 1];
      Turns(p, before) + if e.Next? && Run(p, before).oneshot == [] then 1 else 0
  }

  lemma WaitingStep(q: PlanState, e: Event, id: string)
    requires Legal(q, e) && id in q.recurring && id in After(q, e).recurring
    requires q.recurring[id].dueAt <= e.now && !Fires(q, e, id) && !HasZeroNeighbour(q, id)
    ensures var r, due := After(q, e), q.recurring[id].dueAt;
      && r.recurring[id].dueAt == due
      && Rank(r, id) + (if e.Next? && q.oneshot == [] then 1 else 0)
           <= Rank(q, id) + (if Joins(q, e, due) then 1 else 0)
  {
    OnlyFiringMovesDue(q, e, id);
    if e.Next? && q.oneshot == [] {
      FiringUsesRank(q, e, id);
    } else {
      NoFiringKeepsRank(q, e, id);
    }
  }

  /** Whatever else happens, a task that joins at the due time adds one to the rank,
      and nothing else adds to it. */
  lemma NoFiringKeepsRank(q: PlanState, e: Event, id: string)
    requires Legal(q, e) && id in q.recurring && id in After(q, e).recurring
    requires q.recurring[id].dueAt <= e.now && !(e.Next? && q.oneshot == [])
    ensures Rank(After(q, e), id) <= Rank(q, id) + if Joins(q, e, q.recurring[id].dueAt) then 1 else 0
  {
    var due, r := q.recurring[id].dueAt, After(q, e);
    var tied := Tied(q, id) + if Joins(q, e, due) then {e.task.taskId} else {};
    OnlyFiringMovesDue(q, e, id);
    forall k | k in r.recurring && k in q.recurring ensures r.recurring[k].dueAt == q.recurring[k].dueAt {
      OnlyFiringMovesDue(q, e, k);
    }
    SubsetSize(Early(r, id), Early(q, id));
    SubsetSize(Tied(r, id), tied);
  }

  ghost predicate DueThroughout(p: PlanState, events: seq<Event>, id: string) {
    id in p.recurring && forall i :: 0 <= i < |events| ==> p.recurring[id].dueAt <= events[i].now
  }

  lemma {:induction false} WaitingUsesRank(p: PlanState, events: seq<Event>, id: string)
    requires LegalRun(p, events) && Kept(p, events, id) && Unthreatened(p, events, id)
    requires DueThroughout(p, events, id) && FireCount(p, events, id) == 0
    ensures var q, due := Run(p, events), p.recurring[id].dueAt;
      && q.recurring[id].dueAt == due
      && Rank(q, id) + Turns(p, events) <= Rank(p, id) + Newcomers(p, events, due)
  {
    if events != [] {
      var before, e := events[..|events| - 1], events[|events| - 1];
      assert DueThroughout(p, before, id);
      WaitingUsesRank(p, before, id);
      assert p.recurring[id].dueAt <= e.now;
      WaitingStep(Run(p, before), e, id);
    }
  }

  /** Even while the clock stands exactly at its due time a task is handed out within
      2n - 1 turns, as long as none of the tasks ahead of it has a zero interval;
      through any other operations, counting one more turn for each task that joins at
      the due time. */
  lemma NotStarvedAtOnce(p: PlanState, events: seq<Event>, id: string)
    requires LegalRun(p, events) && Kept(p, events, id) && Unthreatened(p, events, id)
    requires DueThroughout(p, events, id)
    requires Turns(p, events) >= 2 * |p.recurring| - 1 + Newcomers(p, events, p.recurring[id].dueAt)
    ensures FireCount(p, events, id) >= 1
  {
    if FireCount(p, events, id) == 0 {
      WaitingUsesRank(p, events, id);
      RankBound(p, id);
    }
  }

  // Starvation: exactly when -----------------------------------------------------------------

  ghost predicate AllCalls(events: seq<Event>) {
    forall i :: 0 <= i < |events| ==> events[i].Next?
  }

  /** A run of calls at which `id` was due and each of which passed it over. */
  ghost predicate Starves(p: PlanState, id: string, events: seq<Event>) {
    AllCalls(events) && LegalRun(p, events) && DueThroughout(p, events, id) && FireCount(p, events, id) == 0
  }

  ghost predicate CanStarveFor(p: PlanState, id: string, n: nat) {
    exists events :: |events| == n && Starves(p, id, events)
  }

  /** Calls never give a task a zero neighbour: nothing moves ahead of it. */
  lemma {:induction false} CallsAreUnthreatened(p: PlanState, events: seq<Event>, id: string)
    requires Starves(p, id, events) && p.oneshot == [] && !HasZeroNeighbour(p, id)
    ensures Kept(p, events, id) && Unthreatened(p, events, id) && Turns(p, events) == |events|
    ensures var q := Run(p, events);
      id in q.recurring && q.oneshot == [] && q.recurring[id].dueAt == p.recurring[id].dueAt && !HasZeroNeighbour(q, id)
  {
    if events != [] {
      var before, e := events[..|events| - 1], events[|events| - 1];
      assert DueThroughout(p, before, id);
      CallsAreUnthreatened(p, before, id);
      var q, r := Run(p, before), After(Run(p, before), e);
      forall k | k in Ahead(r, id) ensures k in Ahead(q, id) && (RunsAt(r, k, 0) <==> RunsAt(q, k, 0)) {
        OnlyFiringMovesDue(q, e, k);
      }
    }
  }

  /** With a zero neighbour there is always, at the due time, another task to pick,
      and afterwards a zero neighbour still. */
  lemma ZeroNeighbourDelays(q: PlanState, id: string) returns (e: Event)
    requires q.oneshot == [] && id in q.recurring && HasZeroNeighbour(q, id)
    ensures e.Next? && e.now == q.recurring[id].dueAt && Legal(q, e) && !Fires(q, e, id)
    ensures var r := After(q, e);
      r.oneshot == [] && id in r.recurring && r.recurring[id].dueAt == q.recurring[id].dueAt && HasZeroNeighbour(r, id)
  {
    var due := q.recurring[id].dueAt;
    var zero :| zero in Ahead(q, id) && RunsAt(q, zero, 0);
    var first := EarliestAmong(q, q.recurring.Keys);
    var pick := if q.recurring[first].dueAt < due then first else zero;
    assert q.recurring[first].dueAt <= q.recurring[zero].dueAt;
    e := Next(due, pick);
    assert q.Picks(pick, due);
    assert zero in Ahead(After(q, e), id) && RunsAt(After(q, e), zero, 0);
  }

  lemma {:induction false} ZeroNeighbourStarves(p: PlanState, id: string, n: nat) returns (events: seq<Event>)
    requires p.oneshot == [] && id in p.recurring && HasZeroNeighbour(p, id)
    ensures |events| == n && Starves(p, id, events)
    ensures forall i :: 0 <= i < n ==> events[i].now == p.recurring[id].dueAt
    ensures var q := Run(p, events);
      q.oneshot == [] && id in q.recurring && q.recurring[id].dueAt == p.recurring[id].dueAt && HasZeroNeighbour(q, id)
  {
    if n == 0 {
      events := [];
    } else {
      var before := ZeroNeighbourStarves(p, id, n - 1);
      var e := ZeroNeighbourDelays(Run(p, before), id);
      events := before + [e];
      assert events[..n - 1] == before;
    }
  }

  lemma {:induction false} CallsKeepEveryTask(p: PlanState, events: seq<Event>, id: string, due: nat)
    requires AllCalls(events) && LegalRun(p, events) && id in p.recurring
    ensures Kept(p, events, id) && Newcomers(p, events, due) == 0
  {
    if events != [] {
      CallsKeepEveryTask(p, events[..|events| - 1], id, due);
    }
  }

  /** However long the starvation, at most n - 1 of the calls read a clock past the
      due time: the others read one that stands exactly there. */
  lemma StarvedOnlyAtTheInstant(p: PlanState, id: string, events: seq<Event>)
    requires Starves(p, id, events)
    ensures LateTurns(p, events, p.recurring[id].dueAt) <= |p.recurring| - 1
  {
    CallsKeepEveryTask(p, events, id, p.recurring[id].dueAt);
    WaitingTurns(p, events, id);
    AheadBound(p, id);
  }

  /** A due task can be passed over for any number of calls exactly when some other
      task due no later has a zero interval. */
  lemma StarvedIffZeroNeighbour(p: PlanState, id: string)
    requires p.oneshot == [] && id in p.recurring
    ensures (forall n: nat :: CanStarveFor(p, id, n)) <==> HasZeroNeighbour(p, id)
  {
    if HasZeroNeighbour(p, id) {
      forall n: nat ensures CanStarveFor(p, id, n) {
        var events := ZeroNeighbourStarves(p, id, n);
      }
    } else {
      var n := 2 * |p.recurring|;
      if CanStarveFor(p, id, n) {
        var events :| |events| == n && Starves(p, id, events);
        CallsAreUnthreatened(p, events, id);
        CallsKeepEveryTask(p, events, id, p.recurring[id].dueAt);
        NotStarvedAtOnce(p, events, id);
      }
    }
  }

  // A task handed out twice at one reading ---------------------------------------------------

  /** A plan of one task, exactly one interval late: two calls at the same reading both
      hand it out. */
  lemma HandedOutTwice(task: Task, now: nat)
    requires task.recurring && task.interval == Some(3600) && now >= 3600
    ensures var p := PlanState(map[task.taskId := Scheduled(task, None, now - 3600)], [], 60);
      var events := [Next(now, task.taskId), Next(now, task.taskId)];
      LegalRun(p, events) && FireCount(p, events, task.taskId) == 2
  {
    var id := task.taskId;
    var p := PlanState(map[id := Scheduled(task, None, now - 3600)], [], 60);
    var events := [Next(now, id), Next(now, id)];
    var q := Advanced(p, now, id);
    assert p.Picks(id, now);
    assert q.recurring == map[id := Scheduled(task, None, now)];
    assert q.Picks(id, now);
    assert events[..1] == [Next(now, id)] && events[..1][..0] == [];
    assert Run(p, events[..1]) == q;
  }

  // One-shots ----------------------------------------------------------------------------------

  /** What has happened to one-shots so far: those newly queued, those handed to the
      runner and those reported skipped, each in order. */
  datatype Ledger = Ledger(queued: seq<Scheduled>, returned: seq<Scheduled>, skipped: seq<Scheduled>)

  function Entered(l: Ledger, q: PlanState, e: Event): Ledger {
    match e
    case Lease(now, task, expiresIn) =>
      if !task.recurring && !q.Holds(task.taskId) then l.(queued := l.queued + [Queueing(task, expiresIn, now)]) else l
    case Reap(now) => l.(skipped := l.skipped + ExpiredIn(q.oneshot, now))
    case Next(_, _) => if q.oneshot != [] then l.(returned := l.returned + [q.oneshot[0]]) else l
    case Withdraw(_, _) => l
    case Reconcile(_, _) => l
  }

  function Entries(p: PlanState, events: seq<Event>): Ledger {
    if events == [] then
      Ledger([], [], [])
    else
      Entered(Entries(p, events[..|events| - 1]), Run(p, events[..|events| - 1]), events[|events| - 1])
  }

  ghost predicate IdsDistinct(q: seq<Scheduled>) {
    forall i, j :: 0 <= i < j < |q| ==> q[i].task.taskId != q[j].task.taskId
  }

  ghost predicate OneShotsAccounted(p: PlanState, l: Ledger) {
    && multiset(l.queued) == multiset(p.oneshot) + multiset(l.returned) + multiset(l.skipped)
    && IsSubsequence(l.returned + p.oneshot, l.queued)
    && IdsDistinct(p.oneshot)
  }

  lemma {:induction false} ReapingKeepsOrder(
      x: seq<Scheduled>, q: seq<Scheduled>, z: seq<Scheduled>, b: seq<Scheduled>, now: nat)
    requires IsSubsequence(x + q + z, b)
    ensures IsSubsequence(x + Unexpired(q, now) + z, b)
    decreases |q|
  {
    if q != [] {
      var n := |q| - 1;
      var s := q[n];
      if Expired(s, now) {
        assert x + q + z == (x + q[..n]) + [s] + z;
        LeaveOut(x + q[..n], [s], z, b);
        ReapingKeepsOrder(x, q[..n], z, b, now);
        assert Unexpired(q, now) == Unexpired(q[..n], now);
      } else {
        assert x + q + z == x + q[..n] + ([s] + z);
        ReapingKeepsOrder(x, q[..n], [s] + z, b, now);
        assert x + Unexpired(q, now) + z == x + Unexpired(q[..n], now) + ([s] + z);
      }
    }
  }

  /** Reaping leaves both those it keeps and those it skips in the order they were queued. */
  lemma {:induction false} ReapingInOrder(q: seq<Scheduled>, now: nat)
    ensures IsSubsequence(Unexpired(q, now), q) && IsSubsequence(ExpiredIn(q, now), q)
  {
    if q == [] {
      EmptyIsSubsequence<Scheduled>([]);
    } else {
      var n := |q| - 1;
      ReapingInOrder(q[..n], now);
      assert q == q[..n] + [q[n]];
      if Expired(q[n], now) {
        ExtendWhole(Unexpired(q[..n], now), q[..n], q[n]);
        assert Unexpired(q, now) == Unexpired(q[..n], now);
        ExtendBoth(ExpiredIn(q[..n], now), q[..n], q[n]);
      } else {
        ExtendBoth(Unexpired(q[..n], now), q[..n], q[n]);
        ExtendWhole(ExpiredIn(q[..n], now), q[..n], q[n]);
        assert ExpiredIn(q, now) == ExpiredIn(q[..n], now);
      }
    }
  }

  lemma {:induction false} ReapingKeepsDistinct(q: seq<Scheduled>, now: nat)
    requires IdsDistinct(q)
    ensures IdsDistinct(Unexpired(q, now))
    ensures forall i :: 0 <= i < |Unexpired(q, now)| ==> Unexpired(q, now)[i] in q
  {
    if q != [] {
      var n := |q| - 1;
      ReapingKeepsDistinct(q[..n], now);
      forall i | 0 <= i < |Unexpired(q[..n], now)| ensures Unexpired(q[..n], now)[i].task.taskId != q[n].task.taskId {
        assert Unexpired(q[..n], now)[i] in q[..n];
      }
    }
  }

  lemma LeaseAccounts(q: PlanState, l: Ledger, e: Event)
    requires e.Lease? && OneShotsAccounted(q, l)
    ensures OneShotsAccounted(After(q, e), Entered(l, q, e))
  {
    if !e.task.recurring && !q.Holds(e.task.taskId) {
      var s := Queueing(e.task, e.expiresIn, e.now);
      ExtendBoth(l.returned + q.oneshot, l.queued, s);
      assert (l.returned + q.oneshot) + [s] == l.returned + (q.oneshot + [s]);
    }
  }

  lemma ReapAccounts(q: PlanState, l: Ledger, e: Event)
    requires e.Reap? && OneShotsAccounted(q, l)
    ensures OneShotsAccounted(After(q, e), Entered(l, q, e))
  {
    ReapingSplits(q.oneshot, e.now);
    assert l.returned + q.oneshot + [] == l.returned + q.oneshot;
    ReapingKeepsOrder(l.returned, q.oneshot, [], l.queued, e.now);
    assert l.returned + Unexpired(q.oneshot, e.now) + [] == l.returned + Unexpired(q.oneshot, e.now);
    ReapingKeepsDistinct(q.oneshot, e.now);
  }

  lemma NextAccounts(q: PlanState, l: Ledger, e: Event)
    requires e.Next? && OneShotsAccounted(q, l)
    ensures OneShotsAccounted(After(q, e), Entered(l, q, e))
  {
    if q.oneshot != [] {
      var s, rest := q.oneshot[0], q.oneshot[1..];
      assert q.oneshot == [s] + rest;
      assert l.returned + q.oneshot == (l.returned + [s]) + rest;
    }
  }

  /** In every interleaving, a newly queued one-shot is queued, run or reported
      skipped, exactly one of the three; queued ids are distinct; and those that
      run do so in the order they were queued, ahead of those still waiting. */
  lemma {:induction false} OneShotConservation(p: PlanState, events: seq<Event>)
    requires p.oneshot == []
    ensures OneShotsAccounted(Run(p, events), Entries(p, events))
  {
    if events == [] {
      EmptyIsSubsequence<Scheduled>([]);
      assert Entries(p, []).returned + p.oneshot == [];
    } else {
      var before, e := events[..|events| - 1], events[|events| - 1];
      OneShotConservation(p, before);
      var q, l := Run(p, before), Entries(p, before);
      match e
      case Lease(_, _, _) => LeaseAccounts(q, l, e);
      case Reap(_) => ReapAccounts(q, l, e);
      case Next(_, _) => NextAccounts(q, l, e);
      case Withdraw(_, _) =>
      case Reconcile(_, _) =>
    }
  }
}
