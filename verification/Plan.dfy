/** The agent's local plan: recurring work kept on its own cadence and one-shot
    diagnostics in arrival order. Instants and durations are nanosecond counts. */
module TaskPlan {
  import opened Wrappers

  /** `work` stands for everything the plan passes through to the runner. */
  datatype Task = Task(taskId: string, recurring: bool, interval: Option<nat>, work: string)

  datatype Scheduled = Scheduled(task: Task, deadline: Option<nat>, dueAt: nat)

  datatype PlanState = PlanState(recurring: map<string, Scheduled>, oneshot: seq<Scheduled>, defaultInterval: nat) {
    predicate IsEmpty() {
      recurring == map[] && oneshot == []
    }

    function Interval(id: string): nat
      requires id in recurring
    {
      match recurring[id].task.interval
      case Some(i) => i
      case None => defaultInterval
    }

    predicate IsDue(id: string, now: nat) {
      id in recurring && recurring[id].dueAt <= now
    }

    predicate AnyDue(now: nat) {
      exists id :: id in recurring && IsDue(id, now)
    }

    /** `id` is a due task that no other due task precedes; equals are broken by
        whatever order the table is walked in. */
    predicate Picks(id: string, now: nat) {
      && IsDue(id, now)
      && forall other :: other in recurring && IsDue(other, now) ==> recurring[id].dueAt <= recurring[other].dueAt
    }

    predicate Holds(id: string) {
      exists i :: 0 <= i < |oneshot| && oneshot[i].task.taskId == id
    }
  }

  datatype Skipped = Skipped(task: Task)

  // Operations as functions of the state --------------------------------------------------

  function Accepted(p: PlanState, task: Task, expiresIn: Option<nat>, now: nat): PlanState {
    if task.recurring then
      var due := if task.taskId in p.recurring then p.recurring[task.taskId].dueAt else now;
      p.(recurring := p.recurring[task.taskId := Scheduled(task, None, due)])
    else if p.Holds(task.taskId) then
      p
    else
      p.(oneshot := p.oneshot + [Queueing(task, expiresIn, now)])
  }

  function Queueing(task: Task, expiresIn: Option<nat>, now: nat): Scheduled {
    Scheduled(task, match expiresIn case Some(d) => Some(now + d) case None => None, now)
  }

  predicate Expired(s: Scheduled, now: nat) {
    s.deadline.Some? && now >= s.deadline.value
  }

  function Unexpired(q: seq<Scheduled>, now: nat): seq<Scheduled> {
    if q == [] then [] else Unexpired(q[..|q| - 1], now) + if Expired(q[|q| - 1], now) then [] else [q[|q| - 1]]
  }

  function ExpiredIn(q: seq<Scheduled>, now: nat): seq<Scheduled> {
    if q == [] then [] else ExpiredIn(q[..|q| - 1], now) + if Expired(q[|q| - 1], now) then [q[|q| - 1]] else []
  }

  function Reaped(p: PlanState, now: nat): PlanState {
    p.(oneshot := Unexpired(p.oneshot, now))
  }

  /** The next due time keeps to the grid, unless more than one whole interval was
      missed; then it starts afresh from now. */
  function NextDueAt(due: nat, interval: nat, now: nat): nat
    requires due <= now
  {
    if now - due > interval then now + interval else due + interval
  }

  function Fired(p: PlanState, id: string, now: nat): PlanState
    requires p.IsDue(id, now)
  {
    var s := p.recurring[id];
    p.(recurring := p.recurring[id := s.(dueAt := NextDueAt(s.dueAt, p.Interval(id), now))])
  }

  function Withdrawn(p: PlanState, id: string): PlanState {
    p.(recurring := p.recurring - {id})
  }

  function Reconciled(p: PlanState, keep: seq<string>): PlanState {
    p.(recurring := map id | id in p.recurring && id in keep :: p.recurring[id])
  }

  ghost predicate KeyedById(p: PlanState) {
    forall id :: id in p.recurring ==> p.recurring[id].task.taskId == id
  }

  lemma {:induction false} EarliestAmong(p: PlanState, ids: set<string>) returns (id: string)
    requires ids != {} && ids <= p.recurring.Keys
    ensures id in ids && forall other :: other in ids ==> p.recurring[id].dueAt <= p.recurring[other].dueAt
    decreases |ids|
  {
    id :| id in ids;
    var rest := ids - {id};
    assert forall other :: other in ids ==> other == id || other in rest;
    if rest != {} {
      var best := EarliestAmong(p, rest);
      if p.recurring[best].dueAt < p.recurring[id].dueAt {
        id := best;
      }
    }
  }

  lemma SomePick(p: PlanState, now: nat)
    ensures p.AnyDue(now) <==> exists id :: id in p.recurring && p.Picks(id, now)
  {
    var due := set id | id in p.recurring && p.IsDue(id, now);
    if p.AnyDue(now) {
      var some :| some in p.recurring && p.IsDue(some, now);
      assert some in due;
      var id := EarliestAmong(p, due);
      assert p.Picks(id, now);
    }
  }

  // The plan -----------------------------------------------------------------------------

  class Plan {
    var recurring: map<string, Scheduled>
    var oneshot: seq<Scheduled>
    const defaultInterval: nat

    function State(): PlanState
      reads this
    {
      PlanState(recurring, oneshot, defaultInterval)
    }

    /** Every recurring task is filed under its own identifier. */
    ghost predicate Valid()
      reads this
    {
      KeyedById(State())
    }

    constructor (defaultInterval: nat)
      ensures Valid() && State() == PlanState(map[], [], defaultInterval)
    {
      this.defaultInterval := defaultInterval;
      recurring, oneshot := map[], [];
    }

    method Accept(task: Task, expiresIn: Option<nat>, now: nat)
      requires Valid()
      modifies this
      ensures Valid() && State() == Accepted(old(State()), task, expiresIn, now)
      ensures task.recurring ==> task.taskId in recurring && recurring[task.taskId].task == task
    {
      if task.recurring {
        if task.taskId in recurring {
          var existing := recurring[task.taskId];
          recurring := recurring[task.taskId := existing.(task := task, deadline := None)];
        } else {
          recurring := recurring[task.taskId := Scheduled(task, None, now)];
        }
      } else {
        if exists i :: 0 <= i < |oneshot| && oneshot[i].task.taskId == task.taskId {
          return;
        }
        var deadline := match expiresIn case Some(d) => Some(now + d) case None => None;
        oneshot := oneshot + [Scheduled(task, deadline, now)];
      }
    }

    method ReapExpired(now: nat) returns (out: seq<Skipped>)
      requires Valid()
      modifies this
      ensures Valid() && State() == Reaped(old(State()), now)
      ensures var gone := ExpiredIn(old(oneshot), now);
        |out| == |gone| && forall i :: 0 <= i < |out| ==> out[i] == Skipped(gone[i].task)
    {
      out := [];
      var kept: seq<Scheduled> := [];
      for i := 0 to |oneshot|
        invariant State() == old(State())
        invariant kept == Unexpired(oneshot[..i], now)
        invariant |out| == |ExpiredIn(oneshot[..i], now)|
        invariant forall k :: 0 <= k < |out| ==> out[k] == Skipped(ExpiredIn(oneshot[..i], now)[k].task)
      {
        assert oneshot[..i + 1][..i] == oneshot[..i];
        if Expired(oneshot[i], now) {
          out := out + [Skipped(oneshot[i].task)];
        } else {
          kept := kept + [oneshot[i]];
        }
      }
      assert oneshot[..|oneshot|] == oneshot;
      oneshot := kept;
    }

    /** One-shots first, then the earliest due recurring task. `pick` names the
        recurring task that fired. */
    method NextDue(now: nat) returns (task: Option<Task>, ghost pick: string)
      requires Valid()
      modifies this
      ensures Valid() && LegalPick(old(State()), now, pick)
      ensures task == Returned(old(State()), now, pick) && State() == Advanced(old(State()), now, pick)
      ensures HandsOut(old(State()), State(), now, task, pick)
    {
      pick := "";
      ghost var before := State();
      if oneshot != [] {
        HandedOut(before, now, pick);
        task := Some(oneshot[0].task);
        oneshot := oneshot[1..];
        return;
      }
      SomePick(State(), now);
      var p := State();
      if !p.AnyDue(now) {
        HandedOut(before, now, "");
        return None, "";
      }
      var earliest :| earliest in recurring && p.Picks(earliest, now);
      var next := recurring[earliest].task.taskId;
      pick := next;
      var s := recurring[next];
      var interval := match s.task.interval case Some(i) => i case None => defaultInterval;
      var dueAt := if now - s.dueAt > interval then now + interval else s.dueAt + interval;
      recurring := recurring[next := s.(dueAt := dueAt)];
      task := Some(s.task);
      HandedOut(before, now, pick);
    }

    method TimeUntilDue(now: nat) returns (d: Option<nat>)
      ensures IsShortestWait(State(), now, d)
    {
      if oneshot != [] {
        return Some(0);
      }
      if recurring == map[] {
        return None;
      }
      ghost var first := EarliestAmong(State(), recurring.Keys);
      var id :| id in recurring && forall other :: other in recurring ==> recurring[id].dueAt <= recurring[other].dueAt;
      return Some(Wait(recurring[id].dueAt, now));
    }

    method Remove(id: string) returns (was: bool)
      requires Valid()
      modifies this
      ensures Valid() && State() == Withdrawn(old(State()), id) && was == (id in old(recurring))
      ensures forall k :: k in recurring <==> k in old(recurring) && k != id
      ensures oneshot == old(oneshot) && forall k :: k in recurring ==> recurring[k] == old(recurring)[k]
    {
      was := id in recurring;
      recurring := recurring - {id};
    }

    method ReconcileRecurring(keep: seq<string>) returns (removed: nat)
      requires Valid()
      modifies this
      ensures Valid() && State() == Reconciled(old(State()), keep)
      ensures removed == |set id | id in old(recurring) && id !in keep|
      ensures forall k :: k in recurring <==> k in old(recurring) && k in keep
      ensures oneshot == old(oneshot) && forall k :: k in recurring ==> recurring[k] == old(recurring)[k]
    {
      var kept := map id | id in recurring && id in keep :: recurring[id];
      ghost var gone := set id | id in recurring && id !in keep;
      assert recurring.Keys == kept.Keys + gone && kept.Keys !! gone;
      assert |recurring.Keys| == |kept.Keys| + |gone|;
      assert |recurring| == |recurring.Keys| && |kept| == |kept.Keys|;
      removed := |recurring| - |kept|;
      recurring := kept;
    }
  }

  /** One call at reading `now` hands out `task` and turns `p` into `q`: the oldest
      one-shot, if any; otherwise the recurring task due first of all, `pick`, if it is
      due, whose due time moves on by its own interval, or the plan's where it has none,
      or to one interval from now when it is later than that. */
  ghost predicate HandsOut(p: PlanState, q: PlanState, now: nat, task: Option<Task>, pick: string) {
    if p.oneshot != [] then
      task == Some(p.oneshot[0].task) && q == p.(oneshot := p.oneshot[1..])
    else if forall id :: id in p.recurring ==> p.recurring[id].dueAt > now then
      task == None && q == p
    else
      && pick in p.recurring && task == Some(p.recurring[pick].task) && p.recurring[pick].dueAt <= now
      && (forall id :: id in p.recurring ==> p.recurring[pick].dueAt <= p.recurring[id].dueAt)
      && var s := p.recurring[pick];
      var i := if s.task.interval.Some? then s.task.interval.value else p.defaultInterval;
      q == p.(recurring := p.recurring[pick := s.(dueAt := if now - s.dueAt > i then now + i else s.dueAt + i)])
  }

  lemma HandedOut(p: PlanState, now: nat, pick: string)
    requires LegalPick(p, now, pick)
    ensures HandsOut(p, Advanced(p, now, pick), now, Returned(p, now, pick), pick)
  {
    if p.oneshot == [] {
      if p.AnyDue(now) {
        FiredExactly(p, pick, now);
      } else {
        forall id | id in p.recurring ensures p.recurring[id].dueAt > now {
          assert !p.IsDue(id, now);
        }
      }
    }
  }

  /** What `next_due` may choose. */
  ghost predicate LegalPick(p: PlanState, now: nat, pick: string) {
    p.oneshot == [] && p.AnyDue(now) ==> p.Picks(pick, now)
  }

  function Returned(p: PlanState, now: nat, pick: string): Option<Task> {
    if p.oneshot != [] then Some(p.oneshot[0].task)
    else if p.IsDue(pick, now) then Some(p.recurring[pick].task)
    else None
  }

  function Advanced(p: PlanState, now: nat, pick: string): PlanState {
    if p.oneshot != [] then p.(oneshot := p.oneshot[1..])
    else if p.IsDue(pick, now) then Fired(p, pick, now)
    else p
  }

  // How long to sleep ------------------------------------------------------------------------

  /** `saturating_duration_since` */
  function Wait(due: nat, now: nat): nat {
    if due >= now then due - now else 0
  }

  /** Nothing to wait for while a one-shot is queued; otherwise the least wait of
      any recurring task. */
  ghost predicate IsShortestWait(p: PlanState, now: nat, d: Option<nat>) {
    if p.oneshot != [] then d == Some(0)
    else if p.recurring == map[] then d == None
    else
      && d.Some?
      && (exists id :: id in p.recurring && Wait(p.recurring[id].dueAt, now) == d.value)
      && forall id :: id in p.recurring ==> d.value <= Wait(p.recurring[id].dueAt, now)
  }

  /** The sleep is exact: `next_due` has something to run after it, had nothing to
      run at any moment before, and there is no sleep to compute only when the plan
      is empty. */
  lemma TimeUntilDueExact(p: PlanState, now: nat, d: Option<nat>, t: nat, pick: string)
    requires IsShortestWait(p, now, d)
    requires now <= t && LegalPick(p, t, pick)
    ensures d.None? <==> p.IsEmpty()
    ensures d.Some? && t < now + d.value ==> Returned(p, t, pick).None?
    ensures d.Some? && t >= now + d.value ==> Returned(p, t, pick).Some?
  {
    if d.Some? && p.oneshot == [] {
      if t >= now + d.value {
        var id :| id in p.recurring && Wait(p.recurring[id].dueAt, now) == d.value;
        assert p.IsDue(id, t);
      }
    }
  }

  // Cadence ------------------------------------------------------------------------------------

  /** What firing does to the schedule: a task without an interval of its own runs at
      the plan's; it stays on its grid unless more than one interval was missed. */
  lemma FiredExactly(p: PlanState, id: string, now: nat)
    requires id in p.recurring && p.recurring[id].dueAt <= now
    ensures var s := p.recurring[id];
      var i := if s.task.interval.Some? then s.task.interval.value else p.defaultInterval;
      Fired(p, id, now) == p.(recurring :=
        p.recurring[id := s.(dueAt := if now - s.dueAt > i then now + i else s.dueAt + i)])
  {
  }

  /** Having just fired, a task is due again in the same instant exactly when it
      was one whole interval late, or its interval is zero. */
  lemma FiresTwiceAtOnce(p: PlanState, id: string, now: nat)
    requires id in p.recurring && p.recurring[id].dueAt <= now
    ensures var task := p.recurring[id].task;
      var i := if task.interval.Some? then task.interval.value else p.defaultInterval;
      Fired(p, id, now).recurring[id].dueAt <= now <==> now - p.recurring[id].dueAt == i || i == 0
  {
  }

  /** A refresh replaces the work but never the schedule; a task seen for the first time
      is due at once. Nothing else moves. */
  lemma RefreshKeepsSchedule(p: PlanState, task: Task, expiresIn: Option<nat>, now: nat, id: string)
    requires task.recurring
    ensures var q := Accepted(p, task, expiresIn, now);
      && q.oneshot == p.oneshot && q.defaultInterval == p.defaultInterval
      && (id in q.recurring <==> id in p.recurring || id == task.taskId)
      && (id in p.recurring ==> q.recurring[id].dueAt == p.recurring[id].dueAt)
      && (id in p.recurring && id != task.taskId ==> q.recurring[id] == p.recurring[id])
      && (id == task.taskId ==> q.recurring[id].task == task && q.recurring[id].deadline == None)
      && (id == task.taskId && id !in p.recurring ==> q.recurring[id].dueAt == now)
  {
  }

  /** A one-shot joins the end of the queue with its deadline counted from now, unless
      one with its identifier is waiting there already. */
  lemma OneShotQueued(p: PlanState, task: Task, expiresIn: Option<nat>, now: nat)
    requires !task.recurring
    ensures var q := Accepted(p, task, expiresIn, now);
      q == if exists i :: 0 <= i < |p.oneshot| && p.oneshot[i].task.taskId == task.taskId then p
           else p.(oneshot := p.oneshot +
             [Scheduled(task, if expiresIn.Some? then Some(now + expiresIn.value) else None, now)])
  {
  }

  /** A newly queued one-shot outlives exactly the reapings that come before its
      time is up; one without a limit outlives them all. */
  lemma ExpiresOnTime(p: PlanState, task: Task, expiresIn: Option<nat>, now: nat, later: nat)
    requires !task.recurring && !p.Holds(task.taskId)
    ensures Reaped(Accepted(p, task, expiresIn, now), later).Holds(task.taskId) <==>
      expiresIn.None? || later < now + expiresIn.value
  {
    var s := Queueing(task, expiresIn, now);
    var q := p.oneshot + [s];
    assert q[..|q| - 1] == p.oneshot;
    var kept := Unexpired(p.oneshot, later);
    forall i | 0 <= i < |kept| ensures kept[i].task.taskId != task.taskId {
      KeptWasQueued(p.oneshot, later, i);
    }
    var left := Unexpired(q, later);
    if !Expired(s, later) {
      assert left[|kept|] == s;
    }
  }

  lemma {:induction false} KeptWasQueued(q: seq<Scheduled>, now: nat, i: nat)
    requires i < |Unexpired(q, now)|
    ensures exists j :: 0 <= j < |q| && q[j] == Unexpired(q, now)[i]
  {
    var n := |q| - 1;
    if i < |Unexpired(q[..n], now)| {
      KeptWasQueued(q[..n], now, i);
      var j :| 0 <= j < n && q[..n][j] == Unexpired(q[..n], now)[i];
      assert q[j] == Unexpired(q, now)[i];
    }
  }

  /** After reaping, no one-shot that `next_due` hands out at once had expired by
      the reading the reaper used. */
  lemma {:induction false} ReapedAreFresh(q: seq<Scheduled>, now: nat)
    ensures forall i :: 0 <= i < |Unexpired(q, now)| ==> !Expired(Unexpired(q, now)[i], now)
    ensures forall i :: 0 <= i < |ExpiredIn(q, now)| ==> Expired(ExpiredIn(q, now)[i], now)
  {
    if q != [] {
      ReapedAreFresh(q[..|q| - 1], now);
    }
  }

  lemma {:induction false} ReapingSplits(q: seq<Scheduled>, now: nat)
    ensures multiset(q) == multiset(Unexpired(q, now)) + multiset(ExpiredIn(q, now))
  {
    if q != [] {
      var n := |q| - 1;
      ReapingSplits(q[..n], now);
      assert q == q[..n] + [q[n]];
      OneMore(q[..n], Unexpired(q[..n], now), ExpiredIn(q[..n], now), q[n]);
    }
  }

  lemma OneMore(q: seq<Scheduled>, a: seq<Scheduled>, b: seq<Scheduled>, s: Scheduled)
    requires multiset(q) == multiset(a) + multiset(b)
    ensures multiset(q + [s]) == multiset(a + [s]) + multiset(b + [])
    ensures multiset(q + [s]) == multiset(a + []) + multiset(b + [s])
  {
    assert a + [] == a && b + [] == b;
    assert multiset(q + [s]) == multiset(q) + multiset{s};
  }
}
