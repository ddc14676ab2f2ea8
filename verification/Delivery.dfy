/** Delivery of results: the agent's spool on one side, the controller's results
    table on the other, and a link between them that may lose a submission before
    it is applied, part-way through, or after it, with its acknowledgement. */
module Delivery {
  import opened ResultSpool
  import opened Subsequences

  const SUBMIT_BATCH: nat := 100

  datatype Report = Report(taskId: string, endedAt: int, body: string) {
    /** Length of the serialised report. */
    function Length(): nat {
      |body|
    }
  }

  type Held = Entry<Report>

  function Spooled(r: Report): Held {
    Entry(r, r.Length())
  }

  // The controller -------------------------------------------------------------------

  datatype Verdict = Stored | Duplicate | UnknownTask | InternalError

  /** `tasks` are those assigned to this agent, `done` those closed out. */
  datatype Controller = Controller(tasks: set<string>, done: set<string>, rows: seq<Report>)

  predicate SameKey(a: Report, b: Report) {
    a.taskId == b.taskId && a.endedAt == b.endedAt
  }

  predicate HasRow(c: Controller, r: Report) {
    exists i :: 0 <= i < |c.rows| && SameKey(c.rows[i], r)
  }

  function VerdictOn(c: Controller, r: Report, fault: bool): Verdict {
    if r.taskId !in c.tasks then UnknownTask
    else if fault then InternalError
    else if HasRow(c, r) then Duplicate
    else Stored
  }

  /** One transaction: insert unless (task, end time) is already there, and close
      the task. */
  function SaveResult(c: Controller, r: Report, fault: bool): Controller {
    match VerdictOn(c, r, fault)
    case UnknownTask => c
    case InternalError => c
    case Duplicate => c.(done := c.done + {r.taskId})
    case Stored => c.(done := c.done + {r.taskId}, rows := c.rows + [r])
  }

  /** The handler works through a batch in order; `faults` are the positions at
      which the report is invalid or saving fails. */
  function SaveAll(c: Controller, batch: seq<Held>, faults: set<nat>): Controller {
    if batch == [] then
      c
    else
      var n := |batch| - 1;
      SaveResult(SaveAll(c, batch[..n], faults), batch[n].item, n in faults)
  }

  /** The reports of a batch that were tried without a fault, and those that hit one. */
  function Tried(batch: seq<Held>, faults: set<nat>): set<Report> {
    set k | 0 <= k < |batch| && k !in faults :: batch[k].item
  }

  function Faulted(batch: seq<Held>, faults: set<nat>): set<Report> {
    set k | 0 <= k < |batch| && k in faults :: batch[k].item
  }

  ghost predicate KeysDistinct(c: Controller) {
    forall i, j :: 0 <= i < j < |c.rows| ==> !SameKey(c.rows[i], c.rows[j])
  }

  // The protocol ------------------------------------------------------------------------

  /** How one submission ends: answered, or lost after `applied` reports of the
      batch were saved. */
  datatype Outcome = Acked(faults: set<nat>) | Lost(applied: nat, faults: set<nat>)

  datatype Step =
    | Enqueue(report: Report)
    | Submit(outcome: Outcome)
    | Heartbeat(ok: bool)

  /** Beside the queue and its counters: what was produced and acknowledged, in order;
      the drops reported; the reports any submission had the controller try without a
      fault; and those that hit a fault in a submission that was acknowledged. */
  datatype World = World(
    queue: seq<Held>,
    dropped: nat,
    droppedTotal: nat,
    produced: seq<Held>,
    acked: seq<Held>,
    reported: nat,
    tried: set<Report>,
    faulted: set<Report>,
    controller: Controller)

  function Start(c: Controller): World {
    World([], 0, 0, [], [], 0, {}, {}, c)
  }

  function BatchSize(q: seq<Held>): (n: nat)
    ensures n <= |q|
  {
    Min(SUBMIT_BATCH, |q|)
  }

  function Next(cfg: SpoolConfig, w: World, s: Step): World {
    match s
    case Enqueue(r) =>
      var q := Pushed(cfg, w.queue, Spooled(r));
      var lost := if |q| <= |w.queue| + 1 then |w.queue| + 1 - |q| else 0;
      w.(queue := q, dropped := w.dropped + lost, droppedTotal := w.droppedTotal + lost,
         produced := w.produced + [Spooled(r)])
    case Heartbeat(ok) =>
      if ok then w.(dropped := 0, reported := w.reported + w.dropped) else w
    case Submit(outcome) =>
      var n := BatchSize(w.queue);
      var batch, rest := w.queue[..n], w.queue[n..];
      match outcome
      case Acked(faults) =>
        w.(queue := rest, dropped := 0, reported := w.reported + w.dropped, acked := w.acked + batch,
           tried := w.tried + Tried(batch, faults), faulted := w.faulted + Faulted(batch, faults),
           controller := SaveAll(w.controller, batch, faults))
      case Lost(applied, faults) =>
        var q := Readmitted(cfg, batch, rest);
        var lost := if |q| <= |w.queue| then |w.queue| - |q| else 0;
        w.(queue := q, dropped := w.dropped + lost, droppedTotal := w.droppedTotal + lost,
           tried := w.tried + Tried(batch[..Min(applied, n)], faults),
           controller := SaveAll(w.controller, batch[..Min(applied, n)], faults))
  }

  function RunFrom(cfg: SpoolConfig, w: World, steps: seq<Step>): World {
    if steps == [] then w else Next(cfg, RunFrom(cfg, w, steps[..|steps| - 1]), steps[|steps| - 1])
  }

  function Run(cfg: SpoolConfig, c: Controller, steps: seq<Step>): World {
    RunFrom(cfg, Start(c), steps)
  }

  // What the controller guarantees --------------------------------------------------------

  lemma {:induction false} SaveAllKeepsRows(c: Controller, batch: seq<Held>, faults: set<nat>)
    ensures var d := SaveAll(c, batch, faults);
      && c.rows <= d.rows && d.tasks == c.tasks
      && (KeysDistinct(c) ==> KeysDistinct(d))
      && (forall i :: |c.rows| <= i < |d.rows| ==> exists k :: 0 <= k < |batch| && batch[k].item == d.rows[i])
  {
    if batch != [] {
      var n := |batch| - 1;
      SaveAllKeepsRows(c, batch[..n], faults);
      var m, d := SaveAll(c, batch[..n], faults), SaveAll(c, batch, faults);
      forall i | |c.rows| <= i < |d.rows| ensures exists k :: 0 <= k < |batch| && batch[k].item == d.rows[i] {
        if i < |m.rows| {
          var k :| 0 <= k < n && batch[..n][k].item == m.rows[i];
          assert batch[k].item == d.rows[i];
        } else {
          assert batch[n].item == d.rows[i];
        }
      }
    }
  }

  lemma RowsPersist(c: Controller, d: Controller, r: Report)
    requires c.rows <= d.rows && HasRow(c, r)
    ensures HasRow(d, r)
  {
    var i :| 0 <= i < |c.rows| && SameKey(c.rows[i], r);
    assert SameKey(d.rows[i], r);
  }

  /** Some report with this key is among `tried`, and its task is assigned. */
  ghost predicate Admitted(tasks: set<string>, tried: set<Report>, r: Report) {
    exists a :: a in tried && SameKey(a, r) && a.taskId in tasks
  }

  lemma SavedExactly(c: Controller, a: Report, fault: bool, r: Report)
    ensures HasRow(SaveResult(c, a, fault), r) <==> HasRow(c, r) || (SameKey(a, r) && a.taskId in c.tasks && !fault)
  {
    var d := SaveResult(c, a, fault);
    if HasRow(c, r) { RowsPersist(c, d, r); }
    if HasRow(c, a) && SameKey(a, r) {
      var i :| 0 <= i < |c.rows| && SameKey(c.rows[i], a);
      assert SameKey(c.rows[i], r);
    }
    if VerdictOn(c, a, fault).Stored? {
      assert d.rows[|c.rows|] == a;
      if HasRow(d, r) {
        var i :| 0 <= i < |d.rows| && SameKey(d.rows[i], r);
        if i < |c.rows| { assert SameKey(c.rows[i], r); }
      }
    }
  }

  /** What a handled batch leaves in the table: what was there, and the keys of those
      of its reports that are of assigned tasks and met no fault. Being acknowledged
      does not enter. */
  lemma {:induction false} StoredExactly(c: Controller, batch: seq<Held>, faults: set<nat>, r: Report)
    ensures SaveAll(c, batch, faults).tasks == c.tasks
    ensures HasRow(SaveAll(c, batch, faults), r) <==> HasRow(c, r) || Admitted(c.tasks, Tried(batch, faults), r)
  {
    if batch != [] {
      var n := |batch| - 1;
      StoredExactly(c, batch[..n], faults, r);
      SavedExactly(SaveAll(c, batch[..n], faults), batch[n].item, n in faults, r);
      assert Tried(batch, faults) == Tried(batch[..n], faults) + if n in faults then {} else {batch[n].item};
    }
  }

  /** The four answers, tested in this order. */
  lemma VerdictExactly(c: Controller, r: Report, fault: bool)
    ensures VerdictOn(c, r, fault) == UnknownTask <==> r.taskId !in c.tasks
    ensures VerdictOn(c, r, fault) == InternalError <==> r.taskId in c.tasks && fault
    ensures VerdictOn(c, r, fault) == Duplicate <==>
      && r.taskId in c.tasks && !fault
      && exists i :: 0 <= i < |c.rows| && c.rows[i].taskId == r.taskId && c.rows[i].endedAt == r.endedAt
  {
    if VerdictOn(c, r, fault) == Duplicate {
      var i :| 0 <= i < |c.rows| && SameKey(c.rows[i], r);
      assert c.rows[i].taskId == r.taskId && c.rows[i].endedAt == r.endedAt;
    }
    if i :| 0 <= i < |c.rows| && c.rows[i].taskId == r.taskId && c.rows[i].endedAt == r.endedAt {
      assert SameKey(c.rows[i], r);
    }
  }

  /** Some report of task `t` is among `tried`, and the task is assigned. */
  ghost predicate Reached(tasks: set<string>, tried: set<Report>, t: string) {
    t in tasks && exists a :: a in tried && a.taskId == t
  }

  /** Which tasks a handled batch leaves closed: those that were, and the assigned ones
      it carries a report of that met no fault, whether or not that report got a row. */
  lemma {:induction false} ClosedExactly(c: Controller, batch: seq<Held>, faults: set<nat>, t: string)
    ensures SaveAll(c, batch, faults).tasks == c.tasks
    ensures t in SaveAll(c, batch, faults).done <==> t in c.done || Reached(c.tasks, Tried(batch, faults), t)
  {
    if batch != [] {
      var n := |batch| - 1;
      ClosedExactly(c, batch[..n], faults, t);
      assert Tried(batch, faults) == Tried(batch[..n], faults) + if n in faults then {} else {batch[n].item};
    }
  }

  /** `r` is the first report of its key that the batch carries without a fault. */
  ghost predicate IsFirst(batch: seq<Held>, faults: set<nat>, r: Report) {
    exists k :: 0 <= k < |batch| && batch[k].item == r && k !in faults &&
      forall j :: 0 <= j < k && j !in faults ==> !SameKey(batch[j].item, r)
  }

  /** Where a batch carries one key twice it is the first report that gets the row. */
  lemma {:induction false} FirstOfAKeyIsStored(c: Controller, batch: seq<Held>, faults: set<nat>, i: nat)
    requires |c.rows| <= i < |SaveAll(c, batch, faults).rows|
    ensures IsFirst(batch, faults, SaveAll(c, batch, faults).rows[i])
  {
    var n := |batch| - 1;
    var m, d := SaveAll(c, batch[..n], faults), SaveAll(c, batch, faults);
    if i < |m.rows| {
      FirstOfAKeyIsStored(c, batch[..n], faults, i);
      FirstStaysFirst(batch, faults, d.rows[i]);
    } else {
      var r := batch[n].item;
      StoredExactly(c, batch[..n], faults, r);
      forall j | 0 <= j < n && j !in faults ensures !SameKey(batch[j].item, r) {
        assert batch[..n][j].item in Tried(batch[..n], faults);
      }
    }
  }

  lemma FirstStaysFirst(batch: seq<Held>, faults: set<nat>, r: Report)
    requires batch != [] && IsFirst(batch[..|batch| - 1], faults, r)
    ensures IsFirst(batch, faults, r)
  {
    var init := batch[..|batch| - 1];
    var k :| 0 <= k < |init| && init[k].item == r && k !in faults &&
      forall j :: 0 <= j < k && j !in faults ==> !SameKey(init[j].item, r);
    assert batch[k].item == r;
    assert forall j :: 0 <= j < k ==> batch[j] == init[j];
  }

  /** Saving is idempotent on (task, end time), not on the task alone: after one
      report of a task was stored, a second is refused exactly when it carries a
      key the table already has. */
  lemma IdempotentOnKeyOnly(c: Controller, a: Report, b: Report)
    requires VerdictOn(c, a, false).Stored? && a.taskId == b.taskId
    ensures VerdictOn(SaveResult(c, a, false), b, false).Duplicate? <==> a.endedAt == b.endedAt || HasRow(c, b)
  {
    var d := SaveResult(c, a, false);
    if HasRow(c, b) { RowsPersist(c, d, b); }
    if a.endedAt == b.endedAt { assert SameKey(d.rows[|c.rows|], b); }
    if HasRow(d, b) {
      var i :| 0 <= i < |d.rows| && SameKey(d.rows[i], b);
      if i < |c.rows| { assert SameKey(c.rows[i], b); }
    }
  }

  /** Two reports of one task, a second apart, both get a row. */
  lemma OneTaskTwoRows(c: Controller, id: string, at: int)
    requires id in c.tasks && c.rows == []
    ensures var a, b := Report(id, at, ""), Report(id, at + 1, "");
      SaveResult(SaveResult(c, a, false), b, false).rows == [a, b]
  {
    var a, b := Report(id, at, ""), Report(id, at + 1, "");
    IdempotentOnKeyOnly(c, a, b);
  }

  // What every run keeps ---------------------------------------------------------------------

  ghost predicate SizesRight(q: seq<Held>) {
    forall i :: 0 <= i < |q| ==> q[i].bytes == |q[i].item.body|
  }

  predicate Mentions(held: seq<Held>, r: Report) {
    exists k :: 0 <= k < |held| && held[k].item == r
  }

  ghost predicate FromProduced(c: Controller, produced: seq<Held>, initial: seq<Report>) {
    && initial <= c.rows
    && forall i :: |initial| <= i < |c.rows| ==> Mentions(produced, c.rows[i])
  }

  lemma ProducedGrows(c: Controller, produced: seq<Held>, e: Held, initial: seq<Report>)
    requires FromProduced(c, produced, initial)
    ensures FromProduced(c, produced + [e], initial)
  {
    forall i | |initial| <= i < |c.rows| ensures Mentions(produced + [e], c.rows[i]) {
      var k :| 0 <= k < |produced| && produced[k].item == c.rows[i];
      assert (produced + [e])[k].item == c.rows[i];
    }
  }

  /** The table holds exactly what it held at the start and the keys tried since for
      assigned tasks; the tasks closed are exactly those closed at the start and those
      tried since; and every acknowledged result was tried, or met a fault. */
  ghost predicate StoredAccounted(c: Controller, w: World) {
    && w.controller.tasks == c.tasks
    && (forall r :: HasRow(w.controller, r) <==> HasRow(c, r) || Admitted(c.tasks, w.tried, r))
    && (forall t :: t in w.controller.done <==> t in c.done || Reached(c.tasks, w.tried, t))
    && (forall k :: 0 <= k < |w.acked| ==> w.acked[k].item in w.tried || w.acked[k].item in w.faulted)
  }

  ghost predicate Accounted(cfg: SpoolConfig, w: World, initial: seq<Report>) {
    && |w.produced| == |w.acked| + |w.queue| + w.droppedTotal
    && IsSubsequence(w.acked + w.queue, w.produced)
    && w.reported + w.dropped == w.droppedTotal
    && Fits(cfg, w.queue) && SizesRight(w.produced) && SizesRight(w.queue)
    && KeysDistinct(w.controller) && FromProduced(w.controller, w.produced, initial)
  }

  /** A lost submission costs nothing: the batch goes back where it was and no
      drop is counted. Only the controller may have moved. */
  lemma LostSubmissionIsHarmless(cfg: SpoolConfig, w: World, applied: nat, faults: set<nat>)
    requires Fits(cfg, w.queue)
    ensures var w' := Next(cfg, w, Submit(Lost(applied, faults)));
      w' == w.(controller := w'.controller, tried := w'.tried)
  {
    TakeThenReturn(cfg, w.queue, BatchSize(w.queue));
  }

  lemma {:induction false} BatchFromProduced(w: World, initial: seq<Report>, batch: seq<Held>, faults: set<nat>)
    requires FromProduced(w.controller, w.produced, initial)
    requires forall k :: 0 <= k < |batch| ==> exists i :: 0 <= i < |w.produced| && w.produced[i] == batch[k]
    ensures FromProduced(SaveAll(w.controller, batch, faults), w.produced, initial)
  {
    SaveAllKeepsRows(w.controller, batch, faults);
    var d := SaveAll(w.controller, batch, faults);
    forall i | |initial| <= i < |d.rows| ensures Mentions(w.produced, d.rows[i]) {
      if i >= |w.controller.rows| {
        var k :| 0 <= k < |batch| && batch[k].item == d.rows[i];
        var j :| 0 <= j < |w.produced| && w.produced[j] == batch[k];
        assert w.produced[j].item == d.rows[i];
      } else {
        assert w.controller.rows[i] == d.rows[i];
      }
    }
  }

  lemma HeldWasProduced(w: World, k: nat)
    requires IsSubsequence(w.acked + w.queue, w.produced) && k < |w.queue|
    ensures exists i :: 0 <= i < |w.produced| && w.produced[i] == w.queue[k]
  {
    var at: seq<nat> :| Embeds(at, w.acked + w.queue, w.produced);
    var j := |w.acked| + k;
    assert (w.acked + w.queue)[j] == w.queue[k];
    assert w.produced[at[j]] == w.queue[k];
  }

  lemma EvictionKeepsOrder(cfg: SpoolConfig, acked: seq<Held>, q: seq<Held>, k: nat, produced: seq<Held>)
    requires IsSubsequence(acked + q, produced) && |Onset(cfg, q)| + k <= |q|
    ensures IsSubsequence(acked + Thinned(cfg, q, k), produced)
  {
    var on := Onset(cfg, q);
    var gone, recent := q[|on|..|on| + k], q[|on| + k..];
    assert acked + q == (acked + on) + gone + recent;
    LeaveOut(acked + on, gone, recent, produced);
    assert (acked + on) + recent == acked + Thinned(cfg, q, k);
  }

  lemma PushKeepsOrder(cfg: SpoolConfig, acked: seq<Held>, q: seq<Held>, e: Held, produced: seq<Held>)
    requires IsSubsequence(acked + q, produced)
    ensures IsSubsequence(acked + Pushed(cfg, q, e), produced + [e])
  {
    var k := Evictions(cfg, q, e.bytes, 0);
    var kept := acked + Thinned(cfg, q, k);
    EvictionKeepsOrder(cfg, acked, q, k, produced);
    PushSettles(cfg, q, e);
    if Refuses(cfg, q, e.bytes) {
      ExtendWhole(kept, produced, e);
    } else {
      ExtendBoth(kept, produced, e);
      assert acked + Pushed(cfg, q, e) == kept + [e];
    }
  }

  lemma PushKeepsSizes(cfg: SpoolConfig, q: seq<Held>, r: Report)
    requires SizesRight(q)
    ensures SizesRight(Pushed(cfg, q, Spooled(r)))
  {
  }

  lemma EnqueueAccounts(cfg: SpoolConfig, w: World, r: Report, initial: seq<Report>)
    requires Accounted(cfg, w, initial)
    ensures Accounted(cfg, Next(cfg, w, Enqueue(r)), initial)
  {
    var e := Spooled(r);
    var w' := Next(cfg, w, Enqueue(r));
    PushFits(cfg, w.queue, e);
    PushKeepsOrder(cfg, w.acked, w.queue, e, w.produced);
    PushKeepsSizes(cfg, w.queue, r);
    ProducedGrows(w.controller, w.produced, e, initial);
  }

  lemma LostAccounts(cfg: SpoolConfig, w: World, applied: nat, faults: set<nat>, initial: seq<Report>)
    requires Accounted(cfg, w, initial)
    ensures Accounted(cfg, Next(cfg, w, Submit(Lost(applied, faults))), initial)
  {
    var n := BatchSize(w.queue);
    var part := w.queue[..n][..Min(applied, n)];
    LostSubmissionIsHarmless(cfg, w, applied, faults);
    forall k | 0 <= k < |part| ensures exists i :: 0 <= i < |w.produced| && w.produced[i] == part[k] {
      HeldWasProduced(w, k);
    }
    BatchFromProduced(w, initial, part, faults);
    SaveAllKeepsRows(w.controller, part, faults);
  }

  lemma AckedAccounts(cfg: SpoolConfig, w: World, faults: set<nat>, initial: seq<Report>)
    requires Accounted(cfg, w, initial)
    ensures Accounted(cfg, Next(cfg, w, Submit(Acked(faults))), initial)
  {
    var n := BatchSize(w.queue);
    var batch, rest := w.queue[..n], w.queue[n..];
    var w' := Next(cfg, w, Submit(Acked(faults)));
    assert w'.acked + w'.queue == w.acked + w.queue by { assert batch + rest == w.queue; }
    SuffixFits(cfg, w.queue, n);
    forall k | 0 <= k < n ensures exists i :: 0 <= i < |w.produced| && w.produced[i] == batch[k] {
      HeldWasProduced(w, k);
    }
    BatchFromProduced(w, initial, batch, faults);
    SaveAllKeepsRows(w.controller, batch, faults);
  }

  lemma ReachedEither(tasks: set<string>, a: set<Report>, b: set<Report>, t: string)
    ensures Reached(tasks, a + b, t) <==> Reached(tasks, a, t) || Reached(tasks, b, t)
  {
    if t in tasks {
      if r :| r in a && r.taskId == t { assert r in a + b; }
      if r :| r in b && r.taskId == t { assert r in a + b; }
    }
  }

  /** Trying more of the queue extends what the table holds by exactly that. */
  lemma TryingAccounts(c: Controller, w: World, part: seq<Held>, faults: set<nat>)
    requires StoredAccounted(c, w)
    ensures var d := SaveAll(w.controller, part, faults);
      && d.tasks == c.tasks
      && (forall r :: HasRow(d, r) <==> HasRow(c, r) || Admitted(c.tasks, w.tried + Tried(part, faults), r))
      && (forall t :: t in d.done <==> t in c.done || Reached(c.tasks, w.tried + Tried(part, faults), t))
  {
    forall t ensures t in SaveAll(w.controller, part, faults).done <==>
        t in c.done || Reached(c.tasks, w.tried + Tried(part, faults), t) {
      ClosedExactly(w.controller, part, faults, t);
      ReachedEither(c.tasks, w.tried, Tried(part, faults), t);
    }
    StoredExactly(w.controller, part, faults, Report("", 0, ""));
    var d, more := SaveAll(w.controller, part, faults), Tried(part, faults);
    forall r ensures HasRow(d, r) <==> HasRow(c, r) || Admitted(c.tasks, w.tried + more, r) {
      StoredExactly(w.controller, part, faults, r);
      if Admitted(c.tasks, w.tried, r) {
        var a :| a in w.tried && SameKey(a, r) && a.taskId in c.tasks;
        assert a in w.tried + more;
      }
      if Admitted(c.tasks, more, r) {
        var a :| a in more && SameKey(a, r) && a.taskId in c.tasks;
        assert a in w.tried + more;
      }
    }
  }

  lemma SubmissionStores(cfg: SpoolConfig, c: Controller, w: World, outcome: Outcome)
    requires StoredAccounted(c, w)
    ensures StoredAccounted(c, Next(cfg, w, Submit(outcome)))
  {
    var n := BatchSize(w.queue);
    var batch := w.queue[..n];
    match outcome
    case Lost(applied, faults) => TryingAccounts(c, w, batch[..Min(applied, n)], faults);
    case Acked(faults) =>
      TryingAccounts(c, w, batch, faults);
      var w' := Next(cfg, w, Submit(outcome));
      forall k | 0 <= k < |w'.acked| ensures w'.acked[k].item in w'.tried || w'.acked[k].item in w'.faulted {
        if k >= |w.acked| {
          var j := k - |w.acked|;
          assert w'.acked[k] == batch[j];
          assert batch[j].item in Tried(batch, faults) || batch[j].item in Faulted(batch, faults);
        }
      }
  }

  lemma SuffixFits(cfg: SpoolConfig, q: seq<Held>, n: nat)
    requires n <= |q| && Fits(cfg, q)
    ensures Fits(cfg, q[n..])
  {
    assert q == q[..n] + q[n..];
    SizeConcat(q[..n], q[n..]);
  }

  /** The step ended in a message the controller acknowledged. */
  predicate Carried(s: Step) {
    s == Heartbeat(true) || (s.Submit? && s.outcome.Acked?)
  }

  /** What the acknowledged messages of a run carried: the sum of the counts pending
      just before each of them. */
  function ReportedIn(cfg: SpoolConfig, c: Controller, steps: seq<Step>): nat {
    if steps == [] then
      0
    else
      var before := steps[..|steps| - 1];
      ReportedIn(cfg, c, before) + if Carried(steps[|steps| - 1]) then Run(cfg, c, before).dropped else 0
  }

  /** The pending count is cleared by an acknowledged message and by nothing else: any
      other step adds to it just what it adds to the lifetime total. A heartbeat moves
      nothing but the count, and a failed one not even that. */
  lemma ClearedOnlyByAcknowledgement(cfg: SpoolConfig, w: World, s: Step)
    ensures var w' := Next(cfg, w, s);
      && (if s == Heartbeat(true) || (s.Submit? && s.outcome.Acked?) then w'.dropped == 0
          else w'.dropped + w.droppedTotal == w.dropped + w'.droppedTotal)
      && (s == Heartbeat(false) ==> w' == w)
      && (s == Heartbeat(true) ==> w' == w.(dropped := 0, reported := w.reported + w.dropped))
  {
  }

  /** Over every run: produced = acknowledged + held + dropped; what was
      acknowledged followed by what is held keeps production order; the drops
      already reported and those still to report make up the lifetime total, and
      those reported are what acknowledged messages carried; no result has two rows
      and no row was invented; and what has a row, and which tasks are closed, is
      known exactly. */
  lemma DeliveryAccounting(cfg: SpoolConfig, c: Controller, steps: seq<Step>)
    requires KeysDistinct(c)
    ensures Accounted(cfg, Run(cfg, c, steps), c.rows) && StoredAccounted(c, Run(cfg, c, steps))
    ensures Run(cfg, c, steps).reported == ReportedIn(cfg, c, steps)
  {
    RunAccounts(cfg, c, steps);
    ReportedExactly(cfg, c, steps);
  }

  lemma {:induction false} RunAccounts(cfg: SpoolConfig, c: Controller, steps: seq<Step>)
    requires KeysDistinct(c)
    ensures Accounted(cfg, Run(cfg, c, steps), c.rows) && StoredAccounted(c, Run(cfg, c, steps))
  {
    if steps == [] {
      StartAccounts(cfg, c);
    } else {
      var before := steps[..|steps| - 1];
      RunAccounts(cfg, c, before);
      LastStep(cfg, c, steps);
      StepAccounts(cfg, c, Run(cfg, c, before), steps[|steps| - 1]);
    }
  }

  lemma StartAccounts(cfg: SpoolConfig, c: Controller)
    requires KeysDistinct(c)
    ensures Accounted(cfg, Start(c), c.rows) && StoredAccounted(c, Start(c))
  {
    EmptyIsSubsequence<Held>([]);
    assert Start(c).acked + Start(c).queue == [];
  }

  lemma LastStep(cfg: SpoolConfig, c: Controller, steps: seq<Step>)
    requires steps != []
    ensures Run(cfg, c, steps) == Next(cfg, Run(cfg, c, steps[..|steps| - 1]), steps[|steps| - 1])
  {
  }

  lemma {:induction false} ReportedExactly(cfg: SpoolConfig, c: Controller, steps: seq<Step>)
    ensures Run(cfg, c, steps).reported == ReportedIn(cfg, c, steps)
  {
    if steps != [] {
      ReportedExactly(cfg, c, steps[..|steps| - 1]);
      LastStep(cfg, c, steps);
    }
  }

  lemma StepAccounts(cfg: SpoolConfig, c: Controller, w: World, s: Step)
    requires Accounted(cfg, w, c.rows) && StoredAccounted(c, w)
    ensures Accounted(cfg, Next(cfg, w, s), c.rows) && StoredAccounted(c, Next(cfg, w, s))
  {
    match s
    case Enqueue(r) => EnqueueAccounts(cfg, w, r, c.rows);
    case Submit(outcome) =>
      SubmissionStores(cfg, c, w, outcome);
      match outcome {
        case Lost(applied, faults) => LostAccounts(cfg, w, applied, faults, c.rows);
        case Acked(faults) => AckedAccounts(cfg, w, faults, c.rows);
      }
    case Heartbeat(ok) =>
  }

  /** No acknowledged submission met a fault. */
  ghost predicate FaultFree(steps: seq<Step>) {
    forall i :: 0 <= i < |steps| && steps[i].Submit? && steps[i].outcome.Acked? ==> steps[i].outcome.faults == {}
  }

  lemma {:induction false} FaultFreeRun(cfg: SpoolConfig, c: Controller, steps: seq<Step>)
    requires FaultFree(steps)
    ensures Run(cfg, c, steps).faulted == {}
  {
    if steps != [] {
      var before := steps[..|steps| - 1];
      FaultFreeRun(cfg, c, before);
      assert Run(cfg, c, steps) == Next(cfg, Run(cfg, c, before), steps[|steps| - 1]);
    }
  }

  /** Acknowledged does not mean stored. With no faults a result acknowledged in a run
      is stored exactly when its task is assigned, or a row with its key was there
      from the start; with faults, exactly when, besides, a report with its key was
      tried without one. */
  lemma AcknowledgedIsStored(cfg: SpoolConfig, c: Controller, steps: seq<Step>, k: nat)
    requires KeysDistinct(c) && k < |Run(cfg, c, steps).acked|
    ensures var w := Run(cfg, c, steps);
      var r := w.acked[k].item;
      && (HasRow(w.controller, r) <==>
            HasRow(c, r) || (r.taskId in c.tasks && exists a :: a in w.tried && SameKey(a, r)))
      && (FaultFree(steps) ==> (HasRow(w.controller, r) <==> HasRow(c, r) || r.taskId in c.tasks))
  {
    DeliveryAccounting(cfg, c, steps);
    var w := Run(cfg, c, steps);
    var r := w.acked[k].item;
    if FaultFree(steps) {
      FaultFreeRun(cfg, c, steps);
      assert r in w.tried && SameKey(r, r);
    }
  }

  /** A report of a task that is not this agent's: produced, submitted, acknowledged
      and nowhere to be found. */
  lemma UnassignedIsLost(cfg: SpoolConfig, c: Controller, r: Report)
    requires Fits(cfg, [Spooled(r)]) && r.taskId !in c.tasks && c.rows == []
    ensures var w := Run(cfg, c, [Enqueue(r), Submit(Acked({}))]);
      w.acked == [Spooled(r)] && w.queue == [] && w.droppedTotal == 0 && !HasRow(w.controller, r)
  {
    var steps := [Enqueue(r), Submit(Acked({}))];
    assert steps[..1] == [Enqueue(r)] && [Enqueue(r)][..0] == [];
    SizeOne(Spooled(r));
    var v := Next(cfg, Start(c), Enqueue(r));
    assert Onset(cfg, Start(c).queue) == [];
    assert v.queue == [Spooled(r)];
    var w := Next(cfg, v, Submit(Acked({})));
    assert [Spooled(r)][..1] == [Spooled(r)];
    StoredExactly(c, [Spooled(r)], {}, r);
    assert RunFrom(cfg, Start(c), steps[..1]) == Next(cfg, RunFrom(cfg, Start(c), []), steps[0]);
    assert Run(cfg, c, steps) == Next(cfg, RunFrom(cfg, Start(c), steps[..1]), steps[1]);
  }

  // A whole outage ------------------------------------------------------------------------------

  /** Nothing is acknowledged: results come in, submissions are lost, heartbeats
      succeed or fail. */
  ghost predicate NothingAcked(steps: seq<Step>) {
    forall i :: 0 <= i < |steps| && steps[i].Submit? ==> steps[i].outcome.Lost?
  }

  /** The results a stretch of steps produces. */
  function Results(steps: seq<Step>): seq<Held> {
    if steps == [] then
      []
    else
      var s := steps[|steps| - 1];
      Results(steps[..|steps| - 1]) + if s.Enqueue? then [Spooled(s.report)] else []
  }

  lemma {:induction false} OutageIsPushes(cfg: SpoolConfig, w: World, steps: seq<Step>)
    requires Fits(cfg, w.queue) && NothingAcked(steps)
    ensures var w' := RunFrom(cfg, w, steps);
      && w'.produced == w.produced + Results(steps)
      && w'.queue == PushAll(cfg, w.queue, Results(steps)).queue && Fits(cfg, w'.queue)
  {
    if steps != [] {
      var before, s := steps[..|steps| - 1], steps[|steps| - 1];
      var more := if s.Enqueue? then [Spooled(s.report)] else [];
      assert NothingAcked(before);
      OutageIsPushes(cfg, w, before);
      OutageStep(cfg, w.queue, RunFrom(cfg, w, before), Results(before), s);
      assert Results(steps) == Results(before) + more;
      assert w.produced + Results(steps) == w.produced + Results(before) + more;
    } else {
      assert w.produced + [] == w.produced;
    }
  }

  lemma OutageStep(cfg: SpoolConfig, q: seq<Held>, v: World, pushed: seq<Held>, s: Step)
    requires v.queue == PushAll(cfg, q, pushed).queue && Fits(cfg, v.queue)
    requires s.Submit? ==> s.outcome.Lost?
    ensures var v' := Next(cfg, v, s);
      var more := if s.Enqueue? then [Spooled(s.report)] else [];
      && v'.produced == v.produced + more
      && v'.queue == PushAll(cfg, q, pushed + more).queue && Fits(cfg, v'.queue)
  {
    if s.Enqueue? {
      var e := Spooled(s.report);
      assert (pushed + [e])[..|pushed|] == pushed;
      PushFits(cfg, v.queue, e);
    } else {
      assert pushed + [] == pushed;
      if s.Submit? {
        LostSubmissionIsHarmless(cfg, v, s.outcome.applied, s.outcome.faults);
      }
    }
  }

  /** From the last acknowledgement on, whatever it left behind, the spool holds what
      pushing alone would have left: failed drains and heartbeats leave no trace. */
  lemma OutageKeepsOnsetAndRecent(cfg: SpoolConfig, w: World, steps: seq<Step>)
    returns (since: seq<Held>, j: nat)
    requires Fits(cfg, w.queue) && NothingAcked(steps)
    ensures RunFrom(cfg, w, steps).produced == w.produced + Results(steps)
    ensures PushAll(cfg, w.queue, Results(steps)).accepted == w.queue + since
    ensures HoldsEnds(cfg, RunFrom(cfg, w, steps).queue, w.queue, since, j)
  {
    OutageIsPushes(cfg, w, steps);
    since, j := EndsAreHeld(cfg, w.queue, Results(steps));
  }

  /** The reserve is for the onset of the new outage, as its comment has it, exactly
      when nothing was left over, or there is room in it for everything, or nothing to
      protect. */
  lemma ReserveIsForTheOnset(cfg: SpoolConfig, left: seq<Held>, since: seq<Held>)
    ensures Protected(cfg, left, since) == Min(cfg.onsetReserve, |since|) <==>
      left == [] || |left| + |since| <= cfg.onsetReserve || cfg.onsetReserve == 0 || since == []
  {
  }

  // An outage whose onset is lost -------------------------------------------------------------

  const TIGHT := SpoolConfig(101, 1, 1)

  function Numbered(from: nat, n: nat): seq<Report> {
    seq(n, i => Report("t", from + i, ""))
  }

  function Enqueues(rs: seq<Report>): (steps: seq<Step>)
    ensures |steps| == |rs| && NothingAcked(steps)
  {
    seq(|rs|, i requires 0 <= i < |rs| => Enqueue(rs[i]))
  }

  lemma {:induction false} ResultsOfEnqueues(rs: seq<Report>)
    ensures |Results(Enqueues(rs))| == |rs|
    ensures forall i :: 0 <= i < |rs| ==> Results(Enqueues(rs))[i] == Spooled(rs[i])
  {
    if rs != [] {
      var n := |rs| - 1;
      ResultsOfEnqueues(rs[..n]);
      assert Enqueues(rs)[..n] == Enqueues(rs[..n]);
    }
  }

  /** 101 results come in; a drain delivers a full batch of 100 and loses the rest. */
  function HalfDrained(c: Controller): World {
    var full := RunFrom(TIGHT, Start(c), Enqueues(Numbered(0, 101)));
    Next(TIGHT, Next(TIGHT, full, Submit(Acked({}))), Submit(Lost(0, {})))
  }

  lemma FilledUp(c: Controller)
    ensures var q := RunFrom(TIGHT, Start(c), Enqueues(Numbered(0, 101))).queue;
      |q| == 101 && q[100] == Spooled(Report("t", 100, "")) && Fits(TIGHT, q)
  {
    var rs := Numbered(0, 101);
    var es := Results(Enqueues(rs));
    ResultsOfEnqueues(rs);
    EmptyEntries(es);
    assert [] + es == es;
    RoomForAll(TIGHT, [], es);
    OutageIsPushes(TIGHT, Start(c), Enqueues(rs));
  }

  lemma OneLeftOver(c: Controller)
    ensures HalfDrained(c).queue == [Spooled(Report("t", 100, ""))] && Fits(TIGHT, HalfDrained(c).queue)
  {
    var full := RunFrom(TIGHT, Start(c), Enqueues(Numbered(0, 101)));
    FilledUp(c);
    var acked := Next(TIGHT, full, Submit(Acked({})));
    assert acked.queue == full.queue[100..] == [full.queue[100]];
    EmptyEntries(acked.queue);
    LostSubmissionIsHarmless(TIGHT, acked, 0, {});
  }

  /** Then 101 more come in before the next acknowledgement: the result left over holds
      the one reserved place, and the first of the new outage is gone. */
  lemma OnsetLost(c: Controller)
    ensures var w := RunFrom(TIGHT, HalfDrained(c), Enqueues(Numbered(101, 101)));
      && w.queue != [] && w.queue[0].item.endedAt == 100
      && forall k :: 0 <= k < |w.queue| ==> w.queue[k].item.endedAt != 101
  {
    var rs := Numbered(101, 101);
    var left, es := HalfDrained(c).queue, Results(Enqueues(rs));
    OneLeftOver(c);
    ResultsOfEnqueues(rs);
    WeightlessAccepted(TIGHT, left, es);
    var since, j := OutageKeepsOnsetAndRecent(TIGHT, HalfDrained(c), Enqueues(rs));
    assert |left + since| == 102;
    GapAtOne(left, es, since, j);
  }

  lemma GapAtOne(left: seq<Held>, es: seq<Held>, since: seq<Held>, j: nat)
    requires left == [Spooled(Report("t", 100, ""))] && left + since == left + es && |es| == 101 && 2 <= j <= 102
    requires forall i :: 0 <= i < 101 ==> es[i].item.endedAt == 101 + i
    ensures var q := Onset(TIGHT, left + since) + (left + since)[j..];
      && q != [] && q[0].item.endedAt == 100
      && forall k :: 0 <= k < |q| ==> q[k].item.endedAt != 101
  {
    var all := left + es;
    forall k | 1 <= k < |all| ensures all[k].item.endedAt == 100 + k {
      assert all[k] == es[k - 1];
    }
  }

  // The agent's side of the protocol ------------------------------------------------------------

  /** The steps `drain_spool` takes: submit until the spool is empty, a batch was
      short, or a submission is lost. `net(i)` is how the i-th submission ends. */
  ghost function Drained(cfg: SpoolConfig, w: World, net: nat -> Outcome, i: nat): World
    decreases |w.queue|
  {
    if w.queue == [] then
      w
    else
      var w' := Next(cfg, w, Submit(net(i)));
      if net(i).Acked? && BatchSize(w.queue) == SUBMIT_BATCH then Drained(cfg, w', net, i + 1) else w'
  }

  /** While every submission is answered, one drain empties the spool in order. */
  lemma {:induction false} AnsweredDrainEmpties(cfg: SpoolConfig, w: World, net: nat -> Outcome, i: nat)
    requires forall k :: net(k).Acked?
    ensures var w' := Drained(cfg, w, net, i);
      w'.queue == [] && w'.acked == w.acked + w.queue && w'.droppedTotal == w.droppedTotal
    decreases |w.queue|
  {
    if w.queue != [] {
      var n := BatchSize(w.queue);
      assert w.queue == w.queue[..n] + w.queue[n..];
      var w' := Next(cfg, w, Submit(net(i)));
      if n == SUBMIT_BATCH {
        AnsweredDrainEmpties(cfg, w', net, i + 1);
      }
    }
  }

  class Agent {
    const spool: Spool<Report>
    ghost var world: World

    ghost predicate Valid()
      reads this, spool
    {
      && spool.Valid()
      && world.queue == spool.entries && SizesRight(spool.entries) && Fits(spool.cfg, spool.entries)
      && world.dropped == spool.dropped && world.droppedTotal == spool.droppedTotal
    }

    constructor (cfg: SpoolConfig, ghost c: Controller)
      ensures Valid() && fresh(spool) && spool.cfg == cfg && world == Start(c)
    {
      spool := new Spool(cfg);
      world := Start(c);
    }

    method Enqueue(r: Report)
      requires Valid()
      modifies this, spool
      ensures Valid() && world == Next(spool.cfg, old(world), Step.Enqueue(r))
      ensures var lost := |old(spool.entries)| + 1 - |spool.entries|;
        lost >= 0 && spool.dropped == old(spool.dropped) + lost && spool.droppedTotal == old(spool.droppedTotal) + lost
    {
      PushKeepsSizes(spool.cfg, spool.entries, r);
      PushFits(spool.cfg, spool.entries, Spooled(r));
      var outcome := spool.Push(r, r.Length());
      world := Next(spool.cfg, world, Step.Enqueue(r));
    }

    method HeartbeatSent(ok: bool)
      requires Valid()
      modifies this, spool
      ensures Valid() && world == Next(spool.cfg, old(world), Heartbeat(ok))
      ensures spool.dropped == if ok then 0 else old(spool.dropped)
      ensures spool.entries == old(spool.entries) && spool.droppedTotal == old(spool.droppedTotal)
    {
      if ok {
        spool.ClearDropped();
      }
      world := Next(spool.cfg, world, Heartbeat(ok));
    }

    /** One submission; `n` is how many reports it carried. */
    method SubmitBatch(outcome: Outcome) returns (n: nat)
      requires Valid()
      modifies this, spool
      ensures Valid() && world == Next(spool.cfg, old(world), Submit(outcome))
      ensures n == if |old(spool.entries)| < 100 then |old(spool.entries)| else 100
      ensures spool.entries == if outcome.Acked? then old(spool.entries)[n..] else old(spool.entries)
      ensures spool.dropped == if outcome.Acked? then 0 else old(spool.dropped)
      ensures spool.droppedTotal == old(spool.droppedTotal)
    {
      ghost var q := spool.entries;
      var batch := spool.Take(SUBMIT_BATCH);
      n := |batch|;
      world := Next(spool.cfg, world, Submit(outcome));
      if outcome.Acked? {
        spool.ClearDropped();
        SuffixFits(spool.cfg, q, n);
      } else {
        GiveBack(batch, q);
        TakeThenReturn(spool.cfg, q, n);
      }
    }

    /** Return a batch just taken off `q`, each report at the size it serialises to. */
    method GiveBack(batch: seq<Report>, ghost q: seq<Held>)
      requires spool.Valid() && SizesRight(q) && |batch| <= |q| && spool.entries == q[|batch|..]
      requires forall k :: 0 <= k < |batch| ==> batch[k] == q[k].item
      modifies spool
      ensures spool.Valid() && spool.entries == Readmitted(spool.cfg, q[..|batch|], q[|batch|..])
      ensures SizesRight(spool.entries)
      ensures var lost := |q| - |spool.entries|;
        lost >= 0 && spool.dropped == old(spool.dropped) + lost && spool.droppedTotal == old(spool.droppedTotal) + lost
    {
      var n := |batch|;
      var restored := seq(n, k requires 0 <= k < n => (batch[k], batch[k].Length()));
      assert Sized(restored) == q[..n];
      spool.ReturnUnsent(restored);
      ReadmittedMaximal(spool.cfg, q[..n], q[n..]);
      assert q[..n] + q[n..] == q;
    }

    method DrainSpool(net: nat -> Outcome)
      requires Valid()
      modifies this, spool
      ensures Valid() && world == Drained(spool.cfg, old(world), net, 0)
      ensures (forall k :: net(k).Acked?) ==> spool.entries == [] && spool.droppedTotal == old(spool.droppedTotal)
    {
      ghost var all := forall k :: net(k).Acked?;
      if all {
        AnsweredDrainEmpties(spool.cfg, world, net, 0);
      }
      var i := 0;
      while spool.entries != []
        invariant Valid()
        invariant Drained(spool.cfg, old(world), net, 0) == Drained(spool.cfg, world, net, i)
        decreases |spool.entries|
      {
        var n := SubmitBatch(net(i));
        if !net(i).Acked? || n < SUBMIT_BATCH {
          break;
        }
        i := i + 1;
      }
    }
  }
}
