/** The resumable serial orchestrator: one persisted index, replayed over any sequence of
    invocations, exit codes and interruptions. */
module Orchestrator {
  import opened Common

  datatype Cell = Cell(arm: char, seed: int)

  datatype RunState = InProgress | Completed | PerfDrift | Failed

  datatype CellRecord = CellRecord(state: RunState, dryRun: bool)

  /** The persisted run index. */
  datatype Index = Index(hasMeta: bool, verdict: Option<int>, cells: map<Cell, CellRecord>)

  /** The launch order, and after how many runs the trigger evaluation is handed off. */
  datatype Plan = Plan(order: seq<Cell>, evalAfter: nat)

  ghost predicate ValidPlan(plan: Plan)
  {
    && 0 < plan.evalAfter <= |plan.order|
    && forall i, j :: 0 <= i < j < |plan.order| ==> plan.order[i] != plan.order[j]
  }

  const LAUNCH_ORDER: seq<Cell> := [
    Cell('A', 42), Cell('D', 42), Cell('B', 42), Cell('C', 42),
    Cell('A', 43), Cell('D', 43), Cell('B', 43), Cell('C', 43),
    Cell('A', 44), Cell('D', 44), Cell('B', 44), Cell('C', 44)]

  const PHASE3 := Plan(LAUNCH_ORDER, 8)

  /** Twelve cells, four arms for each of three seeds, with the evaluation after the eighth. */
  lemma Phase3IsValid()
    ensures ValidPlan(PHASE3) && |PHASE3.order| == 12 && PHASE3.evalAfter == 8
    ensures forall i :: 0 <= i < 12 ==> PHASE3.order[i] == Cell("ADBC"[i % 4], 42 + i / 4)
  {
  }

  /** One invocation: whether it is a dry run, what each launch would exit with, what the
      trigger evaluation would report, and after how many externally visible actions the
      process is killed. */
  datatype Invocation = Invocation(dryRun: bool, exitCode: nat -> int, verdict: int, lifetime: nat)

  /** What happened, across invocations: cell `i` was launched, its completion was persisted,
      the trigger evaluation was handed off. */
  datatype Event = Launched(i: nat) | Finished(i: nat) | Handoff

  /** The disk, the history, the actions left before the process is killed, and whether the
      invocation is over. */
  datatype Sys = Sys(disk: Index, history: seq<Event>, left: nat, over: bool)

  /** A record left by a dry run does not count. */
  predicate Done(disk: Index, cell: Cell)
  {
    cell in disk.cells && disk.cells[cell].state == Completed && !disk.cells[cell].dryRun
  }

  function StateFor(rc: int): RunState
  {
    if rc == 4 then PerfDrift else if rc == 0 then Completed else Failed
  }

  // ---------- Actions ----------

  function Killed(s: Sys): Sys { s.(over := true) }

  /** Replaces the persisted index, unless the process is killed first. */
  function Persist(s: Sys, disk: Index): Sys
  {
    if s.over || s.left == 0 then Killed(s) else s.(disk := disk, left := s.left - 1)
  }

  function Note(s: Sys, e: Event): Sys
  {
    if s.over || s.left == 0 then Killed(s) else s.(history := s.history + [e], left := s.left - 1)
  }

  /** Replacing the index with one that marks cell `i` completed. */
  function PersistFinish(s: Sys, disk: Index, i: nat): Sys
  {
    if s.over || s.left == 0 then Killed(s)
    else s.(disk := disk, history := s.history + [Finished(i)], left := s.left - 1)
  }

  function WithCell(disk: Index, cell: Cell, state: RunState): Index
  {
    disk.(cells := disk.cells[cell := CellRecord(state, false)])
  }

  // ---------- One invocation, position by position ----------

  function Begin(s: Sys, inv: Invocation): Sys
  {
    if s.disk.hasMeta || inv.dryRun then s else Persist(s, s.disk.(hasMeta := true))
  }

  /** Launches cell `i` and persists how it ended; a failure ends the invocation. */
  function RunCell(plan: Plan, s: Sys, inv: Invocation, i: nat): Sys
    requires i < |plan.order|
  {
    var cell, rc := plan.order[i], inv.exitCode(i);
    var marked := Persist(s, WithCell(s.disk, cell, InProgress));
    var launched := Note(marked, Launched(i));
    if rc == 0 then PersistFinish(launched, WithCell(launched.disk, cell, Completed), i)
    else Killed(Persist(launched, WithCell(launched.disk, cell, StateFor(rc))))
  }

  function HandOff(s: Sys, inv: Invocation): Sys
  {
    var noted := Note(s, Handoff);
    Persist(noted, noted.disk.(verdict := Some(inv.verdict)))
  }

  function Position(plan: Plan, s: Sys, inv: Invocation, i: nat): Sys
    requires i < |plan.order|
  {
    if s.over || Done(s.disk, plan.order[i]) || inv.dryRun then s
    else
      var ran := RunCell(plan, s, inv, i);
      if ran.over || i + 1 != plan.evalAfter then ran else HandOff(ran, inv)
  }

  function Positions(plan: Plan, s: Sys, inv: Invocation, n: nat): Sys
    requires n <= |plan.order|
  {
    if n == 0 then s else Position(plan, Positions(plan, s, inv, n - 1), inv, n - 1)
  }

  /** One whole invocation, from the persisted index. */
  function Invoke(plan: Plan, disk: Index, history: seq<Event>, inv: Invocation): Sys
  {
    Positions(plan, Begin(Sys(disk, history, inv.lifetime, false), inv), inv, |plan.order|)
  }

  lemma {:induction false} OverStaysOver(plan: Plan, s: Sys, inv: Invocation, i: nat, n: nat)
    requires i <= n <= |plan.order| && Positions(plan, s, inv, i).over
    ensures Positions(plan, s, inv, n) == Positions(plan, s, inv, i)
    decreases n
  {
    if i < n { OverStaysOver(plan, s, inv, i, n - 1); }
  }

  /** The launch loop: it updates its index, persists it at each step, and stops when the
      process is killed or a cell fails. */
  method RunInvocation(plan: Plan, disk0: Index, ghost history0: seq<Event>, inv: Invocation)
    returns (disk: Index, ghost history: seq<Event>)
    ensures disk == Invoke(plan, disk0, history0, inv).disk
    ensures history == Invoke(plan, disk0, history0, inv).history
  {
    disk, history := disk0, history0;
    var idx := disk;
    var left := inv.lifetime;
    ghost var start := Begin(Sys(disk0, history0, inv.lifetime, false), inv);
    if !idx.hasMeta {
      idx := idx.(hasMeta := true);
      if !inv.dryRun {
        if left == 0 { OverStaysOver(plan, start, inv, 0, |plan.order|); return; }
        disk, left := idx, left - 1;
      }
    }
    for i := 0 to |plan.order|
      invariant Positions(plan, start, inv, i) == Sys(disk, history, left, false)
      invariant idx.cells == disk.cells && idx.verdict == disk.verdict && (!inv.dryRun ==> idx == disk)
    {
      ghost var after := Position(plan, Sys(disk, history, left, false), inv, i);
      if after.over { OverStaysOver(plan, start, inv, i + 1, |plan.order|); }
      var cell := plan.order[i];
      if Done(idx, cell) || inv.dryRun {
        continue;
      }
      idx := WithCell(idx, cell, InProgress);
      if left == 0 { return; }
      disk, left := idx, left - 1;

      if left == 0 { return; }
      history, left := history + [Launched(i)], left - 1;
      var rc := inv.exitCode(i);

      idx := WithCell(idx, cell, if rc == 4 then PerfDrift else if rc == 0 then Completed else Failed);
      if left == 0 { return; }
      disk, left := idx, left - 1;
      if rc != 0 { return; }
      history := history + [Finished(i)];

      if i + 1 == plan.evalAfter {
        if left == 0 { return; }
        history, left := history + [Handoff], left - 1;
        idx := idx.(verdict := Some(inv.verdict));
        if left == 0 { return; }
        disk, left := idx, left - 1;
      }
    }
  }

  // ---------- Safety over whole runs ----------

  /** Any number of invocations, one after another. */
  function Campaign(plan: Plan, disk: Index, invs: seq<Invocation>): (Index, seq<Event>)
  {
    if invs == [] then (disk, [])
    else
      var before := Campaign(plan, disk, invs[..|invs| - 1]);
      var s := Invoke(plan, before.0, before.1, invs[|invs| - 1]);
      (s.disk, s.history)
  }

  ghost predicate Has(history: seq<Event>, e: Event, before: nat)
  {
    exists t :: 0 <= t < before && t < |history| && history[t] == e
  }

  /** What every event of the history was preceded by. */
  ghost predicate Lawful(plan: Plan, history: seq<Event>, t: nat)
    requires t < |history|
  {
    match history[t]
    case Launched(i) =>
      && i < |plan.order|
      && (forall j :: 0 <= j < i ==> Has(history, Finished(j), t))
      && !Has(history, Finished(i), t)
    case Finished(i) => t > 0 && history[t - 1] == Launched(i)
    case Handoff => t > 0 && plan.evalAfter > 0 && history[t - 1] == Finished(plan.evalAfter - 1)
  }

  /** The history is lawful, the disk knows exactly the cells that finished, and it holds a
      verdict only if the evaluation was handed off. */
  ghost predicate Safe(plan: Plan, disk: Index, history: seq<Event>)
  {
    && (forall t :: 0 <= t < |history| ==> Lawful(plan, history, t))
    && (disk.verdict.Some? ==> Has(history, Handoff, |history|))
    && forall i :: 0 <= i < |plan.order| ==> (Done(disk, plan.order[i]) <==> Has(history, Finished(i), |history|))
  }

  lemma Extend(plan: Plan, history: seq<Event>, e: Event)
    requires forall t :: 0 <= t < |history| ==> Lawful(plan, history, t)
    requires Lawful(plan, history + [e], |history|)
    ensures forall t :: 0 <= t < |history| + 1 ==> Lawful(plan, history + [e], t)
    ensures forall f :: Has(history + [e], f, |history| + 1) <==> Has(history, f, |history|) || f == e
  {
    var longer := history + [e];
    forall f, n: nat | n <= |history| ensures Has(longer, f, n) <==> Has(history, f, n) {
      HasPrefix(history, e, f, n);
    }
    forall t | 0 <= t < |longer| ensures Lawful(plan, longer, t) {
      if t < |history| { assert Lawful(plan, history, t); }
    }
    forall f ensures Has(longer, f, |longer|) <==> Has(history, f, |history|) || f == e {
      HasLast(history, e, f);
    }
  }

  lemma HasPrefix(history: seq<Event>, e: Event, f: Event, n: nat)
    requires n <= |history|
    ensures Has(history + [e], f, n) <==> Has(history, f, n)
  {
    if t :| 0 <= t < n && history[t] == f { assert (history + [e])[t] == f; }
  }

  lemma HasLast(history: seq<Event>, e: Event, f: Event)
    ensures Has(history + [e], f, |history| + 1) <==> Has(history, f, |history|) || f == e
  {
    if t :| 0 <= t < |history| && history[t] == f { assert (history + [e])[t] == f; }
    assert (history + [e])[|history|] == e;
  }

  /** Every cell before position `n` is done. */
  ghost predicate DoneBefore(plan: Plan, disk: Index, n: nat)
    requires n <= |plan.order|
  {
    forall j :: 0 <= j < n ==> Done(disk, plan.order[j])
  }

  lemma LaunchIsLawful(plan: Plan, disk: Index, history: seq<Event>, i: nat)
    requires Safe(plan, disk, history) && i < |plan.order|
    requires DoneBefore(plan, disk, i) && !Done(disk, plan.order[i])
    ensures Safe(plan, disk, history + [Launched(i)])
  {
    forall f ensures Has(history + [Launched(i)], f, |history|) <==> Has(history, f, |history|) {
      HasPrefix(history, Launched(i), f, |history|);
    }
    Extend(plan, history, Launched(i));
  }

  /** Marking a cell that is not done as anything but completed. */
  lemma MarkIsSafe(plan: Plan, disk: Index, history: seq<Event>, i: nat, state: RunState)
    requires ValidPlan(plan) && i < |plan.order| && state != Completed
    requires Safe(plan, disk, history) && !Done(disk, plan.order[i])
    ensures var disk' := WithCell(disk, plan.order[i], state);
      && Safe(plan, disk', history) && !Done(disk', plan.order[i])
      && forall n :: 0 <= n <= |plan.order| && DoneBefore(plan, disk, n) ==> DoneBefore(plan, disk', n)
  {
  }

  /** Marking a cell completed right after its launch. */
  lemma FinishIsSafe(plan: Plan, disk: Index, history: seq<Event>, i: nat)
    requires ValidPlan(plan) && i < |plan.order| && Safe(plan, disk, history) && DoneBefore(plan, disk, i)
    requires history != [] && history[|history| - 1] == Launched(i)
    ensures var disk' := WithCell(disk, plan.order[i], Completed);
      Safe(plan, disk', history + [Finished(i)]) && DoneBefore(plan, disk', i + 1)
  {
    Extend(plan, history, Finished(i));
  }

  lemma RunCellIsSafe(plan: Plan, s: Sys, inv: Invocation, i: nat)
    requires ValidPlan(plan) && i < |plan.order| && !s.over
    requires Safe(plan, s.disk, s.history) && DoneBefore(plan, s.disk, i) && !Done(s.disk, plan.order[i])
    ensures var r := RunCell(plan, s, inv, i);
      && Safe(plan, r.disk, r.history)
      && (!r.over ==> DoneBefore(plan, r.disk, i + 1) && r.history != [] && r.history[|r.history| - 1] == Finished(i))
  {
    var cell, rc := plan.order[i], inv.exitCode(i);
    var disk, h := WithCell(s.disk, cell, InProgress), s.history + [Launched(i)];
    MarkIsSafe(plan, s.disk, s.history, i, InProgress);
    LaunchIsLawful(plan, disk, s.history, i);
    if rc == 0 {
      FinishIsSafe(plan, disk, h, i);
    } else {
      MarkIsSafe(plan, disk, h, i, StateFor(rc));
    }
  }

  /** Safe, with every cell before position `n` done unless the invocation is over or dry. */
  ghost predicate Sound(plan: Plan, s: Sys, inv: Invocation, n: nat)
    requires n <= |plan.order|
  {
    Safe(plan, s.disk, s.history) && (!s.over && !inv.dryRun ==> DoneBefore(plan, s.disk, n))
  }

  lemma HandOffIsSafe(plan: Plan, s: Sys, inv: Invocation, n: nat)
    requires ValidPlan(plan) && n == plan.evalAfter && !s.over && Sound(plan, s, inv, n)
    requires s.history != [] && s.history[|s.history| - 1] == Finished(n - 1)
    ensures Sound(plan, HandOff(s, inv), inv, n)
  {
    if s.left > 0 {
      Extend(plan, s.history, Handoff);
    }
  }

  lemma PositionIsSafe(plan: Plan, s: Sys, inv: Invocation, i: nat)
    requires ValidPlan(plan) && i < |plan.order| && Sound(plan, s, inv, i)
    ensures Sound(plan, Position(plan, s, inv, i), inv, i + 1)
  {
    if !s.over && !inv.dryRun && !Done(s.disk, plan.order[i]) {
      RunCellIsSafe(plan, s, inv, i);
      var ran := RunCell(plan, s, inv, i);
      if !ran.over && i + 1 == plan.evalAfter {
        HandOffIsSafe(plan, ran, inv, i + 1);
      }
    }
  }

  /** What holds after the first `n` positions. */
  ghost predicate SoundAfter(plan: Plan, s: Sys, inv: Invocation, n: nat)
    requires n <= |plan.order|
  {
    Sound(plan, Positions(plan, s, inv, n), inv, n)
  }

  lemma NextPositionIsSafe(plan: Plan, s: Sys, inv: Invocation, n: nat)
    requires ValidPlan(plan) && n < |plan.order| && SoundAfter(plan, s, inv, n)
    ensures SoundAfter(plan, s, inv, n + 1)
  {
    PositionIsSafe(plan, Positions(plan, s, inv, n), inv, n);
  }

  lemma {:induction false} InvocationIsSafe(plan: Plan, s: Sys, inv: Invocation, n: nat)
    requires ValidPlan(plan) && n <= |plan.order| && Safe(plan, s.disk, s.history)
    ensures SoundAfter(plan, s, inv, n)
  {
    if n > 0 {
      InvocationIsSafe(plan, s, inv, n - 1);
      NextPositionIsSafe(plan, s, inv, n - 1);
    }
  }

  /** From an index in which nothing really completed, however many times the orchestrator is
      invoked, dry or not, whatever its cells exit with and whenever it is killed. */
  lemma {:induction false} CampaignIsSafe(plan: Plan, disk: Index, invs: seq<Invocation>)
    requires ValidPlan(plan) && disk.verdict == None && forall i :: 0 <= i < |plan.order| ==> !Done(disk, plan.order[i])
    ensures var end := Campaign(plan, disk, invs); Safe(plan, end.0, end.1)
  {
    if invs != [] {
      var n := |invs| - 1;
      CampaignIsSafe(plan, disk, invs[..n]);
      var before := Campaign(plan, disk, invs[..n]);
      var s := Begin(Sys(before.0, before.1, invs[n].lifetime, false), invs[n]);
      assert Safe(plan, s.disk, s.history);
      InvocationIsSafe(plan, s, invs[n], |plan.order|);
    }
  }

  // ---------- What safety means ----------

  lemma FinishedAfterPredecessors(plan: Plan, disk: Index, history: seq<Event>, t: nat, i: nat, j: nat)
    requires Safe(plan, disk, history) && t < |history| && history[t] == Finished(i) && j < i
    ensures Has(history, Finished(j), t)
  {
    assert Lawful(plan, history, t);
    assert Lawful(plan, history, t - 1);
    assert Has(history, Finished(j), t - 1);
  }

  /** The completed cells are a prefix of the launch order. */
  lemma CompletedCellsArePrefix(plan: Plan, disk: Index, history: seq<Event>, j: nat, i: nat)
    requires Safe(plan, disk, history) && j < i < |plan.order| && Done(disk, plan.order[i])
    ensures Done(disk, plan.order[j])
  {
    var t :| 0 <= t < |history| && history[t] == Finished(i);
    FinishedAfterPredecessors(plan, disk, history, t, i, j);
    var u :| 0 <= u < t && history[u] == Finished(j);
    assert Has(history, Finished(j), |history|);
  }

  /** A completed cell is never launched again, and completes only once. */
  lemma NoRelaunch(plan: Plan, disk: Index, history: seq<Event>, t: nat, u: nat, i: nat)
    requires Safe(plan, disk, history) && t < u < |history| && history[t] == Finished(i)
    ensures history[u] != Launched(i) && history[u] != Finished(i)
  {
    assert Lawful(plan, history, u);
    if history[u] == Launched(i) {
      assert Has(history, Finished(i), u);
    } else if history[u] == Finished(i) {
      assert Lawful(plan, history, u - 1);
      assert t != u - 1;
      assert Has(history, Finished(i), u - 1);
    }
  }

  /** The trigger evaluation is handed off at most once, and only when the first `evalAfter`
      cells have completed. */
  lemma HandoffOnceAndReady(plan: Plan, disk: Index, history: seq<Event>, t: nat)
    requires ValidPlan(plan) && Safe(plan, disk, history) && t < |history| && history[t] == Handoff
    ensures forall u :: 0 <= u < |history| && history[u] == Handoff ==> u == t
    ensures forall j :: 0 <= j < plan.evalAfter ==> Has(history, Finished(j), t)
  {
    var last: nat := plan.evalAfter - 1;
    assert Lawful(plan, history, t);
    forall u | 0 <= u < |history| && history[u] == Handoff ensures u == t {
      assert Lawful(plan, history, u);
      if u < t { NoRelaunch(plan, disk, history, u - 1, t - 1, last); }
      if t < u { NoRelaunch(plan, disk, history, t - 1, u - 1, last); }
    }
    forall j: nat | j < plan.evalAfter ensures Has(history, Finished(j), t) {
      if j < last { FinishedAfterPredecessors(plan, disk, history, t - 1, last, j); }
    }
  }

  // ---------- What is written ----------

  /** Launching a cell, by how many actions the process has left: nothing; its record says in
      progress; it is launched as well; its record says how it ended. Nothing else changes. */
  lemma RunCellWrites(plan: Plan, s: Sys, inv: Invocation, i: nat)
    requires i < |plan.order| && !s.over
    ensures var r, cell, rc := RunCell(plan, s, inv, i), plan.order[i], inv.exitCode(i);
      && r.disk.hasMeta == s.disk.hasMeta && r.disk.verdict == s.disk.verdict
      && (forall c :: c != cell ==> (c in r.disk.cells <==> c in s.disk.cells) && (c in s.disk.cells ==> r.disk.cells[c] == s.disk.cells[c]))
      && (s.left == 0 ==> r.disk == s.disk)
      && (s.left > 0 ==> cell in r.disk.cells && !r.disk.cells[cell].dryRun)
      && (1 <= s.left <= 2 ==> r.disk.cells[cell].state == InProgress)
      && (s.left >= 3 && rc == 0 ==> r.disk.cells[cell].state == Completed)
      && (s.left >= 3 && rc == 4 ==> r.disk.cells[cell].state == PerfDrift)
      && (s.left >= 3 && rc != 0 && rc != 4 ==> r.disk.cells[cell].state == Failed)
    ensures var r, rc := RunCell(plan, s, inv, i), inv.exitCode(i);
      && (r.over <==> s.left < 3 || rc != 0)
      && (s.left < 2 ==> r.history == s.history)
      && (s.left >= 2 && (s.left == 2 || rc != 0) ==> r.history == s.history + [Launched(i)])
      && (s.left >= 3 && rc == 0 ==> r.history == s.history + [Launched(i), Finished(i)] && r.left == s.left - 3)
  {
  }

  /** A position is skipped if the cell's record says completed and was not left by a dry run, or
      if the invocation is dry; otherwise the cell is launched, whatever its record says. */
  lemma PositionRuns(plan: Plan, s: Sys, inv: Invocation, i: nat)
    requires i < |plan.order| && !s.over
    ensures var cell, r := plan.order[i], Position(plan, s, inv, i);
      var completed := cell in s.disk.cells && s.disk.cells[cell] == CellRecord(Completed, false);
      && (inv.dryRun || completed ==> r == s)
      && (!inv.dryRun && !completed && s.left >= 2 ==> s.history + [Launched(i)] <= r.history)
      && (!inv.dryRun && !completed && i + 1 != plan.evalAfter ==> r == RunCell(plan, s, inv, i))
  {
  }

  /** Positions are taken one after the other, from the first. */
  lemma PositionsInOrder(plan: Plan, s: Sys, inv: Invocation, n: nat)
    requires n < |plan.order|
    ensures Positions(plan, s, inv, 0) == s
    ensures Positions(plan, s, inv, n + 1) == Position(plan, Positions(plan, s, inv, n), inv, n)
    ensures Positions(plan, s, inv, n).over ==> Positions(plan, s, inv, n + 1) == Positions(plan, s, inv, n)
  {
  }

  /** Handing off: the event, and then the verdict on disk, as far as the process gets. */
  lemma HandOffWrites(s: Sys, inv: Invocation)
    requires !s.over
    ensures var r := HandOff(s, inv);
      && r.disk.cells == s.disk.cells && r.disk.hasMeta == s.disk.hasMeta
      && r.disk.verdict == (if s.left >= 2 then Some(inv.verdict) else s.disk.verdict)
      && r.history == (if s.left >= 1 then s.history + [Handoff] else s.history)
      && (r.over <==> s.left < 2)
  {
  }

  /** The first thing a real invocation writes is the index header, once. */
  lemma BeginWrites(s: Sys, inv: Invocation)
    requires !s.over
    ensures var r := Begin(s, inv);
      && r.history == s.history && r.disk.cells == s.disk.cells && r.disk.verdict == s.disk.verdict
      && (r.disk.hasMeta <==> s.disk.hasMeta || (!inv.dryRun && s.left > 0))
      && r.left == (if s.disk.hasMeta || inv.dryRun || s.left == 0 then s.left else s.left - 1)
      && (r.over <==> !s.disk.hasMeta && !inv.dryRun && s.left == 0)
  {
  }

  // ---------- When the hand-off is skipped ----------

  /** The cell after which the trigger evaluation is handed off. */
  function EvalCell(plan: Plan): nat
    requires 0 < plan.evalAfter
  {
    plan.evalAfter - 1
  }

  /** In the invocation that completes that cell, the completion is followed by the hand-off
      exactly when the process lives to act once more. */
  lemma HandoffIffAlive(plan: Plan, s: Sys, inv: Invocation)
    requires ValidPlan(plan) && !s.over && !inv.dryRun && !Done(s.disk, plan.order[EvalCell(plan)])
    ensures var ran, t := RunCell(plan, s, inv, EvalCell(plan)), Position(plan, s, inv, EvalCell(plan));
      if !ran.over && ran.left > 0 then t.history == ran.history + [Handoff] else t.history == ran.history
    ensures var ran := RunCell(plan, s, inv, EvalCell(plan));
      !ran.over <==> ran.history == s.history + [Launched(EvalCell(plan)), Finished(EvalCell(plan))]
  {
  }

  lemma {:induction false} DoneMeansNoHandoff(plan: Plan, s: Sys, inv: Invocation, n: nat)
    requires ValidPlan(plan) && n <= |plan.order| && Done(s.disk, plan.order[EvalCell(plan)])
    ensures var r := Positions(plan, s, inv, n);
      Done(r.disk, plan.order[EvalCell(plan)]) && (Handoff in r.history ==> Handoff in s.history)
  {
    if n > 0 {
      DoneMeansNoHandoff(plan, s, inv, n - 1);
      PositionWhenDone(plan, Positions(plan, s, inv, n - 1), inv, n - 1);
    }
  }

  lemma PositionWhenDone(plan: Plan, s: Sys, inv: Invocation, i: nat)
    requires ValidPlan(plan) && i < |plan.order| && Done(s.disk, plan.order[EvalCell(plan)])
    ensures var r := Position(plan, s, inv, i);
      Done(r.disk, plan.order[EvalCell(plan)]) && (Handoff in r.history ==> Handoff in s.history)
  {
    assert i != EvalCell(plan) ==> plan.order[i] != plan.order[EvalCell(plan)];
  }

  /** Once the completion is on disk, no later campaign hands off: a hand-off that was skipped
      is skipped for good. */
  lemma {:induction false} SkippedForGood(plan: Plan, disk: Index, invs: seq<Invocation>)
    requires ValidPlan(plan) && Done(disk, plan.order[EvalCell(plan)])
    ensures var end := Campaign(plan, disk, invs);
      Done(end.0, plan.order[EvalCell(plan)]) && Handoff !in end.1
  {
    if invs != [] {
      var n := |invs| - 1;
      SkippedForGood(plan, disk, invs[..n]);
      var before := Campaign(plan, disk, invs[..n]);
      var s := Begin(Sys(before.0, before.1, invs[n].lifetime, false), invs[n]);
      DoneMeansNoHandoff(plan, s, invs[n], |plan.order|);
    }
  }

  // ---------- Dry runs and progress ----------

  function RealOnly(invs: seq<Invocation>): seq<Invocation>
  {
    if invs == [] then []
    else
      var rest, last := RealOnly(invs[..|invs| - 1]), invs[|invs| - 1];
      if last.dryRun then rest else rest + [last]
  }

  /** Dry runs, however many and wherever they come in a campaign, make no difference to the
      index or the history. */
  lemma {:induction false} DryRunsMakeNoDifference(plan: Plan, disk: Index, invs: seq<Invocation>)
    ensures Campaign(plan, disk, invs) == Campaign(plan, disk, RealOnly(invs))
  {
    if invs != [] {
      var n := |invs| - 1;
      DryRunsMakeNoDifference(plan, disk, invs[..n]);
      var before, kept := Campaign(plan, disk, invs[..n]), RealOnly(invs[..n]);
      if invs[n].dryRun {
        DryRunIsReadOnly(plan, Sys(before.0, before.1, invs[n].lifetime, false), invs[n], |plan.order|);
      } else {
        assert (kept + [invs[n]])[..|kept|] == kept;
      }
    }
  }

  lemma {:induction false} DryRunIsReadOnly(plan: Plan, s: Sys, inv: Invocation, n: nat)
    requires inv.dryRun && n <= |plan.order|
    ensures Positions(plan, Begin(s, inv), inv, n) == s
  {
    if n > 0 { DryRunIsReadOnly(plan, s, inv, n - 1); }
  }

  /** An invocation that is not killed and whose cells all exit with 0 leaves every cell
      completed, whatever it resumes from. */
  lemma {:induction false} CleanInvocationCompletes(plan: Plan, s: Sys, inv: Invocation, n: nat)
    requires ValidPlan(plan) && n <= |plan.order| && !inv.dryRun
    requires !s.over && s.left >= 5 * n && forall i :: inv.exitCode(i) == 0
    ensures var r := Positions(plan, s, inv, n);
      !r.over && r.left >= s.left - 5 * n && DoneBefore(plan, r.disk, n)
  {
    if n > 0 {
      CleanInvocationCompletes(plan, s, inv, n - 1);
    }
  }
}
