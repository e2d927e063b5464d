/**
 Asynchronous requests as steps of a protocol: dispatchers take one of 64 slots and create a
 PENDING event, workers run the operation and report, a reaper fails stale events, a cleanup
 deletes old ones, and the server may restart. Steps of all of them interleave freely.
 */
module AsyncEvents {
  import opened Text

  const SLOTS: nat := 64

  datatype Status = Pending | Completed | Failed

  datatype Event = Event(workspace: nat, status: Status, payload: Option<string>, created: int)

  type Rows = map<nat, Event>

  /** The guarded update: only a PENDING row changes. */
  function Transition(rows: Rows, txn: nat, status: Status, payload: string): Rows {
    if txn in rows && rows[txn].status == Pending then
      rows[txn := rows[txn].(status := status, payload := Some(payload))]
    else rows
  }

  /** How an operation ended, with the event token written about it; a panic counts as a failure. */
  datatype Outcome = Success(token: string) | Failure(token: string)

  function StatusOf(o: Outcome): Status {
    if o.Success? then Completed else Failed
  }

  /** Where a dispatch and then its worker stand. */
  datatype Phase = Creating | Starting | Operating | Reporting(outcome: Outcome) | Exiting

  datatype Run = Run(txn: nat, outcome: Outcome)

  /** Who took an event out of PENDING. */
  datatype Mover = Worker | Reaper
  datatype Move = Move(txn: nat, status: Status, payload: string, mover: Mover)

  /** The table, the slots taken, the jobs in flight, the reaper's list; and what has happened. */
  datatype State = State(rows: Rows, slots: nat, jobs: map<nat, Phase>, stale: seq<nat>, used: set<nat>, runs: seq<Run>, moves: seq<Move>)

  function Start(): State {
    State(map[], 0, map[], [], {}, [], [])
  }

  datatype Step =
    | Acquire(txn: nat)
    | Create(txn: nat, workspace: nat, now: int, ok: bool)
    | Check(txn: nat, ok: bool)
    | Operate(txn: nat, outcome: Outcome)
    | Report(txn: nat, ok: bool)
    | Exit(txn: nat)
    | Sweep(found: seq<nat>)
    | Reap(token: string, ok: bool)
    | Prune(doomed: set<nat>)
    | Restart

  predicate Terminal(rows: Rows, txn: nat) {
    txn in rows && rows[txn].status != Pending
  }

  function Moved(s: State, txn: nat, status: Status, payload: string, mover: Mover): State {
    if txn in s.rows && s.rows[txn].status == Pending then
      s.(rows := Transition(s.rows, txn, status, payload), moves := s.moves + [Move(txn, status, payload, mover)])
    else s
  }

  function Released(s: State, txn: nat): State
    requires s.slots > 0
  {
    s.(slots := s.slots - 1, jobs := s.jobs - {txn})
  }

  /** Whether a step can be taken; giving back a slot waits for one to be taken. */
  predicate Enabled(s: State, step: Step) {
    match step
    case Acquire(txn) => s.slots < SLOTS && txn !in s.used
    case Create(txn, _, _, ok) => txn in s.jobs && s.jobs[txn] == Creating && (ok || s.slots > 0)
    case Check(txn, _) => txn in s.jobs && s.jobs[txn] == Starting
    case Operate(txn, _) => txn in s.jobs && s.jobs[txn] == Operating
    case Report(txn, _) => txn in s.jobs && s.jobs[txn].Reporting?
    case Exit(txn) => txn in s.jobs && s.jobs[txn] == Exiting && s.slots > 0
    case Sweep(found) => s.stale == [] && forall k | 0 <= k < |found| :: found[k] in s.rows && s.rows[found[k]].status == Pending
    case Reap(_, _) => s.stale != []
    case Prune(doomed) => forall txn | txn in doomed :: Terminal(s.rows, txn)
    case Restart => true
  }

  function Next(s: State, step: Step): State
    requires Enabled(s, step)
  {
    match step
    case Acquire(txn) => s.(slots := s.slots + 1, jobs := s.jobs[txn := Creating], used := s.used + {txn})
    case Create(txn, workspace, now, ok) =>
      if ok then s.(rows := s.rows[txn := Event(workspace, Pending, None, now)], jobs := s.jobs[txn := Starting])
      else Released(s, txn)
    case Check(txn, ok) => s.(jobs := s.jobs[txn := if ok && Terminal(s.rows, txn) then Exiting else Operating])
    case Operate(txn, outcome) => s.(jobs := s.jobs[txn := Reporting(outcome)], runs := s.runs + [Run(txn, outcome)])
    case Report(txn, ok) =>
      var o := s.jobs[txn].outcome;
      var t := if ok then Moved(s, txn, StatusOf(o), o.token, Worker) else s;
      t.(jobs := t.jobs[txn := Exiting])
    case Exit(txn) => Released(s, txn)
    case Sweep(found) => s.(stale := found)
    case Reap(token, ok) =>
      var t := if ok then Moved(s, s.stale[0], Failed, token, Reaper) else s;
      t.(stale := s.stale[1..])
    case Prune(doomed) => s.(rows := s.rows - doomed)
    case Restart => s.(slots := 0, jobs := map[], stale := [])
  }

  /** Runs of any length. */
  predicate CanRun(s: State, steps: seq<Step>)
    decreases |steps|
  {
    steps == [] || (Enabled(s, steps[0]) && CanRun(Next(s, steps[0]), steps[1..]))
  }

  function After(s: State, steps: seq<Step>): State
    requires CanRun(s, steps)
    decreases |steps|
  {
    if steps == [] then s else After(Next(s, steps[0]), steps[1..])
  }

  // ----- what every run keeps

  function RunsOf(runs: seq<Run>, txn: nat): seq<Outcome> {
    if runs == [] then []
    else RunsOf(runs[..|runs| - 1], txn) + if runs[|runs| - 1].txn == txn then [runs[|runs| - 1].outcome] else []
  }

  function MovesOf(moves: seq<Move>, txn: nat): seq<Move> {
    if moves == [] then []
    else MovesOf(moves[..|moves| - 1], txn) + if moves[|moves| - 1].txn == txn then [moves[|moves| - 1]] else []
  }

  /** What holds of one transaction. */
  ghost predicate Orderly(s: State, txn: nat) {
    var runs, moves := RunsOf(s.runs, txn), MovesOf(s.moves, txn);
    && (txn !in s.used ==> txn !in s.rows && txn !in s.jobs && runs == [] && moves == [])
    && |runs| <= 1 && |moves| <= 1
    && (moves != [] ==> moves[0].status != Pending)
    && (txn in s.rows ==> if s.rows[txn].status == Pending then moves == [] && s.rows[txn].payload == None
                          else moves != [] && Says(moves[0], s.rows[txn]))
    && (moves != [] ==> if moves[0].mover == Reaper then moves[0].status == Failed
                        else runs != [] && moves[0].status == StatusOf(runs[0]) && moves[0].payload == runs[0].token)
    && (txn in s.jobs ==>
          && (s.jobs[txn] == Creating ==> txn !in s.rows && moves == [])
          && (s.jobs[txn] == Creating || s.jobs[txn] == Starting || s.jobs[txn] == Operating ==> runs == [])
          && (s.jobs[txn].Reporting? ==> runs == [s.jobs[txn].outcome]))
  }

  predicate Says(m: Move, e: Event) {
    m.status == e.status && e.payload == Some(m.payload)
  }

  ghost predicate Inv(s: State) {
    && s.slots == |s.jobs| <= SLOTS
    && forall txn :: Orderly(s, txn)
  }

  lemma StartIsFine()
    ensures Inv(Start())
  {
  }

  lemma SlotsFollow(s: State, step: Step)
    requires Enabled(s, step) && s.slots == |s.jobs| <= SLOTS && (step.Acquire? ==> step.txn !in s.jobs)
    ensures Next(s, step).slots == |Next(s, step).jobs| <= SLOTS
  {
    if step.Exit? || (step.Create? && !step.ok) {
      RemoveOne(s.jobs, step.txn);
    } else if step.Create? || step.Check? || step.Operate? || step.Report? {
      ReplaceOne(s.jobs, step.txn, Next(s, step).jobs[step.txn]);
    }
  }

  lemma RemoveOne(m: map<nat, Phase>, k: nat)
    requires k in m
    ensures |m - {k}| == |m| - 1
  {
    assert (m - {k}).Keys == m.Keys - {k};
    assert |m.Keys| == |m| && |(m - {k}).Keys| == |m - {k}|;
  }

  lemma ReplaceOne(m: map<nat, Phase>, k: nat, v: Phase)
    requires k in m
    ensures |m[k := v]| == |m|
  {
    assert m[k := v].Keys == m.Keys;
    assert |m.Keys| == |m| && |m[k := v].Keys| == |m[k := v]|;
  }

  lemma MovedIsOrderly(s: State, t: nat, status: Status, payload: string, mover: Mover, txn: nat)
    requires Orderly(s, txn) && status != Pending
    requires if mover == Reaper then status == Failed
             else exists o :: RunsOf(s.runs, t) == [o] && status == StatusOf(o) && payload == o.token
    ensures Orderly(Moved(s, t, status, payload, mover), txn)
  {
    var r := Moved(s, t, status, payload, mover);
    if r != s {
      assert r.moves[..|r.moves| - 1] == s.moves;
    }
  }

  lemma OperateIsOrderly(s: State, t: nat, outcome: Outcome, txn: nat)
    requires Enabled(s, Operate(t, outcome)) && Orderly(s, txn) && Orderly(s, t)
    ensures Orderly(Next(s, Operate(t, outcome)), txn)
  {
    var r := Next(s, Operate(t, outcome));
    assert r.runs[..|r.runs| - 1] == s.runs;
  }

  lemma StepIsOrderly(s: State, step: Step, txn: nat)
    requires Enabled(s, step) && Orderly(s, txn) && (!step.Sweep? && !step.Reap? && !step.Prune? && !step.Restart? ==> Orderly(s, step.txn))
    ensures Orderly(Next(s, step), txn)
  {
    match step
    case Operate(t, outcome) => OperateIsOrderly(s, t, outcome, txn);
    case Report(t, ok) =>
      if ok {
        assert RunsOf(s.runs, t) == [s.jobs[t].outcome];
        MovedIsOrderly(s, t, StatusOf(s.jobs[t].outcome), s.jobs[t].outcome.token, Worker, txn);
      }
    case Reap(token, ok) =>
      if ok {
        MovedIsOrderly(s, s.stale[0], Failed, token, Reaper, txn);
      }
    case _ =>
  }

  lemma StepKeepsInv(s: State, step: Step)
    requires Inv(s) && Enabled(s, step)
    ensures Inv(Next(s, step))
  {
    if step.Acquire? {
      assert Orderly(s, step.txn);
    }
    SlotsFollow(s, step);
    forall txn ensures Orderly(Next(s, step), txn) {
      assert Orderly(s, txn);
      if !step.Sweep? && !step.Reap? && !step.Prune? && !step.Restart? {
        assert Orderly(s, step.txn);
      }
      StepIsOrderly(s, step, txn);
    }
  }

  lemma {:induction false} RunKeepsInv(s: State, steps: seq<Step>)
    requires Inv(s) && CanRun(s, steps)
    ensures Inv(After(s, steps))
    decreases |steps|
  {
    if steps != [] {
      StepKeepsInv(s, steps[0]);
      RunKeepsInv(Next(s, steps[0]), steps[1..]);
    }
  }

  /**
   In every interleaving: as many slots are taken as dispatches and workers are in flight, never
   more than 64; an event leaves PENDING at most once, its operation runs at most once; a terminal
   event has a payload, COMPLETED only that of an operation that ran and succeeded, and FAILED
   that of one that ran and failed, unless it was the reaper who moved it.
   */
  lemma EveryRunIsSafe(steps: seq<Step>, txn: nat)
    requires CanRun(Start(), steps)
    ensures var s := After(Start(), steps);
            && s.slots == |s.jobs| <= 64
            && |MovesOf(s.moves, txn)| <= 1 && |RunsOf(s.runs, txn)| <= 1
            && (Terminal(s.rows, txn) ==> s.rows[txn].payload.Some?)
            && (txn in s.rows && s.rows[txn].status == Completed ==> RunsOf(s.runs, txn) == [Success(s.rows[txn].payload.value)])
            && (txn in s.rows && s.rows[txn].status == Failed ==>
                  RunsOf(s.runs, txn) == [Failure(s.rows[txn].payload.value)]
                  || (MovesOf(s.moves, txn) != [] && MovesOf(s.moves, txn)[0].mover == Reaper))
  {
    StartIsFine();
    RunKeepsInv(Start(), steps);
    assert Orderly(After(Start(), steps), txn);
  }

  // ----- terminal events are final

  /** The event is as it was, or deleted for good. */
  ghost predicate Final(s: State, txn: nat, e: Event) {
    && txn in s.used && (txn in s.jobs ==> s.jobs[txn] != Creating)
    && (txn in s.rows ==> s.rows[txn] == e)
  }

  lemma {:induction false} TerminalIsFinal(s: State, steps: seq<Step>, txn: nat, e: Event)
    requires Inv(s) && CanRun(s, steps) && e.status != Pending && Final(s, txn, e)
    ensures Final(After(s, steps), txn, e)
    decreases |steps|
  {
    if steps != [] {
      StepKeepsInv(s, steps[0]);
      TerminalIsFinal(Next(s, steps[0]), steps[1..], txn, e);
    }
  }

  /** Once an event is COMPLETED or FAILED, its row never changes again until it is deleted, and is never created anew. */
  lemma TerminalNeverChanges(before: seq<Step>, after: seq<Step>, txn: nat)
    requires CanRun(Start(), before) && CanRun(After(Start(), before), after)
    requires Terminal(After(Start(), before).rows, txn)
    ensures var s, t := After(Start(), before), After(After(Start(), before), after);
            txn in t.rows ==> t.rows[txn] == s.rows[txn]
  {
    StartIsFine();
    RunKeepsInv(Start(), before);
    var s := After(Start(), before);
    assert Orderly(s, txn);
    TerminalIsFinal(s, after, txn, s.rows[txn]);
  }

  /** A new dispatch gets a slot exactly while fewer than 64 are in flight. */
  lemma DispatchExactlyIf(s: State, txn: nat)
    requires Inv(s) && txn !in s.used
    ensures Enabled(s, Acquire(txn)) <==> |s.jobs| < 64
  {
  }

  /** The row keeps the workspace and the time it was created with. */
  ghost predicate CreatedAs(s: State, txn: nat, workspace: nat, now: int) {
    && txn in s.used && (txn in s.jobs ==> s.jobs[txn] != Creating)
    && (txn in s.rows ==> s.rows[txn].workspace == workspace && s.rows[txn].created == now)
  }

  lemma {:induction false} StaysAsCreated(s: State, steps: seq<Step>, txn: nat, workspace: nat, now: int)
    requires Inv(s) && CanRun(s, steps) && CreatedAs(s, txn, workspace, now)
    ensures CreatedAs(After(s, steps), txn, workspace, now)
    decreases |steps|
  {
    if steps != [] {
      StepKeepsInv(s, steps[0]);
      StaysAsCreated(Next(s, steps[0]), steps[1..], txn, workspace, now);
    }
  }

  /** An event is created PENDING in the workspace and at the time given, and that part of it never changes. */
  lemma EventsKeepTheirOrigin(before: seq<Step>, txn: nat, workspace: nat, now: int, after: seq<Step>)
    requires CanRun(Start(), before) && Enabled(After(Start(), before), Create(txn, workspace, now, true))
    requires CanRun(Next(After(Start(), before), Create(txn, workspace, now, true)), after)
    ensures var s := Next(After(Start(), before), Create(txn, workspace, now, true));
            && txn in s.rows && s.rows[txn] == Event(workspace, Pending, None, now)
            && var t := After(s, after); txn in t.rows ==> t.rows[txn].workspace == workspace && t.rows[txn].created == now
  {
    var s := After(Start(), before);
    StartIsFine();
    RunKeepsInv(Start(), before);
    StepKeepsInv(s, Create(txn, workspace, now, true));
    assert Orderly(s, txn);
    StaysAsCreated(Next(s, Create(txn, workspace, now, true)), after, txn, workspace, now);
  }

  ghost predicate NeverRan(s: State, txn: nat) {
    txn in s.used && RunsOf(s.runs, txn) == [] && (txn in s.jobs ==> s.jobs[txn] == Exiting)
  }

  lemma {:induction false} StaysIdle(s: State, steps: seq<Step>, txn: nat)
    requires CanRun(s, steps) && NeverRan(s, txn)
    ensures NeverRan(After(s, steps), txn)
    decreases |steps|
  {
    if steps != [] {
      StepStaysIdle(s, steps[0], txn);
      StaysIdle(Next(s, steps[0]), steps[1..], txn);
    }
  }

  lemma StepStaysIdle(s: State, step: Step, txn: nat)
    requires Enabled(s, step) && NeverRan(s, txn)
    ensures NeverRan(Next(s, step), txn)
  {
    match step
    case Operate(t, outcome) => OneMoreRun(s.runs, Run(t, outcome), txn);
    case Report(t, ok) => assert Next(s, step).runs == s.runs && Next(s, step).used == s.used;
    case Reap(token, ok) => assert Next(s, step).runs == s.runs && Next(s, step).used == s.used;
    case _ =>
  }

  lemma OneMoreRun(runs: seq<Run>, run: Run, txn: nat)
    ensures RunsOf(runs + [run], txn) == RunsOf(runs, txn) + if run.txn == txn then [run.outcome] else []
  {
    assert (runs + [run])[..|runs|] == runs;
  }

  /** A worker that finds its event already terminal never runs the operation. */
  lemma TerminalIsNotRun(before: seq<Step>, txn: nat, after: seq<Step>)
    requires CanRun(Start(), before) && Enabled(After(Start(), before), Check(txn, true)) && Terminal(After(Start(), before).rows, txn)
    requires CanRun(Next(After(Start(), before), Check(txn, true)), after)
    ensures RunsOf(After(Next(After(Start(), before), Check(txn, true)), after).runs, txn) == []
  {
    var s := After(Start(), before);
    StartIsFine();
    RunKeepsInv(Start(), before);
    assert Orderly(s, txn);
    StaysIdle(Next(s, Check(txn, true)), after, txn);
  }

  // ----- nobody is stuck

  /** Every dispatch and worker in flight can take a step, in particular give its slot back. */
  lemma NobodyIsStuck(s: State, txn: nat)
    requires Inv(s) && txn in s.jobs
    ensures match s.jobs[txn]
            case Creating => Enabled(s, Create(txn, 0, 0, true)) && Enabled(s, Create(txn, 0, 0, false))
            case Starting => Enabled(s, Check(txn, true)) && Enabled(s, Check(txn, false))
            case Operating => forall o :: Enabled(s, Operate(txn, o))
            case Reporting(_) => Enabled(s, Report(txn, true)) && Enabled(s, Report(txn, false))
            case Exiting => Enabled(s, Exit(txn))
  {
    assert txn in s.jobs.Keys && |s.jobs.Keys| == |s.jobs|;
  }

  /** A worker left alone gives its slot back with its event terminal, if the store does not fail. */
  lemma WorkerFinishes(s: State, txn: nat, o: Outcome)
    requires Inv(s) && txn in s.jobs && s.jobs[txn] == Starting && txn in s.rows
    ensures var steps := if Terminal(s.rows, txn) then [Check(txn, true), Exit(txn)]
                         else [Check(txn, true), Operate(txn, o), Report(txn, true), Exit(txn)];
            && CanRun(s, steps) && Terminal(After(s, steps).rows, txn)
            && After(s, steps).slots == s.slots - 1 && txn !in After(s, steps).jobs
            && (!Terminal(s.rows, txn) ==> After(s, steps).rows[txn].status == StatusOf(o))
  {
    NobodyIsStuck(s, txn);
    assert s.slots > 0 by {
      assert txn in s.jobs.Keys && |s.jobs.Keys| == |s.jobs|;
    }
    var s1 := Next(s, Check(txn, true));
    if Terminal(s.rows, txn) {
      RunOne(s1, Exit(txn), []);
      RunOne(s, Check(txn, true), [Exit(txn)]);
    } else {
      var s2 := Next(s1, Operate(txn, o));
      var s3 := Next(s2, Report(txn, true));
      RunOne(s3, Exit(txn), []);
      RunOne(s2, Report(txn, true), [Exit(txn)]);
      RunOne(s1, Operate(txn, o), [Report(txn, true), Exit(txn)]);
      RunOne(s, Check(txn, true), [Operate(txn, o), Report(txn, true), Exit(txn)]);
    }
  }

  lemma RunOne(s: State, step: Step, rest: seq<Step>)
    requires Enabled(s, step) && CanRun(Next(s, step), rest)
    ensures CanRun(s, [step] + rest) && After(s, [step] + rest) == After(Next(s, step), rest)
  {
    assert ([step] + rest)[1..] == rest;
  }

  // ----- exactly when FAILED says that the operation did not succeed

  /**
   What can come between an operation and its report: the reaper lists an event whose worker is
   still busy, the worker's report is not written, or the server restarts before the report.
   */
  datatype Disturbance = SweepInFlight | ReportLost | RestartBeforeReport

  /** The step is no disturbance, or one of the allowed kinds. */
  predicate Allowed(allowed: set<Disturbance>, s: State, step: Step) {
    match step
    case Sweep(found) => SweepInFlight in allowed || forall k | 0 <= k < |found| :: found[k] !in s.jobs
    case Report(_, ok) => ReportLost in allowed || ok
    case Restart => RestartBeforeReport in allowed || forall txn | txn in s.jobs :: !s.jobs[txn].Reporting?
    case _ => true
  }

  predicate AllAllowed(allowed: set<Disturbance>, s: State, steps: seq<Step>)
    requires CanRun(s, steps)
    decreases |steps|
  {
    steps == [] || (Allowed(allowed, s, steps[0]) && AllAllowed(allowed, Next(s, steps[0]), steps[1..]))
  }

  /** A terminal event says what became of its operation, or is FAILED and the operation never ran. */
  ghost predicate Truthful(s: State, txn: nat) {
    var runs := RunsOf(s.runs, txn);
    Terminal(s.rows, txn) ==>
      if runs == [] then s.rows[txn].status == Failed
      else s.rows[txn].status == StatusOf(runs[0]) && s.rows[txn].payload == Some(runs[0].token)
  }

  /** Between the start and the report of an operation its event is PENDING, and the reaper is not after it. */
  ghost predicate Quiet(s: State, txn: nat) {
    var runs, moves := RunsOf(s.runs, txn), MovesOf(s.moves, txn);
    && (txn in s.stale ==> txn in s.used && txn !in s.jobs)
    && (txn in s.jobs && (s.jobs[txn] == Starting || s.jobs[txn] == Operating || s.jobs[txn].Reporting?) ==>
          txn in s.rows && s.rows[txn].status == Pending)
    && (runs != [] ==> (txn in s.jobs && s.jobs[txn].Reporting?) || (moves != [] && moves[0].mover == Worker))
  }

  lemma MovedIsQuiet(s: State, t: nat, status: Status, payload: string, mover: Mover, txn: nat)
    requires Orderly(s, txn) && Quiet(s, txn) && status != Pending
    requires t in s.jobs ==> s.jobs[t].Reporting? && mover == Worker
    requires mover == Worker ==> t in s.jobs
    ensures var r := Moved(s, t, status, payload, mover);
            Quiet(r.(jobs := if t in s.jobs then s.jobs[t := Exiting] else s.jobs), txn)
  {
    var r := Moved(s, t, status, payload, mover);
    if r != s {
      assert r.moves[..|r.moves| - 1] == s.moves;
    }
  }

  lemma OperateIsQuiet(s: State, t: nat, outcome: Outcome, txn: nat)
    requires Enabled(s, Operate(t, outcome)) && Quiet(s, txn)
    ensures Quiet(Next(s, Operate(t, outcome)), txn)
  {
    var r := Next(s, Operate(t, outcome));
    assert r.runs[..|r.runs| - 1] == s.runs;
  }

  lemma ReportIsQuiet(s: State, t: nat, txn: nat)
    requires Enabled(s, Report(t, true)) && Orderly(s, txn) && Quiet(s, txn)
    ensures Quiet(Next(s, Report(t, true)), txn)
  {
    var o := s.jobs[t].outcome;
    MovedIsQuiet(s, t, StatusOf(o), o.token, Worker, txn);
    assert Moved(s, t, StatusOf(o), o.token, Worker).jobs == s.jobs;
  }

  lemma ReapIsQuiet(s: State, token: string, ok: bool, txn: nat)
    requires Enabled(s, Reap(token, ok)) && Orderly(s, txn) && Quiet(s, txn) && Quiet(s, s.stale[0])
    ensures Quiet(Next(s, Reap(token, ok)), txn)
  {
    if ok {
      MovedIsQuiet(s, s.stale[0], Failed, token, Reaper, txn);
    }
  }

  lemma SweepIsQuiet(s: State, found: seq<nat>, txn: nat)
    requires Enabled(s, Sweep(found)) && Allowed({}, s, Sweep(found)) && Orderly(s, txn) && Quiet(s, txn)
    ensures Quiet(Next(s, Sweep(found)), txn)
  {
    if txn in found {
      var k :| 0 <= k < |found| && found[k] == txn;
      assert found[k] in s.rows && found[k] !in s.jobs;
    }
  }

  lemma StepIsQuiet(s: State, step: Step, txn: nat)
    requires Enabled(s, step) && Allowed({}, s, step) && Orderly(s, txn) && Quiet(s, txn)
    requires step.Reap? ==> Quiet(s, s.stale[0])
    ensures Quiet(Next(s, step), txn)
  {
    match step
    case Operate(t, outcome) => OperateIsQuiet(s, t, outcome, txn);
    case Report(t, ok) => ReportIsQuiet(s, t, txn);
    case Reap(token, ok) => ReapIsQuiet(s, token, ok, txn);
    case Sweep(found) => SweepIsQuiet(s, found, txn);
    case _ =>
  }

  lemma {:induction false} RunIsQuiet(s: State, steps: seq<Step>)
    requires Inv(s) && CanRun(s, steps) && AllAllowed({}, s, steps) && forall t :: Quiet(s, t)
    ensures Inv(After(s, steps)) && forall t :: Quiet(After(s, steps), t)
    decreases |steps|
  {
    if steps != [] {
      StepKeepsInv(s, steps[0]);
      forall t ensures Quiet(Next(s, steps[0]), t) {
        assert Orderly(s, t);
        StepIsQuiet(s, steps[0], t);
      }
      RunIsQuiet(Next(s, steps[0]), steps[1..]);
    }
  }

  /** Without any disturbance a terminal event says what became of its operation. */
  lemma UndisturbedIsTruthful(steps: seq<Step>, txn: nat)
    requires CanRun(Start(), steps) && AllAllowed({}, Start(), steps)
    ensures Truthful(After(Start(), steps), txn)
  {
    StartIsFine();
    RunIsQuiet(Start(), steps);
    var s := After(Start(), steps);
    assert Orderly(s, txn) && Quiet(s, txn);
  }

  // ----- each disturbance alone makes a FAILED event of an operation that succeeded

  ghost predicate AlwaysTruthful(allowed: set<Disturbance>) {
    forall steps, txn | CanRun(Start(), steps) && AllAllowed(allowed, Start(), steps) :: Truthful(After(Start(), steps), txn)
  }

  /** In every run a terminal event says what became of its operation exactly if no disturbance is allowed. */
  lemma TruthfulExactlyIf(allowed: set<Disturbance>)
    ensures AlwaysTruthful(allowed) <==> allowed == {}
  {
    if allowed == {} {
      forall steps, txn | CanRun(Start(), steps) && AllAllowed({}, Start(), steps)
        ensures Truthful(After(Start(), steps), txn)
      {
        UndisturbedIsTruthful(steps, txn);
      }
    } else {
      var d :| d in allowed;
      var steps := MisleadingRun(allowed, d);
      assert !Truthful(After(Start(), steps), 0);
    }
  }

  ghost predicate Goes(allowed: set<Disturbance>, s: State, steps: seq<Step>, t: State) {
    CanRun(s, steps) && AllAllowed(allowed, s, steps) && After(s, steps) == t
  }

  lemma GoesOn(allowed: set<Disturbance>, s: State, step: Step, rest: seq<Step>, t: State)
    requires Enabled(s, step) && Allowed(allowed, s, step) && Goes(allowed, Next(s, step), rest, t)
    ensures Goes(allowed, s, [step] + rest, t)
  {
    assert ([step] + rest)[1..] == rest;
  }

  /** Event 0 is PENDING, its worker in the given phase, or gone with its slot. */
  function Busy(phase: Phase, runs: seq<Run>): State {
    State(map[0 := Event(0, Pending, None, 0)], 1, map[0 := phase], [], {0}, runs, [])
  }

  function Abandoned(runs: seq<Run>): State {
    State(map[0 := Event(0, Pending, None, 0)], 0, map[], [], {0}, runs, [])
  }

  const DONE := Success("done")

  lemma Dispatched(allowed: set<Disturbance>, rest: seq<Step>, t: State) returns (steps: seq<Step>)
    requires Goes(allowed, Busy(Operating, []), rest, t)
    ensures Goes(allowed, Start(), steps, t)
  {
    var s1 := Next(Start(), Acquire(0));
    var s2 := Next(s1, Create(0, 0, 0, true));
    assert s2 == Busy(Starting, []);
    assert Next(s2, Check(0, true)) == Busy(Operating, []);
    GoesOn(allowed, s2, Check(0, true), rest, t);
    steps := [Check(0, true)] + rest;
    GoesOn(allowed, s1, Create(0, 0, 0, true), steps, t);
    steps := [Create(0, 0, 0, true)] + steps;
    GoesOn(allowed, Start(), Acquire(0), steps, t);
    steps := [Acquire(0)] + steps;
  }

  /** The reaper comes to an event whose worker is gone. */
  lemma ReapsAbandoned(allowed: set<Disturbance>, runs: seq<Run>) returns (steps: seq<Step>, t: State)
    ensures Goes(allowed, Abandoned(runs), steps, t)
    ensures t.rows == map[0 := Event(0, Failed, Some("late"), 0)] && t.runs == runs
  {
    var s1 := Next(Abandoned(runs), Sweep([0]));
    t := Next(s1, Reap("late", true));
    GoesOn(allowed, s1, Reap("late", true), [], t);
    GoesOn(allowed, Abandoned(runs), Sweep([0]), [Reap("late", true)], t);
    steps := [Sweep([0])] + [Reap("late", true)];
  }

  /** The reaper overtakes a busy worker. */
  lemma Overtakes(allowed: set<Disturbance>) returns (steps: seq<Step>, t: State)
    requires SweepInFlight in allowed
    ensures Goes(allowed, Busy(Operating, []), steps, t)
    ensures t.rows == map[0 := Event(0, Failed, Some("late"), 0)] && t.runs == [Run(0, DONE)]
  {
    var s0 := Busy(Operating, []);
    var s1 := Next(s0, Sweep([0]));
    var s2 := Next(s1, Reap("late", true));
    t := Next(s2, Operate(0, DONE));
    GoesOn(allowed, s2, Operate(0, DONE), [], t);
    GoesOn(allowed, s1, Reap("late", true), [Operate(0, DONE)], t);
    GoesOn(allowed, s0, Sweep([0]), [Reap("late", true)] + [Operate(0, DONE)], t);
    steps := [Sweep([0])] + ([Reap("late", true)] + [Operate(0, DONE)]);
  }

  lemma LosesReport(allowed: set<Disturbance>) returns (steps: seq<Step>, t: State)
    requires ReportLost in allowed
    ensures Goes(allowed, Busy(Operating, []), steps, t)
    ensures t.rows == map[0 := Event(0, Failed, Some("late"), 0)] && t.runs == [Run(0, DONE)]
  {
    var s0 := Busy(Operating, []);
    var s1 := Next(s0, Operate(0, DONE));
    var s2 := Next(s1, Report(0, false));
    var rest;
    assert Next(s2, Exit(0)) == Abandoned([Run(0, DONE)]);
    rest, t := ReapsAbandoned(allowed, [Run(0, DONE)]);
    GoesOn(allowed, s2, Exit(0), rest, t);
    GoesOn(allowed, s1, Report(0, false), [Exit(0)] + rest, t);
    GoesOn(allowed, s0, Operate(0, DONE), [Report(0, false)] + ([Exit(0)] + rest), t);
    steps := [Operate(0, DONE)] + ([Report(0, false)] + ([Exit(0)] + rest));
  }

  lemma RestartsEarly(allowed: set<Disturbance>) returns (steps: seq<Step>, t: State)
    requires RestartBeforeReport in allowed
    ensures Goes(allowed, Busy(Operating, []), steps, t)
    ensures t.rows == map[0 := Event(0, Failed, Some("late"), 0)] && t.runs == [Run(0, DONE)]
  {
    var s0 := Busy(Operating, []);
    var s1 := Next(s0, Operate(0, DONE));
    var rest;
    assert Next(s1, Restart) == Abandoned([Run(0, DONE)]);
    rest, t := ReapsAbandoned(allowed, [Run(0, DONE)]);
    GoesOn(allowed, s1, Restart, rest, t);
    GoesOn(allowed, s0, Operate(0, DONE), [Restart] + rest, t);
    steps := [Operate(0, DONE)] + ([Restart] + rest);
  }

  /** From the start of the server, with no other kind of disturbance, to a FAILED event of an operation that succeeded. */
  lemma MisleadingRun(allowed: set<Disturbance>, d: Disturbance) returns (steps: seq<Step>)
    requires d in allowed
    ensures CanRun(Start(), steps) && AllAllowed(allowed, Start(), steps)
    ensures var t := After(Start(), steps);
            0 in t.rows && t.rows[0].status == Failed && RunsOf(t.runs, 0) == [DONE]
  {
    var rest, t;
    match d {
      case SweepInFlight => rest, t := Overtakes(allowed);
      case ReportLost => rest, t := LosesReport(allowed);
      case RestartBeforeReport => rest, t := RestartsEarly(allowed);
    }
    steps := Dispatched(allowed, rest, t);
    assert t.runs[..0] == [];
  }
}
