/**
The run orchestrator (backend/app/pipeline/orchestrator.py): a caller thread drives a run
through its stages; each stage is a worker thread on a transaction of its own; a worker that
overruns is abandoned and lives on beside later stages.

The protocol is a transition system.  A `Step` is one action of the caller, of a worker, or of
the clock; `Enabled` is the program point and guard it needs; `Apply` is what it does.  Any
sequence of enabled steps is a schedule, so a statement about every schedule covers every
interleaving, with any number of abandoned workers.
*/
module RunProtocol {
  import opened Wrappers

  datatype StageStatus = Pending | Complete | Unavailable

  datatype RunStatus = NotStarted | Running | Completed | Failed

  datatype StageSpec = StageSpec(name: string, alwaysRun: bool)

  /** A context value: which object it is, and its "status" if it is a dictionary that has one. */
  datatype Entry = Entry(ident: nat, status: Option<string>)

  type Context = map<string, Entry>

  /** Budgets in seconds.  Isolation needs a stage timeout; the run timeout is optional. */
  datatype Config = Config(stages: seq<StageSpec>, stageTimeout: real, runTimeout: Option<real>)

  /** This run's rows in the database: its own row, and what its stages stored. */
  datatype RunDb<R> = RunDb(status: RunStatus, availability: map<string, StageStatus>, rows: seq<R>)

  /** A stage's writes: entries merged into the availability column it read, if it assigns that
      column at all, and rows it inserts. */
  datatype Effect<R> = Effect(coverage: Option<map<string, StageStatus>>, rows: seq<R>)

  /** One stage transaction committed by the orchestrator: the database the stage read, and the one
      it landed on. */
  datatype Commit<R> = Commit(worker: nat, stage: nat, view: RunDb<R>, at: RunDb<R>,
                              before: Context, after: Context, effect: Effect<R>)

  /** One write that reached the database: by the orchestrator's commit under the lock, or by the
      stage's own commit after it had rolled that transaction back. */
  datatype Write<R> = Write(worker: nat, rows: seq<R>, locked: bool)

  /** How an exception is handled: as a failing stage, as the soft time limit of the queue, or not at all. */
  datatype Error = Ordinary | TimeLimit | Fatal

  datatype Outcome =
    | Landed(after: Context)     // committed; the result is published
    | Discarded(after: Context)  // nothing left to commit under the lock; the result is published
    | RolledBack                 // found itself abandoned
    | Errored(error: Error)      // the stage, or its commit, raised

  datatype Phase<R> =
    | Connecting
    | Crashed                    // could not connect: dies without settling
    | InStage(view: RunDb<R>)
    | Returned(view: RunDb<R>, after: Context, effect: Effect<R>)
    | Raised(error: Error)
    | Settled(outcome: Outcome)

  /** `rolledBack`: the stage rolled its session back, which ended the orchestrator's transaction
      (`trans.is_active` is false); the session begins transactions of its own from then on. */
  datatype Worker<R> = Worker(stage: nat, before: Context, phase: Phase<R>, abandoned: bool, rolledBack: bool) {
    /** May still publish its result: not settled, not dead, not abandoned. */
    predicate Live() {
      !abandoned && !phase.Settled? && !phase.Crashed?
    }
  }

  datatype Caller =
    | Idle
    | AtStage(i: nat, context: Context)
    | Launched(i: nat, context: Context, budget: real, budgetAt: real)
    | Waiting(i: nat, context: Context, budget: real, budgetAt: real, since: real)
    | Woken(i: nat, context: Context)
    | Recording(i: nat, context: Context, status: StageStatus, guarded: bool)
    | Finished                   // "complete" is committed, still inside the try block
    | Failing                    // an exception reached the outer handlers
    | Ended

  /** `log` holds the orchestrator's commits, `journal` every write of rows in the order it reached
      the database; `timedOut` and `returned` record, per worker, how `_run_stage_isolated` left; `unguarded`
      that an interrupt hit a point no handler covers; `waited...` how long the caller waited. */
  datatype State<R> = State(
    db: RunDb<R>, log: seq<Commit<R>>, journal: seq<Write<R>>, workers: seq<Worker<R>>, caller: Caller,
    clock: real, startedAt: real, waitedCapped: real, waitedAlways: real,
    timedOut: set<nat>, returned: set<nat>, unguarded: bool)

  datatype Step<R> =
    | Begin
    | Skip
    | Launch
    | LaunchFails
    | StartWait
    | Wake
    | Check
    | Record(ok: bool)
    | Finish(ok: bool)
    | Leave
    | Interrupt
    | UnguardedInterrupt
    | SaveFailure(ok: bool)
    | ByWorker(w: nat, action: Action<R>)
    | Tick(d: real)

  datatype Action<R> =
    | Connect
    | ConnectFails
    | Read                          // the stage reads the run's rows (again)
    | OwnRollback                   // the stage calls rollback() on its session
    | StageCommit(rows: seq<R>)     // the stage's session commits, with these rows pending
    | Return(after: Context, effect: Effect<R>)
    | Raise(error: Error)
    | Settle
    | CommitFails

  // ----- The pieces of run_sync

  const OUTAGE_KINDS: set<string> := {"timeout", "unavailable", "rate_limited"}

  predicate IsOutage(e: Entry) {
    e.status.Some? && e.status.value in OUTAGE_KINDS
  }

  /** The entry under `key` was put there by the stage: it is not the object that was there. */
  predicate Replaced(before: Context, after: Context, key: string)
    requires key in after
  {
    !(key in before && before[key].ident == after[key].ident)
  }

  predicate ReportedOutage(before: Context, after: Context) {
    exists key :: key in after && Replaced(before, after, key) && IsOutage(after[key])
  }

  /** `_stage_reported_outage`: the loop over the items, leaving on the first outage. */
  method StageReportedOutage(before: Context, after: Context) returns (outage: bool)
    ensures outage == ReportedOutage(before, after)
  {
    var todo := after.Keys;
    while todo != {}
      invariant todo <= after.Keys
      invariant forall key :: key in after && key !in todo ==> !(Replaced(before, after, key) && IsOutage(after[key]))
      decreases todo
    {
      var key :| key in todo;
      if Replaced(before, after, key) && IsOutage(after[key]) {
        return true;
      }
      todo := todo - {key};
    }
    return false;
  }

  /** An outage an earlier stage left is not charged to a later one that leaves it alone: if the
      stage replaces nothing by an outage, no outage is seen, and only then. */
  lemma OutageOnlyByReplacement(before: Context, after: Context, mine: set<string>)
    requires forall key :: key in after && key !in mine ==> key in before && before[key] == after[key]
    ensures ReportedOutage(before, after) <==>
            exists key :: key in mine && key in after && Replaced(before, after, key) && IsOutage(after[key])
  {
    if ReportedOutage(before, after) {
      var key :| key in after && Replaced(before, after, key) && IsOutage(after[key]);
      assert key in mine;
    }
  }

  function Max(a: real, b: real): real { if a >= b then a else b }
  function Min(a: real, b: real): real { if a <= b then a else b }

  function StageBudget(cfg: Config, stage: StageSpec, startedAt: real, now: real): real {
    if cfg.runTimeout.Some? && !stage.alwaysRun then
      Min(cfg.stageTimeout, Max(0.0, startedAt + cfg.runTimeout.value - now))
    else
      cfg.stageTimeout
  }

  predicate BudgetSpent(cfg: Config, stage: StageSpec, startedAt: real, now: real) {
    cfg.runTimeout.Some? && now >= startedAt + cfg.runTimeout.value && !stage.alwaysRun
  }

  /** `_finish_failed`'s rewrite of the availability map. */
  function PendingToUnavailable(availability: map<string, StageStatus>): map<string, StageStatus> {
    map name | name in availability :: if availability[name] == Pending then Unavailable else availability[name]
  }

  /** A transaction's writes reaching the database: the availability column is overwritten by the
      map the stage built from what it had read, and its rows are added. */
  function Land<R>(db: RunDb<R>, view: RunDb<R>, effect: Effect<R>): RunDb<R> {
    RunDb(db.status,
          if effect.coverage.Some? then view.availability + effect.coverage.value else db.availability,
          db.rows + effect.rows)
  }

  predicate IsStageName(cfg: Config, name: string) {
    exists i :: 0 <= i < |cfg.stages| && cfg.stages[i].name == name
  }

  /** Stage names are unique (backend/app/pipeline/base.py:36-38) and budgets are not negative. */
  predicate ValidConfig(cfg: Config) {
    && (forall i, j :: 0 <= i < j < |cfg.stages| ==> cfg.stages[i].name != cfg.stages[j].name)
    && cfg.stageTimeout >= 0.0
    && (cfg.runTimeout.Some? ==> cfg.runTimeout.value >= 0.0)
  }

  /** A stage leaves the stages' own status entries to the orchestrator, and reports no pending. */
  predicate OwnEntriesOnly<R>(cfg: Config, effect: Effect<R>) {
    effect.coverage.Some? ==>
      forall key :: key in effect.coverage.value ==> !IsStageName(cfg, key) && effect.coverage.value[key] != Pending
  }

  function InitialAvailability(cfg: Config): map<string, StageStatus> {
    map i | 0 <= i < |cfg.stages| :: cfg.stages[i].name := Pending
  }

  // ----- Steps

  function Init<R>(clock: real): State<R> {
    State(RunDb(NotStarted, map[], []), [], [], [], Idle, clock, clock, 0.0, 0.0, {}, {}, false)
  }

  ghost predicate Enabled<R>(cfg: Config, s: State<R>, step: Step<R>) {
    match step
    case Begin => s.caller.Idle?
    case Skip => s.caller.AtStage? && s.caller.i < |cfg.stages|
      && BudgetSpent(cfg, cfg.stages[s.caller.i], s.startedAt, s.clock)
    // The budget check and the budget computation read the clock separately, so a stage may be
    // launched after the deadline has passed, with budget 0.
    case Launch => s.caller.AtStage? && s.caller.i < |cfg.stages|
    case LaunchFails => s.caller.AtStage? && s.caller.i < |cfg.stages|
    case StartWait => s.caller.Launched? && |s.workers| > 0
    case Wake => s.caller.Waiting? && |s.workers| > 0
      && (s.workers[|s.workers| - 1].phase.Settled? || s.clock >= s.caller.since + s.caller.budget)
    case Check => s.caller.Woken? && |s.workers| > 0
    case Record(_) => s.caller.Recording? && s.caller.i < |cfg.stages|
    case Finish(_) => s.caller.AtStage? && s.caller.i == |cfg.stages|
    case Leave => s.caller.Finished?
    case Interrupt => s.caller.AtStage? || s.caller.Recording? || (s.caller.Waiting? && |s.workers| > 0)
    case UnguardedInterrupt => s.caller.Launched? || s.caller.Woken? || s.caller.Finished?
    case SaveFailure(_) => s.caller.Failing?
    case ByWorker(w, action) => w < |s.workers| && CanAct(cfg, s.workers[w], action)
    // The event wait returns no later than its timeout.
    case Tick(d) => d >= 0.0 && (s.caller.Waiting? ==> s.clock + d <= s.caller.since + s.caller.budget)
  }

  ghost predicate CanAct<R>(cfg: Config, me: Worker<R>, action: Action<R>) {
    match action
    case Connect => me.phase.Connecting?
    case ConnectFails => me.phase.Connecting?
    case Read => me.phase.InStage?
    case OwnRollback => me.phase.InStage?
    case StageCommit(_) => me.phase.InStage?
    // A session of its own has committed all it had by the time it is closed out (line 179): the
    // last StageCommit before Return.
    case Return(_, effect) => me.phase.InStage? && OwnEntriesOnly(cfg, effect) && (me.rolledBack ==> effect == Effect(None, []))
    case Raise(_) => me.phase.InStage?
    case Settle => me.phase.Returned? || me.phase.Raised?
    case CommitFails => me.phase.Returned?
  }

  /** The worker's body; `Settle` is its locked section (lines 180-195). */
  function NextPhase<R>(me: Worker<R>, db: RunDb<R>, action: Action<R>): Phase<R>
    requires action.Return? ==> me.phase.InStage?
    requires action.Settle? ==> me.phase.Returned? || me.phase.Raised?
  {
    match action
    case Connect => InStage(db)
    case ConnectFails => Crashed
    case Read => InStage(db)
    case OwnRollback => InStage(db)
    case StageCommit(rows) => if me.rolledBack then InStage(db.(rows := db.rows + rows)) else me.phase
    case Return(after, effect) => Returned(me.phase.view, after, effect)
    case Raise(error) => Raised(error)
    case CommitFails => Settled(Errored(Ordinary))
    case Settle =>
      if me.phase.Raised? then Settled(Errored(me.phase.error))
      else if me.abandoned then Settled(RolledBack)
      else if me.rolledBack then Settled(Discarded(me.phase.after))
      else Settled(Landed(me.phase.after))
  }

  /** The orchestrator's commit: under the lock, unless abandoned or the transaction is gone. */
  predicate Commits<R>(me: Worker<R>, action: Action<R>) {
    action.Settle? && me.phase.Returned? && !me.abandoned && !me.rolledBack
  }

  /** A commit of the stage is only real once its session has left the orchestrator's transaction;
      then it is real at once, outside the lock, abandoned or not.  With nothing pending it writes
      nothing. */
  predicate CommitsOutside<R>(me: Worker<R>, action: Action<R>) {
    action.StageCommit? && me.rolledBack && action.rows != []
  }

  function WorkerActs<R>(s: State<R>, w: nat, action: Action<R>): State<R>
    requires w < |s.workers|
    requires action.Return? ==> s.workers[w].phase.InStage?
    requires action.Settle? ==> s.workers[w].phase.Returned? || s.workers[w].phase.Raised?
  {
    var me := s.workers[w];
    var now := me.(phase := NextPhase(me, s.db, action), rolledBack := me.rolledBack || action.OwnRollback?);
    var moved := s.(workers := s.workers[w := now]);
    if Commits(me, action) then
      var p := me.phase;
      moved.(db := Land(s.db, p.view, p.effect),
             log := s.log + [Commit(w, me.stage, p.view, s.db, me.before, p.after, p.effect)],
             journal := s.journal + [Write(w, p.effect.rows, true)])
    else if CommitsOutside(me, action) then
      moved.(db := s.db.(rows := s.db.rows + action.rows), journal := s.journal + [Write(w, action.rows, false)])
    else moved
  }

  /** `if not state["settled"]: state["abandoned"] = True`, under the lock. */
  function AbandonLast<R>(s: State<R>): State<R>
    requires |s.workers| > 0
  {
    var last := |s.workers| - 1;
    if s.workers[last].phase.Settled? then s
    else s.(workers := s.workers[last := s.workers[last].(abandoned := true)])
  }

  /** The time waited so far is charged to the capped or to the always-run stages. */
  function ChargeWait<R>(cfg: Config, s: State<R>): State<R>
    requires s.caller.Waiting?
  {
    var waited := s.clock - s.caller.since;
    if s.caller.i < |cfg.stages| && cfg.stages[s.caller.i].alwaysRun
    then s.(waitedAlways := s.waitedAlways + waited)
    else s.(waitedCapped := s.waitedCapped + waited)
  }

  /** After the wait, under the lock: time out, re-raise, or return the result (lines 215-225),
      and run_sync's reaction to each. */
  function CheckLast<R>(s: State<R>): State<R>
    requires s.caller.Woken? && |s.workers| > 0
  {
    var last := |s.workers| - 1;
    var i, before := s.caller.i, s.caller.context;
    match s.workers[last].phase
    case Settled(Landed(after)) => Publish(s, last, i, before, after)
    case Settled(Discarded(after)) => Publish(s, last, i, before, after)
    case Settled(Errored(TimeLimit)) => s.(caller := Failing)
    case Settled(Errored(Fatal)) => s.(caller := Ended)
    case Settled(_) => s.(caller := Recording(i, before, Unavailable, false))
    case _ => AbandonLast(s).(timedOut := s.timedOut + {last}, caller := Recording(i, before, Unavailable, false))
  }

  function Publish<R>(s: State<R>, w: nat, i: nat, before: Context, after: Context): State<R> {
    s.(returned := s.returned + {w},
       caller := Recording(i, after, if ReportedOutage(before, after) then Unavailable else Complete, true))
  }

  function SetStatus<R>(db: RunDb<R>, name: string, status: StageStatus): RunDb<R> {
    db.(availability := db.availability[name := status])
  }

  function Apply<R>(cfg: Config, s: State<R>, step: Step<R>): (s': State<R>)
    requires Enabled(cfg, s, step)
  {
    match step
    case Begin => s.(db := RunDb(Running, InitialAvailability(cfg), s.db.rows), caller := AtStage(0, map[]), startedAt := s.clock)
    case Skip => s.(caller := Recording(s.caller.i, s.caller.context, Unavailable, false))
    case LaunchFails => s.(caller := Recording(s.caller.i, s.caller.context, Unavailable, false))
    case Launch =>
      s.(workers := s.workers + [Worker(s.caller.i, s.caller.context, Connecting, false, false)],
         caller := Launched(s.caller.i, s.caller.context,
                            StageBudget(cfg, cfg.stages[s.caller.i], s.startedAt, s.clock), s.clock))
    case StartWait =>
      s.(caller := Waiting(s.caller.i, s.caller.context, s.caller.budget, s.caller.budgetAt, s.clock))
    case Wake => ChargeWait(cfg, s).(caller := Woken(s.caller.i, s.caller.context))
    case Check => CheckLast(s)
    case Record(ok) =>
      var c := s.caller;
      if ok then
        s.(db := SetStatus(s.db, cfg.stages[c.i].name, c.status), caller := AtStage(c.i + 1, c.context))
      else if c.guarded then s.(caller := Recording(c.i, c.context, Unavailable, false))
      else s.(caller := Failing)
    case Finish(ok) =>
      if ok then s.(db := s.db.(status := Completed), caller := Finished) else s.(caller := Failing)
    case Leave => s.(caller := Ended)
    case Interrupt =>
      if s.caller.Waiting? then AbandonLast(ChargeWait(cfg, s)).(caller := Failing) else s.(caller := Failing)
    case UnguardedInterrupt => s.(caller := Failing, unguarded := true)
    case SaveFailure(ok) =>
      if ok then
        s.(db := s.db.(status := Failed, availability := PendingToUnavailable(s.db.availability)), caller := Ended)
      else s.(caller := Ended)
    case ByWorker(w, action) => WorkerActs(s, w, action)
    case Tick(d) => s.(clock := s.clock + d)
  }

  // ----- Schedules

  /** Every step is enabled when its turn comes; with `guardedOnly`, interrupts strike only where a
      handler covers them. */
  ghost predicate Schedule<R>(cfg: Config, s: State<R>, steps: seq<Step<R>>, guardedOnly: bool)
    decreases |steps|
  {
    steps == [] ||
    (Enabled(cfg, s, steps[0]) && (guardedOnly ==> !steps[0].UnguardedInterrupt?)
     && Schedule(cfg, Apply(cfg, s, steps[0]), steps[1..], guardedOnly))
  }

  ghost function Exec<R>(cfg: Config, s: State<R>, steps: seq<Step<R>>): State<R>
    requires Schedule(cfg, s, steps, false)
    decreases |steps|
  {
    if steps == [] then s else Exec(cfg, Apply(cfg, s, steps[0]), steps[1..])
  }
}
