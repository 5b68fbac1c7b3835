/**
The run's own row: its status, the status of every stage, and how long the caller waited.
*/
module RunLifecycle {
  import opened Wrappers
  import opened RunProtocol
  import opened RunSafety

  // ----- Status

  ghost predicate StageDone<R>(s: State<R>, i: nat) {
    exists w :: w in s.returned && w < |s.workers| && s.workers[w].stage == i
  }

  predicate RecordedComplete<R>(cfg: Config, db: RunDb<R>, i: nat)
    requires i < |cfg.stages|
  {
    cfg.stages[i].name in db.availability && db.availability[cfg.stages[i].name] == Complete
  }

  predicate InLoop(c: Caller) {
    c.AtStage? || c.Launched? || c.Waiting? || c.Woken? || c.Recording?
  }

  predicate RowMatchesCaller<R>(s: State<R>) {
    match s.caller
    case Idle => s.db.status == NotStarted
    case Finished => s.db.status == Completed
    case Failing => s.db.status == Running || (s.unguarded && s.db.status == Completed)
    case Ended => s.db.status != NotStarted
    case _ => s.db.status == Running
  }

  predicate NoPending<R>(db: RunDb<R>) {
    forall key :: key in db.availability ==> db.availability[key] != Pending
  }

  ghost predicate StatusInv<R>(cfg: Config, s: State<R>) {
    RowMatchesCaller(s) && (!s.unguarded ==>
      && (!s.caller.Idle? ==> forall i :: 0 <= i < |cfg.stages| ==> cfg.stages[i].name in s.db.availability)
      && (forall key :: key in s.db.availability && s.db.availability[key] == Pending ==> IsStageName(cfg, key))
      && (InLoop(s.caller) ==> forall i :: 0 <= i < |cfg.stages| && cfg.stages[i].name in s.db.availability ==>
            (s.db.availability[cfg.stages[i].name] == Pending <==> i >= Position(cfg, s.caller)))
      && (s.db.status == Completed || s.db.status == Failed ==> NoPending(s.db))
      && (s.caller.Recording? ==> s.caller.status != Pending)
      && (s.caller.Recording? && s.caller.status == Complete ==> StageDone(s, s.caller.i))
      && (forall i :: 0 <= i < |cfg.stages| && RecordedComplete(cfg, s.db, i) ==> StageDone(s, i)))
  }

  /** A commit changes availability only outside the stages' names. */
  lemma CommitKeepsStageNames<R>(cfg: Config, s: State<R>, w: nat, action: Action<R>, i: nat)
    requires ValidConfig(cfg) && LiveInv(s) && IsolationInv(s) && !s.unguarded
    requires w < |s.workers| && CanAct(cfg, s.workers[w], action) && i < |cfg.stages|
    requires EffectsOwned(cfg, s)
    ensures var name, db' := cfg.stages[i].name, WorkerActs(s, w, action).db;
            (name in db'.availability <==> name in s.db.availability)
            && (name in db'.availability ==> db'.availability[name] == s.db.availability[name])
  {
    if Commits(s.workers[w], action) {
      assert s.workers[w].Live();
    }
  }

  ghost predicate EffectsOwned<R>(cfg: Config, s: State<R>) {
    forall w :: 0 <= w < |s.workers| && s.workers[w].phase.Returned? ==> OwnEntriesOnly(cfg, s.workers[w].phase.effect)
  }

  lemma EffectsStep<R>(cfg: Config, s: State<R>, step: Step<R>)
    requires EffectsOwned(cfg, s) && Enabled(cfg, s, step)
    ensures EffectsOwned(cfg, Apply(cfg, s, step))
  {
    if step.ByWorker? {
      ActionIsLocal(cfg, s, step.w, step.action);
    }
  }

  lemma StatusByWorker<R>(cfg: Config, s: State<R>, w: nat, action: Action<R>)
    requires ValidConfig(cfg) && LiveInv(s) && IsolationInv(s) && EffectsOwned(cfg, s) && StatusInv(cfg, s)
    requires OrderInv(cfg, s)
    requires w < |s.workers| && CanAct(cfg, s.workers[w], action)
    ensures StatusInv(cfg, WorkerActs(s, w, action))
  {
    var s' := WorkerActs(s, w, action);
    ActionIsLocal(cfg, s, w, action);
    if !s.unguarded {
      if Commits(s.workers[w], action) {
        assert s.workers[w].Live();
      }
      forall i | 0 <= i < |cfg.stages| {
        CommitKeepsStageNames(cfg, s, w, action, i);
      }
      assert forall i :: 0 <= i < |cfg.stages| && StageDone(s, i) ==> StageDone(s', i);
    }
  }

  lemma StatusByBegin<R>(cfg: Config, s: State<R>, step: Step<R>)
    requires ValidConfig(cfg) && StatusInv(cfg, s) && Enabled(cfg, s, step) && step.Begin?
    ensures StatusInv(cfg, Apply(cfg, s, step))
  {
  }

  lemma StatusByRecord<R>(cfg: Config, s: State<R>, step: Step<R>)
    requires ValidConfig(cfg) && OrderInv(cfg, s) && LiveInv(s) && StatusInv(cfg, s)
    requires Enabled(cfg, s, step) && step.Record?
    ensures StatusInv(cfg, Apply(cfg, s, step))
  {
    var s' := Apply(cfg, s, step);
    assert forall i :: 0 <= i < |cfg.stages| && StageDone(s, i) ==> StageDone(s', i);
    forall i | 0 <= i < |cfg.stages| && i != s.caller.i
      ensures cfg.stages[i].name != cfg.stages[s.caller.i].name
    {
      if i < s.caller.i {} else {}
    }
  }

  lemma StatusByEnding<R>(cfg: Config, s: State<R>, step: Step<R>)
    requires ValidConfig(cfg) && OrderInv(cfg, s) && StatusInv(cfg, s)
    requires Enabled(cfg, s, step) && (step.Finish? || step.SaveFailure?)
    ensures StatusInv(cfg, Apply(cfg, s, step))
  {
    var s' := Apply(cfg, s, step);
    assert s'.workers == s.workers && s'.returned == s.returned;
    assert forall i :: 0 <= i < |cfg.stages| && StageDone(s, i) ==> StageDone(s', i);
  }

  /** The other steps do not touch the run's row. */
  lemma StatusByOther<R>(cfg: Config, s: State<R>, step: Step<R>)
    requires OrderInv(cfg, s) && LiveInv(s) && StatusInv(cfg, s) && Enabled(cfg, s, step)
    requires !step.ByWorker? && !step.Begin? && !step.Record? && !step.Finish? && !step.SaveFailure? && !step.Check?
    ensures StatusInv(cfg, Apply(cfg, s, step))
  {
    var s' := Apply(cfg, s, step);
    assert s'.db == s.db && s'.returned == s.returned;
    assert forall i :: 0 <= i < |cfg.stages| && StageDone(s, i) ==> StageDone(s', i);
  }

  lemma StatusByCheck<R>(cfg: Config, s: State<R>)
    requires OrderInv(cfg, s) && LiveInv(s) && StatusInv(cfg, s) && s.caller.Woken? && |s.workers| > 0
    ensures StatusInv(cfg, CheckLast(s))
  {
    var s' := CheckLast(s);
    assert s'.db == s.db;
    assert forall i :: 0 <= i < |cfg.stages| && StageDone(s, i) ==> StageDone(s', i);
    if s'.caller.Recording? && s'.caller.status == Complete {
      assert |s.workers| - 1 in s'.returned;
    }
  }

  lemma StatusStep<R>(cfg: Config, s: State<R>, step: Step<R>)
    requires ValidConfig(cfg) && Inv(cfg, s) && EffectsOwned(cfg, s) && StatusInv(cfg, s) && Enabled(cfg, s, step)
    ensures StatusInv(cfg, Apply(cfg, s, step))
  {
    match step
    case ByWorker(w, action) => StatusByWorker(cfg, s, w, action);
    case Begin => StatusByBegin(cfg, s, step);
    case Record(_) => StatusByRecord(cfg, s, step);
    case Finish(_) => StatusByEnding(cfg, s, step);
    case SaveFailure(_) => StatusByEnding(cfg, s, step);
    case Check => StatusByCheck(cfg, s);
    case _ => StatusByOther(cfg, s, step);
  }

  ghost predicate RowInv<R>(cfg: Config, s: State<R>) {
    Inv(cfg, s) && EffectsOwned(cfg, s) && StatusInv(cfg, s)
  }

  lemma RowStep<R>(cfg: Config, s: State<R>, step: Step<R>)
    requires ValidConfig(cfg) && RowInv(cfg, s) && Enabled(cfg, s, step)
    ensures RowInv(cfg, Apply(cfg, s, step))
  {
    InvStep(cfg, s, step);
    EffectsStep(cfg, s, step);
    StatusStep(cfg, s, step);
    hide Inv, EffectsOwned, StatusInv;
  }

  lemma {:induction false} RowInduction<R>(cfg: Config, s: State<R>, steps: seq<Step<R>>)
    requires ValidConfig(cfg) && RowInv(cfg, s) && Schedule(cfg, s, steps, false)
    ensures RowInv(cfg, Exec(cfg, s, steps))
    decreases |steps|
  {
    hide RowInv;
    if steps != [] {
      RowStep(cfg, s, steps[0]);
      RowInduction(cfg, Apply(cfg, s, steps[0]), steps[1..]);
    }
  }

  // ----- Time

  function AlwaysBudget(cfg: Config, k: nat): (b: real)
    requires k <= |cfg.stages|
  {
    if k == 0 then 0.0
    else AlwaysBudget(cfg, k - 1) + (if cfg.stages[k - 1].alwaysRun then cfg.stageTimeout else 0.0)
  }

  function AlwaysRunStages(cfg: Config, k: nat): nat
    requires k <= |cfg.stages|
  {
    if k == 0 then 0 else AlwaysRunStages(cfg, k - 1) + (if cfg.stages[k - 1].alwaysRun then 1 else 0)
  }

  lemma {:induction false} AlwaysBudgetIsCount(cfg: Config, k: nat)
    requires k <= |cfg.stages|
    ensures AlwaysBudget(cfg, k) == AlwaysRunStages(cfg, k) as real * cfg.stageTimeout
  {
    if k > 0 {
      AlwaysBudgetIsCount(cfg, k - 1);
    }
  }

  lemma {:induction false} AlwaysBudgetGrows(cfg: Config, j: nat, k: nat)
    requires ValidConfig(cfg) && j <= k <= |cfg.stages|
    ensures AlwaysBudget(cfg, j) <= AlwaysBudget(cfg, k)
  {
    if j < k {
      AlwaysBudgetGrows(cfg, j, k - 1);
    }
  }

  /** How many stages may have been waited for, in full, by now. */
  function Waited(cfg: Config, c: Caller): nat {
    match c
    case Woken(i, _) => i + 1
    case Recording(i, _, _, _) => i + 1
    case _ => Position(cfg, c)
  }

  ghost predicate TimeInv<R>(cfg: Config, s: State<R>) {
    && s.startedAt <= s.clock
    && (s.caller.Waiting? ==>
          && 0.0 <= s.clock - s.caller.since <= s.caller.budget
          && s.waitedCapped <= s.caller.since - s.startedAt)
    && s.waitedCapped <= s.clock - s.startedAt
    && (cfg.runTimeout.Some? ==> s.waitedCapped <= cfg.runTimeout.value)
    && Waited(cfg, s.caller) <= |cfg.stages|
    && s.waitedAlways <= AlwaysBudget(cfg, Waited(cfg, s.caller))
    && (s.caller.Idle? ==> s.waitedCapped == 0.0)
    && (s.caller.Launched? ==> BudgetKept(cfg, s.caller.i, s.caller.budget, s.waitedCapped))
    && (s.caller.Waiting? ==> BudgetKept(cfg, s.caller.i, s.caller.budget, s.waitedCapped))
  }

  predicate BudgetKept(cfg: Config, i: nat, budget: real, waitedCapped: real) {
    && i < |cfg.stages|
    && 0.0 <= budget <= cfg.stageTimeout
    && (cfg.runTimeout.Some? && !cfg.stages[i].alwaysRun ==> waitedCapped + budget <= cfg.runTimeout.value)
  }

  /** Room in the always-run budget, wherever the caller goes next. */
  ghost predicate BudgetMonotone(cfg: Config) {
    && (forall k :: 0 <= k < |cfg.stages| ==> AlwaysBudget(cfg, k) <= AlwaysBudget(cfg, k + 1))
    && (forall k :: 0 <= k < |cfg.stages| && cfg.stages[k].alwaysRun ==>
          AlwaysBudget(cfg, k + 1) == AlwaysBudget(cfg, k) + cfg.stageTimeout)
    && (forall k :: 0 <= k <= |cfg.stages| ==> AlwaysBudget(cfg, k) <= AlwaysBudget(cfg, |cfg.stages|))
  }

  lemma BudgetIsMonotone(cfg: Config)
    requires ValidConfig(cfg)
    ensures BudgetMonotone(cfg)
  {
    forall k | 0 <= k < |cfg.stages| ensures AlwaysBudget(cfg, k) <= AlwaysBudget(cfg, k + 1) {
      AlwaysBudgetGrows(cfg, k, k + 1);
    }
    forall k | 0 <= k <= |cfg.stages| ensures AlwaysBudget(cfg, k) <= AlwaysBudget(cfg, |cfg.stages|) {
      AlwaysBudgetGrows(cfg, k, |cfg.stages|);
    }
  }

  predicate AtTheWait<R>(step: Step<R>) {
    step.Launch? || step.StartWait? || step.Wake? || step.Interrupt? || step.Tick?
  }

  lemma TimeAtTheWait<R>(cfg: Config, s: State<R>, step: Step<R>)
    requires ValidConfig(cfg) && OrderInv(cfg, s) && TimeInv(cfg, s) && Enabled(cfg, s, step)
    requires BudgetMonotone(cfg) && AtTheWait(step)
    ensures TimeInv(cfg, Apply(cfg, s, step))
  {
    if s.caller.Waiting? && cfg.stages[s.caller.i].alwaysRun {
      assert AlwaysBudget(cfg, s.caller.i + 1) == AlwaysBudget(cfg, s.caller.i) + cfg.stageTimeout;
    }
  }

  /** Away from the wait, neither the clock nor the charges move. */
  lemma TimeElsewhere<R>(cfg: Config, s: State<R>, step: Step<R>)
    requires OrderInv(cfg, s) && TimeInv(cfg, s) && Enabled(cfg, s, step)
    requires BudgetMonotone(cfg) && !AtTheWait(step)
    ensures TimeInv(cfg, Apply(cfg, s, step))
  {
    var s' := Apply(cfg, s, step);
    assert s'.clock == s.clock && s'.waitedCapped == s.waitedCapped && s'.waitedAlways == s.waitedAlways;
    if step.ByWorker? {
      ActionIsLocal(cfg, s, step.w, step.action);
    } else {
      assert !s'.caller.Waiting? && !s'.caller.Launched?;
      hide BudgetKept;
    }
  }

  lemma TimeStep<R>(cfg: Config, s: State<R>, step: Step<R>)
    requires ValidConfig(cfg) && OrderInv(cfg, s) && TimeInv(cfg, s) && Enabled(cfg, s, step)
    ensures TimeInv(cfg, Apply(cfg, s, step))
  {
    BudgetIsMonotone(cfg);
    if AtTheWait(step) {
      TimeAtTheWait(cfg, s, step);
    } else {
      TimeElsewhere(cfg, s, step);
    }
  }

  lemma {:induction false} TimeInduction<R>(cfg: Config, s: State<R>, steps: seq<Step<R>>)
    requires ValidConfig(cfg) && Inv(cfg, s) && TimeInv(cfg, s) && Schedule(cfg, s, steps, false)
    ensures TimeInv(cfg, Exec(cfg, s, steps))
    decreases |steps|
  {
    if steps != [] {
      InvStep(cfg, s, steps[0]);
      TimeStep(cfg, s, steps[0]);
      TimeInduction(cfg, Apply(cfg, s, steps[0]), steps[1..]);
    }
  }

  /** With both timeouts set, a run waits for its stages at most the run budget plus one stage
      budget for each stage that always runs, on every schedule. */
  lemma WaitsAreBounded<R>(cfg: Config, clock: real, steps: seq<Step<R>>)
    requires ValidConfig(cfg) && cfg.runTimeout.Some? && Schedule(cfg, Init(clock), steps, false)
    ensures var s := Reached(cfg, clock, steps);
            s.waitedCapped + s.waitedAlways
              <= cfg.runTimeout.value + AlwaysRunStages(cfg, |cfg.stages|) as real * cfg.stageTimeout
  {
    TimeInduction(cfg, Init(clock), steps);
    TimeBound(cfg, Reached(cfg, clock, steps));
  }

  lemma TimeBound<R>(cfg: Config, s: State<R>)
    requires ValidConfig(cfg) && cfg.runTimeout.Some? && TimeInv(cfg, s)
    ensures s.waitedCapped + s.waitedAlways
              <= cfg.runTimeout.value + AlwaysRunStages(cfg, |cfg.stages|) as real * cfg.stageTimeout
  {
    var n := |cfg.stages|;
    AlwaysBudgetGrows(cfg, Waited(cfg, s.caller), n);
    assert s.waitedCapped + s.waitedAlways <= cfg.runTimeout.value + AlwaysBudget(cfg, n);
    assert AlwaysBudget(cfg, n) == AlwaysRunStages(cfg, n) as real * cfg.stageTimeout by {
      AlwaysBudgetIsCount(cfg, n);
    }
  }
}
