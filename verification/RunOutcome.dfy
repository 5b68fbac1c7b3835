/**
How a run's own row ends, on every schedule: interrupts may strike anywhere.
*/
module RunOutcome {
  import opened Wrappers
  import opened RunProtocol
  import opened RunSafety
  import opened RunLifecycle
  import opened RunHistory

  // ----- The status

  predicate MovesForward(a: RunStatus, b: RunStatus) {
    a == b || (a == NotStarted && b == Running) || (a == Running && (b == Completed || b == Failed))
  }

  /** Some interrupt strikes after "complete" was committed and before the handlers are left. */
  ghost predicate TornAtFinish<R>(cfg: Config, s: State<R>, steps: seq<Step<R>>)
    requires Schedule(cfg, s, steps, false)
    decreases |steps|
  {
    steps != [] && ((steps[0].UnguardedInterrupt? && s.caller.Finished?) || TornAtFinish(cfg, Apply(cfg, s, steps[0]), steps[1..]))
  }

  lemma {:induction false} EndedStays<R>(cfg: Config, s: State<R>, steps: seq<Step<R>>)
    requires Schedule(cfg, s, steps, false) && s.caller.Ended?
    ensures Exec(cfg, s, steps).caller.Ended? && !TornAtFinish(cfg, s, steps)
    decreases |steps|
  {
    if steps != [] {
      EndedStays(cfg, Apply(cfg, s, steps[0]), steps[1..]);
    }
  }

  predicate FailingComplete<R>(s: State<R>) {
    s.caller.Failing? && s.db.status == Completed
  }

  lemma OneStepTear<R>(cfg: Config, s: State<R>, step: Step<R>)
    requires RowInv(cfg, s) && Enabled(cfg, s, step)
    ensures var s' := Apply(cfg, s, step);
            && (FailingComplete(s') ==> FailingComplete(s) || (step.UnguardedInterrupt? && s.caller.Finished?))
            && (FailingComplete(s) || (step.UnguardedInterrupt? && s.caller.Finished?) ==> FailingComplete(s') || s'.caller.Ended?)
  {
    hide Inv, NoPending, StageDone, RecordedComplete, OwnEntriesOnly;
    if step.ByWorker? {
      ActionIsLocal(cfg, s, step.w, step.action);
      hide Apply;
      ActionKeepsStatus(cfg, s, step);
    }
  }

  lemma ActionKeepsStatus<R>(cfg: Config, s: State<R>, step: Step<R>)
    requires Enabled(cfg, s, step) && step.ByWorker?
    ensures Apply(cfg, s, step).db.status == s.db.status && Apply(cfg, s, step).caller == s.caller
  {
  }

  lemma {:induction false} TornExactly<R>(cfg: Config, s: State<R>, steps: seq<Step<R>>)
    requires ValidConfig(cfg) && RowInv(cfg, s) && Schedule(cfg, s, steps, false)
    ensures Exec(cfg, s, steps).caller.Failing? ==>
              (FailingComplete(Exec(cfg, s, steps)) <==> FailingComplete(s) || TornAtFinish(cfg, s, steps))
    decreases |steps|
  {
    hide RowInv;
    if steps != [] {
      var s' := Apply(cfg, s, steps[0]);
      OneStepTear(cfg, s, steps[0]);
      RowStep(cfg, s, steps[0]);
      TornExactly(cfg, s', steps[1..]);
      if s'.caller.Ended? {
        EndedStays(cfg, s', steps[1..]);
      }
    }
  }

  lemma OneStepForward<R>(cfg: Config, s: State<R>, step: Step<R>)
    requires RowInv(cfg, s) && Enabled(cfg, s, step)
    ensures MovesForward(s.db.status, Apply(cfg, s, step).db.status) <==> !(step == SaveFailure(true) && s.db.status == Completed)
  {
  }

  /** The status only moves from not started to running and from there to complete or failed, at
      every step but one: a failure saved over a complete run.  That step can come exactly when an
      interrupt struck after "complete" was committed. */
  lemma StatusMovesForward<R>(cfg: Config, clock: real, steps: seq<Step<R>>, step: Step<R>)
    requires ValidConfig(cfg) && Schedule(cfg, Init(clock), steps, false) && Enabled(cfg, Reached(cfg, clock, steps), step)
    ensures var s := Reached(cfg, clock, steps);
            && (MovesForward(s.db.status, Apply(cfg, s, step).db.status) <==> !(step == SaveFailure(true) && s.db.status == Completed))
            && (step.SaveFailure? ==> (s.db.status == Completed <==> TornAtFinish(cfg, Init(clock), steps)))
  {
    RowInduction(cfg, Init(clock), steps);
    TornExactly(cfg, Init(clock), steps);
    hide RowInv;
    OneStepForward(cfg, Reached(cfg, clock, steps), step);
  }

  // ----- Schedules that go wrong

  lemma {:induction false} OneMore<R>(cfg: Config, s: State<R>, steps: seq<Step<R>>, step: Step<R>)
    requires Schedule(cfg, s, steps, false) && Enabled(cfg, Exec(cfg, s, steps), step)
    ensures Schedule(cfg, s, steps + [step], false)
    ensures Exec(cfg, s, steps + [step]) == Apply(cfg, Exec(cfg, s, steps), step)
    decreases |steps|
  {
    if steps == [] {
      assert [] + [step] == [step];
      assert [step][1..] == [];
    } else {
      assert (steps + [step])[1..] == steps[1..] + [step];
      OneMore(cfg, Apply(cfg, s, steps[0]), steps[1..], step);
    }
  }

  /** Every stage fails to start; the loop goes through to the end. */
  lemma {:induction false} PassAllStages<R>(cfg: Config, clock: real, n: nat) returns (steps: seq<Step<R>>)
    requires n <= |cfg.stages|
    ensures Schedule(cfg, Init(clock), steps, false)
    ensures Reached(cfg, clock, steps).caller == AtStage(n, map[]) && Reached(cfg, clock, steps).db.status == Running
  {
    var s0: State<R> := Init(clock);
    if n == 0 {
      steps := [];
      OneMore(cfg, s0, steps, Begin);
      steps := steps + [Begin];
    } else {
      steps := PassAllStages(cfg, clock, n - 1);
      OneMore(cfg, s0, steps, LaunchFails);
      steps := steps + [LaunchFails];
      OneMore(cfg, s0, steps, Record(true));
      steps := steps + [Record(true)];
    }
  }

  /** A run that is complete and then failed: the interrupt comes right after the last commit. */
  lemma CompleteThenFailedSchedule<R>(cfg: Config, clock: real) returns (steps: seq<Step<R>>)
    ensures Schedule(cfg, Init(clock), steps, false)
    ensures Reached(cfg, clock, steps).db.status == Completed && Enabled(cfg, Reached(cfg, clock, steps), SaveFailure(true))
    ensures Apply(cfg, Reached(cfg, clock, steps), SaveFailure(true)).db.status == Failed
  {
    var s0: State<R> := Init(clock);
    steps := PassAllStages(cfg, clock, |cfg.stages|);
    OneMore(cfg, s0, steps, Finish(true));
    steps := steps + [Finish(true)];
    OneMore(cfg, s0, steps, UnguardedInterrupt);
    steps := steps + [UnguardedInterrupt];
  }

  /** An interrupt between starting the worker and waiting for it leaves the worker unabandoned:
      it commits after the run was failed, and brings a pending status back. */
  lemma UncoveredInterruptSchedule<R>(cfg: Config, clock: real) returns (steps: seq<Step<R>>)
    requires |cfg.stages| > 0
    ensures Schedule(cfg, Init(clock), steps, false)
    ensures Reached(cfg, clock, steps).db.status == Failed && !NoPending(Reached(cfg, clock, steps).db)
  {
    var s0: State<R> := Init(clock);
    var name := cfg.stages[0].name;
    steps := [];
    OneMore(cfg, s0, steps, Begin);
    steps := steps + [Begin];
    OneMore(cfg, s0, steps, Launch);
    steps := steps + [Launch];
    OneMore(cfg, s0, steps, ByWorker(0, Connect));
    steps := steps + [ByWorker(0, Connect)];
    var view := Exec(cfg, s0, steps).db;
    OneMore(cfg, s0, steps, UnguardedInterrupt);
    steps := steps + [UnguardedInterrupt];
    OneMore(cfg, s0, steps, SaveFailure(true));
    steps := steps + [SaveFailure(true)];
    OneMore(cfg, s0, steps, ByWorker(0, Return(map[], Effect(Some(map[]), []))));
    steps := steps + [ByWorker(0, Return(map[], Effect(Some(map[]), [])))];
    var before := Exec(cfg, s0, steps);
    assert before.db.status == Failed && before.workers[0].phase == Returned(view, map[], Effect(Some(map[]), []));
    OneMore(cfg, s0, steps, ByWorker(0, Settle));
    steps := steps + [ByWorker(0, Settle)];
    assert name in view.availability && view.availability[name] == Pending;
    assert Exec(cfg, s0, steps).db.availability[name] == Pending;
  }

  /** The first stage, connected. */
  lemma FirstStageRuns<R>(cfg: Config, clock: real) returns (steps: seq<Step<R>>)
    requires |cfg.stages| > 0
    ensures Schedule(cfg, Init(clock), steps, false)
    ensures var s := Reached(cfg, clock, steps);
            && s.caller.Launched? && s.caller.i == 0 && s.caller.context == map[] && s.db.rows == [] && s.journal == []
            && |s.workers| == 1 && s.workers[0].phase.InStage? && !s.workers[0].abandoned && !s.workers[0].rolledBack
            && s.workers[0].stage == 0 && s.timedOut == {}
  {
    var s0: State<R> := Init(clock);
    steps := [];
    OneMore(cfg, s0, steps, Begin);
    steps := steps + [Begin];
    OneMore(cfg, s0, steps, Launch);
    steps := steps + [Launch];
    OneMore(cfg, s0, steps, ByWorker(0, Connect));
    steps := steps + [ByWorker(0, Connect)];
  }

  /** The first stage, timed out; the run has gone on. */
  lemma FirstStageTimesOut<R>(cfg: Config, clock: real) returns (steps: seq<Step<R>>)
    requires ValidConfig(cfg) && |cfg.stages| > 0
    ensures Schedule(cfg, Init(clock), steps, false)
    ensures var s := Reached(cfg, clock, steps);
            && 0 in s.timedOut && s.caller.AtStage? && s.db.rows == []
            && |s.workers| == 1 && s.workers[0].phase.InStage? && !s.workers[0].rolledBack
  {
    var s0: State<R> := Init(clock);
    steps := FirstStageRuns(cfg, clock);
    OneMore(cfg, s0, steps, StartWait);
    steps := steps + [StartWait];
    var budget := Exec(cfg, s0, steps).caller.budget;
    BudgetNotNegative(cfg, clock, steps);
    OneMore(cfg, s0, steps, Tick(budget));
    steps := steps + [Tick(budget)];
    OneMore(cfg, s0, steps, Wake);
    steps := steps + [Wake];
    OneMore(cfg, s0, steps, Check);
    steps := steps + [Check];
    OneMore(cfg, s0, steps, Record(true));
    steps := steps + [Record(true)];
  }

  lemma BudgetNotNegative<R>(cfg: Config, clock: real, steps: seq<Step<R>>)
    requires ValidConfig(cfg) && Schedule(cfg, Init(clock), steps, false) && Reached<R>(cfg, clock, steps).caller.Waiting?
    ensures Reached<R>(cfg, clock, steps).caller.budget >= 0.0
  {
    TimeInduction(cfg, Init<R>(clock), steps);
  }

  /** A stage that timed out, then rolls its session back, then commits: its rows land, while the
      run is past it. */
  lemma LateRowsSchedule<R>(cfg: Config, clock: real, row: R) returns (steps: seq<Step<R>>)
    requires ValidConfig(cfg) && |cfg.stages| > 0
    ensures Schedule(cfg, Init(clock), steps, false)
    ensures 0 in Reached(cfg, clock, steps).timedOut && Reached(cfg, clock, steps).db.rows == [row]
    ensures CommitsOnItsOwn(cfg, Init(clock), steps, 0)
  {
    var s0: State<R> := Init(clock);
    steps := FirstStageTimesOut(cfg, clock);
    OneMore(cfg, s0, steps, ByWorker(0, OwnRollback));
    steps := steps + [ByWorker(0, OwnRollback)];
    OneMore(cfg, s0, steps, ByWorker(0, StageCommit([row])));
    steps := steps + [ByWorker(0, StageCommit([row]))];
    var s := Reached(cfg, clock, steps);
    assert s.journal[|s.journal| - 1] == Write(0, [row], false);
    OutsideExactly(cfg, s0, steps, 0);
  }

  /** The first stage rolls its session back and returns. */
  lemma FirstStageWithdraws<R>(cfg: Config, clock: real) returns (steps: seq<Step<R>>)
    requires |cfg.stages| > 0
    ensures Schedule(cfg, Init(clock), steps, false)
    ensures var s := Reached(cfg, clock, steps);
            && s.caller.Launched? && s.caller.i == 0 && s.caller.context == map[] && s.db.rows == [] && s.journal == []
            && |s.workers| == 1 && s.workers[0].phase == Settled(Discarded(map[]))
  {
    var s0: State<R> := Init(clock);
    steps := FirstStageRuns(cfg, clock);
    OneMore(cfg, s0, steps, ByWorker(0, OwnRollback));
    steps := steps + [ByWorker(0, OwnRollback)];
    OneMore(cfg, s0, steps, ByWorker(0, Return(map[], Effect(None, []))));
    steps := steps + [ByWorker(0, Return(map[], Effect(None, [])))];
    OneMore(cfg, s0, steps, ByWorker(0, Settle));
    steps := steps + [ByWorker(0, Settle)];
  }

  /** A stage that rolls its session back and returns: recorded complete, with no writes. */
  lemma CompleteWithoutWritesSchedule<R>(cfg: Config, clock: real) returns (steps: seq<Step<R>>)
    requires |cfg.stages| > 0
    ensures Schedule(cfg, Init(clock), steps, false)
    ensures var s := Reached(cfg, clock, steps); RecordedComplete(cfg, s.db, 0) && 0 in s.returned && s.journal == [] && s.db.rows == []
  {
    var s0: State<R> := Init(clock);
    steps := FirstStageWithdraws(cfg, clock);
    OneMore(cfg, s0, steps, StartWait);
    steps := steps + [StartWait];
    OneMore(cfg, s0, steps, Wake);
    steps := steps + [Wake];
    OneMore(cfg, s0, steps, Check);
    steps := steps + [Check];
    OneMore(cfg, s0, steps, Record(true));
    steps := steps + [Record(true)];
  }

  // ----- Pending stages in a finished run

  /** A torn-off stage's commit: it had read the run's row before the failure was saved, and it
      assigns the availability column after. */
  predicate IsStale<R>(c: Commit<R>) {
    c.effect.coverage.Some? && c.view.status == Running && c.at.status == Failed
  }

  ghost predicate HasStale<R>(log: seq<Commit<R>>) {
    exists k :: 0 <= k < |log| && IsStale(log[k])
  }

  predicate IsFinished(status: RunStatus) {
    status == Completed || status == Failed
  }

  /** While the run goes on, the entry of the stage is pending. */
  predicate OwnPending<R>(cfg: Config, db: RunDb<R>, i: nat)
    requires i < |cfg.stages|
  {
    cfg.stages[i].name in db.availability && db.availability[cfg.stages[i].name] == Pending
  }

  /** The row as a stage of a live worker may find it. */
  predicate RowForStage<R>(cfg: Config, db: RunDb<R>, i: nat)
    requires i < |cfg.stages|
  {
    && (db.status == Running || db.status == Failed)
    && (db.status == Running ==> OwnPending(cfg, db, i))
    && (db.status == Failed ==> NoPending(db))
  }

  ghost predicate LiveRows<R>(cfg: Config, s: State<R>) {
    forall w :: 0 <= w < |s.workers| && s.workers[w].Live() ==>
      && s.workers[w].stage < |cfg.stages|
      && !HasStale(s.log)
      && RowForStage(cfg, s.db, s.workers[w].stage)
      && (s.workers[w].phase.InStage? ==> RowForStage(cfg, s.workers[w].phase.view, s.workers[w].stage))
      && (s.workers[w].phase.Returned? ==> RowForStage(cfg, s.workers[w].phase.view, s.workers[w].stage))
  }

  ghost predicate OutcomeInv<R>(cfg: Config, s: State<R>) {
    && (HasStale(s.log) ==> s.db.status == Failed)
    && (IsFinished(s.db.status) ==> (!NoPending(s.db) <==> HasStale(s.log)))
    && LiveRows(cfg, s)
  }

  lemma LiveCommitKeepsOutcome<R>(cfg: Config, s: State<R>, w: nat)
    requires RowInv(cfg, s) && OutcomeInv(cfg, s) && w < |s.workers| && Commits(s.workers[w], Settle)
    ensures OutcomeInv(cfg, WorkerActs(s, w, Settle))
  {
    var s' := WorkerActs(s, w, Settle);
    var me := s.workers[w];
    assert me.Live();
    OnlyThisWasLive(cfg, s, w);
    hide Inv, StatusInv;
    var c := s'.log[|s.log|];
    assert forall k :: 0 <= k < |s.log| ==> s'.log[k] == s.log[k] && !IsStale(s.log[k]);
    assert HasStale(s'.log) <==> IsStale(c);
    if IsStale(c) {
      StaleBringsPending(cfg, s.db, me.phase.view, me.phase.effect, me.stage);
    }
  }

  lemma StaleBringsPending<R>(cfg: Config, db: RunDb<R>, view: RunDb<R>, effect: Effect<R>, i: nat)
    requires i < |cfg.stages| && OwnEntriesOnly(cfg, effect) && effect.coverage.Some? && OwnPending(cfg, view, i)
    ensures !NoPending(Land(db, view, effect))
  {
    assert IsStageName(cfg, cfg.stages[i].name);
    var name := cfg.stages[i].name;
    assert Land(db, view, effect).availability[name] == Pending;
  }

  lemma ActionKeepsOutcome<R>(cfg: Config, s: State<R>, w: nat, action: Action<R>)
    requires Inv(cfg, s) && OutcomeInv(cfg, s) && w < |s.workers| && CanAct(cfg, s.workers[w], action)
    requires !Commits(s.workers[w], action)
    ensures OutcomeInv(cfg, WorkerActs(s, w, action))
  {
    ActionIsLocal(cfg, s, w, action);
    OrderKnows(cfg, s, w);
    ActionKeepsRows(cfg, s, w, action);
    hide Inv, HasStale, RowForStage, CanAct, WorkerActs;
  }

  lemma OrderKnows<R>(cfg: Config, s: State<R>, w: nat)
    requires Inv(cfg, s) && w < |s.workers|
    ensures s.workers[w].stage < |cfg.stages|
  {
  }

  /** A worker that does not commit leaves the row and the log, and what it holds of the row is what
      it held or what is there. */
  lemma ActionKeepsRows<R>(cfg: Config, s: State<R>, w: nat, action: Action<R>)
    requires w < |s.workers| && CanAct(cfg, s.workers[w], action) && !Commits(s.workers[w], action)
    requires s.workers[w].stage < |cfg.stages| && OutcomeInv(cfg, s)
    ensures var s' := WorkerActs(s, w, action);
            && s'.log == s.log && SameRow(s'.db, s.db)
            && (s'.workers[w].Live() ==>
                  && RowForStage(cfg, s'.db, s'.workers[w].stage)
                  && (s'.workers[w].phase.InStage? ==> RowForStage(cfg, s'.workers[w].phase.view, s'.workers[w].stage))
                  && (s'.workers[w].phase.Returned? ==> RowForStage(cfg, s'.workers[w].phase.view, s'.workers[w].stage)))
            && forall i: nat, db: RunDb<R> ::
                 i < |cfg.stages| && SameRow(db, s.db) ==> (RowForStage(cfg, db, i) <==> RowForStage(cfg, s.db, i))
  {
    hide HasStale;
  }

  lemma SaveKeepsOutcome<R>(cfg: Config, s: State<R>, step: Step<R>)
    requires RowInv(cfg, s) && OutcomeInv(cfg, s) && Enabled(cfg, s, step) && step.SaveFailure?
    ensures OutcomeInv(cfg, Apply(cfg, s, step))
  {
    hide HasStale;
  }

  lemma FinishKeepsOutcome<R>(cfg: Config, s: State<R>, step: Step<R>)
    requires RowInv(cfg, s) && OutcomeInv(cfg, s) && Enabled(cfg, s, step) && step.Finish?
    ensures OutcomeInv(cfg, Apply(cfg, s, step))
  {
    assert NoPending(s.db);
    hide HasStale;
  }

  lemma LaunchKeepsOutcome<R>(cfg: Config, s: State<R>, step: Step<R>)
    requires RowInv(cfg, s) && OutcomeInv(cfg, s) && Enabled(cfg, s, step) && step.Launch?
    ensures OutcomeInv(cfg, Apply(cfg, s, step))
  {
    var i := s.caller.i;
    assert OwnPending(cfg, s.db, i);
    hide HasStale;
  }

  /** In these steps no worker can commit, before or after. */
  lemma LoopKeepsOutcome<R>(cfg: Config, s: State<R>, step: Step<R>)
    requires RowInv(cfg, s) && OutcomeInv(cfg, s) && Enabled(cfg, s, step) && (step.Begin? || step.Record?)
    ensures OutcomeInv(cfg, Apply(cfg, s, step))
  {
    hide HasStale;
    assert forall w :: 0 <= w < |s.workers| ==> !s.workers[w].Live();
  }

  lemma OtherKeepsOutcome<R>(cfg: Config, s: State<R>, step: Step<R>)
    requires OutcomeInv(cfg, s) && Enabled(cfg, s, step)
    requires !step.ByWorker? && !step.Begin? && !step.Record? && !step.Finish? && !step.SaveFailure? && !step.Launch?
    ensures OutcomeInv(cfg, Apply(cfg, s, step))
  {
    OtherAddsNoWriter(cfg, s, step);
    assert Apply(cfg, s, step).db == s.db;
    hide HasStale, Apply, Enabled;
  }

  lemma OutcomeStep<R>(cfg: Config, s: State<R>, step: Step<R>)
    requires RowInv(cfg, s) && OutcomeInv(cfg, s) && Enabled(cfg, s, step)
    ensures OutcomeInv(cfg, Apply(cfg, s, step))
  {
    hide OutcomeInv, StatusInv, OrderInv, LiveInv, LogInv, JournalInv, IsolationInv, ExclusionInv;
    match step
    case ByWorker(w, action) =>
      if Commits(s.workers[w], action) {
        LiveCommitKeepsOutcome(cfg, s, w);
      } else {
        ActionKeepsOutcome(cfg, s, w, action);
      }
    case Begin => LoopKeepsOutcome(cfg, s, step);
    case Record(_) => LoopKeepsOutcome(cfg, s, step);
    case Finish(_) => FinishKeepsOutcome(cfg, s, step);
    case SaveFailure(_) => SaveKeepsOutcome(cfg, s, step);
    case Launch => LaunchKeepsOutcome(cfg, s, step);
    case _ => OtherKeepsOutcome(cfg, s, step);
  }

  lemma {:induction false} OutcomeInduction<R>(cfg: Config, s: State<R>, steps: seq<Step<R>>)
    requires ValidConfig(cfg) && RowInv(cfg, s) && OutcomeInv(cfg, s) && Schedule(cfg, s, steps, false)
    ensures OutcomeInv(cfg, Exec(cfg, s, steps))
    decreases |steps|
  {
    hide RowInv, OutcomeInv;
    if steps != [] {
      RowStep(cfg, s, steps[0]);
      OutcomeStep(cfg, s, steps[0]);
      OutcomeInduction(cfg, Apply(cfg, s, steps[0]), steps[1..]);
    }
  }

  /** Some interrupt strikes between starting a worker and waiting for it, or between the wait and
      the lock, while the worker can still commit. */
  ghost predicate TornFromWorker<R>(cfg: Config, s: State<R>, steps: seq<Step<R>>)
    requires Schedule(cfg, s, steps, false)
    decreases |steps|
  {
    steps != [] && (TearsOff(s, steps[0]) || TornFromWorker(cfg, Apply(cfg, s, steps[0]), steps[1..]))
  }

  predicate TearsOff<R>(s: State<R>, step: Step<R>) {
    step.UnguardedInterrupt? && (s.caller.Launched? || s.caller.Woken?)
    && |s.workers| > 0 && s.workers[|s.workers| - 1].Live()
  }

  /** A worker that can still commit, and whose caller is gone. */
  ghost predicate Orphaned<R>(s: State<R>) {
    !AtWorker(s.caller) && exists w :: 0 <= w < |s.workers| && s.workers[w].Live()
  }

  lemma OneStepOrphan<R>(cfg: Config, s: State<R>, step: Step<R>)
    requires RowInv(cfg, s) && Enabled(cfg, s, step)
    ensures Orphaned(Apply(cfg, s, step)) ==> Orphaned(s) || TearsOff(s, step)
    ensures HasStale(Apply(cfg, s, step).log) ==> HasStale(s.log) || Orphaned(s)
  {
    OrphanIsTorn(cfg, s, step);
    StaleIsOrphans(cfg, s, step);
  }

  lemma OrphanIsTorn<R>(cfg: Config, s: State<R>, step: Step<R>)
    requires Inv(cfg, s) && Enabled(cfg, s, step)
    ensures Orphaned(Apply(cfg, s, step)) ==> Orphaned(s) || TearsOff(s, step)
  {
    hide IsolationInv, LogInv, JournalInv, ExclusionInv;
    var s' := Apply(cfg, s, step);
    if w :| 0 <= w < |s'.workers| && s'.workers[w].Live() {
      if !step.Launch? {
        LiveWasLive(cfg, s, step, w);
      }
    }
  }

  lemma LiveWasLive<R>(cfg: Config, s: State<R>, step: Step<R>, w: nat)
    requires Enabled(cfg, s, step) && !step.Launch? && w < |Apply(cfg, s, step).workers| && Apply(cfg, s, step).workers[w].Live()
    ensures w < |s.workers| && s.workers[w].Live()
    ensures step.Check? || step.Interrupt? ==> w != |s.workers| - 1 || (!s.caller.Waiting? && !s.caller.Woken?)
  {
  }

  lemma StaleIsOrphans<R>(cfg: Config, s: State<R>, step: Step<R>)
    requires RowInv(cfg, s) && Enabled(cfg, s, step)
    ensures HasStale(Apply(cfg, s, step).log) ==> HasStale(s.log) || Orphaned(s)
  {
    hide Inv;
    var s' := Apply(cfg, s, step);
    if k :| 0 <= k < |s'.log| && IsStale(s'.log[k]) {
      if k < |s.log| {
        assert s'.log[k] == s.log[k];
      } else {
        assert s.workers[step.w].Live() && s.db.status == Failed;
      }
    }
  }

  lemma {:induction false} StaleNeedsTear<R>(cfg: Config, s: State<R>, steps: seq<Step<R>>)
    requires ValidConfig(cfg) && RowInv(cfg, s) && Schedule(cfg, s, steps, false)
    ensures HasStale(Exec(cfg, s, steps).log) ==> HasStale(s.log) || Orphaned(s) || TornFromWorker(cfg, s, steps)
    decreases |steps|
  {
    hide RowInv, Orphaned, TearsOff, HasStale;
    if steps != [] {
      OneStepOrphan(cfg, s, steps[0]);
      RowStep(cfg, s, steps[0]);
      StaleNeedsTear(cfg, Apply(cfg, s, steps[0]), steps[1..]);
    }
  }

  lemma {:induction false} CoveredIsNotTorn<R>(cfg: Config, s: State<R>, steps: seq<Step<R>>)
    requires Schedule(cfg, s, steps, true) && Schedule(cfg, s, steps, false)
    ensures !TornFromWorker(cfg, s, steps)
    decreases |steps|
  {
    if steps != [] {
      CoveredIsNotTorn(cfg, Apply(cfg, s, steps[0]), steps[1..]);
    }
  }

  /** A finished run shows a pending stage exactly when an uncovered interrupt tore a worker off
      that could still commit, and that worker, having read the run's row before the failure was
      saved, assigned the availability column after. */
  lemma PendingExactly<R>(cfg: Config, clock: real, steps: seq<Step<R>>)
    requires ValidConfig(cfg) && Schedule(cfg, Init(clock), steps, false)
    requires IsFinished(Reached(cfg, clock, steps).db.status)
    ensures !NoPending(Reached(cfg, clock, steps).db)
            <==> TornFromWorker(cfg, Init(clock), steps) && HasStale(Reached(cfg, clock, steps).log)
  {
    OutcomeInduction(cfg, Init(clock), steps);
    StaleNeedsTear(cfg, Init(clock), steps);
    assert !Orphaned(Init<R>(clock)) && !HasStale(Init<R>(clock).log);
  }

  /** The run row after any schedule: it matches the point the caller is at; every stage recorded
      complete had its result returned by a worker that was never given up; and with interrupts
      where they are handled a finished run has no pending stage. */
  lemma RunRowOutcome<R>(cfg: Config, clock: real, steps: seq<Step<R>>)
    requires ValidConfig(cfg) && Schedule(cfg, Init(clock), steps, false)
    ensures var s := Reached(cfg, clock, steps);
            && RowMatchesCaller(s)
            && (Schedule(cfg, Init(clock), steps, true) && IsFinished(s.db.status) ==> NoPending(s.db))
            && (forall i :: 0 <= i < |cfg.stages| && RecordedComplete(cfg, s.db, i) ==>
                  exists w :: 0 <= w < |s.workers| && s.workers[w].stage == i
                              && Published(s.workers[w].phase) && !s.workers[w].abandoned)
  {
    EmptyHistory<R>(cfg, clock);
    HistoryInduction(cfg, Init<R>(clock), steps);
    var s := Reached(cfg, clock, steps);
    if Schedule(cfg, Init(clock), steps, true) && IsFinished(s.db.status) {
      PendingExactly(cfg, clock, steps);
      CoveredIsNotTorn(cfg, Init(clock), steps);
    }
    hide LiveHistory, LogHistory;
    forall i | 0 <= i < |cfg.stages| && RecordedComplete(cfg, s.db, i)
      ensures exists w :: 0 <= w < |s.workers| && s.workers[w].stage == i
                          && Published(s.workers[w].phase) && !s.workers[w].abandoned
    {
      var w :| w in s.returned && w < |s.workers| && s.workers[w].stage == i;
      assert Published(s.workers[w].phase);
    }
  }

  lemma EmptyHistory<R>(cfg: Config, clock: real)
    requires ValidConfig(cfg)
    ensures RowInv(cfg, Init<R>(clock)) && HistoryInv(cfg, Init<R>(clock))
  {
    assert NonStage(cfg, map[]) == map[];
  }

  // ----- What a stage's status says of its context

  /** The stage put an outage into its context: an entry in an outage status that is not the very
      object that was there before. */
  predicate PutsOutage(before: Context, after: Context) {
    exists key :: key in after
      && (key !in before || before[key].ident != after[key].ident)
      && (after[key].status == Some("timeout") || after[key].status == Some("unavailable") || after[key].status == Some("rate_limited"))
  }

  function ResultOf<R>(p: Phase<R>): Context
    requires Published(p)
  {
    p.outcome.after
  }

  /** The worker's result was returned, without an outage in it. */
  predicate ReturnedWell<R>(s: State<R>, w: nat) {
    w in s.returned && w < |s.workers| && Published(s.workers[w].phase)
    && !PutsOutage(s.workers[w].before, ResultOf(s.workers[w].phase))
  }

  ghost predicate StageReturnedWell<R>(s: State<R>, i: nat) {
    exists w: nat :: ReturnedWell(s, w) && s.workers[w].stage == i
  }

  /** The status about to be recorded right after a result was returned. */
  ghost predicate AboutToRecord<R>(s: State<R>) {
    s.caller.Recording? && s.caller.guarded ==>
      && |s.workers| > 0 && |s.workers| - 1 in s.returned && s.workers[|s.workers| - 1].stage == s.caller.i
      && (s.caller.status == Complete || s.caller.status == Unavailable)
      && (s.caller.status == Complete <==> ReturnedWell(s, |s.workers| - 1))
  }

  ghost predicate VerdictInv<R>(cfg: Config, s: State<R>) {
    && AboutToRecord(s)
    && (s.caller.Recording? && s.caller.status == Complete ==> s.caller.guarded)
    && (forall i :: 0 <= i < |cfg.stages| && RecordedComplete(cfg, s.db, i) ==> StageReturnedWell(s, i))
  }

  lemma OutageTest(before: Context, after: Context)
    ensures ReportedOutage(before, after) <==> PutsOutage(before, after)
  {
    forall key | key in after ensures IsOutage(after[key]) <==>
        after[key].status == Some("timeout") || after[key].status == Some("unavailable") || after[key].status == Some("rate_limited") {
    }
  }

  lemma CheckRecordsVerdict<R>(cfg: Config, s: State<R>)
    requires Inv(cfg, s) && Enabled(cfg, s, Check)
    ensures AboutToRecord(Apply(cfg, s, Check))
    ensures var c := Apply(cfg, s, Check).caller; c.Recording? && c.status == Complete ==> c.guarded
  {
    hide OrderInv, LogInv, JournalInv, IsolationInv, ReportedOutage, PutsOutage;
    var last := s.workers[|s.workers| - 1];
    if Published(last.phase) {
      OutageTest(last.before, ResultOf(last.phase));
    }
  }

  /** The result of a settled worker never changes, and neither does the set of returned ones but at
      a check. */
  lemma ReturnedWellStays<R>(cfg: Config, s: State<R>, step: Step<R>, w: nat)
    requires ExclusionInv(s) && Enabled(cfg, s, step)
    ensures ReturnedWell(s, w) ==> ReturnedWell(Apply(cfg, s, step), w)
    ensures !step.Check? && w in s.returned ==> (ReturnedWell(s, w) <==> ReturnedWell(Apply(cfg, s, step), w))
    ensures !step.Check? ==> Apply(cfg, s, step).returned == s.returned
  {
    hide PutsOutage;
    SettledKeepsWorker(cfg, s, step, w);
  }

  lemma SettledKeepsWorker<R>(cfg: Config, s: State<R>, step: Step<R>, w: nat)
    requires Enabled(cfg, s, step)
    ensures w < |s.workers| && s.workers[w].phase.Settled? ==>
              var s' := Apply(cfg, s, step);
              w < |s'.workers| && s'.workers[w].phase == s.workers[w].phase && s'.workers[w].before == s.workers[w].before
              && s'.workers[w].stage == s.workers[w].stage
  {
  }

  lemma StageReturnedWellStays<R>(cfg: Config, s: State<R>, step: Step<R>, i: nat)
    requires ExclusionInv(s) && Enabled(cfg, s, step) && StageReturnedWell(s, i)
    ensures StageReturnedWell(Apply(cfg, s, step), i)
  {
    var w: nat :| ReturnedWell(s, w) && s.workers[w].stage == i;
    ReturnedWellStays(cfg, s, step, w);
    SettledKeepsWorker(cfg, s, step, w);
  }

  /** Only a record makes a stage complete. */
  lemma CompleteIsRecorded<R>(cfg: Config, s: State<R>, step: Step<R>, i: nat)
    requires ValidConfig(cfg) && RowInv(cfg, s) && HistoryInv(cfg, s) && Enabled(cfg, s, step) && i < |cfg.stages|
    requires RecordedComplete(cfg, Apply(cfg, s, step).db, i)
    ensures RecordedComplete(cfg, s.db, i) || (step == Record(true) && s.caller.i == i && s.caller.status == Complete)
  {
    if step.ByWorker? && Commits(s.workers[step.w], step.action) {
      CommitKeepsComplete(cfg, s, step.w, i);
    } else {
      hide HistoryInv, Inv;
      NewlyComplete(cfg, s, step, i);
    }
  }

  lemma NewlyComplete<R>(cfg: Config, s: State<R>, step: Step<R>, i: nat)
    requires ValidConfig(cfg) && Enabled(cfg, s, step) && i < |cfg.stages|
    requires !(step.ByWorker? && Commits(s.workers[step.w], step.action))
    requires RecordedComplete(cfg, Apply(cfg, s, step).db, i)
    ensures RecordedComplete(cfg, s.db, i) || (step == Record(true) && s.caller.i == i && s.caller.status == Complete)
  {
    if step.Record? && i != s.caller.i {
      assert cfg.stages[i].name != cfg.stages[s.caller.i].name by { if i < s.caller.i {} else {} }
    }
  }

  lemma CommitKeepsComplete<R>(cfg: Config, s: State<R>, w: nat, i: nat)
    requires ValidConfig(cfg) && RowInv(cfg, s) && HistoryInv(cfg, s) && w < |s.workers| && Commits(s.workers[w], Settle)
    requires i < |cfg.stages|
    ensures RecordedComplete(cfg, WorkerActs(s, w, Settle).db, i) <==> RecordedComplete(cfg, s.db, i)
  {
    var me := s.workers[w];
    assert me.Live();
    LandKeeps(cfg, s.db, me.phase.view, me.phase.effect, me.stage);
    hide Inv, StatusInv, LogHistory, CompleteHistory;
    assert Land(s.db, me.phase.view, me.phase.effect).availability == WorkerActs(s, w, Settle).db.availability;
  }

  /** Complete stays complete. */
  lemma CompleteStays<R>(cfg: Config, s: State<R>, step: Step<R>, i: nat)
    requires ValidConfig(cfg) && RowInv(cfg, s) && HistoryInv(cfg, s) && Enabled(cfg, s, step) && i < |cfg.stages|
    requires RecordedComplete(cfg, s.db, i)
    ensures RecordedComplete(cfg, Apply(cfg, s, step).db, i)
  {
    if step.ByWorker? && Commits(s.workers[step.w], step.action) {
      CommitKeepsComplete(cfg, s, step.w, i);
    } else {
      if step.Record? {
        NextIsNotComplete(cfg, s, i);
      } else if step.Begin? {
        IdleHasNoComplete(cfg, s, i);
      }
      hide RowInv, HistoryInv, ValidConfig;
      CompleteUntouched(cfg, s, step, i);
    }
  }

  lemma CompleteUntouched<R>(cfg: Config, s: State<R>, step: Step<R>, i: nat)
    requires Enabled(cfg, s, step) && i < |cfg.stages| && RecordedComplete(cfg, s.db, i)
    requires !(step.ByWorker? && Commits(s.workers[step.w], step.action)) && !step.Begin?
    requires step.Record? ==> cfg.stages[i].name != cfg.stages[s.caller.i].name
    ensures RecordedComplete(cfg, Apply(cfg, s, step).db, i)
  {
  }

  lemma NextIsNotComplete<R>(cfg: Config, s: State<R>, i: nat)
    requires ValidConfig(cfg) && RowInv(cfg, s) && s.caller.Recording? && i < |cfg.stages| && RecordedComplete(cfg, s.db, i)
    ensures s.caller.i < |cfg.stages| && cfg.stages[i].name != cfg.stages[s.caller.i].name
  {
  }

  lemma IdleHasNoComplete<R>(cfg: Config, s: State<R>, i: nat)
    requires RowInv(cfg, s) && HistoryInv(cfg, s) && s.caller.Idle? && i < |cfg.stages|
    ensures !RecordedComplete(cfg, s.db, i)
  {
  }

  lemma VerdictStep<R>(cfg: Config, s: State<R>, step: Step<R>)
    requires ValidConfig(cfg) && RowInv(cfg, s) && HistoryInv(cfg, s) && VerdictInv(cfg, s) && Enabled(cfg, s, step)
    ensures VerdictInv(cfg, Apply(cfg, s, step))
  {
    var s' := Apply(cfg, s, step);
    forall i | 0 <= i < |cfg.stages| && RecordedComplete(cfg, s'.db, i) ensures StageReturnedWell(s', i) {
      CompleteIsRecorded(cfg, s, step, i);
      if !RecordedComplete(cfg, s.db, i) {
        assert ReturnedWell(s, |s.workers| - 1);
      }
      StageReturnedWellStays(cfg, s, step, i);
    }
    hide RecordedComplete, StageReturnedWell, HistoryInv;
    if step.Check? {
      CheckRecordsVerdict(cfg, s);
    } else {
      RecordingKeepsVerdict(cfg, s, step);
    }
  }

  lemma RecordingKeepsVerdict<R>(cfg: Config, s: State<R>, step: Step<R>)
    requires ExclusionInv(s) && AboutToRecord(s) && Enabled(cfg, s, step) && !step.Check?
    requires s.caller.Recording? && s.caller.status == Complete ==> s.caller.guarded
    ensures AboutToRecord(Apply(cfg, s, step))
    ensures var c := Apply(cfg, s, step).caller; c.Recording? && c.status == Complete ==> c.guarded
  {
    if |s.workers| > 0 {
      ReturnedWellStays(cfg, s, step, |s.workers| - 1);
      SettledKeepsWorker(cfg, s, step, |s.workers| - 1);
    }
    hide ReturnedWell;
    RecordingGoesOn(cfg, s, step);
    hide Enabled, Apply;
  }

  /** The caller only comes to record a result by checking it. */
  lemma RecordingGoesOn<R>(cfg: Config, s: State<R>, step: Step<R>)
    requires Enabled(cfg, s, step) && !step.Check?
    ensures var s' := Apply(cfg, s, step);
            && (s'.caller.Recording? && s'.caller.guarded ==> s'.caller == s.caller && |s'.workers| == |s.workers|)
            && (s'.caller.Recording? && s'.caller.status == Complete ==> s'.caller == s.caller)
  {
  }

  lemma EmptyVerdict<R>(cfg: Config, clock: real)
    ensures VerdictInv(cfg, Init<R>(clock))
  {
  }

  lemma {:induction false} VerdictInduction<R>(cfg: Config, s: State<R>, steps: seq<Step<R>>)
    requires ValidConfig(cfg) && RowInv(cfg, s) && HistoryInv(cfg, s) && VerdictInv(cfg, s) && Schedule(cfg, s, steps, false)
    ensures VerdictInv(cfg, Exec(cfg, s, steps))
    decreases |steps|
  {
    hide RowInv, HistoryInv, VerdictInv;
    if steps != [] {
      RowStep(cfg, s, steps[0]);
      HistoryStep(cfg, s, steps[0]);
      VerdictStep(cfg, s, steps[0]);
      VerdictInduction(cfg, Apply(cfg, s, steps[0]), steps[1..]);
    }
  }

  /** On every schedule, a stage recorded complete has a worker whose result was returned with no
      outage in it. */
  lemma CompleteMeansNoOutage<R>(cfg: Config, clock: real, steps: seq<Step<R>>, i: nat)
    requires ValidConfig(cfg) && Schedule(cfg, Init(clock), steps, false) && i < |cfg.stages|
    requires RecordedComplete(cfg, Reached(cfg, clock, steps).db, i)
    ensures var s := Reached(cfg, clock, steps);
            exists w :: w in s.returned && w < |s.workers| && s.workers[w].stage == i && Published(s.workers[w].phase)
                        && !PutsOutage(s.workers[w].before, s.workers[w].phase.outcome.after)
  {
    EmptyHistory<R>(cfg, clock);
    VerdictInduction(cfg, Init(clock), steps);
    hide RowInv, HistoryInv, PutsOutage;
  }

  /** Some step of the schedule records the status of this worker's stage, at the first attempt
      after its result was returned. */
  ghost predicate RecordsFirst<R>(cfg: Config, s: State<R>, steps: seq<Step<R>>, w: nat)
    requires Schedule(cfg, s, steps, false)
    decreases |steps|
  {
    steps != [] && (FirstRecord(s, steps[0], w) || RecordsFirst(cfg, Apply(cfg, s, steps[0]), steps[1..], w))
  }

  ghost predicate FirstRecord<R>(s: State<R>, step: Step<R>, w: nat) {
    step == Record(true) && s.caller.Recording? && s.caller.guarded && w == |s.workers| - 1
  }

  lemma {:induction false} CompleteStaysOn<R>(cfg: Config, s: State<R>, steps: seq<Step<R>>, i: nat)
    requires ValidConfig(cfg) && RowInv(cfg, s) && HistoryInv(cfg, s) && Schedule(cfg, s, steps, false) && i < |cfg.stages|
    requires RecordedComplete(cfg, s.db, i)
    ensures RecordedComplete(cfg, Exec(cfg, s, steps).db, i)
    decreases |steps|
  {
    hide RowInv, HistoryInv, RecordedComplete;
    if steps != [] {
      CompleteStays(cfg, s, steps[0], i);
      RowStep(cfg, s, steps[0]);
      HistoryStep(cfg, s, steps[0]);
      CompleteStaysOn(cfg, Apply(cfg, s, steps[0]), steps[1..], i);
    }
  }

  lemma FirstRecordDecides<R>(cfg: Config, s: State<R>, w: nat)
    requires Inv(cfg, s) && VerdictInv(cfg, s) && Enabled(cfg, s, Record(true)) && FirstRecord(s, Record(true), w)
    ensures w < |s.workers| && w in s.returned && s.workers[w].phase.Settled? && s.workers[w].stage < |cfg.stages|
    ensures ReturnedWell(s, w) ==> RecordedComplete(cfg, Apply(cfg, s, Record(true)).db, s.workers[w].stage)
  {
    hide PutsOutage;
  }

  lemma {:induction false} SettledStays<R>(cfg: Config, s: State<R>, steps: seq<Step<R>>, w: nat)
    requires Schedule(cfg, s, steps, false) && w < |s.workers| && s.workers[w].phase.Settled?
    ensures var t := Exec(cfg, s, steps);
            w < |t.workers| && t.workers[w].phase == s.workers[w].phase && t.workers[w].before == s.workers[w].before
            && t.workers[w].stage == s.workers[w].stage
    decreases |steps|
  {
    hide Enabled;
    if steps != [] {
      SettledKeepsWorker(cfg, s, steps[0], w);
      SettledStays(cfg, Apply(cfg, s, steps[0]), steps[1..], w);
    }
  }

  lemma {:induction false} ReturnedWellIsComplete<R>(cfg: Config, s: State<R>, steps: seq<Step<R>>, w: nat)
    requires ValidConfig(cfg) && RowInv(cfg, s) && HistoryInv(cfg, s) && VerdictInv(cfg, s)
    requires Schedule(cfg, s, steps, false) && RecordsFirst(cfg, s, steps, w)
    ensures var t := Exec(cfg, s, steps);
            && w < |t.workers| && t.workers[w].phase.Settled? && t.workers[w].stage < |cfg.stages|
            && (ReturnedWell(t, w) ==> RecordedComplete(cfg, t.db, t.workers[w].stage))
    decreases |steps|
  {
    var s' := Apply(cfg, s, steps[0]);
    RowStep(cfg, s, steps[0]);
    HistoryStep(cfg, s, steps[0]);
    VerdictStep(cfg, s, steps[0]);
    if FirstRecord(s, steps[0], w) {
      FirstRecordDecides(cfg, s, w);
      hide RowInv, HistoryInv, VerdictInv, RecordedComplete, PutsOutage;
      SettledKeepsWorker(cfg, s, steps[0], w);
      SettledStays(cfg, s', steps[1..], w);
      if ReturnedWell(s, w) {
        CompleteStaysOn(cfg, s', steps[1..], s.workers[w].stage);
      }
    } else {
      hide RowInv, HistoryInv, VerdictInv, RecordedComplete, ReturnedWell;
      ReturnedWellIsComplete(cfg, s', steps[1..], w);
    }
  }

  lemma OneWorkerPerStage<R>(cfg: Config, s: State<R>, v: nat, w: nat)
    requires OrderInv(cfg, s) && v < |s.workers| && w < |s.workers| && s.workers[v].stage == s.workers[w].stage
    ensures v == w
  {
    if v < w {} else if w < v {}
  }

  lemma RecordedIsReturned<R>(cfg: Config, s: State<R>, steps: seq<Step<R>>, w: nat)
    requires ValidConfig(cfg) && RowInv(cfg, s) && HistoryInv(cfg, s) && VerdictInv(cfg, s)
    requires Schedule(cfg, s, steps, false) && RecordsFirst(cfg, s, steps, w)
    ensures w in Exec(cfg, s, steps).returned && w < |Exec(cfg, s, steps).workers| && Published(Exec(cfg, s, steps).workers[w].phase)
    decreases |steps|
  {
    RowStep(cfg, s, steps[0]);
    HistoryStep(cfg, s, steps[0]);
    VerdictStep(cfg, s, steps[0]);
    if FirstRecord(s, steps[0], w) {
      FirstRecordDecides(cfg, s, w);
      hide HistoryInv, VerdictInv, PutsOutage;
      StaysReturned(cfg, s, steps, w);
      RowInduction(cfg, s, steps);
    } else {
      hide RowInv, HistoryInv, VerdictInv;
      RecordedIsReturned(cfg, Apply(cfg, s, steps[0]), steps[1..], w);
    }
  }

  lemma {:induction false} StaysReturned<R>(cfg: Config, s: State<R>, steps: seq<Step<R>>, w: nat)
    requires Schedule(cfg, s, steps, false) && w in s.returned
    ensures w in Exec(cfg, s, steps).returned
    decreases |steps|
  {
    if steps != [] {
      StaysReturned(cfg, Apply(cfg, s, steps[0]), steps[1..], w);
    }
  }

  /** On every schedule, once the status of a returned stage was recorded at the first attempt, the
      stage is recorded complete exactly if it put no outage into its context. */
  lemma StatusFollowsContext<R>(cfg: Config, clock: real, steps: seq<Step<R>>, w: nat)
    requires ValidConfig(cfg) && Schedule(cfg, Init(clock), steps, false) && RecordsFirst(cfg, Init(clock), steps, w)
    ensures var s := Reached(cfg, clock, steps);
            && w < |s.workers| && s.workers[w].stage < |cfg.stages| && Published(s.workers[w].phase)
            && (RecordedComplete(cfg, s.db, s.workers[w].stage)
                <==> !PutsOutage(s.workers[w].before, s.workers[w].phase.outcome.after))
  {
    var s := Reached(cfg, clock, steps);
    EmptyHistory<R>(cfg, clock);
    ReachedInv(cfg, clock, steps);
    ReturnedWellIsComplete(cfg, Init(clock), steps, w);
    RecordedIsReturned(cfg, Init(clock), steps, w);
    hide RowInv, HistoryInv, PutsOutage;
    if RecordedComplete(cfg, s.db, s.workers[w].stage) {
      CompleteMeansNoOutage(cfg, clock, steps, s.workers[w].stage);
      var v :| v in s.returned && v < |s.workers| && s.workers[v].stage == s.workers[w].stage && Published(s.workers[v].phase)
               && !PutsOutage(s.workers[v].before, s.workers[v].phase.outcome.after);
      OneWorkerPerStage(cfg, s, v, w);
    }
  }

  /** What the caller makes of each way a stage can end, after the wait. */
  lemma EveryEndingIsHandled<R>(cfg: Config, s: State<R>)
    requires Enabled(cfg, s, Check)
    ensures var s', last := Apply(cfg, s, Check), |s.workers| - 1;
            var p := s.workers[last].phase;
            && (p == Settled(Errored(Ordinary)) || p == Settled(RolledBack) ==>
                  s' == s.(caller := Recording(s.caller.i, s.caller.context, Unavailable, false)))
            && (p == Settled(Errored(TimeLimit)) ==> s' == s.(caller := Failing))
            && (p == Settled(Errored(Fatal)) ==> s' == s.(caller := Ended))
            && (!p.Settled? ==>
                  s'.timedOut == s.timedOut + {last} && s'.workers == s.workers[last := s.workers[last].(abandoned := true)]
                  && s'.caller == Recording(s.caller.i, s.caller.context, Unavailable, false) && s'.returned == s.returned)
            && (Published(p) ==>
                  s'.returned == s.returned + {last} && s'.workers == s.workers
                  && s'.caller.Recording? && s'.caller.guarded && s'.caller.i == s.caller.i && s'.caller.context == ResultOf(p))
  {
  }

  /** The time a stage is given: the stage budget, or what is left of the run budget if that is
      less; a stage that always runs is not cut short by the run. */
  lemma BudgetExactly(cfg: Config, stage: StageSpec, startedAt: real, now: real)
    requires ValidConfig(cfg)
    ensures var b := StageBudget(cfg, stage, startedAt, now);
            && 0.0 <= b <= cfg.stageTimeout
            && (stage.alwaysRun || cfg.runTimeout.None? ==> b == cfg.stageTimeout)
            && (!stage.alwaysRun && cfg.runTimeout.Some? ==>
                  var left := startedAt + cfg.runTimeout.value - now;
                  if left <= 0.0 then b == 0.0 else b <= left && (b == left || b == cfg.stageTimeout))
            && (BudgetSpent(cfg, stage, startedAt, now) <==>
                  !stage.alwaysRun && cfg.runTimeout.Some? && startedAt + cfg.runTimeout.value <= now)
  {
  }
}
