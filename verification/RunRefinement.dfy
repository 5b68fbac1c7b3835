/**
The concurrent run refines a sequential one in which each stage, when its turn comes, either
happens at once on the current database or does nothing.
*/
module RunRefinement {
  import opened Wrappers
  import opened RunProtocol
  import opened RunSafety
  import opened RunLifecycle

  /** What the stage whose turn it is has done so far: nothing, its effect, or a rollback of its own. */
  datatype Fate = Open | Happened | Withdrawn

  /** `left` are the stages that have left their transaction by rolling their session back. */
  datatype Sequential<R> =
    | NotBegun(db: RunDb<R>)
    | At(db: RunDb<R>, pos: nat, fate: Fate, left: set<nat>)
    | Over(db: RunDb<R>, left: set<nat>)

  /** What may happen besides the plain run: an interrupt that no handler covers; a stage leaving
      its transaction. */
  datatype Mode = Mode(uncovered: bool, leaving: bool)

  datatype Move<R> =
    | Start
    | Happen(effect: Effect<R>)
    | LeaveTransaction(i: nat)       // stage i rolls its session back
    | Withdraw                       // the stage returns, having left its transaction
    | Conclude(status: StageStatus)  // record the stage's status and go on to the next
    | CompleteRun
    | Abort
    | Fail
    | Stray(i: nat, rows: seq<R>)    // stage i, having left its transaction, commits rows of its own
    | Straggle(row: RunDb<R>, effect: Effect<R>)  // a stage torn from its run commits after all,
                                                  // on the row as it was before the failure or is

  /** A stage's effect, computed from the run's row it finds and applied to it.  Only a stage that has
      left its transaction withdraws or strays, and only in a mode with `leaving` is there one; a
      torn-off stage commits, and a complete run fails, only with `uncovered`. */
  ghost predicate Next<R>(cfg: Config, m: Mode, a: Sequential<R>, move: Move<R>, a': Sequential<R>) {
    match move
    case Start => a.NotBegun? && a' == At(RunDb(Running, InitialAvailability(cfg), a.db.rows), 0, Open, {})
    case Happen(effect) =>
      && a.At? && a.pos < |cfg.stages| && a.fate == Open && a.pos !in a.left && OwnEntriesOnly(cfg, effect)
      && a' == At(Land(a.db, a.db, effect), a.pos, Happened, a.left)
    case LeaveTransaction(i) =>
      && m.leaving && !a.NotBegun? && i < |cfg.stages| && i !in a.left
      && (a.At? ==> i < a.pos || (i == a.pos && a.fate == Open))
      && a' == a.(left := a.left + {i})
    case Withdraw =>
      && a.At? && a.pos < |cfg.stages| && a.fate == Open && a.pos in a.left
      && a' == At(a.db, a.pos, Withdrawn, a.left)
    case Conclude(status) =>
      && a.At? && a.pos < |cfg.stages|
      && (status == Complete ==> a.fate != Open) && status != Pending
      && a' == At(SetStatus(a.db, cfg.stages[a.pos].name, status), a.pos + 1, Open, a.left)
    case CompleteRun => a.At? && a.pos == |cfg.stages| && a' == Over(a.db.(status := Completed), a.left)
    case Abort => a.At? && a' == Over(a.db, a.left)
    case Fail =>
      && a.Over? && (a.db.status == Running || (m.uncovered && a.db.status == Completed))
      && a' == Over(a.db.(status := Failed, availability := PendingToUnavailable(a.db.availability)), a.left)
    case Stray(i, rows) => !a.NotBegun? && i in a.left && a' == a.(db := a.db.(rows := a.db.rows + rows))
    case Straggle(row, effect) =>
      && m.uncovered && a.Over? && OwnEntriesOnly(cfg, effect) && RowSeen(true, row, a.db)
      && a' == Over(Land(a.db, row, effect), a.left)
  }

  /** The run so far is of this mode. */
  predicate Fits<R>(m: Mode, s: State<R>) {
    (s.unguarded ==> m.uncovered) && (!m.leaving ==> forall w :: 0 <= w < |s.workers| ==> !s.workers[w].rolledBack)
  }

  predicate StepFits<R>(m: Mode, step: Step<R>) {
    (step.UnguardedInterrupt? ==> m.uncovered) && (step.ByWorker? && step.action.OwnRollback? ==> m.leaving)
  }

  ghost function Left<R>(s: State<R>): set<nat> {
    set w | 0 <= w < |s.workers| && s.workers[w].rolledBack :: s.workers[w].stage
  }

  ghost predicate DidLand<R>(s: State<R>, i: nat) {
    exists w :: 0 <= w < |s.workers| && s.workers[w].stage == i && HasLanded(s.workers[w].phase)
  }

  ghost predicate DidPublish<R>(s: State<R>, i: nat) {
    exists w :: 0 <= w < |s.workers| && s.workers[w].stage == i && Published(s.workers[w].phase)
  }

  ghost function FateOf<R>(s: State<R>, i: nat): Fate {
    if DidLand(s, i) then Happened else if DidPublish(s, i) then Withdrawn else Open
  }

  ghost function Abstract<R>(cfg: Config, s: State<R>): Sequential<R> {
    if s.caller.Idle? then NotBegun(s.db)
    else if InLoop(s.caller) then At(s.db, Position(cfg, s.caller), FateOf(s, Position(cfg, s.caller)), Left(s))
    else Over(s.db, Left(s))
  }

  ghost predicate CanMove<R(!new)>(cfg: Config, m: Mode, a: Sequential<R>, a': Sequential<R>) {
    exists move :: Next(cfg, m, a, move, a')
  }

  /** One move of the sequential run, or none. */
  ghost predicate MovesOrStays<R(!new)>(cfg: Config, m: Mode, a: Sequential<R>, a': Sequential<R>) {
    a == a' || CanMove(cfg, m, a, a')
  }

  ghost predicate Simulates<R(!new)>(cfg: Config, m: Mode, s: State<R>, s': State<R>) {
    MovesOrStays(cfg, m, Abstract(cfg, s), Abstract(cfg, s'))
  }

  // ----- A worker's steps

  lemma SameFate<R>(s: State<R>, s': State<R>, i: nat)
    requires |s'.workers| == |s.workers|
    requires forall w :: 0 <= w < |s.workers| ==>
               s'.workers[w].stage == s.workers[w].stage
               && (HasLanded(s.workers[w].phase) <==> HasLanded(s'.workers[w].phase))
               && (Published(s.workers[w].phase) <==> Published(s'.workers[w].phase))
               && s'.workers[w].rolledBack == s.workers[w].rolledBack
    ensures FateOf(s, i) == FateOf(s', i) && Left(s) == Left(s')
  {
    assert forall w :: 0 <= w < |s.workers| ==>
      (s.workers[w].stage == i && HasLanded(s.workers[w].phase) <==> s'.workers[w].stage == i && HasLanded(s'.workers[w].phase));
    assert forall w :: 0 <= w < |s.workers| ==>
      (s.workers[w].stage == i && Published(s.workers[w].phase) <==> s'.workers[w].stage == i && Published(s'.workers[w].phase));
  }

  lemma SameLeft<R>(s: State<R>, s': State<R>)
    requires |s.workers| <= |s'.workers|
    requires forall w :: 0 <= w < |s.workers| ==>
               s'.workers[w].stage == s.workers[w].stage && s'.workers[w].rolledBack == s.workers[w].rolledBack
    requires forall w :: |s.workers| <= w < |s'.workers| ==> !s'.workers[w].rolledBack
    ensures Left(s) == Left(s')
  {
    forall x | x in Left(s) ensures x in Left(s') {
      var w :| 0 <= w < |s.workers| && s.workers[w].rolledBack && s.workers[w].stage == x;
      assert s'.workers[w].rolledBack && s'.workers[w].stage == x;
    }
  }

  lemma OtherActionsKeepFates<R>(cfg: Config, s: State<R>, w: nat, action: Action<R>, i: nat)
    requires w < |s.workers| && CanAct(cfg, s.workers[w], action)
    requires !Published(WorkerActs(s, w, action).workers[w].phase) && (action.OwnRollback? ==> s.workers[w].rolledBack)
    ensures FateOf(s, i) == FateOf(WorkerActs(s, w, action), i) && Left(s) == Left(WorkerActs(s, w, action))
  {
    ActionIsLocal(cfg, s, w, action);
    hide CanAct;
    SameFate(s, WorkerActs(s, w, action), i);
  }

  /** A commit outside is a stray write of that stage, whatever the run is doing. */
  lemma StraySimulates<R(!new)>(cfg: Config, m: Mode, s: State<R>, w: nat, action: Action<R>)
    requires Inv(cfg, s) && w < |s.workers| && CanAct(cfg, s.workers[w], action) && CommitsOutside(s.workers[w], action)
    ensures Simulates(cfg, m, s, WorkerActs(s, w, action))
  {
    var s' := WorkerActs(s, w, action);
    OtherActionsKeepFates(cfg, s, w, action, Position(cfg, s.caller));
    assert !s.caller.Idle?;
    assert s.workers[w].stage in Left(s);
    hide Inv, CanAct, FateOf, Left;
    assert Next(cfg, m, Abstract(cfg, s), Stray(s.workers[w].stage, action.rows), Abstract(cfg, s'));
  }

  lemma StageOfWorker<R>(cfg: Config, s: State<R>, w: nat)
    requires OrderInv(cfg, s) && w < |s.workers|
    ensures forall v :: 0 <= v < |s.workers| && s.workers[v].stage == s.workers[w].stage ==> v == w
    ensures !s.caller.Idle? && s.workers[w].stage < |cfg.stages| && s.workers[w].stage <= Position(cfg, s.caller)
    ensures s.workers[w].stage in Left(s) <==> s.workers[w].rolledBack
  {
    forall v | 0 <= v < |s.workers| && s.workers[v].stage == s.workers[w].stage ensures v == w {
      if v < w {} else if w < v {}
    }
  }

  /** The first rollback is the stage leaving its transaction. */
  lemma LeavingSimulates<R(!new)>(cfg: Config, m: Mode, s: State<R>, w: nat)
    requires Inv(cfg, s) && m.leaving && w < |s.workers| && s.workers[w].phase.InStage? && !s.workers[w].rolledBack
    ensures Simulates(cfg, m, s, WorkerActs(s, w, OwnRollback))
  {
    var s' := WorkerActs(s, w, OwnRollback);
    var i := s.workers[w].stage;
    StageOfWorker(cfg, s, w);
    hide Inv;
    LeavingKeepsFates(s, w, Position(cfg, s.caller));
    assert i == Position(cfg, s.caller) ==> FateOf(s, i) == Open;
    hide FateOf, Left;
    assert Next(cfg, m, Abstract(cfg, s), LeaveTransaction(i), Abstract(cfg, s'));
  }

  lemma LeavingKeepsFates<R>(s: State<R>, w: nat, i: nat)
    requires w < |s.workers| && s.workers[w].phase.InStage?
    ensures var s' := WorkerActs(s, w, OwnRollback); FateOf(s', i) == FateOf(s, i) && Left(s') == Left(s) + {s.workers[w].stage}
  {
    var s' := WorkerActs(s, w, OwnRollback);
    assert forall v :: 0 <= v < |s.workers| ==>
      (s.workers[v].stage == i && HasLanded(s.workers[v].phase) <==> s'.workers[v].stage == i && HasLanded(s'.workers[v].phase));
    assert forall v :: 0 <= v < |s.workers| ==>
      (s.workers[v].stage == i && Published(s.workers[v].phase) <==> s'.workers[v].stage == i && Published(s'.workers[v].phase));
    forall x ensures x in Left(s') <==> x in Left(s) + {s.workers[w].stage} {
      if x in Left(s) {
        var v :| 0 <= v < |s.workers| && s.workers[v].rolledBack && s.workers[v].stage == x;
        assert s'.workers[v].rolledBack && s'.workers[v].stage == x;
      }
      assert s'.workers[w].rolledBack && s'.workers[w].stage == s.workers[w].stage;
    }
  }

  /** A worker's publication is the sequential stage happening, or its withdrawal. */
  lemma PublicationFate<R>(cfg: Config, s: State<R>, w: nat)
    requires RowInv(cfg, s) && w < |s.workers| && s.workers[w].phase.Returned? && !s.workers[w].abandoned
    ensures s.workers[w].Live() && !s.caller.Idle? && OwnEntriesOnly(cfg, s.workers[w].phase.effect)
    ensures FateOf(s, s.workers[w].stage) == Open
    ensures FateOf(WorkerActs(s, w, Settle), s.workers[w].stage) == if s.workers[w].rolledBack then Withdrawn else Happened
    ensures !s.unguarded ==> InLoop(s.caller) && s.workers[w].stage == Position(cfg, s.caller) && SameRow(s.workers[w].phase.view, s.db)
    ensures s.unguarded ==> !InLoop(s.caller) && RowSeen(true, s.workers[w].phase.view, s.db)
    ensures s.workers[w].stage < |cfg.stages| && (s.workers[w].stage in Left(s) <==> s.workers[w].rolledBack)
    ensures Left(WorkerActs(s, w, Settle)) == Left(s)
  {
    var s' := WorkerActs(s, w, Settle);
    SettleKeepsLeft(s, w);
    StageOfWorker(cfg, s, w);
    hide Left;
    var i := s.workers[w].stage;
    assert s.workers[w].Live();
    hide StatusInv, IsolationInv, LogInv, JournalInv;
    forall v | 0 <= v < |s.workers| && s.workers[v].stage == i ensures v == w {
      if v < w {} else if w < v {}
    }
    assert s'.workers[w].stage == i && Published(s'.workers[w].phase);
    assert DidPublish(s', i);
    if HasLanded(s'.workers[w].phase) {
      assert DidLand(s', i);
    } else {
      assert forall v :: 0 <= v < |s'.workers| && s'.workers[v].stage == i ==> v == w;
    }
    LiveIsCurrent(cfg, s, w);
  }

  lemma SettleKeepsLeft<R>(s: State<R>, w: nat)
    requires w < |s.workers| && s.workers[w].phase.Returned?
    ensures Left(WorkerActs(s, w, Settle)) == Left(s)
  {
    var s' := WorkerActs(s, w, Settle);
    assert |s'.workers| == |s.workers| && forall v :: 0 <= v < |s.workers| ==>
      s'.workers[v].rolledBack == s.workers[v].rolledBack && s'.workers[v].stage == s.workers[v].stage;
  }

  lemma LiveIsCurrent<R>(cfg: Config, s: State<R>, w: nat)
    requires RowInv(cfg, s) && w < |s.workers| && s.workers[w].Live() && s.workers[w].phase.Returned?
    ensures !s.unguarded ==> InLoop(s.caller) && s.workers[w].stage == Position(cfg, s.caller) && SameRow(s.workers[w].phase.view, s.db)
    ensures s.unguarded ==> !InLoop(s.caller) && RowSeen(true, s.workers[w].phase.view, s.db)
  {
  }

  lemma SettleSimulates<R(!new)>(cfg: Config, m: Mode, s: State<R>, w: nat)
    requires RowInv(cfg, s) && Fits(m, s)
    requires w < |s.workers| && s.workers[w].phase.Returned? && !s.workers[w].abandoned
    ensures Simulates(cfg, m, s, WorkerActs(s, w, Settle))
  {
    PublicationFate(cfg, s, w);
    hide RowInv, FateOf, Left, Simulates;
    if s.workers[w].rolledBack {
      WithdrawalSimulates(cfg, m, s, w);
    } else if s.unguarded {
      StragglerSimulates(cfg, m, s, w);
    } else {
      HappeningSimulates(cfg, m, s, w);
    }
  }

  lemma WithdrawalSimulates<R(!new)>(cfg: Config, m: Mode, s: State<R>, w: nat)
    requires w < |s.workers| && s.workers[w].phase.Returned? && !s.workers[w].abandoned && s.workers[w].rolledBack
    requires !s.caller.Idle? && Left(WorkerActs(s, w, Settle)) == Left(s)
    requires if s.unguarded then !InLoop(s.caller)
             else var i := s.workers[w].stage;
                  InLoop(s.caller) && i == Position(cfg, s.caller) && i < |cfg.stages| && i in Left(s)
                  && FateOf(s, i) == Open && FateOf(WorkerActs(s, w, Settle), i) == Withdrawn
    ensures Simulates(cfg, m, s, WorkerActs(s, w, Settle))
  {
    hide FateOf, Left;
    assert !s.unguarded ==> Next(cfg, m, Abstract(cfg, s), Withdraw, Abstract(cfg, WorkerActs(s, w, Settle)));
  }

  lemma StragglerSimulates<R(!new)>(cfg: Config, m: Mode, s: State<R>, w: nat)
    requires w < |s.workers| && s.workers[w].phase.Returned? && !s.workers[w].abandoned && !s.workers[w].rolledBack
    requires !s.caller.Idle? && !InLoop(s.caller) && m.uncovered && OwnEntriesOnly(cfg, s.workers[w].phase.effect)
    requires Left(WorkerActs(s, w, Settle)) == Left(s) && RowSeen(true, s.workers[w].phase.view, s.db)
    ensures Simulates(cfg, m, s, WorkerActs(s, w, Settle))
  {
    hide FateOf, Left;
    var p := s.workers[w].phase;
    assert Next(cfg, m, Abstract(cfg, s), Straggle(p.view, p.effect), Abstract(cfg, WorkerActs(s, w, Settle)));
  }

  lemma HappeningSimulates<R(!new)>(cfg: Config, m: Mode, s: State<R>, w: nat)
    requires w < |s.workers| && s.workers[w].phase.Returned? && !s.workers[w].abandoned && !s.workers[w].rolledBack
    requires Left(WorkerActs(s, w, Settle)) == Left(s) && SameRow(s.workers[w].phase.view, s.db)
    requires var i := s.workers[w].stage;
             InLoop(s.caller) && i == Position(cfg, s.caller) && i < |cfg.stages| && i !in Left(s)
             && FateOf(s, i) == Open && FateOf(WorkerActs(s, w, Settle), i) == Happened
    requires OwnEntriesOnly(cfg, s.workers[w].phase.effect)
    ensures Simulates(cfg, m, s, WorkerActs(s, w, Settle))
  {
    hide FateOf, Left;
    var p := s.workers[w].phase;
    assert Land(s.db, p.view, p.effect) == Land(s.db, s.db, p.effect);
    assert Next(cfg, m, Abstract(cfg, s), Happen(p.effect), Abstract(cfg, WorkerActs(s, w, Settle)));
  }

  lemma WorkerSimulates<R(!new)>(cfg: Config, m: Mode, s: State<R>, w: nat, action: Action<R>)
    requires RowInv(cfg, s) && Fits(m, s) && w < |s.workers| && CanAct(cfg, s.workers[w], action)
    requires action.OwnRollback? ==> m.leaving
    ensures Simulates(cfg, m, s, WorkerActs(s, w, action))
  {
    hide Simulates, StatusInv, OrderInv, LiveInv, LogInv, JournalInv, IsolationInv;
    if CommitsOutside(s.workers[w], action) {
      StraySimulates(cfg, m, s, w, action);
    } else if action.Settle? && s.workers[w].phase.Returned? && !s.workers[w].abandoned {
      SettleSimulates(cfg, m, s, w);
    } else if action.OwnRollback? && !s.workers[w].rolledBack {
      LeavingSimulates(cfg, m, s, w);
    } else {
      QuietActionSimulates(cfg, m, s, w, action);
    }
  }

  lemma QuietActionSimulates<R(!new)>(cfg: Config, m: Mode, s: State<R>, w: nat, action: Action<R>)
    requires w < |s.workers| && CanAct(cfg, s.workers[w], action) && !CommitsOutside(s.workers[w], action)
    requires !(action.Settle? && s.workers[w].phase.Returned? && !s.workers[w].abandoned)
    requires action.OwnRollback? ==> s.workers[w].rolledBack
    ensures Simulates(cfg, m, s, WorkerActs(s, w, action))
  {
    OtherActionsKeepFates(cfg, s, w, action, Position(cfg, s.caller));
    hide FateOf, Left;
    assert WorkerActs(s, w, action).db == s.db;
  }

  // ----- The caller's steps

  lemma NoFateYet<R>(cfg: Config, s: State<R>, i: nat)
    requires forall w :: 0 <= w < |s.workers| ==> s.workers[w].stage != i || s.workers[w].phase == Connecting
    ensures FateOf(s, i) == Open
  {
  }

  lemma ReturnedHasFate<R>(cfg: Config, s: State<R>, i: nat)
    requires ExclusionInv(s) && StageDone(s, i)
    ensures FateOf(s, i) != Open
  {
    var w :| w in s.returned && w < |s.workers| && s.workers[w].stage == i;
    assert Published(s.workers[w].phase);
  }

  lemma RecordFacts<R>(cfg: Config, s: State<R>)
    requires RowInv(cfg, s) && s.caller.Recording?
    ensures s.caller.i < |cfg.stages| && s.caller.status != Pending
    ensures s.caller.status == Complete ==> FateOf(s, s.caller.i) != Open
    ensures forall w :: 0 <= w < |s.workers| ==> s.workers[w].stage <= s.caller.i
  {
    if s.caller.status == Complete {
      ReturnedHasFate(cfg, s, s.caller.i);
    }
  }

  /** Moving past a stage: its status is recorded, and the next one has done nothing. */
  lemma RecordSimulates<R(!new)>(cfg: Config, m: Mode, s: State<R>, step: Step<R>)
    requires RowInv(cfg, s) && Enabled(cfg, s, step) && step.Record?
    ensures Simulates(cfg, m, s, Apply(cfg, s, step))
  {
    RecordFacts(cfg, s);
    hide RowInv, Simulates, Enabled;
    if step.ok {
      RecordedSimulates(cfg, m, s, step);
    } else {
      RecordFailsSimulates(cfg, m, s, step);
    }
  }

  lemma RecordedSimulates<R(!new)>(cfg: Config, m: Mode, s: State<R>, step: Step<R>)
    requires Enabled(cfg, s, step) && step.Record? && step.ok && s.caller.status != Pending
    requires s.caller.status == Complete ==> FateOf(s, s.caller.i) != Open
    requires forall w :: 0 <= w < |s.workers| ==> s.workers[w].stage <= s.caller.i
    ensures Simulates(cfg, m, s, Apply(cfg, s, step))
  {
    var s' := Apply(cfg, s, step);
    NoFateYet(cfg, s', s.caller.i + 1);
    hide FateOf;
    assert s'.workers == s.workers && Left(s') == Left(s);
    hide Left;
    assert Next(cfg, m, Abstract(cfg, s), Conclude(s.caller.status), Abstract(cfg, s'));
  }

  lemma RecordFailsSimulates<R(!new)>(cfg: Config, m: Mode, s: State<R>, step: Step<R>)
    requires Enabled(cfg, s, step) && step.Record? && !step.ok
    ensures Simulates(cfg, m, s, Apply(cfg, s, step))
  {
    var s' := Apply(cfg, s, step);
    SameFate(s, s', s.caller.i);
    hide FateOf, Left;
    if !s.caller.guarded {
      assert Next(cfg, m, Abstract(cfg, s), Abort, Abstract(cfg, s'));
    }
  }

  lemma LaunchSimulates<R(!new)>(cfg: Config, m: Mode, s: State<R>, step: Step<R>)
    requires RowInv(cfg, s) && Enabled(cfg, s, step) && step.Launch?
    ensures Simulates(cfg, m, s, Apply(cfg, s, step))
  {
    NoFateYet(cfg, s, s.caller.i);
    NoFateYet(cfg, Apply(cfg, s, step), s.caller.i);
    SameLeft(s, Apply(cfg, s, step));
    hide FateOf, Left;
  }

  lemma BeginSimulates<R(!new)>(cfg: Config, m: Mode, s: State<R>, step: Step<R>)
    requires RowInv(cfg, s) && Enabled(cfg, s, step) && step.Begin?
    ensures Simulates(cfg, m, s, Apply(cfg, s, step))
  {
    NoFateYet(cfg, Apply(cfg, s, step), 0);
    hide FateOf, Inv;
    assert Next(cfg, m, Abstract(cfg, s), Start, Abstract(cfg, Apply(cfg, s, step)));
  }

  lemma EdgeKeepsLeft<R>(cfg: Config, s: State<R>, step: Step<R>)
    requires Enabled(cfg, s, step)
    requires step.Finish? || step.Leave? || step.SaveFailure? || step.Interrupt? || step.UnguardedInterrupt?
    ensures Left(Apply(cfg, s, step)) == Left(s)
  {
    hide Left;
    SameLeft(s, Apply(cfg, s, step));
  }

  lemma FinishSimulates<R(!new)>(cfg: Config, m: Mode, s: State<R>, step: Step<R>)
    requires Enabled(cfg, s, step) && step.Finish?
    ensures Simulates(cfg, m, s, Apply(cfg, s, step))
  {
    EdgeKeepsLeft(cfg, s, step);
    hide FateOf, Left;
    var a, a' := Abstract(cfg, s), Abstract(cfg, Apply(cfg, s, step));
    assert if step.ok then Next(cfg, m, a, CompleteRun, a') else Next(cfg, m, a, Abort, a');
  }

  lemma SaveSimulates<R(!new)>(cfg: Config, m: Mode, s: State<R>, step: Step<R>)
    requires RowMatchesCaller(s) && Enabled(cfg, s, step) && Fits(m, s) && step.SaveFailure?
    ensures Simulates(cfg, m, s, Apply(cfg, s, step))
  {
    EdgeKeepsLeft(cfg, s, step);
    hide FateOf, Left;
    assert step.ok ==> Next(cfg, m, Abstract(cfg, s), Fail, Abstract(cfg, Apply(cfg, s, step)));
  }

  /** An interrupt tears the caller out of the loop, if it is still there. */
  lemma TearSimulates<R(!new)>(cfg: Config, m: Mode, s: State<R>, step: Step<R>)
    requires Enabled(cfg, s, step) && (step.Leave? || step.Interrupt? || step.UnguardedInterrupt?)
    ensures Simulates(cfg, m, s, Apply(cfg, s, step))
  {
    EdgeKeepsLeft(cfg, s, step);
    hide FateOf, Left;
    assert InLoop(s.caller) ==> Next(cfg, m, Abstract(cfg, s), Abort, Abstract(cfg, Apply(cfg, s, step)));
  }

  lemma TurnMovesNoData<R(!new)>(cfg: Config, s: State<R>, step: Step<R>)
    requires Enabled(cfg, s, step)
    requires step.Skip? || step.LaunchFails? || step.StartWait? || step.Wake? || step.Check? || step.Tick?
    ensures var s' := Apply(cfg, s, step);
            && s'.db == s.db && |s'.workers| == |s.workers|
            && (if InLoop(s'.caller) then InLoop(s.caller) && Position(cfg, s'.caller) == Position(cfg, s.caller)
                else s'.caller == s.caller || (InLoop(s.caller) && !s'.caller.Idle?))
            && forall w :: 0 <= w < |s.workers| ==>
                 s'.workers[w].stage == s.workers[w].stage && s'.workers[w].phase == s.workers[w].phase
                 && s'.workers[w].rolledBack == s.workers[w].rolledBack
  {
  }

  /** Within a stage's turn the caller moves no data; it may be torn out of the loop. */
  lemma TurnSimulates<R(!new)>(cfg: Config, m: Mode, s: State<R>, step: Step<R>)
    requires Enabled(cfg, s, step)
    requires step.Skip? || step.LaunchFails? || step.StartWait? || step.Wake? || step.Check? || step.Tick?
    ensures Simulates(cfg, m, s, Apply(cfg, s, step))
  {
    var s' := Apply(cfg, s, step);
    TurnMovesNoData(cfg, s, step);
    hide Enabled, Apply;
    SameFate(s, s', Position(cfg, s.caller));
    hide FateOf;
    if InLoop(s.caller) && !InLoop(s'.caller) {
      assert Next(cfg, m, Abstract(cfg, s), Abort, Abstract(cfg, s'));
    }
  }

  // ----- The whole run

  /** A step of the run is a step of the sequential run, or leaves it where it is. */
  lemma StepSimulates<R(!new)>(cfg: Config, m: Mode, s: State<R>, step: Step<R>)
    requires RowInv(cfg, s) && Fits(m, s) && Enabled(cfg, s, step) && StepFits(m, step)
    ensures Simulates(cfg, m, s, Apply(cfg, s, step))
  {
    hide RowInv, Simulates;
    match step
    case ByWorker(w, action) => WorkerSimulates(cfg, m, s, w, action);
    case Record(_) => RecordSimulates(cfg, m, s, step);
    case Launch => LaunchSimulates(cfg, m, s, step);
    case Begin => BeginSimulates(cfg, m, s, step);
    case Skip => TurnSimulates(cfg, m, s, step);
    case LaunchFails => TurnSimulates(cfg, m, s, step);
    case StartWait => TurnSimulates(cfg, m, s, step);
    case Wake => TurnSimulates(cfg, m, s, step);
    case Check => TurnSimulates(cfg, m, s, step);
    case Tick(_) => TurnSimulates(cfg, m, s, step);
    case Finish(_) => FinishSimulates(cfg, m, s, step);
    case SaveFailure(_) =>
      RowMatches(cfg, s);
      SaveSimulates(cfg, m, s, step);
    case _ => TearSimulates(cfg, m, s, step);
  }

  lemma RowMatches<R>(cfg: Config, s: State<R>)
    requires RowInv(cfg, s)
    ensures RowMatchesCaller(s)
  {
  }

  /** The run's state after the first n steps. */
  lemma {:induction false} PrefixIsSchedule<R>(cfg: Config, s: State<R>, steps: seq<Step<R>>, n: nat)
    requires Schedule(cfg, s, steps, false) && n <= |steps|
    ensures Schedule(cfg, s, steps[..n], false)
    decreases |steps|
  {
    if n > 0 {
      assert steps[..n][1..] == steps[1..][..n - 1];
      PrefixIsSchedule(cfg, Apply(cfg, s, steps[0]), steps[1..], n - 1);
    }
  }

  /** The trail has one state for every point of the schedule, the abstraction of the run there. */
  ghost predicate Follows<R>(cfg: Config, s: State<R>, steps: seq<Step<R>>, trail: seq<Sequential<R>>)
    requires Schedule(cfg, s, steps, false)
    decreases |steps|
  {
    && |trail| == |steps| + 1 && trail[0] == Abstract(cfg, s)
    && (steps != [] ==> Follows(cfg, Apply(cfg, s, steps[0]), steps[1..], trail[1..]))
  }

  ghost predicate IsSequentialRun<R(!new)>(cfg: Config, m: Mode, trail: seq<Sequential<R>>) {
    forall k :: 0 <= k < |trail| - 1 ==> MovesOrStays(cfg, m, trail[k], trail[k + 1])
  }

  lemma PrependTrail<R(!new)>(cfg: Config, m: Mode, a: Sequential<R>, rest: seq<Sequential<R>>)
    requires IsSequentialRun(cfg, m, rest) && |rest| > 0 && MovesOrStays(cfg, m, a, rest[0])
    ensures IsSequentialRun(cfg, m, [a] + rest) && ([a] + rest)[1..] == rest
  {
    hide MovesOrStays;
    var trail := [a] + rest;
    forall k | 0 <= k < |trail| - 1 ensures MovesOrStays(cfg, m, trail[k], trail[k + 1]) {
      if k > 0 {
        assert trail[k] == rest[k - 1] && trail[k + 1] == rest[k];
      }
    }
  }

  lemma {:induction false} TrailOf<R(!new)>(cfg: Config, m: Mode, s: State<R>, steps: seq<Step<R>>)
    returns (trail: seq<Sequential<R>>)
    requires ValidConfig(cfg) && RowInv(cfg, s) && Fits(m, s)
    requires Schedule(cfg, s, steps, false) && RunFits(m, steps)
    ensures IsSequentialRun(cfg, m, trail) && Follows(cfg, s, steps, trail)
    decreases |steps|
  {
    hide RowInv, Abstract, MovesOrStays, IsSequentialRun, Fits, StepFits;
    if steps == [] {
      trail := [Abstract(cfg, s)];
      Standing(cfg, m, trail);
    } else {
      var s' := Apply(cfg, s, steps[0]);
      RowStep(cfg, s, steps[0]);
      StepSimulates(cfg, m, s, steps[0]);
      StaysFit(cfg, m, s, steps[0]);
      hide Enabled;
      var rest := TrailOf(cfg, m, s', steps[1..]);
      trail := [Abstract(cfg, s)] + rest;
      PrependTrail(cfg, m, Abstract(cfg, s), rest);
    }
  }

  /** Every step of the schedule is of this mode. */
  ghost predicate RunFits<R>(m: Mode, steps: seq<Step<R>>) {
    forall n :: 0 <= n < |steps| ==> StepFits(m, steps[n])
  }

  lemma StaysFit<R>(cfg: Config, m: Mode, s: State<R>, step: Step<R>)
    requires Enabled(cfg, s, step) && Fits(m, s) && StepFits(m, step)
    ensures Fits(m, Apply(cfg, s, step))
  {
  }

  lemma Standing<R(!new)>(cfg: Config, m: Mode, trail: seq<Sequential<R>>)
    requires |trail| == 1
    ensures IsSequentialRun(cfg, m, trail)
  {
  }

  lemma {:induction false} FollowsAt<R>(cfg: Config, s: State<R>, steps: seq<Step<R>>, trail: seq<Sequential<R>>, n: nat)
    requires Schedule(cfg, s, steps, false) && Follows(cfg, s, steps, trail) && n <= |steps|
    ensures Schedule(cfg, s, steps[..n], false) && trail[n] == Abstract(cfg, Exec(cfg, s, steps[..n]))
    decreases |steps|
  {
    hide Abstract, Enabled;
    PrefixIsSchedule(cfg, s, steps, n);
    if n > 0 {
      assert steps[..n][1..] == steps[1..][..n - 1];
      FollowsAt(cfg, Apply(cfg, s, steps[0]), steps[1..], trail[1..], n - 1);
    }
  }

  /** The stages that have left are those of workers that rolled their session back by then. */
  lemma LeftExactly<R>(cfg: Config, clock: real, steps: seq<Step<R>>, i: nat)
    requires Schedule(cfg, Init(clock), steps, false)
    ensures var s := Reached(cfg, clock, steps);
            i in Left(s) <==> exists w :: 0 <= w < |s.workers| && s.workers[w].stage == i && RollsBack(steps, w)
  {
    var s := Reached(cfg, clock, steps);
    forall w | 0 <= w < |s.workers| ensures s.workers[w].rolledBack <==> RollsBack(steps, w) {
      RollbackExactly(cfg, Init(clock), steps, w);
    }
  }

  /** Whatever the interleaving, with any number of given-up workers still running, the database
      goes, point by point, through the states of a sequential run in which every stage atomically
      happens or does nothing, and is complete only if it happened; unless it has left its
      transaction: then it withdraws, and may write rows of its own at any time.  The stages that
      have left are those whose worker rolled its session back by then. */
  lemma RunRefinesSequential<R(!new)>(cfg: Config, m: Mode, clock: real, steps: seq<Step<R>>) returns (trail: seq<Sequential<R>>)
    requires ValidConfig(cfg) && Schedule(cfg, Init(clock), steps, false) && RunFits(m, steps)
    ensures IsSequentialRun(cfg, m, trail) && |trail| == |steps| + 1
    ensures forall n :: 0 <= n <= |steps| ==>
              Schedule(cfg, Init(clock), steps[..n], false) && trail[n] == Abstract(cfg, Reached(cfg, clock, steps[..n]))
    ensures forall n, i :: 0 <= n <= |steps| && !trail[n].NotBegun? && i in trail[n].left ==>
              exists w :: 0 <= w < |Reached(cfg, clock, steps[..n]).workers|
                          && Reached(cfg, clock, steps[..n]).workers[w].stage == i && RollsBack(steps[..n], w)
    ensures trail[0] == NotBegun(RunDb(NotStarted, map[], []))
    ensures trail[|steps|].db == Reached(cfg, clock, steps).db
  {
    trail := TrailOf(cfg, m, Init(clock), steps);
    forall n | 0 <= n <= |steps|
      ensures Schedule(cfg, Init(clock), steps[..n], false) && trail[n] == Abstract(cfg, Reached(cfg, clock, steps[..n]))
    {
      FollowsAt(cfg, Init(clock), steps, trail, n);
    }
    hide IsSequentialRun, Follows, Left, RollsBack;
    forall n, i | 0 <= n <= |steps| && !trail[n].NotBegun? && i in trail[n].left
      ensures exists w :: 0 <= w < |Reached(cfg, clock, steps[..n]).workers|
                          && Reached(cfg, clock, steps[..n]).workers[w].stage == i && RollsBack(steps[..n], w)
    {
      LeftExactly(cfg, clock, steps[..n], i);
    }
    assert steps[..|steps|] == steps;
  }

  /** The plain state: no stage has left or withdrawn. */
  predicate IsPlain<R>(a: Sequential<R>) {
    a.NotBegun? || (a.left == {} && (a.At? ==> a.fate != Withdrawn))
  }

  /** The moves of the plain sequential run: each stage happens at once or not at all. */
  predicate PlainMove<R>(move: Move<R>) {
    move.Start? || move.Happen? || move.Conclude? || move.CompleteRun? || move.Abort? || move.Fail?
  }

  ghost predicate MovesPlainly<R(!new)>(cfg: Config, a: Sequential<R>, a': Sequential<R>) {
    a == a' || exists move :: PlainMove(move) && Next(cfg, Mode(false, false), a, move, a')
  }

  lemma PlainStep<R(!new)>(cfg: Config, a: Sequential<R>, a': Sequential<R>)
    requires IsPlain(a) && MovesOrStays(cfg, Mode(false, false), a, a')
    ensures IsPlain(a') && MovesPlainly(cfg, a, a')
  {
    if a != a' {
      var move :| Next(cfg, Mode(false, false), a, move, a');
      assert PlainMove(move);
    }
  }

  lemma {:induction false} PlainTrail<R(!new)>(cfg: Config, trail: seq<Sequential<R>>, k: nat)
    requires IsSequentialRun(cfg, Mode(false, false), trail) && k < |trail| && IsPlain(trail[0])
    ensures IsPlain(trail[k])
    ensures k + 1 < |trail| ==> MovesPlainly(cfg, trail[k], trail[k + 1])
  {
    hide MovesOrStays, MovesPlainly, IsPlain;
    if k > 0 {
      PlainTrail(cfg, trail, k - 1);
      PlainStep(cfg, trail[k - 1], trail[k]);
    }
    if k + 1 < |trail| {
      PlainStep(cfg, trail[k], trail[k + 1]);
    }
  }

  /** For stages that keep the contract not to roll their session back, and interrupts where they
      are handled: an isolated run is, point by point, a sequential run in which each stage
      atomically happens or does nothing, and is complete only if it happened.  No other move. */
  lemma IsolatedRunIsSequential<R(!new)>(cfg: Config, clock: real, steps: seq<Step<R>>) returns (trail: seq<Sequential<R>>)
    requires ValidConfig(cfg) && Schedule(cfg, Init(clock), steps, true) && forall w :: !RollsBack(steps, w)
    ensures Schedule(cfg, Init(clock), steps, false)
    ensures |trail| == |steps| + 1 && trail[0] == NotBegun(RunDb(NotStarted, map[], []))
    ensures forall n :: 0 <= n < |steps| ==> MovesPlainly(cfg, trail[n], trail[n + 1])
    ensures forall n :: 0 <= n <= |steps| ==>
              Schedule(cfg, Init(clock), steps[..n], false) && trail[n] == Abstract(cfg, Reached(cfg, clock, steps[..n]))
    ensures trail[|steps|].db == Reached(cfg, clock, steps).db
  {
    GuardedIsSchedule(cfg, Init(clock), steps, true);
    CoveredFits(cfg, Init(clock), steps);
    trail := RunRefinesSequential(cfg, Mode(false, false), clock, steps);
    forall n | 0 <= n < |steps| ensures MovesPlainly(cfg, trail[n], trail[n + 1]) {
      PlainTrail(cfg, trail, n);
    }
  }

  lemma {:induction false} CoveredFits<R>(cfg: Config, s: State<R>, steps: seq<Step<R>>)
    requires Schedule(cfg, s, steps, true) && forall w :: !RollsBack(steps, w)
    ensures RunFits(Mode(false, false), steps)
    decreases |steps|
  {
    if steps != [] {
      forall w ensures !RollsBack(steps[1..], w) {
        FirstOrLater(steps, w);
      }
      CoveredFits(cfg, Apply(cfg, s, steps[0]), steps[1..]);
      hide Enabled, RollsBack;
      if steps[0].ByWorker? && steps[0].action.OwnRollback? {
        FirstOrLater(steps, steps[0].w);
      }
      forall n | 0 <= n < |steps| ensures StepFits(Mode(false, false), steps[n]) {
        if n > 0 {
          assert steps[n] == steps[1..][n - 1];
        }
      }
    }
  }
}
