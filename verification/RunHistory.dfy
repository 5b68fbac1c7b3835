/**
What a stage saw of the run's availability column, compared with what the column says later, on
every schedule, covered interrupts or not.
*/
module RunHistory {
  import opened Wrappers
  import opened RunProtocol
  import opened RunSafety
  import opened RunLifecycle

  type Availability = map<string, StageStatus>

  /** The entries that are not a stage's own status. */
  ghost function NonStage(cfg: Config, a: Availability): Availability {
    map key | key in a && !IsStageName(cfg, key) :: a[key]
  }

  /** All coverage entries committed so far, later ones overriding. */
  ghost function CoverageOf<R>(log: seq<Commit<R>>): Availability {
    if log == [] then map[]
    else
      var last := log[|log| - 1].effect;
      CoverageOf(log[..|log| - 1]) + (if last.coverage.Some? then last.coverage.value else map[])
  }

  /** The statuses of the stages before `i` are recorded. */
  ghost predicate Recorded(cfg: Config, a: Availability, i: nat) {
    forall j :: 0 <= j < |cfg.stages| && j < i ==> cfg.stages[j].name in a && a[cfg.stages[j].name] != Pending
  }

  ghost predicate NoneComplete(cfg: Config, a: Availability, i: nat) {
    forall j :: i <= j < |cfg.stages| && cfg.stages[j].name in a ==> a[cfg.stages[j].name] != Complete
  }

  /** `a` and `b` agree on everything decided before stage `i`. */
  ghost predicate AgreeBefore(cfg: Config, a: Availability, b: Availability, i: nat) {
    && NonStage(cfg, a) == NonStage(cfg, b)
    && forall j :: 0 <= j < |cfg.stages| && j < i && cfg.stages[j].name in a && cfg.stages[j].name in b ==>
         a[cfg.stages[j].name] == b[cfg.stages[j].name]
  }

  ghost predicate SawEnough<R>(cfg: Config, db: RunDb<R>, view: RunDb<R>, i: nat) {
    && Recorded(cfg, view.availability, i) && NoneComplete(cfg, view.availability, i)
    && AgreeBefore(cfg, view.availability, db.availability, i)
  }

  /** A worker that can still commit belongs to the first undecided stage, and what it read agrees
      with the database on everything decided before it. */
  ghost predicate LiveHistory<R>(cfg: Config, s: State<R>) {
    forall w :: 0 <= w < |s.workers| && s.workers[w].Live() ==>
      && Recorded(cfg, s.db.availability, s.workers[w].stage)
      && NoneComplete(cfg, s.db.availability, s.workers[w].stage)
      && (s.workers[w].phase.InStage? ==> SawEnough(cfg, s.db, s.workers[w].phase.view, s.workers[w].stage))
      && (s.workers[w].phase.Returned? ==> SawEnough(cfg, s.db, s.workers[w].phase.view, s.workers[w].stage))
  }

  /** Each committed stage read the coverage committed before it, and the statuses before it, which
      are still what the database says. */
  ghost predicate LogHistory<R>(cfg: Config, s: State<R>) {
    && NonStage(cfg, s.db.availability) == CoverageOf(s.log)
    && (forall key :: key in NonStage(cfg, s.db.availability) ==> NonStage(cfg, s.db.availability)[key] != Pending)
    && (forall k :: 0 <= k < |s.log| ==> LogEntryHistory(cfg, s, k))
  }

  ghost predicate LogEntryHistory<R>(cfg: Config, s: State<R>, k: nat)
    requires k < |s.log|
  {
    var view := s.log[k].view.availability;
    && NonStage(cfg, view) == CoverageOf(s.log[..k])
    && Recorded(cfg, view, s.log[k].stage)
    && Recorded(cfg, s.db.availability, s.log[k].stage)
    && forall j :: 0 <= j < |cfg.stages| && j < s.log[k].stage ==>
         view[cfg.stages[j].name] == s.db.availability[cfg.stages[j].name]
  }

  ghost predicate CompleteHistory<R>(cfg: Config, s: State<R>) {
    forall i :: 0 <= i < |cfg.stages| && RecordedComplete(cfg, s.db, i) ==> StageDone(s, i)
  }

  ghost predicate HistoryInv<R>(cfg: Config, s: State<R>) {
    LiveHistory(cfg, s) && LogHistory(cfg, s) && CompleteHistory(cfg, s)
  }

  // ----- The few steps that change the run's row

  /** A new availability map that keeps everything decided before stage `i` and completes nothing
      new after it. */
  ghost predicate Keeps(cfg: Config, a: Availability, b: Availability, i: nat) {
    && NonStage(cfg, a) == NonStage(cfg, b)
    && (Recorded(cfg, a, i) ==> Recorded(cfg, b, i))
    && (forall j :: 0 <= j < |cfg.stages| && j < i && cfg.stages[j].name in a ==>
          cfg.stages[j].name in b && b[cfg.stages[j].name] == a[cfg.stages[j].name])
    && (NoneComplete(cfg, a, i) ==> NoneComplete(cfg, b, i))
  }

  lemma SaveKeeps(cfg: Config, a: Availability, i: nat)
    requires forall key :: key in NonStage(cfg, a) ==> NonStage(cfg, a)[key] != Pending
    requires Recorded(cfg, a, i)
    ensures Keeps(cfg, a, PendingToUnavailable(a), i)
  {
    var b := PendingToUnavailable(a);
    forall key | key in a && !IsStageName(cfg, key) ensures a[key] == b[key] {
      assert key in NonStage(cfg, a);
    }
  }

  lemma RecordKeeps(cfg: Config, a: Availability, p: nat, status: StageStatus, i: nat)
    requires ValidConfig(cfg) && i <= p < |cfg.stages|
    ensures NonStage(cfg, a) == NonStage(cfg, a[cfg.stages[p].name := status])
    ensures Recorded(cfg, a, i) ==> Recorded(cfg, a[cfg.stages[p].name := status], i)
    ensures forall j :: 0 <= j < |cfg.stages| && j < i && cfg.stages[j].name in a ==>
              a[cfg.stages[p].name := status][cfg.stages[j].name] == a[cfg.stages[j].name]
  {
    assert IsStageName(cfg, cfg.stages[p].name);
    assert forall j :: 0 <= j < i ==> cfg.stages[j].name != cfg.stages[p].name;
  }

  /** A commit merges its coverage into what it read: nothing decided earlier moves. */
  lemma LandKeeps<R>(cfg: Config, db: RunDb<R>, view: RunDb<R>, effect: Effect<R>, i: nat)
    requires OwnEntriesOnly(cfg, effect) && SawEnough(cfg, db, view, i) && Recorded(cfg, db.availability, i)
    requires NoneComplete(cfg, db.availability, i)
    ensures var after := Land(db, view, effect).availability;
            && NonStage(cfg, after) == NonStage(cfg, db.availability) + (if effect.coverage.Some? then effect.coverage.value else map[])
            && Recorded(cfg, after, i) && NoneComplete(cfg, after, i)
            && forall j :: 0 <= j < |cfg.stages| && j < i ==> after[cfg.stages[j].name] == db.availability[cfg.stages[j].name]
  {
    var after := Land(db, view, effect).availability;
    if effect.coverage.Some? {
      var c := effect.coverage.value;
      forall j | 0 <= j < |cfg.stages| ensures cfg.stages[j].name !in c {
        assert IsStageName(cfg, cfg.stages[j].name);
      }
      var want := NonStage(cfg, db.availability) + c;
      assert after == view.availability + c;
      forall key ensures key in NonStage(cfg, after) <==> key in want {
        assert key in NonStage(cfg, view.availability) <==> key in NonStage(cfg, db.availability);
      }
      forall key | key in want ensures NonStage(cfg, after)[key] == want[key] {
        if key !in c {
          assert NonStage(cfg, view.availability)[key] == NonStage(cfg, db.availability)[key];
        }
      }
      assert NonStage(cfg, after) == want;
    } else {
      assert NonStage(cfg, after) == NonStage(cfg, db.availability) + map[];
    }
  }

  // ----- Preservation

  /** Steps that leave the availability column and the log alone. */
  ghost predicate RowUntouched<R>(s: State<R>, s': State<R>) {
    s'.db.availability == s.db.availability && s'.log == s.log
  }

  lemma UntouchedKeepsLog<R>(cfg: Config, s: State<R>, s': State<R>)
    requires LogHistory(cfg, s) && RowUntouched(s, s')
    ensures LogHistory(cfg, s')
  {
    hide NonStage, Recorded, CoverageOf;
    forall k | 0 <= k < |s'.log| ensures LogEntryHistory(cfg, s', k) {
      assert LogEntryHistory(cfg, s, k);
    }
  }

  lemma DoneGrows<R>(cfg: Config, s: State<R>, step: Step<R>, i: nat)
    requires Enabled(cfg, s, step) && StageDone(s, i)
    ensures StageDone(Apply(cfg, s, step), i)
  {
    var w :| w in s.returned && w < |s.workers| && s.workers[w].stage == i;
    var s' := Apply(cfg, s, step);
    assert w in s'.returned && w < |s'.workers| && s'.workers[w].stage == i;
  }

  ghost predicate ViewOf<R>(p: Phase<R>, view: RunDb<R>) {
    (p.InStage? || p.Returned?) && p.view == view
  }

  lemma ActKeepsLive<R>(cfg: Config, s: State<R>, w: nat, action: Action<R>)
    requires LiveHistory(cfg, s) && LiveInv(s)
    requires w < |s.workers| && CanAct(cfg, s.workers[w], action) && !Commits(s.workers[w], action)
    ensures LiveHistory(cfg, WorkerActs(s, w, action))
  {
    ActionIsLocal(cfg, s, w, action);
    hide NonStage, Recorded, NoneComplete;
  }

  /** In the loop the statuses before the current stage are recorded and none after is complete. */
  lemma LoopHistory<R>(cfg: Config, s: State<R>)
    requires RowInv(cfg, s) && !s.unguarded && InLoop(s.caller)
    ensures Recorded(cfg, s.db.availability, Position(cfg, s.caller))
    ensures NoneComplete(cfg, s.db.availability, Position(cfg, s.caller))
  {
  }

  lemma LaunchKeepsHistory<R>(cfg: Config, s: State<R>, step: Step<R>)
    requires RowInv(cfg, s) && LiveHistory(cfg, s) && Enabled(cfg, s, step) && step.Launch?
    ensures LiveHistory(cfg, Apply(cfg, s, step))
  {
    LoopHistory(cfg, s);
    hide NonStage, Recorded, NoneComplete;
  }

  /** Nothing that can still commit is gained, and the column stays. */
  lemma OtherKeepsLive<R>(cfg: Config, s: State<R>, step: Step<R>)
    requires RowInv(cfg, s) && LiveHistory(cfg, s) && Enabled(cfg, s, step)
    requires !step.Launch? && !step.ByWorker? && !step.Begin? && !step.Record? && !step.SaveFailure?
    ensures LiveHistory(cfg, Apply(cfg, s, step)) && RowUntouched(s, Apply(cfg, s, step))
  {
    hide LiveHistory;
    OtherAddsNoWriter(cfg, s, step);
    FewerWritersKeepLive(cfg, s, Apply(cfg, s, step));
  }

  /** No worker comes to life. */
  ghost predicate NoNewWriter<R>(s: State<R>, s': State<R>) {
    |s'.workers| == |s.workers| && forall w :: 0 <= w < |s.workers| ==> s'.workers[w] == s.workers[w] || !s'.workers[w].Live()
  }

  lemma OtherAddsNoWriter<R>(cfg: Config, s: State<R>, step: Step<R>)
    requires Enabled(cfg, s, step)
    requires !step.Launch? && !step.ByWorker? && !step.Begin? && !step.Record? && !step.SaveFailure?
    ensures NoNewWriter(s, Apply(cfg, s, step)) && RowUntouched(s, Apply(cfg, s, step))
  {
  }

  lemma FewerWritersKeepLive<R>(cfg: Config, s: State<R>, s': State<R>)
    requires LiveHistory(cfg, s) && NoNewWriter(s, s') && s'.db.availability == s.db.availability
    ensures LiveHistory(cfg, s')
  {
    hide NonStage, Recorded, NoneComplete, AgreeBefore;
  }

  lemma BeginKeepsHistory<R>(cfg: Config, s: State<R>, step: Step<R>)
    requires RowInv(cfg, s) && HistoryInv(cfg, s) && Enabled(cfg, s, step) && step.Begin?
    ensures HistoryInv(cfg, Apply(cfg, s, step))
  {
    var s' := Apply(cfg, s, step);
    forall key | key in s'.db.availability ensures IsStageName(cfg, key) {}
    assert NonStage(cfg, s'.db.availability) == map[];
  }

  lemma RecordKeepsLogHistory<R>(cfg: Config, s: State<R>, step: Step<R>)
    requires ValidConfig(cfg) && RowInv(cfg, s) && HistoryInv(cfg, s) && Enabled(cfg, s, step) && step.Record? && step.ok
    ensures LogHistory(cfg, Apply(cfg, s, step))
  {
    hide LiveHistory, CompleteHistory;
    var s' := Apply(cfg, s, step);
    var p := s.caller.i;
    RecordKeeps(cfg, s.db.availability, p, s.caller.status, p);
    forall k | 0 <= k < |s'.log| ensures LogEntryHistory(cfg, s', k) {
      assert LogEntryHistory(cfg, s, k);
      assert s.workers[s.log[k].worker].stage == s.log[k].stage;
      RecordKeeps(cfg, s.db.availability, p, s.caller.status, s.log[k].stage);
    }
  }

  lemma RecordKeepsCompleteHistory<R>(cfg: Config, s: State<R>, step: Step<R>)
    requires ValidConfig(cfg) && RowInv(cfg, s) && HistoryInv(cfg, s) && Enabled(cfg, s, step) && step.Record? && step.ok
    ensures CompleteHistory(cfg, Apply(cfg, s, step))
  {
    hide LiveHistory, LogHistory;
    var s' := Apply(cfg, s, step);
    var p := s.caller.i;
    forall i | 0 <= i < |cfg.stages| && RecordedComplete(cfg, s'.db, i) ensures StageDone(s', i) {
      if i != p {
        assert cfg.stages[i].name != cfg.stages[p].name by { if i < p {} else {} }
        assert RecordedComplete(cfg, s.db, i);
      }
      DoneGrows(cfg, s, step, i);
    }
  }

  lemma RecordKeepsHistory<R>(cfg: Config, s: State<R>, step: Step<R>)
    requires ValidConfig(cfg) && RowInv(cfg, s) && HistoryInv(cfg, s) && Enabled(cfg, s, step) && step.Record? && step.ok
    ensures HistoryInv(cfg, Apply(cfg, s, step))
  {
    RecordKeepsLogHistory(cfg, s, step);
    RecordKeepsCompleteHistory(cfg, s, step);
    hide LogHistory, CompleteHistory;
    assert forall w :: 0 <= w < |s.workers| ==> !s.workers[w].Live();
  }

  lemma SaveKeepsLiveHistory<R>(cfg: Config, s: State<R>, step: Step<R>)
    requires HistoryInv(cfg, s) && Enabled(cfg, s, step) && step.SaveFailure? && step.ok
    ensures LiveHistory(cfg, Apply(cfg, s, step))
  {
    hide CompleteHistory, LogEntryHistory;
    var s' := Apply(cfg, s, step);
    forall w | 0 <= w < |s'.workers| && s'.workers[w].Live()
      ensures Recorded(cfg, s'.db.availability, s'.workers[w].stage) && NoneComplete(cfg, s'.db.availability, s'.workers[w].stage)
      ensures forall view :: ViewOf(s'.workers[w].phase, view) ==> SawEnough(cfg, s'.db, view, s'.workers[w].stage)
    {
      SaveKeeps(cfg, s.db.availability, s.workers[w].stage);
    }
  }

  lemma SaveKeepsLogHistory<R>(cfg: Config, s: State<R>, step: Step<R>)
    requires LogHistory(cfg, s) && Enabled(cfg, s, step) && step.SaveFailure? && step.ok
    ensures LogHistory(cfg, Apply(cfg, s, step))
  {
    var s' := Apply(cfg, s, step);
    SaveKeeps(cfg, s.db.availability, 0);
    forall k | 0 <= k < |s'.log| ensures LogEntryHistory(cfg, s', k) {
      assert LogEntryHistory(cfg, s, k);
      SaveKeeps(cfg, s.db.availability, s.log[k].stage);
    }
  }

  lemma SaveKeepsHistory<R>(cfg: Config, s: State<R>, step: Step<R>)
    requires HistoryInv(cfg, s) && Enabled(cfg, s, step) && step.SaveFailure? && step.ok
    ensures HistoryInv(cfg, Apply(cfg, s, step))
  {
    var s' := Apply(cfg, s, step);
    SaveKeepsLiveHistory(cfg, s, step);
    SaveKeepsLogHistory(cfg, s, step);
    hide LogHistory, LiveHistory;
    forall i | 0 <= i < |cfg.stages| && RecordedComplete(cfg, s'.db, i) ensures StageDone(s', i) {
      assert RecordedComplete(cfg, s.db, i);
      DoneGrows(cfg, s, step, i);
    }
  }

  lemma OnlyThisWasLive<R>(cfg: Config, s: State<R>, w: nat)
    requires Inv(cfg, s) && w < |s.workers| && Commits(s.workers[w], Settle)
    ensures forall v :: 0 <= v < |s.workers| ==> !WorkerActs(s, w, Settle).workers[v].Live()
  {
    assert s.workers[w].Live();
    hide OrderInv, IsolationInv, LogInv, JournalInv, ExclusionInv;
  }

  lemma CommitKeepsHistory<R>(cfg: Config, s: State<R>, w: nat)
    requires RowInv(cfg, s) && HistoryInv(cfg, s) && w < |s.workers| && Commits(s.workers[w], Settle)
    ensures HistoryInv(cfg, WorkerActs(s, w, Settle))
  {
    var s' := WorkerActs(s, w, Settle);
    var me := s.workers[w];
    var p := me.phase;
    assert me.Live();
    LandKeeps(cfg, s.db, p.view, p.effect, me.stage);
    OnlyThisWasLive(cfg, s, w);
    CommitKeepsLogHistory(cfg, s, w);
    hide RowInv, LogHistory;
    forall i | 0 <= i < |cfg.stages| && RecordedComplete(cfg, s'.db, i) ensures StageDone(s', i) {
      if i < me.stage {
        assert RecordedComplete(cfg, s.db, i);
      }
    }
  }

  /** What a commit changes: it lands, and is logged. */
  lemma CommitKeepsLogHistory<R>(cfg: Config, s: State<R>, w: nat)
    requires RowInv(cfg, s) && HistoryInv(cfg, s) && w < |s.workers| && Commits(s.workers[w], Settle)
    ensures LogHistory(cfg, WorkerActs(s, w, Settle))
  {
    var s' := WorkerActs(s, w, Settle);
    var me := s.workers[w];
    assert me.Live();
    LandKeeps(cfg, s.db, me.phase.view, me.phase.effect, me.stage);
    EarlierStagesLogged(cfg, s, w);
    hide Inv, StatusInv, CompleteHistory, LiveHistory;
    LogMore(cfg, s, s', me.stage);
  }

  lemma LogMore<R>(cfg: Config, s: State<R>, s': State<R>, i: nat)
    requires LogHistory(cfg, s) && |s'.log| == |s.log| + 1 && s'.log[..|s.log|] == s.log
    requires forall k :: 0 <= k < |s.log| ==> s.log[k].stage <= i
    requires var c := s'.log[|s.log|];
             && c.stage == i && OwnEntriesOnly(cfg, c.effect)
             && SawEnough(cfg, s.db, c.view, i) && Recorded(cfg, s.db.availability, i)
             && NonStage(cfg, s'.db.availability)
                == NonStage(cfg, s.db.availability) + (if c.effect.coverage.Some? then c.effect.coverage.value else map[])
    requires Recorded(cfg, s'.db.availability, i)
    requires forall j :: 0 <= j < |cfg.stages| && j < i ==> s'.db.availability[cfg.stages[j].name] == s.db.availability[cfg.stages[j].name]
    ensures LogHistory(cfg, s')
  {
    hide NonStage, NoneComplete;
    forall k | 0 <= k < |s'.log| ensures LogEntryHistory(cfg, s', k) {
      assert s'.log[..k] == s.log[..k];
      if k < |s.log| {
        assert LogEntryHistory(cfg, s, k) && s'.log[k] == s.log[k];
      } else {
        assert s.log[..k] == s.log;
      }
    }
  }

  lemma EarlierStagesLogged<R>(cfg: Config, s: State<R>, w: nat)
    requires Inv(cfg, s) && w < |s.workers| && Commits(s.workers[w], Settle)
    ensures forall k :: 0 <= k < |s.log| ==> s.log[k].stage <= s.workers[w].stage
  {
    assert s.workers[w].Live();
    hide IsolationInv, JournalInv, ExclusionInv;
    forall k | 0 <= k < |s.log| ensures s.log[k].stage <= s.workers[w].stage {
      assert s.workers[s.log[k].worker].stage == s.log[k].stage;
    }
  }

  lemma HistoryStep<R>(cfg: Config, s: State<R>, step: Step<R>)
    requires ValidConfig(cfg) && RowInv(cfg, s) && HistoryInv(cfg, s) && Enabled(cfg, s, step)
    ensures HistoryInv(cfg, Apply(cfg, s, step))
  {
    hide LiveHistory, LogHistory;
    var s' := Apply(cfg, s, step);
    if step.Begin? {
      BeginKeepsHistory(cfg, s, step);
    } else if step.Record? && step.ok {
      RecordKeepsHistory(cfg, s, step);
    } else if step.SaveFailure? && step.ok {
      SaveKeepsHistory(cfg, s, step);
    } else if step.ByWorker? && Commits(s.workers[step.w], step.action) {
      CommitKeepsHistory(cfg, s, step.w);
    } else {
      QuietKeepsHistory(cfg, s, step);
    }
  }

  lemma QuietKeepsHistory<R>(cfg: Config, s: State<R>, step: Step<R>)
    requires RowInv(cfg, s) && HistoryInv(cfg, s) && Enabled(cfg, s, step)
    requires !step.Begin? && !(step.Record? && step.ok) && !(step.SaveFailure? && step.ok)
    requires !(step.ByWorker? && Commits(s.workers[step.w], step.action))
    ensures HistoryInv(cfg, Apply(cfg, s, step))
  {
    var s' := Apply(cfg, s, step);
    if step.Launch? {
      LaunchKeepsHistory(cfg, s, step);
    } else if step.ByWorker? {
      ActKeepsLive(cfg, s, step.w, step.action);
    } else if !step.Record? && !step.SaveFailure? {
      OtherKeepsLive(cfg, s, step);
    }
    hide LiveHistory, LogHistory;
    assert RowUntouched(s, s');
    UntouchedKeepsLog(cfg, s, s');
    forall i | 0 <= i < |cfg.stages| && RecordedComplete(cfg, s'.db, i) ensures StageDone(s', i) {
      DoneGrows(cfg, s, step, i);
    }
    assert step.Record? || step.SaveFailure? ==> LiveHistory(cfg, s');
  }

  lemma {:induction false} HistoryInduction<R>(cfg: Config, s: State<R>, steps: seq<Step<R>>)
    requires ValidConfig(cfg) && RowInv(cfg, s) && HistoryInv(cfg, s) && Schedule(cfg, s, steps, false)
    ensures RowInv(cfg, Exec(cfg, s, steps)) && HistoryInv(cfg, Exec(cfg, s, steps))
    decreases |steps|
  {
    hide RowInv, HistoryInv;
    if steps != [] {
      RowStep(cfg, s, steps[0]);
      HistoryStep(cfg, s, steps[0]);
      HistoryInduction(cfg, Apply(cfg, s, steps[0]), steps[1..]);
    }
  }
}
