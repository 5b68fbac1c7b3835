/**
What every schedule of the run protocol keeps: which writes land, in which order, and what they
were computed from.
*/
module RunSafety {
  import opened Wrappers
  import opened RunProtocol

  predicate Published<R>(p: Phase<R>) {
    p.Settled? && (p.outcome.Landed? || p.outcome.Discarded?)
  }

  predicate HasLanded<R>(p: Phase<R>) {
    p.Settled? && p.outcome.Landed?
  }

  function Position(cfg: Config, c: Caller): nat {
    match c
    case Idle => 0
    case AtStage(i, _) => i
    case Launched(i, _, _, _) => i
    case Waiting(i, _, _, _, _) => i
    case Woken(i, _) => i
    case Recording(i, _, _, _) => i
    case _ => |cfg.stages|
  }

  /** The rows of these writes, one after the other. */
  function Written<R>(journal: seq<Write<R>>): seq<R> {
    if journal == [] then [] else Written(journal[..|journal| - 1]) + journal[|journal| - 1].rows
  }

  /** The writes under the lock. */
  function Locked<R>(journal: seq<Write<R>>): seq<Write<R>> {
    if journal == [] then []
    else Locked(journal[..|journal| - 1]) + if journal[|journal| - 1].locked then [journal[|journal| - 1]] else []
  }

  function WritesOf<R>(log: seq<Commit<R>>): seq<Write<R>> {
    seq(|log|, k requires 0 <= k < |log| => Write(log[k].worker, log[k].effect.rows, true))
  }

  // ----- The inductive invariant

  /** Stages are launched at most once, in order. */
  ghost predicate OrderInv<R>(cfg: Config, s: State<R>) {
    && (s.caller.Idle? ==> s.workers == [] && s.log == [])
    && (s.caller.AtStage? ==> s.caller.i <= |cfg.stages|)
    && (s.caller.Recording? || AtWorker(s.caller) ==> s.caller.i < |cfg.stages|)
    && (forall w :: 0 <= w < |s.workers| ==>
          s.workers[w].stage < |cfg.stages| && s.workers[w].stage <= Position(cfg, s.caller))
    && (s.caller.AtStage? ==> forall w :: 0 <= w < |s.workers| ==> s.workers[w].stage < s.caller.i)
    && (forall v, w :: 0 <= v < w < |s.workers| ==> s.workers[v].stage < s.workers[w].stage)
  }

  predicate AtWorker(c: Caller) {
    c.Launched? || c.Waiting? || c.Woken?
  }

  /** A worker that can still publish is the last one launched, and the caller is still with it
      unless an uncovered interrupt tore it away. */
  ghost predicate LiveInv<R>(s: State<R>) {
    && (s.unguarded ==> s.caller.Failing? || s.caller.Ended?)
    && (forall w :: 0 <= w < |s.workers| && s.workers[w].Live() ==>
          w == |s.workers| - 1 && (AtWorker(s.caller) || s.unguarded))
    && (AtWorker(s.caller) ==>
          && |s.workers| > 0
          && s.workers[|s.workers| - 1].stage == s.caller.i
          && s.workers[|s.workers| - 1].before == s.caller.context
          && !s.workers[|s.workers| - 1].abandoned)
  }

  /** Abandoning and publishing exclude each other. */
  ghost predicate ExclusionInv<R>(s: State<R>) {
    && (forall w :: 0 <= w < |s.workers| && s.workers[w].abandoned ==> !Published(s.workers[w].phase))
    && (forall w :: w in s.timedOut ==> w < |s.workers| && s.workers[w].abandoned)
    && (forall w :: w in s.returned ==> w < |s.workers| && Published(s.workers[w].phase))
  }

  /** The log holds exactly the workers whose transaction was committed, in launch order. */
  ghost predicate LogInv<R>(s: State<R>) {
    && (forall k :: 0 <= k < |s.log| ==>
          && s.log[k].worker < |s.workers|
          && s.workers[s.log[k].worker].phase == Settled(Landed(s.log[k].after))
          && s.workers[s.log[k].worker].stage == s.log[k].stage
          && s.workers[s.log[k].worker].before == s.log[k].before)
    && (forall k, l :: 0 <= k < l < |s.log| ==> s.log[k].worker < s.log[l].worker)
    && (forall w :: 0 <= w < |s.workers| && HasLanded(s.workers[w].phase) ==>
          exists k :: 0 <= k < |s.log| && s.log[k].worker == w)
  }

  /** The run's own row is the same in both. */
  predicate SameRow<R>(a: RunDb<R>, b: RunDb<R>) {
    a.status == b.status && a.availability == b.availability
  }

  /** The stage read the row as it is, or, if an interrupt tore it off, as it was before the failure
      was saved. */
  predicate RowSeen<R>(torn: bool, view: RunDb<R>, db: RunDb<R>) {
    SameRow(view, db) || (torn && db.status == Failed && db.availability == PendingToUnavailable(view.availability))
  }

  ghost predicate ViewsCurrent<R>(s: State<R>) {
    forall w :: 0 <= w < |s.workers| && s.workers[w].Live() ==>
      && (s.workers[w].phase.InStage? ==> RowSeen(s.unguarded, s.workers[w].phase.view, s.db))
      && (s.workers[w].phase.Returned? ==> RowSeen(s.unguarded, s.workers[w].phase.view, s.db))
  }

  /** As long as interrupts strike where they are handled, the run's row does not change between a
      stage's reading it and its commit; otherwise only the failure can be saved in between. */
  ghost predicate IsolationInv<R>(s: State<R>) {
    && ViewsCurrent(s)
    && (forall k :: 0 <= k < |s.log| ==> RowSeen(s.unguarded, s.log[k].view, s.log[k].at))
  }

  predicate AllOutside<R>(journal: seq<Write<R>>, j: nat, l: nat) {
    forall k :: j <= k < l && k < |journal| ==> !journal[k].locked
  }

  /** `rows` is what the database held at some point, and since then, up to the l-th write, only
      sessions outside the orchestrator's transactions wrote. */
  ghost predicate SawRows<R>(journal: seq<Write<R>>, rows: seq<R>, l: nat) {
    exists j: nat :: j <= l && SawAt(journal, rows, j, l)
  }

  ghost predicate SawAt<R>(journal: seq<Write<R>>, rows: seq<R>, j: nat, l: nat)
    requires j <= l
  {
    l <= |journal| && rows == Written(journal[..j]) && AllOutside(journal, j, l)
  }

  /** The commit is the l-th write, on top of all writes before it, and the stage had read all of
      them but some made outside. */
  ghost predicate IsWrite<R>(journal: seq<Write<R>>, c: Commit<R>, l: nat) {
    l < |journal| && journal[l] == Write(c.worker, c.effect.rows, true) && c.at.rows == Written(journal[..l])
  }

  ghost predicate LandedAt<R>(journal: seq<Write<R>>, c: Commit<R>) {
    exists l: nat :: IsWrite(journal, c, l) && SawRows(journal, c.view.rows, l)
  }

  /** The stored rows are the writes in order; those under the lock are the log's; the others come
      from stages that had rolled their transaction back. */
  ghost predicate JournalInv<R>(s: State<R>) {
    && s.db.rows == Written(s.journal)
    && Locked(s.journal) == WritesOf(s.log)
    && WritersKnown(s)
    && (forall k :: 0 <= k < |s.log| ==> LandedAt(s.journal, s.log[k]))
    && ViewsOfRows(s)
  }

  ghost predicate WritersKnown<R>(s: State<R>) {
    forall k :: 0 <= k < |s.journal| ==>
      && s.journal[k].worker < |s.workers|
      && if s.journal[k].locked then HasLanded(s.workers[s.journal[k].worker].phase)
         else s.workers[s.journal[k].worker].rolledBack && s.journal[k].rows != []
  }

  /** How a published worker got there; and a worker that can still commit has seen every row but
      some written outside. */
  ghost predicate ViewsOfRows<R>(s: State<R>) {
    && (forall w :: 0 <= w < |s.workers| && Published(s.workers[w].phase) ==>
          (s.workers[w].phase.outcome.Landed? <==> !s.workers[w].rolledBack))
    && (forall w :: 0 <= w < |s.workers| && s.workers[w].Live() ==>
          && (s.workers[w].phase.InStage? ==> SawRows(s.journal, s.workers[w].phase.view.rows, |s.journal|))
          && (s.workers[w].phase.Returned? ==> SawRows(s.journal, s.workers[w].phase.view.rows, |s.journal|)))
  }

  ghost predicate Inv<R>(cfg: Config, s: State<R>) {
    OrderInv(cfg, s) && LiveInv(s) && ExclusionInv(s) && LogInv(s) && IsolationInv(s) && JournalInv(s)
  }

  // ----- Preservation

  /** The caller only moves forward. */
  ghost predicate Forward<R>(cfg: Config, s: State<R>, s': State<R>) {
    && (s'.caller.Idle? ==> s.caller.Idle? && s'.log == s.log)
    && (s'.caller.AtStage? ==> s'.caller.i <= |cfg.stages|)
    && (s'.caller.Recording? || AtWorker(s'.caller) ==> s'.caller.i < |cfg.stages|)
    && Position(cfg, s.caller) <= Position(cfg, s'.caller)
    && (s'.caller.AtStage? ==> s'.caller == s.caller || s.caller.Idle? || s'.caller.i > Position(cfg, s.caller))
  }

  ghost predicate SameStages<R>(s: State<R>, s': State<R>) {
    && |s'.workers| == |s.workers|
    && forall w :: 0 <= w < |s.workers| ==> s'.workers[w].stage == s.workers[w].stage
  }

  lemma CallerForward<R>(cfg: Config, s: State<R>, step: Step<R>)
    requires OrderInv(cfg, s) && LiveInv(s) && Enabled(cfg, s, step)
    ensures Forward(cfg, s, Apply(cfg, s, step))
  {
    if step.ByWorker? {
      ActionIsLocal(cfg, s, step.w, step.action);
    }
  }

  lemma OnlyLaunchAddsWorkers<R>(cfg: Config, s: State<R>, step: Step<R>)
    requires Enabled(cfg, s, step) && !step.Launch?
    ensures SameStages(s, Apply(cfg, s, step))
  {
  }

  lemma ForwardKeepsOrder<R>(cfg: Config, s: State<R>, s': State<R>)
    requires OrderInv(cfg, s) && Forward(cfg, s, s') && SameStages(s, s')
    ensures OrderInv(cfg, s')
  {
  }

  lemma OrderStep<R>(cfg: Config, s: State<R>, step: Step<R>)
    requires OrderInv(cfg, s) && LiveInv(s) && Enabled(cfg, s, step)
    ensures OrderInv(cfg, Apply(cfg, s, step))
  {
    if step.Launch? {
    } else {
      CallerForward(cfg, s, step);
      OnlyLaunchAddsWorkers(cfg, s, step);
      ForwardKeepsOrder(cfg, s, Apply(cfg, s, step));
    }
  }

  /** A worker's action touches its own phase, and settling is final. */
  lemma ActionIsLocal<R>(cfg: Config, s: State<R>, w: nat, action: Action<R>)
    requires w < |s.workers| && CanAct(cfg, s.workers[w], action)
    ensures var s' := WorkerActs(s, w, action);
            && |s'.workers| == |s.workers|
            && s'.workers[w] == s.workers[w].(phase := s'.workers[w].phase, rolledBack := s'.workers[w].rolledBack)
            && (s.workers[w].rolledBack ==> s'.workers[w].rolledBack)
            && !s.workers[w].phase.Settled?
            && (s'.workers[w].Live() ==> s.workers[w].Live())
            && (Published(s'.workers[w].phase) ==> !s.workers[w].abandoned)
            && s' == s.(workers := s'.workers, db := s'.db, log := s'.log, journal := s'.journal)
            && forall v :: 0 <= v < |s.workers| && v != w ==> s'.workers[v] == s.workers[v]
  {
  }

  lemma LiveStep<R>(cfg: Config, s: State<R>, step: Step<R>)
    requires OrderInv(cfg, s) && LiveInv(s) && Enabled(cfg, s, step)
    ensures LiveInv(Apply(cfg, s, step))
  {
    if step.ByWorker? {
      ActionIsLocal(cfg, s, step.w, step.action);
    }
  }

  lemma ExclusionStep<R>(cfg: Config, s: State<R>, step: Step<R>)
    requires ExclusionInv(s) && Enabled(cfg, s, step)
    ensures ExclusionInv(Apply(cfg, s, step))
  {
    if step.ByWorker? {
      ActionIsLocal(cfg, s, step.w, step.action);
    } else if step.Check? {
      CheckKeepsExclusion(s);
    } else {
      CallerKeepsExclusion(cfg, s, step);
    }
  }

  lemma CheckKeepsExclusion<R>(s: State<R>)
    requires ExclusionInv(s) && s.caller.Woken? && |s.workers| > 0
    ensures ExclusionInv(CheckLast(s))
  {
  }

  lemma CallerKeepsExclusion<R>(cfg: Config, s: State<R>, step: Step<R>)
    requires ExclusionInv(s) && Enabled(cfg, s, step) && !step.ByWorker? && !step.Check?
    ensures ExclusionInv(Apply(cfg, s, step))
  {
    var s' := Apply(cfg, s, step);
    assert s'.timedOut == s.timedOut && s'.returned == s.returned;
  }

  /** Everything but a commit leaves the log and the landed workers as they are. */
  ghost predicate Quiet<R>(s: State<R>, s': State<R>) {
    && s'.log == s.log
    && |s.workers| <= |s'.workers|
    && (forall w :: |s.workers| <= w < |s'.workers| ==> s'.workers[w].phase == Connecting)
    && (forall w :: 0 <= w < |s.workers| ==>
         && s'.workers[w].stage == s.workers[w].stage
         && s'.workers[w].before == s.workers[w].before
         && (s.workers[w].phase.Settled? ==> s'.workers[w].phase == s.workers[w].phase)
         && (HasLanded(s'.workers[w].phase) ==> HasLanded(s.workers[w].phase)))
  }

  ghost predicate IsCommit<R>(s: State<R>, step: Step<R>) {
    step.ByWorker? && step.w < |s.workers| && Commits(s.workers[step.w], step.action)
  }

  lemma QuietUnlessCommit<R>(cfg: Config, s: State<R>, step: Step<R>)
    requires Enabled(cfg, s, step) && !IsCommit(s, step)
    ensures Quiet(s, Apply(cfg, s, step))
  {
    if step.ByWorker? {
      QuietAction(cfg, s, step.w, step.action);
    }
  }

  lemma QuietAction<R>(cfg: Config, s: State<R>, w: nat, action: Action<R>)
    requires w < |s.workers| && CanAct(cfg, s.workers[w], action) && !Commits(s.workers[w], action)
    ensures Quiet(s, WorkerActs(s, w, action))
  {
  }

  lemma QuietKeepsLog<R>(s: State<R>, s': State<R>)
    requires LogInv(s) && Quiet(s, s')
    ensures LogInv(s')
  {
  }

  /** The committing worker can publish, so it is the last launched: it extends the log in order. */
  lemma CommitKeepsLog<R>(s: State<R>, w: nat)
    requires LiveInv(s) && LogInv(s) && w < |s.workers| && Commits(s.workers[w], Settle)
    ensures LogInv(WorkerActs(s, w, Settle))
  {
    var s' := WorkerActs(s, w, Settle);
    assert s.workers[w].Live();
    forall k | 0 <= k < |s.log| ensures s.log[k].worker < w {
      assert s.workers[s.log[k].worker].phase != s.workers[w].phase;
    }
    assert s'.log[..|s.log|] == s.log && s'.log[|s.log|].worker == w;
    CommitKeepsEntries(s, s', w);
    CommitKeepsLanded(s, s', w);
  }

  lemma CommitKeepsEntries<R>(s: State<R>, s': State<R>, w: nat)
    requires LogInv(s) && w < |s.workers| && Commits(s.workers[w], Settle) && s' == WorkerActs(s, w, Settle)
    ensures forall k :: 0 <= k < |s'.log| ==>
          && s'.log[k].worker < |s'.workers|
          && s'.workers[s'.log[k].worker].phase == Settled(Landed(s'.log[k].after))
          && s'.workers[s'.log[k].worker].stage == s'.log[k].stage
          && s'.workers[s'.log[k].worker].before == s'.log[k].before
  {
  }

  lemma CommitKeepsLanded<R>(s: State<R>, s': State<R>, w: nat)
    requires LogInv(s) && w < |s.workers| && Commits(s.workers[w], Settle) && s' == WorkerActs(s, w, Settle)
    ensures forall v :: 0 <= v < |s'.workers| && HasLanded(s'.workers[v].phase) ==>
          exists k :: 0 <= k < |s'.log| && s'.log[k].worker == v
  {
    forall v | 0 <= v < |s'.workers| && HasLanded(s'.workers[v].phase)
      ensures exists k :: 0 <= k < |s'.log| && s'.log[k].worker == v
    {
      if v == w {
        assert s'.log[|s.log|].worker == v;
      } else {
        var k :| 0 <= k < |s.log| && s.log[k].worker == v;
        assert s'.log[k].worker == v;
      }
    }
  }

  lemma LogStep<R>(cfg: Config, s: State<R>, step: Step<R>)
    requires LiveInv(s) && LogInv(s) && Enabled(cfg, s, step)
    ensures LogInv(Apply(cfg, s, step))
  {
    if IsCommit(s, step) {
      CommitKeepsLog(s, step.w);
    } else {
      QuietUnlessCommit(cfg, s, step);
      QuietKeepsLog(s, Apply(cfg, s, step));
    }
  }

  lemma ActionKeepsIsolation<R>(cfg: Config, s: State<R>, w: nat, action: Action<R>)
    requires LiveInv(s) && IsolationInv(s) && w < |s.workers| && CanAct(cfg, s.workers[w], action)
    ensures IsolationInv(WorkerActs(s, w, action))
  {
    if Commits(s.workers[w], action) {
      assert s.workers[w].Live();
    }
  }

  lemma CallerKeepsIsolation<R>(cfg: Config, s: State<R>, step: Step<R>)
    requires LiveInv(s) && IsolationInv(s) && Enabled(cfg, s, step) && !step.ByWorker?
    ensures IsolationInv(Apply(cfg, s, step))
  {
    assert Apply(cfg, s, step).log == s.log;
  }

  lemma IsolationStep<R>(cfg: Config, s: State<R>, step: Step<R>)
    requires LiveInv(s) && IsolationInv(s) && Enabled(cfg, s, step)
    ensures IsolationInv(Apply(cfg, s, step))
  {
    if step.ByWorker? {
      ActionKeepsIsolation(cfg, s, step.w, step.action);
    } else {
      CallerKeepsIsolation(cfg, s, step);
    }
  }

  // ----- The journal

  lemma WrittenMore<R>(journal: seq<Write<R>>, x: Write<R>)
    ensures Written(journal + [x]) == Written(journal) + x.rows
    ensures Locked(journal + [x]) == Locked(journal) + if x.locked then [x] else []
  {
    assert (journal + [x])[..|journal|] == journal;
  }

  lemma SawRowsLater<R>(journal: seq<Write<R>>, x: Write<R>, rows: seq<R>, l: nat)
    requires SawRows(journal, rows, l) && l <= |journal|
    ensures SawRows(journal + [x], rows, l)
    ensures !x.locked && l == |journal| ==> SawRows(journal + [x], rows, l + 1)
  {
    var j: nat :| j <= l && SawAt(journal, rows, j, l);
    var more := journal + [x];
    assert more[..j] == journal[..j];
    assert SawAt(more, rows, j, l);
    if !x.locked && l == |journal| {
      assert SawAt(more, rows, j, l + 1);
    }
  }

  lemma SawNow<R>(journal: seq<Write<R>>)
    ensures SawRows(journal, Written(journal), |journal|)
  {
    assert journal[..|journal|] == journal;
    assert SawAt(journal, Written(journal), |journal|, |journal|);
  }

  lemma LandedLater<R>(journal: seq<Write<R>>, x: Write<R>, c: Commit<R>)
    requires LandedAt(journal, c)
    ensures LandedAt(journal + [x], c)
  {
    hide SawRows;
    var l: nat :| IsWrite(journal, c, l) && SawRows(journal, c.view.rows, l);
    assert (journal + [x])[..l] == journal[..l];
    SawRowsLater(journal, x, c.view.rows, l);
    assert IsWrite(journal + [x], c, l);
  }

  ghost predicate IsOutside<R>(s: State<R>, step: Step<R>) {
    step.ByWorker? && step.w < |s.workers| && CommitsOutside(s.workers[step.w], step.action)
  }

  /** What the worker holds of the rows: what it held before, or what is there now. */
  ghost predicate SameView<R>(me: Worker<R>, me': Worker<R>, rows: seq<R>) {
    && (me'.Live() && me'.phase.InStage? ==> me'.phase.view.rows == rows || (me.Live() && me.phase == me'.phase))
    && (me'.Live() && me'.phase.Returned? ==>
          me.Live() && (me.phase.Returned? || me.phase.InStage?) && me.phase.view == me'.phase.view)
  }

  /** The steps that write no rows. */
  ghost predicate NoWrite<R>(s: State<R>, s': State<R>) {
    && s'.log == s.log && s'.journal == s.journal && s'.db.rows == s.db.rows
    && |s.workers| <= |s'.workers|
    && (forall w :: |s.workers| <= w < |s'.workers| ==> s'.workers[w].phase == Connecting)
    && (forall w :: 0 <= w < |s.workers| ==>
         && (s.workers[w].rolledBack ==> s'.workers[w].rolledBack)
         && (HasLanded(s.workers[w].phase) ==> s'.workers[w].phase == s.workers[w].phase)
         && (Published(s'.workers[w].phase) ==>
               s'.workers[w].rolledBack == s.workers[w].rolledBack
               && (s'.workers[w].phase == s.workers[w].phase
                   || (s'.workers[w].phase.outcome.Discarded? && s.workers[w].rolledBack)))
         && SameView(s.workers[w], s'.workers[w], s.db.rows))
  }

  lemma ActionWritesNothing<R>(cfg: Config, s: State<R>, w: nat, action: Action<R>)
    requires w < |s.workers| && CanAct(cfg, s.workers[w], action)
    requires !Commits(s.workers[w], action) && !CommitsOutside(s.workers[w], action)
    ensures NoWrite(s, WorkerActs(s, w, action))
  {
  }

  lemma NoWriteUnlessCommit<R>(cfg: Config, s: State<R>, step: Step<R>)
    requires Enabled(cfg, s, step) && !IsCommit(s, step) && !IsOutside(s, step)
    ensures NoWrite(s, Apply(cfg, s, step))
  {
    if step.ByWorker? {
      ActionWritesNothing(cfg, s, step.w, step.action);
    }
  }

  lemma NoWriteKeepsJournal<R>(s: State<R>, s': State<R>)
    requires JournalInv(s) && NoWrite(s, s')
    ensures JournalInv(s')
  {
    SawNow(s.journal);
    hide SawRows, LandedAt, Written, Locked;
  }

  lemma CommitKeepsJournal<R>(s: State<R>, w: nat)
    requires LiveInv(s) && JournalInv(s) && w < |s.workers| && Commits(s.workers[w], Settle)
    ensures JournalInv(WorkerActs(s, w, Settle))
  {
    var s' := WorkerActs(s, w, Settle);
    var x := Write(w, s.workers[w].phase.effect.rows, true);
    WrittenMore(s.journal, x);
    assert WritesOf(s'.log) == WritesOf(s.log) + [x];
    CommitLands(s, w);
    CommitKeepsViews(s, w);
    hide LiveInv, ViewsOfRows, LandedAt, Written, Locked;
  }

  lemma CommitKeepsViews<R>(s: State<R>, w: nat)
    requires LiveInv(s) && WritersKnown(s) && ViewsOfRows(s) && w < |s.workers| && Commits(s.workers[w], Settle)
    ensures WritersKnown(WorkerActs(s, w, Settle)) && ViewsOfRows(WorkerActs(s, w, Settle))
  {
    assert s.workers[w].Live();
    hide SawRows;
  }

  lemma CommitLands<R>(s: State<R>, w: nat)
    requires LiveInv(s) && ViewsOfRows(s) && w < |s.workers| && Commits(s.workers[w], Settle) && s.db.rows == Written(s.journal)
    requires forall k :: 0 <= k < |s.log| ==> LandedAt(s.journal, s.log[k])
    ensures var s' := WorkerActs(s, w, Settle); forall k :: 0 <= k < |s'.log| ==> LandedAt(s'.journal, s'.log[k])
  {
    var s' := WorkerActs(s, w, Settle);
    var p := s.workers[w].phase;
    var x := Write(w, p.effect.rows, true);
    assert s.workers[w].Live();
    assert SawRows(s.journal, p.view.rows, |s.journal|);
    hide LiveInv, ViewsOfRows, Written;
    LastLanded(s.journal, x, s'.log[|s.log|]);
    hide LandedAt;
    forall k | 0 <= k < |s.log| ensures LandedAt(s'.journal, s'.log[k]) {
      LandedLater(s.journal, x, s.log[k]);
    }
  }

  lemma LastLanded<R>(journal: seq<Write<R>>, x: Write<R>, c: Commit<R>)
    requires x == Write(c.worker, c.effect.rows, true) && c.at.rows == Written(journal)
    requires SawRows(journal, c.view.rows, |journal|)
    ensures LandedAt(journal + [x], c)
  {
    SawRowsLater(journal, x, c.view.rows, |journal|);
    hide SawRows;
    assert (journal + [x])[..|journal|] == journal;
    assert IsWrite(journal + [x], c, |journal|);
  }

  lemma OutsideKeepsJournal<R>(cfg: Config, s: State<R>, w: nat, action: Action<R>)
    requires JournalInv(s) && w < |s.workers| && CanAct(cfg, s.workers[w], action) && CommitsOutside(s.workers[w], action)
    ensures JournalInv(WorkerActs(s, w, action))
  {
    var s' := WorkerActs(s, w, action);
    var x := Write(w, action.rows, false);
    WrittenMore(s.journal, x);
    SawNow(s'.journal);
    OutsideKeepsViews(s, w, action);
    hide ViewsOfRows, Written, Locked, LandedAt;
    forall k | 0 <= k < |s.log| ensures LandedAt(s'.journal, s.log[k]) {
      LandedLater(s.journal, x, s.log[k]);
    }
  }

  lemma OutsideKeepsViews<R>(s: State<R>, w: nat, action: Action<R>)
    requires ViewsOfRows(s) && w < |s.workers| && s.workers[w].phase.InStage? && CommitsOutside(s.workers[w], action)
    requires s.db.rows == Written(s.journal)
    ensures ViewsOfRows(WorkerActs(s, w, action))
  {
    var s' := WorkerActs(s, w, action);
    var x := Write(w, action.rows, false);
    WrittenMore(s.journal, x);
    SawNow(s'.journal);
    hide SawRows, Written;
    forall v | 0 <= v < |s.workers| && v != w && s.workers[v].Live() && (s.workers[v].phase.InStage? || s.workers[v].phase.Returned?)
      ensures SawRows(s'.journal, s.workers[v].phase.view.rows, |s'.journal|)
    {
      SawRowsLater(s.journal, x, s.workers[v].phase.view.rows, |s.journal|);
    }
  }

  lemma JournalStep<R>(cfg: Config, s: State<R>, step: Step<R>)
    requires LiveInv(s) && JournalInv(s) && Enabled(cfg, s, step)
    ensures JournalInv(Apply(cfg, s, step))
  {
    hide JournalInv;
    if IsCommit(s, step) {
      CommitKeepsJournal(s, step.w);
    } else if IsOutside(s, step) {
      OutsideKeepsJournal(cfg, s, step.w, step.action);
    } else {
      NoWriteUnlessCommit(cfg, s, step);
      NoWriteKeepsJournal(s, Apply(cfg, s, step));
    }
  }

  lemma InvStep<R>(cfg: Config, s: State<R>, step: Step<R>)
    requires Inv(cfg, s) && Enabled(cfg, s, step)
    ensures Inv(cfg, Apply(cfg, s, step))
  {
    OrderStep(cfg, s, step);
    LiveStep(cfg, s, step);
    ExclusionStep(cfg, s, step);
    LogStep(cfg, s, step);
    IsolationStep(cfg, s, step);
    JournalStep(cfg, s, step);
  }

  // ----- Every schedule

  lemma {:induction false} InvInduction<R>(cfg: Config, s: State<R>, steps: seq<Step<R>>)
    requires Inv(cfg, s) && Schedule(cfg, s, steps, false)
    ensures Inv(cfg, Exec(cfg, s, steps))
    decreases |steps|
  {
    if steps != [] {
      InvStep(cfg, s, steps[0]);
      InvInduction(cfg, Apply(cfg, s, steps[0]), steps[1..]);
    }
  }

  /** The state a schedule leads a fresh run to. */
  ghost function Reached<R>(cfg: Config, clock: real, steps: seq<Step<R>>): State<R>
    requires Schedule(cfg, Init(clock), steps, false)
  {
    Exec(cfg, Init(clock), steps)
  }

  lemma ReachedInv<R>(cfg: Config, clock: real, steps: seq<Step<R>>)
    requires Schedule(cfg, Init(clock), steps, false)
    ensures Inv(cfg, Reached(cfg, clock, steps))
  {
    InvInduction(cfg, Init(clock), steps);
  }

  lemma {:induction false} GuardedIsSchedule<R>(cfg: Config, s: State<R>, steps: seq<Step<R>>, guardedOnly: bool)
    requires Schedule(cfg, s, steps, guardedOnly)
    ensures Schedule(cfg, s, steps, false)
    decreases |steps|
  {
    if steps != [] {
      GuardedIsSchedule(cfg, Apply(cfg, s, steps[0]), steps[1..], guardedOnly);
    }
  }

  lemma {:induction false} HistoryGrows<R>(cfg: Config, s: State<R>, steps: seq<Step<R>>)
    requires Schedule(cfg, s, steps, false)
    ensures s.timedOut <= Exec(cfg, s, steps).timedOut && s.log <= Exec(cfg, s, steps).log
    ensures s.journal <= Exec(cfg, s, steps).journal
    decreases |steps|
  {
    if steps != [] {
      HistoryGrows(cfg, Apply(cfg, s, steps[0]), steps[1..]);
    }
  }

  // ----- Which writes land

  ghost predicate WroteLocked<R>(s: State<R>, w: nat) {
    exists k :: 0 <= k < |s.journal| && s.journal[k].worker == w && s.journal[k].locked
  }

  ghost predicate WroteOutside<R>(s: State<R>, w: nat) {
    exists k :: 0 <= k < |s.journal| && s.journal[k].worker == w && !s.journal[k].locked && s.journal[k].rows != []
  }

  ghost predicate HasRolledBack<R>(s: State<R>, w: nat) {
    w < |s.workers| && s.workers[w].rolledBack
  }

  /** Some step of the schedule is this worker's stage rolling its session back. */
  ghost predicate RollsBack<R>(steps: seq<Step<R>>, w: nat) {
    exists n :: 0 <= n < |steps| && steps[n] == ByWorker(w, OwnRollback)
  }

  /** Some step of the schedule is a commit by this worker's stage while the orchestrator's
      transaction is no longer active. */
  ghost predicate CommitsOnItsOwn<R>(cfg: Config, s: State<R>, steps: seq<Step<R>>, w: nat)
    requires Schedule(cfg, s, steps, false)
    decreases |steps|
  {
    steps != [] && ((IsOutside(s, steps[0]) && steps[0].w == w) || CommitsOnItsOwn(cfg, Apply(cfg, s, steps[0]), steps[1..], w))
  }

  lemma OneStepOutside<R>(cfg: Config, s: State<R>, step: Step<R>, w: nat)
    requires Enabled(cfg, s, step)
    ensures WroteOutside(Apply(cfg, s, step), w) <==> WroteOutside(s, w) || (IsOutside(s, step) && step.w == w)
  {
    var s' := Apply(cfg, s, step);
    if IsCommit(s, step) || IsOutside(s, step) {
      assert forall k :: 0 <= k < |s.journal| ==> s'.journal[k] == s.journal[k];
      assert s'.journal[|s.journal|].worker == step.w && (s'.journal[|s.journal|].locked <==> IsCommit(s, step));
    } else {
      NoWriteUnlessCommit(cfg, s, step);
    }
  }

  lemma {:induction false} OutsideExactly<R>(cfg: Config, s: State<R>, steps: seq<Step<R>>, w: nat)
    requires Schedule(cfg, s, steps, false)
    ensures WroteOutside(Exec(cfg, s, steps), w) <==> WroteOutside(s, w) || CommitsOnItsOwn(cfg, s, steps, w)
    decreases |steps|
  {
    hide WroteOutside, IsOutside, Enabled;
    if steps != [] {
      OneStepOutside(cfg, s, steps[0], w);
      OutsideExactly(cfg, Apply(cfg, s, steps[0]), steps[1..], w);
    }
  }

  lemma OneStepRollback<R>(cfg: Config, s: State<R>, step: Step<R>, w: nat)
    requires Enabled(cfg, s, step)
    ensures HasRolledBack(Apply(cfg, s, step), w) <==> HasRolledBack(s, w) || step == ByWorker(w, OwnRollback)
  {
  }

  lemma {:induction false} RollbackExactly<R>(cfg: Config, s: State<R>, steps: seq<Step<R>>, w: nat)
    requires Schedule(cfg, s, steps, false)
    ensures HasRolledBack(Exec(cfg, s, steps), w) <==> HasRolledBack(s, w) || RollsBack(steps, w)
    decreases |steps|
  {
    hide HasRolledBack, Enabled;
    if steps != [] {
      OneStepRollback(cfg, s, steps[0], w);
      RollbackExactly(cfg, Apply(cfg, s, steps[0]), steps[1..], w);
      FirstOrLater(steps, w);
    }
  }

  lemma FirstOrLater<R>(steps: seq<Step<R>>, w: nat)
    requires steps != []
    ensures RollsBack(steps, w) <==> steps[0] == ByWorker(w, OwnRollback) || RollsBack(steps[1..], w)
  {
    if RollsBack(steps[1..], w) {
      var n :| 0 <= n < |steps[1..]| && steps[1..][n] == ByWorker(w, OwnRollback);
      assert steps[n + 1] == ByWorker(w, OwnRollback);
    }
    if RollsBack(steps, w) && steps[0] != ByWorker(w, OwnRollback) {
      var n :| 0 <= n < |steps| && steps[n] == ByWorker(w, OwnRollback);
      assert steps[1..][n - 1] == ByWorker(w, OwnRollback);
    }
  }

  /** Once a stage raised StageTimeout, at no later step of any schedule is one of its writes in
      the store, exactly unless its stage made a commit after rolling its own session back. */
  lemma TimedOutLandsExactly<R>(cfg: Config, clock: real, steps: seq<Step<R>>, w: nat)
    requires Schedule(cfg, Init(clock), steps, false) && w in Reached(cfg, clock, steps).timedOut
    ensures var s := Reached(cfg, clock, steps);
            && s.db.rows == Written(s.journal)
            && !WroteLocked(s, w)
            && (WroteOutside(s, w) <==> CommitsOnItsOwn(cfg, Init(clock), steps, w))
            && (WroteOutside(s, w) ==> RollsBack(steps, w))
  {
    ReachedInv(cfg, clock, steps);
    OutsideExactly(cfg, Init(clock), steps, w);
    RollbackExactly(cfg, Init(clock), steps, w);
  }

  /** So a stage that keeps the contract not to roll its session back leaves nothing behind once it
      timed out. */
  lemma TimedOutNeverLands<R>(cfg: Config, clock: real, steps: seq<Step<R>>, w: nat)
    requires Schedule(cfg, Init(clock), steps, false) && w in Reached(cfg, clock, steps).timedOut
    requires !RollsBack(steps, w)
    ensures var s := Reached(cfg, clock, steps);
            s.db.rows == Written(s.journal) && forall k :: 0 <= k < |s.journal| ==> s.journal[k].worker != w
  {
    TimedOutLandsExactly(cfg, clock, steps, w);
    ReachedInv(cfg, clock, steps);
    RollbackExactly(cfg, Init(clock), steps, w);
  }

  lemma SettledStaysSettled<R>(cfg: Config, s: State<R>, step: Step<R>, w: nat)
    requires Enabled(cfg, s, step) && w < |s.workers| && s.workers[w].phase.Settled?
    ensures var s' := Apply(cfg, s, step);
            && w < |s'.workers| && s'.workers[w].phase.Settled? && s.journal <= s'.journal
            && forall k :: |s.journal| <= k < |s'.journal| ==> s'.journal[k].worker != w
  {
  }

  lemma {:induction false} SettledWritesNothing<R>(cfg: Config, s: State<R>, steps: seq<Step<R>>, w: nat)
    requires Schedule(cfg, s, steps, false) && w < |s.workers| && s.workers[w].phase.Settled?
    ensures s.journal <= Exec(cfg, s, steps).journal
    ensures forall k :: |s.journal| <= k < |Exec(cfg, s, steps).journal| ==> Exec(cfg, s, steps).journal[k].worker != w
    decreases |steps|
  {
    hide Enabled;
    if steps != [] {
      SettledStaysSettled(cfg, s, steps[0], w);
      SettledWritesNothing(cfg, Apply(cfg, s, steps[0]), steps[1..], w);
    }
  }

  /** Once a stage's result was returned, its transaction is in the store exactly unless it had
      rolled its session back; what it committed on its own is there exactly if it did; all of it
      stays at every later step, and nothing is added to it. */
  lemma ReturnedHasLanded<R>(cfg: Config, clock: real, steps: seq<Step<R>>, later: seq<Step<R>>, w: nat)
    requires Schedule(cfg, Init(clock), steps, false)
    requires Schedule(cfg, Reached(cfg, clock, steps), later, false)
    requires w in Reached(cfg, clock, steps).returned
    ensures var s, t := Reached(cfg, clock, steps), Exec(cfg, Reached(cfg, clock, steps), later);
            && w < |s.workers| && !s.workers[w].abandoned
            && (WroteLocked(s, w) <==> !RollsBack(steps, w))
            && (WroteOutside(s, w) <==> CommitsOnItsOwn(cfg, Init(clock), steps, w))
            && s.journal <= t.journal && t.db.rows == Written(t.journal)
            && forall k :: |s.journal| <= k < |t.journal| ==> t.journal[k].worker != w
  {
    var s := Reached(cfg, clock, steps);
    ReachedInv(cfg, clock, steps);
    InvInduction(cfg, s, later);
    SettledWritesNothing(cfg, s, later, w);
    OutsideExactly(cfg, Init(clock), steps, w);
    RollbackExactly(cfg, Init(clock), steps, w);
    PublishedWrites(cfg, s, w);
  }

  lemma PublishedWrites<R>(cfg: Config, s: State<R>, w: nat)
    requires Inv(cfg, s) && w in s.returned
    ensures w < |s.workers| && Published(s.workers[w].phase) && !s.workers[w].abandoned
    ensures WroteLocked(s, w) <==> !s.workers[w].rolledBack
  {
    hide OrderInv, LiveInv, IsolationInv, SawRows;
    if s.workers[w].phase.outcome.Landed? {
      var k :| 0 <= k < |s.log| && s.log[k].worker == w;
      var l: nat :| IsWrite(s.journal, s.log[k], l) && SawRows(s.journal, s.log[k].view.rows, l);
      assert s.journal[l].worker == w && s.journal[l].locked;
    }
  }

  /** Whole-run refinement, read off the final state, on every schedule: the writes under the lock
      are, in launch order, the transactions of exactly the workers that committed, each stage at
      most once and none of them abandoned; each was computed from all rows that were there when
      it landed but some that other sessions wrote outside, and from the run's row as it was then or,
      for a stage torn off by an uncovered interrupt, before the failure was saved. */
  lemma CommittedWritesAreSerial<R>(cfg: Config, clock: real, steps: seq<Step<R>>)
    requires Schedule(cfg, Init(clock), steps, false)
    ensures var s := Reached(cfg, clock, steps);
            && s.db.rows == Written(s.journal) && Locked(s.journal) == WritesOf(s.log)
            && (forall w :: 0 <= w < |s.workers| ==>
                  (HasLanded(s.workers[w].phase) <==> exists k :: 0 <= k < |s.log| && s.log[k].worker == w))
            && (forall k :: 0 <= k < |s.log| ==>
                  s.log[k].worker < |s.workers| && !s.workers[s.log[k].worker].abandoned && LandedAt(s.journal, s.log[k]))
            && (forall k, l :: 0 <= k < l < |s.log| ==> s.log[k].stage < s.log[l].stage)
            && (forall k :: 0 <= k < |s.log| ==>
                  RowSeen(!Schedule(cfg, Init(clock), steps, true), s.log[k].view, s.log[k].at))
  {
    ReachedInv(cfg, clock, steps);
    if Schedule(cfg, Init(clock), steps, true) {
      StaysGuarded(cfg, Init(clock), steps);
    }
    hide LandedAt;
  }

  /** Without such writes every committed stage was computed from the very rows it was applied to. */
  lemma SerialWithoutStrays<R>(cfg: Config, clock: real, steps: seq<Step<R>>)
    requires Schedule(cfg, Init(clock), steps, false)
    requires forall w :: !CommitsOnItsOwn(cfg, Init(clock), steps, w)
    ensures var s := Reached(cfg, clock, steps); forall k :: 0 <= k < |s.log| ==> s.log[k].view.rows == s.log[k].at.rows
  {
    var s := Reached(cfg, clock, steps);
    ReachedInv(cfg, clock, steps);
    forall k | 0 <= k < |s.journal| ensures s.journal[k].locked {
      OutsideExactly(cfg, Init(clock), steps, s.journal[k].worker);
    }
    forall k | 0 <= k < |s.log| ensures s.log[k].view.rows == s.log[k].at.rows {
      LandedOnWhatItSaw(s.journal, s.log[k]);
    }
  }

  lemma {:induction false} AllLocked<R>(journal: seq<Write<R>>)
    requires forall k :: 0 <= k < |journal| ==> journal[k].locked
    ensures Locked(journal) == journal
  {
    if journal != [] {
      AllLocked(journal[..|journal| - 1]);
    }
  }

  /** When every write is under the lock the log tells all: the stored rows are its rows, and each
      stage had read the rows of the commits before its own. */
  lemma LogIsJournal<R>(cfg: Config, s: State<R>)
    requires Inv(cfg, s) && forall k :: 0 <= k < |s.journal| ==> s.journal[k].locked
    ensures s.db.rows == Written(WritesOf(s.log))
    ensures forall k :: 0 <= k < |s.log| ==> s.log[k].view.rows == Written(WritesOf(s.log[..k]))
  {
    AllLocked(s.journal);
    hide OrderInv, LiveInv, ExclusionInv, IsolationInv, LandedAt, Written, ViewsOfRows;
    forall k | 0 <= k < |s.log| ensures s.log[k].view.rows == Written(WritesOf(s.log[..k])) {
      LandedInPlace(s.journal, s.log, k);
    }
  }

  lemma LandedInPlace<R>(journal: seq<Write<R>>, log: seq<Commit<R>>, k: nat)
    requires k < |log| && journal == WritesOf(log) && LandedAt(journal, log[k])
    requires forall i, j :: 0 <= i < j < |log| ==> log[i].worker < log[j].worker
    ensures log[k].view.rows == Written(WritesOf(log[..k]))
  {
    LandedOnWhatItSaw(journal, log[k]);
    hide SawRows, Written;
    var l: nat :| IsWrite(journal, log[k], l) && SawRows(journal, log[k].view.rows, l);
    assert log[l].worker == log[k].worker;
    assert l == k by { if l < k {} else if k < l {} }
    assert journal[..k] == WritesOf(log[..k]);
  }

  lemma LandedOnWhatItSaw<R>(journal: seq<Write<R>>, c: Commit<R>)
    requires LandedAt(journal, c) && forall k :: 0 <= k < |journal| ==> journal[k].locked
    ensures c.view.rows == c.at.rows
  {
    var l: nat :| IsWrite(journal, c, l) && SawRows(journal, c.view.rows, l);
    var j: nat :| j <= l && SawAt(journal, c.view.rows, j, l);
  }

  lemma {:induction false} StaysGuarded<R>(cfg: Config, s: State<R>, steps: seq<Step<R>>)
    requires !s.unguarded && Schedule(cfg, s, steps, true) && Schedule(cfg, s, steps, false)
    ensures !Exec(cfg, s, steps).unguarded
    decreases |steps|
  {
    if steps != [] {
      StaysGuarded(cfg, Apply(cfg, s, steps[0]), steps[1..]);
    }
  }
}
