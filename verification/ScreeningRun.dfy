/**
A whole screening run: the orchestrator's protocol driving block_candidates, score_candidates and
dispose (backend/app/screening/pipeline.py:21-29), on every schedule.
*/
module ScreeningRun {
  import opened Wrappers
  import opened RunProtocol
  import opened RunSafety
  import opened RunLifecycle
  import opened RunHistory
  import opened RunOutcome
  import opened Names
  import opened Watchlist
  import opened Scoring
  import opened PairScoring
  import opened Blocking
  import opened Dispose
  import opened ScreeningStages

  const BLOCK: nat := 0
  const SCORE: nat := 1
  const DISPOSE: nat := 2

  predicate IsScreening(cfg: Config) {
    && cfg.stages == [StageSpec("block_candidates", false), StageSpec("score_candidates", false), StageSpec("dispose", true)]
    && cfg.stageTimeout >= 0.0
    && (cfg.runTimeout.Some? ==> cfg.runTimeout.value >= 0.0)
  }

  // ----- What the three stages commit

  /** No list is loaded at all. */
  predicate NoLists(inp: Inputs) {
    inp.lists.retrievedAt == map[]
  }

  /** The stage returns the context it was given with a new object of its own under `key`. */
  ghost predicate Reports(before: Context, after: Context, key: string, status: string) {
    exists id: nat :: IsNewObject(before, id) && after == before[key := Entry(id, Some(status))]
  }

  predicate IsNewObject(before: Context, id: nat) {
    forall key :: key in before ==> before[key].ident != id
  }

  /** Each stage commits what it computes from the rows and statuses it read, and returns its report;
      without any list the blocking stage stores nothing and reports itself unavailable. */
  ghost predicate CommitsAsScreening(inp: Inputs, c: Commit<Row>) {
    if c.stage == BLOCK then
      && c.effect.coverage == Some(Coverage(inp.required, inp.lists))
      && (if NoLists(inp) then c.effect.rows == [] else IsBlocking(inp, c.effect.rows))
      && Reports(c.before, c.after, "blocking", if NoLists(inp) then "unavailable" else "complete")
    else if c.stage == SCORE then
      c.effect.coverage == None && IsScoring(inp, c.view.rows, c.effect.rows) && Reports(c.before, c.after, "scoring", "complete")
    else
      c.effect.coverage == None && IsDisposing(inp, c.view, c.effect.rows) && Reports(c.before, c.after, "decision", "complete")
  }

  ghost predicate ScreeningLog(inp: Inputs, log: seq<Commit<Row>>) {
    forall k :: 0 <= k < |log| ==> CommitsAsScreening(inp, log[k])
  }

  /** The run is driven with the three stages: they commit as they do, and never roll their session
      back (backend/app/screening/stages.py:3-4). */
  ghost predicate RunsScreening(inp: Inputs, steps: seq<Step<Row>>, log: seq<Commit<Row>>) {
    (forall w :: !RollsBack(steps, w)) && ScreeningLog(inp, log)
  }

  // ----- Any run

  /** The rows of these commits, one after the other. */
  function LogRows(log: seq<Commit<Row>>): seq<Row> {
    Written(WritesOf(log))
  }

  lemma LogRowsSplit(log: seq<Commit<Row>>)
    requires log != []
    ensures LogRows(log) == LogRows(log[..|log| - 1]) + log[|log| - 1].effect.rows
  {
    var n := |log| - 1;
    assert WritesOf(log)[..n] == WritesOf(log[..n]);
  }

  /** The stored rows are those of the log, and each stage had read those before its own. */
  ghost predicate LogTellsAll(s: State<Row>) {
    && s.db.rows == LogRows(s.log)
    && forall k :: 0 <= k < |s.log| ==> s.log[k].view.rows == LogRows(s.log[..k])
  }

  lemma ReachedHistory(cfg: Config, clock: real, steps: seq<Step<Row>>)
    requires IsScreening(cfg) && Schedule(cfg, Init(clock), steps, false)
    ensures Inv(cfg, Reached(cfg, clock, steps)) && HistoryInv(cfg, Reached(cfg, clock, steps))
    ensures VerdictInv(cfg, Reached(cfg, clock, steps))
  {
    assert ValidConfig(cfg);
    EmptyHistory<Row>(cfg, clock);
    EmptyVerdict<Row>(cfg, clock);
    hide HistoryInv, Inv, VerdictInv;
    HistoryInduction(cfg, Init(clock), steps);
    VerdictInduction(cfg, Init(clock), steps);
  }

  lemma ReachedScreening(cfg: Config, clock: real, steps: seq<Step<Row>>, inp: Inputs)
    requires IsScreening(cfg) && Schedule(cfg, Init(clock), steps, false)
    requires RunsScreening(inp, steps, Reached(cfg, clock, steps).log)
    ensures var s := Reached(cfg, clock, steps);
            && Inv(cfg, s) && HistoryInv(cfg, s) && VerdictInv(cfg, s) && LogTellsAll(s) && InStageOrder(s.log)
            && forall w :: 0 <= w < |s.workers| ==> !s.workers[w].rolledBack
  {
    var s := Reached(cfg, clock, steps);
    ReachedHistory(cfg, clock, steps);
    hide HistoryInv, ScreeningLog, VerdictInv;
    forall w | 0 <= w < |s.workers| ensures !s.workers[w].rolledBack {
      RollbackExactly(cfg, Init(clock), steps, w);
    }
    LogInStageOrder(cfg, s);
    hide OrderInv, LiveInv, LogInv, IsolationInv, ExclusionInv, InStageOrder, LandedAt, ViewsOfRows;
    assert forall k :: 0 <= k < |s.journal| ==> s.journal[k].locked;
    LogIsJournal(cfg, s);
  }

  /** A decision in the store was committed by the dispose stage. */
  lemma {:induction false} DecisionCommit(inp: Inputs, log: seq<Commit<Row>>, d: Decision) returns (k: nat)
    requires ScreeningLog(inp, log) && DecisionRow(d) in LogRows(log)
    ensures k < |log| && DecisionRow(d) in log[k].effect.rows
  {
    hide CommitsAsScreening, LogRows;
    NoLogRows();
    var n := |log| - 1;
    LogRowsSplit(log);
    if DecisionRow(d) in log[n].effect.rows {
      k := n;
    } else {
      k := DecisionCommit(inp, log[..n], d);
    }
  }

  lemma NoLogRows()
    ensures LogRows([]) == []
  {
  }

  lemma ScoringDecidesNothing(inp: Inputs, before: seq<Row>, rows: seq<Row>)
    requires IsScoring(inp, before, rows)
    ensures forall k :: 0 <= k < |rows| ==> !rows[k].DecisionRow?
  {
    hide TwoPass, Score;
    var rule, ids :| ScoresAs(inp, before, rule, ids, rows);
  }

  lemma DecisionIsDispose(inp: Inputs, c: Commit<Row>, d: Decision) returns (b: Bundle)
    requires CommitsAsScreening(inp, c) && DecisionRow(d) in c.effect.rows
    ensures c.stage != BLOCK && c.stage != SCORE && c.effect.rows == [DecisionRow(d)]
    ensures IsBundle(inp, c.view.rows, b) && b.status == c.view.availability - {"dispose"} && d == Decide(inp.t, b)
  {
    hide Decide, IsBundle, Coverage, Reports;
    if c.stage == BLOCK {
      if !NoLists(inp) {
        CandidatesAreUnique(inp, c.effect.rows);
      }
    } else if c.stage == SCORE {
      ScoringDecidesNothing(inp, c.view.rows, c.effect.rows);
    }
    hide IsBlocking, IsScoring;
    b :| IsBundle(inp, c.view.rows, b) && b.status == c.view.availability - {"dispose"} && c.effect.rows == [DecisionRow(Decide(inp.t, b))];
  }

  /** Coverage once committed stays, as long as nobody else reports any. */
  lemma {:induction false} CoverageStays(log: seq<Commit<Row>>, l: nat, k: nat)
    requires l < k <= |log| && log[l].effect.coverage.Some?
    requires forall m :: l < m < k ==> log[m].effect.coverage.None?
    ensures forall key :: key in log[l].effect.coverage.value ==>
              key in CoverageOf(log[..k]) && CoverageOf(log[..k])[key] == log[l].effect.coverage.value[key]
  {
    assert log[..k][..k - 1] == log[..k - 1] && log[..k][k - 1] == log[k - 1];
    if k > l + 1 {
      CoverageStays(log, l, k - 1);
    }
  }

  /** A stage recorded complete has its commit in the log. */
  lemma CompleteIsLogged(cfg: Config, s: State<Row>, i: nat) returns (l: nat)
    requires Inv(cfg, s) && HistoryInv(cfg, s) && forall w :: 0 <= w < |s.workers| ==> !s.workers[w].rolledBack
    requires i < |cfg.stages| && RecordedComplete(cfg, s.db, i)
    ensures l < |s.log| && s.log[l].stage == i
  {
    hide LogHistory, LiveHistory, OrderInv, LiveInv, IsolationInv;
    var w :| w in s.returned && w < |s.workers| && s.workers[w].stage == i;
    assert HasLanded(s.workers[w].phase);
    l :| 0 <= l < |s.log| && s.log[l].worker == w;
  }

  /** Commits come in stage order, each stage at most once. */
  ghost predicate InStageOrder(log: seq<Commit<Row>>) {
    && (forall k :: 0 <= k < |log| ==> log[k].stage <= DISPOSE)
    && (forall k, l :: 0 <= k < l < |log| ==> log[k].stage < log[l].stage)
  }

  lemma {:induction false} StagesSpread(log: seq<Commit<Row>>, i: nat, j: nat)
    requires InStageOrder(log) && i <= j < |log|
    ensures log[j].stage - log[i].stage >= j - i
    decreases j
  {
    if i < j {
      StagesSpread(log, i, j - 1);
    }
  }

  lemma LogInStageOrder(cfg: Config, s: State<Row>)
    requires IsScreening(cfg) && OrderInv(cfg, s) && LogInv(s)
    ensures InStageOrder(s.log)
  {
  }

  /** What the dispose stage saw of blocking and scoring. */
  lemma DisposeSaw(cfg: Config, s: State<Row>, k: nat)
    requires IsScreening(cfg) && HistoryInv(cfg, s) && k < |s.log| && s.log[k].stage == DISPOSE
    ensures forall j :: 0 <= j < 2 ==>
              && cfg.stages[j].name in s.log[k].view.availability
              && cfg.stages[j].name in s.db.availability
              && s.log[k].view.availability[cfg.stages[j].name] != Pending
              && s.log[k].view.availability[cfg.stages[j].name] == s.db.availability[cfg.stages[j].name]
  {
    assert LogEntryHistory(cfg, s, k);
  }

  /** The dispose stage's commit, the last of the run, and the bundle it decided. */
  lemma DecisionBundle(inp: Inputs, s: State<Row>, d: Decision) returns (k: nat, b: Bundle)
    requires ScreeningLog(inp, s.log) && InStageOrder(s.log) && LogTellsAll(s) && DecisionRow(d) in s.db.rows
    ensures k == |s.log| - 1 && s.log[k].stage == DISPOSE
    ensures d == Decide(inp.t, b) && b.status == s.log[k].view.availability - {"dispose"}
    ensures IsBundle(inp, s.log[k].view.rows, b)
    ensures s.db.rows == s.log[k].view.rows + [DecisionRow(d)]
  {
    hide Decide, IsBundle, CommitsAsScreening, LogRows;
    k := DecisionCommit(inp, s.log, d);
    assert CommitsAsScreening(inp, s.log[k]);
    b := DecisionIsDispose(inp, s.log[k], d);
    assert k == |s.log| - 1 by {
      assert s.log[|s.log| - 1].stage <= DISPOSE;
    }
    LogRowsSplit(s.log);
  }

  lemma BothComplete(cfg: Config, s: State<Row>, k: nat, b: Bundle)
    requires IsScreening(cfg) && HistoryInv(cfg, s) && k < |s.log| && s.log[k].stage == DISPOSE
    requires b.status == s.log[k].view.availability - {"dispose"}
    requires forall key :: key in b.status ==> b.status[key] != Unavailable
    ensures RecordedComplete(cfg, s.db, BLOCK) && RecordedComplete(cfg, s.db, SCORE)
  {
    DisposeSaw(cfg, s, k);
    hide HistoryInv;
    assert cfg.stages[0].name == "block_candidates" && cfg.stages[1].name == "score_candidates";
    assert cfg.stages[0].name in b.status && cfg.stages[1].name in b.status;
  }

  lemma ClosedMeansClear(t: Tables, b: Bundle, d: Decision)
    requires d == Decide(t, b) && d.autoClosed
    ensures d.disposition == Clear
    ensures forall k :: 0 <= k < |d.entries| ==> IsClear(d.entries[k])
    ensures forall key :: key in b.status ==> b.status[key] != Unavailable
  {
    hide NamedConflict, TwoPass, Score;
    AutoClosesExactly(t, b);
  }

  /** The coverage the blocking stage committed is what the dispose stage read. */
  lemma CoveredIsFresh(cfg: Config, log: seq<Commit<Row>>, inp: Inputs, l: nat, k: nat, source: string, b: Bundle)
    requires ScreeningLog(inp, log) && InStageOrder(log)
    requires l < |log| && k < |log| && log[l].stage == BLOCK && log[k].stage == DISPOSE && source in inp.required
    requires NonStage(cfg, log[k].view.availability) == CoverageOf(log[..k])
    requires b.status == log[k].view.availability - {"dispose"}
    requires forall key :: key in b.status ==> b.status[key] != Unavailable
    ensures inp.lists.Fresh(source)
  {
    var key := Key(source);
    BlockCoverageIsSeen(log, inp, l, k);
    CoverageMeansFresh(inp.required, inp.lists);
    hide ScreeningLog, InStageOrder, Coverage, CoverageOf;
    assert key in NonStage(cfg, log[k].view.availability);
    assert key[0] == 'l';
    assert key in b.status;
  }

  lemma BlockCoverageIsSeen(log: seq<Commit<Row>>, inp: Inputs, l: nat, k: nat)
    requires ScreeningLog(inp, log) && InStageOrder(log)
    requires l < |log| && k < |log| && log[l].stage == BLOCK && log[k].stage == DISPOSE
    ensures forall key :: key in Coverage(inp.required, inp.lists) ==>
              key in CoverageOf(log[..k]) && CoverageOf(log[..k])[key] == Coverage(inp.required, inp.lists)[key]
  {
    hide Coverage, IsBlocking, IsScoring, IsDisposing, Reports;
    assert l < k;
    forall m | l < m < k ensures log[m].effect.coverage.None? {
      assert CommitsAsScreening(inp, log[m]);
    }
    assert CommitsAsScreening(inp, log[l]);
    CoverageStays(log, l, k);
  }

  // ----- Guarded auto-CLEAR

  /** Below both thresholds, and no conflict next to a whole-name or initials term. */
  predicate IsClear(e: Decided) {
    e.band == Clear && !NamedConflict(e.terms)
  }

  predicate HasEntry(d: Decision, rid: string) {
    exists k :: 0 <= k < |d.entries| && d.entries[k].recordId == rid
  }

  predicate HasClearEntry(d: Decision, rid: string) {
    exists k :: 0 <= k < |d.entries| && d.entries[k].recordId == rid && IsClear(d.entries[k])
  }

  lemma {:induction false} IdsOfCandidates(rows: seq<Row>)
    ensures forall rid :: HasCandidate(rows, rid) <==> rid in CandidateIds(rows)
  {
    if rows != [] {
      var n := |rows| - 1;
      IdsOfCandidates(rows[..n]);
      forall rid ensures HasCandidate(rows, rid) <==> HasCandidate(rows[..n], rid) || (rows[n].CandidateRow? && rows[n].recordId == rid) {
        if HasCandidate(rows[..n], rid) {
          var k :| 0 <= k < n && rows[..n][k].CandidateRow? && rows[..n][k].recordId == rid;
          assert rows[k].recordId == rid;
        }
      }
    }
  }

  /** The decision has an entry for exactly the run's candidates. */
  lemma EntriesAreCandidates(inp: Inputs, rows: seq<Row>, b: Bundle)
    requires IsBundle(inp, rows, b)
    ensures forall rid :: HasCandidate(rows, rid) <==> HasEntry(Decide(inp.t, b), rid)
  {
    hide TwoPass, Score, RunVerdict, BandWithReason;
    IdsOfCandidates(rows);
    var d, ids := Decide(inp.t, b), BundleIds(b);
    forall rid ensures rid in CandidateIds(rows) <==> HasEntry(d, rid) {
      assert rid in CandidateIds(rows) <==> rid in multiset(CandidateIds(rows));
      assert rid in ids <==> rid in multiset(ids);
      if rid in ids {
        var k :| 0 <= k < |ids| && ids[k] == rid;
        assert d.entries[k].recordId == rid;
      }
      if HasEntry(d, rid) {
        var k :| 0 <= k < |d.entries| && d.entries[k].recordId == rid;
        assert ids[k] == rid;
      }
    }
  }

  /** A row of a commit is a row of the log. */
  lemma {:induction false} LoggedRows(log: seq<Commit<Row>>, l: nat, rid: string)
    requires l < |log| && HasCandidate(log[l].effect.rows, rid)
    ensures HasCandidate(LogRows(log), rid)
  {
    hide LogRows;
    var n := |log| - 1;
    LogRowsSplit(log);
    var before := LogRows(log[..n]);
    if l < n {
      LoggedRows(log[..n], l, rid);
      var k :| 0 <= k < |before| && before[k].CandidateRow? && before[k].recordId == rid;
      assert LogRows(log)[k] == before[k];
    } else {
      var k :| 0 <= k < |log[n].effect.rows| && log[n].effect.rows[k].CandidateRow? && log[n].effect.rows[k].recordId == rid;
      assert LogRows(log)[|before| + k] == log[n].effect.rows[k];
    }
  }

  /** The record is on a list, and the scorer matches it by the whole of some keyed name of the
      subject. */
  ghost predicate MatchesWholly(inp: Inputs, record: WatchRecord) {
    record in inp.records && exists name, variant ::
      && (name == inp.person.name || name == inp.person.originalScript || name in inp.person.aliases)
      && name != "" && HasKeyedToken(Tokens(inp.t.lib, name))
      && variant in record.names && WholeNameMatch(inp.t.lib, name, variant)
  }

  /** Guarded auto-CLEAR, end to end: on every schedule of failures, timeouts, skipped stages and
      interrupts, a stored decision that closed without a human means that blocking and scoring are
      recorded complete, that every required list was present and fresh, that every candidate the
      run stored, and no other, has an entry with band CLEAR and no conflict next to a whole-name
      or initials term, and so has every record that matches a keyed name of the subject wholly. */
  lemma AutoClearIsGuarded(cfg: Config, clock: real, steps: seq<Step<Row>>, inp: Inputs, d: Decision)
    requires IsScreening(cfg) && Schedule(cfg, Init(clock), steps, false)
    requires RunsScreening(inp, steps, Reached(cfg, clock, steps).log)
    requires DecisionRow(d) in Reached(cfg, clock, steps).db.rows && d.autoClosed
    ensures RecordedComplete(cfg, Reached(cfg, clock, steps).db, BLOCK)
    ensures RecordedComplete(cfg, Reached(cfg, clock, steps).db, SCORE)
    ensures inp.lists.retrievedAt != map[]
    ensures forall source :: source in inp.required ==>
              source in inp.lists.retrievedAt && inp.lists.now - inp.lists.retrievedAt[source] <= inp.lists.maxAge
    ensures d.disposition == Clear
    ensures forall rid :: HasEntry(d, rid) <==> HasCandidate(Reached(cfg, clock, steps).db.rows, rid)
    ensures forall rid :: HasEntry(d, rid) ==> HasClearEntry(d, rid)
    ensures forall k :: 0 <= k < |d.entries| ==> IsClear(d.entries[k])
    ensures forall record :: MatchesWholly(inp, record) ==> HasClearEntry(d, record.id)
  {
    ReachedScreening(cfg, clock, steps, inp);
    GuardedState(cfg, Reached(cfg, clock, steps), inp, d);
    var l := CompleteBlocking(cfg, Reached(cfg, clock, steps), inp);
    hide MatchesWholly, IsClear;
    forall record | MatchesWholly(inp, record) ensures HasClearEntry(d, record.id) {
      WholeMatchIsCandidate(cfg, Reached(cfg, clock, steps), inp, record);
    }
  }

  /** A blocking stage recorded complete had lists to block against: without any it reports an outage,
      and the orchestrator records what the report says. */
  lemma CompleteBlocking(cfg: Config, s: State<Row>, inp: Inputs) returns (l: nat)
    requires IsScreening(cfg) && Inv(cfg, s) && VerdictInv(cfg, s) && ScreeningLog(inp, s.log)
    requires forall w :: 0 <= w < |s.workers| ==> !s.workers[w].rolledBack
    requires RecordedComplete(cfg, s.db, BLOCK)
    ensures l < |s.log| && !NoLists(inp) && IsBlocking(inp, s.log[l].effect.rows)
  {
    hide OrderInv, LiveInv, IsolationInv, PutsOutage, ScreeningLog, RecordedComplete;
    assert StageReturnedWell(s, BLOCK);
    var w: nat :| ReturnedWell(s, w) && s.workers[w].stage == BLOCK;
    assert HasLanded(s.workers[w].phase);
    l :| 0 <= l < |s.log| && s.log[l].worker == w;
    assert s.log[l].before == s.workers[w].before && s.log[l].after == ResultOf(s.workers[w].phase);
    hide Inv, ReturnedWell;
    LoggedAsScreening(inp, s.log, l);
    hide IsBlocking, Coverage;
    if NoLists(inp) {
      UnavailableIsOutage(s.log[l].before, s.log[l].after, "blocking");
      assert false;
    }
  }

  lemma LoggedAsScreening(inp: Inputs, log: seq<Commit<Row>>, l: nat)
    requires ScreeningLog(inp, log) && l < |log|
    ensures CommitsAsScreening(inp, log[l])
  {
  }

  lemma UnavailableIsOutage(before: Context, after: Context, key: string)
    requires Reports(before, after, key, "unavailable")
    ensures PutsOutage(before, after)
  {
    assert key in after;
  }

  lemma WholeMatchIsCandidate(cfg: Config, s: State<Row>, inp: Inputs, record: WatchRecord)
    requires IsScreening(cfg) && Inv(cfg, s) && HistoryInv(cfg, s) && LogTellsAll(s) && ScreeningLog(inp, s.log)
    requires forall w :: 0 <= w < |s.workers| ==> !s.workers[w].rolledBack
    requires VerdictInv(cfg, s) && RecordedComplete(cfg, s.db, BLOCK) && MatchesWholly(inp, record)
    ensures HasCandidate(s.db.rows, record.id)
  {
    var l := CompleteBlocking(cfg, s, inp);
    hide Inv, HistoryInv, VerdictInv, IsBlocking, LogRows, Coverage, WholeNameMatch, HasKeyedToken;
    var name, variant :|
      && (name == inp.person.name || name == inp.person.originalScript || name in inp.person.aliases)
      && name != "" && HasKeyedToken(Tokens(inp.t.lib, name))
      && variant in record.names && WholeNameMatch(inp.t.lib, name, variant);
    assert name in SubjectNames(inp.person);
    StageRecall(inp, s.log[l].effect.rows, name, record, variant);
    LoggedRows(s.log, l, record.id);
  }

  lemma GuardedState(cfg: Config, s: State<Row>, inp: Inputs, d: Decision)
    requires IsScreening(cfg) && Inv(cfg, s) && HistoryInv(cfg, s) && LogTellsAll(s) && InStageOrder(s.log) && ScreeningLog(inp, s.log)
    requires forall w :: 0 <= w < |s.workers| ==> !s.workers[w].rolledBack
    requires DecisionRow(d) in s.db.rows && d.autoClosed
    ensures RecordedComplete(cfg, s.db, BLOCK) && RecordedComplete(cfg, s.db, SCORE)
    ensures forall source :: source in inp.required ==> inp.lists.Fresh(source)
    ensures d.disposition == Clear
    ensures forall k :: 0 <= k < |d.entries| ==> IsClear(d.entries[k])
    ensures forall rid :: HasEntry(d, rid) <==> HasCandidate(s.db.rows, rid)
  {
    var k, b := DecisionBundle(inp, s, d);
    hide LogTellsAll;
    ClosedMeansClear(inp.t, b, d);
    DisposeSaw(cfg, s, k);
    BothComplete(cfg, s, k, b);
    var l := CompleteIsLogged(cfg, s, BLOCK);
    assert LogEntryHistory(cfg, s, k);
    EntriesAreCandidates(inp, s.log[k].view.rows, b);
    hide Inv, HistoryInv, LogEntryHistory, RecordedComplete, IsClear, ScreeningLog, IsBundle, Decide;
    OneMoreRow(s.log[k].view.rows, DecisionRow(d));
    forall source | source in inp.required ensures inp.lists.Fresh(source) {
      CoveredIsFresh(cfg, s.log, inp, l, k, source, b);
    }
  }

  lemma OneMoreRow(rows: seq<Row>, row: Row)
    requires !row.CandidateRow?
    ensures forall rid :: HasCandidate(rows + [row], rid) <==> HasCandidate(rows, rid)
  {
    forall rid | HasCandidate(rows, rid) ensures HasCandidate(rows + [row], rid) {
      var k :| 0 <= k < |rows| && rows[k].CandidateRow? && rows[k].recordId == rid;
      assert (rows + [row])[k] == rows[k];
    }
  }

  // ----- One score per candidate

  lemma {:induction false} RecordsOfPermutation(records: seq<WatchRecord>, a: seq<string>, b: seq<string>)
    requires Known(records, a) && Known(records, b) && multiset(a) == multiset(b)
    ensures multiset(RecordsOf(records, a)) == multiset(RecordsOf(records, b))
    decreases |a|
  {
    hide Lookup;
    if a == [] {
      assert |multiset(b)| == 0;
      assert b == [];
    } else {
      var n := |a| - 1;
      assert a == a[..n] + [a[n]];
      assert a[n] in multiset(b);
      var k :| 0 <= k < |b| && b[k] == a[n];
      PermutationWithout(a, b, k);
      RecordsOfPermutation(records, a[..n], Without(b, k));
      RecordsWithout(records, b, k);
      RecordsWithout(records, a, n);
      assert Without(a, n) == a[..n];
    }
  }

  lemma RecordsWithout(records: seq<WatchRecord>, a: seq<string>, k: nat)
    requires Known(records, a) && k < |a|
    ensures Known(records, Without(a, k))
    ensures multiset(RecordsOf(records, a)) == multiset(RecordsOf(records, Without(a, k))) + multiset{Lookup(records, a[k]).value}
  {
    hide Lookup;
    var ra := RecordsOf(records, a);
    assert Without(ra, k) == RecordsOf(records, Without(a, k));
    RemoveOne(ra, k);
  }

  /** Scoring and disposing the same candidates under the same rule gives each one the same terms. */
  lemma SameTerms(inp: Inputs, rule: Rule, ids: seq<string>, b: Bundle, i: nat, j: nat)
    requires Known(inp.records, ids) && multiset(ids) == multiset(BundleIds(b)) && b.rule == rule && b.person == inp.person
    requires forall k :: 0 <= k < |b.candidates| ==> Lookup(inp.records, b.candidates[k].record.id) == Some(b.candidates[k].record)
    requires i < |ids| && j < |b.candidates| && ids[i] == b.candidates[j].record.id
    ensures var terms := TwoPass(inp.t, rule, inp.person, RecordsOf(inp.records, ids))[i];
            Decide(inp.t, b).entries[j].terms == terms && Decide(inp.t, b).entries[j].score == Score(rule, terms)
  {
    hide TwoPass, Score, Lookup, RunVerdict;
    var others := BundleIds(b);
    assert Records(b.candidates) == RecordsOf(inp.records, others);
    RecordsOfPermutation(inp.records, ids, others);
    ScoresIgnoreOrder(inp.t, rule, inp.person, RecordsOf(inp.records, ids), Records(b.candidates), i, j);
  }

  /** The scoring stage's commit is right before the dispose stage's. */
  lemma {:induction false} ScoreCommit(inp: Inputs, log: seq<Commit<Row>>, row: Row) returns (l: nat)
    requires ScreeningLog(inp, log) && row.ScoreRow? && row in LogRows(log)
    ensures l < |log| && row in log[l].effect.rows
  {
    hide CommitsAsScreening, LogRows;
    NoLogRows();
    var n := |log| - 1;
    LogRowsSplit(log);
    if row in log[n].effect.rows {
      l := n;
    } else {
      l := ScoreCommit(inp, log[..n], row);
    }
  }

  lemma ScoreRowIsScoring(inp: Inputs, c: Commit<Row>, row: Row) returns (rule: Rule, ids: seq<string>, i: nat)
    requires CommitsAsScreening(inp, c) && row.ScoreRow? && row in c.effect.rows
    ensures c.stage == SCORE && ScoresAs(inp, c.view.rows, rule, ids, c.effect.rows)
    ensures i < |ids| && ids[i] == row.recordId
    ensures var terms := TwoPass(inp.t, rule, inp.person, RecordsOf(inp.records, ids))[i]; row.terms == terms && row.score == Score(rule, terms)
  {
    hide Decide, IsBundle, Coverage, TwoPass, Score, ScoresAs, Reports;
    if c.stage == BLOCK && !NoLists(inp) {
      CandidatesAreUnique(inp, c.effect.rows);
    }
    hide IsBlocking, IsDisposing;
    rule, ids :| ScoresAs(inp, c.view.rows, rule, ids, c.effect.rows);
    i := PlaceOfScore(inp, c.view.rows, rule, ids, c.effect.rows, row);
  }

  lemma PlaceOfScore(inp: Inputs, before: seq<Row>, rule: Rule, ids: seq<string>, rows: seq<Row>, row: Row) returns (i: nat)
    requires ScoresAs(inp, before, rule, ids, rows) && row.ScoreRow? && row in rows
    ensures i < |ids| && ids[i] == row.recordId
    ensures var terms := TwoPass(inp.t, rule, inp.person, RecordsOf(inp.records, ids))[i]; row.terms == terms && row.score == Score(rule, terms)
  {
    hide TwoPass, Score;
    var m :| 0 <= m < |rows| && rows[m] == row;
    i := m - 1;
  }

  lemma {:induction false} NoNewCandidates(rows: seq<Row>, more: seq<Row>)
    requires forall k :: 0 <= k < |more| ==> !more[k].CandidateRow?
    ensures CandidateIds(rows + more) == CandidateIds(rows)
    decreases |more|
  {
    if more == [] {
      assert rows + more == rows;
    } else {
      var n := |more| - 1;
      assert (rows + more)[..|rows + more| - 1] == rows + more[..n];
      NoNewCandidates(rows, more[..n]);
    }
  }

  /** Every score the scoring stage stored is the score the decision gives that candidate, whatever
      orders the two stages read the candidates in. */
  lemma ScoresAgree(cfg: Config, clock: real, steps: seq<Step<Row>>, inp: Inputs, d: Decision, row: Row, j: nat)
    requires IsScreening(cfg) && Schedule(cfg, Init(clock), steps, false)
    requires RunsScreening(inp, steps, Reached(cfg, clock, steps).log)
    requires DecisionRow(d) in Reached(cfg, clock, steps).db.rows
    requires row.ScoreRow? && row in Reached(cfg, clock, steps).db.rows
    requires j < |d.entries| && d.entries[j].recordId == row.recordId
    ensures d.entries[j].score == row.score && d.entries[j].terms == row.terms
  {
    ReachedScreening(cfg, clock, steps, inp);
    hide Inv, HistoryInv;
    ScoresAgreeInState(Reached(cfg, clock, steps), inp, d, row, j);
  }

  lemma ScoresAgreeInState(s: State<Row>, inp: Inputs, d: Decision, row: Row, j: nat)
    requires LogTellsAll(s) && InStageOrder(s.log) && ScreeningLog(inp, s.log)
    requires DecisionRow(d) in s.db.rows && row.ScoreRow? && row in s.db.rows
    requires j < |d.entries| && d.entries[j].recordId == row.recordId
    ensures d.entries[j].score == row.score && d.entries[j].terms == row.terms
  {
    hide LogRows, Decide, IsBundle, TwoPass, CommitsAsScreening, ScoresAs;
    var k, b := DecisionBundle(inp, s, d);
    var l := ScoreCommit(inp, s.log, row);
    assert CommitsAsScreening(inp, s.log[l]);
    var rule, ids, i := ScoreRowIsScoring(inp, s.log[l], row);
    assert l != k && s.log[l].stage == SCORE;
    StagesSpread(s.log, l, k);
    assert l == k - 1;
    LogRowsSplit(s.log[..k]);
    assert s.log[..k][..l] == s.log[..l];
    assert s.log[k].view.rows == s.log[l].view.rows + s.log[l].effect.rows;
    SameScore(inp, s.log[l].view.rows, s.log[l].effect.rows, rule, ids, b, i, d, j);
  }

  lemma SameScore(inp: Inputs, before: seq<Row>, rows: seq<Row>, rule: Rule, ids: seq<string>, b: Bundle, i: nat, d: Decision, j: nat)
    requires ScoresAs(inp, before, rule, ids, rows) && IsBundle(inp, before + rows, b) && d == Decide(inp.t, b)
    requires i < |ids| && j < |d.entries| && d.entries[j].recordId == ids[i]
    ensures var terms := TwoPass(inp.t, rule, inp.person, RecordsOf(inp.records, ids))[i];
            d.entries[j].terms == terms && d.entries[j].score == Score(rule, terms)
  {
    hide TwoPass, Score, RunVerdict;
    NoNewCandidates(before, rows);
    assert (before + rows)[|before|] == RuleRow(rule);
    SameTerms(inp, rule, ids, b, i, j);
  }

  // ----- The explanation

  /** The explanation never drifts: whatever the orchestrator did after the decision was written,
      the failure path included, recomputing bands and verdict from the stored decision and the
      run's current availability gives what was stored. */
  lemma ExplanationNeverDrifts(cfg: Config, clock: real, steps: seq<Step<Row>>, inp: Inputs, d: Decision)
    requires IsScreening(cfg) && Schedule(cfg, Init(clock), steps, false)
    requires RunsScreening(inp, steps, Reached(cfg, clock, steps).log)
    requires DecisionRow(d) in Reached(cfg, clock, steps).db.rows
    ensures ExplainsItself(d, Reached(cfg, clock, steps).db.availability - {"dispose"})
  {
    var s := Reached(cfg, clock, steps);
    ReachedScreening(cfg, clock, steps, inp);
    hide Inv, HistoryInv;
    var k, b := DecisionBundle(inp, s, d);
    DecisionExplainsItself(inp.t, b);
    StatusesStay(cfg, s, inp, k);
  }

  lemma StatusesStay(cfg: Config, s: State<Row>, inp: Inputs, k: nat)
    requires IsScreening(cfg) && HistoryInv(cfg, s) && InStageOrder(s.log) && ScreeningLog(inp, s.log)
    requires k < |s.log| && s.log[k].stage == DISPOSE
    ensures s.log[k].view.availability - {"dispose"} == s.db.availability - {"dispose"}
  {
    DisposeSaw(cfg, s, k);
    assert LogEntryHistory(cfg, s, k);
    NoCoverageAfter(inp, s.log, k);
    hide HistoryInv, InStageOrder, ScreeningLog;
    SameButDispose(cfg, s.log[k].view.availability, s.db.availability);
  }

  lemma NoCoverageAfter(inp: Inputs, log: seq<Commit<Row>>, k: nat)
    requires InStageOrder(log) && ScreeningLog(inp, log) && k < |log| && log[k].stage == DISPOSE
    ensures CoverageOf(log) == CoverageOf(log[..k])
  {
    hide IsBlocking, IsScoring, IsDisposing, Coverage, Reports;
    assert k == |log| - 1 by {
      assert log[|log| - 1].stage <= DISPOSE;
    }
    assert CommitsAsScreening(inp, log[k]);
    assert CoverageOf(log) == CoverageOf(log[..k]) + map[];
  }

  lemma SameButDispose(cfg: Config, a: Availability, b: Availability)
    requires IsScreening(cfg) && NonStage(cfg, a) == NonStage(cfg, b)
    requires forall j :: 0 <= j < 2 ==> cfg.stages[j].name in a && cfg.stages[j].name in b && a[cfg.stages[j].name] == b[cfg.stages[j].name]
    ensures a - {"dispose"} == b - {"dispose"}
  {
    var x, y := a - {"dispose"}, b - {"dispose"};
    forall key ensures key in x <==> key in y {
      NamesOfStages(cfg, key);
      assert !IsStageName(cfg, key) ==> (key in a <==> key in NonStage(cfg, a)) && (key in b <==> key in NonStage(cfg, b));
    }
    forall key | key in x ensures x[key] == y[key] {
      NamesOfStages(cfg, key);
      if !IsStageName(cfg, key) {
        assert NonStage(cfg, a)[key] == NonStage(cfg, b)[key];
      }
    }
  }

  lemma NamesOfStages(cfg: Config, key: string)
    requires IsScreening(cfg)
    ensures IsStageName(cfg, key) <==> key == cfg.stages[0].name || key == cfg.stages[1].name || key == "dispose"
  {
    assert cfg.stages[2].name == "dispose";
  }
}
