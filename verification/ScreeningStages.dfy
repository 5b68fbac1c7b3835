/**
The three screening stages (backend/app/screening/stages.py, dispose.py): what each one writes, as
a relation to what it reads.
*/
module ScreeningStages {
  import opened Wrappers
  import opened RunProtocol
  import opened Names
  import opened Ordering
  import opened Watchlist
  import opened Scoring
  import opened PairScoring
  import opened Blocking
  import opened Dispose

  /** What the stages write into the run: candidates, the pinned rule, scores, the decision. */
  datatype Row =
    | CandidateRow(recordId: string, keys: seq<string>)
    | RuleRow(rule: Rule)
    | ScoreRow(recordId: string, score: int, terms: seq<Term>)
    | DecisionRow(decision: Decision)

  /** What one run is about: the pinned tables, the subject, the current records of all lists, and
      the required lists. */
  datatype Inputs = Inputs(t: Tables, person: Person, records: seq<WatchRecord>, required: seq<string>, lists: Lists)

  // ----- List coverage

  /** The lists the blocking stage found: when each source's latest snapshot was retrieved, the
      time of the check and the oldest age allowed. */
  datatype Lists = Lists(retrievedAt: map<string, real>, now: real, maxAge: real) {
    predicate Fresh(source: string) {
      source in retrievedAt && now - retrievedAt[source] <= maxAge
    }
  }

  function Key(source: string): string {
    "list:" + source
  }

  function Coverage(required: seq<string>, lists: Lists): map<string, StageStatus> {
    if required == [] then map[]
    else
      var last := required[|required| - 1];
      Coverage(required[..|required| - 1], lists)[Key(last) := if lists.Fresh(last) then Complete else Unavailable]
  }

  /** `list_coverage`: one entry per required list. */
  method ListCoverage(required: seq<string>, lists: Lists) returns (coverage: map<string, StageStatus>)
    ensures coverage == Coverage(required, lists)
  {
    coverage := map[];
    for i := 0 to |required|
      invariant coverage == Coverage(required[..i], lists)
    {
      assert required[..i + 1][..i] == required[..i];
      coverage := coverage[Key(required[i]) := if lists.Fresh(required[i]) then Complete else Unavailable];
    }
    assert required[..|required|] == required;
  }

  lemma KeyInjective(a: string, b: string)
    ensures Key(a) == Key(b) ==> a == b
  {
    assert Key(a)[5..] == a && Key(b)[5..] == b;
  }

  /** A required list is covered exactly when it is present and fresh; nothing else is reported. */
  lemma {:induction false} CoverageMeansFresh(required: seq<string>, lists: Lists)
    ensures forall source :: source in required ==>
              && "list:" + source in Coverage(required, lists)
              && (Coverage(required, lists)["list:" + source] == Complete
                  <==> source in lists.retrievedAt && lists.now - lists.retrievedAt[source] <= lists.maxAge)
    ensures forall key :: key in Coverage(required, lists) ==>
              Coverage(required, lists)[key] != Pending && exists source :: source in required && key == "list:" + source
  {
    if required != [] {
      var n := |required| - 1;
      CoverageMeansFresh(required[..n], lists);
      forall source | source in required
        ensures Key(source) in Coverage(required, lists) && (Coverage(required, lists)[Key(source)] == Complete <==> lists.Fresh(source))
      {
        KeyInjective(source, required[n]);
        if source != required[n] {
          assert source in required[..n];
        }
      }
    }
  }

  // ----- Blocking

  /** `subject_names`; the empty ones are skipped by the loop. */
  function SubjectNames(p: Person): seq<string> {
    [p.name, p.originalScript] + p.aliases
  }

  ghost predicate IsMatched(inp: Inputs, matched: map<string, set<string>>) {
    && (forall rid :: rid in matched <==>
          exists name :: name in SubjectNames(inp.person) && name != "" && FoundFor(inp.t.lib, inp.records, name, rid))
    && (forall rid, key :: Posted(matched, rid, key) <==>
          exists name :: name in SubjectNames(inp.person) && name != "" && FoundBy(inp.t.lib, inp.records, name, rid, key))
  }

  /** One candidate row per matched record, by id, with its keys in order. */
  ghost predicate Presents(matched: map<string, set<string>>, ids: seq<string>, rows: seq<Row>) {
    && IsSorting(ByString(), matched.Keys, ids) && |rows| == |ids|
    && forall k :: 0 <= k < |ids| ==> PresentsOne(matched, ids[k], rows[k])
  }

  ghost predicate PresentsOne(matched: map<string, set<string>>, id: string, row: Row) {
    row.CandidateRow? && row.recordId == id && id in matched && IsSorting(ByString(), matched[id], row.keys)
  }

  ghost predicate IsBlocking(inp: Inputs, rows: seq<Row>) {
    exists matched, ids :: IsMatched(inp, matched) && Presents(matched, ids, rows)
  }

  /** `BlockCandidatesStage.run`: the rows it adds. */
  method BlockCandidates(inp: Inputs) returns (rows: seq<Row>)
    ensures IsBlocking(inp, rows)
  {
    hide FoundFor, FoundBy, Posted, IsSorting, ByString;
    var index := BlockingIndex.Build(inp.t.lib, inp.records);
    var matched := BlockSubject(inp.t.lib, index, SubjectNames(inp.person), inp.records);
    assert IsMatched(inp, matched);
    ByStringIsOrder();
    var ids := Sort(ByString(), matched.Keys);
    SortedAreKeys(matched, ids);
    rows := [];
    for k := 0 to |ids|
      invariant |rows| == k && forall j :: 0 <= j < k ==> PresentsOne(matched, ids[j], rows[j])
    {
      var keys := Sort(ByString(), matched[ids[k]]);
      rows := rows + [CandidateRow(ids[k], keys)];
    }
    assert Presents(matched, ids, rows);
  }

  lemma SortedAreKeys(matched: map<string, set<string>>, ids: seq<string>)
    requires IsSorting(ByString(), matched.Keys, ids)
    ensures forall k :: 0 <= k < |ids| ==> ids[k] in matched
  {
    forall k | 0 <= k < |ids| ensures ids[k] in matched {
      assert ids[k] in ids;
    }
  }

  ghost predicate HasCandidate(rows: seq<Row>, rid: string) {
    exists k :: 0 <= k < |rows| && rows[k].CandidateRow? && rows[k].recordId == rid
  }

  /** The stage's recall: a record that matches a keyed name of the subject as a whole gets a
      candidate row. */
  lemma StageRecall(inp: Inputs, rows: seq<Row>, name: string, record: WatchRecord, variant: string)
    requires IsBlocking(inp, rows)
    requires name in SubjectNames(inp.person) && name != "" && HasKeyedToken(Tokens(inp.t.lib, name))
    requires record in inp.records && variant in record.names && WholeNameMatch(inp.t.lib, name, variant)
    ensures HasCandidate(rows, record.id)
  {
    WholeNameIsFound(inp.t.lib, inp.records, name, record, variant);
    hide FoundFor, FoundBy, WholeNameMatch;
    var matched, ids :| IsMatched(inp, matched) && Presents(matched, ids, rows);
    assert record.id in matched.Keys;
    var k :| 0 <= k < |ids| && ids[k] == record.id;
    assert PresentsOne(matched, ids[k], rows[k]);
  }

  /** No two candidate rows for one record. */
  lemma CandidatesAreUnique(inp: Inputs, rows: seq<Row>)
    requires IsBlocking(inp, rows)
    ensures forall k :: 0 <= k < |rows| ==> rows[k].CandidateRow?
    ensures forall i, j :: 0 <= i < j < |rows| ==> rows[i].recordId != rows[j].recordId
  {
    hide FoundFor, FoundBy;
    var matched, ids :| IsMatched(inp, matched) && Presents(matched, ids, rows);
    ByStringIsOrder();
    hide IsMatched;
    forall k | 0 <= k < |rows| ensures rows[k].CandidateRow? && rows[k].recordId == ids[k] {
      assert PresentsOne(matched, ids[k], rows[k]);
    }
    forall i, j | 0 <= i < j < |rows| ensures ids[i] != ids[j] {
      assert ByString()(ids[i], ids[j]);
    }
  }

  // ----- Scoring

  /** The record ids of the candidate rows. */
  function CandidateIds(rows: seq<Row>): seq<string> {
    if rows == [] then []
    else
      var last := rows[|rows| - 1];
      CandidateIds(rows[..|rows| - 1]) + if last.CandidateRow? then [last.recordId] else []
  }

  function Lookup(records: seq<WatchRecord>, id: string): (r: Option<WatchRecord>)
    ensures r.Some? ==> r.value in records && r.value.id == id
    ensures r.None? ==> forall x :: x in records ==> x.id != id
  {
    if records == [] then None else if records[0].id == id then Some(records[0]) else Lookup(records[1..], id)
  }

  predicate Known(records: seq<WatchRecord>, ids: seq<string>) {
    forall k :: 0 <= k < |ids| ==> Lookup(records, ids[k]).Some?
  }

  function RecordsOf(records: seq<WatchRecord>, ids: seq<string>): (found: seq<WatchRecord>)
    requires Known(records, ids)
    ensures |found| == |ids| && forall k :: 0 <= k < |ids| ==> found[k] == Lookup(records, ids[k]).value
  {
    seq(|ids|, k requires 0 <= k < |ids| => Lookup(records, ids[k]).value)
  }

  function ScoreRows(rule: Rule, ids: seq<string>, terms: seq<seq<Term>>): (rows: seq<Row>)
    requires |terms| == |ids|
    ensures |rows| == |ids|
  {
    seq(|ids|, k requires 0 <= k < |ids| => ScoreRow(ids[k], Score(rule, terms[k]), terms[k]))
  }

  ghost predicate ScoresAs(inp: Inputs, before: seq<Row>, rule: Rule, ids: seq<string>, rows: seq<Row>) {
    && multiset(ids) == multiset(CandidateIds(before)) && Known(inp.records, ids)
    && rows == [RuleRow(rule)] + ScoreRows(rule, ids, TwoPass(inp.t, rule, inp.person, RecordsOf(inp.records, ids)))
  }

  /** All candidates of the run, in whatever order the query gives them, under one rule. */
  ghost predicate IsScoring(inp: Inputs, before: seq<Row>, rows: seq<Row>) {
    exists rule, ids :: ScoresAs(inp, before, rule, ids, rows)
  }

  /** `ScoreCandidatesStage.run`: the rule it pins and the scores it stores. */
  method ScoreStage(inp: Inputs, ghost before: seq<Row>, rule: Rule, ids: seq<string>) returns (rows: seq<Row>)
    requires multiset(ids) == multiset(CandidateIds(before)) && Known(inp.records, ids)
    ensures ScoresAs(inp, before, rule, ids, rows)
  {
    hide TwoPass, Score;
    var scores, terms, top := ScoreCandidates(inp.t, rule, inp.person, RecordsOf(inp.records, ids));
    rows := [RuleRow(rule)];
    for k := 0 to |ids|
      invariant rows == [RuleRow(rule)] + ScoreRows(rule, ids, terms)[..k]
    {
      rows := rows + [ScoreRow(ids[k], scores[k], terms[k])];
    }
  }

  // ----- Disposing

  function BundleIds(b: Bundle): (ids: seq<string>)
    ensures |ids| == |b.candidates|
    ensures forall k :: 0 <= k < |ids| ==> ids[k] == b.candidates[k].record.id
  {
    seq(|b.candidates|, k requires 0 <= k < |b.candidates| => b.candidates[k].record.id)
  }

  /** The bundle of a run: its subject, all its candidates by record id, each with its record, and
      the rule the scoring stage pinned, if it did. */
  ghost predicate IsBundle(inp: Inputs, rows: seq<Row>, b: Bundle) {
    && b.person == inp.person
    && multiset(BundleIds(b)) == multiset(CandidateIds(rows))
    && (forall i, j :: 0 <= i < j < |b.candidates| ==> !StringLess(b.candidates[j].record.id, b.candidates[i].record.id))
    && (forall k :: 0 <= k < |b.candidates| ==> Lookup(inp.records, b.candidates[k].record.id) == Some(b.candidates[k].record))
    && (forall k :: 0 <= k < |rows| && rows[k].RuleRow? ==> b.rule == rows[k].rule)
  }

  /** `DisposeStage.run`: one decision, on the bundle read, without its own status. */
  ghost predicate IsDisposing(inp: Inputs, view: RunDb<Row>, rows: seq<Row>) {
    exists b :: IsBundle(inp, view.rows, b) && b.status == view.availability - {"dispose"} && rows == [DecisionRow(Decide(inp.t, b))]
  }
}
