/**
Incremental monitoring: the snapshot diff (backend/app/lists/delta.py) and the re-screening of
subjects against only what changed (backend/app/screening/monitor.py).
*/
module Monitoring {
  import opened Wrappers
  import opened Names
  import opened Watchlist
  import opened Ordering
  import opened Blocking

  // ----- The diff

  /** `_by_entry`: a later record of the same entry replaces an earlier one. */
  function ByEntry(records: seq<WatchRecord>): (m: map<string, WatchRecord>)
    ensures forall e :: e in m ==> m[e] in records && m[e].entryId == e
    ensures forall r :: r in records ==> r.entryId in m
  {
    if records == [] then map[]
    else
      var last := records[|records| - 1];
      ByEntry(records[..|records| - 1])[last.entryId := last]
  }

  /** The attributes screening compares differ. */
  predicate Differs(a: WatchRecord, b: WatchRecord) {
    a.names != b.names || a.dobs != b.dobs || a.pobs != b.pobs
    || a.nationalities != b.nationalities || a.documents != b.documents
  }

  predicate IsAdded(prev: map<string, WatchRecord>, next: map<string, WatchRecord>, e: string) {
    e in next && e !in prev
  }

  predicate IsChanged(prev: map<string, WatchRecord>, next: map<string, WatchRecord>, e: string) {
    e in next && e in prev && Differs(next[e], prev[e])
  }

  datatype Delta = Delta(added: seq<string>, changed: seq<string>, removed: seq<string>, newRecords: seq<WatchRecord>)

  function Added(prev: map<string, WatchRecord>, next: map<string, WatchRecord>): set<string> {
    set e | e in next && IsAdded(prev, next, e)
  }

  function Changed(prev: map<string, WatchRecord>, next: map<string, WatchRecord>): set<string> {
    set e | e in next && IsChanged(prev, next, e)
  }

  /** What the diff must report: each list sorted and complete, and exactly the records that were
      added or changed, in entry order. */
  ghost predicate IsDelta(prev: map<string, WatchRecord>, next: map<string, WatchRecord>, d: Delta) {
    && IsSorting(ByString(), Added(prev, next), d.added)
    && IsSorting(ByString(), Changed(prev, next), d.changed)
    && IsSorting(ByString(), prev.Keys - next.Keys, d.removed)
    && Lists(Added(prev, next) + Changed(prev, next), next, d.newRecords)
  }

  /** `records` are the new snapshot's records of these entries, in entry order. */
  ghost predicate Lists(entries: set<string>, next: map<string, WatchRecord>, records: seq<WatchRecord>) {
    exists order :: ListsAs(entries, next, records, order)
  }

  ghost predicate ListsAs(entries: set<string>, next: map<string, WatchRecord>, records: seq<WatchRecord>, order: seq<string>) {
    && IsSorting(ByString(), entries, order) && |order| == |records|
    && forall k :: 0 <= k < |order| ==> order[k] in next && records[k] == next[order[k]]
  }

  /** Two records of one entry differ in what is compared exactly when they differ in anything but
      their row ids. */
  lemma DiffersMeans(a: WatchRecord, b: WatchRecord)
    requires a.entryId == b.entryId
    ensures Differs(a, b) <==> a.(id := b.id) != b
  {
  }

  /** An entry of both snapshots is reported as changed if and only if its two records differ in
      anything besides the row id; the others by being in one snapshot only. */
  lemma ReportedExactly(prev: map<string, WatchRecord>, next: map<string, WatchRecord>, d: Delta, e: string)
    requires WellKeyed(prev) && WellKeyed(next) && IsDelta(prev, next, d)
    ensures e in d.changed <==> e in prev && e in next && next[e].(id := prev[e].id) != prev[e]
    ensures e in d.added <==> e in next && e !in prev
    ensures e in d.removed <==> e in prev && e !in next
  {
    if e in prev && e in next {
      DiffersMeans(next[e], prev[e]);
    }
    hide Differs;
  }

  /** `diff_snapshots`. */
  method DiffSnapshots(oldRecords: seq<WatchRecord>, newRecords: seq<WatchRecord>) returns (d: Delta)
    ensures IsDelta(ByEntry(oldRecords), ByEntry(newRecords), d)
    ensures forall e :: e in d.changed <==>
              e in ByEntry(oldRecords) && e in ByEntry(newRecords)
              && ByEntry(newRecords)[e].(id := ByEntry(oldRecords)[e].id) != ByEntry(oldRecords)[e]
    ensures forall e :: e in d.added <==> e in ByEntry(newRecords) && e !in ByEntry(oldRecords)
    ensures forall e :: e in d.removed <==> e in ByEntry(oldRecords) && e !in ByEntry(newRecords)
  {
    var prev, next := ByEntry(oldRecords), ByEntry(newRecords);
    ByStringIsOrder();
    var order := Sort(ByString(), next.Keys);
    var added, changed, records := SplitEntries(prev, next, order);
    var removed := Sort(ByString(), prev.Keys - next.Keys);
    d := Delta(added, changed, removed, records);
    forall e ensures (e in d.changed <==> e in prev && e in next && next[e].(id := prev[e].id) != prev[e])
                     && (e in d.added <==> e in next && e !in prev) && (e in d.removed <==> e in prev && e !in next) {
      ReportedExactly(prev, next, d, e);
    }
  }

  /** The one pass over the new snapshot's entries in order. */
  method SplitEntries(prev: map<string, WatchRecord>, next: map<string, WatchRecord>, order: seq<string>)
    returns (added: seq<string>, changed: seq<string>, records: seq<WatchRecord>)
    requires IsSorting(ByString(), next.Keys, order)
    ensures IsSorting(ByString(), Added(prev, next), added)
    ensures IsSorting(ByString(), Changed(prev, next), changed)
    ensures Lists(Added(prev, next) + Changed(prev, next), next, records)
  {
    hide Differs;
    added, changed, records := [], [], [];
    ghost var entries: seq<string> := [];
    ghost var seen: set<string> := {};
    for i := 0 to |order|
      invariant seen == set k | 0 <= k < i :: order[k]
      invariant IsSorting(ByString(), Added(prev, next) * seen, added)
      invariant IsSorting(ByString(), Changed(prev, next) * seen, changed)
      invariant ListsAs((Added(prev, next) + Changed(prev, next)) * seen, next, records, entries)
    {
      var e := order[i];
      assert e in next.Keys;
      assert forall x :: x in seen ==> ByString()(x, e);
      if e !in prev {
        AppendSorting(Added(prev, next), seen, e, added);
        added := added + [e];
      } else if Differs(next[e], prev[e]) {
        AppendSorting(Changed(prev, next), seen, e, changed);
        changed := changed + [e];
      }
      if e !in prev || Differs(next[e], prev[e]) {
        AppendSorting(Added(prev, next) + Changed(prev, next), seen, e, entries);
        records, entries := records + [next[e]], entries + [e];
      }
      SkipEntry(Added(prev, next), seen, e);
      SkipEntry(Changed(prev, next), seen, e);
      SkipEntry(Added(prev, next) + Changed(prev, next), seen, e);
      seen := seen + {e};
    }
    assert forall e :: e in next ==> e in seen by {
      assert forall e :: e in next.Keys ==> e in order;
    }
    assert Added(prev, next) * seen == Added(prev, next);
    assert Changed(prev, next) * seen == Changed(prev, next);
    assert (Added(prev, next) + Changed(prev, next)) * seen == Added(prev, next) + Changed(prev, next);
  }

  lemma SkipEntry(target: set<string>, seen: set<string>, e: string)
    ensures e !in target ==> target * (seen + {e}) == target * seen
  {
  }

  lemma AppendSorting(target: set<string>, seen: set<string>, e: string, q: seq<string>)
    requires IsSorting(ByString(), target * seen, q) && e in target
    requires forall x :: x in seen ==> ByString()(x, e)
    ensures IsSorting(ByString(), target * (seen + {e}), q + [e])
  {
    hide ByString;
    var r := q + [e];
    forall x ensures x in target * (seen + {e}) <==> x in r {
      assert r[|q|] == e;
    }
    forall k | 0 <= k < |q| ensures ByString()(q[k], e) {
      assert q[k] in q;
    }
  }

  // ----- Re-screening

  /** `names` are the subject's readable names; None when the record is shredded or undecryptable. */
  datatype Subject = Subject(id: string, shredded: bool, ended: bool, names: Option<seq<string>>)

  datatype Run = Run(id: string, subject: string, createdAt: int, snapshot: Option<string>, prior: Option<string>)

  predicate Active(s: Subject) {
    !s.shredded && !s.ended && s.names.Some?
  }

  /** Some changed record shares a key with one of the subject's names. */
  ghost predicate IsHit(lib: Library, changed: seq<WatchRecord>, s: Subject) {
    Active(s) && exists n, r :: n in s.names.value && n != "" && r in changed && SharesKey(lib, r, n)
  }

  ghost function Due(lib: Library, changed: seq<WatchRecord>, subjects: seq<Subject>): seq<string> {
    if subjects == [] then []
    else
      var n := |subjects| - 1;
      Due(lib, changed, subjects[..n]) + (if IsHit(lib, changed, subjects[n]) then [subjects[n].id] else [])
  }

  /** `a` comes after `b` in `created_at desc, id desc`. */
  predicate Older(a: Run, b: Run) {
    a.createdAt < b.createdAt || (a.createdAt == b.createdAt && StringLess(a.id, b.id))
  }

  lemma OlderTransitive(a: Run, b: Run, c: Run)
    requires Older(a, b) && Older(b, c)
    ensures Older(a, c)
  {
    if a.createdAt == b.createdAt == c.createdAt {
      StringLessTransitive(a.id, b.id, c.id);
    }
  }

  /** Among the first `n` runs: one of the subject's to which none is newer. */
  predicate IsLatestRun(runs: seq<Run>, n: nat, subject: string, latest: Option<nat>)
    requires n <= |runs|
  {
    match latest
    case None => forall k :: 0 <= k < n ==> runs[k].subject != subject
    case Some(p) =>
      && p < n && runs[p].subject == subject
      && forall k :: 0 <= k < n && runs[k].subject == subject ==>
           !Older(runs[p], runs[k])
  }

  lemma NewerTakesOver(runs: seq<Run>, k: nat, subject: string, latest: Option<nat>)
    requires k < |runs| && runs[k].subject == subject && IsLatestRun(runs, k, subject, latest)
    requires latest.Some? ==> Older(runs[latest.value], runs[k])
    ensures IsLatestRun(runs, k + 1, subject, Some(k))
  {
    forall j | 0 <= j < k + 1 && runs[j].subject == subject ensures !Older(runs[k], runs[j]) {
      if j == k {
        StringLessTotal(runs[k].id, runs[k].id);
      } else if Older(runs[k], runs[j]) {
        OlderTransitive(runs[latest.value], runs[k], runs[j]);
      }
    }
  }

  class RunTable {
    var runs: seq<Run>

    constructor ()
      ensures runs == []
    {
      runs := [];
    }

    /** The query for the subject's prior run. */
    method LatestRun(subject: string) returns (prior: Option<nat>)
      ensures IsLatestRun(runs, |runs|, subject, prior)
    {
      hide Older;
      prior := None;
      for k := 0 to |runs|
        invariant IsLatestRun(runs, k, subject, prior)
      {
        if runs[k].subject == subject && (prior.None? || Older(runs[prior.value], runs[k])) {
          NewerTakesOver(runs, k, subject, prior);
          prior := Some(k);
        }
      }
    }

    /** `any(index.candidates(n) for n in subject_names(pii))`. */
    method AnyCandidate(lib: Library, index: BlockingIndex, names: seq<string>, ghost changed: seq<WatchRecord>) returns (hit: bool)
      requires index.Holds(Pairs(lib, changed))
      ensures hit <==> exists n, r :: n in names && n != "" && r in changed && SharesKey(lib, r, n)
    {
      hide SharesKey;
      for i := 0 to |names|
        invariant forall n, r :: n in names[..i] && n != "" && r in changed ==> !SharesKey(lib, r, n)
      {
        assert names[..i + 1] == names[..i] + [names[i]];
        if names[i] != "" {
          var out := index.Candidates(lib, names[i], DEFAULT_CAP, changed);
          FindsSomething(lib, changed, names[i], DEFAULT_CAP, out);
          if out != [] {
            return true;
          }
        }
      }
      assert names[..|names|] == names;
      return false;
    }

    /** `rescreen_for_snapshot`: a monitoring run for every active subject the delta hits. */
    method Rescreen(lib: Library, oldRecords: seq<WatchRecord>, newRecords: seq<WatchRecord>,
                    snapshot: string, now: int, newId: nat -> string, subjects: seq<Subject>) returns (created: seq<Run>, d: Delta)
      modifies this
      ensures IsDelta(ByEntry(oldRecords), ByEntry(newRecords), d)
      ensures runs == old(runs) + created
      ensures RunsFor(old(runs), created, Due(lib, d.newRecords, subjects), snapshot, now, newId)
    {
      d := DiffSnapshots(oldRecords, newRecords);
      var index := BlockingIndex.Build(lib, d.newRecords);
      created := ScreenSubjects(lib, index, d.newRecords, snapshot, now, newId, subjects);
    }

    method ScreenSubjects(lib: Library, index: BlockingIndex, ghost changed: seq<WatchRecord>,
                          snapshot: string, now: int, newId: nat -> string, subjects: seq<Subject>) returns (created: seq<Run>)
      requires index.Holds(Pairs(lib, changed))
      modifies this
      ensures runs == old(runs) + created
      ensures RunsFor(old(runs), created, Due(lib, changed, subjects), snapshot, now, newId)
    {
      hide SharesKey, Pairs, RunsFor;
      NoRuns(runs, snapshot, now, newId);
      created := [];
      for i := 0 to |subjects|
        invariant index.Holds(Pairs(lib, changed))
        invariant runs == old(runs) + created
        invariant RunsFor(old(runs), created, Due(lib, changed, subjects[..i]), snapshot, now, newId)
      {
        var s := subjects[i];
        var hit := false;
        if Active(s) {
          hit := AnyCandidate(lib, index, s.names.value, changed);
        }
        assert hit == IsHit(lib, changed, s);
        OneMoreSubject(lib, changed, subjects, i);
        assert !hit ==> Due(lib, changed, subjects[..i + 1]) == Due(lib, changed, subjects[..i]);
        if hit {
          var prior := LatestRun(s.id);
          var run := Run(newId(|runs|), s.id, now, Some(snapshot), if prior.Some? then Some(runs[prior.value].id) else None);
          assert IsLatestRun(runs, |runs|, s.id, prior);
          OneMoreRun(old(runs), created, Due(lib, changed, subjects[..i]), snapshot, now, newId, run, s.id);
          runs := runs + [run];
          created := created + [run];
        }
      }
      assert subjects[..|subjects|] == subjects;
    }
  }

  /** One run for each due subject, in order, for this snapshot, linked to the subject's latest run
      so far. */
  ghost predicate RunsFor(before: seq<Run>, created: seq<Run>, due: seq<string>, snapshot: string, now: int, newId: nat -> string) {
    |created| == |due| &&
    forall k :: 0 <= k < |created| ==> RunFor(before + created[..k], created[k], due[k], snapshot, now, newId)
  }

  ghost predicate RunFor(before: seq<Run>, run: Run, subject: string, snapshot: string, now: int, newId: nat -> string) {
    && run.id == newId(|before|) && run.subject == subject && run.snapshot == Some(snapshot) && run.createdAt == now
    && exists latest: Option<nat> :: IsLatestRun(before, |before|, subject, latest)
                        && run.prior == if latest.Some? then Some(before[latest.value].id) else None
  }

  lemma NoRuns(before: seq<Run>, snapshot: string, now: int, newId: nat -> string)
    ensures RunsFor(before, [], [], snapshot, now, newId)
  {
  }

  lemma OneMoreRun(before: seq<Run>, created: seq<Run>, due: seq<string>, snapshot: string, now: int, newId: nat -> string, run: Run, subject: string)
    requires RunsFor(before, created, due, snapshot, now, newId) && RunFor(before + created, run, subject, snapshot, now, newId)
    ensures RunsFor(before, created + [run], due + [subject], snapshot, now, newId)
  {
    hide RunFor;
    forall k | 0 <= k < |created| + 1 ensures RunFor(before + (created + [run])[..k], (created + [run])[k], (due + [subject])[k], snapshot, now, newId) {
      assert (created + [run])[..k] == created[..k];
      assert created[..|created|] == created;
    }
  }

  lemma OneMoreSubject(lib: Library, changed: seq<WatchRecord>, subjects: seq<Subject>, i: nat)
    requires i < |subjects|
    ensures Due(lib, changed, subjects[..i + 1]) ==
            Due(lib, changed, subjects[..i]) + (if IsHit(lib, changed, subjects[i]) then [subjects[i].id] else [])
  {
    assert subjects[..i + 1][..i] == subjects[..i];
  }

  /** Who is due: the hit subjects. */
  lemma {:induction false} DueExactly(lib: Library, changed: seq<WatchRecord>, subjects: seq<Subject>, id: string)
    ensures id in Due(lib, changed, subjects) <==> exists s :: s in subjects && s.id == id && IsHit(lib, changed, s)
    decreases |subjects|
  {
    hide IsHit;
    if subjects != [] {
      var n := |subjects| - 1;
      DueExactly(lib, changed, subjects[..n], id);
      assert subjects == subjects[..n] + [subjects[n]];
    }
  }

  /** One run for every hit subject. */
  lemma {:induction false} DueCounts(lib: Library, changed: seq<WatchRecord>, subjects: seq<Subject>)
    ensures |Due(lib, changed, subjects)| == |set i: nat | i < |subjects| && IsHit(lib, changed, subjects[i])|
    decreases |subjects|
  {
    hide IsHit;
    if subjects == [] {
      NobodyDue(lib, changed, subjects);
    } else {
      var n := |subjects| - 1;
      DueCounts(lib, changed, subjects[..n]);
      var fewer := set i: nat | i < |subjects[..n]| && IsHit(lib, changed, subjects[..n][i]);
      assert (set i: nat | i < |subjects| && IsHit(lib, changed, subjects[i])) ==
             if IsHit(lib, changed, subjects[n]) then fewer + {n} else fewer;
    }
  }

  lemma NobodyDue(lib: Library, changed: seq<WatchRecord>, subjects: seq<Subject>)
    requires |subjects| == 0
    ensures (set i: nat | i < |subjects| && IsHit(lib, changed, subjects[i])) == {}
  {
  }

  // ----- Incremental equals full

  /** The entry is new, or a compared attribute of it changed. */
  predicate InDelta(prev: map<string, WatchRecord>, next: map<string, WatchRecord>, e: string) {
    IsAdded(prev, next, e) || IsChanged(prev, next, e)
  }

  lemma DeltaRecords(prev: map<string, WatchRecord>, next: map<string, WatchRecord>, d: Delta)
    requires IsDelta(prev, next, d)
    ensures forall r :: r in d.newRecords <==> exists e :: InDelta(prev, next, e) && next[e] == r
  {
    hide Differs;
    var order :| ListsAs(Added(prev, next) + Changed(prev, next), next, d.newRecords, order);
    forall r ensures r in d.newRecords <==> exists e :: InDelta(prev, next, e) && next[e] == r {
      if r in d.newRecords {
        var k :| 0 <= k < |d.newRecords| && d.newRecords[k] == r;
        assert order[k] in order;
        assert InDelta(prev, next, order[k]);
      }
      if e :| InDelta(prev, next, e) && next[e] == r {
        assert e in Added(prev, next) + Changed(prev, next);
        var k :| 0 <= k < |order| && order[k] == e;
        assert d.newRecords[k] == r;
      }
    }
  }

  /** A subject gets a monitoring run exactly when it is active and readable and one of its names
      shares a key with an entry that is new or whose compared attributes changed. */
  lemma MonitoringHitsExactly(lib: Library, prev: map<string, WatchRecord>, next: map<string, WatchRecord>, d: Delta, s: Subject)
    requires IsDelta(prev, next, d)
    ensures IsHit(lib, d.newRecords, s) <==>
            Active(s) && exists n, e :: n in s.names.value && n != "" && InDelta(prev, next, e) && SharesKey(lib, next[e], n)
  {
    hide SharesKey, Differs;
    DeltaRecords(prev, next, d);
    if IsHit(lib, d.newRecords, s) {
      var n, r :| n in s.names.value && n != "" && r in d.newRecords && SharesKey(lib, r, n);
      var e :| InDelta(prev, next, e) && next[e] == r;
    }
  }

  /** The entries of a snapshot a full rebuild of the index would hit for a name. */
  ghost function FullHits(lib: Library, next: map<string, WatchRecord>, name: string): set<string> {
    set e | e in next && SharesKey(lib, next[e], name)
  }

  /** Full re-blocking finds what the delta finds, plus unchanged entries it had found before. */
  lemma FullIsDeltaPlusUnchanged(lib: Library, prev: map<string, WatchRecord>, next: map<string, WatchRecord>, name: string)
    ensures FullHits(lib, next, name) ==
            (set e | e in next && InDelta(prev, next, e) && SharesKey(lib, next[e], name))
            + (set e | e in FullHits(lib, prev, name) && e in next && !InDelta(prev, next, e))
  {
    forall e | e in next && e in prev && !InDelta(prev, next, e)
      ensures SharesKey(lib, next[e], name) <==> SharesKey(lib, prev[e], name)
    {
      assert next[e].names == prev[e].names;
    }
  }

  predicate UniqueEntries(records: seq<WatchRecord>) {
    forall i, j :: 0 <= i < j < |records| ==> records[i].entryId != records[j].entryId
  }

  lemma UniqueByEntry(records: seq<WatchRecord>)
    requires UniqueEntries(records)
    ensures forall r :: r in records ==> ByEntry(records)[r.entryId] == r
  {
    hide ByEntry;
    forall r | r in records ensures ByEntry(records)[r.entryId] == r {
      var k :| 0 <= k < |records| && records[k] == r;
      assert IsLastAt(records, k);
      ByEntryIsLast(records, r);
    }
  }

  /** The record is not in the previous snapshot, or differs from its entry there in anything but the
      row id. */
  ghost predicate IsNews(oldRecords: seq<WatchRecord>, r: WatchRecord) {
    forall p :: p in oldRecords && p.entryId == r.entryId ==> r.(id := p.id) != p
  }

  /** With entry ids unique in each snapshot: an active, readable subject is re-screened if and
      only if some record of the new snapshot that is absent from the previous one, or differs
      from it in a compared attribute, shares a key with one of its names. */
  lemma MonitoringMatchesSnapshots(lib: Library, oldRecords: seq<WatchRecord>, newRecords: seq<WatchRecord>, d: Delta, s: Subject)
    requires UniqueEntries(oldRecords) && UniqueEntries(newRecords)
    requires IsDelta(ByEntry(oldRecords), ByEntry(newRecords), d)
    ensures IsHit(lib, d.newRecords, s) <==>
            !s.shredded && !s.ended && s.names.Some?
            && exists n, r :: n in s.names.value && n != "" && r in newRecords && IsNews(oldRecords, r) && SharesKey(lib, r, n)
  {
    NewRecordsAreNews(oldRecords, newRecords, d);
    hide SharesKey, IsNews, IsDelta, UniqueEntries, ByEntry;
  }

  lemma NewRecordsAreNews(oldRecords: seq<WatchRecord>, newRecords: seq<WatchRecord>, d: Delta)
    requires UniqueEntries(oldRecords) && UniqueEntries(newRecords)
    requires IsDelta(ByEntry(oldRecords), ByEntry(newRecords), d)
    ensures forall r :: r in d.newRecords <==> r in newRecords && IsNews(oldRecords, r)
  {
    hide IsNews, UniqueEntries;
    DeltaRecords(ByEntry(oldRecords), ByEntry(newRecords), d);
    hide IsDelta, InDelta;
    forall r ensures r in d.newRecords <==> r in newRecords && IsNews(oldRecords, r) {
      NewsIsDelta(oldRecords, newRecords, r);
    }
  }

  lemma NewsByEntry(oldRecords: seq<WatchRecord>, r: WatchRecord)
    requires UniqueEntries(oldRecords)
    ensures IsNews(oldRecords, r) <==>
            r.entryId !in ByEntry(oldRecords) || Differs(r, ByEntry(oldRecords)[r.entryId])
  {
    UniqueByEntry(oldRecords);
    if r.entryId in ByEntry(oldRecords) {
      DiffersMeans(r, ByEntry(oldRecords)[r.entryId]);
    }
    hide Differs;
  }

  predicate WellKeyed(m: map<string, WatchRecord>) {
    forall e :: e in m ==> m[e].entryId == e
  }

  predicate EntryIs(m: map<string, WatchRecord>, r: WatchRecord) {
    r.entryId in m && m[r.entryId] == r
  }

  lemma DeltaOfRecord(prev: map<string, WatchRecord>, next: map<string, WatchRecord>, r: WatchRecord)
    requires WellKeyed(next)
    ensures (exists e :: InDelta(prev, next, e) && next[e] == r)
            <==> EntryIs(next, r) && (r.entryId !in prev || Differs(r, prev[r.entryId]))
  {
    hide Differs;
    if EntryIs(next, r) && (r.entryId !in prev || Differs(r, prev[r.entryId])) {
      assert InDelta(prev, next, r.entryId);
    }
  }

  lemma EntryIsRecord(records: seq<WatchRecord>, r: WatchRecord)
    requires UniqueEntries(records)
    ensures EntryIs(ByEntry(records), r) <==> r in records
  {
    UniqueByEntry(records);
  }

  lemma NewsIsDelta(oldRecords: seq<WatchRecord>, newRecords: seq<WatchRecord>, r: WatchRecord)
    requires UniqueEntries(oldRecords) && UniqueEntries(newRecords)
    ensures (exists e :: InDelta(ByEntry(oldRecords), ByEntry(newRecords), e) && ByEntry(newRecords)[e] == r)
            <==> r in newRecords && IsNews(oldRecords, r)
  {
    NewsByEntry(oldRecords, r);
    EntryIsRecord(newRecords, r);
    hide Differs, IsNews, UniqueEntries, EntryIs, InDelta;
    DeltaOfRecord(ByEntry(oldRecords), ByEntry(newRecords), r);
  }

  // ----- Entry ids that repeat

  /** The record's place has no later record of its entry. */
  predicate IsLastAt(records: seq<WatchRecord>, i: nat)
    requires i < |records|
  {
    forall j :: i < j < |records| ==> records[j].entryId != records[i].entryId
  }

  ghost predicate IsLastOf(records: seq<WatchRecord>, r: WatchRecord) {
    exists i: nat :: i < |records| && records[i] == r && IsLastAt(records, i)
  }

  lemma LastOfMore(records: seq<WatchRecord>, r: WatchRecord)
    requires records != []
    ensures var n := |records| - 1;
            IsLastOf(records, r) <==> if r.entryId == records[n].entryId then r == records[n] else IsLastOf(records[..n], r)
  {
    var n := |records| - 1;
    if r.entryId == records[n].entryId {
      assert IsLastAt(records, n);
    } else {
      if i: nat :| i < n && records[..n][i] == r && IsLastAt(records[..n], i) {
        assert IsLastAt(records, i);
      }
      if i: nat :| i < |records| && records[i] == r && IsLastAt(records, i) {
        assert records[..n][i] == r && IsLastAt(records[..n], i);
      }
    }
  }

  lemma {:induction false} ByEntryIsLast(records: seq<WatchRecord>, r: WatchRecord)
    ensures EntryIs(ByEntry(records), r) <==> IsLastOf(records, r)
    decreases |records|
  {
    if records != [] {
      LastOfMore(records, r);
      hide IsLastOf;
      ByEntryIsLast(records[..|records| - 1], r);
    }
  }

  /** Nothing in the old snapshot that counts for its entry is equal to it: only the last record of
      an entry counts. */
  ghost predicate IsNewsByLast(oldRecords: seq<WatchRecord>, r: WatchRecord) {
    forall p :: IsLastOf(oldRecords, p) && p.entryId == r.entryId ==> r.(id := p.id) != p
  }

  lemma NewsByLastEntry(oldRecords: seq<WatchRecord>, r: WatchRecord)
    ensures IsNewsByLast(oldRecords, r) <==> r.entryId !in ByEntry(oldRecords) || Differs(r, ByEntry(oldRecords)[r.entryId])
  {
    hide Differs, IsLastOf;
    var prev := ByEntry(oldRecords);
    forall p: WatchRecord | p.entryId == r.entryId ensures IsLastOf(oldRecords, p) <==> r.entryId in prev && prev[r.entryId] == p {
      ByEntryIsLast(oldRecords, p);
    }
    if r.entryId in prev {
      assert IsLastOf(oldRecords, prev[r.entryId]);
      DiffersMeans(r, prev[r.entryId]);
    }
  }

  /** Whatever ids repeat: a record is re-blocked exactly when it is the last of its entry in the new
      snapshot and the entry is new or was last recorded differently. */
  lemma DeltaExactly(oldRecords: seq<WatchRecord>, newRecords: seq<WatchRecord>, d: Delta, r: WatchRecord)
    requires IsDelta(ByEntry(oldRecords), ByEntry(newRecords), d)
    ensures r in d.newRecords <==> IsLastOf(newRecords, r) && IsNewsByLast(oldRecords, r)
  {
    DeltaRecords(ByEntry(oldRecords), ByEntry(newRecords), d);
    NewsByLastEntry(oldRecords, r);
    ByEntryIsLast(newRecords, r);
    hide Differs, IsLastOf, EntryIs, InDelta, IsDelta, IsNewsByLast;
    DeltaOfRecord(ByEntry(oldRecords), ByEntry(newRecords), r);
  }

  /** So a subject is re-screened exactly when such a record shares a key with one of its names. */
  lemma MonitoringExactly(lib: Library, oldRecords: seq<WatchRecord>, newRecords: seq<WatchRecord>, d: Delta, s: Subject)
    requires IsDelta(ByEntry(oldRecords), ByEntry(newRecords), d)
    ensures IsHit(lib, d.newRecords, s) <==>
            Active(s) && exists n, r :: n in s.names.value && n != "" && IsLastOf(newRecords, r) && IsNewsByLast(oldRecords, r) && SharesKey(lib, r, n)
  {
    forall r ensures r in d.newRecords <==> IsLastOf(newRecords, r) && IsNewsByLast(oldRecords, r) {
      DeltaExactly(oldRecords, newRecords, d, r);
    }
    hide SharesKey, IsLastOf, IsNewsByLast, IsDelta;
  }

  /** A record of the new snapshot that the old one lacks or has otherwise shares a key with the
      subject. */
  ghost predicate HasNews(lib: Library, oldRecords: seq<WatchRecord>, newRecords: seq<WatchRecord>, s: Subject) {
    Active(s) && exists n, r :: n in s.names.value && n != "" && r in newRecords && IsNews(oldRecords, r) && SharesKey(lib, r, n)
  }

  /** A subject with news loses its run exactly when every record of the new snapshot that shares a
      key with it, and differs from what the old one last recorded for its entry, is followed by
      another record of the same entry. */
  lemma RunIsLostExactly(lib: Library, oldRecords: seq<WatchRecord>, newRecords: seq<WatchRecord>, d: Delta, s: Subject)
    requires IsDelta(ByEntry(oldRecords), ByEntry(newRecords), d) && HasNews(lib, oldRecords, newRecords, s)
    ensures !IsHit(lib, d.newRecords, s) <==>
            forall n, r :: n in s.names.value && n != "" && r in newRecords && SharesKey(lib, r, n) && IsNewsByLast(oldRecords, r)
              ==> !IsLastOf(newRecords, r)
  {
    MonitoringExactly(lib, oldRecords, newRecords, d, s);
    forall r | IsLastOf(newRecords, r) ensures r in newRecords {
      var i: nat :| i < |newRecords| && newRecords[i] == r && IsLastAt(newRecords, i);
    }
    hide SharesKey, IsLastOf, IsNewsByLast, IsDelta, IsNews;
  }

  lemma NameSharesItsKeys(lib: Library, r: WatchRecord, n: string)
    requires n in r.names && HasKeyedToken(Tokens(lib, n))
    ensures SharesKey(lib, r, n)
  {
    hide Tokens;
    var t :| t in Tokens(lib, n) && |t| >= 2;
    var key := "mp:" + lib.metaphone(t);
    assert key in TokenKeys(lib, t);
    assert key in NameKeySet(lib, n);
    hide NameKeySet;
    assert key in RecordKeys(lib, r);
    assert key in RecordKeys(lib, r) * NameKeySet(lib, n);
  }

  /** Lists fall back on an empty entry id (backend/app/lists/persons.py:228 and :323), so it can
      repeat: of two such records only the last reaches the delta, and a subject with exactly the
      first one's name gets no run if the last one's name shares no key with it. */
  lemma DuplicateEntryLosesRun(lib: Library, n: string, other: string, d: Delta)
    requires n != "" && HasKeyedToken(Tokens(lib, n)) && NameKeySet(lib, other) * NameKeySet(lib, n) == {}
    requires var first, last := WatchRecord("1", "", [n], [], [], [], []), WatchRecord("2", "", [other], [], [], [], []);
             IsDelta(ByEntry([]), ByEntry([first, last]), d)
    ensures var first, last := WatchRecord("1", "", [n], [], [], [], []), WatchRecord("2", "", [other], [], [], [], []);
            var s := Subject("s", false, false, Some([n]));
            && HasNews(lib, [], [first, last], s)
            && first !in d.newRecords && last in d.newRecords
            && !IsHit(lib, d.newRecords, s) && Due(lib, d.newRecords, [s]) == []
  {
    hide NameKeySet, Tokens, HasKeyedToken, IsNews, IsDelta, Differs;
    var first, last := WatchRecord("1", "", [n], [], [], [], []), WatchRecord("2", "", [other], [], [], [], []);
    var s := Subject("s", false, false, Some([n]));
    OneNameNoKey(lib, last, other, n);
    NameSharesItsKeys(lib, first, n);
    OnlyLastReaches(first, last, d);
    hide SharesKey;
    NewsForName(lib, [first, last], first, s, n);
    hide HasNews, IsHit;
    NothingShared(lib, d.newRecords, s, last, n);
    assert [s][..0] == [];
  }

  lemma OnlyLastReaches(first: WatchRecord, last: WatchRecord, d: Delta)
    requires first.entryId == last.entryId && first != last && IsDelta(ByEntry([]), ByEntry([first, last]), d)
    ensures IsNews([], first)
    ensures forall r :: r in d.newRecords <==> r == last
  {
    var records := [first, last];
    hide Differs, IsDelta;
    forall r ensures IsLastOf(records, r) <==> r == last {
      LastOfMore(records, r);
      assert records[..1] == [first];
      LastOfMore([first], r);
    }
    hide IsLastOf;
    forall r ensures r in d.newRecords <==> r == last {
      DeltaExactly([], records, d, r);
      NothingBefore(r);
    }
  }

  lemma NothingBefore(r: WatchRecord)
    ensures IsNewsByLast([], r)
  {
  }

  lemma NewsForName(lib: Library, records: seq<WatchRecord>, r: WatchRecord, s: Subject, n: string)
    requires Active(s) && n in s.names.value && n != "" && r in records && IsNews([], r) && SharesKey(lib, r, n)
    ensures HasNews(lib, [], records, s)
  {
  }

  lemma OneNameNoKey(lib: Library, r: WatchRecord, other: string, n: string)
    requires r.names == [other] && NameKeySet(lib, other) * NameKeySet(lib, n) == {}
    ensures !SharesKey(lib, r, n)
  {
    hide NameKeySet;
    forall key | key in RecordKeys(lib, r) ensures key in NameKeySet(lib, other) {
      var name :| name in r.names && key in NameKeySet(lib, name);
      assert name == other;
    }
  }

  lemma NothingShared(lib: Library, changed: seq<WatchRecord>, s: Subject, only: WatchRecord, n: string)
    requires forall r :: r in changed ==> r == only
    requires s.names == Some([n]) && !SharesKey(lib, only, n)
    ensures !IsHit(lib, changed, s)
  {
    hide SharesKey;
  }
}
