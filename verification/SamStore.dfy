/** The SAM exclusions snapshot store: validated, transactional ingest with pruning
    (backend/app/lists/sam.py). */
module SamStore {
  import opened Wrappers
  import opened Ordering

  const INSERT_CHUNK: nat := 5000
  const MIN_SKIPPED_TO_REJECT: nat := 5

  // ----- Parsing: which rows count

  datatype Parsed<Rec> = Rejected | Extract(records: seq<Rec>, skipped: nat)

  function Usable<Rec>(rows: seq<Option<Rec>>): seq<Rec> {
    if rows == [] then []
    else
      var n := |rows| - 1;
      Usable(rows[..n]) + (if rows[n].Some? then [rows[n].value] else [])
  }

  /** Too many unusable rows: more than a handful and more than 5 percent. */
  predicate TooManySkipped(skipped: int, total: nat) {
    skipped > MIN_SKIPPED_TO_REJECT && 20 * skipped > total
  }

  /** The row loop and the checks after it in `parse_extract`. */
  method ParseRows<Rec>(rows: seq<Option<Rec>>) returns (p: Parsed<Rec>)
    ensures p.Rejected? <==> Usable(rows) == [] || TooManySkipped(|rows| - |Usable(rows)|, |rows|)
    ensures p.Extract? ==> p.records == Usable(rows) && p.skipped + |p.records| == |rows|
    ensures var unusable := |rows| - |Usable(rows)|;
            p.Rejected? <==> (unusable == |rows| || (unusable > 5 && unusable as real > |rows| as real * 0.05))
  {
    var records, skipped := [], 0;
    for i := 0 to |rows|
      invariant records == Usable(rows[..i]) && skipped + |records| == i
    {
      assert rows[..i + 1][..i] == rows[..i];
      match rows[i]
      case None => skipped := skipped + 1;
      case Some(r) => records := records + [r];
    }
    assert rows[..|rows|] == rows;
    if records == [] || TooManySkipped(skipped, |records| + skipped) {
      return Rejected;
    }
    return Extract(records, skipped);
  }

  // ----- The tables

  /** What `_newest_first` orders by. */
  datatype Stamp = Stamp(retrieved: int, created: int, id: nat)

  predicate Newer(a: Stamp, b: Stamp) {
    a.retrieved > b.retrieved
    || (a.retrieved == b.retrieved && (a.created > b.created || (a.created == b.created && a.id > b.id)))
  }

  function ByNewest(): (Stamp, Stamp) -> bool { (a, b) => Newer(a, b) }

  lemma NewestIsOrder()
    ensures StrictOrder(ByNewest())
  {
  }

  datatype Info = Info(sha: string, count: nat)

  datatype Row<Rec> = Row(snapshot: nat, record: Rec)

  datatype Tables<Rec> = Tables(snapshots: map<Stamp, Info>, rows: seq<Row<Rec>>)

  function RowsFor<Rec>(rows: seq<Row<Rec>>, id: nat): seq<Rec> {
    if rows == [] then []
    else
      var n := |rows| - 1;
      RowsFor(rows[..n], id) + (if rows[n].snapshot == id then [rows[n].record] else [])
  }

  ghost predicate HasSnapshot<Rec>(t: Tables<Rec>, k: nat)
    requires k < |t.rows|
  {
    exists s :: s in t.snapshots && s.id == t.rows[k].snapshot
  }

  /** No row without its snapshot; every snapshot holds exactly the rows it counts; ids are unique. */
  ghost predicate Consistent<Rec>(t: Tables<Rec>) {
    && (forall k :: 0 <= k < |t.rows| ==> HasSnapshot(t, k))
    && (forall s :: s in t.snapshots ==> |RowsFor(t.rows, s.id)| == t.snapshots[s].count)
    && (forall s, s' :: s in t.snapshots && s' in t.snapshots && s.id == s'.id ==> s == s')
  }

  ghost predicate IsLatest<Rec>(t: Tables<Rec>, s: Stamp) {
    s in t.snapshots && forall x :: x in t.snapshots ==> x == s || Newer(s, x)
  }

  function NewRows<Rec>(id: nat, records: seq<Rec>): (rows: seq<Row<Rec>>)
    ensures |rows| == |records|
  {
    seq(|records|, k requires 0 <= k < |records| => Row(id, records[k]))
  }

  function Stored<Rec>(t: Tables<Rec>, s: Stamp, sha: string, records: seq<Rec>): Tables<Rec> {
    Tables(t.snapshots[s := Info(sha, |records|)], t.rows + NewRows(s.id, records))
  }

  function KeepAtLeastOne(keep: int): nat { if keep > 1 then keep else 1 }

  function NewerThan<Rec>(t: Tables<Rec>, s: Stamp): set<Stamp> {
    set x | x in t.snapshots && Newer(x, s)
  }

  /** The newest `max(1, keep)` snapshots. */
  function Kept<Rec>(t: Tables<Rec>, keep: int): set<Stamp> {
    set s | s in t.snapshots && |NewerThan(t, s)| < KeepAtLeastOne(keep)
  }

  function RowsIn<Rec>(rows: seq<Row<Rec>>, ids: set<nat>): seq<Row<Rec>> {
    if rows == [] then []
    else
      var n := |rows| - 1;
      RowsIn(rows[..n], ids) + (if rows[n].snapshot in ids then [rows[n]] else [])
  }

  function IdsOf(s: set<Stamp>): set<nat> { set x | x in s :: x.id }

  function Pruned<Rec>(t: Tables<Rec>, keep: int): Tables<Rec> {
    var kept := Kept(t, keep);
    Tables(map s | s in kept && s in t.snapshots :: t.snapshots[s], RowsIn(t.rows, IdsOf(kept)))
  }

  // ----- One ingest

  datatype Fetched<Rec> = Failed | Got(records: seq<Rec>, sha: string)

  /** The outside of one ingest: what fetching and parsing gave, the stamp a new snapshot would
      get, and the step at which storing or pruning fails, if it gets that far. */
  datatype Input<Rec> = Input(fetched: Fetched<Rec>, stamp: Stamp, keep: int, storeFailsAt: Option<nat>, pruneFails: bool)

  datatype Result = NotFetched | Unchanged(id: nat) | Collapsed | StoreFailed | Changed(id: nat)

  function StoreSteps<Rec>(records: seq<Rec>): nat {
    (|records| + INSERT_CHUNK - 1) / INSERT_CHUNK + 2
  }

  predicate StoreFails<Rec>(i: Input<Rec>)
    requires i.fetched.Got?
  {
    i.storeFailsAt.Some? && i.storeFailsAt.value < StoreSteps(i.fetched.records)
  }

  /** What one ingest does to the tables, and what it answers. */
  ghost predicate Ingested<Rec>(t: Tables<Rec>, i: Input<Rec>, t': Tables<Rec>, r: Result) {
    if i.fetched.Failed? then t' == t && r == NotFetched
    else if exists l :: IsLatest(t, l) && t.snapshots[l].sha == i.fetched.sha then
      t' == t && exists l :: IsLatest(t, l) && r == Unchanged(l.id)
    else if exists l :: IsLatest(t, l) && 2 * |i.fetched.records| < t.snapshots[l].count then t' == t && r == Collapsed
    else if StoreFails(i) then t' == t && r == StoreFailed
    else
      var stored := Stored(t, i.stamp, i.fetched.sha, i.fetched.records);
      t' == (if i.pruneFails then stored else Pruned(stored, i.keep)) && r == Changed(i.stamp.id)
  }

  class Store<Rec(==,!new)> {
    var tables: Tables<Rec>

    constructor ()
      ensures tables == Tables(map[], [])
    {
      tables := Tables(map[], []);
    }

    method LatestSnapshot() returns (s: Option<Stamp>)
      ensures s.None? <==> tables.snapshots == map[]
      ensures s.Some? ==> IsLatest(tables, s.value)
      ensures s.Some? ==> s.value in tables.snapshots && forall x :: x in tables.snapshots && x != s.value ==>
                x.retrieved < s.value.retrieved
                || (x.retrieved == s.value.retrieved
                    && (x.created < s.value.created || (x.created == s.value.created && x.id < s.value.id)))
    {
      NewestIsOrder();
      var order := Sort(ByNewest(), tables.snapshots.Keys);
      if order == [] {
        assert forall x :: x !in tables.snapshots.Keys;
        return None;
      }
      assert order[0] in tables.snapshots.Keys;
      forall x | x in tables.snapshots ensures x == order[0] || Newer(order[0], x) {
        assert x in tables.snapshots.Keys;
        var k :| 0 <= k < |order| && order[k] == x;
        assert k > 0 ==> ByNewest()(order[0], order[k]);
      }
      return Some(order[0]);
    }

    /** `_insert_rows`, in chunks; the transaction fails at step `failsAt`, counting the flush of
        the snapshot as step 0 and the commit as the last. */
    method InsertRows(before: seq<Row<Rec>>, id: nat, records: seq<Rec>, failsAt: Option<nat>) returns (rows: seq<Row<Rec>>, ok: bool)
      ensures ok <==> failsAt.None? || failsAt.value >= StoreSteps(records)
      ensures ok ==> rows == before + NewRows(id, records)
    {
      rows := before;
      if failsAt == Some(0) {
        return rows, false;
      }
      var start, step := 0, 1;
      while start < |records|
        invariant start <= |records| && rows == before + NewRows(id, records[..start])
        invariant start == |records| ==> step == StoreSteps(records) - 1
        invariant start < |records| ==> start == (step - 1) * INSERT_CHUNK && step >= 1
        invariant failsAt.Some? ==> failsAt.value >= step
      {
        if failsAt == Some(step) {
          return rows, false;
        }
        var end := if start + INSERT_CHUNK <= |records| then start + INSERT_CHUNK else |records|;
        rows := rows + NewRows(id, records[start..end]);
        assert NewRows(id, records[..end]) == NewRows(id, records[..start]) + NewRows(id, records[start..end]);
        start, step := end, step + 1;
      }
      assert records[..start] == records;
      ok := failsAt != Some(step);
    }

    /** `_prune`, on a working copy; nothing is kept when it fails. */
    method Prune(keep: int, fails: bool)
      modifies this
      ensures tables == if fails then old(tables) else Pruned(old(tables), keep)
    {
      NewestIsOrder();
      var order := Sort(ByNewest(), tables.snapshots.Keys);
      var n := KeepAtLeastOne(keep);
      var kept := set k | 0 <= k < |order| && k < n :: order[k];
      KeptIsPrefix(tables, order, keep, kept);
      var left := Tables(map s | s in kept && s in tables.snapshots :: tables.snapshots[s], RowsIn(tables.rows, IdsOf(kept)));
      if !fails {
        tables := left;
      }
    }

    /** `ingest`: anything wrong while fetching, parsing or storing keeps the last good snapshot.  Only
        the lookup of the latest one is outside its handlers (line 354). */
    method Ingest(i: Input<Rec>) returns (r: Result)
      modifies this
      ensures Ingested(old(tables), i, tables, r)
    {
      if i.fetched.Failed? {
        return NotFetched;
      }
      var latest := LatestSnapshot();
      LatestUnique(tables);
      if latest.Some? && tables.snapshots[latest.value].sha == i.fetched.sha {
        return Unchanged(latest.value.id);
      }
      if latest.Some? && 2 * |i.fetched.records| < tables.snapshots[latest.value].count {
        return Collapsed;
      }
      var rows, ok := InsertRows(tables.rows, i.stamp.id, i.fetched.records, i.storeFailsAt);
      if !ok {
        return StoreFailed;
      }
      tables := Tables(tables.snapshots[i.stamp := Info(i.fetched.sha, |i.fetched.records|)], rows);
      Prune(i.keep, i.pruneFails);
      return Changed(i.stamp.id);
    }
  }

  lemma LatestUnique<Rec>(t: Tables<Rec>)
    ensures forall l, l' :: IsLatest(t, l) && IsLatest(t, l') ==> l == l'
  {
  }

  /** In newest-first order, position and number of newer snapshots are the same thing. */
  lemma KeptIsPrefix<Rec>(t: Tables<Rec>, order: seq<Stamp>, keep: int, kept: set<Stamp>)
    requires IsSorting(ByNewest(), t.snapshots.Keys, order)
    requires kept == set k | 0 <= k < |order| && k < KeepAtLeastOne(keep) :: order[k]
    ensures kept == Kept(t, keep)
  {
    forall s | s in kept ensures s in Kept(t, keep) {
      var j :| 0 <= j < |order| && j < KeepAtLeastOne(keep) && order[j] == s;
      assert order[j] in t.snapshots.Keys;
      NewerAreBefore(t, order, j);
    }
    forall s | s in Kept(t, keep) ensures s in kept {
      assert s in t.snapshots.Keys;
      var k :| 0 <= k < |order| && order[k] == s;
      NewerAreBefore(t, order, k);
    }
  }

  lemma NewerAreBefore<Rec>(t: Tables<Rec>, order: seq<Stamp>, k: nat)
    requires IsSorting(ByNewest(), t.snapshots.Keys, order) && k < |order|
    ensures |NewerThan(t, order[k])| == k
  {
    var before := set j | 0 <= j < k :: order[j];
    forall x ensures x in before <==> x in NewerThan(t, order[k]) {
      if x in before {
        var j :| 0 <= j < k && order[j] == x;
        assert ByNewest()(order[j], order[k]);
        assert order[j] in t.snapshots.Keys;
      }
      if x in NewerThan(t, order[k]) {
        assert x in t.snapshots.Keys;
        var j :| 0 <= j < |order| && order[j] == x;
        if k < j {
          assert ByNewest()(order[k], order[j]);
        }
      }
    }
    assert before == NewerThan(t, order[k]);
    PrefixSize(order, k);
  }

  lemma {:induction false} PrefixSize(order: seq<Stamp>, k: nat)
    requires k <= |order| && forall i, j :: 0 <= i < j < |order| ==> Newer(order[i], order[j])
    ensures |set j | 0 <= j < k :: order[j]| == k
  {
    if k > 0 {
      PrefixSize(order, k - 1);
      assert (set j | 0 <= j < k :: order[j]) == (set j | 0 <= j < k - 1 :: order[j]) + {order[k - 1]};
      assert order[k - 1] !in set j | 0 <= j < k - 1 :: order[j];
    }
  }

  // ----- One ingest keeps the store in order

  lemma {:induction false} RowsForAppend<Rec>(a: seq<Row<Rec>>, id: nat, records: seq<Rec>, other: nat)
    ensures RowsFor(a + NewRows(id, records), other) == RowsFor(a, other) + (if other == id then records else [])
    decreases |records|
  {
    var all := a + NewRows(id, records);
    if records == [] {
      assert all == a;
    } else {
      var n := |records| - 1;
      assert all[..|all| - 1] == a + NewRows(id, records[..n]);
      RowsForAppend(a, id, records[..n], other);
      assert records == records[..n] + [records[n]];
    }
  }

  lemma {:induction false} RowsForFiltered<Rec>(rows: seq<Row<Rec>>, ids: set<nat>, id: nat)
    ensures RowsFor(RowsIn(rows, ids), id) == if id in ids then RowsFor(rows, id) else []
  {
    if rows != [] {
      var n := |rows| - 1;
      RowsForFiltered(rows[..n], ids, id);
      var kept := RowsIn(rows[..n], ids);
      if rows[n].snapshot in ids {
        assert (kept + [rows[n]])[..|kept|] == kept;
      } else {
        assert kept + [] == kept;
      }
    }
  }

  lemma {:induction false} RowsInSubset<Rec>(rows: seq<Row<Rec>>, ids: set<nat>)
    ensures forall k :: 0 <= k < |RowsIn(rows, ids)| ==> RowsIn(rows, ids)[k].snapshot in ids
  {
    if rows != [] {
      RowsInSubset(rows[..|rows| - 1], ids);
    }
  }

  lemma {:induction false} NoRowsForUnknown<Rec>(rows: seq<Row<Rec>>, id: nat)
    requires forall k :: 0 <= k < |rows| ==> rows[k].snapshot != id
    ensures RowsFor(rows, id) == []
  {
    if rows != [] {
      NoRowsForUnknown(rows[..|rows| - 1], id);
    }
  }

  predicate FreshId<Rec>(t: Tables<Rec>, id: nat) {
    forall s :: s in t.snapshots ==> s.id != id
  }

  lemma StoredConsistent<Rec>(t: Tables<Rec>, s: Stamp, sha: string, records: seq<Rec>)
    requires Consistent(t) && FreshId(t, s.id)
    ensures Consistent(Stored(t, s, sha, records))
  {
    var t' := Stored(t, s, sha, records);
    forall k | 0 <= k < |t'.rows| ensures HasSnapshot(t', k) {
      if k < |t.rows| {
        assert HasSnapshot(t, k);
        var x :| x in t.snapshots && x.id == t.rows[k].snapshot;
        assert x in t'.snapshots;
      } else {
        assert s in t'.snapshots && t'.rows[k].snapshot == s.id;
      }
    }
    forall x | x in t'.snapshots ensures |RowsFor(t'.rows, x.id)| == t'.snapshots[x].count {
      RowsForAppend(t.rows, s.id, records, x.id);
      if x == s {
        forall k | 0 <= k < |t.rows| ensures t.rows[k].snapshot != s.id {
          assert HasSnapshot(t, k);
        }
        NoRowsForUnknown(t.rows, s.id);
      }
    }
  }

  lemma PrunedRowsOwned<Rec>(t: Tables<Rec>, keep: int, k: nat)
    requires k < |Pruned(t, keep).rows|
    ensures HasSnapshot(Pruned(t, keep), k)
  {
    var kept := Kept(t, keep);
    var t' := Pruned(t, keep);
    RowsInSubset(t.rows, IdsOf(kept));
    hide Kept, RowsIn;
    assert t'.rows[k].snapshot in IdsOf(kept);
    var x :| x in kept && x.id == t'.rows[k].snapshot;
    PrunedSnapshots(t, keep);
    assert x in t'.snapshots;
  }

  lemma PrunedSnapshots<Rec>(t: Tables<Rec>, keep: int)
    ensures Pruned(t, keep).snapshots.Keys == Kept(t, keep)
    ensures forall x :: x in Pruned(t, keep).snapshots ==> x in t.snapshots && Pruned(t, keep).snapshots[x] == t.snapshots[x]
  {
  }

  lemma PrunedConsistent<Rec>(t: Tables<Rec>, keep: int)
    requires Consistent(t)
    ensures Consistent(Pruned(t, keep))
  {
    var ids := IdsOf(Kept(t, keep));
    var t' := Pruned(t, keep);
    PrunedSnapshots(t, keep);
    forall k | 0 <= k < |t'.rows| ensures HasSnapshot(t', k) {
      PrunedRowsOwned(t, keep, k);
    }
    hide Kept;
    forall x | x in t'.snapshots ensures |RowsFor(t'.rows, x.id)| == t'.snapshots[x].count {
      RowsForFiltered(t.rows, ids, x.id);
      assert x.id in ids;
    }
  }

  lemma PrunedSize<Rec>(t: Tables<Rec>, keep: int)
    ensures |Pruned(t, keep).snapshots| <= KeepAtLeastOne(keep)
  {
    KeptAreNewest(t, keep);
    assert Pruned(t, keep).snapshots.Keys == Kept(t, keep);
  }

  /** Pruning keeps the newest `keep` snapshots, at least one, by retrieval time, then creation time,
      then id; it keeps them as they are, with all their rows in order, and no row of the others. */
  lemma PruneExactly<Rec>(t: Tables<Rec>, keep: int, id: nat)
    ensures var t', n := Pruned(t, keep), if keep <= 1 then 1 else keep;
            && |t'.snapshots| == (if n < |t.snapshots| then n else |t.snapshots|)
            && (forall s :: s in t'.snapshots ==> s in t.snapshots && t'.snapshots[s] == t.snapshots[s])
            && (forall s, x :: s in t'.snapshots && x in t.snapshots && x !in t'.snapshots ==>
                  x.retrieved < s.retrieved
                  || (x.retrieved == s.retrieved && (x.created < s.created || (x.created == s.created && x.id < s.id))))
            && RowsFor(t'.rows, id) == if exists s :: s in t'.snapshots && s.id == id then RowsFor(t.rows, id) else []
  {
    KeptAreNewest(t, keep);
    PrunedSnapshots(t, keep);
    RowsForFiltered(t.rows, IdsOf(Kept(t, keep)), id);
    var t' := Pruned(t, keep);
    assert t'.rows == RowsIn(t.rows, IdsOf(Kept(t, keep)));
    hide Kept, RowsIn, NewerThan, Pruned, RowsFor, Newer;
    assert |t'.snapshots| == |t'.snapshots.Keys|;
    assert id in IdsOf(Kept(t, keep)) <==> exists s :: s in Kept(t, keep) && s.id == id;
    forall s, x | s in t'.snapshots && x in t.snapshots && x !in t'.snapshots
      ensures x.retrieved < s.retrieved
              || (x.retrieved == s.retrieved && (x.created < s.created || (x.created == s.created && x.id < s.id)))
    {
      assert s in Kept(t, keep) && x !in Kept(t, keep);
      NewerMeans(s, x);
    }
  }

  lemma NewerMeans(s: Stamp, x: Stamp)
    ensures Newer(s, x) <==>
              (x.retrieved < s.retrieved
               || (x.retrieved == s.retrieved && (x.created < s.created || (x.created == s.created && x.id < s.id))))
  {
  }

  lemma KeptAreNewest<Rec>(t: Tables<Rec>, keep: int)
    ensures |Kept(t, keep)| == if KeepAtLeastOne(keep) < |t.snapshots| then KeepAtLeastOne(keep) else |t.snapshots|
    ensures forall s, x :: s in Kept(t, keep) && x in t.snapshots && x !in Kept(t, keep) ==> Newer(s, x)
  {
    NewestIsOrder();
    var order := SortingExists(ByNewest(), t.snapshots.Keys);
    var n := if KeepAtLeastOne(keep) < |order| then KeepAtLeastOne(keep) else |order|;
    KeptAre(t, keep, order, n);
    AllOrdered(t, order);
    hide Kept, Newer;
    forall s, x | s in Kept(t, keep) && x in t.snapshots && x !in Kept(t, keep) ensures Newer(s, x) {
      assert x in t.snapshots.Keys;
      var i :| 0 <= i < n && order[i] == s;
      var j :| 0 <= j < |order| && order[j] == x;
      assert j >= n;
      assert ByNewest()(order[i], order[j]);
    }
  }

  lemma KeptAre<Rec>(t: Tables<Rec>, keep: int, order: seq<Stamp>, n: nat)
    requires IsSorting(ByNewest(), t.snapshots.Keys, order)
    requires n == if KeepAtLeastOne(keep) < |order| then KeepAtLeastOne(keep) else |order|
    ensures |Kept(t, keep)| == n
    ensures forall s :: s in Kept(t, keep) <==> exists i :: 0 <= i < n && order[i] == s
  {
    var kept := set k | 0 <= k < |order| && k < KeepAtLeastOne(keep) :: order[k];
    KeptIsPrefix(t, order, keep, kept);
    assert forall i, j :: 0 <= i < j < |order| ==> ByNewest()(order[i], order[j]);
    PrefixSize(order, n);
    assert kept == set j | 0 <= j < n :: order[j];
  }

  lemma AllOrdered<Rec>(t: Tables<Rec>, order: seq<Stamp>)
    requires IsSorting(ByNewest(), t.snapshots.Keys, order)
    ensures |order| == |t.snapshots|
  {
    assert forall i, j :: 0 <= i < j < |order| ==> ByNewest()(order[i], order[j]);
    PrefixSize(order, |order|);
    var all := set j | 0 <= j < |order| :: order[j];
    forall s ensures s in all <==> s in t.snapshots.Keys {
      assert s in t.snapshots.Keys <==> s in order;
    }
    assert all == t.snapshots.Keys;
    assert |t.snapshots| == |t.snapshots.Keys|;
  }

  /** All snapshots are older than `now`. */
  predicate Before<Rec>(t: Tables<Rec>, now: int) {
    forall s :: s in t.snapshots ==> s.retrieved < now
  }

  lemma NewestSurvives<Rec>(t: Tables<Rec>, s: Stamp, sha: string, records: seq<Rec>, keep: int)
    requires Before(t, s.retrieved)
    ensures var t' := Pruned(Stored(t, s, sha, records), keep);
            IsLatest(t', s) && t'.snapshots[s] == Info(sha, |records|)
  {
    var mid := Stored(t, s, sha, records);
    assert NewerThan(mid, s) == {};
    assert s in Kept(mid, keep);
  }

  /** One ingest at a later time than every snapshot, with a fresh id: the store stays consistent;
      anything but a change leaves it as it was; a change makes the new snapshot the latest, never
      with less than half the rows of the one before, and a successful prune leaves at most
      `max(1, keep)` snapshots. */
  lemma IngestKeepsStore<Rec>(t: Tables<Rec>, i: Input<Rec>, t': Tables<Rec>, r: Result)
    requires Consistent(t) && Before(t, i.stamp.retrieved) && FreshId(t, i.stamp.id) && Ingested(t, i, t', r)
    ensures Consistent(t') && Before(t', i.stamp.retrieved + 1)
    ensures !r.Changed? ==> t' == t
    ensures r.Changed? ==> (
      && i.fetched.Got? && IsLatest(t', i.stamp) && t'.snapshots[i.stamp] == Info(i.fetched.sha, |i.fetched.records|)
      && (forall l :: IsLatest(t, l) ==> t.snapshots[l].sha != i.fetched.sha && 2 * |i.fetched.records| >= t.snapshots[l].count)
      && (!i.pruneFails ==> |t'.snapshots| <= KeepAtLeastOne(i.keep)))
  {
    if r.Changed? {
      var stored := Stored(t, i.stamp, i.fetched.sha, i.fetched.records);
      StoredConsistent(t, i.stamp, i.fetched.sha, i.fetched.records);
      PrunedConsistent(stored, i.keep);
      PrunedSize(stored, i.keep);
      NewestSurvives(t, i.stamp, i.fetched.sha, i.fetched.records, i.keep);
    }
  }

  /** After storing and pruning, the new snapshot is kept if and only if fewer than `max(1, keep)`
      stored snapshots claim to be newer: a clock set back can prune what was just ingested. */
  lemma NewSnapshotKeptExactly<Rec>(t: Tables<Rec>, s: Stamp, sha: string, records: seq<Rec>, keep: int)
    requires s !in t.snapshots
    ensures s in Pruned(Stored(t, s, sha, records), keep).snapshots <==> |NewerThan(t, s)| < KeepAtLeastOne(keep)
  {
    assert NewerThan(Stored(t, s, sha, records), s) == NewerThan(t, s);
  }

  lemma LateIsPruned<Rec>(t: Tables<Rec>, there: Stamp, late: Stamp, sha: string, records: seq<Rec>)
    requires t.snapshots.Keys == {there} && Newer(there, late)
    ensures var t' := Pruned(Stored(t, late, sha, records), 1);
            late !in t'.snapshots && IsLatest(t, there) && IsLatest(t', there)
  {
    var stored := Stored(t, late, sha, records);
    hide RowsIn, NewRows;
    assert NewerThan(t, late) == {there};
    assert late !in t.snapshots;
    NewSnapshotKeptExactly(t, late, sha, records, 1);
    assert NewerThan(stored, there) == {};
    PrunedSnapshots(stored, 1);
    assert there in Kept(stored, 1);
  }

  /** A snapshot stored by a clock set back to 5, with one of time 10 and one row there and one to
      keep: the ingest answers Changed, and its snapshot is gone. */
  lemma ClockSetBackLosesSnapshot()
    ensures var t: Tables<int> := Tables(map[Stamp(10, 10, 1) := Info("a", 1)], [Row(1, 3)]);
            var i := Input(Got([7], "b"), Stamp(5, 5, 2), 1, None, false);
            var t' := Pruned(Stored(t, i.stamp, "b", [7]), 1);
            Consistent(t) && FreshId(t, 2) && Ingested(t, i, t', Changed(2)) && i.stamp !in t'.snapshots && IsLatest(t', Stamp(10, 10, 1))
  {
    var there, late := Stamp(10, 10, 1), Stamp(5, 5, 2);
    var t: Tables<int> := Tables(map[there := Info("a", 1)], [Row(1, 3)]);
    assert HasSnapshot(t, 0) by { assert there in t.snapshots; }
    assert RowsFor(t.rows, 1) == [3] by { assert t.rows[..0] == []; }
    LateIsPruned(t, there, late, "b", [7]);
    hide Pruned, Stored;
    assert forall l :: IsLatest(t, l) ==> l == there;
  }

  // ----- Any run of ingests

  /** Ingests one after the other, each at a strictly later time and with a fresh id. */
  ghost predicate IsRun<Rec>(ts: seq<Tables<Rec>>, inputs: seq<Input<Rec>>, results: seq<Result>) {
    && |ts| == |inputs| + 1 && |results| == |inputs| && ts[0] == Tables(map[], [])
    && (forall n :: 0 <= n < |inputs| ==> FreshId(ts[n], inputs[n].stamp.id) && Ingested(ts[n], inputs[n], ts[n + 1], results[n]))
    && (forall m, n :: 0 <= m < n < |inputs| ==> inputs[m].stamp.retrieved < inputs[n].stamp.retrieved)
  }

  lemma {:induction false} RunInv<Rec>(ts: seq<Tables<Rec>>, inputs: seq<Input<Rec>>, results: seq<Result>, n: nat)
    requires IsRun(ts, inputs, results) && n <= |inputs|
    ensures Consistent(ts[n])
    ensures n < |inputs| ==> Before(ts[n], inputs[n].stamp.retrieved)
  {
    hide Ingested, Consistent, FreshId;
    if n == 0 {
      EmptyConsistent<Rec>();
    } else {
      RunInv(ts, inputs, results, n - 1);
      IngestKeepsStore(ts[n - 1], inputs[n - 1], ts[n], results[n - 1]);
    }
  }

  lemma EmptyConsistent<Rec>()
    ensures Consistent<Rec>(Tables(map[], []))
  {
  }

  /** Over any run of ingests with any failures: the tables are always consistent, a failed or
      unchanged ingest leaves them alone, a change makes the new snapshot the latest, and a prune
      that succeeds leaves at most `max(1, keep)` snapshots. */
  lemma StoreOverRuns<Rec>(ts: seq<Tables<Rec>>, inputs: seq<Input<Rec>>, results: seq<Result>, n: nat)
    requires IsRun(ts, inputs, results) && n < |inputs|
    ensures Consistent(ts[n + 1])
    ensures !results[n].Changed? ==> ts[n + 1] == ts[n]
    ensures results[n].Changed? ==> IsLatest(ts[n + 1], inputs[n].stamp)
    ensures results[n].Changed? && !inputs[n].pruneFails ==> |ts[n + 1].snapshots| <= KeepAtLeastOne(inputs[n].keep)
  {
    hide Consistent, FreshId, Ingested;
    RunInv(ts, inputs, results, n);
    IngestKeepsStore(ts[n], inputs[n], ts[n + 1], results[n]);
  }

  /** From one latest snapshot to the next the row count never falls below half. */
  lemma LatestNeverHalves<Rec>(ts: seq<Tables<Rec>>, inputs: seq<Input<Rec>>, results: seq<Result>, n: nat, l: Stamp, l': Stamp)
    requires IsRun(ts, inputs, results) && n < |inputs| && IsLatest(ts[n], l) && IsLatest(ts[n + 1], l')
    ensures 2 * ts[n + 1].snapshots[l'].count >= ts[n].snapshots[l].count
  {
    hide Consistent, FreshId, Ingested;
    RunInv(ts, inputs, results, n);
    IngestKeepsStore(ts[n], inputs[n], ts[n + 1], results[n]);
    LatestUnique(ts[n]);
    LatestUnique(ts[n + 1]);
  }
}
