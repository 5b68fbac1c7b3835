/** Blocking (backend/app/screening/blocking.py): the inverted index and its capped scan. */
module Blocking {
  import opened Wrappers
  import opened Names
  import opened Scoring
  import opened Watchlist
  import opened Ordering

  const DEFAULT_CAP: int := 200

  datatype Candidate = Candidate(recordId: string, matchedKeys: seq<string>)

  // ----- What blocking means, by a plain scan over the records

  function NameKeySet(lib: Library, name: string): set<string> {
    KeysOfTokens(lib, Tokens(lib, name))
  }

  function VariantKeys(lib: Library, names: seq<string>): set<string> {
    set name, key | name in names && key in NameKeySet(lib, name) :: key
  }

  function RecordKeys(lib: Library, record: WatchRecord): set<string> {
    VariantKeys(lib, record.names)
  }

  /** All (record id, key) pairs of a list of records. */
  function Pairs(lib: Library, records: seq<WatchRecord>): set<(string, string)> {
    set record, key | record in records && key in RecordKeys(lib, record) :: (record.id, key)
  }

  function PairsOf(rid: string, keys: set<string>): set<(string, string)> {
    set key | key in keys :: (rid, key)
  }

  /** The keys a record id shares with the subject. */
  function Shared(pairs: set<(string, string)>, subjectKeys: set<string>, rid: string): set<string> {
    set key | key in subjectKeys && (rid, key) in pairs
  }

  function HitIds(pairs: set<(string, string)>, subjectKeys: set<string>): set<string> {
    set pair | pair in pairs && pair.1 in subjectKeys :: pair.0
  }

  /** Every keyed token of the subject is hit. */
  predicate CoversAll(lib: Library, ts: seq<string>, keys: set<string>) {
    forall t :: t in ts && TokenKeys(lib, t) != {} ==> TokenKeys(lib, t) * keys != {}
  }

  /** More shared keys first, then by id. */
  function ByRank(count: string -> int): (string, string) -> bool {
    (a: string, b: string) => count(a) > count(b) || (count(a) == count(b) && StringLess(a, b))
  }

  lemma ByRankIsOrder(count: string -> int)
    ensures StrictOrder(ByRank(count))
  {
    ByStringIsOrder();
    assert forall a: string, b: string :: ByString()(a, b) == StringLess(a, b);
  }

  /** `partial[:cap]`, negative caps counting from the end. */
  function Take<T>(s: seq<T>, cap: int): seq<T> {
    if cap >= |s| then s
    else if cap >= 0 then s[..cap]
    else if -cap <= |s| then s[..|s| + cap]
    else []
  }

  /** The scan without an index: the records hit by every keyed token, by id; then the first
      `cap` of the other records sharing a key, by rank; each with exactly the shared keys. */
  ghost predicate IsNaiveScan(lib: Library, records: seq<WatchRecord>, subject: string, cap: int, out: seq<Candidate>) {
    var pairs, ts := Pairs(lib, records), Tokens(lib, subject);
    IsScan(lib, pairs, ts, KeysOfTokens(lib, ts), cap, out)
  }

  function Ids(out: seq<Candidate>): (ids: seq<string>)
    ensures |ids| == |out|
    ensures forall k :: 0 <= k < |out| ==> ids[k] == out[k].recordId
  {
    seq(|out|, k requires 0 <= k < |out| => out[k].recordId)
  }

  function FullIds(lib: Library, pairs: set<(string, string)>, ts: seq<string>, keys: set<string>): set<string> {
    set rid | rid in HitIds(pairs, keys) && CoversAll(lib, ts, Shared(pairs, keys, rid))
  }

  function Count(pairs: set<(string, string)>, keys: set<string>): string -> int {
    rid => |Shared(pairs, keys, rid)|
  }

  ghost predicate IsScan(lib: Library, pairs: set<(string, string)>, ts: seq<string>, keys: set<string>, cap: int, out: seq<Candidate>) {
    && (exists full, partial ::
          && IsSorting(ByString(), FullIds(lib, pairs, ts, keys), full)
          && IsSorting(ByRank(Count(pairs, keys)), HitIds(pairs, keys) - FullIds(lib, pairs, ts, keys), partial)
          && Ids(out) == full + Take(partial, cap))
    && (forall c :: c in out ==> IsSorting(ByString(), Shared(pairs, keys, c.recordId), c.matchedKeys))
  }

  /** The scan is fully determined: order, cut and matched keys. */
  lemma NaiveScanUnique(lib: Library, records: seq<WatchRecord>, subject: string, cap: int, out: seq<Candidate>, out': seq<Candidate>)
    requires IsNaiveScan(lib, records, subject, cap, out) && IsNaiveScan(lib, records, subject, cap, out')
    ensures out == out'
  {
    var pairs, ts := Pairs(lib, records), Tokens(lib, subject);
    ScanUnique(lib, pairs, ts, KeysOfTokens(lib, ts), cap, out, out');
  }

  lemma ScanUnique(lib: Library, pairs: set<(string, string)>, ts: seq<string>, keys: set<string>, cap: int, out: seq<Candidate>, out': seq<Candidate>)
    requires IsScan(lib, pairs, ts, keys, cap, out) && IsScan(lib, pairs, ts, keys, cap, out')
    ensures out == out'
  {
    hide CoversAll, ByString;
    var fullIds := FullIds(lib, pairs, ts, keys);
    var rank := ByRank(Count(pairs, keys));
    ByStringIsOrder();
    ByRankIsOrder(Count(pairs, keys));
    var full, partial :| IsSorting(ByString(), fullIds, full) && IsSorting(rank, HitIds(pairs, keys) - fullIds, partial)
      && Ids(out) == full + Take(partial, cap);
    var full', partial' :| IsSorting(ByString(), fullIds, full') && IsSorting(rank, HitIds(pairs, keys) - fullIds, partial')
      && Ids(out') == full' + Take(partial', cap);
    SortingUnique(ByString(), fullIds, full, full');
    SortingUnique(rank, HitIds(pairs, keys) - fullIds, partial, partial');
    assert |out| == |out'|;
    forall k | 0 <= k < |out| ensures out[k] == out'[k] {
      assert Ids(out)[k] == Ids(out')[k];
      SortingUnique(ByString(), Shared(pairs, keys, out[k].recordId), out[k].matchedKeys, out'[k].matchedKeys);
    }
  }

  // ----- The index

  predicate Posted<K, V>(m: map<K, set<V>>, k: K, v: V) {
    k in m && v in m[k]
  }

  function Post<K, V>(m: map<K, set<V>>, k: K, v: V): map<K, set<V>> {
    m[k := (if k in m then m[k] else {}) + {v}]
  }

  class BlockingIndex {
    var byKey: map<string, set<string>>
    var keysOf: map<string, set<string>>

    /** Both dictionaries hold exactly these pairs, so each is the other's inverse. */
    ghost predicate Holds(pairs: set<(string, string)>)
      reads this
    {
      && (forall rid, key :: Posted(byKey, key, rid) <==> (rid, key) in pairs)
      && (forall rid, key :: Posted(keysOf, rid, key) <==> (rid, key) in pairs)
    }

    constructor ()
      ensures byKey == map[] && keysOf == map[]
      ensures Holds({})
    {
      byKey, keysOf := map[], map[];
    }

    /** Posts all of one name's keys. */
    method AddKeys(rid: string, keys: set<string>, ghost pairs: set<(string, string)>)
      requires Holds(pairs)
      modifies this
      ensures Holds(pairs + PairsOf(rid, keys))
    {
      var todo := keys;
      ghost var now := pairs;
      while todo != {}
        invariant todo <= keys
        invariant now == pairs + PairsOf(rid, keys - todo)
        invariant Holds(now)
        decreases todo
      {
        var key :| key in todo;
        byKey := Post(byKey, key, rid);
        keysOf := Post(keysOf, rid, key);
        now := now + {(rid, key)};
        todo := todo - {key};
      }
    }

    /** All name variants of one record. */
    method AddRecord(lib: Library, record: WatchRecord, ghost pairs: set<(string, string)>)
      requires Holds(pairs)
      modifies this
      ensures Holds(pairs + PairsOf(record.id, RecordKeys(lib, record)))
    {
      ghost var done: set<string> := {};
      for j := 0 to |record.names|
        invariant done == VariantKeys(lib, record.names[..j])
        invariant Holds(pairs + PairsOf(record.id, done))
      {
        hide NameKeySet;
        var keys := NameKeys(lib, record.names[j]);
        AddKeys(record.id, keys, pairs + PairsOf(record.id, done));
        assert pairs + PairsOf(record.id, done) + PairsOf(record.id, keys) == pairs + PairsOf(record.id, done + keys);
        OneMoreVariant(lib, record.names, j);
        done := done + keys;
      }
      assert record.names[..|record.names|] == record.names;
    }

    static method Build(lib: Library, records: seq<WatchRecord>) returns (index: BlockingIndex)
      ensures fresh(index) && index.Holds(Pairs(lib, records))
    {
      index := new BlockingIndex();
      for i := 0 to |records|
        invariant fresh(index) && index.Holds(Pairs(lib, records[..i]))
      {
        index.AddRecord(lib, records[i], Pairs(lib, records[..i]));
        OneMoreRecord(lib, records, i);
      }
      assert records[..|records|] == records;
    }

    /** `candidates`: the hits are collected from the inverted index, then ranked and cut. */
    method Candidates(lib: Library, subject: string, cap: int, ghost records: seq<WatchRecord>) returns (out: seq<Candidate>)
      requires Holds(Pairs(lib, records))
      ensures IsNaiveScan(lib, records, subject, cap, out)
    {
      var ts := Tokens(lib, subject);
      var keys := UnionOfKeys(lib, ts);
      var hits := CollectHits(keys, Pairs(lib, records));
      out := RankAndCut(lib, ts, hits, cap, Pairs(lib, records), keys);
    }

    /** `for key in subject_keys: for rid in self._by_key.get(key, ())`. */
    method CollectHits(keys: set<string>, ghost pairs: set<(string, string)>) returns (hits: map<string, set<string>>)
      requires Holds(pairs)
      ensures IsHits(pairs, keys, hits)
    {
      hits := map[];
      var todo := keys;
      ghost var seen: set<(string, string)> := {};
      while todo != {}
        invariant todo <= keys
        invariant seen == set pair | pair in pairs && pair.1 in keys - todo
        invariant Collects(hits, seen)
        decreases todo
      {
        var key :| key in todo;
        var posted := if key in byKey then byKey[key] else {};
        PostedIds(key, pairs, posted);
        ghost var before := seen;
        var left := posted;
        while left != {}
          invariant left <= posted
          invariant seen == before + set rid | rid in posted - left :: (rid, key)
          invariant Collects(hits, seen)
          decreases left
        {
          var rid :| rid in left;
          hits := Post(hits, rid, key);
          seen := seen + {(rid, key)};
          left := left - {rid};
        }
        todo := todo - {key};
      }
      CollectedIsHits(pairs, keys, hits);
    }

    lemma PostedIds(key: string, pairs: set<(string, string)>, posted: set<string>)
      requires Holds(pairs) && posted == if key in byKey then byKey[key] else {}
      ensures forall rid :: rid in posted <==> (rid, key) in pairs
    {
      assert forall rid :: rid in posted <==> Posted(byKey, key, rid);
    }
  }

  /** `hits` holds exactly the pairs seen so far, and no empty entry. */
  ghost predicate Collects(hits: map<string, set<string>>, seen: set<(string, string)>) {
    && (forall rid, key :: Posted(hits, rid, key) <==> (rid, key) in seen)
    && (forall rid :: rid in hits ==> hits[rid] != {})
  }

  /** The hit dictionary: the ids sharing a key, each with the keys it shares. */
  ghost predicate IsHits(pairs: set<(string, string)>, keys: set<string>, hits: map<string, set<string>>) {
    && hits.Keys == HitIds(pairs, keys)
    && (forall rid :: rid in hits ==> hits[rid] == Shared(pairs, keys, rid))
  }

  lemma CollectedIsHits(pairs: set<(string, string)>, keys: set<string>, hits: map<string, set<string>>)
    requires Collects(hits, set pair | pair in pairs && pair.1 in keys)
    ensures IsHits(pairs, keys, hits)
  {
    forall rid | rid in hits ensures hits[rid] == Shared(pairs, keys, rid) {
      forall key ensures key in hits[rid] <==> key in Shared(pairs, keys, rid) {
        assert key in hits[rid] <==> Posted(hits, rid, key);
      }
    }
    forall rid ensures rid in hits <==> rid in HitIds(pairs, keys) {
      if rid in hits {
        var key :| key in hits[rid];
        assert Posted(hits, rid, key);
        assert (rid, key) in pairs;
      }
      if rid in HitIds(pairs, keys) {
        var pair :| pair in pairs && pair.1 in keys && pair.0 == rid;
        assert Posted(hits, rid, pair.1);
      }
    }
  }

  /** The order computed from the hit counts is the order of the scan on the ids at hand. */
  lemma SameRanking(s: set<string>, count: string -> int, count': string -> int, q: seq<string>)
    requires IsSorting(ByRank(count), s, q) && forall rid :: rid in s ==> count(rid) == count'(rid)
    ensures IsSorting(ByRank(count'), s, q)
  {
    forall i, j | 0 <= i < j < |q| ensures ByRank(count')(q[i], q[j]) {
      assert q[i] in s && q[j] in s;
      assert ByRank(count)(q[i], q[j]);
    }
  }

  /** The hits are split, ranked and cut. */
  method RankAndCut(lib: Library, ts: seq<string>, hits: map<string, set<string>>, cap: int,
                    ghost pairs: set<(string, string)>, ghost keys: set<string>) returns (out: seq<Candidate>)
    requires IsHits(pairs, keys, hits)
    ensures IsScan(lib, pairs, ts, keys, cap, out)
  {
    hide CoversAll;
    var fullIds := set rid | rid in hits && CoversAll(lib, ts, hits[rid]);
    assert fullIds == FullIds(lib, pairs, ts, keys);
    ByStringIsOrder();
    var full := Sort(ByString(), fullIds);
    var count := rid => if rid in hits then |hits[rid]| else 0;
    ByRankIsOrder(count);
    var partialIds := hits.Keys - fullIds;
    var partial := Sort(ByRank(count), partialIds);
    SameRanking(partialIds, count, Count(pairs, keys), partial);
    var ids := full + Take(partial, cap);
    forall k | 0 <= k < |ids| ensures ids[k] in hits {
      if k < |full| {
        assert full[k] in fullIds;
      } else {
        assert ids[k] in partial;
      }
    }
    out := Present(hits, ids);
    assert Ids(out) == full + Take(partial, cap);
  }

  method Present(hits: map<string, set<string>>, ids: seq<string>) returns (out: seq<Candidate>)
    requires forall k :: 0 <= k < |ids| ==> ids[k] in hits
    ensures |out| == |ids|
    ensures forall k :: 0 <= k < |ids| ==> out[k].recordId == ids[k] && IsSorting(ByString(), hits[ids[k]], out[k].matchedKeys)
  {
    out := [];
    ByStringIsOrder();
    for k := 0 to |ids|
      invariant |out| == k
      invariant forall j :: 0 <= j < k ==> out[j].recordId == ids[j] && IsSorting(ByString(), hits[ids[j]], out[j].matchedKeys)
    {
      var matched := Sort(ByString(), hits[ids[k]]);
      out := out + [Candidate(ids[k], matched)];
    }
  }

  lemma OneMoreVariant(lib: Library, names: seq<string>, j: nat)
    requires j < |names|
    ensures VariantKeys(lib, names[..j + 1]) == VariantKeys(lib, names[..j]) + NameKeySet(lib, names[j])
  {
    hide NameKeySet;
    assert names[..j + 1] == names[..j] + [names[j]];
  }

  lemma OneMoreRecord(lib: Library, records: seq<WatchRecord>, i: nat)
    requires i < |records|
    ensures Pairs(lib, records[..i + 1]) == Pairs(lib, records[..i]) + PairsOf(records[i].id, RecordKeys(lib, records[i]))
  {
    hide RecordKeys;
    assert records[..i + 1] == records[..i] + [records[i]];
  }

  // ----- What blocking finds

  /** The two dictionaries are mutual inverses. */
  lemma DictionariesInverse(index: BlockingIndex, lib: Library, records: seq<WatchRecord>, rid: string, key: string)
    requires index.Holds(Pairs(lib, records))
    ensures Posted(index.byKey, key, rid) <==> Posted(index.keysOf, rid, key)
    ensures Posted(index.byKey, key, rid) <==>
            exists record :: record in records && record.id == rid && key in RecordKeys(lib, record)
  {
    hide RecordKeys;
    assert Posted(index.byKey, key, rid) <==> (rid, key) in Pairs(lib, records);
  }

  predicate IsCandidate(out: seq<Candidate>, rid: string) {
    exists c :: c in out && c.recordId == rid
  }

  predicate HasKeyedToken(ts: seq<string>) {
    exists t :: t in ts && |t| >= 2
  }

  lemma FullIdsAreFound(lib: Library, pairs: set<(string, string)>, ts: seq<string>, keys: set<string>, cap: int, out: seq<Candidate>, rid: string)
    requires IsScan(lib, pairs, ts, keys, cap, out) && rid in FullIds(lib, pairs, ts, keys)
    ensures IsCandidate(out, rid)
  {
    hide CoversAll;
    var full, partial :| IsSorting(ByString(), FullIds(lib, pairs, ts, keys), full)
      && IsSorting(ByRank(Count(pairs, keys)), HitIds(pairs, keys) - FullIds(lib, pairs, ts, keys), partial)
      && Ids(out) == full + Take(partial, cap);
    var k :| 0 <= k < |full| && full[k] == rid;
    assert Ids(out)[k] == rid;
    assert out[k].recordId == rid;
  }

  lemma FoundIsHit(lib: Library, pairs: set<(string, string)>, ts: seq<string>, keys: set<string>, cap: int, out: seq<Candidate>, rid: string)
    requires IsScan(lib, pairs, ts, keys, cap, out) && IsCandidate(out, rid)
    ensures rid in HitIds(pairs, keys)
  {
    hide CoversAll;
    var full, partial :| IsSorting(ByString(), FullIds(lib, pairs, ts, keys), full)
      && IsSorting(ByRank(Count(pairs, keys)), HitIds(pairs, keys) - FullIds(lib, pairs, ts, keys), partial)
      && Ids(out) == full + Take(partial, cap);
    var c :| c in out && c.recordId == rid;
    var k :| 0 <= k < |out| && out[k] == c;
    assert Ids(out)[k] == rid;
    if k < |full| {
      assert rid in full;
    } else {
      assert rid in Take(partial, cap);
      assert rid in partial;
    }
  }

  /** A subject token and a record token that share a key make the record a hit. */
  lemma SharedTokenKeyIsHit(lib: Library, records: seq<WatchRecord>, record: WatchRecord, name: string, ts: seq<string>, token: string, other: string, key: string)
    requires record in records && name in record.names
    requires token in ts && other in Tokens(lib, name)
    requires key in TokenKeys(lib, token) * TokenKeys(lib, other)
    ensures key in Shared(Pairs(lib, records), KeysOfTokens(lib, ts), record.id)
    ensures record.id in HitIds(Pairs(lib, records), KeysOfTokens(lib, ts))
  {
    hide TokenKeys, Tokens;
    assert key in NameKeySet(lib, name);
    assert key in RecordKeys(lib, record);
    assert (record.id, key) in Pairs(lib, records);
  }

  /** A whole-name match hits every keyed token. */
  lemma WholeNameMatchCovers(lib: Library, records: seq<WatchRecord>, record: WatchRecord, name: string, subject: string, token: string)
    requires record in records && name in record.names
    requires WholeNameMatch(lib, subject, name)
    requires token in Tokens(lib, subject) && |token| >= 2
    ensures TokenKeys(lib, token) * Shared(Pairs(lib, records), KeysOfTokens(lib, Tokens(lib, subject)), record.id) != {}
    ensures record.id in HitIds(Pairs(lib, records), KeysOfTokens(lib, Tokens(lib, subject)))
  {
    var ts := Tokens(lib, subject);
    NoEmptyToken(lib, subject);
    NoEmptyToken(lib, name);
    WholeNameTermSharesKeys(lib, ts, Tokens(lib, name), token);
    hide TokenKeys, Tokens;
    var other :| other in Tokens(lib, name) && TokenKeys(lib, token) * TokenKeys(lib, other) != {};
    var key :| key in TokenKeys(lib, token) * TokenKeys(lib, other);
    SharedTokenKeyIsHit(lib, records, record, name, ts, token, other, key);
    assert key in TokenKeys(lib, token) * Shared(Pairs(lib, records), KeysOfTokens(lib, ts), record.id);
  }

  /** The scorer calls this pair an exact, reordered or transliteration-equivalent name. */
  predicate WholeNameMatch(lib: Library, subject: string, name: string) {
    var term := CompareTerm(lib, Tokens(lib, subject), Tokens(lib, name));
    term.Some? && term.value.IsFullName()
  }

  lemma ShortTokensHaveNoKeys(lib: Library, ts: seq<string>)
    requires !HasKeyedToken(ts)
    ensures KeysOfTokens(lib, ts) == {}
  {
    forall t | t in ts ensures TokenKeys(lib, t) == {} {
      assert |t| < 2;
    }
  }

  /** Blocking recall: a record the scorer would match by its whole name is among the candidates,
      at any cap, if and only if the subject's name has a token of at least two characters. */
  lemma BlockingRecall(lib: Library, records: seq<WatchRecord>, subject: string, cap: int, out: seq<Candidate>,
                       record: WatchRecord, name: string)
    requires IsNaiveScan(lib, records, subject, cap, out)
    requires record in records && name in record.names && WholeNameMatch(lib, subject, name)
    ensures IsCandidate(out, record.id) <==> HasKeyedToken(Tokens(lib, subject))
  {
    var ts := Tokens(lib, subject);
    var pairs, keys := Pairs(lib, records), KeysOfTokens(lib, ts);
    if HasKeyedToken(ts) {
      var token :| token in ts && |token| >= 2;
      WholeNameMatchCovers(lib, records, record, name, subject, token);
      forall t | t in ts && TokenKeys(lib, t) != {} ensures TokenKeys(lib, t) * Shared(pairs, keys, record.id) != {} {
        WholeNameMatchCovers(lib, records, record, name, subject, t);
      }
      FullIdsAreFound(lib, pairs, ts, keys, cap, out, record.id);
    } else {
      ShortTokensHaveNoKeys(lib, ts);
      if IsCandidate(out, record.id) {
        FoundIsHit(lib, pairs, ts, keys, cap, out, record.id);
        assert false;
      }
    }
  }

  predicate SharesKey(lib: Library, record: WatchRecord, subject: string) {
    RecordKeys(lib, record) * NameKeySet(lib, subject) != {}
  }

  lemma HitMeansSharing(lib: Library, records: seq<WatchRecord>, subject: string)
    ensures HitIds(Pairs(lib, records), NameKeySet(lib, subject)) != {}
            <==> exists record :: record in records && SharesKey(lib, record, subject)
  {
    hide RecordKeys, NameKeySet;
    var pairs, keys := Pairs(lib, records), NameKeySet(lib, subject);
    if HitIds(pairs, keys) != {} {
      var pair :| pair in pairs && pair.1 in keys;
      var record, key :| record in records && key in RecordKeys(lib, record) && pair == (record.id, key);
      assert key in RecordKeys(lib, record) * keys;
      assert SharesKey(lib, record, subject);
    }
    if record :| record in records && SharesKey(lib, record, subject) {
      var key :| key in RecordKeys(lib, record) * keys;
      assert (record.id, key) in pairs;
      assert record.id in HitIds(pairs, keys);
    }
  }

  /** With a positive cap, something is found exactly when some record shares a key. */
  lemma FindsSomething(lib: Library, records: seq<WatchRecord>, subject: string, cap: int, out: seq<Candidate>)
    requires IsNaiveScan(lib, records, subject, cap, out) && cap >= 1
    ensures out != [] <==> exists record :: record in records && SharesKey(lib, record, subject)
  {
    hide RecordKeys, CoversAll, SharesKey;
    var ts := Tokens(lib, subject);
    var pairs, keys := Pairs(lib, records), KeysOfTokens(lib, ts);
    HitMeansSharing(lib, records, subject);
    if out != [] {
      assert IsCandidate(out, out[0].recordId);
      FoundIsHit(lib, pairs, ts, keys, cap, out, out[0].recordId);
    }
    if HitIds(pairs, keys) != {} {
      var rid :| rid in HitIds(pairs, keys);
      HitMakesNonempty(lib, pairs, ts, keys, cap, out, rid);
    }
  }

  lemma HitMakesNonempty(lib: Library, pairs: set<(string, string)>, ts: seq<string>, keys: set<string>, cap: int, out: seq<Candidate>, rid: string)
    requires IsScan(lib, pairs, ts, keys, cap, out) && cap >= 1 && rid in HitIds(pairs, keys)
    ensures out != []
  {
    hide CoversAll;
    var full, partial :| IsSorting(ByString(), FullIds(lib, pairs, ts, keys), full)
      && IsSorting(ByRank(Count(pairs, keys)), HitIds(pairs, keys) - FullIds(lib, pairs, ts, keys), partial)
      && Ids(out) == full + Take(partial, cap);
    assert rid in full || rid in partial;
    assert |Ids(out)| > 0;
  }

  // ----- What the cap cuts

  /** The keys this name shares with the records of this id. */
  function SharedKeys(lib: Library, records: seq<WatchRecord>, subject: string, rid: string): set<string> {
    Shared(Pairs(lib, records), NameKeySet(lib, subject), rid)
  }

  /** Some keyed token of the name has no key among the shared ones. */
  predicate MissesToken(lib: Library, records: seq<WatchRecord>, subject: string, rid: string) {
    exists t :: t in Tokens(lib, subject) && TokenKeys(lib, t) != {}
                && TokenKeys(lib, t) * SharedKeys(lib, records, subject, rid) == {}
  }

  /** The scan is a run of records that miss no token, then the best of those that do. */
  lemma ScanShape(lib: Library, records: seq<WatchRecord>, subject: string, cap: int, out: seq<Candidate>)
      returns (full: seq<string>, partial: seq<string>)
    requires IsNaiveScan(lib, records, subject, cap, out)
    ensures Ids(out) == full + Take(partial, cap)
    ensures forall i, j :: 0 <= i < j < |full| ==> StringLess(full[i], full[j])
    ensures forall i, j :: 0 <= i < j < |partial| ==> Better(lib, records, subject, partial[i], partial[j])
    ensures forall rid :: rid in full <==> SharedKeys(lib, records, subject, rid) != {} && !MissesToken(lib, records, subject, rid)
    ensures forall rid :: rid in partial <==> SharedKeys(lib, records, subject, rid) != {} && MissesToken(lib, records, subject, rid)
  {
    hide Pairs, TokenKeys, Tokens, Take, StringLess;
    var pairs, ts := Pairs(lib, records), Tokens(lib, subject);
    var keys := KeysOfTokens(lib, ts);
    var full', partial' :| IsSorting(ByString(), FullIds(lib, pairs, ts, keys), full')
      && IsSorting(ByRank(Count(pairs, keys)), HitIds(pairs, keys) - FullIds(lib, pairs, ts, keys), partial')
      && Ids(out) == full' + Take(partial', cap);
    full, partial := full', partial';
    HitsShareKeys(pairs, keys);
    forall rid ensures CoversAll(lib, ts, Shared(pairs, keys, rid)) <==> !MissesToken(lib, records, subject, rid) {
    }
    hide CoversAll, MissesToken, HitIds;
    forall i, j | 0 <= i < j < |partial| ensures Better(lib, records, subject, partial[i], partial[j]) {
      assert ByRank(Count(pairs, keys))(partial[i], partial[j]);
    }
    forall i, j | 0 <= i < j < |full| ensures StringLess(full[i], full[j]) {
      assert ByString()(full[i], full[j]);
    }
  }

  lemma HitsShareKeys(pairs: set<(string, string)>, keys: set<string>)
    ensures forall rid :: rid in HitIds(pairs, keys) <==> Shared(pairs, keys, rid) != {}
  {
    forall rid ensures rid in HitIds(pairs, keys) <==> Shared(pairs, keys, rid) != {} {
      if rid in HitIds(pairs, keys) {
        var pair :| pair in pairs && pair.1 in keys && pair.0 == rid;
        assert pair.1 in Shared(pairs, keys, rid);
      }
      if Shared(pairs, keys, rid) != {} {
        var key :| key in Shared(pairs, keys, rid);
        assert (rid, key) in pairs;
      }
    }
  }

  /** `rid` shares more keys than `other`, or as many and comes first by id. */
  predicate Better(lib: Library, records: seq<WatchRecord>, subject: string, rid: string, other: string) {
    || |SharedKeys(lib, records, subject, other)| < |SharedKeys(lib, records, subject, rid)|
    || (|SharedKeys(lib, records, subject, other)| == |SharedKeys(lib, records, subject, rid)| && StringLess(rid, other))
  }

  /** The answer cut where the records that miss a token begin, and what the cap left out. */
  lemma ScanParts(lib: Library, records: seq<WatchRecord>, subject: string, cap: int, out: seq<Candidate>)
      returns (full: seq<string>, taken: seq<string>, lost: seq<string>)
    requires IsNaiveScan(lib, records, subject, cap, out)
    ensures Ids(out) == full + taken && taken == Take(taken + lost, cap)
    ensures forall i, j :: 0 <= i < j < |full| ==> StringLess(full[i], full[j])
    ensures forall i, j :: 0 <= i < j < |taken + lost| ==> Better(lib, records, subject, (taken + lost)[i], (taken + lost)[j])
    ensures forall p, q :: p in taken && q in lost ==> Better(lib, records, subject, p, q)
    ensures forall rid :: rid in full <==> SharedKeys(lib, records, subject, rid) != {} && !MissesToken(lib, records, subject, rid)
    ensures forall rid :: rid in taken || rid in lost <==> SharedKeys(lib, records, subject, rid) != {} && MissesToken(lib, records, subject, rid)
  {
    var partial;
    full, partial := ScanShape(lib, records, subject, cap, out);
    hide IsNaiveScan, MissesToken, SharedKeys, StringLess, Better;
    taken, lost := TakeSplits(partial, cap);
    hide Take;
    PartsKeepOrder(lib, records, subject, partial, taken, lost);
    hide Ids;
  }

  lemma PartsKeepOrder(lib: Library, records: seq<WatchRecord>, subject: string, ids: seq<string>, taken: seq<string>, lost: seq<string>)
    requires ids == taken + lost
    requires forall i, j :: 0 <= i < j < |ids| ==> Better(lib, records, subject, ids[i], ids[j])
    ensures forall p, q :: p in taken && q in lost ==> Better(lib, records, subject, p, q)
  {
    hide Better;
    forall p, q | p in taken && q in lost ensures Better(lib, records, subject, p, q) {
      var i :| 0 <= i < |taken| && taken[i] == p;
      var j :| 0 <= j < |lost| && lost[j] == q;
      assert ids[i] == p && ids[|taken| + j] == q;
    }
  }

  lemma TakeSplits<T>(s: seq<T>, cap: int) returns (taken: seq<T>, lost: seq<T>)
    ensures taken + lost == s && taken == Take(s, cap)
    ensures forall x :: x in s <==> x in taken || x in lost
  {
    taken := Take(s, cap);
    lost := s[|taken|..];
    assert s == taken + lost;
  }

  lemma CandidatesAreIds(out: seq<Candidate>)
    ensures forall rid :: rid in Ids(out) <==> IsCandidate(out, rid)
    ensures forall c :: c in out ==> c.recordId in Ids(out)
  {
    forall c | c in out ensures c.recordId in Ids(out) {
      var k :| 0 <= k < |out| && out[k] == c;
      assert Ids(out)[k] == c.recordId;
    }
    forall rid | rid in Ids(out) ensures IsCandidate(out, rid) {
      var k :| 0 <= k < |Ids(out)| && Ids(out)[k] == rid;
      assert out[k].recordId == rid;
    }
  }

  /** What the cap leaves out: only records that miss a keyed token, and each of them shares no more
      keys than any returned record that misses one; on equal counts its id comes later. */
  lemma CapKeepsTheBest(lib: Library, records: seq<WatchRecord>, subject: string, cap: int, out: seq<Candidate>, rid: string)
    requires IsNaiveScan(lib, records, subject, cap, out)
    requires SharedKeys(lib, records, subject, rid) != {} && !IsCandidate(out, rid)
    ensures MissesToken(lib, records, subject, rid)
    ensures forall c :: c in out && MissesToken(lib, records, subject, c.recordId) ==>
              var kept, lost := |SharedKeys(lib, records, subject, c.recordId)|, |SharedKeys(lib, records, subject, rid)|;
              lost < kept || (lost == kept && StringLess(c.recordId, rid))
  {
    var full, taken, lost := ScanParts(lib, records, subject, cap, out);
    hide IsNaiveScan, MissesToken, SharedKeys, StringLess, Take;
    CandidatesAreIds(out);
    assert rid in lost;
    forall c | c in out && MissesToken(lib, records, subject, c.recordId) ensures Better(lib, records, subject, c.recordId, rid) {
      assert c.recordId in taken;
    }
  }

  /** The order of the answer: records that miss no keyed token first, by id; then those that miss
      one, most shared keys first and by id on equal counts. */
  lemma ScanOrder(lib: Library, records: seq<WatchRecord>, subject: string, cap: int, out: seq<Candidate>, i: nat, j: nat)
    requires IsNaiveScan(lib, records, subject, cap, out) && i < j < |out|
    ensures var p, q := out[i].recordId, out[j].recordId;
            && (MissesToken(lib, records, subject, p) ==> MissesToken(lib, records, subject, q))
            && (!MissesToken(lib, records, subject, q) ==> StringLess(p, q))
            && (MissesToken(lib, records, subject, p) ==>
                  var first, second := |SharedKeys(lib, records, subject, p)|, |SharedKeys(lib, records, subject, q)|;
                  second < first || (second == first && StringLess(p, q)))
  {
    var full, taken, lost := ScanParts(lib, records, subject, cap, out);
    hide IsNaiveScan, MissesToken, SharedKeys, StringLess, Take;
    var p, q := out[i].recordId, out[j].recordId;
    assert p == Ids(out)[i] == (full + taken)[i] && q == Ids(out)[j] == (full + taken)[j];
    if i < |full| {
      assert p in full;
    } else {
      assert p == (taken + lost)[i - |full|] && p in taken;
    }
    if j < |full| {
      assert q in full;
    } else {
      assert q == (taken + lost)[j - |full|] && q in taken;
    }
  }

  /** How many of the returned records miss a keyed token: all there are, up to the cap. */
  lemma AtMostCapMissToken(lib: Library, records: seq<WatchRecord>, subject: string, cap: int, out: seq<Candidate>)
    requires IsNaiveScan(lib, records, subject, cap, out)
    ensures var all := set rid | rid in HitIds(Pairs(lib, records), NameKeySet(lib, subject)) && MissesToken(lib, records, subject, rid);
            var returned := set c | c in out && MissesToken(lib, records, subject, c.recordId) :: c.recordId;
            && returned <= all
            && |returned| == if cap >= |all| then |all| else if cap >= 0 then cap else if |all| + cap >= 0 then |all| + cap else 0
  {
    var full, taken, lost := ScanParts(lib, records, subject, cap, out);
    HitsShareKeys(Pairs(lib, records), NameKeySet(lib, subject));
    hide IsNaiveScan, MissesToken, StringLess, HitIds, NameKeySet, Pairs, Shared, Take;
    var all := set rid | rid in HitIds(Pairs(lib, records), NameKeySet(lib, subject)) && MissesToken(lib, records, subject, rid);
    var returned := set c | c in out && MissesToken(lib, records, subject, c.recordId) :: c.recordId;
    CandidatesAreIds(out);
    forall rid ensures rid in returned <==> rid in taken {
      assert rid in taken ==> rid in Ids(out);
    }
    hide SharedKeys, IsCandidate;
    BetterIsStrict(lib, records, subject, taken + lost);
    SizesAfterCut(taken, lost, cap, all, returned);
  }

  lemma SizesAfterCut(taken: seq<string>, lost: seq<string>, cap: int, all: set<string>, returned: set<string>)
    requires taken == Take(taken + lost, cap)
    requires forall i, j :: 0 <= i < j < |taken + lost| ==> (taken + lost)[i] != (taken + lost)[j]
    requires forall x :: x in all <==> x in taken || x in lost
    requires forall x :: x in returned <==> x in taken
    ensures |returned| == if cap >= |all| then |all| else if cap >= 0 then cap else if |all| + cap >= 0 then |all| + cap else 0
  {
    SizeOfDistinct(taken + lost, all);
    assert forall i :: 0 <= i < |taken| ==> taken[i] == (taken + lost)[i];
    SizeOfDistinct(taken, returned);
  }

  lemma BetterIsStrict(lib: Library, records: seq<WatchRecord>, subject: string, ids: seq<string>)
    requires forall i, j :: 0 <= i < j < |ids| ==> Better(lib, records, subject, ids[i], ids[j])
    ensures forall i, j :: 0 <= i < j < |ids| ==> ids[i] != ids[j]
  {
    hide SharedKeys, StringLess;
    forall i, j | 0 <= i < j < |ids| ensures ids[i] != ids[j] {
      assert Better(lib, records, subject, ids[i], ids[j]);
      StringLessTotal(ids[i], ids[i]);
    }
  }

  lemma {:induction false} SizeOfDistinct<T>(q: seq<T>, s: set<T>)
    requires forall i, j :: 0 <= i < j < |q| ==> q[i] != q[j]
    requires forall x :: x in s <==> x in q
    ensures |s| == |q|
    decreases |q|
  {
    if q == [] {
      assert s == {};
    } else {
      SizeOfDistinct(q[1..], s - {q[0]});
    }
  }

  // ----- The blocking stage

  /** A scan at the default cap for this name returns the record. */
  ghost predicate FoundFor(lib: Library, records: seq<WatchRecord>, name: string, rid: string) {
    exists out :: IsNaiveScan(lib, records, name, DEFAULT_CAP, out) && IsCandidate(out, rid)
  }

  /** A scan for this name returns the record with this key among the matched ones. */
  ghost predicate FoundBy(lib: Library, records: seq<WatchRecord>, name: string, rid: string, key: string) {
    FoundFor(lib, records, name, rid) && key in Shared(Pairs(lib, records), NameKeySet(lib, name), rid)
  }

  /** `BlockCandidatesStage.run`'s loop: the union of the candidates, and of each one's matched keys,
      over all the subject's names (backend/app/screening/stages.py:145-156). */
  method BlockSubject(lib: Library, index: BlockingIndex, names: seq<string>, ghost records: seq<WatchRecord>) returns (matched: map<string, set<string>>)
    requires index.Holds(Pairs(lib, records))
    ensures forall rid :: rid in matched <==> exists name :: name in names && name != "" && FoundFor(lib, records, name, rid)
    ensures forall rid, key :: Posted(matched, rid, key) <==> exists name :: name in names && name != "" && FoundBy(lib, records, name, rid, key)
  {
    hide IsNaiveScan, Pairs, Posted, FoundFor, FoundBy;
    matched := map[];
    NothingPosted();
    for i := 0 to |names|
      invariant forall rid :: rid in matched <==> exists name :: name in names[..i] && name != "" && FoundFor(lib, records, name, rid)
      invariant forall rid, key :: Posted(matched, rid, key) <==> exists name :: name in names[..i] && name != "" && FoundBy(lib, records, name, rid, key)
    {
      assert names[..i + 1] == names[..i] + [names[i]];
      if names[i] != "" {
        var out := index.Candidates(lib, names[i], DEFAULT_CAP, records);
        OneScanDecides(lib, records, names[i], out);
        UpdatePosts(matched, out);
        matched := Update(matched, out);
      }
    }
    assert names[..|names|] == names;
  }

  lemma NothingPosted()
    ensures forall rid, key :: !Posted<string, string>(map[], rid, key)
  {
  }

  predicate Matches(out: seq<Candidate>, rid: string, key: string) {
    exists c :: c in out && c.recordId == rid && key in c.matchedKeys
  }

  lemma OneScanDecides(lib: Library, records: seq<WatchRecord>, name: string, out: seq<Candidate>)
    requires IsNaiveScan(lib, records, name, DEFAULT_CAP, out)
    ensures forall rid :: FoundFor(lib, records, name, rid) <==> IsCandidate(out, rid)
    ensures forall rid, key :: FoundBy(lib, records, name, rid, key) <==> Matches(out, rid, key)
  {
    forall rid, out' | IsNaiveScan(lib, records, name, DEFAULT_CAP, out') && IsCandidate(out', rid) ensures IsCandidate(out, rid) {
      NaiveScanUnique(lib, records, name, DEFAULT_CAP, out, out');
    }
    hide FoundFor;
    forall c | c in out ensures forall key :: key in c.matchedKeys <==> key in Shared(Pairs(lib, records), NameKeySet(lib, name), c.recordId) {
      MatchedAreShared(lib, records, name, out, c);
    }
    hide IsNaiveScan, Shared;
  }

  lemma MatchedAreShared(lib: Library, records: seq<WatchRecord>, name: string, out: seq<Candidate>, c: Candidate)
    requires IsNaiveScan(lib, records, name, DEFAULT_CAP, out) && c in out
    ensures forall key :: key in c.matchedKeys <==> key in Shared(Pairs(lib, records), NameKeySet(lib, name), c.recordId)
  {
    hide CoversAll, Pairs;
  }

  /** `matched.setdefault(cand.record_id, set()).update(cand.matched_keys)` for every candidate. */
  function Update(matched: map<string, set<string>>, out: seq<Candidate>): (m: map<string, set<string>>)
    ensures forall rid :: rid in m <==> rid in matched || IsCandidate(out, rid)
  {
    if out == [] then matched
    else
      var last := out[|out| - 1];
      var rest := Update(matched, out[..|out| - 1]);
      rest[last.recordId := (if last.recordId in rest then rest[last.recordId] else {}) + set k | k in last.matchedKeys]
  }

  lemma {:induction false} UpdatePosts(matched: map<string, set<string>>, out: seq<Candidate>)
    ensures forall rid, key :: Posted(Update(matched, out), rid, key) <==> Posted(matched, rid, key) || Matches(out, rid, key)
    decreases |out|
  {
    if out != [] {
      var n := |out| - 1;
      UpdatePosts(matched, out[..n]);
      assert out == out[..n] + [out[n]];
      assert forall rid, key :: Matches(out, rid, key) <==> Matches(out[..n], rid, key) || (out[n].recordId == rid && key in out[n].matchedKeys);
    }
  }

  /** Each of these ids, presented with the keys it shares. */
  lemma {:induction false} PresentExists(pairs: set<(string, string)>, keys: set<string>, ids: seq<string>) returns (out: seq<Candidate>)
    ensures Ids(out) == ids
    ensures forall c :: c in out ==> IsSorting(ByString(), Shared(pairs, keys, c.recordId), c.matchedKeys)
    decreases |ids|
  {
    if ids == [] {
      out := [];
    } else {
      var n := |ids| - 1;
      var fewer := PresentExists(pairs, keys, ids[..n]);
      ByStringIsOrder();
      var matched := SortingExists(ByString(), Shared(pairs, keys, ids[n]));
      hide Shared, ByString;
      out := fewer + [Candidate(ids[n], matched)];
      assert ids == ids[..n] + [ids[n]];
    }
  }

  /** The naive scan has a result for every name. */
  lemma ScanExists(lib: Library, records: seq<WatchRecord>, subject: string, cap: int) returns (out: seq<Candidate>)
    ensures IsNaiveScan(lib, records, subject, cap, out)
  {
    hide CoversAll, Pairs, ByString;
    var pairs, ts := Pairs(lib, records), Tokens(lib, subject);
    var keys := KeysOfTokens(lib, ts);
    ByStringIsOrder();
    ByRankIsOrder(Count(pairs, keys));
    var full := SortingExists(ByString(), FullIds(lib, pairs, ts, keys));
    var partial := SortingExists(ByRank(Count(pairs, keys)), HitIds(pairs, keys) - FullIds(lib, pairs, ts, keys));
    out := PresentExists(pairs, keys, full + Take(partial, cap));
  }

  /** A record that matches a keyed name as a whole is found by a scan for that name. */
  lemma WholeNameIsFound(lib: Library, records: seq<WatchRecord>, name: string, record: WatchRecord, variant: string)
    requires HasKeyedToken(Tokens(lib, name))
    requires record in records && variant in record.names && WholeNameMatch(lib, name, variant)
    ensures FoundFor(lib, records, name, record.id)
  {
    hide IsNaiveScan;
    var out := ScanExists(lib, records, name, DEFAULT_CAP);
    BlockingRecall(lib, records, name, DEFAULT_CAP, out, record, variant);
  }

  /** A one-letter name: the scorer calls it exact, blocking finds nothing at any cap. */
  lemma OneLetterNameIsMissed(cap: int, out: seq<Candidate>)
    requires var lib := Library((s: string) => false, (s: string) => s, (s: string) => s, map[]);
             IsNaiveScan(lib, [WatchRecord("1", "1", ["o"], [], [], [], [])], "o", cap, out)
    ensures var lib := Library((s: string) => false, (s: string) => s, (s: string) => s, map[]);
            WholeNameMatch(lib, "o", "o") && !IsCandidate(out, "1")
  {
    var lib := Library((s: string) => false, (s: string) => s, (s: string) => s, map[]);
    var record := WatchRecord("1", "1", ["o"], [], [], [], []);
    OneLetterTokens(lib);
    hide Tokens, IsNaiveScan;
    assert WholeNameMatch(lib, "o", "o");
    BlockingRecall(lib, [record], "o", cap, out, record, "o");
  }

  lemma OneLetterTokens(lib: Library)
    requires !lib.isBlank("o") && lib.ascii("o") == "o"
    ensures Tokens(lib, "o") == ["o"]
  {
    assert CamelSplit("o") == "o";
    assert ToLower('o') == 'o';
    assert "o"[1..] == "";
    assert [] + ['o'] == "o";
    assert Words("", "o") == ["o"];
    assert Words("o", []) == ["o"];
    assert ["o"][1..] == [];
    assert DropParticles(["o"]) == ["o"];
  }
}
