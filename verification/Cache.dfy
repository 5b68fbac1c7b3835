/** The adapter result cache: per-source expiry, first-in-first-out eviction
    (backend/app/adapters/cache.py). */
module Cache {
  import opened Wrappers

  /** (source, lookup key) */
  type Key = (string, string)

  datatype Config = Config(maxSize: int, ttls: map<string, real>, defaultTtl: real) {
    function Ttl(source: string): real {
      if source in ttls then ttls[source] else defaultTtl
    }
  }

  datatype Item<V> = Item(value: V, expiresAt: real)

  // ----- The insertion-ordered dictionary

  /** A Python dictionary: its keys in insertion order, and their values. */
  datatype Store<V> = Store(order: seq<Key>, entries: map<Key, Item<V>>)

  predicate NoDuplicates(order: seq<Key>) {
    forall i, j :: 0 <= i < j < |order| ==> order[i] != order[j]
  }

  ghost predicate WellFormed<V>(s: Store<V>) {
    NoDuplicates(s.order) && (forall k :: k in s.order <==> k in s.entries)
  }

  function Remove(order: seq<Key>, k: Key): seq<Key> {
    if order == [] then []
    else if order[0] == k then order[1..]
    else [order[0]] + Remove(order[1..], k)
  }

  function Delete<V>(s: Store<V>, k: Key): Store<V> {
    Store(Remove(s.order, k), s.entries - {k})
  }

  /** Assignment keeps the place of a key that is there and appends one that is not. */
  function Assign<V>(s: Store<V>, k: Key, item: Item<V>): Store<V> {
    Store(if k in s.entries then s.order else s.order + [k], s.entries[k := item])
  }

  /** `set`: None when there is nothing to evict (a cache of size 0 cannot store). */
  function SetIn<V>(s: Store<V>, maxSize: int, k: Key, item: Item<V>): Option<Store<V>> {
    if k !in s.entries && |s.order| >= maxSize then
      if s.order == [] then None else Some(Assign(Delete(s, s.order[0]), k, item))
    else Some(Assign(s, k, item))
  }

  /** `get`: a hit only while unexpired; an expired entry is deleted. */
  function GetFrom<V>(s: Store<V>, k: Key, now: real): (Option<V>, Store<V>) {
    if k !in s.entries then (None, s)
    else if now >= s.entries[k].expiresAt then (None, Delete(s, k))
    else (Some(s.entries[k].value), s)
  }

  lemma {:induction false} RemoveKeepsOrder(order: seq<Key>, k: Key)
    requires NoDuplicates(order)
    ensures NoDuplicates(Remove(order, k))
    ensures forall x :: x in Remove(order, k) <==> x in order && x != k
  {
    if order != [] {
      var rest := order[1..];
      assert NoDuplicates(rest);
      RemoveKeepsOrder(rest, k);
      assert order == [order[0]] + rest;
      if order[0] != k {
        forall j | 0 <= j < |Remove(rest, k)| ensures Remove(rest, k)[j] != order[0] {
          assert Remove(rest, k)[j] in rest;
        }
      }
    }
  }

  class AdapterCache<V> {
    const config: Config
    var store: Store<V>

    ghost predicate Valid() reads this { WellFormed(store) }

    constructor (config: Config)
      ensures this.config == config && store == Store([], map[]) && Valid()
    {
      this.config := config;
      store := Store([], map[]);
    }

    method Get(k: Key, now: real) returns (r: Option<V>)
      requires Valid()
      modifies this
      ensures Valid() && (r, store) == GetFrom(old(store), k, now)
    {
      if k !in store.entries {
        return None;
      }
      var entry := store.entries[k];
      if now >= entry.expiresAt {
        RemoveKeepsOrder(store.order, k);
        store := Delete(store, k);
        return None;
      }
      return Some(entry.value);
    }

    /** False when the eviction finds nothing to evict and raises. */
    method Set(k: Key, v: V, now: real) returns (ok: bool)
      requires Valid()
      modifies this
      ensures Valid()
      ensures var s := SetIn(old(store), config.maxSize, k, Item(v, now + config.Ttl(k.0)));
              ok == s.Some? && store == if ok then s.value else old(store)
      ensures config.maxSize >= 1 ==> ok
    {
      var item := Item(v, now + config.Ttl(k.0));
      if k !in store.entries && |store.order| >= config.maxSize {
        if store.order == [] {
          return false;
        }
        RemoveKeepsOrder(store.order, store.order[0]);
        store := Delete(store, store.order[0]);
      }
      store := Assign(store, k, item);
      return true;
    }

    method Invalidate(k: Key)
      requires Valid()
      modifies this
      ensures Valid() && store == Delete(old(store), k)
    {
      RemoveKeepsOrder(store.order, k);
      store := Delete(store, k);
    }

    method Clear()
      modifies this
      ensures Valid() && store == Store([], map[])
    {
      store := Store([], map[]);
    }

    /** What other threads do meanwhile: any run of calls. */
    method Others(events: seq<Event<V>>)
      requires Valid()
      modifies this
      ensures Valid() && store == AfterFrom(config, old(store), events)
    {
      hide GetFrom, SetIn, Delete, WellFormed;
      for i := 0 to |events|
        invariant Valid() && store == AfterFrom(config, old(store), events[..i])
      {
        assert events[..i + 1][..i] == events[..i];
        match events[i]
        case GetAt(k, now) =>
          var r := Get(k, now);
        case SetAt(k, v, now) =>
          var ok := Set(k, v, now);
        case InvalidateAt(k) => Invalidate(k);
        case ClearAll => Clear();
      }
      assert events[..|events|] == events;
    }

    /** `CachedAdapter.fetch`: an unexpired result for this source and key, or the live one, which
        is then cached, whatever other threads did to the cache while it was fetched. */
    method Fetch(source: string, lookup: string, live: V, now: real, later: real, meanwhile: seq<Event<V>>) returns (r: V)
      requires Valid() && config.maxSize >= 1
      modifies this
      ensures Valid()
      ensures r == live
              || ((source, lookup) in old(store).entries
                  && r == old(store).entries[(source, lookup)].value && now < old(store).entries[(source, lookup)].expiresAt)
      ensures GetFrom(old(store), (source, lookup), now).0 == None ==>
              r == live && (source, lookup) in store.entries
              && store.entries[(source, lookup)] == Item(live, later + config.Ttl(source))
              && SetIn(AfterFrom(config, GetFrom(old(store), (source, lookup), now).1, meanwhile), config.maxSize,
                       (source, lookup), Item(live, later + config.Ttl(source))) == Some(store)
      ensures GetFrom(old(store), (source, lookup), now).0.Some? ==> store == old(store)
    {
      var cached := Get((source, lookup), now);
      if cached.Some? {
        return cached.value;
      }
      Others(meanwhile);
      var ok := Set((source, lookup), live, later);
      return live;
    }
  }

  // ----- Any run of calls

  datatype Event<V> =
    | GetAt(k: Key, now: real)
    | SetAt(k: Key, v: V, now: real)
    | InvalidateAt(k: Key)
    | ClearAll

  function Perform<V>(cfg: Config, s: Store<V>, e: Event<V>): Store<V> {
    match e
    case GetAt(k, now) => GetFrom(s, k, now).1
    case SetAt(k, v, now) => SetIn(s, cfg.maxSize, k, Item(v, now + cfg.Ttl(k.0))).UnwrapOr(s)
    case InvalidateAt(k) => Delete(s, k)
    case ClearAll => Store([], map[])
  }

  function AfterFrom<V>(cfg: Config, s: Store<V>, events: seq<Event<V>>): Store<V> {
    if events == [] then s
    else Perform(cfg, AfterFrom(cfg, s, events[..|events| - 1]), events[|events| - 1])
  }

  function After<V>(cfg: Config, events: seq<Event<V>>): Store<V> {
    AfterFrom(cfg, Store([], map[]), events)
  }

  /** What the cache is for, without an order: each resident's last value, its expiry, and the
      event that brought it in; a full cache loses the resident brought in first. */
  datatype Resident<V> = Resident(item: Item<V>, born: nat)

  ghost predicate IsOldest<V>(m: map<Key, Resident<V>>, k: Key) {
    k in m && forall x :: x in m ==> m[k].born <= m[x].born
  }

  ghost predicate ModelStep<V>(cfg: Config, m: map<Key, Resident<V>>, e: Event<V>, n: nat, m': map<Key, Resident<V>>) {
    match e
    case GetAt(k, now) => m' == if k in m && now >= m[k].item.expiresAt then m - {k} else m
    case SetAt(k, v, now) =>
      var item := Item(v, now + cfg.Ttl(k.0));
      if k in m then m' == m[k := Resident(item, m[k].born)]
      else if |m| >= cfg.maxSize then exists x :: IsOldest(m, x) && m' == (m - {x})[k := Resident(item, n)]
      else m' == m[k := Resident(item, n)]
    case InvalidateAt(k) => m' == m - {k}
    case ClearAll => m' == map[]
  }

  ghost predicate IsModelRun<V>(cfg: Config, events: seq<Event<V>>, ms: seq<map<Key, Resident<V>>>) {
    && |ms| == |events| + 1 && ms[0] == map[]
    && forall n :: 0 <= n < |events| ==> ModelStep(cfg, ms[n], events[n], n, ms[n + 1])
  }

  /** The dictionary holds the residents' items, in the order they came in. */
  ghost predicate Refines<V>(s: Store<V>, m: map<Key, Resident<V>>, n: nat) {
    && WellFormed(s)
    && s.entries.Keys == m.Keys
    && (forall k :: k in m ==> s.entries[k] == m[k].item && m[k].born < n)
    && (forall i, j :: 0 <= i < j < |s.order| ==> m[s.order[i]].born < m[s.order[j]].born)
  }

  lemma SizeOfOrder<V>(s: Store<V>, m: map<Key, Resident<V>>, n: nat)
    requires Refines(s, m, n)
    ensures |s.order| == |m|
  {
    UniqueLength(s.order, m.Keys);
  }

  lemma {:induction false} UniqueLength(order: seq<Key>, keys: set<Key>)
    requires NoDuplicates(order) && forall k :: k in order <==> k in keys
    ensures |order| == |keys|
  {
    if order == [] {
      assert keys == {};
    } else {
      var rest := order[1..];
      assert order == [order[0]] + rest;
      UniqueLength(rest, keys - {order[0]});
    }
  }

  lemma {:induction false} RemoveKeepsBirths<V>(order: seq<Key>, k: Key, m: map<Key, Resident<V>>)
    requires forall x :: x in order ==> x in m
    requires forall i, j :: 0 <= i < j < |order| ==> m[order[i]].born < m[order[j]].born
    ensures forall x :: x in Remove(order, k) ==> x in order
    ensures forall i, j :: 0 <= i < j < |Remove(order, k)| ==> m[Remove(order, k)[i]].born < m[Remove(order, k)[j]].born
  {
    if order != [] && order[0] != k {
      var rest := order[1..];
      assert forall x :: x in rest ==> x in order;
      RemoveKeepsBirths(rest, k, m);
      forall j | 0 <= j < |Remove(rest, k)| ensures m[order[0]].born < m[Remove(rest, k)[j]].born {
        assert Remove(rest, k)[j] in rest;
      }
    }
  }

  lemma DeleteRefines<V>(s: Store<V>, m: map<Key, Resident<V>>, n: nat, k: Key)
    requires Refines(s, m, n)
    ensures Refines(Delete(s, k), m - {k}, n)
  {
    RemoveKeepsOrder(s.order, k);
    RemoveKeepsBirths(s.order, k, m);
    var o := Remove(s.order, k);
    forall i | 0 <= i < |o| ensures o[i] in m - {k} && (m - {k})[o[i]] == m[o[i]] {
      assert o[i] in o;
    }
  }

  lemma AssignWellFormed<V>(s: Store<V>, k: Key, item: Item<V>)
    requires WellFormed(s)
    ensures WellFormed(Assign(s, k, item))
  {
    var s' := Assign(s, k, item);
    forall x ensures x in s'.order <==> x in s'.entries {
    }
  }

  lemma AssignKeepsBirths<V>(s: Store<V>, m: map<Key, Resident<V>>, n: nat, k: Key, item: Item<V>)
    requires Refines(s, m, n)
    ensures var o, m' := Assign(s, k, item).order, m[k := Resident(item, if k in m then m[k].born else n)];
            forall i, j :: 0 <= i < j < |o| ==> o[i] in m' && o[j] in m' && m'[o[i]].born < m'[o[j]].born
  {
    OrderHasKeys(s, m, n);
    hide WellFormed;
    var o, m' := Assign(s, k, item).order, m[k := Resident(item, if k in m then m[k].born else n)];
    forall i, j | 0 <= i < j < |o| ensures o[i] in m' && o[j] in m' && m'[o[i]].born < m'[o[j]].born {
      assert s.order[i] in s.order;
      if j < |s.order| {
        assert s.order[j] in s.order;
      }
    }
  }

  lemma AssignRefines<V>(s: Store<V>, m: map<Key, Resident<V>>, n: nat, k: Key, item: Item<V>)
    requires Refines(s, m, n)
    ensures Refines(Assign(s, k, item), m[k := Resident(item, if k in m then m[k].born else n)], n + 1)
  {
    AssignWellFormed(s, k, item);
    OrderHasKeys(s, m, n);
    AssignKeepsBirths(s, m, n, k, item);
    hide WellFormed;
  }

  lemma OrderHasKeys<V>(s: Store<V>, m: map<Key, Resident<V>>, n: nat)
    requires Refines(s, m, n)
    ensures forall k :: k in s.order <==> k in m
  {
  }

  lemma WeakenRefines<V>(s: Store<V>, m: map<Key, Resident<V>>, n: nat)
    requires Refines(s, m, n)
    ensures Refines(s, m, n + 1)
  {
  }

  /** The head of the dictionary is the resident that came in first. */
  lemma HeadIsOldest<V>(s: Store<V>, m: map<Key, Resident<V>>, n: nat)
    requires Refines(s, m, n) && s.order != []
    ensures IsOldest(m, s.order[0])
  {
    assert s.order[0] in s.order;
    forall x | x in m ensures m[s.order[0]].born <= m[x].born {
      var i :| 0 <= i < |s.order| && s.order[i] == x;
    }
  }

  lemma StepRefines<V>(cfg: Config, s: Store<V>, m: map<Key, Resident<V>>, e: Event<V>, n: nat) returns (m': map<Key, Resident<V>>)
    requires cfg.maxSize >= 1 && Refines(s, m, n)
    ensures ModelStep(cfg, m, e, n, m') && Refines(Perform(cfg, s, e), m', n + 1)
  {
    hide Refines;
    match e
    case GetAt(k, now) =>
      m' := GetRefines(s, m, n, k, now);
      WeakenRefines(GetFrom(s, k, now).1, m', n);
    case SetAt(k, v, now) =>
      m' := SetRefines(cfg, s, m, n, k, v, now);
    case InvalidateAt(k) =>
      m' := m - {k};
      DeleteRefines(s, m, n, k);
      WeakenRefines(Delete(s, k), m', n);
    case ClearAll =>
      m' := map[];
      EmptyRefines<V>(n + 1);
  }

  lemma EmptyRefines<V>(n: nat)
    ensures Refines<V>(Store([], map[]), map[], n)
  {
  }

  lemma GetRefines<V>(s: Store<V>, m: map<Key, Resident<V>>, n: nat, k: Key, now: real) returns (m': map<Key, Resident<V>>)
    requires Refines(s, m, n)
    ensures m' == if k in m && now >= m[k].item.expiresAt then m - {k} else m
    ensures Refines(GetFrom(s, k, now).1, m', n)
  {
    m' := if k in m && now >= m[k].item.expiresAt then m - {k} else m;
    DeleteRefines(s, m, n, k);
  }

  lemma SetRefines<V>(cfg: Config, s: Store<V>, m: map<Key, Resident<V>>, n: nat, k: Key, v: V, now: real) returns (m': map<Key, Resident<V>>)
    requires cfg.maxSize >= 1 && Refines(s, m, n)
    ensures ModelStep(cfg, m, SetAt(k, v, now), n, m') && Refines(Perform(cfg, s, SetAt(k, v, now)), m', n + 1)
  {
    hide Refines, Assign, Delete;
    var item := Item(v, now + cfg.Ttl(k.0));
    SizeOfOrder(s, m, n);
    SameKeys(s, m, n);
    if k !in m && |m| >= cfg.maxSize {
      var x := s.order[0];
      HeadIsOldest(s, m, n);
      DeleteRefines(s, m, n, x);
      AssignRefines(Delete(s, x), m - {x}, n, k, item);
      m' := (m - {x})[k := Resident(item, n)];
    } else {
      AssignRefines(s, m, n, k, item);
      m' := m[k := Resident(item, if k in m then m[k].born else n)];
    }
  }

  lemma SameKeys<V>(s: Store<V>, m: map<Key, Resident<V>>, n: nat)
    requires Refines(s, m, n)
    ensures s.entries.Keys == m.Keys
  {
  }

  /** Over any run of get, set, invalidate and clear, the ordered dictionary refines a map with
      expiry from which a full cache drops exactly the resident that came in first. */
  lemma {:induction false} CacheRefinesModel<V>(cfg: Config, events: seq<Event<V>>) returns (ms: seq<map<Key, Resident<V>>>)
    requires cfg.maxSize >= 1
    ensures IsModelRun(cfg, events, ms)
    ensures Refines(After(cfg, events), ms[|events|], |events|)
    decreases |events|
  {
    hide Refines, Perform, IsModelRun, ModelStep, After;
    if events == [] {
      ms := [map[]];
      NoEvents<V>(cfg);
    } else {
      var n := |events| - 1;
      var fewer := CacheRefinesModel(cfg, events[..n]);
      RunLength(cfg, events[..n], fewer);
      var m' := StepRefines(cfg, After(cfg, events[..n]), fewer[n], events[n], n);
      ms := fewer + [m'];
      ExtendModelRun(cfg, events, fewer, m');
      AfterOneMore(cfg, events);
    }
  }

  lemma NoEvents<V>(cfg: Config)
    ensures IsModelRun<V>(cfg, [], [map[]]) && Refines<V>(After(cfg, []), map[], 0)
  {
    EmptyRefines<V>(0);
  }

  lemma AfterOneMore<V>(cfg: Config, events: seq<Event<V>>)
    requires events != []
    ensures After(cfg, events) == Perform(cfg, After(cfg, events[..|events| - 1]), events[|events| - 1])
  {
  }

  lemma RunLength<V>(cfg: Config, events: seq<Event<V>>, ms: seq<map<Key, Resident<V>>>)
    requires IsModelRun(cfg, events, ms)
    ensures |ms| == |events| + 1
  {
  }

  lemma ExtendModelRun<V>(cfg: Config, events: seq<Event<V>>, fewer: seq<map<Key, Resident<V>>>, m': map<Key, Resident<V>>)
    requires events != [] && IsModelRun(cfg, events[..|events| - 1], fewer)
    requires ModelStep(cfg, fewer[|events| - 1], events[|events| - 1], |events| - 1, m')
    ensures IsModelRun(cfg, events, fewer + [m'])
  {
    hide ModelStep;
    var n, ms := |events| - 1, fewer + [m'];
    forall k | 0 <= k < |events| ensures ModelStep(cfg, ms[k], events[k], k, ms[k + 1]) {
      if k < n {
        assert ModelStep(cfg, fewer[k], events[..n][k], k, fewer[k + 1]);
      }
    }
  }

  /** The cache never holds more than its maximum. */
  lemma {:induction false} SizeBounded<V>(cfg: Config, events: seq<Event<V>>)
    requires cfg.maxSize >= 1
    ensures |After(cfg, events).order| <= cfg.maxSize && WellFormed(After(cfg, events))
    decreases |events|
  {
    if events != [] {
      var n := |events| - 1;
      SizeBounded(cfg, events[..n]);
      var s := After(cfg, events[..n]);
      match events[n]
      case GetAt(k, _) => DeleteShrinks(s, k);
      case InvalidateAt(k) => DeleteShrinks(s, k);
      case SetAt(k, v, now) =>
        if s.order != [] {
          DeleteShrinks(s, s.order[0]);
        }
      case ClearAll =>
    }
  }

  lemma {:induction false} DeleteShrinks<V>(s: Store<V>, k: Key)
    requires WellFormed(s)
    ensures WellFormed(Delete(s, k))
    ensures |Delete(s, k).order| <= |s.order| && (k in s.order ==> |Delete(s, k).order| == |s.order| - 1)
  {
    RemoveKeepsOrder(s.order, k);
    RemoveShrinks(s.order, k);
  }

  lemma {:induction false} RemoveShrinks(order: seq<Key>, k: Key)
    ensures |Remove(order, k)| == if k in order then |order| - 1 else |order|
  {
    if order != [] {
      assert order == [order[0]] + order[1..];
      RemoveShrinks(order[1..], k);
    }
  }

  /** The event touches what the cache holds for `k` other than by evicting it. */
  predicate Touches<V>(e: Event<V>, k: Key) {
    match e
    case GetAt(_, _) => false
    case SetAt(x, _, _) => x == k
    case InvalidateAt(x) => x == k
    case ClearAll => true
  }

  /** What is held after an event that did not set it was held before, and not touched. */
  lemma HeldBefore<V>(cfg: Config, s: Store<V>, e: Event<V>, k: Key)
    requires k in Perform(cfg, s, e).entries && !(e.SetAt? && e.k == k)
    ensures k in s.entries && s.entries[k] == Perform(cfg, s, e).entries[k] && !Touches(e, k)
  {
  }

  lemma JustSet<V>(cfg: Config, s: Store<V>, e: Event<V>)
    requires e.SetAt? && cfg.maxSize >= 1
    ensures e.k in Perform(cfg, s, e).entries && Perform(cfg, s, e).entries[e.k] == Item(e.v, e.now + cfg.Ttl(e.k.0))
  {
  }

  /** What the cache holds for a key is the last value set for it, stamped with that call's expiry,
      and nothing has invalidated or cleared it since. */
  lemma {:induction false} HoldsLastSet<V>(cfg: Config, events: seq<Event<V>>, k: Key) returns (i: nat)
    requires cfg.maxSize >= 1 && k in After(cfg, events).entries
    ensures i < |events| && events[i].SetAt? && events[i].k == k
    ensures After(cfg, events).entries[k] == Item(events[i].v, events[i].now + cfg.Ttl(k.0))
    ensures forall j :: i < j < |events| ==> !Touches(events[j], k)
    decreases |events|
  {
    if events == [] {
      NoEvents<V>(cfg);
    }
    var n := |events| - 1;
    var s := After(cfg, events[..n]);
    AfterOneMore(cfg, events);
    hide After, Perform;
    if events[n].SetAt? && events[n].k == k {
      i := n;
      JustSet(cfg, s, events[n]);
    } else {
      HeldBefore(cfg, s, events[n], k);
      i := HoldsLastSet(cfg, events[..n], k);
    }
  }

  // ----- Hits

  /** What a lookup answers: a resident's value while it is unexpired, and nothing else; only an
      expired resident is dropped by it. */
  lemma LookupExactly<V>(s: Store<V>, k: Key, now: real, v: V)
    ensures GetFrom(s, k, now).0 == Some(v) <==> k in s.entries && s.entries[k].value == v && now < s.entries[k].expiresAt
    ensures GetFrom(s, k, now).1.entries == if k in s.entries && s.entries[k].expiresAt <= now then s.entries - {k} else s.entries
  {
  }

  /** What was just stored is found from then on until its source's time to live has passed, and
      not after. */
  lemma StoredIsFound<V>(cfg: Config, events: seq<Event<V>>, k: Key, v: V, now: real, later: real)
    requires cfg.maxSize >= 1
    ensures var s := After(cfg, events + [SetAt(k, v, now)]);
            var ttl := if k.0 in cfg.ttls then cfg.ttls[k.0] else cfg.defaultTtl;
            GetFrom(s, k, later).0 == if later < now + ttl then Some(v) else None
  {
    var e: Event<V> := SetAt(k, v, now);
    assert (events + [e])[..|events|] == events;
    AfterOneMore(cfg, events + [e]);
    JustSet(cfg, After(cfg, events), e);
    hide After, Perform;
  }

  /** A resident stays, with its value and expiry, through any call but these: a set, an
      invalidation or a clearing of its own, a lookup once it has expired, and a set of a new key in
      a full cache of which it is the first in. */
  lemma StaysExactly<V>(cfg: Config, s: Store<V>, e: Event<V>, k: Key)
    requires cfg.maxSize >= 1 && WellFormed(s) && k in s.entries && !(e.SetAt? && e.k == k)
    ensures k in Perform(cfg, s, e).entries <==>
              && !e.ClearAll? && e != InvalidateAt(k)
              && !(e.GetAt? && e.k == k && s.entries[k].expiresAt <= e.now)
              && !(e.SetAt? && e.k !in s.entries && |s.order| >= cfg.maxSize && s.order[0] == k)
    ensures k in Perform(cfg, s, e).entries ==> Perform(cfg, s, e).entries[k] == s.entries[k]
  {
    assert k in s.order;
  }
}
