/** Bankruptcy dockets and the freshness budget the score relies on
    (backend/app/adapters/public_records.py, backend/app/scoring/signals.py). */
module Freshness {
  import opened Wrappers
  import opened Ordering

  const MAX_RECORDS := 50
  const MAX_CHECKS := 3
  const BANKRUPTCY_WINDOW := 36 * 30
  const FRESHNESS_WINDOW := 365
  const OPEN_BANKRUPTCY_WINDOW := 36 * 30

  /** One search result; dates are the provider's text. */
  datatype Docket = Docket(
    id: int, caseName: string, courtId: Option<string>, number: Option<string>,
    filed: Option<string>, terminated: Option<string>)

  /** What asking for a docket's detail gives. */
  datatype Reply = RateLimited | Failed | Detail(terminated: Option<string>, lastFiling: Option<string>)

  datatype Match = Strong | Weak
  datatype Status = Open | Closed
  datatype Freshness = NotNeeded | NotChecked | Unknown | Fresh | OutOfDate

  datatype Record = Record(
    docket: Docket, strength: Match, status: Status, filed: Option<string>, terminated: Option<string>,
    freshness: Freshness, outOfDate: bool, lastFiling: Option<int>)

  datatype Note = LimitedNote(id: int) | UnavailableNote(id: int)

  /** What the stage meets: the two name tests for this company, a date reader (days since a fixed
      day), the reply to the k-th detail call, the day on the clock when the i-th docket is looked
      at, and the day when the k-th reply is judged. */
  datatype World = World(
    strong: string -> bool, weak: string -> bool, parse: string -> Option<int>,
    reply: (nat, int) -> Reply, today: nat -> int, replyDay: nat -> int)

  /** `_iso`: empty is missing, otherwise the first ten characters. */
  function Iso(t: Option<string>): Option<string> {
    if t.None? || t.value == "" then None else Some(if |t.value| > 10 then t.value[..10] else t.value)
  }

  predicate Present(t: Option<string>) {
    t.Some? && t.value != ""
  }

  function ParseDate(w: World, t: Option<string>): Option<int> {
    var text := Iso(t);
    if text.None? then None else w.parse(text.value)
  }

  /** Filed no more than the window before `day`; a missing or unreadable date is not recent. */
  predicate FiledWithin(w: World, filed: Option<string>, day: int, window: int) {
    var d := ParseDate(w, filed);
    d.Some? && day - d.value <= window
  }

  predicate RecentOn(w: World, filed: Option<string>, day: int) {
    FiledWithin(w, filed, day, BANKRUPTCY_WINDOW)
  }

  // ----- One docket

  function Found(d: Docket, strength: Match): Record {
    Record(d, strength, if Present(d.terminated) then Closed else Open, Iso(d.filed), Iso(d.terminated), NotNeeded, false, None)
  }

  /** `_check_freshness`: what the k-th reply does to the record. */
  function Judge(w: World, k: nat, r: Record): Record {
    match w.reply(k, r.docket.id)
    case RateLimited => r.(strength := Weak, freshness := Unknown)
    case Failed => r.(strength := Weak, freshness := Unknown)
    case Detail(terminated, last) =>
      var seen := r.(lastFiling := ParseDate(w, last));
      if Present(terminated) then seen.(status := Closed, terminated := Iso(terminated), freshness := NotNeeded)
      else if r.status == Closed then seen.(freshness := NotNeeded)
      else if FiledWithin(w, last, w.replyDay(k), FRESHNESS_WINDOW) then seen.(freshness := Fresh)
      else seen.(strength := Weak, outOfDate := true, freshness := OutOfDate)
  }

  function JudgeNotes(w: World, k: nat, r: Record): seq<Note> {
    match w.reply(k, r.docket.id)
    case RateLimited => [LimitedNote(r.docket.id)]
    case Failed => [UnavailableNote(r.docket.id)]
    case Detail(_, _) => []
  }

  datatype Scan = Scan(records: seq<Record>, checks: nat, notes: seq<Note>)

  predicate NeedsCheck(w: World, i: nat, r: Record) {
    r.strength == Strong && r.status == Open && RecentOn(w, r.filed, w.today(i))
  }

  function Keep(w: World, i: nat, s: Scan, r: Record): Scan {
    if NeedsCheck(w, i, r) then
      if s.checks < MAX_CHECKS then
        Scan(s.records + [Judge(w, s.checks, r)], s.checks + 1, s.notes + JudgeNotes(w, s.checks, r))
      else s.(records := s.records + [r.(strength := Weak, freshness := NotChecked)])
    else s.(records := s.records + [r])
  }

  /** The i-th docket: a full list takes no more, and a case that only mentions the company is skipped. */
  function Look(w: World, i: nat, s: Scan, d: Docket): Scan {
    if |s.records| >= MAX_RECORDS then s
    else if w.strong(d.caseName) then Keep(w, i, s, Found(d, Strong))
    else if w.weak(d.caseName) then Keep(w, i, s, Found(d, Weak))
    else s
  }

  function ScanOf(w: World, dockets: seq<Docket>): Scan {
    if dockets == [] then Scan([], 0, [])
    else
      var n := |dockets| - 1;
      Look(w, n, ScanOf(w, dockets[..n]), dockets[n])
  }

  // ----- The loops

  /** One name for a docket within a court; None when the docket has no number. */
  function CaseKey(d: Docket): Option<(Option<string>, string)> {
    if Present(d.number) then Some((d.courtId, d.number.value)) else None
  }

  predicate Repeats(s: seq<Docket>, d: Docket) {
    CaseKey(d).Some? && exists i :: 0 <= i < |s| && CaseKey(s[i]) == CaseKey(d)
  }

  /** Every docket that no earlier one repeats, in order. */
  function UniqueOf(dockets: seq<Docket>): seq<Docket> {
    if dockets == [] then []
    else
      var n := |dockets| - 1;
      UniqueOf(dockets[..n]) + if Repeats(dockets[..n], dockets[n]) then [] else [dockets[n]]
  }

  /** `_unique_dockets`. */
  method UniqueDockets(dockets: seq<Docket>) returns (unique: seq<Docket>)
    ensures unique == UniqueOf(dockets)
  {
    hide CaseKey;
    var seen: set<(Option<string>, string)> := {};
    unique := [];
    for i := 0 to |dockets|
      invariant unique == UniqueOf(dockets[..i])
      invariant forall k :: k in seen <==> exists j :: 0 <= j < i && CaseKey(dockets[j]) == Some(k)
    {
      assert dockets[..i + 1][..i] == dockets[..i];
      var key := CaseKey(dockets[i]);
      if key.Some? && key.value in seen {
        var j :| 0 <= j < i && CaseKey(dockets[j]) == Some(key.value);
        assert dockets[..i][j] == dockets[j];
        continue;
      }
      if key.Some? {
        seen := seen + {key.value};
      }
      unique := unique + [dockets[i]];
    }
    assert dockets[..|dockets|] == dockets;
  }

  /** Later text first; a missing date counts as empty text. */
  predicate Newer(a: Docket, b: Docket) {
    StringLess(b.filed.UnwrapOr(""), a.filed.UnwrapOr(""))
  }

  /** `sorted(..., reverse=True)`: newest first, equals in their original order. */
  function InsertNewest(s: seq<Docket>, d: Docket): seq<Docket> {
    if s == [] || !Newer(d, s[|s| - 1]) then s + [d] else InsertNewest(s[..|s| - 1], d) + [s[|s| - 1]]
  }

  function NewestFirst(s: seq<Docket>): seq<Docket> {
    if s == [] then [] else InsertNewest(NewestFirst(s[..|s| - 1]), s[|s| - 1])
  }

  /** `_bankruptcies`, with the number of detail calls it made. */
  method Bankruptcies(w: World, results: seq<Docket>) returns (records: seq<Record>, checks: nat, notes: seq<Note>)
    ensures Scan(records, checks, notes) == ScanOf(w, NewestFirst(results))
    ensures checks <= 3 && |records| <= 50
  {
    hide Judge, NewestFirst, RecentOn;
    var dockets := NewestFirst(results);
    records, checks, notes := [], 0, [];
    for i := 0 to |dockets|
      invariant Scan(records, checks, notes) == ScanOf(w, dockets[..i])
      invariant |records| < MAX_RECORDS
    {
      assert dockets[..i + 1][..i] == dockets[..i];
      var d := dockets[i];
      var strength: Match;
      if w.strong(d.caseName) {
        strength := Strong;
      } else if w.weak(d.caseName) {
        strength := Weak;
      } else {
        continue;
      }
      var record := Found(d, strength);
      if record.strength == Strong && record.status == Open && RecentOn(w, record.filed, w.today(i)) {
        if checks < MAX_CHECKS {
          checks := checks + 1;
          notes := notes + JudgeNotes(w, checks - 1, record);
          record := Judge(w, checks - 1, record);
        } else {
          record := record.(strength := Weak, freshness := NotChecked);
        }
      }
      records := records + [record];
      assert Scan(records, checks, notes) == ScanOf(w, dockets[..i + 1]);
      if |records| >= MAX_RECORDS {
        FullScanStops(w, dockets, i + 1);
        ScanIsBounded(w, dockets);
        return;
      }
    }
    assert dockets[..|dockets|] == dockets;
    ScanIsBounded(w, dockets);
  }

  lemma {:induction false} FullScanStops(w: World, dockets: seq<Docket>, n: nat)
    requires n <= |dockets| && |ScanOf(w, dockets[..n]).records| >= MAX_RECORDS
    ensures ScanOf(w, dockets) == ScanOf(w, dockets[..n])
    decreases |dockets|
  {
    hide Keep;
    var m := |dockets| - 1;
    if n == |dockets| {
      assert dockets[..n] == dockets;
    } else {
      assert dockets[..m][..n] == dockets[..n];
      FullScanStops(w, dockets[..m], n);
    }
  }

  // ----- What a scan promises

  /** At most 3 detail calls and 50 records. */
  lemma {:induction false} ScanIsBounded(w: World, dockets: seq<Docket>)
    ensures ScanOf(w, dockets).checks <= 3 && |ScanOf(w, dockets).records| <= 50
    decreases |dockets|
  {
    hide Judge, Found, NeedsCheck;
    if dockets != [] {
      ScanIsBounded(w, dockets[..|dockets| - 1]);
    }
  }

  /** One of the first n dockets was looked at on a day when this filing was not recent. */
  ghost predicate OnceStale(w: World, n: nat, filed: Option<string>) {
    exists i: nat :: i < n && !RecentOn(w, filed, w.today(i))
  }

  /** One of the first k replies shows the case not terminated and with a filing in the last year. */
  ghost predicate Confirmed(w: World, k: nat, r: Record) {
    exists c: nat :: c < k && ConfirmedBy(w, c, r)
  }

  predicate ConfirmedBy(w: World, c: nat, r: Record) {
    var reply := w.reply(c, r.docket.id);
    reply.Detail? && !Present(reply.terminated) && FiledWithin(w, reply.lastFiling, w.replyDay(c), FRESHNESS_WINDOW)
  }

  /** Fresh means confirmed; a strong open record is fresh or was not recent; and only a spent
      budget leaves one unchecked. */
  ghost predicate Sound(w: World, n: nat, checks: nat, r: Record) {
    && (r.freshness == Fresh ==> r.strength == Strong && r.status == Open && Confirmed(w, checks, r))
    && (r.strength == Strong && r.status == Open ==> r.freshness == Fresh || OnceStale(w, n, r.filed))
    && (r.freshness == NotChecked ==> r.strength == Weak && checks == MAX_CHECKS)
  }

  lemma JudgeIsSound(w: World, n: nat, k: nat, r: Record)
    requires r.strength == Strong && r.status == Open && k < MAX_CHECKS
    ensures Sound(w, n, k + 1, Judge(w, k, r))
  {
    hide FiledWithin, OnceStale;
    if Judge(w, k, r).freshness == Fresh {
      assert ConfirmedBy(w, k, Judge(w, k, r));
    }
  }

  lemma SoundLater(w: World, n: nat, checks: nat, r: Record, n': nat, checks': nat)
    requires Sound(w, n, checks, r) && n <= n' && checks <= checks' <= MAX_CHECKS
    ensures Sound(w, n', checks', r)
  {
    hide RecentOn, ConfirmedBy;
  }

  lemma KeepIsSound(w: World, i: nat, s: Scan, d: Docket, strength: Match)
    requires s.checks <= MAX_CHECKS
    ensures var s' := Keep(w, i, s, Found(d, strength));
            s'.checks <= MAX_CHECKS && s'.checks >= s.checks && s'.records != [] && s'.records[..|s'.records| - 1] == s.records
            && Sound(w, i + 1, s'.checks, s'.records[|s'.records| - 1])
  {
    hide Judge, RecentOn, Confirmed;
    var r := Found(d, strength);
    if NeedsCheck(w, i, r) && s.checks < MAX_CHECKS {
      JudgeIsSound(w, i + 1, s.checks, r);
    }
  }

  ghost predicate AllSound(w: World, n: nat, s: Scan) {
    forall j :: 0 <= j < |s.records| ==> Sound(w, n, s.checks, s.records[j])
  }

  /** The freshness contract of the whole list, in any world. */
  lemma {:induction false} ScanIsSound(w: World, dockets: seq<Docket>)
    ensures AllSound(w, |dockets|, ScanOf(w, dockets))
    decreases |dockets|
  {
    hide Sound, Keep;
    if dockets != [] {
      var n := |dockets| - 1;
      var d := dockets[n];
      var s := ScanOf(w, dockets[..n]);
      var s' := ScanOf(w, dockets);
      ScanIsSound(w, dockets[..n]);
      ScanIsBounded(w, dockets[..n]);
      ScanIsBounded(w, dockets);
      if |s.records| < MAX_RECORDS && (w.strong(d.caseName) || w.weak(d.caseName)) {
        KeepIsSound(w, n, s, d, if w.strong(d.caseName) then Strong else Weak);
      }
      forall j | 0 <= j < |s'.records| ensures Sound(w, n + 1, s'.checks, s'.records[j]) {
        if j < |s.records| {
          assert s'.records[j] == s.records[j];
          SoundLater(w, n, s.checks, s.records[j], n + 1, s'.checks);
        }
      }
    }
  }

  // ----- The signal

  /** `_filed_recently`: against the day the evidence says it was fetched. */
  predicate FiledRecently(w: World, filed: Option<string>, fetched: int) {
    FiledWithin(w, filed, fetched, OPEN_BANKRUPTCY_WINDOW)
  }

  predicate Scores(w: World, fetched: int, r: Record) {
    r.strength == Strong && r.status == Open && FiledRecently(w, r.filed, fetched)
  }

  /** The records `public_records_open_bankruptcy` cites. */
  function Cited(w: World, fetched: int, records: seq<Record>): seq<Record> {
    if records == [] then []
    else (if Scores(w, fetched, records[0]) then [records[0]] else []) + Cited(w, fetched, records[1..])
  }

  lemma {:induction false} CitedAre(w: World, fetched: int, records: seq<Record>)
    ensures forall r :: r in Cited(w, fetched, records) <==> r in records && Scores(w, fetched, r)
  {
    hide Scores;
    if records != [] {
      CitedAre(w, fetched, records[1..]);
      assert records == [records[0]] + records[1..];
    }
  }

  /** Whatever the dockets, every cited record is fresh. */
  ghost predicate CitesOnlyFresh(w: World, fetched: int, dockets: seq<Docket>) {
    forall r :: r in Cited(w, fetched, ScanOf(w, dockets).records) ==> r.freshness == Fresh
  }

  /** The evidence writer notes the day before any docket is looked at, so the clock can only be
      at that day or later. */
  predicate NeverLater(w: World, fetched: int, n: nat) {
    forall i :: 0 <= i < n ==> w.today(i) <= fetched
  }

  lemma SameDayCitesOnlyFresh(w: World, fetched: int, dockets: seq<Docket>)
    requires NeverLater(w, fetched, |dockets|)
    ensures CitesOnlyFresh(w, fetched, dockets)
  {
    hide Cited, ScanOf;
    var s := ScanOf(w, dockets);
    ScanIsSound(w, dockets);
    CitedAre(w, fetched, s.records);
    forall r | r in Cited(w, fetched, s.records) ensures r.freshness == Fresh {
      var j :| 0 <= j < |s.records| && s.records[j] == r;
      assert Sound(w, |dockets|, s.checks, r);
    }
  }

  lemma {:induction false} UnrelatedAreSkipped(w: World, dockets: seq<Docket>)
    requires forall i :: 0 <= i < |dockets| ==> !w.strong(dockets[i].caseName) && !w.weak(dockets[i].caseName)
    ensures ScanOf(w, dockets) == Scan([], 0, [])
    decreases |dockets|
  {
    hide Keep;
    if dockets != [] {
      UnrelatedAreSkipped(w, dockets[..|dockets| - 1]);
    }
  }

  // ----- What each docket becomes

  /** A scan only adds to what it has. */
  lemma {:induction false} ScanGrows(w: World, dockets: seq<Docket>, n: nat)
    requires n <= |dockets|
    ensures ScanOf(w, dockets[..n]).records <= ScanOf(w, dockets).records
    ensures ScanOf(w, dockets[..n]).notes <= ScanOf(w, dockets).notes
    decreases |dockets|
  {
    hide Judge, JudgeNotes, NeedsCheck, Found;
    var m := |dockets| - 1;
    if n == |dockets| {
      assert dockets[..n] == dockets;
    } else {
      assert dockets[..m][..n] == dockets[..n];
      ScanGrows(w, dockets[..m], n);
    }
  }

  /** The record of the i-th docket, when it gets one. */
  lemma RecordOf(w: World, dockets: seq<Docket>, i: nat) returns (r: Record)
    requires i < |dockets| && |ScanOf(w, dockets[..i]).records| < 50
    requires w.strong(dockets[i].caseName) || w.weak(dockets[i].caseName)
    ensures var s, out := ScanOf(w, dockets[..i]), ScanOf(w, dockets);
            var next := Keep(w, i, s, Found(dockets[i], if w.strong(dockets[i].caseName) then Strong else Weak));
            && |s.records| < |out.records| && out.records[|s.records|] == r
            && next.records == s.records + [r] && next.notes <= out.notes
  {
    hide Judge, JudgeNotes, NeedsCheck, Found;
    var s := ScanOf(w, dockets[..i]);
    assert dockets[..i + 1][..i] == dockets[..i];
    ScanGrows(w, dockets, i + 1);
    r := ScanOf(w, dockets[..i + 1]).records[|s.records|];
  }

  /** The date a text stands for: the one its first ten characters name. */
  predicate Names(w: World, text: Option<string>, day: int) {
    text.Some? && text.value != "" && w.parse(if |text.value| > 10 then text.value[..10] else text.value) == Some(day)
  }

  lemma NamesADay(w: World, text: Option<string>, day: int)
    ensures ParseDate(w, text) == Some(day) <==> Names(w, text, day)
    ensures ParseDate(w, Iso(text)) == ParseDate(w, text)
    ensures ParseDate(w, text).None? <==> forall d: int :: !Names(w, text, d)
  {
    if ParseDate(w, text).Some? {
      assert Names(w, text, ParseDate(w, text).value);
    }
  }

  /** The reply is a detail that shows no end and a filing at most a year old on the day it came. */
  ghost predicate RecentlyActive(w: World, reply: Reply, day: int) {
    reply.Detail? && (reply.terminated == None || reply.terminated == Some(""))
    && exists last: int :: Names(w, reply.lastFiling, last) && day - last <= 365
  }

  lemma ActiveIsFiledWithin(w: World, reply: Reply, day: int)
    ensures RecentlyActive(w, reply, day) <==>
            reply.Detail? && !Present(reply.terminated) && FiledWithin(w, reply.lastFiling, day, FRESHNESS_WINDOW)
  {
    if reply.Detail? {
      forall last ensures ParseDate(w, reply.lastFiling) == Some(last) <==> Names(w, reply.lastFiling, last) {
        NamesADay(w, reply.lastFiling, last);
      }
    }
  }

  /** A strong open docket filed in the last 1080 days that is reached while a check is left: its
      record is strong, open and fresh exactly when the reply shows it recently active; out of date
      when the reply shows it open without such a filing; closed when the reply shows an end; and
      unknown when there is no detail.  The signal then cites it exactly when it is fresh and filed
      in the last 1080 days of the day the evidence carries. */
  lemma CheckedDocketExactly(w: World, dockets: seq<Docket>, i: nat, filed: int, fetched: int)
    requires i < |dockets| && |ScanOf(w, dockets[..i]).records| < 50 && ScanOf(w, dockets[..i]).checks < 3
    requires w.strong(dockets[i].caseName) && (dockets[i].terminated == None || dockets[i].terminated == Some(""))
    requires Names(w, dockets[i].filed, filed) && w.today(i) - filed <= 1080
    ensures var s, out := ScanOf(w, dockets[..i]), ScanOf(w, dockets);
            |s.records| < |out.records| &&
            var r, reply := out.records[|s.records|], w.reply(s.checks, dockets[i].id);
            var active := RecentlyActive(w, reply, w.replyDay(s.checks));
            && r.docket == dockets[i]
            && (r.strength == Strong && r.status == Open <==> active)
            && (r.freshness == Fresh <==> active)
            && (r.freshness == OutOfDate <==> reply.Detail? && !Present(reply.terminated) && !active)
            && (r.outOfDate <==> r.freshness == OutOfDate)
            && (r.status == Closed <==> reply.Detail? && Present(reply.terminated))
            && (r.freshness == Unknown <==> !reply.Detail?) && (!reply.Detail? ==> r.strength == Weak)
            && (reply == RateLimited ==> LimitedNote(dockets[i].id) in out.notes)
            && (reply == Failed ==> UnavailableNote(dockets[i].id) in out.notes)
            && (r in Cited(w, fetched, out.records) <==> active && fetched - filed <= 1080)
  {
    var s, out := ScanOf(w, dockets[..i]), ScanOf(w, dockets);
    var d := dockets[i];
    var r := RecordOf(w, dockets, i);
    NamesADay(w, d.filed, filed);
    CheckedRecord(w, i, s, d, filed);
    assert r == Judge(w, s.checks, Found(d, Strong)) by {
      assert (s.records + [r])[|s.records|] == r;
    }
    CitedAre(w, fetched, out.records);
    JudgeExactly(w, s.checks, d, filed, fetched);
    hide ScanOf, Cited, RecentlyActive, Names, Judge, Keep, Found;
    if w.reply(s.checks, d.id) == RateLimited || w.reply(s.checks, d.id) == Failed {
      NoteIsIn(s.notes, JudgeNotes(w, s.checks, Found(d, Strong)), out.notes);
    }
  }

  lemma NoteIsIn(before: seq<Note>, notes: seq<Note>, after: seq<Note>)
    requires before + notes <= after
    ensures forall x :: x in notes ==> x in after
  {
    assert forall x :: x in notes ==> x in before + notes;
  }

  /** What one reply makes of a strong open docket. */
  lemma JudgeExactly(w: World, k: nat, d: Docket, filed: int, fetched: int)
    requires !Present(d.terminated) && Names(w, d.filed, filed)
    ensures var r, reply := Judge(w, k, Found(d, Strong)), w.reply(k, d.id);
            var active := RecentlyActive(w, reply, w.replyDay(k));
            && r.docket == d
            && (r.strength == Strong && r.status == Open <==> active)
            && (r.freshness == Fresh <==> active)
            && (r.freshness == OutOfDate <==> reply.Detail? && !Present(reply.terminated) && !active)
            && (r.outOfDate <==> r.freshness == OutOfDate)
            && (r.status == Closed <==> reply.Detail? && Present(reply.terminated))
            && (r.freshness == Unknown <==> !reply.Detail?) && (!reply.Detail? ==> r.strength == Weak)
            && (reply == RateLimited ==> JudgeNotes(w, k, Found(d, Strong)) == [LimitedNote(d.id)])
            && (reply == Failed ==> JudgeNotes(w, k, Found(d, Strong)) == [UnavailableNote(d.id)])
            && (Scores(w, fetched, r) <==> active && fetched - filed <= 1080)
  {
    ActiveIsFiledWithin(w, w.reply(k, d.id), w.replyDay(k));
    NamesADay(w, d.filed, filed);
    hide RecentlyActive, Names, ParseDate, Iso;
  }

  /** The same docket reached with the checks spent: it stays open, is not asked for, and is weak. */
  lemma UncheckedDocketExactly(w: World, dockets: seq<Docket>, i: nat, filed: int)
    requires i < |dockets| && |ScanOf(w, dockets[..i]).records| < 50 && ScanOf(w, dockets[..i]).checks >= 3
    requires w.strong(dockets[i].caseName) && (dockets[i].terminated == None || dockets[i].terminated == Some(""))
    requires Names(w, dockets[i].filed, filed) && w.today(i) - filed <= 1080
    ensures var s, out := ScanOf(w, dockets[..i]), ScanOf(w, dockets);
            |s.records| < |out.records| &&
            var r := out.records[|s.records|];
            r.docket == dockets[i] && r.strength == Weak && r.status == Open && r.freshness == NotChecked && !r.outOfDate
  {
    var s := ScanOf(w, dockets[..i]);
    var r := RecordOf(w, dockets, i);
    NamesADay(w, dockets[i].filed, filed);
    assert (s.records + [r])[|s.records|] == r;
    UncheckedRecord(w, i, s, dockets[i], filed);
    hide ScanOf, Names, ParseDate, Iso, Keep, Judge;
  }

  /** Any other docket whose name matches: no detail is asked for and nothing is marked. */
  lemma OtherDocketExactly(w: World, dockets: seq<Docket>, i: nat)
    requires i < |dockets| && |ScanOf(w, dockets[..i]).records| < 50
    requires w.strong(dockets[i].caseName) || w.weak(dockets[i].caseName)
    requires w.strong(dockets[i].caseName) && (dockets[i].terminated == None || dockets[i].terminated == Some("")) ==>
               forall filed: int :: Names(w, dockets[i].filed, filed) ==> w.today(i) - filed > 1080
    ensures var s, out := ScanOf(w, dockets[..i]), ScanOf(w, dockets);
            |s.records| < |out.records| &&
            var r := out.records[|s.records|];
            && r.docket == dockets[i] && r.freshness == NotNeeded && !r.outOfDate && r.lastFiling == None
            && (r.strength == Strong <==> w.strong(dockets[i].caseName))
            && (r.status == Open <==> dockets[i].terminated == None || dockets[i].terminated == Some(""))
  {
    var r := RecordOf(w, dockets, i);
    var s, d := ScanOf(w, dockets[..i]), dockets[i];
    assert (s.records + [r])[|s.records|] == r;
    if ParseDate(w, d.filed).Some? {
      NamesADay(w, d.filed, ParseDate(w, d.filed).value);
    } else {
      NamesADay(w, d.filed, 0);
    }
    assert !NeedsCheck(w, i, Found(d, if w.strong(d.caseName) then Strong else Weak)) by {
      hide ScanOf, Names, ParseDate, Iso, Judge, Keep;
    }
    hide ScanOf, Names, ParseDate, NeedsCheck, Judge;
  }

  lemma UncheckedRecord(w: World, i: nat, s: Scan, d: Docket, filed: int)
    requires s.checks >= MAX_CHECKS && !Present(d.terminated)
    requires ParseDate(w, Iso(d.filed)) == Some(filed) && w.today(i) - filed <= BANKRUPTCY_WINDOW
    ensures Keep(w, i, s, Found(d, Strong)) == s.(records := s.records + [Found(d, Strong).(strength := Weak, freshness := NotChecked)])
  {
    hide Iso, ParseDate;
  }

  lemma CheckedRecord(w: World, i: nat, s: Scan, d: Docket, filed: int)
    requires s.checks < MAX_CHECKS && !Present(d.terminated)
    requires ParseDate(w, Iso(d.filed)) == Some(filed) && w.today(i) - filed <= BANKRUPTCY_WINDOW
    ensures Keep(w, i, s, Found(d, Strong)) ==
            Scan(s.records + [Judge(w, s.checks, Found(d, Strong))], s.checks + 1, s.notes + JudgeNotes(w, s.checks, Found(d, Strong)))
  {
    hide Iso, ParseDate;
  }

  // ----- Safety over the clocks

  /** Two clocks and the date reader are given; names and replies may be anything. */
  ghost predicate AlwaysSafe(parse: string -> Option<int>, today: nat -> int, replyDay: nat -> int, fetched: int, n: nat) {
    forall w: World, dockets :: InWorld(w, dockets, parse, today, replyDay, n) ==> CitesOnlyFresh(w, fetched, dockets)
  }

  ghost predicate InWorld(w: World, dockets: seq<Docket>, parse: string -> Option<int>, today: nat -> int, replyDay: nat -> int, n: nat) {
    w == World(w.strong, w.weak, parse, w.reply, today, replyDay) && |dockets| <= n
  }

  /** The case that goes wrong: the i-th docket is looked at after midnight, and was filed exactly
      as long before the fetch day as the window allows. */
  lemma MidnightBreaksIt(w: World, fetched: int, filed: string, i: nat)
    requires filed != "" && |filed| <= 10 && w.parse(filed) == Some(fetched - OPEN_BANKRUPTCY_WINDOW)
    requires w.today(i) > fetched
    requires w.strong("us") && !w.strong("them") && !w.weak("them")
    ensures !CitesOnlyFresh(w, fetched, seq(i, _ => Docket(0, "them", None, None, Some(filed), None))
                                        + [Docket(1, "us", None, None, Some(filed), None)])
  {
    hide Judge;
    var them := seq(i, _ => Docket(0, "them", None, None, Some(filed), None));
    var us := Docket(1, "us", None, None, Some(filed), None);
    UnrelatedAreSkipped(w, them);
    assert (them + [us])[..i] == them;
    var r := Found(us, Strong);
    assert !NeedsCheck(w, i, r);
    assert ScanOf(w, them + [us]) == Scan([r], 0, []);
    CitedAre(w, fetched, [r]);
    assert r in Cited(w, fetched, [r]);
  }

  /** For a date reader that can name the oldest day inside the window, the signal cites only fresh
      records in every case if and only if no docket is looked at on a later day than the evidence
      carries. */
  lemma FreshnessFeedsScoringExactly(parse: string -> Option<int>, today: nat -> int, replyDay: nat -> int, fetched: int,
                                     oldest: string, n: nat)
    requires oldest != "" && |oldest| <= 10 && parse(oldest) == Some(fetched - OPEN_BANKRUPTCY_WINDOW)
    ensures AlwaysSafe(parse, today, replyDay, fetched, n) <==> forall i :: 0 <= i < n ==> today(i) <= fetched
  {
    hide CitesOnlyFresh;
    if i: nat :| i < n && today(i) > fetched {
      var w := World((name: string) => name == "us", (name: string) => false, parse, (k: nat, id: int) => Failed, today, replyDay);
      var dockets := seq(i, _ => Docket(0, "them", None, None, Some(oldest), None))
                     + [Docket(1, "us", None, None, Some(oldest), None)];
      MidnightBreaksIt(w, fetched, oldest, i);
      assert InWorld(w, dockets, parse, today, replyDay, n);
    } else {
      forall w: World, dockets | InWorld(w, dockets, parse, today, replyDay, n) ensures CitesOnlyFresh(w, fetched, dockets) {
        SameDayCitesOnlyFresh(w, fetched, dockets);
      }
    }
  }

  // ----- Unique dockets

  lemma RepeatsLater(s: seq<Docket>, t: seq<Docket>, d: Docket)
    requires Repeats(s, d)
    ensures Repeats(s + t, d)
  {
    hide CaseKey;
    var i :| 0 <= i < |s| && CaseKey(s[i]) == CaseKey(d);
    assert (s + t)[i] == s[i];
  }

  /** What is dropped is a repeat of something kept, */
  lemma {:induction false} DroppedIsRepeated(dockets: seq<Docket>, d: Docket)
    requires d in dockets
    ensures d in UniqueOf(dockets) || Repeats(UniqueOf(dockets), d)
    decreases |dockets|, 0
  {
    hide CaseKey, Repeats;
    var n := |dockets| - 1;
    var before := UniqueOf(dockets[..n]);
    if d in dockets[..n] {
      DroppedIsRepeated(dockets[..n], d);
      if Repeats(before, d) {
        RepeatsLater(before, if Repeats(dockets[..n], dockets[n]) then [] else [dockets[n]], d);
      }
    } else {
      assert dockets == dockets[..n] + [dockets[n]];
      if Repeats(dockets[..n], d) {
        RepeatOfDocket(dockets[..n], d);
        assert UniqueOf(dockets) == before;
      }
    }
  }

  lemma {:induction false} RepeatOfDocket(dockets: seq<Docket>, d: Docket)
    requires Repeats(dockets, d)
    ensures Repeats(UniqueOf(dockets), d)
    decreases |dockets|, 1
  {
    hide CaseKey, UniqueOf;
    var i :| 0 <= i < |dockets| && CaseKey(dockets[i]) == CaseKey(d);
    var unique := UniqueOf(dockets);
    DroppedIsRepeated(dockets, dockets[i]);
    if dockets[i] in unique {
      var j :| 0 <= j < |unique| && unique[j] == dockets[i];
      assert CaseKey(unique[j]) == CaseKey(d);
    }
  }

  /** and what is kept repeats nothing kept before it. */
  lemma {:induction false} KeptAreUnique(dockets: seq<Docket>)
    ensures forall i :: 0 <= i < |UniqueOf(dockets)| ==> !Repeats(UniqueOf(dockets)[..i], UniqueOf(dockets)[i])
    ensures forall d :: d in UniqueOf(dockets) ==> d in dockets
    decreases |dockets|
  {
    hide CaseKey;
    if dockets != [] {
      var n := |dockets| - 1;
      var before := UniqueOf(dockets[..n]);
      var after := UniqueOf(dockets);
      KeptAreUnique(dockets[..n]);
      assert dockets == dockets[..n] + [dockets[n]];
      forall i | 0 <= i < |after| ensures !Repeats(after[..i], after[i]) {
        assert after[..i] == before[..i];
        if i == |before| {
          assert before[..i] == before;
          assert forall k :: 0 <= k < |before| ==> before[k] in dockets[..n];
        }
      }
    }
  }

  // ----- The order of the checks

  lemma NewerOrNot(a: Docket, b: Docket, c: Docket)
    requires !Newer(a, b) && !Newer(b, c)
    ensures !Newer(a, c)
  {
    var x, y, z := a.filed.UnwrapOr(""), b.filed.UnwrapOr(""), c.filed.UnwrapOr("");
    StringLessTotal(x, y);
    StringLessTotal(y, z);
    StringLessTotal(x, z);
    if Newer(a, c) {
      if x == y {
        assert false;
      } else if y == z {
        assert false;
      } else {
        StringLessTransitive(x, y, z);
      }
    }
  }

  ghost predicate NewestAhead(s: seq<Docket>) {
    forall i, j :: 0 <= i < j < |s| ==> !Newer(s[j], s[i])
  }

  lemma {:induction false} InsertNewestSorts(s: seq<Docket>, d: Docket)
    requires NewestAhead(s)
    ensures NewestAhead(InsertNewest(s, d)) && multiset(InsertNewest(s, d)) == multiset(s) + multiset{d}
    decreases |s|
  {
    hide Newer;
    if s == [] {
    } else if !Newer(d, s[|s| - 1]) {
      forall i | 0 <= i < |s| - 1 ensures !Newer(d, s[i]) {
        NewerOrNot(d, s[|s| - 1], s[i]);
      }
    } else {
      var m := |s| - 1;
      InsertNewestSorts(s[..m], d);
      assert s == s[..m] + [s[m]];
      NewerIsStrict(d, s[m]);
      var before := InsertNewest(s[..m], d);
      forall i | 0 <= i < |before| ensures !Newer(s[m], before[i]) {
        assert before[i] in multiset(before);
        if before[i] != d {
          assert before[i] in s[..m];
        }
      }
    }
  }

  lemma NewerIsStrict(a: Docket, b: Docket)
    ensures !(Newer(a, b) && Newer(b, a))
  {
    StringLessTotal(a.filed.UnwrapOr(""), b.filed.UnwrapOr(""));
  }

  /** The newest filings come first, so they get the checks; no docket is lost. */
  lemma {:induction false} NewestFirstSorts(s: seq<Docket>)
    ensures NewestAhead(NewestFirst(s)) && multiset(NewestFirst(s)) == multiset(s)
    decreases |s|
  {
    hide Newer, InsertNewest;
    if s != [] {
      NewestFirstSorts(s[..|s| - 1]);
      InsertNewestSorts(NewestFirst(s[..|s| - 1]), s[|s| - 1]);
      assert s == s[..|s| - 1] + [s[|s| - 1]];
    }
  }
}
