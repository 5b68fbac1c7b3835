/**
The disposition engine (backend/app/screening/dispose.py), the two-pass scoring it shares with the
scoring stage (backend/app/screening/stages.py:225-248), and the explanation that recomputes the
decision from what was stored (backend/app/screening/explain.py).
*/
module Dispose {
  import opened Wrappers
  import opened Scoring
  import opened PairScoring
  import opened Watchlist
  import opened RunProtocol

  datatype Band = Clear | Review | Match

  function Severity(b: Band): nat {
    match b
    case Clear => 0
    case Review => 1
    case Match => 2
  }

  datatype BandReason = AtOrAboveMatch | BetweenThresholds | ConflictFloor | BelowClear

  datatype RunReason = MostSevere | BlockedByCoverage | AutoClearAllowed | NoCandidates

  /** A whole-name or initials term next to a date-of-birth or document conflict. */
  predicate NamedConflict(terms: seq<Term>) {
    && (NameExact in terms || NameReordered in terms || NameTranslit in terms || NameInitials in terms)
    && (DobConflict in terms || DobPartialConflict in terms || IdConflict in terms)
  }

  datatype Thresholds = Thresholds(clearBelow: int, matchAt: int)

  function BandWithReason(score: int, terms: seq<Term>, th: Thresholds): (Band, BandReason) {
    if score >= th.matchAt then (Match, AtOrAboveMatch)
    else if score >= th.clearBelow then (Review, BetweenThresholds)
    else if NamedConflict(terms) then (Review, ConflictFloor)
    else (Clear, BelowClear)
  }

  /** The most severe band; CLEAR for none. */
  function Worst(bands: seq<Band>): (b: Band)
    ensures forall k :: 0 <= k < |bands| ==> Severity(bands[k]) <= Severity(b)
    ensures b == Clear || b in bands
  {
    if bands == [] then Clear
    else
      var rest := Worst(bands[1..]);
      if Severity(bands[0]) > Severity(rest) then bands[0] else rest
  }

  function RunVerdict(bands: seq<Band>, status: map<string, StageStatus>): (Band, bool, RunReason) {
    var worst := Worst(bands);
    if worst != Clear then (worst, false, MostSevere)
    else if exists key :: key in status && status[key] == Unavailable then (Review, false, BlockedByCoverage)
    else (Clear, true, if bands == [] then NoCandidates else AutoClearAllowed)
  }

  // ----- Two-pass scoring

  predicate FullName(terms: seq<Term>) {
    NameExact in terms || NameReordered in terms || NameTranslit in terms
  }

  function Pass(t: Tables, rule: Rule, p: Person, records: seq<WatchRecord>, frequency: Option<int>): (r: seq<seq<Term>>)
    ensures |r| == |records|
  {
    seq(|records|, k requires 0 <= k < |records| => PairTerms(t, rule, p, records[k], frequency))
  }

  /** How many candidates match the whole name. */
  function Frequency(pass: seq<seq<Term>>): nat {
    if pass == [] then 0
    else Frequency(pass[..|pass| - 1]) + (if FullName(pass[|pass| - 1]) then 1 else 0)
  }

  /** First without a frequency; again with it when the name is common. */
  function TwoPass(t: Tables, rule: Rule, p: Person, records: seq<WatchRecord>): (r: seq<seq<Term>>)
    ensures |r| == |records|
  {
    var first := Pass(t, rule, p, records, None);
    var f := Frequency(first);
    if f >= rule.commonAt then Pass(t, rule, p, records, Some(f)) else first
  }

  /** The scoring stage: both passes as loops over the candidates. */
  method ScoreCandidates(t: Tables, rule: Rule, p: Person, records: seq<WatchRecord>)
    returns (scores: seq<int>, terms: seq<seq<Term>>, top: Option<int>)
    ensures terms == TwoPass(t, rule, p, records)
    ensures |scores| == |records| && forall k :: 0 <= k < |records| ==> scores[k] == Score(rule, terms[k])
    ensures top.None? <==> records == []
    ensures top.Some? ==> top.value in scores && forall k :: 0 <= k < |scores| ==> scores[k] <= top.value
  {
    hide PairTerms, Score;
    terms := ScorePass(t, rule, p, records, None);
    var f := 0;
    for i := 0 to |terms|
      invariant f == Frequency(terms[..i])
    {
      assert terms[..i + 1][..i] == terms[..i];
      if FullName(terms[i]) {
        f := f + 1;
      }
    }
    assert terms[..|terms|] == terms;
    if f >= rule.commonAt {
      terms := ScorePass(t, rule, p, records, Some(f));
    }
    scores, top := [], None;
    for i := 0 to |terms|
      invariant |scores| == i && forall k :: 0 <= k < i ==> scores[k] == Score(rule, terms[k])
      invariant top.None? <==> i == 0
      invariant top.Some? ==> top.value in scores && forall k :: 0 <= k < i ==> scores[k] <= top.value
    {
      var score := Score(rule, terms[i]);
      scores := scores + [score];
      assert scores[i] == score;
      top := if top.None? || top.value < score then Some(score) else top;
    }
  }

  method ScorePass(t: Tables, rule: Rule, p: Person, records: seq<WatchRecord>, frequency: Option<int>) returns (terms: seq<seq<Term>>)
    ensures terms == Pass(t, rule, p, records, frequency)
  {
    hide PairTerms, Score;
    terms := [];
    for i := 0 to |records|
      invariant terms == Pass(t, rule, p, records, frequency)[..i]
    {
      var score, mine := ScorePair(t, rule, p, records[i], frequency);
      terms := terms + [mine];
    }
  }

  /** The penalty is no name term, so the second pass counts the same full names. */
  lemma PenaltyKeepsFullName(t: Tables, rule: Rule, p: Person, r: WatchRecord, frequency: Option<int>)
    ensures FullName(PairTerms(t, rule, p, r, frequency)) <==> FullName(PairTerms(t, rule, p, r, None))
  {
    hide BaseTerms, NameTermOf;
  }

  lemma {:induction false} SameFrequency(a: seq<seq<Term>>, b: seq<seq<Term>>)
    requires |a| == |b| && forall k :: 0 <= k < |a| ==> (FullName(a[k]) <==> FullName(b[k]))
    ensures Frequency(a) == Frequency(b)
  {
    hide FullName;
    if a != [] {
      var n := |a| - 1;
      SameFrequency(a[..n], b[..n]);
    }
  }

  lemma PenaltyPassKeepsFrequency(t: Tables, rule: Rule, p: Person, records: seq<WatchRecord>, frequency: Option<int>)
    ensures Frequency(Pass(t, rule, p, records, frequency)) == Frequency(Pass(t, rule, p, records, None))
  {
    forall k | 0 <= k < |records|
      ensures FullName(Pass(t, rule, p, records, frequency)[k]) <==> FullName(Pass(t, rule, p, records, None)[k])
    {
      PenaltyKeepsFullName(t, rule, p, records[k], frequency);
    }
    SameFrequency(Pass(t, rule, p, records, frequency), Pass(t, rule, p, records, None));
  }

  lemma PermutationWithout<T>(a: seq<T>, b: seq<T>, k: nat)
    requires multiset(a) == multiset(b) && a != [] && k < |b| && b[k] == a[|a| - 1]
    ensures multiset(a[..|a| - 1]) == multiset(Without(b, k))
  {
    var x := b[k];
    assert a == a[..|a| - 1] + [x];
    assert multiset(a[..|a| - 1]) == multiset(a) - multiset{x};
    RemoveOne(b, k);
    assert multiset(Without(b, k)) == multiset(b) - multiset{x};
  }

  /** Counting does not depend on the order. */
  lemma {:induction false} FrequencyOfPermutation(a: seq<seq<Term>>, b: seq<seq<Term>>)
    requires multiset(a) == multiset(b)
    ensures Frequency(a) == Frequency(b)
    decreases |a|
  {
    hide FullName;
    if a == [] {
      assert |multiset(b)| == 0;
      assert b == [];
    } else {
      var n := |a| - 1;
      assert a == a[..n] + [a[n]];
      assert a[n] in multiset(b);
      var k :| 0 <= k < |b| && b[k] == a[n];
      PermutationWithout(a, b, k);
      FrequencyOfPermutation(a[..n], Without(b, k));
      FrequencyWithout(b, k);
    }
  }

  lemma {:induction false} FrequencyWithout(b: seq<seq<Term>>, k: nat)
    requires k < |b|
    ensures Frequency(b) == Frequency(Without(b, k)) + (if FullName(b[k]) then 1 else 0)
    decreases |b|
  {
    hide FullName;
    var n := |b| - 1;
    if k == n {
      assert Without(b, k) == b[..n];
    } else {
      FrequencyWithout(b[..n], k);
      assert Without(b, k)[..n - 1] == Without(b[..n], k);
      assert Without(b, k)[n - 1] == b[n];
    }
  }

  /** Every candidate gets the same terms, hence the same score, whatever order the candidates come
      in: the scoring stage and the disposition engine agree. */
  lemma ScoresIgnoreOrder(t: Tables, rule: Rule, p: Person, a: seq<WatchRecord>, b: seq<WatchRecord>, i: nat, j: nat)
    requires multiset(a) == multiset(b) && i < |a| && j < |b| && a[i] == b[j]
    ensures TwoPass(t, rule, p, a)[i] == TwoPass(t, rule, p, b)[j]
  {
    hide PairTerms;
    PassOfPermutation(t, rule, p, a, b);
    FrequencyOfPermutation(Pass(t, rule, p, a, None), Pass(t, rule, p, b, None));
  }

  lemma {:induction false} PassOfPermutation(t: Tables, rule: Rule, p: Person, a: seq<WatchRecord>, b: seq<WatchRecord>)
    requires multiset(a) == multiset(b)
    ensures multiset(Pass(t, rule, p, a, None)) == multiset(Pass(t, rule, p, b, None))
    decreases |a|
  {
    hide PairTerms;
    if a == [] {
      assert |multiset(b)| == 0;
      assert b == [];
    } else {
      var n := |a| - 1;
      assert a == a[..n] + [a[n]];
      assert a[n] in multiset(b);
      var k :| 0 <= k < |b| && b[k] == a[n];
      PermutationWithout(a, b, k);
      PassOfPermutation(t, rule, p, a[..n], Without(b, k));
      var pa, pb := Pass(t, rule, p, a, None), Pass(t, rule, p, b, None);
      assert pa == Pass(t, rule, p, a[..n], None) + [pa[n]];
      assert Without(pb, k) == Pass(t, rule, p, Without(b, k), None);
      RemoveOne(pb, k);
      assert multiset(pa) == multiset(Pass(t, rule, p, a[..n], None)) + multiset{pa[n]};
    }
  }

  // ----- The decision

  datatype BundleCandidate = BundleCandidate(candidateId: string, record: WatchRecord)

  datatype Bundle = Bundle(person: Person, candidates: seq<BundleCandidate>, rule: Rule, status: map<string, StageStatus>)

  /** A decided candidate, as stored: only the names of its terms, no subject value. */
  datatype Decided = Decided(candidateId: string, recordId: string, score: int, band: Band, terms: seq<Term>)

  datatype Decision = Decision(disposition: Band, autoClosed: bool, thresholds: Thresholds, entries: seq<Decided>)

  function Records(cands: seq<BundleCandidate>): (r: seq<WatchRecord>)
    ensures |r| == |cands|
    ensures forall k :: 0 <= k < |cands| ==> r[k] == cands[k].record
  {
    seq(|cands|, k requires 0 <= k < |cands| => cands[k].record)
  }

  function Bands(entries: seq<Decided>): (b: seq<Band>)
    ensures |b| == |entries|
    ensures forall k :: 0 <= k < |entries| ==> b[k] == entries[k].band
  {
    seq(|entries|, k requires 0 <= k < |entries| => entries[k].band)
  }

  function DecideEntry(c: BundleCandidate, rule: Rule, terms: seq<Term>): Decided {
    var score := Score(rule, terms);
    Decided(c.candidateId, c.record.id, score, BandWithReason(score, terms, Thresholds(rule.clearBelow, rule.matchAt)).0, terms)
  }

  function DecideEntries(t: Tables, b: Bundle): (entries: seq<Decided>)
    ensures |entries| == |b.candidates|
  {
    var all := TwoPass(t, b.rule, b.person, Records(b.candidates));
    seq(|b.candidates|, k requires 0 <= k < |b.candidates| => DecideEntry(b.candidates[k], b.rule, all[k]))
  }

  /** `decide(bundle)`. */
  function Decide(t: Tables, b: Bundle): Decision {
    var entries := DecideEntries(t, b);
    var (disposition, autoClosed, _) := RunVerdict(Bands(entries), b.status);
    Decision(disposition, autoClosed, Thresholds(b.rule.clearBelow, b.rule.matchAt), entries)
  }

  /** Guarded auto-CLEAR: a decision closes without a human exactly when every candidate is below
      the clear threshold without a conflict next to a name match, and no source was unavailable. */
  lemma AutoClosesExactly(t: Tables, b: Bundle)
    ensures var d := Decide(t, b);
            d.autoClosed <==>
              && (forall k :: 0 <= k < |d.entries| ==>
                    && d.entries[k].score < d.thresholds.matchAt
                    && d.entries[k].score < d.thresholds.clearBelow
                    && !NamedConflict(d.entries[k].terms))
              && (forall key :: key in b.status ==> b.status[key] != Unavailable)
    ensures Decide(t, b).autoClosed ==> Decide(t, b).disposition == Clear
  {
    hide NamedConflict, TwoPass, Score;
    var d := Decide(t, b);
    var bands := Bands(d.entries);
    forall k | 0 <= k < |bands|
      ensures bands[k] == Clear <==>
                d.entries[k].score < d.thresholds.matchAt && d.entries[k].score < d.thresholds.clearBelow && !NamedConflict(d.entries[k].terms)
    {
    }
    assert Worst(bands) == Clear <==> forall k :: 0 <= k < |bands| ==> bands[k] == Clear by {
      if Worst(bands) == Clear {
        assert forall k :: 0 <= k < |bands| ==> Severity(bands[k]) <= 0;
      }
    }
  }

  /** The band of each decided candidate, by its score and its terms: MATCH at or above the match
      threshold; REVIEW below it from the clear threshold on, or with a conflict next to a name match
      however low the score; CLEAR in every other case. */
  lemma BandsExactly(t: Tables, b: Bundle, k: nat)
    requires k < |b.candidates|
    ensures var d := Decide(t, b);
            |d.entries| == |b.candidates| &&
            var e := d.entries[k];
            var conflict := (NameExact in e.terms || NameReordered in e.terms || NameTranslit in e.terms || NameInitials in e.terms)
                            && (DobConflict in e.terms || DobPartialConflict in e.terms || IdConflict in e.terms);
            && e.candidateId == b.candidates[k].candidateId && e.recordId == b.candidates[k].record.id
            && (e.band == Match <==> e.score >= b.rule.matchAt)
            && (e.band == Review <==> e.score < b.rule.matchAt && (e.score >= b.rule.clearBelow || conflict))
            && (e.band == Clear <==> e.score < b.rule.matchAt && e.score < b.rule.clearBelow && !conflict)
  {
    hide TwoPass, Score, Worst;
  }

  /** The verdict of a run: MATCH exactly when some candidate reaches the match threshold, CLEAR
      exactly when it closes by itself, REVIEW in every other case. */
  lemma DispositionExactly(t: Tables, b: Bundle)
    ensures var d := Decide(t, b);
            && d.thresholds == Thresholds(b.rule.clearBelow, b.rule.matchAt)
            && (d.disposition == Match <==> exists k :: 0 <= k < |d.entries| && d.entries[k].score >= b.rule.matchAt)
            && (d.disposition == Clear <==> d.autoClosed)
            && (d.disposition == Review <==>
                  !d.autoClosed && forall k :: 0 <= k < |d.entries| ==> d.entries[k].score < b.rule.matchAt)
  {
    var d := Decide(t, b);
    forall k | 0 <= k < |d.entries| ensures d.entries[k].band == Match <==> d.entries[k].score >= b.rule.matchAt {
      BandsExactly(t, b, k);
    }
    WorstIsMatch(d.entries);
    hide TwoPass, Score, Worst, NamedConflict, DecideEntries;
  }

  lemma {:induction false} FrequencyCounts(pass: seq<seq<Term>>)
    ensures Frequency(pass) == |set k: nat | k < |pass| && FullName(pass[k])|
    decreases |pass|
  {
    hide FullName;
    if pass != [] {
      var n := |pass| - 1;
      FrequencyCounts(pass[..n]);
      var fewer := set k: nat | k < n && FullName(pass[..n][k]);
      assert (set k: nat | k < |pass| && FullName(pass[k])) == if FullName(pass[n]) then fewer + {n} else fewer;
    } else {
      NoIndices(pass);
    }
  }

  lemma NoIndices(pass: seq<seq<Term>>)
    requires |pass| == 0
    ensures (set k: nat | k < |pass| && FullName(pass[k])) == {}
  {
  }

  predicate HasName(terms: seq<Term>) {
    FullName(terms) || NameInitials in terms || NamePartial in terms
  }

  lemma BasePieces(name: Option<Term>, dob: Option<Term>, ids: seq<Term>, nation: Option<Term>, pob: Option<Term>)
    requires name.Some? ==> name.value.IsName()
    requires dob.Some? ==> 5 <= Rank(dob.value) <= 9
    requires ids in {[IdMatch], [IdConflict], []}
    requires nation.Some? ==> nation.value in {NationalityMatch, NationalityConflict}
    requires pob.Some? ==> pob.value == PobMatch
    ensures var terms := Opt(name) + Opt(dob) + ids + Opt(nation) + Opt(pob);
            CommonName !in terms && (HasName(terms) <==> name.Some?)
  {
    InOpt(name);
    InOpt(dob);
    InOpt(nation);
    InOpt(pob);
    hide Opt;
    assert forall x :: x in ids ==> x == IdMatch || x == IdConflict;
  }

  lemma PenaltyShows(t: Tables, rule: Rule, p: Person, r: WatchRecord, frequency: Option<int>)
    ensures var terms := PairTerms(t, rule, p, r, frequency);
            CommonName in terms <==> HasName(terms) && frequency.Some? && frequency.value >= rule.commonAt && !Corroborated(terms)
  {
    NameTermIsName(t.lib, p, r);
    DobTermIsDob(p.dob, r.dobs);
    hide NameTermOf, DobTermOf, HasMatch, HasOther;
    var name := NameTermOf(t.lib, p, r);
    BasePieces(name, KnownDob(rule, DobTermOf(p.dob, r.dobs)), IdTermsOf(p.documents, r.documents),
               NationalityTermOf(t, p.nationality, r.nationalities), PobTermOf(t, p.pob, r.pobs));
    PenaltyOn(rule, name.Some?, BaseTerms(t, rule, p, r), frequency);
  }

  lemma PenaltyOn(rule: Rule, named: bool, terms: seq<Term>, frequency: Option<int>)
    requires CommonName !in terms && (HasName(terms) <==> named)
    ensures var all := terms + Penalty(rule, named, terms, frequency);
            CommonName in all <==> HasName(all) && frequency.Some? && frequency.value >= rule.commonAt && !Corroborated(all)
  {
    assert forall x :: x != CommonName ==> (x in terms + Penalty(rule, named, terms, frequency) <==> x in terms);
  }

  /** The common-name penalty over a whole decision: it falls on a candidate exactly when it has a
      name term, nothing corroborates it, and as many candidates as the rule calls common match the
      whole name. */
  lemma CommonNameExactly(t: Tables, b: Bundle, k: nat)
    requires k < |Decide(t, b).entries|
    ensures var d := Decide(t, b);
            var terms := d.entries[k].terms;
            CommonName in terms <==>
              && (NameExact in terms || NameReordered in terms || NameTranslit in terms || NameInitials in terms || NamePartial in terms)
              && DobFull !in terms && DobYear !in terms && DobRange !in terms && IdMatch !in terms
              && |FullNames(d.entries)| >= b.rule.commonAt
  {
    CommonNameBy(t, b, k);
    hide Decide;
  }

  lemma CommonNameBy(t: Tables, b: Bundle, k: nat)
    requires k < |Decide(t, b).entries|
    ensures var d := Decide(t, b);
            CommonName in d.entries[k].terms
            <==> HasName(d.entries[k].terms) && !Corroborated(d.entries[k].terms) && |FullNames(d.entries)| >= b.rule.commonAt
  {
    hide Decide, PairTerms, Frequency, HasName, Corroborated, FullNames;
    var records := Records(b.candidates);
    var f := Frequency(Pass(t, b.rule, b.person, records, None));
    var frequency := if f >= b.rule.commonAt then Some(f) else None;
    PenaltyPassKeepsFrequency(t, b.rule, b.person, records, frequency);
    TermsAreThePass(t, b, frequency);
    FullNamesCount(Decide(t, b).entries, Pass(t, b.rule, b.person, records, frequency));
    PenaltyShows(t, b.rule, b.person, records[k], frequency);
  }

  lemma FullNamesCount(entries: seq<Decided>, pass: seq<seq<Term>>)
    requires |entries| == |pass| && forall j :: 0 <= j < |pass| ==> entries[j].terms == pass[j]
    ensures Frequency(pass) == |FullNames(entries)|
  {
    FrequencyCounts(pass);
    assert (set j: nat | j < |pass| && FullName(pass[j])) == FullNames(entries);
  }

  lemma TermsAreThePass(t: Tables, b: Bundle, frequency: Option<int>)
    requires var f := Frequency(Pass(t, b.rule, b.person, Records(b.candidates), None));
             frequency == if f >= b.rule.commonAt then Some(f) else None
    ensures var entries, pass := Decide(t, b).entries, Pass(t, b.rule, b.person, Records(b.candidates), frequency);
            |entries| == |pass| && forall j :: 0 <= j < |pass| ==> entries[j].terms == pass[j]
  {
    hide PairTerms, Score, Frequency, BandWithReason, RunVerdict;
  }

  /** The decided candidates that match the whole name. */
  function FullNames(entries: seq<Decided>): set<nat> {
    set j: nat | j < |entries| && (NameExact in entries[j].terms || NameReordered in entries[j].terms || NameTranslit in entries[j].terms)
  }

  lemma WorstIsMatch(entries: seq<Decided>)
    ensures Worst(Bands(entries)) == Match <==> exists k :: 0 <= k < |entries| && entries[k].band == Match
  {
    var bands := Bands(entries);
    if Worst(bands) == Match {
      var k :| 0 <= k < |bands| && bands[k] == Match;
      assert entries[k].band == Match;
    }
    if k :| 0 <= k < |entries| && entries[k].band == Match {
      assert Severity(bands[k]) <= Severity(Worst(bands));
    }
  }

  lemma WorstIsClear(entries: seq<Decided>)
    ensures Worst(Bands(entries)) == Clear <==> forall k :: 0 <= k < |entries| ==> entries[k].band == Clear
  {
    var bands := Bands(entries);
    if Worst(bands) == Clear {
      assert forall k :: 0 <= k < |bands| ==> Severity(bands[k]) <= 0;
    }
  }

  /** Under the default rule, a candidate the decision bands MATCH carries a full date of birth or a
      document number. */
  lemma MatchBandHasHardEvidence(t: Tables, b: Bundle, k: nat)
    requires b.rule == DEFAULT_RULE && k < |Decide(t, b).entries| && Decide(t, b).entries[k].band == Match
    ensures HardEvidence(Decide(t, b).entries[k].terms)
  {
    var records := Records(b.candidates);
    var f := Frequency(Pass(t, b.rule, b.person, records, None));
    var frequency := if f >= b.rule.commonAt then Some(f) else None;
    hide Score, PairTerms;
    assert TwoPass(t, b.rule, b.person, records)[k] == PairTerms(t, b.rule, b.person, records[k], frequency);
    MatchNeedsHardEvidence(t, b.person, records[k], frequency);
  }

  // ----- The explanation

  datatype Explanation = Explanation(bandsConsistent: seq<bool>, reasons: seq<BandReason>, runConsistent: bool, why: RunReason, gaps: set<string>)

  /** The reason for a candidate's band, by its score and terms. */
  predicate ReasonFits(reason: BandReason, score: int, terms: seq<Term>, th: Thresholds) {
    match reason
    case AtOrAboveMatch => score >= th.matchAt
    case BetweenThresholds => th.clearBelow <= score < th.matchAt
    case ConflictFloor => score < th.matchAt && score < th.clearBelow && NamedConflict(terms)
    case BelowClear => score < th.matchAt && score < th.clearBelow && !NamedConflict(terms)
  }

  lemma ReasonsExactly(score: int, terms: seq<Term>, th: Thresholds)
    ensures var (band, reason) := BandWithReason(score, terms, th);
            && ReasonFits(reason, score, terms, th)
            && (band == Match <==> reason == AtOrAboveMatch)
            && (band == Clear <==> reason == BelowClear)
  {
  }

  /** The reason for a run's verdict, by the stored bands and the sources that did not answer. */
  predicate RunReasonFits(why: RunReason, entries: seq<Decided>, gaps: set<string>) {
    match why
    case MostSevere => exists k :: 0 <= k < |entries| && entries[k].band != Clear
    case BlockedByCoverage => gaps != {} && forall k :: 0 <= k < |entries| ==> entries[k].band == Clear
    case NoCandidates => gaps == {} && entries == []
    case AutoClearAllowed => gaps == {} && entries != [] && forall k :: 0 <= k < |entries| ==> entries[k].band == Clear
  }

  lemma VerdictExactly(entries: seq<Decided>, status: map<string, StageStatus>)
    ensures var (disposition, autoClosed, why) := RunVerdict(Bands(entries), status);
            && RunReasonFits(why, entries, set key | key in status && status[key] == Unavailable)
            && (autoClosed <==> why == AutoClearAllowed || why == NoCandidates)
            && (disposition == Clear <==> autoClosed)
            && (disposition == Match <==> exists k :: 0 <= k < |entries| && entries[k].band == Match)
  {
    WorstIsClear(entries);
    WorstIsMatch(entries);
    var gaps := set key | key in status && status[key] == Unavailable;
    assert gaps != {} <==> exists key :: key in status && status[key] == Unavailable by {
      if key :| key in status && status[key] == Unavailable {
        assert key in gaps;
      }
    }
    hide Worst;
  }

  /** `build_explanation`: bands and verdict recomputed from the stored decision and the run's
      current availability without the dispose stage's own entry.  Each reason is the one its score
      and terms call for; a flag is raised exactly when the stored band or verdict is not the one of
      its reason. */
  method BuildExplanation(d: Decision, availability: map<string, StageStatus>) returns (e: Explanation)
    ensures |e.bandsConsistent| == |e.reasons| == |d.entries|
    ensures forall k :: 0 <= k < |d.entries| ==>
              && ReasonFits(e.reasons[k], d.entries[k].score, d.entries[k].terms, d.thresholds)
              && (e.bandsConsistent[k] <==>
                    match e.reasons[k]
                    case AtOrAboveMatch => d.entries[k].band == Match
                    case BelowClear => d.entries[k].band == Clear
                    case _ => d.entries[k].band == Review)
    ensures forall key :: key in e.gaps <==> key in availability && key != "dispose" && availability[key] == Unavailable
    ensures RunReasonFits(e.why, d.entries, e.gaps)
    ensures e.runConsistent <==>
              && (d.autoClosed <==> e.why == AutoClearAllowed || e.why == NoCandidates)
              && (d.disposition == Clear <==> e.why == AutoClearAllowed || e.why == NoCandidates)
              && (d.disposition == Match <==> exists k :: 0 <= k < |d.entries| && d.entries[k].band == Match)
    ensures ExplainsItself(d, availability - {"dispose"}) <==>
            e.runConsistent && forall k :: 0 <= k < |e.bandsConsistent| ==> e.bandsConsistent[k]
  {
    hide NamedConflict, ReasonFits, RunReasonFits, Worst;
    var flags: seq<bool>, reasons: seq<BandReason> := [], [];
    for i := 0 to |d.entries|
      invariant |flags| == |reasons| == i
      invariant forall k :: 0 <= k < i ==>
                  var (band, reason) := BandWithReason(d.entries[k].score, d.entries[k].terms, d.thresholds);
                  reasons[k] == reason && (flags[k] <==> band == d.entries[k].band)
    {
      var (band, reason) := BandWithReason(d.entries[i].score, d.entries[i].terms, d.thresholds);
      flags, reasons := flags + [band == d.entries[i].band], reasons + [reason];
    }
    forall k | 0 <= k < |d.entries| ensures ReasonFits(reasons[k], d.entries[k].score, d.entries[k].terms, d.thresholds) {
      ReasonsExactly(d.entries[k].score, d.entries[k].terms, d.thresholds);
    }
    var status := availability - {"dispose"};
    var (disposition, autoClosed, why) := RunVerdict(Bands(d.entries), status);
    VerdictExactly(d.entries, status);
    var gaps := set key | key in status && status[key] == Unavailable;
    e := Explanation(flags, reasons, disposition == d.disposition && autoClosed == d.autoClosed, why, gaps);
  }

  /** A decision's stored bands and verdict are what the same rules give on the stored terms and
      thresholds, as long as the statuses it saw are unchanged. */
  predicate ExplainsItself(d: Decision, status: map<string, StageStatus>) {
    && (forall k :: 0 <= k < |d.entries| ==>
          BandWithReason(d.entries[k].score, d.entries[k].terms, d.thresholds).0 == d.entries[k].band)
    && (var (disposition, autoClosed, _) := RunVerdict(Bands(d.entries), status);
        disposition == d.disposition && autoClosed == d.autoClosed)
  }

  lemma DecisionExplainsItself(t: Tables, b: Bundle)
    ensures ExplainsItself(Decide(t, b), b.status)
  {
    hide NamedConflict, TwoPass, Score, Worst;
    var d := Decide(t, b);
    forall k | 0 <= k < |d.entries|
      ensures BandWithReason(d.entries[k].score, d.entries[k].terms, d.thresholds).0 == d.entries[k].band
    {
    }
  }
}
