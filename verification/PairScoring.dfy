/**
Scoring one subject against one list record (backend/app/screening/scoring.py:136-339): dates of
birth, identity documents, nationality, place of birth, and the weighted sum.
*/
module PairScoring {
  import opened Wrappers
  import opened Names
  import opened Scoring
  import opened Watchlist

  /** A missing text is "", a missing or unreadable date of birth None. */
  datatype Person = Person(
    name: string, originalScript: string, aliases: seq<string>, dob: Option<Dob>,
    documents: seq<Document>, nationality: string, pob: string)

  /** The pinned libraries, and the country table with its fallback. */
  datatype Tables = Tables(lib: Library, country: string -> string)

  /** Weights and thresholds in hundredths; old rules do not know the partial-conflict term. */
  datatype Rule = Rule(weight: Term -> int, knowsPartialConflict: bool, clearBelow: int, matchAt: int, commonAt: int)

  function DefaultWeight(t: Term): int {
    match t
    case NameExact => 50
    case NameReordered => 45
    case NameTranslit => 40
    case NameInitials => 35
    case NamePartial => 20
    case DobFull => 30
    case DobYear => 15
    case DobRange => 10
    case DobConflict => -35
    case DobPartialConflict => -15
    case IdMatch => 60
    case IdConflict => -30
    case NationalityMatch => 10
    case NationalityConflict => -10
    case PobMatch => 5
    case CommonName => -15
  }

  const DEFAULT_RULE: Rule := Rule(DefaultWeight, true, 35, 90, 10)

  // ----- Date of birth

  predicate SameDate(d: Dob, l: ListDob) {
    l.OnDate? && l.date == Some(d)
  }

  predicate SameYear(d: Dob, l: ListDob) {
    match l
    case OnDate(date) =>
      !SameDate(d, l) && d.day.None? && date.Some? && date.value.year == d.year
      && (d.month.None? || date.value.month == d.month)
    case InRange(_, _) => false
    case InYear(year, month, circa) =>
      !circa && year == d.year && (month.None? || d.month.None? || month == d.month)
  }

  predicate WithinRange(d: Dob, l: ListDob) {
    match l
    case OnDate(_) => false
    case InRange(fromYear, toYear) => fromYear <= d.year <= toYear
    case InYear(year, _, circa) => circa && -2 <= year - d.year <= 2
  }

  predicate HasFullDate(l: ListDob) {
    l.OnDate? && l.date.Some? && l.date.value.day.Some?
  }

  /** The best agreement any listed date gives; failing all, a conflict, full only between days. */
  function DobTermOf(dob: Option<Dob>, listed: seq<ListDob>): Option<Term> {
    if dob.None? || listed == [] then None
    else if exists k :: 0 <= k < |listed| && SameDate(dob.value, listed[k]) then Some(DobFull)
    else if exists k :: 0 <= k < |listed| && SameYear(dob.value, listed[k]) then Some(DobYear)
    else if exists k :: 0 <= k < |listed| && WithinRange(dob.value, listed[k]) then Some(DobRange)
    else if dob.value.day.Some? && exists k :: 0 <= k < |listed| && HasFullDate(listed[k]) then Some(DobConflict)
    else Some(DobPartialConflict)
  }

  /** `_dob_term`: one pass, keeping the best-ranked term. */
  method DobTerm(dob: Option<Dob>, listed: seq<ListDob>) returns (term: Option<Term>)
    ensures term == DobTermOf(dob, listed)
  {
    if dob.None? || listed == [] {
      return None;
    }
    var best: Option<Term> := None;
    var full := false;
    for i := 0 to |listed|
      invariant best.None? || best.value in {DobFull, DobYear, DobRange}
      invariant best == Some(DobFull) <==> exists k :: 0 <= k < i && SameDate(dob.value, listed[k])
      invariant best == Some(DobYear) ==> exists k :: 0 <= k < i && SameYear(dob.value, listed[k])
      invariant (exists k :: 0 <= k < i && SameYear(dob.value, listed[k])) ==> best == Some(DobFull) || best == Some(DobYear)
      invariant best == Some(DobRange) ==> exists k :: 0 <= k < i && WithinRange(dob.value, listed[k])
      invariant (exists k :: 0 <= k < i && WithinRange(dob.value, listed[k])) ==> best.Some?
      invariant full <==> exists k :: 0 <= k < i && HasFullDate(listed[k])
    {
      var here: Option<Term> :=
        if SameDate(dob.value, listed[i]) then Some(DobFull)
        else if SameYear(dob.value, listed[i]) then Some(DobYear)
        else if WithinRange(dob.value, listed[i]) then Some(DobRange)
        else None;
      if here.Some? && (best.None? || Rank(here.value) < Rank(best.value)) {
        best := here;
      }
      full := full || HasFullDate(listed[i]);
    }
    if best.Some? {
      return best;
    }
    return Some(if dob.value.day.Some? && full then DobConflict else DobPartialConflict);
  }

  // ----- Documents

  function NormalNumber(number: string): string {
    if number == "" then ""
    else
      var c := number[0];
      (if IsLower(c) then [c - 32 as char] else if IsUpper(c) || IsDigit(c) then [c] else []) + NormalNumber(number[1..])
  }

  predicate SameNumber(a: Document, b: Document) {
    a.kind == b.kind && NormalNumber(a.number) == NormalNumber(b.number)
  }

  /** Same type and issuing country, different number. */
  predicate OtherNumber(a: Document, b: Document) {
    a.kind == b.kind && NormalNumber(a.number) != NormalNumber(b.number) && a.country != "" && a.country == b.country
  }

  predicate HasMatch(mine: seq<Document>, theirs: seq<Document>) {
    exists i, j :: 0 <= i < |mine| && 0 <= j < |theirs| && SameNumber(mine[i], theirs[j])
  }

  predicate HasOther(mine: seq<Document>, theirs: seq<Document>) {
    exists i, j :: 0 <= i < |mine| && 0 <= j < |theirs| && OtherNumber(mine[i], theirs[j])
  }

  function IdTermsOf(mine: seq<Document>, theirs: seq<Document>): seq<Term> {
    if HasMatch(mine, theirs) then [IdMatch] else if HasOther(mine, theirs) then [IdConflict] else []
  }

  /** `_id_terms`: every pair of documents; a match outweighs any conflict. */
  method IdTerms(mine: seq<Document>, theirs: seq<Document>) returns (terms: seq<Term>)
    ensures terms == IdTermsOf(mine, theirs)
  {
    hide NormalNumber;
    var found, conflict := false, false;
    for i := 0 to |mine|
      invariant found <==> exists a, b :: 0 <= a < i && 0 <= b < |theirs| && SameNumber(mine[a], theirs[b])
      invariant conflict <==> exists a, b :: 0 <= a < i && 0 <= b < |theirs| && OtherNumber(mine[a], theirs[b])
    {
      for j := 0 to |theirs|
        invariant found <==> exists a, b :: 0 <= a <= i && 0 <= b < |theirs| && (a < i || b < j) && SameNumber(mine[a], theirs[b])
        invariant conflict <==> exists a, b :: 0 <= a <= i && 0 <= b < |theirs| && (a < i || b < j) && OtherNumber(mine[a], theirs[b])
      {
        if mine[i].kind == theirs[j].kind {
          if SameNumber(mine[i], theirs[j]) {
            found := true;
          } else if OtherNumber(mine[i], theirs[j]) {
            conflict := true;
          }
        }
      }
    }
    terms := if found then [IdMatch] else if conflict then [IdConflict] else [];
  }

  // ----- Nationality and place of birth

  function NationalityTermOf(t: Tables, mine: string, theirs: seq<string>): Option<Term> {
    var ours := if mine == "" then "" else t.country(mine);
    var listed := set n | n in theirs && n != "" :: t.country(n);
    if ours == "" || listed == {} then None
    else Some(if ours in listed then NationalityMatch else NationalityConflict)
  }

  function PobTermOf(t: Tables, mine: string, theirs: seq<string>): Option<Term> {
    var want := set w | w in Tokens(t.lib, mine);
    if want == {} then None
    else if exists k :: 0 <= k < |theirs| && want <= (set w | w in Tokens(t.lib, theirs[k])) then Some(PobMatch)
    else None
  }

  // ----- The pair

  function PersonNames(p: Person): seq<string> {
    [p.name] + p.aliases
  }

  /** Per subject name, the best term over the record's variants. */
  function SubjectTerms(lib: Library, names: seq<string>, variants: seq<string>): (terms: seq<Option<Term>>)
    ensures |terms| == |names|
  {
    seq(|names|, k requires 0 <= k < |names| =>
      if names[k] == "" then None
      else
        var best := BestOf(VariantTerms(lib, Tokens(lib, names[k]), variants), |variants|);
        if best.Some? then Some(best.value.term) else None)
  }

  function NameTermOf(lib: Library, p: Person, r: WatchRecord): (term: Option<Term>)
  {
    var best := BestOf(SubjectTerms(lib, PersonNames(p), r.names), |PersonNames(p)|);
    if best.Some? then Some(best.value.term) else None
  }

  function Opt(t: Option<Term>): seq<Term> {
    if t.Some? then [t.value] else []
  }

  /** A rule older than the partial-conflict term falls back on the full one. */
  function KnownDob(rule: Rule, t: Option<Term>): Option<Term> {
    if t == Some(DobPartialConflict) && !rule.knowsPartialConflict then Some(DobConflict) else t
  }

  function BaseTerms(t: Tables, rule: Rule, p: Person, r: WatchRecord): seq<Term> {
    Opt(NameTermOf(t.lib, p, r)) + Opt(KnownDob(rule, DobTermOf(p.dob, r.dobs))) + IdTermsOf(p.documents, r.documents)
    + Opt(NationalityTermOf(t, p.nationality, r.nationalities)) + Opt(PobTermOf(t, p.pob, r.pobs))
  }

  predicate Corroborated(terms: seq<Term>) {
    DobFull in terms || DobYear in terms || DobRange in terms || IdMatch in terms
  }

  /** The common-name penalty: named, frequent, and nothing corroborates. */
  function Penalty(rule: Rule, named: bool, terms: seq<Term>, frequency: Option<int>): seq<Term> {
    if named && frequency.Some? && frequency.value >= rule.commonAt && !Corroborated(terms) then [CommonName] else []
  }

  function PairTerms(t: Tables, rule: Rule, p: Person, r: WatchRecord, frequency: Option<int>): seq<Term> {
    var terms := BaseTerms(t, rule, p, r);
    terms + Penalty(rule, NameTermOf(t.lib, p, r).Some?, terms, frequency)
  }

  function Score(rule: Rule, terms: seq<Term>): int {
    if terms == [] then 0 else rule.weight(terms[0]) + Score(rule, terms[1..])
  }

  /** The loop over the subject's names. */
  method BestName(lib: Library, p: Person, r: WatchRecord) returns (term: Option<Term>)
    ensures term == NameTermOf(lib, p, r)
  {
    hide CompareTerm, Tokens, VariantTerms, IsBest;
    var names := PersonNames(p);
    ghost var all := SubjectTerms(lib, names, r.names);
    var best: Option<Found> := None;
    for i := 0 to |names|
      invariant best == BestOf(all, i)
    {
      if names[i] != "" {
        var found := CompareNames(lib, names[i], r.names);
        assert all[i] == if found.Some? then Some(found.value.term) else None;
        if found.Some? && (best.None? || Rank(found.value.term) < Rank(best.value.term)) {
          best := Some(Found(found.value.term, i));
        }
      }
    }
    term := if best.Some? then Some(best.value.term) else None;
  }

  /** `score_pair`. */
  method ScorePair(t: Tables, rule: Rule, p: Person, r: WatchRecord, frequency: Option<int>) returns (score: int, terms: seq<Term>)
    ensures terms == PairTerms(t, rule, p, r, frequency)
    ensures score == Score(rule, terms)
  {
    hide NameTermOf, DobTermOf, IdTermsOf, NationalityTermOf, PobTermOf;
    var named := BestName(t.lib, p, r);
    var dob := DobTerm(p.dob, r.dobs);
    var ids := IdTerms(p.documents, r.documents);
    terms := Opt(named) + Opt(KnownDob(rule, dob)) + ids
      + Opt(NationalityTermOf(t, p.nationality, r.nationalities)) + Opt(PobTermOf(t, p.pob, r.pobs));
    terms := terms + Penalty(rule, named.Some?, terms, frequency);
    score := Score(rule, terms);
  }

  // ----- What each term means

  /** What one listed date says about a date of birth. */
  lemma OneDateDecides(d: Dob, l: ListDob)
    ensures var term := DobTermOf(Some(d), [l]);
            match l
            case OnDate(Some(x)) =>
              if x == d then term == Some(DobFull)
              else if d.day.Some? then term == Some(if x.day.Some? then DobConflict else DobPartialConflict)
              else term == Some(if x.year == d.year && (d.month == None || d.month == x.month) then DobYear else DobPartialConflict)
            case OnDate(None) => term == Some(DobPartialConflict)
            case InRange(fromYear, toYear) => term == Some(if fromYear <= d.year && d.year <= toYear then DobRange else DobPartialConflict)
            case InYear(year, month, true) =>
              term == Some(if year in {d.year - 2, d.year - 1, d.year, d.year + 1, d.year + 2} then DobRange else DobPartialConflict)
            case InYear(year, month, false) =>
              term == Some(if year == d.year && (month == d.month || month == None || d.month == None) then DobYear else DobPartialConflict)
  {
    assert [l][0] == l;
  }

  /** The listed dates speak one by one; the best-ranked answer is the term. */
  lemma BestDateDecides(d: Dob, listed: seq<ListDob>)
    requires listed != []
    ensures var term := DobTermOf(Some(d), listed);
            && term.Some?
            && (exists k :: 0 <= k < |listed| && DobTermOf(Some(d), [listed[k]]) == term)
            && (forall k :: 0 <= k < |listed| ==>
                  DobTermOf(Some(d), [listed[k]]).Some? && Rank(term.value) <= Rank(DobTermOf(Some(d), [listed[k]]).value))
  {
    forall k | 0 <= k < |listed|
      ensures var one := DobTermOf(Some(d), [listed[k]]);
              && (one == Some(DobFull) <==> SameDate(d, listed[k]))
              && (one == Some(DobYear) <==> !SameDate(d, listed[k]) && SameYear(d, listed[k]))
              && (one == Some(DobRange) <==> !SameDate(d, listed[k]) && !SameYear(d, listed[k]) && WithinRange(d, listed[k]))
              && one.Some? && 5 <= Rank(one.value) <= 9
              && (one == Some(DobConflict) ==> d.day.Some? && HasFullDate(listed[k]))
              && (one == Some(DobPartialConflict) ==> !(d.day.Some? && HasFullDate(listed[k])))
    {
      assert [listed[k]][0] == listed[k];
    }
    hide SameDate, SameYear, WithinRange, HasFullDate;
    BestOfDates(d, listed, DobTermOf(Some(d), listed));
  }

  lemma BestOfDates(d: Dob, listed: seq<ListDob>, term: Option<Term>)
    requires listed != [] && term == DobTermOf(Some(d), listed)
    requires forall k :: 0 <= k < |listed| ==>
               var one := DobTermOf(Some(d), [listed[k]]);
               && (one == Some(DobFull) <==> SameDate(d, listed[k]))
               && (one == Some(DobYear) <==> !SameDate(d, listed[k]) && SameYear(d, listed[k]))
               && (one == Some(DobRange) <==> !SameDate(d, listed[k]) && !SameYear(d, listed[k]) && WithinRange(d, listed[k]))
               && one.Some? && 5 <= Rank(one.value) <= 9
               && (one == Some(DobConflict) ==> d.day.Some? && HasFullDate(listed[k]))
               && (one == Some(DobPartialConflict) ==> !(d.day.Some? && HasFullDate(listed[k])))
    ensures exists k :: 0 <= k < |listed| && DobTermOf(Some(d), [listed[k]]) == term
    ensures forall k :: 0 <= k < |listed| ==> Rank(term.value) <= Rank(DobTermOf(Some(d), [listed[k]]).value)
  {
    hide SameDate, SameYear, WithinRange, HasFullDate;
    if term == Some(DobPartialConflict) {
      assert DobTermOf(Some(d), [listed[0]]) == term;
    } else if term == Some(DobConflict) {
      var k :| 0 <= k < |listed| && HasFullDate(listed[k]);
      assert DobTermOf(Some(d), [listed[k]]) == term;
    }
  }

  /** The nationality term: both sides name a country; a match when a listed one is the subject's. */
  lemma NationalityTermExactly(t: Tables, mine: string, theirs: seq<string>)
    ensures var term := NationalityTermOf(t, mine, theirs);
            var known := mine != "" && t.country(mine) != "" && exists n :: n in theirs && n != "";
            var same := exists n :: n in theirs && n != "" && t.country(n) == t.country(mine);
            && (term == Some(NationalityMatch) <==> known && same)
            && (term == Some(NationalityConflict) <==> known && !same)
            && (term == None <==> !known)
  {
    var listed := set n | n in theirs && n != "" :: t.country(n);
    forall n | n in theirs && n != "" ensures t.country(n) in listed {
    }
  }

  /** The place-of-birth term: some listed place has every token of the subject's. */
  lemma PobTermExactly(t: Tables, mine: string, theirs: seq<string>)
    ensures var term := PobTermOf(t, mine, theirs);
            && (term == Some(PobMatch) <==>
                  Tokens(t.lib, mine) != []
                  && exists place :: place in theirs && forall w :: w in Tokens(t.lib, mine) ==> w in Tokens(t.lib, place))
            && (term.Some? ==> term == Some(PobMatch))
  {
    hide Tokens;
    var want := set w | w in Tokens(t.lib, mine);
    assert want != {} <==> Tokens(t.lib, mine) != [] by {
      if Tokens(t.lib, mine) != [] {
        assert Tokens(t.lib, mine)[0] in want;
      }
    }
    forall k | 0 <= k < |theirs|
      ensures want <= (set w | w in Tokens(t.lib, theirs[k])) <==> forall w :: w in Tokens(t.lib, mine) ==> w in Tokens(t.lib, theirs[k])
    {
      assert forall w :: w in want <==> w in Tokens(t.lib, mine);
    }
  }

  /** Letters and digits of a number, in capitals, are all that counts. */
  lemma {:induction false} NumberIsClean(number: string)
    ensures forall c :: c in NormalNumber(number) ==> IsUpper(c) || IsDigit(c)
  {
    if number != "" {
      NumberIsClean(number[1..]);
    }
  }

  lemma {:induction false} CleanNumberStays(number: string)
    requires forall c :: c in number ==> IsUpper(c) || IsDigit(c)
    ensures NormalNumber(number) == number
  {
    if number != "" {
      CleanNumberStays(number[1..]);
      assert [number[0]] + number[1..] == number;
    }
  }

  lemma {:induction false} NumberSplits(a: string, b: string)
    ensures NormalNumber(a + b) == NormalNumber(a) + NormalNumber(b)
  {
    if a == "" {
      assert a + b == b;
    } else {
      assert (a + b)[1..] == a[1..] + b;
      NumberSplits(a[1..], b);
    }
  }

  /** Two numbers written differently are the same document: case and anything but letters and
      digits do not count, and all the rest does. */
  lemma SeparatorsDoNotCount(a: string, c: char, b: string)
    ensures NormalNumber(a + [c] + b) ==
            NormalNumber(a) + (if IsUpper(c) || IsDigit(c) then [c] else if IsLower(c) then NormalNumber([c - 32 as char]) else []) + NormalNumber(b)
    ensures NormalNumber(NormalNumber(a)) == NormalNumber(a)
  {
    NumberSplits(a + [c], b);
    NumberSplits(a, [c]);
    NumberIsClean(a);
    CleanNumberStays(NormalNumber(a));
    OneCharacter(c);
    hide NormalNumber;
  }

  lemma OneCharacter(c: char)
    ensures NormalNumber([c]) == if IsUpper(c) || IsDigit(c) then [c] else if IsLower(c) then NormalNumber([c - 32 as char]) else []
  {
    assert [c][1..] == "" && NormalNumber("") == "";
    if IsLower(c) {
      var d := c - 32 as char;
      assert IsUpper(d) && [d][1..] == "";
      assert NormalNumber([d]) == [d];
    }
  }

  /** The document terms: a match when some pair of one kind has one number; failing that, a conflict
      when some pair of one kind and one stated country differs. */
  lemma IdTermsExactly(mine: seq<Document>, theirs: seq<Document>)
    ensures var same := exists a, b :: a in mine && b in theirs && a.kind == b.kind && NormalNumber(a.number) == NormalNumber(b.number);
            var other := exists a, b :: a in mine && b in theirs && a.kind == b.kind && a.country == b.country && a.country != ""
                                        && NormalNumber(a.number) != NormalNumber(b.number);
            IdTermsOf(mine, theirs) == if same then [IdMatch] else if other then [IdConflict] else []
  {
    if a, b :| a in mine && b in theirs && SameNumber(a, b) {
      var i :| 0 <= i < |mine| && mine[i] == a;
      var j :| 0 <= j < |theirs| && theirs[j] == b;
      assert SameNumber(mine[i], theirs[j]);
    }
    if a, b :| a in mine && b in theirs && OtherNumber(a, b) {
      var i :| 0 <= i < |mine| && mine[i] == a;
      var j :| 0 <= j < |theirs| && theirs[j] == b;
      assert OtherNumber(mine[i], theirs[j]);
    }
  }

  /** Some name of the person against some variant of the record. */
  ghost predicate Compared(lib: Library, p: Person, r: WatchRecord, term: Term) {
    exists name, variant :: (name == p.name || name in p.aliases) && name != "" && variant in r.names
                            && CompareTerm(lib, Tokens(lib, name), Tokens(lib, variant)) == Some(term)
  }

  /** The name term of a pair is the best that the name or an alias gets against any variant. */
  lemma NameTermIsBest(lib: Library, p: Person, r: WatchRecord, term: Term)
    ensures NameTermOf(lib, p, r) == Some(term) ==> Compared(lib, p, r, term)
    ensures Compared(lib, p, r, term) ==> NameTermOf(lib, p, r).Some? && Rank(NameTermOf(lib, p, r).value) <= Rank(term)
  {
    hide CompareTerm, Tokens;
    var names := PersonNames(p);
    var terms := SubjectTerms(lib, names, r.names);
    var best := BestOf(terms, |names|);
    if NameTermOf(lib, p, r) == Some(term) {
      var name := names[best.value.at];
      var inner := BestOf(VariantTerms(lib, Tokens(lib, name), r.names), |r.names|);
      assert terms[best.value.at] == Some(term) && name != "";
      assert VariantTerms(lib, Tokens(lib, name), r.names)[inner.value.at] == Some(term);
      assert r.names[inner.value.at] in r.names;
    }
    if Compared(lib, p, r, term) {
      ComparedIsRanked(lib, p, r, term);
    }
  }

  lemma ComparedIsRanked(lib: Library, p: Person, r: WatchRecord, term: Term)
    requires Compared(lib, p, r, term)
    ensures NameTermOf(lib, p, r).Some? && Rank(NameTermOf(lib, p, r).value) <= Rank(term)
  {
    hide CompareTerm, Tokens;
    var names := PersonNames(p);
    var name, variant :| (name == p.name || name in p.aliases) && name != "" && variant in r.names
                         && CompareTerm(lib, Tokens(lib, name), Tokens(lib, variant)) == Some(term);
    assert name in names;
    var i :| 0 <= i < |names| && names[i] == name;
    var j :| 0 <= j < |r.names| && r.names[j] == variant;
    var inner := VariantTerms(lib, Tokens(lib, name), r.names);
    assert inner[j] == Some(term);
    assert SubjectTerms(lib, names, r.names)[i].Some?;
  }

  /** A rule that does not know the partial conflict never uses it: it counts as a full one. */
  lemma OldRulesSeeFullConflicts(t: Tables, rule: Rule, p: Person, r: WatchRecord, frequency: Option<int>)
    ensures var terms, dob := PairTerms(t, rule, p, r, frequency), DobTermOf(p.dob, r.dobs);
            && (DobPartialConflict in terms <==> rule.knowsPartialConflict && dob == Some(DobPartialConflict))
            && (DobConflict in terms <==> dob == Some(DobConflict) || (!rule.knowsPartialConflict && dob == Some(DobPartialConflict)))
            && (DobFull in terms <==> dob == Some(DobFull)) && (DobYear in terms <==> dob == Some(DobYear))
            && (DobRange in terms <==> dob == Some(DobRange))
  {
    NameTermIsName(t.lib, p, r);
    PiecesAre(t, p, r);
    hide NameTermOf, DobTermOf, IdTermsOf, NationalityTermOf, PobTermOf;
    DobTermsOnly(NameTermOf(t.lib, p, r), KnownDob(rule, DobTermOf(p.dob, r.dobs)), IdTermsOf(p.documents, r.documents),
                 NationalityTermOf(t, p.nationality, r.nationalities), PobTermOf(t, p.pob, r.pobs),
                 Penalty(rule, NameTermOf(t.lib, p, r).Some?, BaseTerms(t, rule, p, r), frequency));
  }

  lemma PiecesAre(t: Tables, p: Person, r: WatchRecord)
    ensures IdTermsOf(p.documents, r.documents) in {[IdMatch], [IdConflict], []}
    ensures var nation := NationalityTermOf(t, p.nationality, r.nationalities);
            nation.Some? ==> nation.value in {NationalityMatch, NationalityConflict}
    ensures var pob := PobTermOf(t, p.pob, r.pobs); pob.Some? ==> pob.value == PobMatch
  {
    hide HasMatch, HasOther;
  }

  lemma InOpt(t: Option<Term>)
    ensures forall x :: x in Opt(t) <==> t == Some(x)
  {
  }

  lemma DobTermsOnly(name: Option<Term>, dob: Option<Term>, ids: seq<Term>, nation: Option<Term>, pob: Option<Term>, penalty: seq<Term>)
    requires name.Some? ==> name.value.IsName()
    requires ids in {[IdMatch], [IdConflict], []} && penalty in {[CommonName], []}
    requires nation.Some? ==> nation.value in {NationalityMatch, NationalityConflict}
    requires pob.Some? ==> pob.value == PobMatch
    ensures var terms := Opt(name) + Opt(dob) + ids + Opt(nation) + Opt(pob) + penalty;
            && (DobFull in terms <==> dob == Some(DobFull)) && (DobYear in terms <==> dob == Some(DobYear))
            && (DobRange in terms <==> dob == Some(DobRange)) && (DobConflict in terms <==> dob == Some(DobConflict))
            && (DobPartialConflict in terms <==> dob == Some(DobPartialConflict))
  {
    InOpt(name);
    InOpt(dob);
    InOpt(nation);
    InOpt(pob);
    hide Opt;
    assert forall x :: x in ids ==> x == IdMatch || x == IdConflict;
    assert forall x :: x in penalty ==> x == CommonName;
  }

  /** The default weights follow the catalogue: a better name weighs more, agreement adds and
      disagreement takes away, a document outweighs any name, and no name alone reaches MATCH. */
  lemma DefaultWeightsAreOrdered(a: Term, b: Term)
    ensures a.IsName() && b.IsName() && Rank(a) < Rank(b) ==> DefaultWeight(a) > DefaultWeight(b) > 0
    ensures 5 <= Rank(a) < Rank(b) <= 7 ==> DefaultWeight(a) > DefaultWeight(b) > 0
    ensures DefaultWeight(DobConflict) < DefaultWeight(DobPartialConflict) < 0
    ensures a.IsName() ==> DefaultWeight(IdMatch) > DefaultWeight(a)
    ensures DefaultWeight(a) < 0 <==> a.DobConflict? || a.DobPartialConflict? || a.IdConflict? || a.NationalityConflict? || a.CommonName?
    ensures Score(DEFAULT_RULE, [NameExact, DobFull]) == 80 && Score(DEFAULT_RULE, [NameExact, DobFull, NationalityMatch]) == 90
    ensures Score(DEFAULT_RULE, [NameExact]) == 50 && Score(DEFAULT_RULE, [NameExact, DobConflict]) == 15
  {
    ScoreOfThree(NameExact, DobFull, NationalityMatch);
    ScoreOfThree(NameExact, DobConflict, NationalityMatch);
  }

  lemma ScoreOfThree(a: Term, b: Term, c: Term)
    ensures Score(DEFAULT_RULE, [a]) == DefaultWeight(a)
    ensures Score(DEFAULT_RULE, [a, b]) == DefaultWeight(a) + DefaultWeight(b)
    ensures Score(DEFAULT_RULE, [a, b, c]) == DefaultWeight(a) + DefaultWeight(b) + DefaultWeight(c)
  {
    assert [a][1..] == [] && [a, b][1..] == [b] && [b][1..] == [];
    assert [a, b, c][1..] == [b, c] && [b, c][1..] == [c] && [c][1..] == [];
    assert Score(DEFAULT_RULE, [c]) == DefaultWeight(c);
    assert Score(DEFAULT_RULE, [b, c]) == DefaultWeight(b) + DefaultWeight(c);
  }

  // ----- What a score can mean

  lemma {:induction false} ScoreAdds(rule: Rule, a: seq<Term>, b: seq<Term>)
    ensures Score(rule, a + b) == Score(rule, a) + Score(rule, b)
  {
    if a == [] {
      assert a + b == b;
    } else {
      assert (a + b)[1..] == a[1..] + b;
      ScoreAdds(rule, a[1..], b);
    }
  }

  lemma OneTermScore(rule: Rule, t: Option<Term>)
    ensures Score(rule, Opt(t)) == if t.Some? then rule.weight(t.value) else 0
  {
  }

  predicate HardEvidence(terms: seq<Term>) {
    DobFull in terms || IdMatch in terms
  }

  /** Under the default rule no combination of name, year of birth, nationality and place of birth
      reaches MATCH: a full date of birth or a document number is always among the terms. */
  lemma MatchNeedsHardEvidence(t: Tables, p: Person, r: WatchRecord, frequency: Option<int>)
    requires Score(DEFAULT_RULE, PairTerms(t, DEFAULT_RULE, p, r, frequency)) >= DEFAULT_RULE.matchAt
    ensures HardEvidence(PairTerms(t, DEFAULT_RULE, p, r, frequency))
  {
    NameTermIsName(t.lib, p, r);
    var name, dob := NameTermOf(t.lib, p, r), KnownDob(DEFAULT_RULE, DobTermOf(p.dob, r.dobs));
    var ids := IdTermsOf(p.documents, r.documents);
    var nation, pob := NationalityTermOf(t, p.nationality, r.nationalities), PobTermOf(t, p.pob, r.pobs);
    DobTermIsDob(p.dob, r.dobs);
    SoftTermsScore(name, dob, ids, nation, pob, Penalty(DEFAULT_RULE, name.Some?, BaseTerms(t, DEFAULT_RULE, p, r), frequency));
  }

  lemma NameTermIsName(lib: Library, p: Person, r: WatchRecord)
    ensures NameTermOf(lib, p, r).Some? ==> NameTermOf(lib, p, r).value.IsName()
  {
    hide CompareTerm;
    var names := PersonNames(p);
    var terms := SubjectTerms(lib, names, r.names);
    var best := BestOf(terms, |names|);
    if best.Some? {
      var st := Tokens(lib, names[best.value.at]);
      var inner := BestOf(VariantTerms(lib, st, r.names), |r.names|);
      assert VariantTerms(lib, st, r.names)[inner.value.at] == CompareTerm(lib, st, Tokens(lib, r.names[inner.value.at]));
    }
  }

  lemma DobTermIsDob(dob: Option<Dob>, listed: seq<ListDob>)
    ensures DobTermOf(dob, listed).Some? ==> 5 <= Rank(DobTermOf(dob, listed).value) <= 9
  {
  }

  lemma SoftTermsScore(name: Option<Term>, dob: Option<Term>, ids: seq<Term>, nation: Option<Term>, pob: Option<Term>, penalty: seq<Term>)
    requires name.Some? ==> name.value.IsName()
    requires dob.Some? ==> 5 <= Rank(dob.value) <= 9
    requires ids in {[IdMatch], [IdConflict], []} && penalty in {[CommonName], []}
    requires nation.Some? ==> nation.value in {NationalityMatch, NationalityConflict}
    requires pob.Some? ==> pob.value == PobMatch
    ensures var terms := Opt(name) + Opt(dob) + ids + Opt(nation) + Opt(pob) + penalty;
            Score(DEFAULT_RULE, terms) >= 90 ==> HardEvidence(terms)
  {
    var terms := Opt(name) + Opt(dob) + ids + Opt(nation) + Opt(pob) + penalty;
    HardPartsShow(Opt(name), dob, ids, Opt(nation) + Opt(pob) + penalty);
    assert terms == Opt(name) + Opt(dob) + ids + (Opt(nation) + Opt(pob) + penalty);
    SumOfParts(name, dob, ids, nation, pob, penalty);
    SoftOptions(name, dob, nation, pob);
    SoftLists(ids, penalty);
  }

  lemma HardPartsShow(before: seq<Term>, dob: Option<Term>, ids: seq<Term>, rest: seq<Term>)
    ensures dob == Some(DobFull) || ids == [IdMatch] ==> HardEvidence(before + Opt(dob) + ids + rest)
  {
    var terms := before + Opt(dob) + ids + rest;
    if dob == Some(DobFull) {
      assert terms[|before|] == DobFull;
    }
    if ids == [IdMatch] {
      assert terms[|before + Opt(dob)|] == IdMatch;
    }
  }

  lemma SoftOptions(name: Option<Term>, dob: Option<Term>, nation: Option<Term>, pob: Option<Term>)
    requires name.Some? ==> name.value.IsName()
    requires dob.Some? ==> 5 <= Rank(dob.value) <= 9
    requires nation.Some? ==> nation.value in {NationalityMatch, NationalityConflict}
    requires pob.Some? ==> pob.value == PobMatch
    ensures Score(DEFAULT_RULE, Opt(name)) <= 50
    ensures Score(DEFAULT_RULE, Opt(dob)) <= if dob == Some(DobFull) then 30 else 15
    ensures Score(DEFAULT_RULE, Opt(nation)) <= 10 && Score(DEFAULT_RULE, Opt(pob)) <= 5
  {
    OneTermScore(DEFAULT_RULE, name);
    OneTermScore(DEFAULT_RULE, dob);
    OneTermScore(DEFAULT_RULE, nation);
    OneTermScore(DEFAULT_RULE, pob);
    hide Score, Opt;
  }

  lemma SoftLists(ids: seq<Term>, penalty: seq<Term>)
    requires ids in {[IdMatch], [IdConflict], []} && penalty in {[CommonName], []}
    ensures Score(DEFAULT_RULE, ids) <= (if ids == [IdMatch] then 60 else 0) && Score(DEFAULT_RULE, penalty) <= 0
  {
  }

  lemma SumOfParts(name: Option<Term>, dob: Option<Term>, ids: seq<Term>, nation: Option<Term>, pob: Option<Term>, penalty: seq<Term>)
    ensures Score(DEFAULT_RULE, Opt(name) + Opt(dob) + ids + Opt(nation) + Opt(pob) + penalty) ==
            Score(DEFAULT_RULE, Opt(name)) + Score(DEFAULT_RULE, Opt(dob)) + Score(DEFAULT_RULE, ids)
            + Score(DEFAULT_RULE, Opt(nation)) + Score(DEFAULT_RULE, Opt(pob)) + Score(DEFAULT_RULE, penalty)
  {
    hide Score, Opt;
    ScoreAdds(DEFAULT_RULE, Opt(name) + Opt(dob) + ids + Opt(nation) + Opt(pob), penalty);
    ScoreAdds(DEFAULT_RULE, Opt(name) + Opt(dob) + ids + Opt(nation), Opt(pob));
    ScoreAdds(DEFAULT_RULE, Opt(name) + Opt(dob) + ids, Opt(nation));
    ScoreAdds(DEFAULT_RULE, Opt(name) + Opt(dob), ids);
    ScoreAdds(DEFAULT_RULE, Opt(name), Opt(dob));
  }
}
