/**
Screening scoring (backend/app/screening/scoring.py).  Weights and scores are in hundredths, so
the source's rounding to six places is exact.
*/
module Scoring {
  import opened Wrappers
  import opened Names

  datatype Term =
    | NameExact | NameReordered | NameTranslit | NameInitials | NamePartial
    | DobFull | DobYear | DobRange | DobConflict | DobPartialConflict
    | IdMatch | IdConflict
    | NationalityMatch | NationalityConflict
    | PobMatch
    | CommonName
  {
    predicate IsName() { Rank(this) < 5 }

    predicate IsFullName() { NameExact? || NameReordered? || NameTranslit? }
  }

  /** Position in the term catalogue: a smaller rank is a better term. */
  function Rank(t: Term): nat {
    match t
    case NameExact => 0
    case NameReordered => 1
    case NameTranslit => 2
    case NameInitials => 3
    case NamePartial => 4
    case DobFull => 5
    case DobYear => 6
    case DobRange => 7
    case DobConflict => 8
    case DobPartialConflict => 9
    case IdMatch => 10
    case IdConflict => 11
    case NationalityMatch => 12
    case NationalityConflict => 13
    case PobMatch => 14
    case CommonName => 15
  }

  // ----- Names

  datatype Kind = Full | Initial

  function TokMatch(lib: Library, a: string, b: string): Option<Kind> {
    if |a| == 1 || |b| == 1 then
      var (long, short) := if |a| == 1 then (b, a) else (a, b);
      if short <= long then Some(Initial) else None
    else if a == b || CanonicalGiven(lib, a) == CanonicalGiven(lib, b) then Some(Full)
    else if TokenKeys(lib, a) * TokenKeys(lib, b) != {} then Some(Full)
    else None
  }

  /** Two tokens match as initials when one of them is a single letter and the other starts with it;
      in full when neither is and they are equal, share a canonical given name or share a key.  The
      order of the two does not matter. */
  lemma TokMatchMeans(lib: Library, a: string, b: string)
    requires a != "" && b != ""
    ensures TokMatch(lib, a, b) == Some(Initial) <==> (|a| == 1 || |b| == 1) && a[0] == b[0]
    ensures TokMatch(lib, a, b) == Some(Full) <==>
              && |a| >= 2 && |b| >= 2
              && (CanonicalGiven(lib, a) == CanonicalGiven(lib, b) || exists key :: key in TokenKeys(lib, a) && key in TokenKeys(lib, b))
    ensures TokMatch(lib, a, b) == TokMatch(lib, b, a)
  {
    if key :| key in TokenKeys(lib, a) && key in TokenKeys(lib, b) {
      assert key in TokenKeys(lib, a) * TokenKeys(lib, b);
    }
  }

  /** The index of the first token that matches `token` with the given kind. */
  function FirstOf(lib: Library, token: string, unused: seq<string>, kind: Kind): (r: Option<nat>)
    ensures r.Some? ==> r.value < |unused| && TokMatch(lib, token, unused[r.value]) == Some(kind)
                        && forall k :: 0 <= k < r.value ==> TokMatch(lib, token, unused[k]) != Some(kind)
    ensures r.None? ==> forall k :: 0 <= k < |unused| ==> TokMatch(lib, token, unused[k]) != Some(kind)
  {
    if unused == [] then None
    else if TokMatch(lib, token, unused[0]) == Some(kind) then Some(0)
    else
      var rest := FirstOf(lib, token, unused[1..], kind);
      if rest.Some? then Some(rest.value + 1) else None
  }

  datatype Pick = Pick(at: nat, kind: Kind)

  /** A full match if there is one, else an initial. */
  function BestFor(lib: Library, token: string, unused: seq<string>): (r: Option<Pick>)
    ensures r.Some? ==> r.value.at < |unused| && TokMatch(lib, token, unused[r.value.at]) == Some(r.value.kind)
  {
    var full := FirstOf(lib, token, unused, Full);
    if full.Some? then Some(Pick(full.value, Full))
    else
      var initial := FirstOf(lib, token, unused, Initial);
      if initial.Some? then Some(Pick(initial.value, Initial)) else None
  }

  datatype Pairing = Pairing(matched: nat, initials: bool, unused: seq<string>)

  function Without<T>(s: seq<T>, k: nat): seq<T>
    requires k < |s|
  {
    s[..k] + s[k + 1..]
  }

  /** The greedy pairing after the first `n` subject tokens. */
  function Greedy(lib: Library, subject: seq<string>, record: seq<string>, n: nat): (p: Pairing)
    requires n <= |subject|
    ensures p.matched <= n && |p.unused| + p.matched == |record|
  {
    if n == 0 then Pairing(0, false, record)
    else
      var p := Greedy(lib, subject, record, n - 1);
      var best := BestFor(lib, subject[n - 1], p.unused);
      if best.None? then p
      else Pairing(p.matched + 1, p.initials || best.value.kind == Initial, Without(p.unused, best.value.at))
  }

  /** The name term of one pair of token lists. */
  function CompareTerm(lib: Library, subject: seq<string>, record: seq<string>): (r: Option<Term>)
    ensures r.Some? ==> r.value.IsName()
  {
    if subject == [] || record == [] then None
    else if subject == record then Some(NameExact)
    else if multiset(subject) == multiset(record) then Some(NameReordered)
    else
      var p := Greedy(lib, subject, record, |subject|);
      if p.matched == |subject| && |subject| >= 2 && |p.unused| <= 1 then
        Some(if p.initials then NameInitials else NameTranslit)
      else if p.matched > 0 then Some(NamePartial)
      else None
  }

  /** The inner loop of `_compare`: stop at the first full match, remember the first initial. */
  method PickPartner(lib: Library, token: string, unused: seq<string>) returns (best: Option<Pick>)
    ensures best == BestFor(lib, token, unused)
  {
    hide TokMatch;
    best := None;
    for k := 0 to |unused|
      invariant forall j :: 0 <= j < k ==> TokMatch(lib, token, unused[j]) != Some(Full)
      invariant best.None? ==> forall j :: 0 <= j < k ==> TokMatch(lib, token, unused[j]) != Some(Initial)
      invariant best.Some? ==> (
        && best.value.kind == Initial && best.value.at < k
        && TokMatch(lib, token, unused[best.value.at]) == Some(Initial)
        && forall j :: 0 <= j < best.value.at ==> TokMatch(lib, token, unused[j]) != Some(Initial))
    {
      var kind := TokMatch(lib, token, unused[k]);
      if kind == Some(Full) {
        return Some(Pick(k, Full));
      }
      if kind == Some(Initial) && best.None? {
        best := Some(Pick(k, Initial));
      }
    }
  }

  /** `_compare`: equal lists, the same tokens in another order, or what the pairing leaves. */
  method Compare(lib: Library, subject: seq<string>, record: seq<string>) returns (term: Option<Term>)
    ensures term == CompareTerm(lib, subject, record)
  {
    if subject == [] || record == [] {
      return None;
    }
    if subject == record {
      return Some(NameExact);
    }
    if multiset(subject) == multiset(record) {
      return Some(NameReordered);
    }
    hide Greedy;
    var matched, initials, unused := PairUp(lib, subject, record);
    if matched == |subject| && |subject| >= 2 && |unused| <= 1 {
      return Some(if initials then NameInitials else NameTranslit);
    }
    return if matched > 0 then Some(NamePartial) else None;
  }

  /** Its outer loop: each subject token takes its partner. */
  method PairUp(lib: Library, subject: seq<string>, record: seq<string>) returns (matched: nat, initials: bool, unused: seq<string>)
    ensures Greedy(lib, subject, record, |subject|) == Pairing(matched, initials, unused)
  {
    hide TokMatch, BestFor;
    unused, matched, initials := record, 0, false;
    for i := 0 to |subject|
      invariant Greedy(lib, subject, record, i) == Pairing(matched, initials, unused)
    {
      var best := PickPartner(lib, subject[i], unused);
      if best.Some? {
        unused := Without(unused, best.value.at);
        matched := matched + 1;
        initials := initials || best.value.kind == Initial;
      }
    }
  }

  /** A term, and which of the compared names it was found on. */
  datatype Found = Found(term: Term, at: nat)

  /** `best` is the best of the first `n` terms, at the earliest place that has it. */
  ghost predicate IsBest(terms: seq<Option<Term>>, n: nat, best: Option<Found>)
    requires n <= |terms|
  {
    match best
    case None => forall k :: 0 <= k < n ==> terms[k].None?
    case Some(found) =>
      && found.at < n
      && terms[found.at] == Some(found.term)
      && forall k :: 0 <= k < n && terms[k].Some? ==>
           Rank(found.term) <= Rank(terms[k].value) && (k < found.at ==> Rank(found.term) < Rank(terms[k].value))
  }

  function BestOf(terms: seq<Option<Term>>, n: nat): (best: Option<Found>)
    requires n <= |terms|
    ensures IsBest(terms, n, best)
  {
    if n == 0 then None
    else
      var best := BestOf(terms, n - 1);
      if terms[n - 1].Some? && (best.None? || Rank(terms[n - 1].value) < Rank(best.value.term))
      then Some(Found(terms[n - 1].value, n - 1))
      else best
  }

  function VariantTerms(lib: Library, st: seq<string>, variants: seq<string>): (terms: seq<Option<Term>>)
    ensures |terms| == |variants|
  {
    seq(|variants|, k requires 0 <= k < |variants| => CompareTerm(lib, st, Tokens(lib, variants[k])))
  }

  /** `compare_names`: the best name term across a record's variants. */
  method CompareNames(lib: Library, subjectName: string, variants: seq<string>) returns (best: Option<Found>)
    ensures IsBest(VariantTerms(lib, Tokens(lib, subjectName), variants), |variants|, best)
    ensures best == BestOf(VariantTerms(lib, Tokens(lib, subjectName), variants), |variants|)
  {
    var st := Tokens(lib, subjectName);
    ghost var terms := VariantTerms(lib, st, variants);
    best := None;
    for i := 0 to |variants|
      invariant best == BestOf(terms, i)
    {
      var term := Compare(lib, st, Tokens(lib, variants[i]));
      assert term == terms[i];
      if term.Some? {
        if best.None? || Rank(term.value) < Rank(best.value.term) {
          best := Some(Found(term.value, i));
        }
      }
    }
  }

  // ----- What the name terms mean

  /** `partners` pairs the first `n` subject tokens one to one with record tokens: together with
      what is left over they are the record. */
  ghost predicate PairsOneToOne(lib: Library, subject: seq<string>, record: seq<string>, partners: seq<string>, left: seq<string>) {
    && |partners| <= |subject|
    && multiset(partners) + multiset(left) == multiset(record)
    && forall i :: 0 <= i < |partners| ==> TokMatch(lib, subject[i], partners[i]).Some?
  }

  ghost predicate AllFull(lib: Library, subject: seq<string>, partners: seq<string>)
    requires |partners| <= |subject|
  {
    forall i :: 0 <= i < |partners| ==> TokMatch(lib, subject[i], partners[i]) == Some(Full)
  }

  lemma NoPairs(lib: Library, subject: seq<string>, record: seq<string>)
    ensures PairsOneToOne(lib, subject, record, [], record)
  {
  }

  /** One more subject token takes a partner from those left. */
  lemma ExtendPairs(lib: Library, subject: seq<string>, record: seq<string>, partners: seq<string>, left: seq<string>, k: nat)
    requires PairsOneToOne(lib, subject, record, partners, left)
    requires |partners| < |subject| && k < |left| && TokMatch(lib, subject[|partners|], left[k]).Some?
    ensures PairsOneToOne(lib, subject, record, partners + [left[k]], Without(left, k))
  {
    hide TokMatch;
    RemoveOne(left, k);
    assert multiset(partners + [left[k]]) == multiset(partners) + multiset{left[k]};
  }

  /** When the greedy loop matched every token so far, it paired them one to one, and without
      initials every pair is a full match. */
  lemma {:induction false} GreedyPairsOneToOne(lib: Library, subject: seq<string>, record: seq<string>, n: nat)
    returns (partners: seq<string>)
    requires n <= |subject| && Greedy(lib, subject, record, n).matched == n
    ensures |partners| == n
    ensures PairsOneToOne(lib, subject, record, partners, Greedy(lib, subject, record, n).unused)
    ensures !Greedy(lib, subject, record, n).initials ==> AllFull(lib, subject, partners)
  {
    hide TokMatch, BestFor, PairsOneToOne;
    if n == 0 {
      partners := [];
      NoPairs(lib, subject, record);
    } else {
      var p := Greedy(lib, subject, record, n - 1);
      var best := BestFor(lib, subject[n - 1], p.unused);
      var fewer := GreedyPairsOneToOne(lib, subject, record, n - 1);
      ExtendPairs(lib, subject, record, fewer, p.unused, best.value.at);
      partners := fewer + [p.unused[best.value.at]];
    }
  }

  // ----- The comparison as first fit

  /** Record token `k` has been taken by none of the first `i` subject tokens. */
  predicate Free(record: seq<string>, at: seq<Option<nat>>, i: nat, k: nat)
    requires i <= |at|
  {
    k < |record| && Some(k) !in at[..i]
  }

  /** Subject token `i` takes the first free record token that matches in full; failing that, the
      first free one that matches as an initial; failing that, none. */
  ghost predicate Fits(lib: Library, token: string, record: seq<string>, at: seq<Option<nat>>, i: nat)
    requires i < |at|
  {
    match at[i]
    case None => forall k: nat :: Free(record, at, i, k) ==> TokMatch(lib, token, record[k]).None?
    case Some(k) =>
      && Free(record, at, i, k)
      && TokMatch(lib, token, record[k]).Some?
      && (TokMatch(lib, token, record[k]) == Some(Full) ==>
            forall j: nat :: j < k && Free(record, at, i, j) ==> TokMatch(lib, token, record[j]) != Some(Full))
      && (TokMatch(lib, token, record[k]) == Some(Initial) ==>
            && (forall j: nat :: Free(record, at, i, j) ==> TokMatch(lib, token, record[j]) != Some(Full))
            && (forall j: nat :: j < k && Free(record, at, i, j) ==> TokMatch(lib, token, record[j]) != Some(Initial)))
  }

  ghost predicate FirstFit(lib: Library, subject: seq<string>, record: seq<string>, at: seq<Option<nat>>) {
    |at| <= |subject| && forall i :: 0 <= i < |at| ==> Fits(lib, subject[i], record, at, i)
  }

  ghost predicate ByInitial(lib: Library, subject: seq<string>, record: seq<string>, at: seq<Option<nat>>, i: nat)
    requires i < |at| <= |subject|
  {
    at[i].Some? && at[i].value < |record| && TokMatch(lib, subject[i], record[at[i].value]) == Some(Initial)
  }

  lemma {:induction false} FirstFitUnique(lib: Library, subject: seq<string>, record: seq<string>, a: seq<Option<nat>>, b: seq<Option<nat>>)
    requires FirstFit(lib, subject, record, a) && FirstFit(lib, subject, record, b) && |a| == |b|
    ensures a == b
    decreases |a|
  {
    hide TokMatch;
    if a != [] {
      var n := |a| - 1;
      PrefixFits(lib, subject, record, a);
      PrefixFits(lib, subject, record, b);
      FirstFitUnique(lib, subject, record, a[..n], b[..n]);
      hide FirstFit;
      assert Fits(lib, subject[n], record, a, n) && Fits(lib, subject[n], record, b, n);
      forall k: nat ensures Free(record, a, n, k) <==> Free(record, b, n, k) {
      }
      hide Free;
      OneFit(lib, subject[n], record, a, b, n);
      assert a == a[..n] + [a[n]] && b == b[..n] + [b[n]];
    }
  }

  lemma OneFit(lib: Library, token: string, record: seq<string>, a: seq<Option<nat>>, b: seq<Option<nat>>, n: nat)
    requires n < |a| && n < |b| && Fits(lib, token, record, a, n) && Fits(lib, token, record, b, n)
    requires forall k: nat :: Free(record, a, n, k) <==> Free(record, b, n, k)
    ensures a[n] == b[n]
  {
    hide TokMatch;
    if a[n].Some? && b[n].Some? {
      var j, k := a[n].value, b[n].value;
      assert Free(record, a, n, j) && Free(record, a, n, k) && Free(record, b, n, j) && Free(record, b, n, k);
      var first, second := TokMatch(lib, token, record[j]), TokMatch(lib, token, record[k]);
      assert first.value.Full? || first.value.Initial?;
      assert second.value.Full? || second.value.Initial?;
    }
  }

  lemma PrefixFits(lib: Library, subject: seq<string>, record: seq<string>, at: seq<Option<nat>>)
    requires FirstFit(lib, subject, record, at) && at != []
    ensures FirstFit(lib, subject, record, at[..|at| - 1]) && Fits(lib, subject[|at| - 1], record, at, |at| - 1)
  {
    hide TokMatch;
    var fewer := at[..|at| - 1];
    forall i | 0 <= i < |fewer| ensures Fits(lib, subject[i], record, fewer, i) {
      assert Fits(lib, subject[i], record, at, i);
      SameFit(lib, subject[i], record, at, fewer, i);
    }
  }

  lemma SameFit(lib: Library, token: string, record: seq<string>, a: seq<Option<nat>>, b: seq<Option<nat>>, i: nat)
    requires i < |a| && i < |b| && a[..i + 1] == b[..i + 1]
    ensures Fits(lib, token, record, a, i) <==> Fits(lib, token, record, b, i)
  {
    hide TokMatch;
    assert a[..i] == a[..i + 1][..i] && b[..i] == b[..i + 1][..i];
    assert a[i] == a[..i + 1][i] && b[i] == b[..i + 1][i];
    forall k: nat ensures Free(record, a, i, k) <==> Free(record, b, i, k) {
    }
    hide Free;
  }

  /** `free` lists the free record tokens in their order, and they are the unused ones. */
  ghost predicate IsFree(record: seq<string>, at: seq<Option<nat>>, free: seq<nat>, unused: seq<string>) {
    && |free| == |unused|
    && (forall j :: 0 <= j < |free| ==> free[j] < |record| && unused[j] == record[free[j]])
    && (forall i, j :: 0 <= i < j < |free| ==> free[i] < free[j])
    && (forall k: nat :: k in free <==> Free(record, at, |at|, k))
  }

  lemma NothingTaken(record: seq<string>) returns (free: seq<nat>)
    ensures IsFree(record, [], free, record)
  {
    free := seq(|record|, k requires 0 <= k < |record| => k);
    forall k: nat | Free(record, [], 0, k) ensures k in free {
      assert free[k] == k;
    }
  }

  lemma TakeOne(record: seq<string>, at: seq<Option<nat>>, free: seq<nat>, unused: seq<string>, j: nat)
    requires IsFree(record, at, free, unused) && j < |free|
    ensures IsFree(record, at + [Some(free[j])], Without(free, j), Without(unused, j))
  {
    var more, left := at + [Some(free[j])], Without(free, j);
    forall k: nat ensures k in left <==> Free(record, more, |more|, k) {
      OneLessFree(record, at, free[j], k);
      InWithout(free, j, k);
    }
    hide Free;
  }

  lemma OneLessFree(record: seq<string>, at: seq<Option<nat>>, taken: nat, k: nat)
    ensures var more := at + [Some(taken)]; Free(record, more, |more|, k) <==> Free(record, at, |at|, k) && k != taken
  {
    var more := at + [Some(taken)];
    assert more[..|more|] == more && at[..|at|] == at;
  }

  lemma InWithout(free: seq<nat>, j: nat, k: nat)
    requires j < |free| && forall a, b :: 0 <= a < b < |free| ==> free[a] < free[b]
    ensures k in Without(free, j) <==> k in free && k != free[j]
  {
    var left := Without(free, j);
    if k in left {
      var i :| 0 <= i < |left| && left[i] == k;
      assert k == free[if i < j then i else i + 1];
    }
    if k in free && k != free[j] {
      var i :| 0 <= i < |free| && free[i] == k;
      assert left[if i < j then i else i - 1] == k;
    }
  }

  lemma TakeNone(record: seq<string>, at: seq<Option<nat>>, free: seq<nat>, unused: seq<string>)
    requires IsFree(record, at, free, unused)
    ensures IsFree(record, at + [None], free, unused)
  {
    var more := at + [None];
    assert more[..|more|] == more && at[..|at|] == at;
    forall k: nat ensures Free(record, at, |at|, k) <==> Free(record, more, |more|, k) {
    }
  }

  lemma NoKindIsNone(kind: Option<Kind>)
    requires kind != Some(Full) && kind != Some(Initial)
    ensures kind.None?
  {
    if kind.Some? {
      match kind.value
      case Full =>
      case Initial =>
    }
  }

  lemma NextFits(lib: Library, token: string, record: seq<string>, at: seq<Option<nat>>, free: seq<nat>, unused: seq<string>)
    returns (next: Option<nat>)
    requires IsFree(record, at, free, unused)
    ensures Fits(lib, token, record, at + [next], |at|)
    ensures var best := BestFor(lib, token, unused);
            next == if best.Some? && best.value.at < |free| then Some(free[best.value.at]) else None
  {
    hide TokMatch;
    var best := BestFor(lib, token, unused);
    next := if best.Some? then Some(free[best.value.at]) else None;
    var more := at + [next];
    assert more[..|at|] == at && at[..|at|] == at;
    forall k: nat | Free(record, more, |at|, k) ensures exists j :: 0 <= j < |free| && free[j] == k && unused[j] == record[k] {
      assert Free(record, at, |at|, k);
      assert k in free;
    }
    if best.Some? {
      assert free[best.value.at] in free;
      assert Free(record, at, |at|, free[best.value.at]);
      hide Free;
      forall j: nat | j < free[best.value.at] && Free(record, more, |at|, j) ensures TokMatch(lib, token, record[j]) != Some(best.value.kind) {
        var i :| 0 <= i < |free| && free[i] == j && unused[i] == record[j];
        assert i < best.value.at;
      }
      if best.value.kind == Initial {
        forall j: nat | Free(record, more, |at|, j) ensures TokMatch(lib, token, record[j]) != Some(Full) {
          var i :| 0 <= i < |free| && free[i] == j && unused[i] == record[j];
        }
      }
    } else {
      forall j: nat | Free(record, more, |at|, j) ensures TokMatch(lib, token, record[j]).None? {
        var i :| 0 <= i < |free| && free[i] == j && unused[i] == record[j];
        NoKindIsNone(TokMatch(lib, token, unused[i]));
      }
    }
  }

  /** The greedy loop after `n` subject tokens, as first fit. */
  lemma {:induction false} GreedyIsFirstFit(lib: Library, subject: seq<string>, record: seq<string>, n: nat)
    returns (at: seq<Option<nat>>, free: seq<nat>)
    requires n <= |subject|
    ensures |at| == n && FirstFit(lib, subject, record, at)
    ensures var p := Greedy(lib, subject, record, n);
            && IsFree(record, at, free, p.unused)
            && (p.matched == n <==> forall i :: 0 <= i < n ==> at[i].Some?)
            && (p.matched == 0 <==> forall i :: 0 <= i < n ==> at[i].None?)
            && (p.initials <==> exists i :: 0 <= i < n && ByInitial(lib, subject, record, at, i))
  {
    hide TokMatch, IsFree, Fits, BestFor;
    if n == 0 {
      at := [];
      free := NothingTaken(record);
    } else {
      var p := Greedy(lib, subject, record, n - 1);
      var fewer, left := GreedyIsFirstFit(lib, subject, record, n - 1);
      at, free := OneMoreFits(lib, subject, record, fewer, left, p);
    }
  }

  /** The same facts after one more token. */
  lemma OneMoreFits(lib: Library, subject: seq<string>, record: seq<string>, fewer: seq<Option<nat>>, left: seq<nat>, p: Pairing)
    returns (at: seq<Option<nat>>, free: seq<nat>)
    requires |fewer| < |subject| && FirstFit(lib, subject, record, fewer) && IsFree(record, fewer, left, p.unused)
    requires p == Greedy(lib, subject, record, |fewer|)
    requires p.matched == |fewer| <==> forall i :: 0 <= i < |fewer| ==> fewer[i].Some?
    requires p.matched == 0 <==> forall i :: 0 <= i < |fewer| ==> fewer[i].None?
    requires p.initials <==> exists i :: 0 <= i < |fewer| && ByInitial(lib, subject, record, fewer, i)
    ensures |at| == |fewer| + 1 && FirstFit(lib, subject, record, at)
    ensures var q := Greedy(lib, subject, record, |fewer| + 1);
            && IsFree(record, at, free, q.unused)
            && (q.matched == |at| <==> forall i :: 0 <= i < |at| ==> at[i].Some?)
            && (q.matched == 0 <==> forall i :: 0 <= i < |at| ==> at[i].None?)
            && (q.initials <==> exists i :: 0 <= i < |at| && ByInitial(lib, subject, record, at, i))
  {
    hide TokMatch, Fits, BestFor, Free;
    var n := |fewer|;
    var best := BestFor(lib, subject[n], p.unused);
    var next := NextFits(lib, subject[n], record, fewer, left, p.unused);
    at := fewer + [next];
    assert FirstFit(lib, subject, record, at) by {
      ExtendFit(lib, subject, record, fewer, next);
    }
    if best.Some? {
      TakeOne(record, fewer, left, p.unused, best.value.at);
      free := Without(left, best.value.at);
    } else {
      TakeNone(record, fewer, left, p.unused);
      free := left;
    }
    assert ByInitial(lib, subject, record, at, n) <==> best.Some? && best.value.kind == Initial;
    hide FirstFit, IsFree;
    CountOneMore(lib, subject, record, fewer, next);
    hide ByInitial;
  }

  lemma ExtendFit(lib: Library, subject: seq<string>, record: seq<string>, fewer: seq<Option<nat>>, next: Option<nat>)
    requires |fewer| < |subject| && FirstFit(lib, subject, record, fewer)
    requires Fits(lib, subject[|fewer|], record, fewer + [next], |fewer|)
    ensures FirstFit(lib, subject, record, fewer + [next])
  {
    hide Fits;
    var at := fewer + [next];
    forall i | 0 <= i < |at| ensures Fits(lib, subject[i], record, at, i) {
      if i < |fewer| {
        assert fewer[..i + 1] == at[..i + 1];
        SameFit(lib, subject[i], record, fewer, at, i);
      }
    }
  }

  lemma CountOneMore(lib: Library, subject: seq<string>, record: seq<string>, fewer: seq<Option<nat>>, next: Option<nat>)
    requires |fewer| < |subject|
    ensures var n, at := |fewer|, fewer + [next];
            && ((forall i :: 0 <= i < |at| ==> at[i].Some?) <==> (forall i :: 0 <= i < n ==> fewer[i].Some?) && next.Some?)
            && ((forall i :: 0 <= i < |at| ==> at[i].None?) <==> (forall i :: 0 <= i < n ==> fewer[i].None?) && next.None?)
            && ((exists i :: 0 <= i < |at| && ByInitial(lib, subject, record, at, i))
                <==> (exists i :: 0 <= i < n && ByInitial(lib, subject, record, fewer, i)) || ByInitial(lib, subject, record, at, n))
  {
    hide TokMatch;
    var n, at := |fewer|, fewer + [next];
    assert at[n] == next;
    assert forall i :: 0 <= i < n ==> at[i] == fewer[i];
    assert forall i :: 0 <= i < n ==> (ByInitial(lib, subject, record, at, i) <==> ByInitial(lib, subject, record, fewer, i));
  }

  lemma SameTokensNonempty(subject: seq<string>, record: seq<string>)
    requires multiset(subject) == multiset(record)
    ensures |subject| == |record|
  {
    assert |multiset(subject)| == |subject| && |multiset(record)| == |record|;
  }

  /** The same tokens, each as often, in whatever order. */
  predicate SameTokens(a: seq<string>, b: seq<string>) {
    multiset(a) == multiset(b)
  }

  /** The term from what the pairing counts. */
  lemma TermFromCounts(lib: Library, subject: seq<string>, record: seq<string>, p: Pairing)
    requires p == Greedy(lib, subject, record, |subject|)
    ensures var term, same := CompareTerm(lib, subject, record), SameTokens(subject, record);
            var whole := |subject| >= 2 && |record| <= |subject| + 1 && p.matched == |subject|;
            && (term == Some(NameExact) <==> subject == record && subject != [])
            && (term == Some(NameReordered) <==> subject != record && same)
            && (term == Some(NameTranslit) <==> !same && whole && !p.initials)
            && (term == Some(NameInitials) <==> !same && whole && p.initials)
            && (term == Some(NamePartial) <==> !same && p.matched > 0 && !whole)
            && (term == None <==> (subject == [] && record == []) || (!same && p.matched == 0))
  {
    hide Greedy;
    if multiset(subject) == multiset(record) {
      SameTokensNonempty(subject, record);
    }
  }

  /** What the comparison of two token lists answers, for the first fit of one on the other: exact
      for equal lists, reordered for the same tokens in another order; a transliteration, or initials
      if one was used, when every one of two or more tokens finds a partner and at most one record
      token is left over; partial when only some do, and nothing when none does. */
  lemma CompareTermExactly(lib: Library, subject: seq<string>, record: seq<string>, at: seq<Option<nat>>)
    requires FirstFit(lib, subject, record, at) && |at| == |subject|
    ensures var term, same := CompareTerm(lib, subject, record), SameTokens(subject, record);
            var whole := |subject| >= 2 && |record| <= |subject| + 1 && forall i :: 0 <= i < |at| ==> at[i].Some?;
            var some := exists i :: 0 <= i < |at| && at[i].Some?;
            var initial := exists i :: 0 <= i < |at| && ByInitial(lib, subject, record, at, i);
            && (term == Some(NameExact) <==> subject == record && subject != [])
            && (term == Some(NameReordered) <==> subject != record && same)
            && (term == Some(NameTranslit) <==> !same && whole && !initial)
            && (term == Some(NameInitials) <==> !same && whole && initial)
            && (term == Some(NamePartial) <==> !same && some && !whole)
            && (term == None <==> (subject == [] && record == []) || (!same && !some))
  {
    hide *;
    var mine, free := GreedyIsFirstFit(lib, subject, record, |subject|);
    FirstFitUnique(lib, subject, record, at, mine);
    TermFromCounts(lib, subject, record, Greedy(lib, subject, record, |subject|));
  }

  lemma RemoveOne<T>(s: seq<T>, k: nat)
    requires k < |s|
    ensures multiset(Without(s, k)) + multiset{s[k]} == multiset(s)
  {
    assert s == s[..k] + [s[k]] + s[k + 1..];
  }

  /** A full token match always shares a blocking key, nicknames included. */
  lemma FullMatchSharesKey(lib: Library, a: string, b: string)
    requires |a| > 0 && |b| > 0 && TokMatch(lib, a, b) == Some(Full)
    ensures |a| > 1 && TokenKeys(lib, a) * TokenKeys(lib, b) != {}
  {
    var key := "mp:" + lib.metaphone(CanonicalGiven(lib, a));
    if a == b {
      assert "mp:" + lib.metaphone(a) in TokenKeys(lib, a) * TokenKeys(lib, b);
    } else if CanonicalGiven(lib, a) == CanonicalGiven(lib, b) {
      assert key in TokenKeys(lib, a) * TokenKeys(lib, b);
    }
  }

  /** A whole-name term says that every subject token long enough to be keyed shares a key with
      some record token. */
  lemma WholeNameTermSharesKeys(lib: Library, subject: seq<string>, record: seq<string>, token: string)
    requires forall t :: t in subject ==> |t| > 0
    requires forall t :: t in record ==> |t| > 0
    requires CompareTerm(lib, subject, record).Some? && CompareTerm(lib, subject, record).value.IsFullName()
    requires token in subject && |token| >= 2
    ensures exists t :: t in record && TokenKeys(lib, token) * TokenKeys(lib, t) != {}
  {
    if multiset(subject) == multiset(record) {
      assert token in multiset(subject);
      assert token in record;
      assert TokenKeys(lib, token) * TokenKeys(lib, token) == TokenKeys(lib, token);
    } else {
      var partner := FullPartner(lib, subject, record, token);
      FullMatchSharesKey(lib, token, partner);
    }
  }

  lemma FullPartner(lib: Library, subject: seq<string>, record: seq<string>, token: string) returns (partner: string)
    requires CompareTerm(lib, subject, record) == Some(NameTranslit) && token in subject
    ensures partner in record && TokMatch(lib, token, partner) == Some(Full)
  {
    var i :| 0 <= i < |subject| && subject[i] == token;
    var partners := GreedyPairsOneToOne(lib, subject, record, |subject|);
    partner := partners[i];
    assert partner in multiset(partners);
    assert partner in multiset(record);
  }
}
