/** Officers and owners, de-duplicated (backend/app/officer_screening/people.py). */
module People {
  import opened Wrappers
  import opened Names
  import opened Ordering

  datatype Source = Source(kind: string, provider: string, locator: string)

  datatype Person = Person(
    name: string, relationships: seq<string>, roles: seq<string>, sources: seq<Source>,
    dob: Option<string>, nationality: Option<string>, ownership: Option<string>)

  function Join(ts: seq<string>): string {
    if ts == [] then "" else if |ts| == 1 then ts[0] else ts[0] + " " + Join(ts[1..])
  }

  /** `person_key`. */
  function PersonKey(lib: Library, name: string): string {
    Join(Tokens(lib, name))
  }

  /** Reading a joined list of clean words gives the list back. */
  lemma {:induction false} JoinIsRead(ts: seq<string>)
    requires forall t :: t in ts ==> IsClean(t)
    ensures Words(Join(ts), "") == ts
  {
    if ts != [] {
      var t := ts[0];
      assert t in ts;
      if |ts| == 1 {
        assert t + "" == t && "" + t == t;
        WordIsRead(t, "", "");
        assert ts == [t];
      } else {
        JoinIsRead(ts[1..]);
        var rest := " " + Join(ts[1..]);
        assert Join(ts) == t + rest && "" + t == t;
        WordIsRead(t, rest, "");
        assert rest[1..] == Join(ts[1..]) && ToLower(rest[0]) == ' ';
        assert ts == [t] + ts[1..];
      }
    }
  }

  /** Two names have one key exactly when they have the same tokens in the same order. */
  lemma KeyMeansTokens(lib: Library, a: string, b: string)
    ensures PersonKey(lib, a) == PersonKey(lib, b) <==> Tokens(lib, a) == Tokens(lib, b)
  {
    TokensAreClean(lib, a);
    TokensAreClean(lib, b);
    hide Tokens, Words, IsClean;
    JoinIsRead(Tokens(lib, a));
    JoinIsRead(Tokens(lib, b));
  }

  lemma {:induction false} JoinHasNoCapital(ts: seq<string>)
    requires forall t :: t in ts ==> IsClean(t)
    ensures forall c :: c in Join(ts) ==> !IsUpper(c)
  {
    if |ts| > 1 {
      JoinHasNoCapital(ts[1..]);
      assert ts[0] in ts;
    } else if |ts| == 1 {
      assert ts[0] in ts;
    }
  }

  /** A key is a normal form: a transliterator that leaves it alone gives the same key for it. */
  lemma KeyIsNormalForm(lib: Library, name: string)
    requires var key := PersonKey(lib, name); lib.ascii(key) == key && (key != "" ==> !lib.isBlank(key))
    ensures PersonKey(lib, PersonKey(lib, name)) == PersonKey(lib, name)
  {
    var ts := Tokens(lib, name);
    TokensAreClean(lib, name);
    JoinIsRead(ts);
    JoinHasNoCapital(ts);
    NothingToSplit(Join(ts));
    NothingToDrop(ts);
    hide Words, CamelSplit, DropParticles, IsClean;
  }

  predicate Missing(dob: Option<string>) {
    dob.None? || dob.value == ""
  }

  /** `dob_compatible`: missing, or one a prefix of the other.  Not transitive. */
  predicate DobCompatible(a: Option<string>, b: Option<string>) {
    Missing(a) || Missing(b) || a.value <= b.value || b.value <= a.value
  }

  /** Two dates are compatible exactly when one is missing or they agree wherever both go on. */
  lemma CompatibleMeans(a: Option<string>, b: Option<string>)
    ensures DobCompatible(a, b) <==>
            (match (a, b)
             case (Some(x), Some(y)) => forall i :: 0 <= i < |x| && i < |y| ==> x[i] == y[i]
             case _ => true)
    ensures DobCompatible(a, b) <==> DobCompatible(b, a)
  {
    if a.Some? && b.Some? {
      var x, y := a.value, b.value;
      if forall i :: 0 <= i < |x| && i < |y| ==> x[i] == y[i] {
        if |x| <= |y| {
          assert x == y[..|x|];
        } else {
          assert y == x[..|y|];
        }
      }
    }
  }

  lemma CompatibilityIsNotTransitive()
    ensures exists a, b, c :: DobCompatible(a, b) && DobCompatible(b, c) && !DobCompatible(a, c)
  {
    var a, b, c := Some("1968-02"), Some("1968"), Some("1968-03");
    assert !("1968-02" <= "1968-03") by { assert "1968-02"[6] != "1968-03"[6]; }
    assert !("1968-03" <= "1968-02") by { assert "1968-02"[6] != "1968-03"[6]; }
    assert DobCompatible(a, b) && DobCompatible(b, c) && !DobCompatible(a, c);
  }

  predicate SamePerson(lib: Library, p: Person, q: Person) {
    PersonKey(lib, p.name) == PersonKey(lib, q.name) && DobCompatible(p.dob, q.dob)
  }

  // ----- One merge

  function InsertString(s: seq<string>, x: string): seq<string> {
    if s == [] || !StringLess(s[0], x) then [x] + s else [s[0]] + InsertString(s[1..], x)
  }

  function SortStrings(s: seq<string>): seq<string> {
    if s == [] then [] else InsertString(SortStrings(s[1..]), s[0])
  }

  function AddRelationships(have: seq<string>, more: seq<string>): seq<string> {
    if more == [] then have
    else
      var n := |more| - 1;
      var sofar := AddRelationships(have, more[..n]);
      if more[n] in sofar then sofar else SortStrings(sofar + [more[n]])
  }

  function AddRoles(have: seq<string>, more: seq<string>): seq<string> {
    if more == [] then have
    else
      var n := |more| - 1;
      var sofar := AddRoles(have, more[..n]);
      if more[n] in sofar then sofar else sofar + [more[n]]
  }

  function Or<T>(a: Option<T>, b: Option<T>): Option<T> {
    if a.None? then b else a
  }

  /** The first-seen spelling and values win; relationships, roles and sources accumulate. */
  function Absorb(p: Person, q: Person): Person {
    Person(p.name, AddRelationships(p.relationships, q.relationships), AddRoles(p.roles, q.roles), p.sources + q.sources,
           Or(p.dob, q.dob), Or(p.nationality, q.nationality), Or(p.ownership, q.ownership))
  }

  /** The place of the first element a test accepts. */
  function FirstIndex<T>(s: seq<T>, accepts: T -> bool): (r: Option<nat>)
    ensures r.Some? ==> r.value < |s| && accepts(s[r.value])
    ensures r.Some? ==> forall k :: 0 <= k < r.value ==> !accepts(s[k])
    ensures r.None? ==> forall k :: 0 <= k < |s| ==> !accepts(s[k])
  {
    if s == [] then None
    else
      var n := |s| - 1;
      var earlier := FirstIndex(s[..n], accepts);
      if earlier.Some? then earlier else if accepts(s[n]) then Some(n) else None
  }

  function FirstMatch(lib: Library, people: seq<Person>, q: Person): (r: Option<nat>)
    ensures r.Some? ==> r.value < |people|
  {
    FirstIndex(people, (p: Person) => SamePerson(lib, p, q))
  }

  function MergeInto(lib: Library, people: seq<Person>, q: Person): seq<Person> {
    var at := FirstMatch(lib, people, q);
    if at.Some? then people[at.value := Absorb(people[at.value], q)] else people + [q]
  }

  function Fold(lib: Library, people: seq<Person>, inputs: seq<Person>): seq<Person> {
    if inputs == [] then people
    else MergeInto(lib, Fold(lib, people, inputs[..|inputs| - 1]), inputs[|inputs| - 1])
  }

  class PeopleList {
    var people: seq<Person>

    constructor ()
      ensures people == []
    {
      people := [];
    }

    /** `_merge`: the loop over the people, leaving at the first match. */
    method Merge(lib: Library, incoming: Person)
      modifies this
      ensures people == MergeInto(lib, old(people), incoming)
    {
      hide PersonKey, DobCompatible;
      for i := 0 to |people|
        invariant people == old(people)
        invariant forall k :: 0 <= k < i ==> !SamePerson(lib, people[k], incoming)
      {
        if PersonKey(lib, people[i].name) != PersonKey(lib, incoming.name) {
          continue;
        }
        if !DobCompatible(people[i].dob, incoming.dob) {
          continue;
        }
        var relationships := MergeRelationships(people[i].relationships, incoming.relationships);
        var roles := MergeRoles(people[i].roles, incoming.roles);
        people := people[i := Person(
          people[i].name, relationships, roles, people[i].sources + incoming.sources,
          Or(people[i].dob, incoming.dob), Or(people[i].nationality, incoming.nationality),
          Or(people[i].ownership, incoming.ownership))];
        return;
      }
      people := people + [incoming];
    }

    method MergeRelationships(have: seq<string>, more: seq<string>) returns (all: seq<string>)
      ensures all == AddRelationships(have, more)
    {
      all := have;
      for k := 0 to |more|
        invariant all == AddRelationships(have, more[..k])
      {
        assert more[..k + 1][..k] == more[..k];
        if more[k] !in all {
          all := SortStrings(all + [more[k]]);
        }
      }
      assert more[..|more|] == more;
    }

    method MergeRoles(have: seq<string>, more: seq<string>) returns (all: seq<string>)
      ensures all == AddRoles(have, more)
    {
      all := have;
      for k := 0 to |more|
        invariant all == AddRoles(have, more[..k])
      {
        assert more[..k + 1][..k] == more[..k];
        if more[k] !in all {
          all := all + [more[k]];
        }
      }
      assert more[..|more|] == more;
    }
  }

  /** `CollectPeopleStage.run`: the declared people first, then the registry's; None when the
      registry could not be asked. */
  method CollectPeople(lib: Library, declared: seq<Person>, registry: Option<seq<Person>>) returns (people: seq<Person>, complete: bool)
    ensures people == Fold(lib, [], declared + registry.UnwrapOr([]))
    ensures complete == registry.Some?
  {
    hide MergeInto;
    var all := declared + registry.UnwrapOr([]);
    var list := new PeopleList();
    for i := 0 to |all|
      invariant list.people == Fold(lib, [], all[..i])
    {
      assert all[..i + 1][..i] == all[..i];
      list.Merge(lib, all[i]);
    }
    assert all[..|all|] == all;
    return list.people, registry.Some?;
  }

  // ----- What a merge adds

  lemma {:induction false} InsertStringKeeps(s: seq<string>, x: string)
    ensures multiset(InsertString(s, x)) == multiset(s) + multiset{x}
  {
    hide StringLess;
    if s != [] && StringLess(s[0], x) {
      InsertStringKeeps(s[1..], x);
      assert s == [s[0]] + s[1..];
    }
  }

  lemma {:induction false} SortStringsKeeps(s: seq<string>)
    ensures multiset(SortStrings(s)) == multiset(s)
  {
    hide InsertString;
    if s != [] {
      SortStringsKeeps(s[1..]);
      InsertStringKeeps(SortStrings(s[1..]), s[0]);
      assert s == [s[0]] + s[1..];
    }
  }

  predicate Sorted(s: seq<string>) {
    forall i, j :: 0 <= i < j < |s| ==> !StringLess(s[j], s[i])
  }

  lemma NotLessTransitive(a: string, b: string, c: string)
    requires !StringLess(b, a) && !StringLess(c, b)
    ensures !StringLess(c, a)
  {
    StringLessTotal(a, b);
    StringLessTotal(b, c);
    if StringLess(a, b) && StringLess(b, c) {
      StringLessTransitive(a, b, c);
      StringLessTotal(a, c);
    }
  }

  lemma {:induction false} InsertStringSorts(s: seq<string>, x: string)
    requires Sorted(s)
    ensures Sorted(InsertString(s, x))
  {
    hide StringLess;
    if s != [] && StringLess(s[0], x) {
      InsertStringSorts(s[1..], x);
      InsertStringKeeps(s[1..], x);
      var rest := InsertString(s[1..], x);
      StringLessTotal(s[0], x);
      forall j | 0 <= j < |rest| ensures !StringLess(rest[j], s[0]) {
        assert rest[j] in multiset(rest);
      }
    } else if s != [] {
      forall j | 0 <= j < |s| ensures !StringLess(s[j], x) {
        if j > 0 {
          NotLessTransitive(x, s[0], s[j]);
        }
      }
    }
  }

  lemma {:induction false} SortStringsSorts(s: seq<string>)
    ensures Sorted(SortStrings(s))
  {
    hide Sorted, InsertString;
    if s != [] {
      SortStringsSorts(s[1..]);
      InsertStringSorts(SortStrings(s[1..]), s[0]);
    } else {
      NothingSorted();
    }
  }

  lemma NothingSorted()
    ensures Sorted([])
  {
  }

  /** Whoever gains a relationship has them sorted. */
  lemma {:induction false} RelationshipsAreSorted(have: seq<string>, more: seq<string>)
    ensures AddRelationships(have, more) == have || Sorted(AddRelationships(have, more))
    decreases |more|
  {
    hide Sorted, SortStrings;
    if more != [] {
      var n := |more| - 1;
      RelationshipsAreSorted(have, more[..n]);
      SortStringsSorts(AddRelationships(have, more[..n]) + [more[n]]);
    }
  }

  /** Relationships accumulate: nothing is lost, nothing comes in twice. */
  lemma {:induction false} RelationshipsAccumulate(have: seq<string>, more: seq<string>)
    ensures var all := multiset(AddRelationships(have, more));
            && (forall x :: x in all <==> x in have || x in more)
            && (forall x :: x in have ==> all[x] == multiset(have)[x])
            && (forall x :: x in more && x !in have ==> all[x] == 1)
    decreases |more|
  {
    hide SortStrings;
    if more != [] {
      var n := |more| - 1;
      RelationshipsAccumulate(have, more[..n]);
      SortStringsKeeps(AddRelationships(have, more[..n]) + [more[n]]);
      assert more == more[..n] + [more[n]];
    }
  }

  /** Roles accumulate in order: what was there stays in front, and only new ones are appended. */
  lemma {:induction false} RolesAccumulate(have: seq<string>, more: seq<string>)
    ensures have <= AddRoles(have, more)
    ensures forall x :: x in AddRoles(have, more) <==> x in have || x in more
    ensures forall i, j :: 0 <= i < j < |AddRoles(have, more)| && |have| <= j ==> AddRoles(have, more)[i] != AddRoles(have, more)[j]
    decreases |more|
  {
    if more != [] {
      var n := |more| - 1;
      RolesAccumulate(have, more[..n]);
      assert more == more[..n] + [more[n]];
    }
  }

  // ----- What the fold keeps

  /** Two people with one key never have compatible dates of birth. */
  ghost predicate Distinct(lib: Library, people: seq<Person>) {
    forall i, j :: 0 <= i < j < |people| ==> !SamePerson(lib, people[i], people[j])
  }

  /** Filling in a missing date keeps people apart: whoever has the same key as a person without a
      date would already be the same person. */
  lemma MergeKeepsDistinct(lib: Library, people: seq<Person>, q: Person)
    requires Distinct(lib, people)
    ensures Distinct(lib, MergeInto(lib, people, q))
  {
    hide PersonKey;
    var at := FirstMatch(lib, people, q);
    if at.Some? {
      var m := at.value;
      forall i | 0 <= i < |people| && i != m && PersonKey(lib, people[i].name) == PersonKey(lib, people[m].name)
        ensures people[m].dob.Some? && !DobCompatible(people[i].dob, people[m].dob) && !DobCompatible(people[m].dob, people[i].dob)
      {
        CompatibleMeans(people[i].dob, people[m].dob);
        if i < m {
          assert !SamePerson(lib, people[i], people[m]);
        } else {
          assert !SamePerson(lib, people[m], people[i]);
        }
      }
    }
  }

  lemma {:induction false} FoldKeepsDistinct(lib: Library, people: seq<Person>, inputs: seq<Person>)
    requires Distinct(lib, people)
    ensures Distinct(lib, Fold(lib, people, inputs))
    decreases |inputs|
  {
    if inputs != [] {
      var n := |inputs| - 1;
      FoldKeepsDistinct(lib, people, inputs[..n]);
      MergeKeepsDistinct(lib, Fold(lib, people, inputs[..n]), inputs[n]);
    }
  }

  function AllSources(people: seq<Person>): multiset<Source> {
    if people == [] then multiset{}
    else AllSources(people[..|people| - 1]) + multiset(people[|people| - 1].sources)
  }

  lemma {:induction false} SourcesOfUpdate(people: seq<Person>, m: nat, q: Person)
    requires m < |people|
    ensures AllSources(people[m := Absorb(people[m], q)]) == AllSources(people) + multiset(q.sources)
    decreases |people|
  {
    var n := |people| - 1;
    var updated := people[m := Absorb(people[m], q)];
    if m == n {
      assert updated[..n] == people[..n];
    } else {
      assert updated[..n] == people[..n][m := Absorb(people[m], q)];
      SourcesOfUpdate(people[..n], m, q);
    }
  }

  /** No source is lost or counted twice. */
  lemma {:induction false} FoldConservesSources(lib: Library, people: seq<Person>, inputs: seq<Person>)
    ensures AllSources(Fold(lib, people, inputs)) == AllSources(people) + AllSources(inputs)
    decreases |inputs|
  {
    hide SamePerson;
    if inputs != [] {
      var n := |inputs| - 1;
      var before := Fold(lib, people, inputs[..n]);
      FoldConservesSources(lib, people, inputs[..n]);
      var at := FirstMatch(lib, before, inputs[n]);
      if at.Some? {
        SourcesOfUpdate(before, at.value, inputs[n]);
      } else {
        assert (before + [inputs[n]])[..|before|] == before;
      }
    }
  }

  predicate Keeps<T(==)>(a: Option<T>, b: Option<T>) {
    a.Some? ==> b == a
  }

  /** The person at each place keeps the name and every attribute it has. */
  predicate Extends(people: seq<Person>, more: seq<Person>) {
    |people| <= |more| &&
    forall i :: 0 <= i < |people| ==>
      && more[i].name == people[i].name
      && Keeps(people[i].dob, more[i].dob) && Keeps(people[i].nationality, more[i].nationality)
      && Keeps(people[i].ownership, more[i].ownership)
  }

  lemma {:induction false} FoldExtends(lib: Library, people: seq<Person>, inputs: seq<Person>)
    ensures Extends(people, Fold(lib, people, inputs))
    decreases |inputs|
  {
    hide SamePerson;
    if inputs != [] {
      FoldExtends(lib, people, inputs[..|inputs| - 1]);
    }
  }

  /** Somebody on the list is this person; and if nobody's date is known there, neither is this
      input's. */
  ghost predicate Accounted(lib: Library, people: seq<Person>, q: Person) {
    exists i :: 0 <= i < |people| && AccountsFor(lib, people[i], q)
  }

  predicate AccountsFor(lib: Library, p: Person, q: Person) {
    SamePerson(lib, p, q) && (p.dob.None? ==> q.dob.None?)
  }

  lemma MergeAccounts(lib: Library, people: seq<Person>, q: Person)
    ensures Accounted(lib, MergeInto(lib, people, q), q)
  {
    hide PersonKey;
    var at := FirstMatch(lib, people, q);
    if at.Some? {
      assert AccountsFor(lib, MergeInto(lib, people, q)[at.value], q);
    } else {
      assert AccountsFor(lib, MergeInto(lib, people, q)[|people|], q);
    }
  }

  lemma MergeKeepsAccounted(lib: Library, people: seq<Person>, q: Person, x: Person)
    requires Accounted(lib, people, x)
    ensures Accounted(lib, MergeInto(lib, people, q), x)
  {
    hide PersonKey;
    var i :| 0 <= i < |people| && AccountsFor(lib, people[i], x);
    assert AccountsFor(lib, MergeInto(lib, people, q)[i], x);
  }

  lemma {:induction false} FoldAccounts(lib: Library, people: seq<Person>, inputs: seq<Person>)
    ensures forall x :: x in inputs || Accounted(lib, people, x) ==> Accounted(lib, Fold(lib, people, inputs), x)
    decreases |inputs|
  {
    hide Accounted;
    if inputs != [] {
      var n := |inputs| - 1;
      var before := Fold(lib, people, inputs[..n]);
      FoldAccounts(lib, people, inputs[..n]);
      assert inputs == inputs[..n] + [inputs[n]];
      MergeAccounts(lib, before, inputs[n]);
      forall x | Accounted(lib, before, x) ensures Accounted(lib, MergeInto(lib, before, inputs[n]), x) {
        MergeKeepsAccounted(lib, before, inputs[n], x);
      }
    }
  }

  lemma AccountedAddsNobody(lib: Library, people: seq<Person>, q: Person)
    requires Accounted(lib, people, q)
    ensures |MergeInto(lib, people, q)| == |people|
  {
    hide PersonKey, DobCompatible;
    var i :| 0 <= i < |people| && AccountsFor(lib, people[i], q);
    assert SamePerson(lib, people[i], q);
  }

  lemma {:induction false} AccountedFoldAddsNobody(lib: Library, people: seq<Person>, inputs: seq<Person>)
    requires forall x :: x in inputs ==> Accounted(lib, people, x)
    ensures |Fold(lib, people, inputs)| == |people|
    decreases |inputs|
  {
    hide Accounted;
    if inputs != [] {
      var n := |inputs| - 1;
      var before := Fold(lib, people, inputs[..n]);
      AccountedFoldAddsNobody(lib, people, inputs[..n]);
      FoldAccounts(lib, people, inputs[..n]);
      AccountedAddsNobody(lib, before, inputs[n]);
    }
  }

  /** Folding the same inputs again adds no person. */
  lemma RefoldAddsNobody(lib: Library, people: seq<Person>, inputs: seq<Person>)
    ensures |Fold(lib, Fold(lib, people, inputs), inputs)| == |Fold(lib, people, inputs)|
  {
    hide Accounted;
    FoldAccounts(lib, people, inputs);
    AccountedFoldAddsNobody(lib, Fold(lib, people, inputs), inputs);
  }
}
