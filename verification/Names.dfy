/**
Person-name normalization and blocking keys (backend/app/screening/names.py).

What the program takes from outside is passed in: the transliterator, the phonetic coder, the
whitespace test and the nickname table.  Everything below holds for any of them.
*/
module Names {
  datatype Library = Library(
    isBlank: string -> bool,
    ascii: string -> string,
    metaphone: string -> string,
    nicknames: map<string, string>)

  const PARTICLES: set<string> := {
    "al", "el", "bin", "ibn", "bint", "ben", "binti", "van", "von", "der", "den", "de", "del",
    "della", "di", "da", "dos", "das", "du", "la", "le", "mac", "st"}

  predicate IsLower(c: char) { 'a' <= c <= 'z' }
  predicate IsUpper(c: char) { 'A' <= c <= 'Z' }
  predicate IsDigit(c: char) { '0' <= c <= '9' }
  predicate IsVowel(c: char) { c in "aeiou" }

  /** A space between a lower-case letter and the capital after it. */
  function CamelSplit(s: string): string {
    if |s| < 2 then s
    else if IsLower(s[0]) && IsUpper(s[1]) then [s[0], ' '] + CamelSplit(s[1..])
    else [s[0]] + CamelSplit(s[1..])
  }

  function Unspaced(s: string): string {
    if s == "" then "" else (if s[0] == ' ' then "" else [s[0]]) + Unspaced(s[1..])
  }

  predicate HasCamel(s: string) {
    exists i :: 0 < i < |s| && IsLower(s[i - 1]) && IsUpper(s[i])
  }

  /** A lower-case letter is no longer right before a capital; nothing but spaces is added, and none
      where no lower-case letter was right before a capital. */
  lemma CamelSplitExactly(s: string)
    ensures !HasCamel(CamelSplit(s))
    ensures Unspaced(CamelSplit(s)) == Unspaced(s)
    ensures !HasCamel(s) ==> CamelSplit(s) == s
  {
    NoCamelLeft(s);
    OnlySpacesAdded(s);
    if !HasCamel(s) {
      NoCamelNoSpace(s);
    }
  }

  lemma {:induction false} NoCamelLeft(s: string)
    ensures !HasCamel(CamelSplit(s))
  {
    if |s| >= 2 {
      NoCamelLeft(s[1..]);
      CamelStarts(s[1..]);
    }
  }

  lemma {:induction false} OnlySpacesAdded(s: string)
    ensures Unspaced(CamelSplit(s)) == Unspaced(s)
  {
    if |s| >= 2 {
      var rest := CamelSplit(s[1..]);
      OnlySpacesAdded(s[1..]);
      UnspacedStep(s[0], s[1..]);
      assert s == [s[0]] + s[1..];
      UnspacedStep(s[0], rest);
      UnspacedStep(' ', rest);
      UnspacedStep(s[0], [' '] + rest);
      assert [s[0], ' '] + rest == [s[0]] + ([' '] + rest);
    }
  }

  lemma {:induction false} NoCamelNoSpace(s: string)
    requires !HasCamel(s)
    ensures CamelSplit(s) == s
  {
    if |s| >= 2 {
      assert !HasCamel(s[1..]) by {
        forall i | 0 < i < |s[1..]| ensures !(IsLower(s[1..][i - 1]) && IsUpper(s[1..][i])) {
          assert s[1..][i] == s[i + 1] && s[1..][i - 1] == s[i + 1 - 1];
        }
      }
      assert !(IsLower(s[1 - 1]) && IsUpper(s[1]));
      NoCamelNoSpace(s[1..]);
      assert s == [s[0]] + s[1..];
    }
  }

  lemma UnspacedStep(c: char, s: string)
    ensures Unspaced([c] + s) == (if c == ' ' then "" else [c]) + Unspaced(s)
  {
    assert ([c] + s)[1..] == s;
  }

  lemma CamelStarts(s: string)
    ensures s != "" ==> CamelSplit(s) != "" && CamelSplit(s)[0] == s[0]
  {
  }

  function ToLower(c: char): char {
    if IsUpper(c) then c + 32 as char else c
  }

  /** The maximal runs of lower-case letters and digits of `s`, once lowered; `word` is the run
      being read. */
  function Words(s: string, word: string): (ws: seq<string>)
    ensures forall w :: w in ws ==> |w| > 0
    decreases |s|
  {
    if s == [] then Flush(word)
    else
      var c := ToLower(s[0]);
      if IsLower(c) || IsDigit(c) then Words(s[1..], word + [c]) else Flush(word) + Words(s[1..], [])
  }

  function Flush(word: string): seq<string> {
    if word == [] then [] else [word]
  }

  function DropParticles(ws: seq<string>): (ts: seq<string>)
    ensures forall t :: t in ts ==> t in ws
  {
    if ws == [] then []
    else if ws[0] in PARTICLES then DropParticles(ws[1..])
    else [ws[0]] + DropParticles(ws[1..])
  }

  /** `tokens`: normalized name tokens, in order, particles removed. */
  function Tokens(lib: Library, name: string): seq<string> {
    if name == "" || lib.isBlank(name) then []
    else DropParticles(Words(CamelSplit(lib.ascii(name)), []))
  }

  lemma NoEmptyToken(lib: Library, name: string)
    ensures forall t :: t in Tokens(lib, name) ==> |t| > 0
  {
  }

  predicate IsClean(t: string) {
    t != "" && forall c :: c in t ==> IsLower(c) || IsDigit(c)
  }

  /** Normalization leaves nothing but runs of lower-case letters and digits, none of them a particle. */
  lemma TokensAreClean(lib: Library, name: string)
    ensures forall t :: t in Tokens(lib, name) ==> IsClean(t) && t !in PARTICLES
  {
    hide CamelSplit;
    if name != "" && !lib.isBlank(name) {
      var words := Words(CamelSplit(lib.ascii(name)), []);
      WordsAreClean(CamelSplit(lib.ascii(name)), []);
      NoParticlesLeft(words);
    }
  }

  lemma {:induction false} WordsAreClean(s: string, word: string)
    requires word != "" ==> IsClean(word)
    ensures forall w :: w in Words(s, word) ==> IsClean(w)
    decreases |s|
  {
    if s != [] {
      var c := ToLower(s[0]);
      if IsLower(c) || IsDigit(c) {
        WordsAreClean(s[1..], word + [c]);
      } else {
        WordsAreClean(s[1..], []);
      }
    }
  }

  lemma {:induction false} NoParticlesLeft(ws: seq<string>)
    ensures forall t :: t in DropParticles(ws) <==> t in ws && t !in PARTICLES
  {
    if ws != [] {
      NoParticlesLeft(ws[1..]);
      assert ws == [ws[0]] + ws[1..];
    }
  }

  /** Words that are clean already come back as they are, in order, whatever separates them. */
  lemma {:induction false} WordIsRead(t: string, rest: string, word: string)
    requires forall c :: c in t ==> IsLower(c) || IsDigit(c)
    ensures Words(t + rest, word) == Words(rest, word + t)
    decreases |t|
  {
    if t == [] {
      assert t + rest == rest && word + t == word;
    } else {
      assert (t + rest)[1..] == t[1..] + rest;
      assert word + t == word + [t[0]] + t[1..];
      assert t[0] in t;
      WordIsRead(t[1..], rest, word + [t[0]]);
    }
  }

  lemma NothingToSplit(s: string)
    requires forall c :: c in s ==> !IsUpper(c)
    ensures CamelSplit(s) == s
  {
    NoCamelNoSpace(s);
  }

  lemma {:induction false} NothingToDrop(ws: seq<string>)
    requires forall w :: w in ws ==> w !in PARTICLES
    ensures DropParticles(ws) == ws
  {
    if ws != [] {
      NothingToDrop(ws[1..]);
      assert ws == [ws[0]] + ws[1..];
    }
  }

  function ReplacePair(s: string, a: char, b: char, c: char): (r: string)
    ensures s != [] ==> r != []
  {
    if |s| < 2 then s
    else if s[0] == a && s[1] == b then [c] + ReplacePair(s[2..], a, b, c)
    else [s[0]] + ReplacePair(s[1..], a, b, c)
  }

  function Fold(c: char): char {
    if c == 'y' || c == 'j' then 'i' else if c == 'q' || c == 'c' then 'k' else c
  }

  /** Letters folded, runs of one letter collapsed. */
  function FoldAndCollapse(s: string): (r: string)
    ensures s != [] ==> r != []
    decreases |s|
  {
    if s == [] then []
    else if |s| > 1 && Fold(s[0]) == Fold(s[1]) then FoldAndCollapse(s[1..])
    else [Fold(s[0])] + FoldAndCollapse(s[1..])
  }

  function Consonants(s: string): string {
    if s == [] then []
    else if IsVowel(s[0]) then Consonants(s[1..])
    else [s[0]] + Consonants(s[1..])
  }

  /** The consonant skeleton; never empty for a token. */
  function Skeleton(token: string): (k: string)
    ensures token != [] ==> k != []
  {
    var t := FoldAndCollapse(ReplacePair(ReplacePair(ReplacePair(token, 'k', 's', 'x'), 'k', 'h', 'h'), 'p', 'h', 'f'));
    var consonants := Consonants(t);
    var k := if t != [] && IsVowel(t[0]) then [t[0]] + consonants else consonants;
    if k != [] then k else t
  }

  lemma {:induction false} ConsonantsAre(s: string)
    ensures forall c :: c in Consonants(s) <==> c in s && !IsVowel(c)
  {
    if s != [] {
      ConsonantsAre(s[1..]);
      assert s == [s[0]] + s[1..];
    }
  }

  lemma {:induction false} FoldedLetters(s: string)
    ensures forall c :: c in FoldAndCollapse(s) <==> c in Folded(s)
    ensures forall i :: 0 < i < |FoldAndCollapse(s)| ==> FoldAndCollapse(s)[i - 1] != FoldAndCollapse(s)[i]
    ensures s != [] ==> FoldAndCollapse(s)[0] == Fold(s[0])
    decreases |s|
  {
    if s != [] {
      FoldedLetters(s[1..]);
      assert s == [s[0]] + s[1..];
    }
  }

  function Folded(s: string): set<char> {
    set c | c in s :: Fold(c)
  }

  /** The shape of a skeleton: no vowel but perhaps at the front, and none of the letters that are
      folded into another. */
  lemma SkeletonShape(token: string)
    ensures forall c :: c in Skeleton(token) ==> c != 'y' && c != 'j' && c != 'q' && c != 'c'
    ensures forall i :: 0 < i < |Skeleton(token)| ==> !IsVowel(Skeleton(token)[i])
  {
    var s := ReplacePair(ReplacePair(ReplacePair(token, 'k', 's', 'x'), 'k', 'h', 'h'), 'p', 'h', 'f');
    var t := FoldAndCollapse(s);
    FoldedLetters(s);
    ConsonantsAre(t);
    hide FoldAndCollapse, ReplacePair;
    var k := Skeleton(token);
    assert k != [] ==> t != [];
    forall i | 0 < i < |k| ensures !IsVowel(k[i]) {
      if IsVowel(t[0]) {
        assert k[i] == Consonants(t)[i - 1];
      } else {
        assert t[0] in Consonants(t);
        assert k[i] == Consonants(t)[i];
      }
    }
  }

  /** The folds: ks is x, kh is h, ph is f, a doubled letter is one letter. */
  lemma PairFolds()
    ensures Skeleton("ks") == "x" && Skeleton("kh") == "h" && Skeleton("ph") == "f" && Skeleton("tt") == "t"
  {
  }

  function CanonicalGiven(lib: Library, token: string): string {
    if token in lib.nicknames then lib.nicknames[token] else token
  }

  function OwnKeys(lib: Library, token: string): set<string> {
    {"mp:" + lib.metaphone(token), "sk:" + Skeleton(token)}
  }

  function TokenKeys(lib: Library, token: string): set<string> {
    if |token| < 2 then {}
    else
      var canonical := CanonicalGiven(lib, token);
      if canonical != token then OwnKeys(lib, token) + OwnKeys(lib, canonical) else OwnKeys(lib, token)
  }

  function KeysOfTokens(lib: Library, ts: seq<string>): (keys: set<string>) {
    set t, key | t in ts && key in TokenKeys(lib, t) :: key
  }

  /** `name_keys`: the union over the name's tokens. */
  method NameKeys(lib: Library, name: string) returns (keys: set<string>)
    ensures keys == KeysOfTokens(lib, Tokens(lib, name))
  {
    keys := UnionOfKeys(lib, Tokens(lib, name));
  }

  method UnionOfKeys(lib: Library, ts: seq<string>) returns (keys: set<string>)
    ensures keys == KeysOfTokens(lib, ts)
  {
    keys := {};
    for i := 0 to |ts|
      invariant keys == KeysOfTokens(lib, ts[..i])
    {
      keys := keys + TokenKeys(lib, ts[i]);
      assert ts[..i + 1][..i] == ts[..i];
    }
    assert ts[..|ts|] == ts;
  }
}
