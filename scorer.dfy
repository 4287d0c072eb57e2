/** The plausibility scorer: how much a lower-cased token looks like English or
    like Russian, from frequent bigrams, forbidden bigrams, its length and its
    vowel ratio. */
module Scorer {
  import opened WCtype

  type Bigrams = seq<(char, char)>

  /** ScoreEnglish's frequent bigrams, then its short-word helpers. */
  const EnglishBigrams: Bigrams := [
    ('t', 'h'), ('h', 'e'), ('i', 'n'), ('e', 'r'), ('a', 'n'), ('r', 'e'), ('o', 'n'), ('a', 't'), ('e', 'n'), ('n', 'd'),
    ('t', 'i'), ('e', 's'), ('o', 'r'), ('t', 'e'), ('o', 'f'), ('e', 'd'), ('i', 's'), ('i', 't'), ('a', 'l'), ('a', 'r'),
    ('s', 't'), ('t', 'o'), ('n', 't'), ('n', 'g'), ('s', 'e'), ('h', 'a'), ('a', 's'), ('o', 'u'), ('i', 'o'), ('l', 'e'),
    ('o', 'o'), ('c', 'k'), ('o', 'k'), ('b', 'o'), ('e', 'e')
  ]

  /** ScoreRussian's frequent bigrams: ст но то на ен ов ни ра во ко пр по ер ро ос ал та ва не ли ре. */
  const RussianBigrams: Bigrams := [
    ('\U{0441}', '\U{0442}'), ('\U{043D}', '\U{043E}'), ('\U{0442}', '\U{043E}'), ('\U{043D}', '\U{0430}'),
    ('\U{0435}', '\U{043D}'), ('\U{043E}', '\U{0432}'), ('\U{043D}', '\U{0438}'), ('\U{0440}', '\U{0430}'),
    ('\U{0432}', '\U{043E}'), ('\U{043A}', '\U{043E}'), ('\U{043F}', '\U{0440}'), ('\U{043F}', '\U{043E}'),
    ('\U{0435}', '\U{0440}'), ('\U{0440}', '\U{043E}'), ('\U{043E}', '\U{0441}'), ('\U{0430}', '\U{043B}'),
    ('\U{0442}', '\U{0430}'), ('\U{0432}', '\U{0430}'), ('\U{043D}', '\U{0435}'), ('\U{043B}', '\U{0438}'),
    ('\U{0440}', '\U{0435}')
  ]

  /** ScoreRussian's bigrams that do not occur in Russian: щщ ъъ ыы йй ьъ ъь жы шы. */
  const RussianBadBigrams: Bigrams := [
    ('\U{0449}', '\U{0449}'), ('\U{044A}', '\U{044A}'), ('\U{044B}', '\U{044B}'), ('\U{0439}', '\U{0439}'),
    ('\U{044C}', '\U{044A}'), ('\U{044A}', '\U{044C}'), ('\U{0436}', '\U{044B}'), ('\U{0448}', '\U{044B}')
  ]

  /** VowelRatioEn's "aeiouy" and VowelRatioRu's а е ё и о у ы э ю я. */
  const EnglishVowels: seq<char> := ['a', 'e', 'i', 'o', 'u', 'y']
  const RussianVowels: seq<char> := [
    '\U{0430}', '\U{0435}', '\U{0451}', '\U{0438}', '\U{043E}', '\U{0443}', '\U{044B}', '\U{044D}', '\U{044E}', '\U{044F}'
  ]

  datatype Script = Latin | Cyrillic

  predicate InScript(c: char, sc: Script)
  {
    match sc
    case Latin => IsLatinLetter(c)
    case Cyrillic => IsCyrillicLetter(c)
  }

  /** The character classes the scorer and the decision count. */
  datatype CharClass =
    | ScriptLetter(sc: Script)    // a letter of the script (a code point of its range)
    | ForeignLetter(sc: Script)   // iswalpha, but outside the script
    | UnknownLetter               // iswalpha, neither Latin nor Cyrillic
    | Digit                       // iswdigit
    | Vowel(sc: Script)           // a letter of the script that is one of its vowels

  predicate Is(ct: Ctype, cls: CharClass, c: char)
  {
    match cls
    case ScriptLetter(sc) => InScript(c, sc)
    case ForeignLetter(sc) => !InScript(c, sc) && ct.isAlpha(c)
    case UnknownLetter => !IsLatinLetter(c) && !IsCyrillicLetter(c) && ct.isAlpha(c)
    case Digit => ct.isDigit(c)
    case Vowel(sc) => InScript(c, sc) && c in (if sc == Latin then EnglishVowels else RussianVowels)
  }

  /** The counters of the scorer's and the decision's loops: how many characters
      of s are of class cls. */
  function Count(ct: Ctype, s: seq<char>, cls: CharClass): (r: nat)
    ensures r <= |s|
  {
    if s == [] then 0
    else Count(ct, s[..|s| - 1], cls) + (if Is(ct, cls, s[|s| - 1]) then 1 else 0)
  }

  /** A count is zero exactly when no character is of the class. */
  lemma {:induction false} CountZero(ct: Ctype, s: seq<char>, cls: CharClass)
    ensures Count(ct, s, cls) == 0 <==> forall i | 0 <= i < |s| :: !Is(ct, cls, s[i])
  {
    if s != [] {
      var init := s[..|s| - 1];
      CountZero(ct, init, cls);
      assert forall i | 0 <= i < |init| :: init[i] == s[i];
    }
  }

  /** Counting one more character of s, as the source's counting loops do. */
  lemma CountStep(ct: Ctype, s: seq<char>, i: nat, cls: CharClass)
    requires i < |s|
    ensures Count(ct, s[..i + 1], cls) == Count(ct, s[..i], cls) + (if Is(ct, cls, s[i]) then 1 else 0)
  {
    assert s[..i + 1][..i] == s[..i];
  }

  /** There are never more vowels of a script than letters of it. */
  lemma {:induction false} VowelsAreLetters(ct: Ctype, s: seq<char>, sc: Script)
    ensures Count(ct, s, Vowel(sc)) <= Count(ct, s, ScriptLetter(sc))
  {
    if s != [] {
      VowelsAreLetters(ct, s[..|s| - 1], sc);
    }
  }

  /** main.c FindBigramScore and CountBadBigrams (the two loops are the same): the
      number of adjacent positions whose pair is listed, each position counted once. */
  function PairHits(s: seq<char>, pairs: Bigrams): (r: nat)
    ensures |s| < 2 ==> r == 0
    ensures |s| >= 2 ==> r <= |s| - 1
  {
    if |s| < 2 then 0
    else PairHits(s[..|s| - 1], pairs) + (if (s[|s| - 2], s[|s| - 1]) in pairs then 1 else 0)
  }

  /** No adjacent pair of s is listed: no hit. */
  lemma {:induction false} NoListedPairs(s: seq<char>, pairs: Bigrams)
    requires forall i | 1 <= i < |s| :: (s[i - 1], s[i]) !in pairs
    ensures PairHits(s, pairs) == 0
    decreases |s|
  {
    if |s| >= 2 {
      var p := s[..|s| - 1];
      forall i | 1 <= i < |p| ensures (p[i - 1], p[i]) !in pairs {
        assert p[i - 1] == s[i - 1] && p[i] == s[i];
      }
      NoListedPairs(p, pairs);
    }
  }

  /** Looking at one more position of s, as the bigram loops do. */
  lemma PairHitsStep(s: seq<char>, pairs: Bigrams, i: nat)
    requires 1 <= i < |s|
    ensures PairHits(s[..i + 1], pairs) == PairHits(s[..i], pairs) + (if (s[i - 1], s[i]) in pairs then 1 else 0)
  {
    assert s[..i + 1][..i] == s[..i];
  }

  /** PairHits on four characters, position by position. */
  lemma PairHitsOfFour(s: seq<char>, pairs: Bigrams)
    requires |s| == 4
    ensures PairHits(s, pairs) ==
              (if (s[0], s[1]) in pairs then 1 else 0) + (if (s[1], s[2]) in pairs then 1 else 0)
              + (if (s[2], s[3]) in pairs then 1 else 0)
  {
    assert s[..1] == [s[0]];
    PairHitsStep(s, pairs, 1);
    PairHitsStep(s, pairs, 2);
    PairHitsStep(s, pairs, 3);
    assert s[..4] == s;
  }

  /** PairHits on five characters, position by position. */
  lemma PairHitsOfFive(s: seq<char>, pairs: Bigrams)
    requires |s| == 5
    ensures PairHits(s, pairs) ==
              (if (s[0], s[1]) in pairs then 1 else 0) + (if (s[1], s[2]) in pairs then 1 else 0)
              + (if (s[2], s[3]) in pairs then 1 else 0) + (if (s[3], s[4]) in pairs then 1 else 0)
  {
    assert s[..1] == [s[0]];
    PairHitsStep(s, pairs, 1);
    PairHitsStep(s, pairs, 2);
    PairHitsStep(s, pairs, 3);
    PairHitsStep(s, pairs, 4);
    assert s[..5] == s;
  }

  /** Whether a listed bigram starts at position i. */
  predicate HitAt(s: seq<char>, pairs: Bigrams, i: int)
    requires 0 <= i < |s| - 1
  {
    (s[i], s[i + 1]) in pairs
  }

  /** The positions i at which s[i] s[i+1] is a listed bigram. */
  function HitPositions(s: seq<char>, pairs: Bigrams): set<int>
  {
    set i | 0 <= i < |s| - 1 && HitAt(s, pairs, i)
  }

  /** PairHits is the number of distinct positions where a listed bigram starts:
      every position is looked at once, and a pair listed twice still counts once. */
  lemma {:induction false} PairHitsCountsPositions(s: seq<char>, pairs: Bigrams)
    ensures PairHits(s, pairs) == |HitPositions(s, pairs)|
  {
    if |s| >= 2 {
      PairHitsCountsPositions(s[..|s| - 1], pairs);
      HitPositionsStep(s, pairs);
    } else {
      assert HitPositions(s, pairs) == {};
    }
  }

  /** The hit positions of s are those of s without its last character, plus the
      last position when the final pair is listed. */
  lemma HitPositionsStep(s: seq<char>, pairs: Bigrams)
    requires |s| >= 2
    ensures var init := s[..|s| - 1];
            |HitPositions(s, pairs)| == |HitPositions(init, pairs)| + (if HitAt(s, pairs, |s| - 2) then 1 else 0)
  {
    var init := s[..|s| - 1];
    var last: set<int> := if HitAt(s, pairs, |s| - 2) then {|s| - 2} else {};
    assert HitPositions(s, pairs) == HitPositions(init, pairs) + last by {
      forall i | 0 <= i < |init| - 1 ensures HitAt(init, pairs, i) == HitAt(s, pairs, i) {
        assert init[i] == s[i] && init[i + 1] == s[i + 1];
      }
    }
    assert |s| - 2 !in HitPositions(init, pairs);
  }

  /** Two bigram lists with no pair in common never both hit the same position, so
      their hits together stay within the n - 1 positions of the token. */
  lemma {:induction false} DisjointHits(s: seq<char>, good: Bigrams, bad: Bigrams)
    requires forall p | p in good :: p !in bad
    ensures |s| >= 1 ==> PairHits(s, good) + PairHits(s, bad) <= |s| - 1
  {
    if |s| >= 2 {
      DisjointHits(s[..|s| - 1], good, bad);
    }
  }

  lemma RussianListsDisjoint()
    ensures forall p | p in RussianBigrams :: p !in RussianBadBigrams
  {
  }

  /** v / l < num / den, where the ratio is taken as 0 when l is 0 (VowelRatioEn and
      VowelRatioRu return 0.0 then). Exact for the integers involved. */
  predicate RatioBelow(v: nat, l: nat, num: nat, den: nat)
    requires den > 0
  {
    if l == 0 then 0 < num else v * den < num * l
  }

  /** v / l > num / den, with the same convention. */
  predicate RatioAbove(v: nat, l: nat, num: nat, den: nat)
    requires den > 0
  {
    l != 0 && v * den > num * l
  }

  /** The vowel ratio as VowelRatioEn and VowelRatioRu compute it, in exact
      arithmetic: v / l, or 0 when there are no letters. */
  function VowelRatio(v: nat, l: nat): real
  {
    if l == 0 then 0.0 else (v as real) / (l as real)
  }

  /** The cross-multiplied comparison is the comparison of the ratio itself. */
  lemma RatioBelowExact(v: nat, l: nat, num: nat, den: nat)
    requires den > 0
    ensures RatioBelow(v, l, num, den) <==> VowelRatio(v, l) < (num as real) / (den as real)
  {
    if l > 0 {
      CrossMultiply(v, l, num, den);
    }
  }

  lemma RatioAboveExact(v: nat, l: nat, num: nat, den: nat)
    requires den > 0
    ensures RatioAbove(v, l, num, den) <==> VowelRatio(v, l) > (num as real) / (den as real)
  {
    if l > 0 {
      CrossMultiply(v, l, num, den);
    }
  }

  /** For positive denominators, v / l and num / den compare as v * den and num * l. */
  lemma CrossMultiply(v: nat, l: nat, num: nat, den: nat)
    requires l > 0 && den > 0
    ensures (v as real) / (l as real) < (num as real) / (den as real) <==> v * den < num * l
    ensures (v as real) / (l as real) > (num as real) / (den as real) <==> v * den > num * l
  {
    var x := (v as real) / (l as real);
    var y := (num as real) / (den as real);
    assert x * (l as real) == v as real;
    assert y * (den as real) == num as real;
    var k := (l as real) * (den as real);
    assert k > 0.0;
    assert x * k == (v * den) as real;
    assert y * k == (num * l) as real;
    MulMonotone(x, y, k);
  }

  lemma MulMonotone(x: real, y: real, k: real)
    requires k > 0.0
    ensures x < y <==> x * k < y * k
    ensures x > y <==> x * k > y * k
  {
  }

  /** main.c ScoreEnglish on a lower-cased token. */
  function ScoreEnglish(ct: Ctype, s: seq<char>): (r: int)
    ensures r == -1000 <==> Count(ct, s, ScriptLetter(Latin)) == 0
    ensures r == -500 <==> Count(ct, s, ScriptLetter(Latin)) > 0 && Count(ct, s, ForeignLetter(Latin)) > 0
    ensures Count(ct, s, ScriptLetter(Latin)) > 0 && Count(ct, s, ForeignLetter(Latin)) == 0 ==>
              |s| - 16 <= r <= 4 * |s| - 3
  {
    var latin := Count(ct, s, ScriptLetter(Latin));
    var nonLatinLetters := Count(ct, s, ForeignLetter(Latin));
    if latin == 0 then -1000
    else if nonLatinLetters > 0 then -500
    else
      var hits := PairHits(s, EnglishBigrams);
      var n := |s|;
      // VowelRatioEn: vowels over Latin letters.
      var v := Count(ct, s, Vowel(Latin));
      var l := latin;
      VowelsAreLetters(ct, s, Latin);
      3 * hits
      - (if n >= 4 && RatioBelow(v, l, 1, 5) then 6 else 0)
      - (if RatioAbove(v, l, 3, 4) then 3 else 0)
      - (if n >= 6 && RatioBelow(v, l, 3, 20) then 10 else 0)
      + n
  }

  /** main.c ScoreRussian on a lower-cased token. */
  function ScoreRussian(ct: Ctype, s: seq<char>): (r: int)
    ensures Count(ct, s, ScriptLetter(Cyrillic)) == 0 ==> r == -1000
    ensures Count(ct, s, ScriptLetter(Cyrillic)) > 0 && Count(ct, s, ForeignLetter(Cyrillic)) > 0 ==> r == -500
    ensures Count(ct, s, ScriptLetter(Cyrillic)) > 0 && Count(ct, s, ForeignLetter(Cyrillic)) == 0 ==>
              -7 * |s| - 8 <= r <= 4 * |s| - 3
    // Within the token capacity the two sentinels cannot be reached by a real score.
    ensures |s| <= 64 ==> (r == -1000 <==> Count(ct, s, ScriptLetter(Cyrillic)) == 0)
    ensures |s| <= 64 ==> (r == -500 <==>
              Count(ct, s, ScriptLetter(Cyrillic)) > 0 && Count(ct, s, ForeignLetter(Cyrillic)) > 0)
  {
    var cyr := Count(ct, s, ScriptLetter(Cyrillic));
    var nonCyrLetters := Count(ct, s, ForeignLetter(Cyrillic));
    if cyr == 0 then -1000
    else if nonCyrLetters > 0 then -500
    else
      var hits := PairHits(s, RussianBigrams);
      var badHits := PairHits(s, RussianBadBigrams);
      var n := |s|;
      // VowelRatioRu: vowels over Cyrillic-range characters.
      var v := Count(ct, s, Vowel(Cyrillic));
      var l := cyr;
      VowelsAreLetters(ct, s, Cyrillic);
      RussianListsDisjoint();
      DisjointHits(s, RussianBigrams, RussianBadBigrams);
      3 * hits
      - 8 * badHits
      - (if n >= 4 && RatioBelow(v, l, 1, 5) then 6 else 0)
      - (if RatioAbove(v, l, 4, 5) then 3 else 0)
      - (if n >= 6 && RatioBelow(v, l, 3, 20) then 10 else 0)
      + n
  }
}
