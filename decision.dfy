/** The correction decision of main.c TryAutocorrectToken: which tokens are looked
    at, which direction they are mapped in, and when the mapped text scores enough
    better than the typed text to replace it. */
module Decision {
  import opened WCtype
  import opened Layout
  import opened Scorer

  /** TOKEN_MAX_CHARS: the token buffer holds at most 64 characters. */
  const TokenMax: nat := 64

  /** The token lower-cased character by character, as TryAutocorrectToken's
      `lower` and `mappedLower` buffers hold it. */
  function Lowered(ct: Ctype, s: seq<char>): (r: seq<char>)
    ensures |r| == |s|
  {
    seq(|s|, i requires 0 <= i < |s| => ToLowerInvariant(ct, s[i]))
  }

  /** Each character of the lower buffer is ToLowerInvariant of the token's character. */
  lemma LoweredChars(ct: Ctype, s: seq<char>)
    ensures forall i | 0 <= i < |s| :: Lowered(ct, s)[i] == ToLowerInvariant(ct, s[i])
  {
  }

  /** The least mapped score that can win: 6 for tokens of up to 4 characters, 8 above. */
  function MinMapped(n: int): (r: int)
    ensures r == 6 || r == 8
    ensures r == 6 <==> n <= 4
  {
    if n <= 4 then 6 else 8
  }

  /** The least improvement over the typed text's score: 4 up to 5 characters and 6
      above, lowered to 3 when the typed text scores 6 or less and to 2 when the
      token mixes both scripts (the later rule wins). */
  function MinDiff(n: int, base: int, mixed: bool): (r: int)
    ensures 2 <= r <= 6
    ensures mixed ==> r == 2
    ensures !mixed && base <= 6 ==> r == 3
    ensures !mixed && base > 6 ==> r == (if n <= 5 then 4 else 6)
  {
    var d0 := if n <= 5 then 4 else 6;
    var d1 := if base <= 6 then 3 else d0;
    if mixed then 2 else d1
  }

  /** Why a token is left alone before any score is computed. */
  datatype Reason = TooShort | TooLong | OtherLetters | HasDigit | NoLetters

  /** The outcome of the decision. A scored token carries the direction (towards
      English when it holds a Cyrillic letter), the mapped text, both scores and
      whether the mapped text wins. */
  datatype Verdict =
    | Reject(reason: Reason)
    | Scored(toEnglish: bool, mapped: seq<char>, base: int, mappedScore: int, corrects: bool)

  /** The token's lowered characters of a class: counted, or checked for absence. */
  function LowerCount(ct: Ctype, token: seq<char>, cls: CharClass): nat
  {
    Count(ct, Lowered(ct, token), cls)
  }

  predicate NoneOf(ct: Ctype, token: seq<char>, cls: CharClass)
  {
    forall i | 0 <= i < |token| :: !Is(ct, cls, ToLowerInvariant(ct, token[i]))
  }

  /** main.c TryAutocorrectToken's decision, in the source's order: length, letters
      of a third script, digits, then the direction; the mapper writes into a
      buffer of TOKEN_MAX_CHARS + 1 characters, and the scorers read their input
      up to the first NUL. */
  function Decide(ct: Ctype, token: seq<char>): (v: Verdict)
    ensures |token| < 3 ==> v == Reject(TooShort)
    ensures |token| > TokenMax ==> v == Reject(TooLong)
    ensures v.Scored? ==> 3 <= |token| <= TokenMax
  {
    var n := |token|;
    if n < 3 then Reject(TooShort)
    else if n > TokenMax then Reject(TooLong)
    else
      var latin := LowerCount(ct, token, ScriptLetter(Latin));
      var cyr := LowerCount(ct, token, ScriptLetter(Cyrillic));
      if LowerCount(ct, token, UnknownLetter) > 0 then Reject(OtherLetters)
      else if LowerCount(ct, token, Digit) > 0 then Reject(HasDigit)
      else if cyr == 0 && latin == 0 then Reject(NoLetters)
      else Judge(ct, token, cyr > 0, latin > 0 && cyr > 0)
  }

  /** The scoring half of the decision: the typed text is scored in its own script,
      the text mapped to the other layout in the other script, and the thresholds
      for the token's length applied. */
  function Judge(ct: Ctype, token: seq<char>, toEnglish: bool, mixed: bool): Verdict
  {
    var n := |token|;
    var lower := CString(Lowered(ct, token));
    var mapped := CString(if toEnglish then MapRuToEn(ct, token, TokenMax + 1)
                          else MapEnToRu(ct, token, TokenMax + 1));
    var mappedLower := CString(Lowered(ct, mapped));
    var mappedScore := if toEnglish then ScoreEnglish(ct, mappedLower) else ScoreRussian(ct, mappedLower);
    var base := if toEnglish then ScoreRussian(ct, lower) else ScoreEnglish(ct, lower);
    Scored(toEnglish, mapped, base, mappedScore,
           mappedScore >= MinMapped(n) && mappedScore - base >= MinDiff(n, base, mixed))
  }

  /** The tokens that reach the scorers are exactly those of 3 to 64 characters
      whose lowered form holds no digit, no letter outside the two scripts, and at
      least one letter of one of them; each other token is refused for the first
      reason in that order. */
  lemma {:induction false} DecideRejects(ct: Ctype, token: seq<char>)
    ensures Decide(ct, token).Reject? <==>
              !(3 <= |token| <= TokenMax
                && NoneOf(ct, token, UnknownLetter) && NoneOf(ct, token, Digit)
                && !(NoneOf(ct, token, ScriptLetter(Latin)) && NoneOf(ct, token, ScriptLetter(Cyrillic))))
    ensures 3 <= |token| <= TokenMax && !NoneOf(ct, token, UnknownLetter) ==>
              Decide(ct, token) == Reject(OtherLetters)
    ensures 3 <= |token| <= TokenMax && NoneOf(ct, token, UnknownLetter) && !NoneOf(ct, token, Digit) ==>
              Decide(ct, token) == Reject(HasDigit)
  {
    var lower := Lowered(ct, token);
    LoweredChars(ct, token);
    forall cls | true
      ensures LowerCount(ct, token, cls) == 0 <==> NoneOf(ct, token, cls)
    {
      CountZero(ct, lower, cls);
    }
  }

  /** A scored token is mapped towards English exactly when it holds a Cyrillic
      letter, and a correction always means a mapped score of at least 6 that beats
      the typed text's by at least 2. */
  lemma ScoredFacts(ct: Ctype, token: seq<char>)
    requires Decide(ct, token).Scored?
    ensures var v := Decide(ct, token);
            (v.toEnglish <==> LowerCount(ct, token, ScriptLetter(Cyrillic)) > 0)
            && (v.corrects ==> v.mappedScore >= 6 && v.mappedScore - v.base >= 2)
  {
    var v := Decide(ct, token);
    var n := |token|;
    var lower := Lowered(ct, token);
    var mixed := Count(ct, lower, ScriptLetter(Latin)) > 0 && Count(ct, lower, ScriptLetter(Cyrillic)) > 0;
    assert v.corrects == (v.mappedScore >= MinMapped(n) && v.mappedScore - v.base >= MinDiff(n, v.base, mixed));
  }

  /** Under a conforming runtime the mapped text of a scored token is the whole
      mapper output: one character per token character, none of them NUL. */
  lemma MappedKeepsLength(ct: Ctype, token: seq<char>)
    requires Conforming(ct) && '\0' !in token
    requires Decide(ct, token).Scored?
    ensures var v := Decide(ct, token);
            v.mapped == (if v.toEnglish then MapRuToEn(ct, token, TokenMax + 1) else MapEnToRu(ct, token, TokenMax + 1))
            && |v.mapped| == |token| && '\0' !in v.mapped
  {
    var v := Decide(ct, token);
    var raw := if v.toEnglish then MapRuToEn(ct, token, TokenMax + 1) else MapEnToRu(ct, token, TokenMax + 1);
    assert '\0' !in raw by {
      forall i | 0 <= i < |raw| ensures raw[i] != '\0' {
        MapperNotNul(ct, token[i]);
      }
    }
    CStringNoNul(raw);
  }

  /** Neither per-character mapper produces NUL from another character. */
  lemma MapperNotNul(ct: Ctype, c: char)
    requires Conforming(ct) && c != '\0'
    ensures RuToEnChar(ct, RuToEn, c) != '\0'
    ensures EnToRuChar(ct, EnToRu, c) != '\0'
  {
    ToLowerInvariantNotNul(ct, c);
  }

  /** A correction is only ever made towards text that is entirely in the target
      script: it has a letter of that script and no other alphabetic letter, and it
      has as many characters as the token. */
  lemma CorrectionIsInTargetScript(ct: Ctype, token: seq<char>)
    requires Conforming(ct) && '\0' !in token
    requires Decide(ct, token).Scored? && Decide(ct, token).corrects
    ensures var v := Decide(ct, token);
            var target := if v.toEnglish then Latin else Cyrillic;
            var m := Lowered(ct, v.mapped);
            |v.mapped| == |token|
            && (exists i | 0 <= i < |m| :: InScript(m[i], target))
            && (forall i | 0 <= i < |m| :: !Is(ct, ForeignLetter(target), m[i]))
  {
    var v := Decide(ct, token);
    MappedKeepsLength(ct, token);
    var target := if v.toEnglish then Latin else Cyrillic;
    var m := Lowered(ct, v.mapped);
    LoweredNoNul(ct, v.mapped);
    CStringNoNul(m);
    if v.toEnglish {
      assert v.mappedScore == ScoreEnglish(ct, m) >= 6;
    } else {
      assert v.mappedScore == ScoreRussian(ct, m) >= 6 && |m| <= 64;
    }
    CountZero(ct, m, ScriptLetter(target));
    CountZero(ct, m, ForeignLetter(target));
  }

  /** A token that holds letters of both scripts is always mapped towards English
      and needs an improvement of only 2. */
  lemma MixedTokenGoesToEnglish(ct: Ctype, token: seq<char>)
    requires Decide(ct, token).Scored?
    requires LowerCount(ct, token, ScriptLetter(Latin)) > 0 && LowerCount(ct, token, ScriptLetter(Cyrillic)) > 0
    ensures var v := Decide(ct, token);
            v.toEnglish && v.mapped == CString(MapRuToEn(ct, token, TokenMax + 1))
            && (v.corrects <==> v.mappedScore >= MinMapped(|token|) && v.mappedScore - v.base >= 2)
  {
  }

  /** Once a token passes the refusals, the decision is the scoring half. */
  lemma DecideIsJudge(ct: Ctype, t: seq<char>)
    requires 3 <= |t| <= TokenMax
    requires LowerCount(ct, t, UnknownLetter) == 0 && LowerCount(ct, t, Digit) == 0
    requires LowerCount(ct, t, ScriptLetter(Cyrillic)) > 0 || LowerCount(ct, t, ScriptLetter(Latin)) > 0
    ensures Decide(ct, t) == Judge(ct, t, LowerCount(ct, t, ScriptLetter(Cyrillic)) > 0,
                                   LowerCount(ct, t, ScriptLetter(Latin)) > 0 && LowerCount(ct, t, ScriptLetter(Cyrillic)) > 0)
  {
  }

  /** Lowering keeps a NUL-free text free of NUL. */
  lemma LoweredNoNul(ct: Ctype, s: seq<char>)
    requires Conforming(ct) && '\0' !in s
    ensures '\0' !in Lowered(ct, s)
  {
    var l := Lowered(ct, s);
    forall i | 0 <= i < |l| ensures l[i] != '\0' {
      ToLowerInvariantNotNul(ct, s[i]);
    }
  }

  /** The scoring half towards English, for any token of up to 64 characters in any
      case: the base is the Russian score of the lowered token, the mapped text is
      the whole RU -> EN output, and the mapped score is the English score of its
      lowered form. */
  lemma JudgeToEnglish(ct: Ctype, t: seq<char>, mixed: bool)
    requires Conforming(ct) && '\0' !in t && |t| <= TokenMax
    ensures var h := MapRuToEn(ct, t, TokenMax + 1);
            var base := ScoreRussian(ct, Lowered(ct, t));
            var ms := ScoreEnglish(ct, Lowered(ct, h));
            |h| == |t|
            && Judge(ct, t, true, mixed) ==
                 Scored(true, h, base, ms, ms >= MinMapped(|t|) && ms - base >= MinDiff(|t|, base, mixed))
  {
    var h := MapRuToEn(ct, t, TokenMax + 1);
    forall i | 0 <= i < |h| ensures h[i] != '\0' {
      MapperNotNul(ct, t[i]);
    }
    LoweredNoNul(ct, t);
    LoweredNoNul(ct, h);
    CStringNoNul(h);
    CStringNoNul(Lowered(ct, t));
    CStringNoNul(Lowered(ct, h));
  }

  /** The scoring half towards Russian, likewise with the scripts swapped. */
  lemma JudgeToRussian(ct: Ctype, t: seq<char>, mixed: bool)
    requires Conforming(ct) && '\0' !in t && |t| <= TokenMax
    ensures var h := MapEnToRu(ct, t, TokenMax + 1);
            var base := ScoreEnglish(ct, Lowered(ct, t));
            var ms := ScoreRussian(ct, Lowered(ct, h));
            |h| == |t|
            && Judge(ct, t, false, mixed) ==
                 Scored(false, h, base, ms, ms >= MinMapped(|t|) && ms - base >= MinDiff(|t|, base, mixed))
  {
    var h := MapEnToRu(ct, t, TokenMax + 1);
    forall i | 0 <= i < |h| ensures h[i] != '\0' {
      MapperNotNul(ct, t[i]);
    }
    LoweredNoNul(ct, t);
    LoweredNoNul(ct, h);
    CStringNoNul(h);
    CStringNoNul(Lowered(ct, t));
    CStringNoNul(Lowered(ct, h));
  }

  // Worked cases, under a conforming runtime. They evaluate the decision on the
  // tokens the source's comments name: "руддщ" -> "hello", the case the thresholds
  // are tuned for (main.c:438), in lower case and capitalised; "C3PO", one of the
  // identifiers the digit refusal is for (main.c:405); and the English word "test",
  // which must be left alone.

  /** "руддщ" is "hello" typed on the Russian layout. */
  const Ruddshch: seq<char> := "\U{0440}\U{0443}\U{0434}\U{0434}\U{0449}"

  lemma RuToEnKeyAt(ct: Ctype, i: nat, ru: char, en: char)
    requires Conforming(ct) && i < |RuToEn| && RuToEn[i] == (ru, en)
    requires IsCyrillicLower(ru) && en != '\0'
    ensures RuToEnChar(ct, RuToEn, ru) == en
  {
    RuKeysUnique();
    MapCharAt(RuToEn, i);
    ToLowerInvariantFolds(ct, ru);
    RuToEnOnKey(ct, RuToEn, ru, ru, en);
  }

  /** The table entries of the keys of "руддщ". */
  lemma RuddshchEntries()
    ensures RuToEn[2] == ('\U{0443}', 'e') && RuToEn[8] == ('\U{0449}', 'o')
    ensures RuToEn[17] == ('\U{0440}', 'h') && RuToEn[20] == ('\U{0434}', 'l')
  {
  }

  /** The four keys of "руддщ" and what they type on the English layout. */
  lemma RuddshchKeys(ct: Ctype)
    requires Conforming(ct)
    ensures RuToEnChar(ct, RuToEn, '\U{0440}') == 'h' && RuToEnChar(ct, RuToEn, '\U{0443}') == 'e'
    ensures RuToEnChar(ct, RuToEn, '\U{0434}') == 'l' && RuToEnChar(ct, RuToEn, '\U{0449}') == 'o'
  {
    RuddshchEntries();
    RuToEnKeyAt(ct, 17, '\U{0440}', 'h');
    RuToEnKeyAt(ct, 2, '\U{0443}', 'e');
    RuToEnKeyAt(ct, 20, '\U{0434}', 'l');
    RuToEnKeyAt(ct, 8, '\U{0449}', 'o');
  }

  /** RU -> EN turns "руддщ" into "hello". */
  lemma RuddshchMapsToHello(ct: Ctype)
    requires Conforming(ct)
    ensures MapRuToEn(ct, Ruddshch, TokenMax + 1) == "hello"
  {
    RuddshchKeys(ct);
    RuddshchSpellsHello(ct);
  }

  lemma RuddshchSpellsHello(ct: Ctype)
    requires RuToEnChar(ct, RuToEn, '\U{0440}') == 'h' && RuToEnChar(ct, RuToEn, '\U{0443}') == 'e'
    requires RuToEnChar(ct, RuToEn, '\U{0434}') == 'l' && RuToEnChar(ct, RuToEn, '\U{0449}') == 'o'
    ensures MapRuToEn(ct, Ruddshch, TokenMax + 1) == "hello"
  {
    var m := MapRuToEn(ct, Ruddshch, TokenMax + 1);
    SameFive(m, "hello");
  }

  /** A five-character sequence none of whose characters is NUL. */
  lemma NoNulFive(s: seq<char>)
    requires |s| == 5 && s[0] != '\0' && s[1] != '\0' && s[2] != '\0' && s[3] != '\0' && s[4] != '\0'
    ensures '\0' !in s
  {
  }

  lemma NoNulFour(s: seq<char>)
    requires |s| == 4 && s[0] != '\0' && s[1] != '\0' && s[2] != '\0' && s[3] != '\0'
    ensures '\0' !in s
  {
  }

  /** Two sequences of five characters that agree at every position are equal. */
  lemma SameFive(a: seq<char>, b: seq<char>)
    requires |a| == |b| == 5
    requires a[0] == b[0] && a[1] == b[1] && a[2] == b[2] && a[3] == b[3] && a[4] == b[4]
    ensures a == b
  {
  }

  lemma RuddshchIsLower(ct: Ctype)
    requires Conforming(ct)
    ensures Lowered(ct, Ruddshch) == Ruddshch
  {
    var l := Lowered(ct, Ruddshch);
    forall i | 0 <= i < 5 ensures l[i] == Ruddshch[i] {
      assert IsCyrillicLower(Ruddshch[i]);
    }
  }

  lemma RuddshchLetters(ct: Ctype)
    ensures Count(ct, Ruddshch, ScriptLetter(Cyrillic)) == 5
    ensures Count(ct, Ruddshch, ForeignLetter(Cyrillic)) == 0
  {
    var s := Ruddshch;
    assert s[..0] == [] && s[..5] == s;
    for k := 0 to 5
      invariant Count(ct, s[..k], ScriptLetter(Cyrillic)) == k
      invariant Count(ct, s[..k], ForeignLetter(Cyrillic)) == 0
    {
      CountStep(ct, s, k, ScriptLetter(Cyrillic));
      CountStep(ct, s, k, ForeignLetter(Cyrillic));
    }
  }

  lemma RuddshchVowels(ct: Ctype)
    ensures Count(ct, Ruddshch, Vowel(Cyrillic)) == 1
  {
    var s := Ruddshch;
    assert s[..0] == [] && s[..5] == s;
    for k := 0 to 5
      invariant Count(ct, s[..k], Vowel(Cyrillic)) == (if k >= 2 then 1 else 0)
    {
      CountStep(ct, s, k, Vowel(Cyrillic));
    }
  }

  lemma RuddshchBigrams()
    ensures PairHits(Ruddshch, RussianBigrams) == 0
  {
    NoListedPairs(Ruddshch, RussianBigrams);
  }

  lemma RuddshchBadBigrams()
    ensures PairHits(Ruddshch, RussianBadBigrams) == 0
  {
    NoListedPairs(Ruddshch, RussianBadBigrams);
  }

  /** "руддщ" scores 5 as Russian: no listed bigram, one vowel in five letters. */
  lemma RuddshchScoresFive(ct: Ctype)
    ensures ScoreRussian(ct, Ruddshch) == 5
  {
    RuddshchLetters(ct);
    RuddshchVowels(ct);
    RuddshchBigrams();
    RuddshchBadBigrams();
  }

  lemma HelloLetters(ct: Ctype)
    ensures Count(ct, "hello", ScriptLetter(Latin)) == 5
    ensures Count(ct, "hello", ForeignLetter(Latin)) == 0
    ensures Count(ct, "hello", Vowel(Latin)) == 2
  {
    var s := "hello";
    assert s[..0] == [] && s[..5] == s;
    for k := 0 to 5
      invariant Count(ct, s[..k], ScriptLetter(Latin)) == k
      invariant Count(ct, s[..k], ForeignLetter(Latin)) == 0
      invariant Count(ct, s[..k], Vowel(Latin)) == (if k >= 5 then 2 else if k >= 2 then 1 else 0)
    {
      CountStep(ct, s, k, ScriptLetter(Latin));
      CountStep(ct, s, k, ForeignLetter(Latin));
      CountStep(ct, s, k, Vowel(Latin));
    }
  }

  lemma HelloHitsOnce(pairs: Bigrams)
    requires ('h', 'e') in pairs && ('e', 'l') !in pairs && ('l', 'l') !in pairs && ('l', 'o') !in pairs
    ensures PairHits("hello", pairs) == 1
  {
    PairHitsOfFive("hello", pairs);
  }

  lemma EnglishHasHe()
    ensures ('h', 'e') in EnglishBigrams
  {
  }

  lemma EnglishLacksEl()
    ensures ('e', 'l') !in EnglishBigrams
  {
  }

  lemma EnglishLacksLl()
    ensures ('l', 'l') !in EnglishBigrams
  {
  }

  lemma EnglishLacksLo()
    ensures ('l', 'o') !in EnglishBigrams
  {
  }

  lemma HelloBigrams()
    ensures PairHits("hello", EnglishBigrams) == 1
  {
    EnglishHasHe();
    EnglishLacksEl();
    EnglishLacksLl();
    EnglishLacksLo();
    HelloHitsOnce(EnglishBigrams);
  }

  /** "hello" scores 8 as English: the bigram "he", two vowels in five letters. */
  lemma HelloScoresEight(ct: Ctype)
    ensures ScoreEnglish(ct, "hello") == 8
  {
    HelloLetters(ct);
    HelloBigrams();
  }

  lemma HelloIsLower(ct: Ctype)
    requires Conforming(ct)
    ensures Lowered(ct, "hello") == "hello"
  {
    var l := Lowered(ct, "hello");
    forall i | 0 <= i < 5 ensures l[i] == "hello"[i] {
      assert IsAsciiLower("hello"[i]);
    }
  }

  lemma RuddshchJudged(ct: Ctype)
    requires Conforming(ct)
    ensures Judge(ct, Ruddshch, true, false) == Scored(true, "hello", 5, 8, true)
  {
    RuddshchMapsToHello(ct);
    RuddshchIsLower(ct);
    RuddshchScoresFive(ct);
    HelloScoresEight(ct);
    HelloIsLower(ct);
    NoNulFive(Ruddshch);
    JudgeToEnglish(ct, Ruddshch, false);
  }

  lemma RuddshchClasses(ct: Ctype)
    requires Conforming(ct)
    ensures Count(ct, Ruddshch, ScriptLetter(Latin)) == 0
    ensures Count(ct, Ruddshch, UnknownLetter) == 0
    ensures Count(ct, Ruddshch, Digit) == 0
  {
    CountZero(ct, Ruddshch, ScriptLetter(Latin));
    CountZero(ct, Ruddshch, UnknownLetter);
    CountZero(ct, Ruddshch, Digit);
  }

  lemma RuddshchIsScored(ct: Ctype)
    requires Conforming(ct)
    ensures Decide(ct, Ruddshch) == Judge(ct, Ruddshch, true, false)
  {
    RuddshchIsLower(ct);
    RuddshchLetters(ct);
    RuddshchClasses(ct);
    DecideIsJudge(ct, Ruddshch);
  }

  /** "руддщ" is corrected to "hello": base 5, mapped 8, an improvement of 3 against
      the required 3 (the base is at most 6) and a mapped score at the required 8. */
  lemma RuddshchIsCorrected(ct: Ctype)
    requires Conforming(ct)
    ensures Decide(ct, Ruddshch) == Scored(true, "hello", 5, 8, true)
  {
    RuddshchIsScored(ct);
    RuddshchJudged(ct);
  }

  /** "Руддщ", the same keys with Shift on the first. */
  const RuddshchCap: seq<char> := "\U{0420}\U{0443}\U{0434}\U{0434}\U{0449}"

  /** A capital Russian key types the capital of its English key. */
  lemma RuToEnCapitalKeyAt(ct: Ctype, i: nat, cap: char, ru: char, en: char)
    requires Conforming(ct) && i < |RuToEn| && RuToEn[i] == (ru, en)
    requires IsCyrillicUpper(cap) && CyrillicToLower(cap) == ru && IsAsciiLower(en)
    ensures RuToEnChar(ct, RuToEn, cap) == AsciiToUpper(en)
  {
    RuKeysUnique();
    MapCharAt(RuToEn, i);
    RuToEnOnKey(ct, RuToEn, cap, ru, en);
  }

  lemma RuddshchCapLowers(ct: Ctype)
    requires Conforming(ct)
    ensures Lowered(ct, RuddshchCap) == Ruddshch
  {
    var l := Lowered(ct, RuddshchCap);
    forall i | 0 <= i < 5 ensures l[i] == Ruddshch[i] {
      if i > 0 {
        assert IsCyrillicLower(RuddshchCap[i]);
      }
    }
  }

  /** RU -> EN turns "Руддщ" into "Hello". */
  lemma RuddshchCapMapsToHello(ct: Ctype)
    requires Conforming(ct)
    ensures MapRuToEn(ct, RuddshchCap, TokenMax + 1) == "Hello"
  {
    RuddshchEntries();
    RuddshchKeys(ct);
    RuToEnCapitalKeyAt(ct, 17, '\U{0420}', '\U{0440}', 'h');
    var m := MapRuToEn(ct, RuddshchCap, TokenMax + 1);
    SameFive(m, "Hello");
  }

  lemma HelloCapLowers(ct: Ctype)
    requires Conforming(ct)
    ensures Lowered(ct, "Hello") == "hello"
  {
    var l := Lowered(ct, "Hello");
    forall i | 0 <= i < 5 ensures l[i] == "hello"[i] {
      if i > 0 {
        assert IsAsciiLower("Hello"[i]);
      }
    }
  }

  lemma RuddshchCapJudged(ct: Ctype)
    requires Conforming(ct)
    ensures Judge(ct, RuddshchCap, true, false) == Scored(true, "Hello", 5, 8, true)
  {
    RuddshchCapMapsToHello(ct);
    RuddshchCapLowers(ct);
    HelloCapLowers(ct);
    RuddshchScoresFive(ct);
    HelloScoresEight(ct);
    NoNulFive(RuddshchCap);
    JudgeToEnglish(ct, RuddshchCap, false);
  }

  lemma RuddshchCapIsScored(ct: Ctype)
    requires Conforming(ct)
    ensures Decide(ct, RuddshchCap) == Judge(ct, RuddshchCap, true, false)
  {
    RuddshchCapLowers(ct);
    RuddshchLetters(ct);
    RuddshchClasses(ct);
    DecideIsJudge(ct, RuddshchCap);
  }

  /** "Руддщ" is lowered before it is scored, so it is judged as "руддщ" and
      corrected to "Hello", with the capital kept. */
  lemma RuddshchCapIsCorrected(ct: Ctype)
    requires Conforming(ct)
    ensures Decide(ct, RuddshchCap) == Scored(true, "Hello", 5, 8, true)
  {
    RuddshchCapIsScored(ct);
    RuddshchCapJudged(ct);
  }

  /** "C3PO" is refused for its digit before anything is scored. */
  lemma IdentifierIsRefused(ct: Ctype)
    requires Conforming(ct)
    ensures Decide(ct, "C3PO") == Reject(HasDigit)
  {
    assert NoneOf(ct, "C3PO", UnknownLetter) by {
      forall i | 0 <= i < 4 ensures !Is(ct, UnknownLetter, ToLowerInvariant(ct, "C3PO"[i])) {
        ToLowerInvariantFolds(ct, "C3PO"[i]);
      }
    }
    assert !NoneOf(ct, "C3PO", Digit) by {
      assert ToLowerInvariant(ct, "C3PO"[1]) == '3';
    }
    DecideRejects(ct, "C3PO");
  }

  /** "test" typed on the Russian layout would be "еуые". */
  const Euye: seq<char> := "\U{0435}\U{0443}\U{044B}\U{0435}"

  lemma EnToRuKeyAt(ct: Ctype, i: nat, en: char, ru: char)
    requires i < |EnToRu| && EnToRu[i] == (en, ru)
    ensures EnToRuChar(ct, EnToRu, en) == ru
  {
    EnKeysUnique();
    TableRanges();
    MapCharAt(EnToRu, i);
  }

  lemma TestKey(ct: Ctype, j: nat)
    requires j < 4
    ensures EnToRuChar(ct, EnToRu, "test"[j]) == Euye[j]
  {
    if j == 1 {
      EnToRuKeyAt(ct, 2, 'e', '\U{0443}');
    } else if j == 2 {
      EnToRuKeyAt(ct, 13, 's', '\U{044B}');
    } else {
      EnToRuKeyAt(ct, 4, 't', '\U{0435}');
    }
  }

  /** EN -> RU turns "test" into "еуые". */
  lemma TestMapsToEuye(ct: Ctype)
    ensures MapEnToRu(ct, "test", TokenMax + 1) == Euye
  {
    var m := MapEnToRu(ct, "test", TokenMax + 1);
    forall j | 0 <= j < 4 ensures m[j] == Euye[j] {
      TestKey(ct, j);
    }
  }

  lemma TestIsLower(ct: Ctype)
    requires Conforming(ct)
    ensures Lowered(ct, "test") == "test"
  {
    var l := Lowered(ct, "test");
    forall i | 0 <= i < 4 ensures l[i] == "test"[i] {
      assert IsAsciiLower("test"[i]);
    }
  }

  lemma EuyeIsLower(ct: Ctype)
    requires Conforming(ct)
    ensures Lowered(ct, Euye) == Euye
  {
    var l := Lowered(ct, Euye);
    forall i | 0 <= i < 4 ensures l[i] == Euye[i] {
      assert IsCyrillicLower(Euye[i]);
    }
  }

  lemma TestLetters(ct: Ctype)
    ensures Count(ct, "test", ScriptLetter(Latin)) == 4
    ensures Count(ct, "test", ForeignLetter(Latin)) == 0
    ensures Count(ct, "test", Vowel(Latin)) == 1
  {
    var s := "test";
    assert s[..0] == [] && s[..4] == s;
    for k := 0 to 4
      invariant Count(ct, s[..k], ScriptLetter(Latin)) == k
      invariant Count(ct, s[..k], ForeignLetter(Latin)) == 0
      invariant Count(ct, s[..k], Vowel(Latin)) == (if k >= 2 then 1 else 0)
    {
      CountStep(ct, s, k, ScriptLetter(Latin));
      CountStep(ct, s, k, ForeignLetter(Latin));
      CountStep(ct, s, k, Vowel(Latin));
    }
  }

  lemma TestClasses(ct: Ctype)
    requires Conforming(ct)
    ensures Count(ct, "test", ScriptLetter(Cyrillic)) == 0
    ensures Count(ct, "test", UnknownLetter) == 0
    ensures Count(ct, "test", Digit) == 0
  {
    CountZero(ct, "test", ScriptLetter(Cyrillic));
    CountZero(ct, "test", UnknownLetter);
    CountZero(ct, "test", Digit);
  }

  lemma TestHitsThrice(pairs: Bigrams)
    requires ('t', 'e') in pairs && ('e', 's') in pairs && ('s', 't') in pairs
    ensures PairHits("test", pairs) == 3
  {
    PairHitsOfFour("test", pairs);
  }

  lemma EnglishHasTeEsSt()
    ensures ('t', 'e') in EnglishBigrams && ('e', 's') in EnglishBigrams && ('s', 't') in EnglishBigrams
  {
  }

  /** "test" scores 13 as English: the bigrams "te", "es" and "st", one vowel in four. */
  lemma TestScoresThirteen(ct: Ctype)
    ensures ScoreEnglish(ct, "test") == 13
  {
    TestLetters(ct);
    EnglishHasTeEsSt();
    TestHitsThrice(EnglishBigrams);
  }

  lemma EuyeLetters(ct: Ctype)
    ensures Count(ct, Euye, ScriptLetter(Cyrillic)) == 4
    ensures Count(ct, Euye, ForeignLetter(Cyrillic)) == 0
    ensures Count(ct, Euye, Vowel(Cyrillic)) == 4
  {
    var s := Euye;
    assert s[..0] == [] && s[..4] == s;
    for k := 0 to 4
      invariant Count(ct, s[..k], ScriptLetter(Cyrillic)) == k
      invariant Count(ct, s[..k], ForeignLetter(Cyrillic)) == 0
      invariant Count(ct, s[..k], Vowel(Cyrillic)) == k
    {
      CountStep(ct, s, k, ScriptLetter(Cyrillic));
      CountStep(ct, s, k, ForeignLetter(Cyrillic));
      CountStep(ct, s, k, Vowel(Cyrillic));
    }
  }

  lemma EuyeBigrams()
    ensures PairHits(Euye, RussianBigrams) == 0
  {
    NoListedPairs(Euye, RussianBigrams);
  }

  lemma EuyeBadBigrams()
    ensures PairHits(Euye, RussianBadBigrams) == 0
  {
    NoListedPairs(Euye, RussianBadBigrams);
  }

  /** "еуые" scores 1 as Russian: no listed bigram, and only vowels (over 4/5). */
  lemma EuyeScoresOne(ct: Ctype)
    ensures ScoreRussian(ct, Euye) == 1
  {
    EuyeLetters(ct);
    EuyeBigrams();
    EuyeBadBigrams();
  }

  lemma TestJudged(ct: Ctype)
    requires Conforming(ct)
    ensures Judge(ct, "test", false, false) == Scored(false, Euye, 13, 1, false)
  {
    TestMapsToEuye(ct);
    TestIsLower(ct);
    EuyeIsLower(ct);
    TestScoresThirteen(ct);
    EuyeScoresOne(ct);
    NoNulFour("test");
    JudgeToRussian(ct, "test", false);
  }

  lemma TestIsScored(ct: Ctype)
    requires Conforming(ct)
    ensures Decide(ct, "test") == Judge(ct, "test", false, false)
  {
    TestIsLower(ct);
    TestLetters(ct);
    TestClasses(ct);
    DecideIsJudge(ct, "test");
  }

  /** "test" is kept: "еуые" scores 1, below the 6 a four-character token needs. */
  lemma TestIsKept(ct: Ctype)
    requires Conforming(ct)
    ensures Decide(ct, "test") == Scored(false, Euye, 13, 1, false)
  {
    TestIsScored(ct);
    TestJudged(ct);
  }
}
