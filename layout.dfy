/** The QWERTY <-> JCUKEN physical-key correspondence and the two per-character
    mappers that carry a token typed on one layout over to the other. */
module Layout {
  import opened WCtype

  /** A static table of (from, to) pairs; MapChar uses the first entry whose key matches. */
  type CharMap = seq<(char, char)>

  // Lower-case physical-key correspondence, entry i of one table mirroring entry i of the other.
  const RuToEn: CharMap := [
    ('\U{0439}', 'q'), ('\U{0446}', 'w'), ('\U{0443}', 'e'), ('\U{043A}', 'r'), ('\U{0435}', 't'), ('\U{043D}', 'y'), ('\U{0433}', 'u'), ('\U{0448}', 'i'), ('\U{0449}', 'o'), ('\U{0437}', 'p'), ('\U{0445}', '['), ('\U{044A}', ']'),
    ('\U{0444}', 'a'), ('\U{044B}', 's'), ('\U{0432}', 'd'), ('\U{0430}', 'f'), ('\U{043F}', 'g'), ('\U{0440}', 'h'), ('\U{043E}', 'j'), ('\U{043B}', 'k'), ('\U{0434}', 'l'), ('\U{0436}', ';'), ('\U{044D}', '\''),
    ('\U{044F}', 'z'), ('\U{0447}', 'x'), ('\U{0441}', 'c'), ('\U{043C}', 'v'), ('\U{0438}', 'b'), ('\U{0442}', 'n'), ('\U{044C}', 'm'), ('\U{0431}', ','), ('\U{044E}', '.'),
    ('\U{0451}', '`')
  ]
  const EnToRu: CharMap := [
    ('q', '\U{0439}'), ('w', '\U{0446}'), ('e', '\U{0443}'), ('r', '\U{043A}'), ('t', '\U{0435}'), ('y', '\U{043D}'), ('u', '\U{0433}'), ('i', '\U{0448}'), ('o', '\U{0449}'), ('p', '\U{0437}'), ('[', '\U{0445}'), (']', '\U{044A}'),
    ('a', '\U{0444}'), ('s', '\U{044B}'), ('d', '\U{0432}'), ('f', '\U{0430}'), ('g', '\U{043F}'), ('h', '\U{0440}'), ('j', '\U{043E}'), ('k', '\U{043B}'), ('l', '\U{0434}'), (';', '\U{0436}'), ('\'', '\U{044D}'),
    ('z', '\U{044F}'), ('x', '\U{0447}'), ('c', '\U{0441}'), ('v', '\U{043C}'), ('b', '\U{0438}'), ('n', '\U{0442}'), ('m', '\U{044C}'), (',', '\U{0431}'), ('.', '\U{044E}'),
    ('`', '\U{0451}')
  ]

  predicate UniqueKeys(table: CharMap)
  {
    forall i, j | 0 <= i < j < |table| :: table[i].0 != table[j].0
  }

  predicate IsKey(table: CharMap, c: char)
  {
    exists i | 0 <= i < |table| :: table[i].0 == c
  }

  /** c is a key of the table whose value is a lower-case ASCII letter. */
  predicate IsLetterKey(table: CharMap, c: char)
  {
    exists i | 0 <= i < |table| :: table[i].0 == c && IsAsciiLower(table[i].1)
  }

  /** What the round trips rely on about an (English -> Russian, Russian -> English)
      pair of tables: each is the other with its pairs swapped, keys are unique, the
      English side is printable ASCII without upper case and the Russian side is
      lower-case basic Cyrillic. */
  predicate MirrorTables(en: CharMap, ru: CharMap)
  {
    |en| == |ru|
    && (forall i | 0 <= i < |ru| :: ru[i] == (en[i].1, en[i].0))
    && UniqueKeys(en) && UniqueKeys(ru)
    && (forall i | 0 <= i < |en| ::
          '\0' < en[i].0 < '\U{0080}' && !IsAsciiUpper(en[i].0) && IsCyrillicLower(en[i].1))
  }

  /** main.c MapChar: the value of the first entry whose key is ch, or NUL when there
      is none (MapCharAt and MapCharMiss below). */
  function MapChar(table: CharMap, ch: char): char
  {
    if table == [] then '\0'
    else if table[0].0 == ch then table[0].1
    else MapChar(table[1..], ch)
  }

  /** One character of main.c MapRuToEn: case is detected by ToLowerInvariant, the
      lower-case form goes through the table (unchanged when absent), and upper case
      is restored only when the result is an ASCII letter. */
  function RuToEnChar(ct: Ctype, table: CharMap, ch: char): char
  {
    var lower := ToLowerInvariant(ct, ch);
    var upper := ch != lower;
    var m := MapChar(table, lower);
    var mapped := if m == '\0' then lower else m;
    if upper && IsAsciiLower(mapped) then AsciiToUpper(mapped) else mapped
  }

  /** One character of main.c MapEnToRu: only ASCII upper case counts as upper, and
      upper case is restored through towupper. */
  function EnToRuChar(ct: Ctype, table: CharMap, ch: char): char
  {
    var upper := IsAsciiUpper(ch);
    var lower := if upper then AsciiToLower(ch) else ch;
    var m := MapChar(table, lower);
    var mapped := if m == '\0' then lower else m;
    if upper then ct.toUpper(mapped) else mapped
  }

  /** main.c MapRuToEn into a buffer of outCap characters: one output character per
      input character while n + 1 < outCap, the rest dropped. */
  function MapRuToEn(ct: Ctype, s: seq<char>, outCap: nat): (r: seq<char>)
    requires outCap >= 1
    ensures |r| == Min(|s|, outCap - 1)
    ensures forall i | 0 <= i < |r| :: r[i] == RuToEnChar(ct, RuToEn, s[i])
  {
    seq(Min(|s|, outCap - 1), i requires 0 <= i < Min(|s|, outCap - 1) => RuToEnChar(ct, RuToEn, s[i]))
  }

  /** main.c MapEnToRu, with the same output bound as MapRuToEn. */
  function MapEnToRu(ct: Ctype, s: seq<char>, outCap: nat): (r: seq<char>)
    requires outCap >= 1
    ensures |r| == Min(|s|, outCap - 1)
    ensures forall i | 0 <= i < |r| :: r[i] == EnToRuChar(ct, EnToRu, s[i])
  {
    seq(Min(|s|, outCap - 1), i requires 0 <= i < Min(|s|, outCap - 1) => EnToRuChar(ct, EnToRu, s[i]))
  }

  /** The position of a physical key in the tables, found from the character it
      types on either layout; -1 for any other character. */
  function KeyPosition(c: char): int
  {
    match c
      case 'q' => 0 case '\U{0439}' => 0
      case 'w' => 1 case '\U{0446}' => 1
      case 'e' => 2 case '\U{0443}' => 2
      case 'r' => 3 case '\U{043A}' => 3
      case 't' => 4 case '\U{0435}' => 4
      case 'y' => 5 case '\U{043D}' => 5
      case 'u' => 6 case '\U{0433}' => 6
      case 'i' => 7 case '\U{0448}' => 7
      case 'o' => 8 case '\U{0449}' => 8
      case 'p' => 9 case '\U{0437}' => 9
      case '[' => 10 case '\U{0445}' => 10
      case ']' => 11 case '\U{044A}' => 11
      case 'a' => 12 case '\U{0444}' => 12
      case 's' => 13 case '\U{044B}' => 13
      case 'd' => 14 case '\U{0432}' => 14
      case 'f' => 15 case '\U{0430}' => 15
      case 'g' => 16 case '\U{043F}' => 16
      case 'h' => 17 case '\U{0440}' => 17
      case 'j' => 18 case '\U{043E}' => 18
      case 'k' => 19 case '\U{043B}' => 19
      case 'l' => 20 case '\U{0434}' => 20
      case ';' => 21 case '\U{0436}' => 21
      case '\'' => 22 case '\U{044D}' => 22
      case 'z' => 23 case '\U{044F}' => 23
      case 'x' => 24 case '\U{0447}' => 24
      case 'c' => 25 case '\U{0441}' => 25
      case 'v' => 26 case '\U{043C}' => 26
      case 'b' => 27 case '\U{0438}' => 27
      case 'n' => 28 case '\U{0442}' => 28
      case 'm' => 29 case '\U{044C}' => 29
      case ',' => 30 case '\U{0431}' => 30
      case '.' => 31 case '\U{044E}' => 31
      case '`' => 32 case '\U{0451}' => 32
      case _ => -1
  }

  /** Each entry's English character leads back to the entry, so no key occurs twice. */
  lemma EnKeyPositions()
    ensures forall i | 0 <= i < |EnToRu| :: KeyPosition(EnToRu[i].0) == i
  {
  }

  /** The same for each entry's Russian character. */
  lemma RuKeyPositions()
    ensures forall i | 0 <= i < |EnToRu| :: KeyPosition(EnToRu[i].1) == i
  {
  }

  lemma EnKeysUnique()
    ensures UniqueKeys(EnToRu)
  {
    EnKeyPositions();
  }

  lemma RuKeysUnique()
    ensures UniqueKeys(RuToEn)
  {
    RuKeyPositions();
    TablesSwapped();
  }

  lemma TablesSwapped()
    ensures |EnToRu| == |RuToEn|
    ensures forall i | 0 <= i < |RuToEn| :: RuToEn[i] == (EnToRu[i].1, EnToRu[i].0)
  {
  }

  lemma TableRanges()
    ensures forall i | 0 <= i < |EnToRu| ::
              '\0' < EnToRu[i].0 < '\U{0080}' && !IsAsciiUpper(EnToRu[i].0) && IsCyrillicLower(EnToRu[i].1)
  {
  }

  /** The two keyboard tables of main.c are mirror images with unique keys. */
  lemma KeyboardTablesMirror()
    ensures MirrorTables(EnToRu, RuToEn)
  {
    TablesSwapped();
    TableRanges();
    EnKeysUnique();
    RuKeysUnique();
  }

  /** With unique keys, MapChar finds the entry of each key. */
  lemma {:induction false} MapCharAt(table: CharMap, i: nat)
    requires UniqueKeys(table) && i < |table|
    ensures MapChar(table, table[i].0) == table[i].1
  {
    if i > 0 {
      assert table[1..][i - 1] == table[i];
      MapCharAt(table[1..], i - 1);
    }
  }

  /** A character that is no key of the table maps to NUL. */
  lemma {:induction false} MapCharMiss(table: CharMap, ch: char)
    requires !IsKey(table, ch)
    ensures MapChar(table, ch) == '\0'
  {
    if table != [] {
      assert !IsKey(table[1..], ch) by {
        forall i | 0 <= i < |table| - 1 ensures table[1..][i].0 != ch {
          assert table[1..][i] == table[i + 1];
        }
      }
      MapCharMiss(table[1..], ch);
    }
  }

  // One step of each mapper on a character whose lower-case form is a table key.

  lemma RuToEnOnKey(ct: Ctype, table: CharMap, c: char, lower: char, en: char)
    requires ToLowerInvariant(ct, c) == lower && MapChar(table, lower) == en && en != '\0'
    ensures c == lower ==> RuToEnChar(ct, table, c) == en
    ensures c != lower && IsAsciiLower(en) ==> RuToEnChar(ct, table, c) == AsciiToUpper(en)
  {
  }

  lemma EnToRuOnKey(ct: Ctype, table: CharMap, c: char, lower: char, ru: char)
    requires MapChar(table, lower) == ru && ru != '\0'
    requires if IsAsciiUpper(c) then AsciiToLower(c) == lower else c == lower
    ensures EnToRuChar(ct, table, c) == if IsAsciiUpper(c) then ct.toUpper(ru) else ru
  {
  }

  /** On a key of the Russian table, RU -> EN gives the table's English character. */
  lemma RuKeyMaps(ct: Ctype, en: CharMap, ru: CharMap, i: nat)
    requires Conforming(ct) && MirrorTables(en, ru) && i < |ru|
    ensures RuToEnChar(ct, ru, ru[i].0) == ru[i].1
  {
    MapCharAt(ru, i);
    assert ru[i] == (en[i].1, en[i].0);
    RuToEnOnKey(ct, ru, ru[i].0, ru[i].0, ru[i].1);
  }

  /** EN -> RU -> EN restores every English key and every upper-case ASCII letter
      whose lower case is a key, character by character. */
  lemma EnRuEnChar(ct: Ctype, en: CharMap, ru: CharMap, c: char)
    requires Conforming(ct) && MirrorTables(en, ru)
    requires if IsAsciiUpper(c) then IsKey(en, AsciiToLower(c)) else IsKey(en, c)
    ensures RuToEnChar(ct, ru, EnToRuChar(ct, en, c)) == c
  {
    var lower := if IsAsciiUpper(c) then AsciiToLower(c) else c;
    var i :| 0 <= i < |en| && en[i].0 == lower;
    MapCharAt(en, i);
    MapCharAt(ru, i);
    var r := en[i].1;
    EnToRuOnKey(ct, en, c, lower, r);
    if IsAsciiUpper(c) {
      var up := CyrillicToUpper(r);
      assert ct.toUpper(r) == up;
      assert ToLowerInvariant(ct, up) == r;
      RuToEnOnKey(ct, ru, up, r, lower);
    } else {
      assert ToLowerInvariant(ct, r) == r;
      RuToEnOnKey(ct, ru, r, r, lower);
    }
  }

  /** RU -> EN -> RU restores every Russian key, and the upper-case form of every
      Russian key whose English counterpart is a letter. */
  lemma RuEnRuChar(ct: Ctype, en: CharMap, ru: CharMap, c: char)
    requires Conforming(ct) && MirrorTables(en, ru)
    requires if IsCyrillicUpper(c) then IsLetterKey(ru, CyrillicToLower(c)) else IsKey(ru, c)
    ensures EnToRuChar(ct, en, RuToEnChar(ct, ru, c)) == c
  {
    var lower := if IsCyrillicUpper(c) then CyrillicToLower(c) else c;
    var i :| 0 <= i < |ru| && ru[i].0 == lower;
    MapCharAt(en, i);
    MapCharAt(ru, i);
    var e := ru[i].1;
    assert ToLowerInvariant(ct, c) == lower;
    RuToEnOnKey(ct, ru, c, lower, e);
    if IsCyrillicUpper(c) {
      var up := AsciiToUpper(e);
      EnToRuOnKey(ct, en, up, e, lower);
      assert ct.toUpper(lower) == CyrillicToUpper(lower) == c;
    } else {
      EnToRuOnKey(ct, en, e, e, lower);
    }
  }

  /** Mapping a token EN -> RU -> EN (with room for every character) gives it back. */
  lemma EnRuEnRoundTrip(ct: Ctype, s: seq<char>, outCap: nat)
    requires Conforming(ct) && outCap > |s|
    requires forall i | 0 <= i < |s| ::
               if IsAsciiUpper(s[i]) then IsKey(EnToRu, AsciiToLower(s[i])) else IsKey(EnToRu, s[i])
    ensures MapRuToEn(ct, MapEnToRu(ct, s, outCap), outCap) == s
  {
    KeyboardTablesMirror();
    var m := MapEnToRu(ct, s, outCap);
    var back := MapRuToEn(ct, m, outCap);
    forall i | 0 <= i < |s| ensures back[i] == s[i] {
      EnRuEnChar(ct, EnToRu, RuToEn, s[i]);
    }
  }

  /** Mapping a token RU -> EN -> RU (with room for every character) gives it back. */
  lemma RuEnRuRoundTrip(ct: Ctype, s: seq<char>, outCap: nat)
    requires Conforming(ct) && outCap > |s|
    requires forall i | 0 <= i < |s| ::
               if IsCyrillicUpper(s[i]) then IsLetterKey(RuToEn, CyrillicToLower(s[i])) else IsKey(RuToEn, s[i])
    ensures MapEnToRu(ct, MapRuToEn(ct, s, outCap), outCap) == s
  {
    KeyboardTablesMirror();
    var m := MapRuToEn(ct, s, outCap);
    var back := MapEnToRu(ct, m, outCap);
    forall i | 0 <= i < |s| ensures back[i] == s[i] {
      RuEnRuChar(ct, EnToRu, RuToEn, s[i]);
    }
  }

  /** RU -> EN leaves every ASCII character as it is (the Russian table has no ASCII
      key), and EN -> RU leaves every character of the Cyrillic range as it is. */
  lemma PassThrough(ct: Ctype, en: CharMap, ru: CharMap, c: char)
    requires Conforming(ct) && MirrorTables(en, ru)
    ensures c < '\U{0080}' ==> RuToEnChar(ct, ru, c) == c
    ensures IsCyrillicLetter(c) ==> EnToRuChar(ct, en, c) == c
  {
    if c < '\U{0080}' {
      var lower := ToLowerInvariant(ct, c);
      assert lower < '\U{0080}';
      MapCharMiss(ru, lower);
    }
    if IsCyrillicLetter(c) {
      MapCharMiss(en, c);
    }
  }
}
