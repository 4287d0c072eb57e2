/** Character classification used by the autocorrect engine.
    A UTF-16 code unit (`wchar_t`) is a Dafny `char`. The C runtime's locale
    classifiers (`iswalpha`, `iswdigit`, `towlower`, `towupper`) are not
    reimplemented: they are a record of functions, constrained by `Conforming`
    on ASCII and on the basic Cyrillic block, with no digit anywhere in
    U+0400..U+052F and no case mapping that yields NUL. */
module WCtype {

  /** The C runtime's wide-character classifiers, as seen by the engine. */
  datatype Ctype = Ctype(
    isAlpha: char -> bool,   // iswalpha
    isDigit: char -> bool,   // iswdigit
    toLower: char -> char,   // towlower
    toUpper: char -> char)   // towupper

  predicate IsAsciiUpper(c: char) { 'A' <= c <= 'Z' }
  predicate IsAsciiLower(c: char) { 'a' <= c <= 'z' }

  /** U+0400..U+040F (Ѐ..Џ) and U+0410..U+042F (А..Я). */
  predicate IsCyrillicUpper(c: char) { '\U{0400}' <= c <= '\U{042F}' }
  /** U+0430..U+044F (а..я) and U+0450..U+045F (ѐ..џ). */
  predicate IsCyrillicLower(c: char) { '\U{0430}' <= c <= '\U{045F}' }

  function AsciiToLower(c: char): (r: char)
    requires IsAsciiUpper(c)
    ensures IsAsciiLower(r)
  {
    (c as int - 'A' as int + 'a' as int) as char
  }

  function AsciiToUpper(c: char): (r: char)
    requires IsAsciiLower(c)
    ensures IsAsciiUpper(r) && AsciiToLower(r) == c
  {
    (c as int - 'a' as int + 'A' as int) as char
  }

  /** Unicode's case pairing inside the basic Cyrillic block: Ѐ..Џ sit 0x50
      below ѐ..џ, and А..Я sit 0x20 below а..я. */
  function CyrillicToLower(c: char): (r: char)
    requires IsCyrillicUpper(c)
    ensures IsCyrillicLower(r)
  {
    if c < '\U{0410}' then (c as int + 0x50) as char else (c as int + 0x20) as char
  }

  function CyrillicToUpper(c: char): (r: char)
    requires IsCyrillicLower(c)
    ensures IsCyrillicUpper(r) && CyrillicToLower(r) == c
  {
    if c < '\U{0450}' then (c as int - 0x20) as char else (c as int - 0x50) as char
  }

  /** What the engine relies on from the C runtime: the ASCII classification,
      iswalpha on the basic Cyrillic letters, no digit anywhere in the Cyrillic
      range, the case mappings on ASCII and the basic Cyrillic block, and case
      mappings that never turn a character into the string terminator.
      Nothing else is assumed about any other character. */
  ghost predicate Conforming(ct: Ctype)
  {
    (forall c: char | c < '\U{0080}' :: ct.isAlpha(c) == (IsAsciiUpper(c) || IsAsciiLower(c)))
    && (forall c: char | c < '\U{0080}' :: ct.isDigit(c) == ('0' <= c <= '9'))
    && (forall c: char | IsCyrillicUpper(c) || IsCyrillicLower(c) :: ct.isAlpha(c))
    && (forall c: char | IsCyrillicLetter(c) :: !ct.isDigit(c))
    && (forall c: char | c < '\U{0080}' ::
          ct.toLower(c) == (if IsAsciiUpper(c) then AsciiToLower(c) else c))
    && (forall c: char | c < '\U{0080}' ::
          ct.toUpper(c) == (if IsAsciiLower(c) then AsciiToUpper(c) else c))
    && (forall c: char | IsCyrillicUpper(c) :: ct.toLower(c) == CyrillicToLower(c) && ct.toUpper(c) == c)
    && (forall c: char | IsCyrillicLower(c) :: ct.toUpper(c) == CyrillicToUpper(c) && ct.toLower(c) == c)
    && (forall c: char | c != '\0' :: ct.toLower(c) != '\0')
    && (forall c: char | c != '\0' :: ct.toUpper(c) != '\0')
  }

  /** The smaller of two counts. */
  function Min(a: int, b: int): int { if a <= b then a else b }

  /** A wide string stored in a buffer: the characters before the first NUL, which
      is what wcslen measures and what every loop over `*p` visits. */
  function CString(s: seq<char>): (r: seq<char>)
    ensures r <= s && '\0' !in r
    ensures |r| < |s| ==> s[|r|] == '\0'
  {
    if s == [] || s[0] == '\0' then [] else [s[0]] + CString(s[1..])
  }

  /** A sequence without NUL is its own C string. */
  lemma CStringNoNul(s: seq<char>)
    requires '\0' !in s
    ensures CString(s) == s
  {
  }

  /** main.c IsLatinLetter: ASCII letters only. */
  predicate IsLatinLetter(c: char)
  {
    IsAsciiUpper(c) || IsAsciiLower(c)
  }

  /** main.c IsCyrillicLetter: the code-point range U+0400..U+052F, whether or not
      the code point is a letter. */
  predicate IsCyrillicLetter(c: char)
  {
    ('\U{0400}' <= c <= '\U{04FF}') || ('\U{0500}' <= c <= '\U{052F}')
  }

  /** main.c IsWordChar: iswalnum, which the C standard defines as iswalpha or iswdigit. */
  predicate IsWordChar(ct: Ctype, c: char)
  {
    ct.isAlpha(c) || ct.isDigit(c)
  }

  /** main.c ToLowerInvariant: ASCII folded by hand, everything else through towlower. */
  function ToLowerInvariant(ct: Ctype, c: char): char
  {
    if IsAsciiUpper(c) then AsciiToLower(c) else ct.toLower(c)
  }

  /** A scan that stops at the first NUL or at the end of s, after p characters,
      has read exactly the C string. */
  lemma {:induction false} CStringScan(s: seq<char>, p: nat)
    requires p <= |s| && '\0' !in s[..p]
    ensures |CString(s)| >= p && CString(s)[..p] == s[..p]
    ensures p == |s| || s[p] == '\0' ==> CString(s) == s[..p]
  {
    if p > 0 {
      assert s[0] == s[..p][0];
      assert s[1..][..p - 1] == s[..p][1..];
      CStringScan(s[1..], p - 1);
    } else if |s| > 0 && s[0] != '\0' {
      // p == 0 and s continues: nothing to show beyond the prefix facts.
    }
  }

  /** ToLowerInvariant never produces the terminator from another character. */
  lemma ToLowerInvariantNotNul(ct: Ctype, c: char)
    requires Conforming(ct) && c != '\0'
    ensures ToLowerInvariant(ct, c) != '\0'
  {
  }

  /** Under a conforming runtime, a word character is never the string terminator. */
  lemma WordCharNotNul(ct: Ctype, c: char)
    requires Conforming(ct)
    requires IsWordChar(ct, c)
    ensures c != '\0'
  {
  }

  /** ToLowerInvariant folds ASCII and basic Cyrillic upper case onto lower case,
      keeps each letter in its script, and is idempotent there. */
  lemma ToLowerInvariantFolds(ct: Ctype, c: char)
    requires Conforming(ct)
    ensures IsAsciiUpper(c) ==> ToLowerInvariant(ct, c) == AsciiToLower(c)
    ensures c < '\U{0080}' && !IsAsciiUpper(c) ==> ToLowerInvariant(ct, c) == c
    ensures IsCyrillicUpper(c) ==> ToLowerInvariant(ct, c) == CyrillicToLower(c)
    ensures IsCyrillicLower(c) ==> ToLowerInvariant(ct, c) == c
    ensures (c < '\U{0080}' || IsCyrillicUpper(c) || IsCyrillicLower(c)) ==>
              ToLowerInvariant(ct, ToLowerInvariant(ct, c)) == ToLowerInvariant(ct, c)
  {
    if IsAsciiUpper(c) {
      var l := AsciiToLower(c);
      assert l < '\U{0080}' && !IsAsciiUpper(l);
    } else if IsCyrillicUpper(c) {
      var l := CyrillicToLower(c);
      assert IsCyrillicLower(l);
    }
  }
}
