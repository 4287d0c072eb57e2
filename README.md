# DiSwitcher wrong-layout autocorrect, modelled in Dafny

DiSwitcher watches the keyboard through a low-level Windows hook. It collects the
word being typed. When a word ends, it checks whether the word was typed in the
wrong keyboard layout, for example "руддщ" typed on the Russian layout when
"hello" was meant. If so, it retypes the word in the other layout and switches the
layout. Pause undoes the last correction within 30 seconds, and pressing Pause
again redoes it.

The model covers the engine in `src/main.c`, one Dafny module per part:

- `WCtype` (wctype.dfy): the character classifiers, and wide C strings.
  - `iswalpha`, `iswdigit`, `towlower` and `towupper` are a record of functions.
  - The predicate `Conforming` constrains them on ASCII and on the basic Cyrillic
    block. It also says that nothing in the range U+0400–U+052F is a digit, and
    that the case mappings never produce NUL from another character.
  - The code never calls `setlocale`. Only the comment at main.c:62 says that
    `towlower` folds Cyrillic, and `Conforming` takes that as given. So
    `Decision.RuddshchCapIsCorrected` and the capital-letter halves of
    `Layout.RuKeyMaps`, `Layout.RuEnRuChar` and `Layout.EnRuEnChar` hold only for a
    runtime that folds Cyrillic case this way.
- `Layout` (layout.dfy): the QWERTY↔ЙЦУКЕН tables, `MapChar`, and the two mappers.
- `Scorer` (scorer.dfy): bigram hits, bad-bigram hits, vowel ratios, and
  `ScoreEnglish` / `ScoreRussian`.
- `Decision` (decision.dfy): the refusals and thresholds of `TryAutocorrectToken`.
  It also holds worked cases: "руддщ" is corrected to "hello" and "Руддщ" to
  "Hello", "test" is kept, and "C3PO" is refused.
- `Injection` (injection.dfy): `SendBackspacesAndText`, a counter loop over a local
  256-entry array.
  - Its batch is replayed against the text of a focused edit field, to state what
    the injected keys do.
  - The actions the engine asks of the system (`SwitchLayout`, `Inject`, `Quit`)
    are defined here.
- `Fixes` (lastfix.dfy): the `LastFix` record and the specifications of a
  correction (`TryStep`) and of the Pause toggle (`ToggleStep`).
- `Hook` (engine.dfy): the hook's state machine.
  - `Step` is the specification, on values.
  - The class `Engine` holds the hook's globals. These are the 65-character token
    array, its length, the key-up latch, the last fix, and a log of the actions
    asked of the system.
  - Its methods update the globals in place and are proved to follow `Step`.

Win32 is not called. Each call is replaced as follows:

| Win32 call | in the model |
|---|---|
| `GetTickCount64` | the event's `now`, a 64-bit tick |
| `ToUnicodeEx` | the event's `typed` character; `None` unless the call returns 1 |
| `GetAsyncKeyState` | the event's `ctrl`, `alt` and `shift` flags |
| `FindLayoutByPrimaryLang` / `RequestLayoutSwitch` | a `SwitchLayout(lang)` action |
| `SendInput` | an `Inject(batch)` action |
| `PostQuitMessage` | a `Quit` action |
| `CallNextHookEx` | the result "not consumed" |

The vowel-ratio comparisons use doubles in the code. The model uses exact integer
cross-multiplication instead: "v/l < 0.20" becomes 5v < l, with the ratio taken as
0 when there are no letters. `Scorer.RatioBelowExact` and `Scorer.RatioAboveExact`
prove that these comparisons agree with the exact ratio `Scorer.VowelRatio`.

The swallow latch consumes a matching key-up (main.c:663). It is checked before the
event kind is looked at (main.c:663-667).

`SendBackspacesAndText` stops adding key pairs when `count + 2 < 256` fails, so it
sends at most 127 pairs. A 64-character word corrected at a boundary needs 64
backspaces, 64 characters and the boundary: 129 pairs. The batch is cut after the
63rd character. This is modelled as written (`Injection.LongReplacementIsCut`). The
round-trip lemmas carry the length bound under which no cut happens.

## Model

| member | source | states |
|---|---|---|
| `WCtype.CString` | src/main.c:387 | the wide string seen through wcslen is the longest NUL-free prefix; the character after it, if any, is NUL |
| `WCtype.CStringScan` | src/main.c:315 | a `*p` loop that stops at the first NUL or at the end has read exactly the C string |
| `WCtype.ToLowerInvariantFolds` | src/main.c:59-64 | ASCII and basic Cyrillic capitals fold to their lower case, other ASCII is kept, and folding twice equals folding once |
| `WCtype.WordCharNotNul` | src/main.c:53-57 | under a conforming runtime no word character (iswalnum) is the terminator |
| `WCtype.ToLowerInvariantNotNul` | src/main.c:59-64 | ToLowerInvariant never turns a character into the terminator |
| `WCtype.IsLatinLetter` | src/main.c:43-46 | holds exactly of A–Z and a–z; the English scorer counts these as letters (`Scorer.CountZero`, `Scorer.ScoreEnglish`) |
| `WCtype.IsCyrillicLetter` | src/main.c:48-51 | holds of every code point in U+0400–U+052F, letter or not; `Conforming` rules out digits there, and the Russian scorer counts these (`Scorer.ScoreRussian`) |
| `WCtype.IsWordChar` | src/main.c:53-57 | iswalnum, taken as iswalpha or iswdigit; `WCtype.WordCharNotNul` shows it never holds of NUL, so a token is a C string |
| `WCtype.ToLowerInvariant` | src/main.c:59-64 | ASCII capitals folded by hand, every other character through towlower; `WCtype.ToLowerInvariantFolds` and `WCtype.ToLowerInvariantNotNul` state its properties |
| `Layout.MapChar` | src/main.c:225-231 | the value of the first entry whose key is the character, or NUL; `Layout.MapCharAt` and `Layout.MapCharMiss` state both cases |
| `Layout.RuToEnChar` | src/main.c:236-243 | one pass of MapRuToEn's loop: case found through ToLowerInvariant, the table image of the lower form or the lower form itself, and an ASCII result put back in upper case; `Layout.RuKeyMaps`, `Layout.RuEnRuChar` and `Layout.PassThrough` state it |
| `Layout.EnToRuChar` | src/main.c:251-258 | one pass of MapEnToRu's loop: only ASCII capitals count as upper case, and upper case is put back through towupper; `Layout.EnRuEnChar` and `Layout.PassThrough` state it |
| `Layout.MapRuToEn` | src/main.c:233-246 | one output character per input character while n + 1 < outCap; each is the RU→EN mapping of the input character |
| `Layout.MapEnToRu` | src/main.c:248-261 | one output character per input character while n + 1 < outCap; each is the EN→RU mapping of the input character |
| `Layout.KeyboardTablesMirror` | src/main.c:210-223 | kEnToRu and kRuToEn have the same 33 pairs swapped, unique keys, English keys in non-capital ASCII and Russian values in lower-case Cyrillic |
| `Layout.MapCharAt` | src/main.c:225-231 | with unique keys MapChar returns the value of the entry whose key it is given |
| `Layout.MapCharMiss` | src/main.c:225-231 | a character that is no key maps to 0 |
| `Layout.RuKeyMaps` | src/main.c:233-246 | every key of the Russian table maps RU→EN to its table value |
| `Layout.EnRuEnChar` | src/main.c:233-261 | EN→RU→EN restores every English key and every ASCII capital whose lower case is a key |
| `Layout.RuEnRuChar` | src/main.c:233-261 | RU→EN→RU restores every Russian key, and the capital of every key whose English counterpart is a letter |
| `Layout.EnRuEnRoundTrip` | src/main.c:233-261 | mapping a token of keys EN→RU→EN with room for it gives the token back |
| `Layout.RuEnRuRoundTrip` | src/main.c:233-261 | mapping a token of keys RU→EN→RU with room for it gives the token back |
| `Layout.PassThrough` | src/main.c:238-241 | characters that are no key pass through: RU→EN keeps all of ASCII, EN→RU keeps all of the Cyrillic range |
| `Scorer.Count` | src/main.c:140-144 | a class count never exceeds the length |
| `Scorer.CountZero` | src/main.c:145-146 | a count is zero exactly when no character has the class |
| `Scorer.VowelsAreLetters` | src/main.c:103-127 | a vowel count never exceeds the letter count of its script, so each ratio is at most 1 |
| `Scorer.PairHits` | src/main.c:66-101 | FindBigramScore and CountBadBigrams give 0 below two characters and at most n − 1 otherwise |
| `Scorer.PairHitsCountsPositions` | src/main.c:73-80 | the hit count equals the number of distinct positions where a listed bigram starts, so each position counts once |
| `Scorer.DisjointHits` | src/main.c:190-191 | with disjoint lists, good hits plus bad hits stay within n − 1 |
| `Scorer.RussianListsDisjoint` | src/main.c:166-180 | no bigram is both frequent and forbidden in Russian |
| `Scorer.VowelRatio` | src/main.c:103-114 | the reference for VowelRatioEn and VowelRatioRu in exact arithmetic: vowels over letters, or 0 without letters |
| `Scorer.RatioBelow` | src/main.c:155-158 | "ratio < num/den" by cross-multiplication, true for a positive bound when there are no letters; `Scorer.RatioBelowExact` proves it equals the comparison of `VowelRatio` |
| `Scorer.RatioAbove` | src/main.c:198-200 | "ratio > num/den" by cross-multiplication, false when there are no letters; `Scorer.RatioAboveExact` proves it equals the comparison of `VowelRatio` |
| `Scorer.RatioBelowExact` | src/main.c:116-127 | for every count and bound, the cross-multiplied "below" test holds exactly when the exact ratio is below the bound |
| `Scorer.RatioAboveExact` | src/main.c:116-127 | for every count and bound, the cross-multiplied "above" test holds exactly when the exact ratio is above the bound |
| `Scorer.ScoreEnglish` | src/main.c:129-162 | −1000 exactly when there is no ASCII letter, −500 exactly when there is one and another alphabetic letter, otherwise between n − 16 and 4n − 3 |
| `Scorer.ScoreRussian` | src/main.c:164-203 | −1000 and −500 in the same cases for Cyrillic, otherwise between −7n − 8 and 4n − 3; up to 64 characters the sentinels arise only in those cases |
| `Decision.Lowered` | src/main.c:391-393 | the lower buffer has the token's length |
| `Decision.LoweredChars` | src/main.c:391-393 | each character of the lower buffer is ToLowerInvariant of the token's character |
| `Decision.MinMapped` | src/main.c:442 | the minimum mapped score is 6 exactly for tokens of at most 4 characters, 8 otherwise |
| `Decision.MinDiff` | src/main.c:443-445 | the minimum gain is 2 for mixed scripts, 3 when base ≤ 6, otherwise 4 up to 5 characters and 6 beyond |
| `Decision.LowerCount` | src/main.c:394-411 | the number of lowered token characters of a class, as the letter and digit loops count them; `Decision.DecideRejects` relates a zero count to the absence of the class |
| `Decision.Judge` | src/main.c:413-447 | lowers the token, maps it in the given direction, reads both as C strings, scores them and applies MinMapped and MinDiff; `Decision.JudgeToEnglish` and `Decision.JudgeToRussian` state it for every token |
| `Decision.Decide` | src/main.c:387-389 | tokens under 3 characters are refused as too short, over 64 as too long; a scored token has 3 to 64 characters |
| `Decision.DecideRejects` | src/main.c:387-436 | a token is refused exactly when its length is outside 3..64, or it holds a third-script letter, or a digit, or no letter of either script; the third-script refusal comes first, then digits |
| `Decision.ScoredFacts` | src/main.c:418-447 | the direction is towards English exactly when a Cyrillic letter is present; a correction means a mapped score ≥ 6 that beats the base by ≥ 2 |
| `Decision.MappedKeepsLength` | src/main.c:418-433 | under a conforming runtime the mapped text is the whole mapper output, as long as the token and free of NUL |
| `Decision.MapperNotNul` | src/main.c:233-261 | neither mapper produces NUL from another character |
| `Decision.CorrectionIsInTargetScript` | src/main.c:418-447 | a correction targets text that has a letter of the target script and no other alphabetic letter |
| `Decision.MixedTokenGoesToEnglish` | src/main.c:404-447 | a token with both scripts is mapped RU→EN and corrected iff mapped ≥ minMapped and diff ≥ 2 |
| `Decision.DecideIsJudge` | src/main.c:394-436 | a token that passes the refusals is scored with direction "has Cyrillic" and mixed "has both" |
| `Decision.LoweredNoNul` | src/main.c:391-393 | lowering a NUL-free token gives a NUL-free buffer, so the scorers read all of it |
| `Decision.JudgeToEnglish` | src/main.c:413-447 | for a token of up to 64 characters in any case, towards English the mapped text is the whole RU→EN output, the base is the Russian score of the lowered token, the mapped score is the English score of the lowered mapped text, and correction is mapped ≥ minMapped ∧ diff ≥ minDiff |
| `Decision.JudgeToRussian` | src/main.c:413-447 | likewise towards Russian: the base is the English score of the lowered token, the mapped score is the Russian score of the lowered EN→RU text, with the same thresholds |
| `Decision.RuddshchIsCorrected` | src/main.c:438 | "руддщ" is scored 5 in Russian, maps to "hello" scored 8 in English, and is corrected |
| `Decision.RuddshchCapIsCorrected` | src/main.c:390-438 | the capitalised "Руддщ" is lowered to "руддщ" for scoring and corrected to "Hello", keeping the capital |
| `Decision.TestIsKept` | src/main.c:385-486 | "test" maps to "еуые", which scores 1 against the base 13, so it is not corrected |
| `Decision.IdentifierIsRefused` | src/main.c:407-411 | "C3PO" is refused for its digit |
| `Injection.BackspacePairs` | src/main.c:297-313 | k Backspace pairs take 2k records |
| `Injection.TextPairs` | src/main.c:315-331 | each character takes a Unicode key-down and key-up record |
| `Injection.Batch` | src/main.c:292-331 | the INPUT records SendBackspacesAndText builds: min(k, 127) Backspace pairs, then the text pairs that fit; `Injection.SendBackspacesAndText`, `Injection.BatchShape` and `Injection.BatchReplaces` state it |
| `Injection.BatchShape` | src/main.c:292-336 | a batch has at most 127 pairs, within the 256-entry array; it holds the backspaces first, then the prefix of the C string that fits; nothing is cut when backspaces plus characters stay within 127 |
| `Injection.SendBackspacesAndText` | src/main.c:292-336 | the array's loop builds exactly the batch specification |
| `Injection.Send` | src/main.c:333-335 | SendInput is called once with the batch, and only when the batch is not empty |
| `Injection.Apply` | src/main.c:333-335 | reference semantics, not code of the program: what one injected record does to a plain edit field with the caret at the end (a Unicode record types its character, a Backspace key-down erases one, a key-up does nothing) |
| `Injection.Replay` | src/main.c:333-335 | reference semantics, not code of the program: the edit field after the batch's records are applied in order; `Injection.ReplayAppend`, `Injection.ReplayBackspaces` and `Injection.ReplayText` state it |
| `Injection.ReplayAppend` | src/main.c:333-335 | injecting two batches in sequence acts as injecting their concatenation |
| `Injection.ReplayBackspaces` | src/main.c:297-313 | k backspace pairs erase the last k characters |
| `Injection.ReplayText` | src/main.c:315-331 | typed pairs append the text |
| `Injection.BatchEffect` | src/main.c:292-336 | any batch erases min(k, 127) characters and types the part of the text that fits |
| `Injection.BatchReplaces` | src/main.c:292-336 | when the batch fits, it replaces the last k characters with the text |
| `Injection.LongReplacementIsCut` | src/main.c:292-320 | correcting a 64-character word at a boundary leaves only 63 corrected characters and no boundary |
| `Fixes.Invalidate` | src/main.c:338-341 | the record with only its active flag cleared; `Hook.PassedKeyDropsFix` and `Hook.NonTextKeyDropsFix` use it |
| `Fixes.Elapsed` | src/main.c:348 | now − ts in unsigned 64-bit arithmetic: the plain difference, or wrapped when the clock is behind ts |
| `Fixes.ToggleStep` | src/main.c:343-383 | a toggle that is handled had an active fix and issues exactly a layout switch and an injection; one that declines issues at most the switch |
| `Fixes.ToggleDeclines` | src/main.c:345-356 | an inactive fix, a window over 30000 ms or a fix without boundary: returns false, deactivates, issues nothing; an inactive fix is left as it is |
| `Fixes.ToggleAccepts` | src/main.c:358-382 | a fresh fix with boundary is toggled: the flag flips, ts becomes now, the target's layout is requested, and currentLen + 1 backspaces then target + boundary are injected |
| `Fixes.ToggleReplaces` | src/main.c:369-379 | the toggle's batch replaces the shown text and boundary with the other text and the same boundary |
| `Fixes.ToggleTwiceRestores` | src/main.c:343-383 | two toggles within the window restore the record (with a new ts) and the document text |
| `Fixes.Replacement` | src/main.c:466-478 | the text retyped after a correction: mapped plus the boundary when it is included and fits the 66-character buffer, otherwise mapped; `Fixes.ActRecords` shows the boundary always fits |
| `Fixes.Act` | src/main.c:447-485 | for an accepted verdict, the new record, a layout switch and one injection of |token| backspaces and the replacement; nothing otherwise; `Fixes.TryRecords` and `Fixes.ActRecords` state it |
| `Fixes.TryStep` | src/main.c:385-486 | without a correction neither the record nor the system is touched; a correction issues a layout switch and one injection |
| `Fixes.TryRefusesQuietly` | src/main.c:387-436 | refused tokens leave LastFix as it was and inject nothing |
| `Fixes.TryRecords` | src/main.c:455-482 | a correction overwrites every field of LastFix: active, ts = now, original = token, corrected = mapped, boundary, had_boundary, direction, corrected_applied; it injects n backspaces, then mapped, then the boundary if included |
| `Fixes.ActRecords` | src/main.c:466-482 | with the boundary included the retyped text is mapped + boundary, because it always fits the 66-character buffer |
| `Fixes.TryReplaces` | src/main.c:466-482 | for words up to 63 characters the batch turns the typed word into the mapped text, plus the boundary when included |
| `Fixes.ReplaceWord` | src/main.c:292-336 | a batch that fits replaces the word just before the caret with the text |
| `Fixes.UndoRestoresTyping` | src/main.c:343-482 | correcting a word up to 62 characters at a printable boundary, then pressing Pause within 30 s, restores exactly the typed word and boundary |
| `Fixes.UndoFreshFix` | src/main.c:358-382 | undoing a freshly recorded fix puts back the original text and boundary |
| `Hook.Inv` | src/main.c:23-41 | the invariant of the hook's globals: at most 64 characters in the token, all word characters, latch key 0 while disarmed, and a well-formed LastFix; `Hook.StepKeepsInv` shows every event keeps it |
| `Hook.Step` | src/main.c:655-769 | one hook call on values: injected events pass, the latch swallows a matching key-up, key-downs go to DownStep, everything else passes; `Hook.StepKeepsInv` and `Hook.Engine.OnKeyEvent` state it |
| `Hook.DownStep` | src/main.c:669-705 | a key-down: the quit chord, Pause, Ctrl/Alt shortcuts, else PlainStep; `Hook.QuitChord`, `Hook.PauseToggles` and `Hook.DownKeepsInv` state it |
| `Hook.PlainStep` | src/main.c:707-765 | Backspace, Escape, a word character, a printable boundary or a non-text key; `Hook.TokenEditing` and `Hook.PassedKeyDropsFix` state it |
| `Hook.BoundaryStep` | src/main.c:741-756 | a printable character that ends the token: try a correction with the boundary, and swallow the key when it succeeds; `Hook.BoundaryCorrects` states it |
| `Hook.NonTextStep` | src/main.c:757-765 | a key that types nothing: try a correction without boundary, then drop the fix and empty the token; `Hook.NonTextKeyDropsFix` states it |
| `Hook.StepKeepsInv` | src/main.c:655-769 | every event keeps the token within 64 word characters, the latch key 0 while disarmed, and LastFix well formed |
| `Hook.DownKeepsInv` | src/main.c:692-765 | every key-down keeps that invariant |
| `Hook.InjectedPassesThrough` | src/main.c:659-661 | injected events pass through and change nothing |
| `Hook.LatchSwallowsOnce` | src/main.c:663-667 | the armed latch consumes exactly one matching key-up and disarms; other key-ups pass through unchanged |
| `Hook.QuitChord` | src/main.c:673-682 | Ctrl+Alt+Shift+Q requests quitting and is consumed |
| `Hook.PauseToggles` | src/main.c:694-697 | Pause is consumed exactly when the toggle succeeds; the token and latch are unchanged |
| `Hook.TokenEditing` | src/main.c:707-740 | a word character is appended while the token has fewer than 64 characters, Backspace pops one if any, Escape empties; all invalidate LastFix and pass through |
| `Hook.PassedKeyDropsFix` | src/main.c:699-765 | every key-down that passes through, Pause and the quit chord aside, leaves LastFix inactive |
| `Hook.NonTextKeyDropsFix` | src/main.c:757-765 | a key that types nothing empties the token and leaves LastFix inactive, even after it triggered a correction |
| `Hook.BoundaryCorrects` | src/main.c:741-756 | a corrected printable boundary is consumed, empties the token, arms the latch with its vk and leaves an active fix with that boundary; otherwise it passes and empties the token |
| `Hook.Engine.constructor` | src/main.c:23-41 | the zero-initialised globals: empty token, disarmed latch, zero LastFix |
| `Hook.Engine.InvalidateLastFix` | src/main.c:338-341 | only the active flag is cleared |
| `Hook.Engine.ToggleLastFixIfPossible` | src/main.c:343-383 | updates LastFix and the action log as ToggleStep says, and returns its verdict |
| `Hook.Engine.TryAutocorrectToken` | src/main.c:385-486 | updates LastFix and the action log as TryStep says, and returns whether it corrected |
| `Hook.Engine.Record` | src/main.c:447-485 | the record and injection part of a correction, for a given verdict |
| `Hook.Engine.OnKeyEvent` | src/main.c:655-769 | the globals and log after one event are those of Step, the return value is Step's "consumed", and the invariant is kept |
| `Hook.Engine.OnKeyDown` | src/main.c:669-705 | the quit chord, Pause and Ctrl/Alt handling follow DownStep |
| `Hook.Engine.OnPlainKey` | src/main.c:707-765 | Backspace, Escape, word characters and the token end follow PlainStep, updating the token array in place |
| `Hook.Engine.OnBoundary` | src/main.c:741-756 | a printable boundary follows BoundaryStep |
| `Hook.Engine.DropLast` | src/main.c:709-712 | Backspace removes the token's last character, if any, and keeps the terminator after it |
| `Hook.Engine.AppendChar` | src/main.c:737-740 | a word character is appended while the token holds fewer than 64 characters, and dropped otherwise |
| `Hook.Engine.ClearToken` | src/main.c:718-719 | the token becomes empty and nothing else changes |
| `Hook.Engine.SwallowBoundary` | src/main.c:746-749 | after a correction the token is empty and the latch is armed with the boundary's vk, the record untouched |
| `Hook.Engine.OnNonTextKey` | src/main.c:757-765 | a key that types nothing follows NonTextStep |

## Left out

- Tray icon, menu, window procedure, startup, the single-instance mutex, hook
  installation and `tools/icon_gen.c`. These are user-interface and operating-system
  plumbing with no state the engine reads.
- `DebugPrintVkEvent` and the `OutputDebugStringW` trace in `TryAutocorrectToken`.
  They are diagnostics only.
- Calls with `nCode != HC_ACTION`. They go straight to `CallNextHookEx`.
- Whether a layout of the requested language is installed. `FindLayoutByPrimaryLang`
  may find none, in which case `RequestLayoutSwitch` does nothing. The model logs
  the request either way.
- Which window has the focus. `Replay` assumes a plain edit field with the caret at
  the end of the text.
  - Key order after the injected batch. On the non-text path (main.c:757-765) the
    key that ended the word is passed on through `CallNextHookEx` after
    `SendInput` has queued the batch. The model does not say which of them the
    field sees first. A key that moves the caret (an arrow, Home) could move it
    before the batch lands. So the `includeBoundary == false` half of
    `Fixes.TryReplaces` holds only for keys that do not move the caret.
- The CRT classifiers outside ASCII and the basic Cyrillic block (U+0400–U+045F).
  - `Conforming` says nothing about them there, beyond no digit in U+0400–U+052F
    and case mapping never producing NUL.
  - Properties that need more, such as the round trips, are stated for key
    characters only.
- UTF-16 surrogate halves. A Dafny `char` is a whole Unicode scalar value, and
  surrogates are never word characters.
- `Layout.MapRuToEn`, `Layout.MapEnToRu`: a NUL inside the input is mapped to NUL
  instead of ending the loop. `Decision.Decide` reads the output as a C string, so
  the decision is the same.
- `Fixes.ToggleReplaces`, `Fixes.ToggleTwiceRestores`, `Fixes.TryReplaces`,
  `Fixes.UndoRestoresTyping`: the document-text halves hold only when the
  replacement fits in 127 key pairs. This is up to 62 or 63 characters per word.
  Longer words are cut as `Injection.LongReplacementIsCut` shows.
- Floating-point rounding of the vowel ratios and of the constants 0.20, 0.15, 0.75
  and 0.80. The model compares exact ratios.
- `Scorer.ScoreEnglish`, `Scorer.ScoreRussian`: the contracts give the sentinels
  and bounds, not the full formula. The function bodies spell out the formula term
  by term, and the worked cases in `Decision` evaluate it.
