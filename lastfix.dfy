/** The last correction, kept so that Pause can undo and redo it, and what a
    correction and a toggle write and inject. These are the specifications of
    Hook.Engine.TryAutocorrectToken and Hook.Engine.ToggleLastFixIfPossible. */
module Fixes {
  import opened WCtype
  import opened Scorer
  import opened Decision
  import opened Injection

  /** GetTickCount64 values: milliseconds in an unsigned 64-bit counter. */
  const TickModulus: int := 0x1_0000_0000_0000_0000
  type Tick = t: int | 0 <= t < TickModulus

  /** A fix may be toggled for 30 seconds after it was made or last toggled. */
  const ToggleWindow: int := 30000

  /** Size of the toggle's `out` buffer (TOKEN_MAX_CHARS + 2). */
  const OutCapacity: nat := TokenMax + 2

  /** main.c LastFix. The two length fields are the lengths of the two texts and
      are not stored apart. */
  datatype Fix = Fix(
    active: bool,
    ts: Tick,
    original: seq<char>,
    corrected: seq<char>,
    boundary: char,
    hadBoundary: bool,
    toEnglish: bool,          // the correction went from Russian to English
    correctedApplied: bool)   // the document now shows the corrected text

  /** The zero-initialised record. */
  const NoFix := Fix(false, 0, [], [], '\0', false, false, false)

  /** `now - ts` in unsigned 64-bit arithmetic. */
  function Elapsed(now: Tick, ts: Tick): (r: Tick)
    ensures now >= ts ==> r == now - ts
    ensures now < ts ==> r == now - ts + TickModulus
  {
    (now - ts) % TickModulus
  }

  /** main.c InvalidateLastFix: clears only the active flag. */
  function Invalidate(f: Fix): Fix
  {
    f.(active := false)
  }

  function LangOf(toEnglish: bool): Lang
  {
    if toEnglish then English else Russian
  }

  /** What a fix leaves in front of the caret: the text it shows, then the boundary. */
  function Shown(f: Fix): seq<char>
  {
    (if f.correctedApplied then f.corrected else f.original) + [f.boundary]
  }

  /** The text a toggle puts back, and the text it takes away. */
  function Target(f: Fix): seq<char>
  {
    if f.correctedApplied then f.original else f.corrected
  }

  function Current(f: Fix): seq<char>
  {
    if f.correctedApplied then f.corrected else f.original
  }

  /** A record as TryAutocorrectToken writes it: both texts fit the 65-character
      buffers and neither contains the terminator. */
  predicate WellFormed(f: Fix)
  {
    |f.original| <= TokenMax && |f.corrected| <= TokenMax
    && '\0' !in f.original && '\0' !in f.corrected
  }

  // ---------------------------------------------------------------- toggle

  datatype Toggle = Toggle(handled: bool, fix: Fix, actions: seq<Action>)

  /** main.c ToggleLastFixIfPossible. The layout switch is requested before the
      length check, so it is issued even when that check then gives up. */
  function ToggleStep(f: Fix, now: Tick): (r: Toggle)
    ensures r.handled ==> f.active && |r.actions| == 2 && r.actions[1].Inject?
    ensures !r.handled ==> |r.actions| <= 1
  {
    if !f.active then Toggle(false, f, [])
    else if Elapsed(now, f.ts) > ToggleWindow then Toggle(false, Invalidate(f), [])
    else if !f.hadBoundary then Toggle(false, Invalidate(f), [])
    else
      var want := !f.correctedApplied;
      var switch := [SwitchLayout(LangOf(if want then f.toEnglish else !f.toEnglish))];
      if |Target(f)| + 1 >= OutCapacity then Toggle(false, Invalidate(f), switch)
      else
        Toggle(true, f.(correctedApplied := want, ts := now),
               switch + Send(Batch(|Current(f)| + 1, Target(f) + [f.boundary])))
  }

  /** An inactive record, an expired window or a fix made without a boundary:
      the toggle declines, leaves the record inactive and otherwise unchanged,
      and asks nothing of the system. */
  lemma ToggleDeclines(f: Fix, now: Tick)
    requires !f.active || Elapsed(now, f.ts) > ToggleWindow || !f.hadBoundary
    ensures ToggleStep(f, now) == Toggle(false, Invalidate(f), [])
    ensures !f.active ==> ToggleStep(f, now).fix == f
  {
  }

  /** A well-formed record that is active, fresh and has a boundary is always
      toggled: the flag flips, the window restarts, the layout of the restored
      text is requested and one batch is injected. */
  lemma ToggleAccepts(f: Fix, now: Tick)
    requires WellFormed(f) && f.active && f.hadBoundary && Elapsed(now, f.ts) <= ToggleWindow
    ensures var r := ToggleStep(f, now);
            r.handled
            && r.fix == f.(correctedApplied := !f.correctedApplied, ts := now)
            && r.actions == [SwitchLayout(LangOf(f.toEnglish == r.fix.correctedApplied)),
                             Inject(Batch(|Current(f)| + 1, Target(f) + [f.boundary]))]
  {
    assert Batch(|Current(f)| + 1, Target(f) + [f.boundary]) != [];
  }

  /** A toggle replaces the shown text and boundary with the other text and the
      same boundary, provided the whole replacement fits in one batch. */
  lemma ToggleReplaces(f: Fix, now: Tick, doc: seq<char>)
    requires WellFormed(f) && f.boundary != '\0'
    requires |f.original| + |f.corrected| + 2 <= MaxPairs
    requires ToggleStep(f, now).handled
    ensures var r := ToggleStep(f, now);
            Replay(doc + Shown(f), r.actions[1].inputs) == doc + Shown(r.fix)
  {
    var text := Target(f) + [f.boundary];
    ToggleAccepts(f, now);
    BatchReplaces(doc + Shown(f), |Current(f)| + 1, text);
    assert (doc + Shown(f))[..|doc + Shown(f)| - (|Current(f)| + 1)] == doc;
  }

  /** Two toggles inside the window restore the record (up to its timestamp) and,
      when the replacement fits in one batch, the document text. */
  lemma ToggleTwiceRestores(f: Fix, t1: Tick, t2: Tick, doc: seq<char>)
    requires WellFormed(f) && ToggleStep(f, t1).handled
    requires Elapsed(t2, t1) <= ToggleWindow
    ensures var r1 := ToggleStep(f, t1);
            var r2 := ToggleStep(r1.fix, t2);
            r2.handled && r2.fix == f.(ts := t2)
    ensures f.boundary != '\0' && |f.original| + |f.corrected| + 2 <= MaxPairs ==>
            var r1 := ToggleStep(f, t1);
            var r2 := ToggleStep(r1.fix, t2);
            Replay(Replay(doc + Shown(f), r1.actions[1].inputs), r2.actions[1].inputs) == doc + Shown(f)
  {
    var r1 := ToggleStep(f, t1);
    ToggleAccepts(f, t1);
    ToggleAccepts(r1.fix, t2);
    if f.boundary != '\0' && |f.original| + |f.corrected| + 2 <= MaxPairs {
      ToggleReplaces(f, t1, doc);
      ToggleReplaces(r1.fix, t2, doc);
    }
  }

  // ------------------------------------------------------------ correction

  datatype Attempt = Attempt(fixed: bool, fix: Fix, actions: seq<Action>)

  /** What TryAutocorrectToken types after the backspaces: the mapped text, and
      the boundary when it is included and fits the buffer. */
  function Replacement(mapped: seq<char>, boundary: char, includeBoundary: bool): seq<char>
  {
    if includeBoundary && |mapped| + 1 < OutCapacity then mapped + [boundary] else mapped
  }

  /** main.c TryAutocorrectToken: on a correction the record is overwritten, the
      target layout is requested, and the token is replaced; otherwise nothing
      happens. */
  function TryStep(ct: Ctype, token: seq<char>, boundary: char, includeBoundary: bool, now: Tick, f: Fix): (r: Attempt)
    ensures !r.fixed ==> r.fix == f && r.actions == []
    ensures r.fixed ==> |r.actions| == 2 && r.actions[1].Inject?
  {
    Act(Decide(ct, token), token, boundary, includeBoundary, now, f)
  }

  /** What TryAutocorrectToken does with the decision's verdict. */
  function Act(v: Verdict, token: seq<char>, boundary: char, includeBoundary: bool, now: Tick, f: Fix): Attempt
  {
    if v.Scored? && v.corrects then
      Attempt(true, Fix(true, now, token, v.mapped, boundary, includeBoundary, v.toEnglish, true),
              [SwitchLayout(LangOf(v.toEnglish))] + Send(Batch(|token|, Replacement(v.mapped, boundary, includeBoundary))))
    else
      Attempt(false, f, [])
  }

  /** Tokens that are too short or too long, hold a digit or a letter of a third
      script, or hold no letter at all are never corrected, and the attempt
      leaves the record alone and asks nothing of the system. */
  lemma TryRefusesQuietly(ct: Ctype, token: seq<char>, boundary: char, includeBoundary: bool, now: Tick, f: Fix)
    requires !(3 <= |token| <= TokenMax
               && NoneOf(ct, token, UnknownLetter) && NoneOf(ct, token, Digit)
               && !(NoneOf(ct, token, ScriptLetter(Latin)) && NoneOf(ct, token, ScriptLetter(Cyrillic))))
    ensures TryStep(ct, token, boundary, includeBoundary, now, f) == Attempt(false, f, [])
  {
    DecideRejects(ct, token);
  }

  /** A correction overwrites the whole record, requests the layout of the
      corrected text, and injects one batch that erases the token and types the
      mapped text followed by the boundary when one was included. */
  lemma TryRecords(ct: Ctype, token: seq<char>, boundary: char, includeBoundary: bool, now: Tick, f: Fix)
    requires Conforming(ct) && '\0' !in token
    requires TryStep(ct, token, boundary, includeBoundary, now, f).fixed
    ensures var r := TryStep(ct, token, boundary, includeBoundary, now, f);
            var v := Decide(ct, token);
            var g := r.fix;
            v.Scored? && v.corrects
            && g.active && g.ts == now && g.original == token && g.corrected == v.mapped
            && g.boundary == boundary && g.hadBoundary == includeBoundary
            && g.toEnglish == v.toEnglish && g.correctedApplied
            && WellFormed(g) && |g.corrected| == |g.original|
            && r.actions == [SwitchLayout(LangOf(g.toEnglish)),
                             Inject(Batch(|token|, if includeBoundary then g.corrected + [boundary] else g.corrected))]
  {
    var v := Decide(ct, token);
    MappedKeepsLength(ct, token);
    ActRecords(v, token, boundary, includeBoundary, now, f);
  }

  /** An attempt on a token of the hook's buffer leaves a well-formed record. */
  lemma TryKeepsWellFormed(ct: Ctype, token: seq<char>, boundary: char, includeBoundary: bool, now: Tick, f: Fix)
    requires Conforming(ct) && '\0' !in token && WellFormed(f)
    ensures WellFormed(TryStep(ct, token, boundary, includeBoundary, now, f).fix)
  {
    if TryStep(ct, token, boundary, includeBoundary, now, f).fixed {
      TryRecords(ct, token, boundary, includeBoundary, now, f);
    }
  }

  lemma ActRecords(v: Verdict, token: seq<char>, boundary: char, includeBoundary: bool, now: Tick, f: Fix)
    requires v.Scored? && v.corrects && 3 <= |token| <= TokenMax && |v.mapped| == |token|
    ensures Act(v, token, boundary, includeBoundary, now, f).actions
              == [SwitchLayout(LangOf(v.toEnglish)),
                  Inject(Batch(|token|, if includeBoundary then v.mapped + [boundary] else v.mapped))]
  {
    BatchShape(|token|, Replacement(v.mapped, boundary, includeBoundary));
  }

  /** With a boundary that is not the terminator and a token of at most 63
      characters, the injected batch turns `doc + token` into the mapped text
      followed by the boundary when it was included, which is what the record
      says the document shows. */
  lemma TryReplaces(ct: Ctype, token: seq<char>, boundary: char, includeBoundary: bool, now: Tick, f: Fix, doc: seq<char>)
    requires Conforming(ct) && '\0' !in token && boundary != '\0' && |token| < TokenMax
    requires TryStep(ct, token, boundary, includeBoundary, now, f).fixed
    ensures var r := TryStep(ct, token, boundary, includeBoundary, now, f);
            Replay(doc + token, r.actions[1].inputs)
              == doc + (if includeBoundary then Shown(r.fix) else r.fix.corrected)
  {
    var r := TryStep(ct, token, boundary, includeBoundary, now, f);
    TryRecords(ct, token, boundary, includeBoundary, now, f);
    ReplaceWord(doc, token, if includeBoundary then r.fix.corrected + [boundary] else r.fix.corrected);
  }

  /** A batch that fits replaces the word just before the caret. */
  lemma ReplaceWord(doc: seq<char>, word: seq<char>, text: seq<char>)
    requires '\0' !in text && |word| + |text| <= MaxPairs
    ensures Replay(doc + word, Batch(|word|, text)) == doc + text
  {
    BatchReplaces(doc + word, |word|, text);
    assert (doc + word)[..|doc + word| - |word|] == doc;
  }

  /** Correcting a word of at most 62 characters at a printable boundary and then
      pressing Pause inside the window puts back exactly what was typed: the word
      and the boundary. */
  lemma UndoRestoresTyping(ct: Ctype, token: seq<char>, boundary: char, t0: Tick, t1: Tick, f: Fix, doc: seq<char>)
    requires Conforming(ct) && '\0' !in token && boundary != '\0' && 2 * |token| + 2 <= MaxPairs
    requires TryStep(ct, token, boundary, true, t0, f).fixed
    requires Elapsed(t1, t0) <= ToggleWindow
    ensures var r := TryStep(ct, token, boundary, true, t0, f);
            var u := ToggleStep(r.fix, t1);
            u.handled && !u.fix.correctedApplied
            && Replay(Replay(doc + token, r.actions[1].inputs), u.actions[1].inputs) == doc + token + [boundary]
  {
    var r := TryStep(ct, token, boundary, true, t0, f);
    TryRecords(ct, token, boundary, true, t0, f);
    var g := r.fix;
    assert g.original == token && g.boundary == boundary && g.ts == t0;
    assert r.actions[1].inputs == Batch(|g.original|, g.corrected + [g.boundary]);
    UndoFreshFix(g, r.actions[1].inputs, t1, doc);
  }

  /** The undo half of UndoRestoresTyping, for any freshly recorded fix whose
      batch typed the corrected text and the boundary over the original. */
  lemma UndoFreshFix(g: Fix, batch: seq<KeyInput>, t1: Tick, doc: seq<char>)
    requires WellFormed(g) && g.active && g.hadBoundary && g.correctedApplied && g.boundary != '\0'
    requires |g.corrected| == |g.original| && 2 * |g.original| + 2 <= MaxPairs
    requires batch == Batch(|g.original|, g.corrected + [g.boundary])
    requires Elapsed(t1, g.ts) <= ToggleWindow
    ensures var u := ToggleStep(g, t1);
            u.handled && !u.fix.correctedApplied
            && Replay(Replay(doc + g.original, batch), u.actions[1].inputs) == doc + g.original + [g.boundary]
  {
    ReplaceWord(doc, g.original, g.corrected + [g.boundary]);
    ToggleAccepts(g, t1);
    ToggleReplaces(g, t1, doc);
  }
}
