/** The low-level keyboard hook: a state machine over the token being typed, the
    key-up latch and the last fix. `Step` is its specification on values;
    `Engine` is the hook's global state, updated in place by `OnKeyEvent`. */
module Hook {
  import opened WCtype
  import opened Decision
  import opened Injection
  import opened Fixes

  /** Virtual-key codes the hook looks at (VK_BACK is Injection.VkBack). */
  const VkPause: nat := 0x13
  const VkEscape: nat := 0x1B
  const VkQ: nat := 0x51

  /** Only tokens of at least MinToken characters are offered for correction. */
  const MinToken: nat := 3

  datatype Option<T> = None | Some(value: T)

  /** WM_KEYDOWN or WM_SYSKEYDOWN, WM_KEYUP or WM_SYSKEYUP, anything else. */
  datatype Kind = Down | Up | Other

  /** One hook call with nCode == HC_ACTION. The modifier flags are what
      GetAsyncKeyState reports for Ctrl, Alt and Shift; `typed` is the character
      when ToUnicodeEx returns 1 in the foreground layout, and None otherwise;
      `now` is GetTickCount64. */
  datatype KeyEvent = KeyEvent(
    kind: Kind, injected: bool, vk: nat,
    ctrl: bool, alt: bool, shift: bool,
    typed: Option<char>, now: Tick)

  /** The hook's globals: g_token up to g_token_len, g_swallow_keyup,
      g_swallow_vk_keyup and g_last_fix. */
  datatype State = State(token: seq<char>, swallow: bool, swallowVk: nat, fix: Fix)

  /** The new state, what is asked of the system, and whether the event is
      swallowed (returns 1) rather than passed to CallNextHookEx. */
  datatype Outcome = Outcome(state: State, actions: seq<Action>, consumed: bool)

  const Initial := State([], false, 0, NoFix)

  /** What the hook maintains between events. */
  ghost predicate Inv(ct: Ctype, s: State)
  {
    |s.token| <= TokenMax
    && (forall i | 0 <= i < |s.token| :: IsWordChar(ct, s.token[i]))
    && (!s.swallow ==> s.swallowVk == 0)
    && WellFormed(s.fix)
  }

  /** main.c LowLevelKeyboardProc, for one event. */
  function Step(ct: Ctype, s: State, ev: KeyEvent): Outcome
  {
    if ev.injected then Outcome(s, [], false)
    else if s.swallow && ev.kind == Up && ev.vk == s.swallowVk then
      Outcome(s.(swallow := false, swallowVk := 0), [], true)
    else if ev.kind != Down then Outcome(s, [], false)
    else DownStep(ct, s, ev)
  }

  /** A key-down that is neither injected nor swallowed by the latch. */
  function DownStep(ct: Ctype, s: State, ev: KeyEvent): Outcome
  {
    if ev.vk == VkQ && ev.ctrl && ev.alt && ev.shift then Outcome(s, [Quit], true)
    else if ev.vk == VkPause then
      var t := ToggleStep(s.fix, ev.now);
      Outcome(s.(fix := t.fix), t.actions, t.handled)
    else if ev.ctrl || ev.alt then Outcome(s.(fix := Invalidate(s.fix)), [], false)
    else PlainStep(ct, s, ev)
  }

  /** A key-down without Ctrl or Alt that is neither Pause nor the quit chord. */
  function PlainStep(ct: Ctype, s: State, ev: KeyEvent): Outcome
  {
    if ev.vk == VkBack then
      Outcome(s.(fix := Invalidate(s.fix),
                 token := if |s.token| > 0 then s.token[..|s.token| - 1] else s.token), [], false)
    else if ev.vk == VkEscape then Outcome(s.(fix := Invalidate(s.fix), token := []), [], false)
    else match ev.typed
      case Some(ch) =>
        if IsWordChar(ct, ch) then
          Outcome(s.(fix := Invalidate(s.fix),
                     token := if |s.token| < TokenMax then s.token + [ch] else s.token), [], false)
        else BoundaryStep(ct, s, ch, ev.vk, ev.now)
      case None => NonTextStep(ct, s, ev.now)
  }

  /** A printable character that ends the token: when the token is corrected the
      keystroke is swallowed (the correction retypes it) and the latch is armed
      for its key-up. */
  function BoundaryStep(ct: Ctype, s: State, ch: char, vk: nat, now: Tick): Outcome
  {
    var a := if |s.token| >= MinToken then TryStep(ct, s.token, ch, true, now, s.fix)
             else Attempt(false, s.fix, []);
    if a.fixed then Outcome(State([], true, vk, a.fix), a.actions, true)
    else Outcome(s.(fix := Invalidate(s.fix), token := []), [], false)
  }

  /** A key that types nothing ends the token; a correction is still attempted
      (without boundary), and the fix is dropped in every case. */
  function NonTextStep(ct: Ctype, s: State, now: Tick): Outcome
  {
    var a := if |s.token| >= MinToken then TryStep(ct, s.token, '\0', false, now, s.fix)
             else Attempt(false, s.fix, []);
    Outcome(s.(fix := Invalidate(a.fix), token := []), a.actions, false)
  }

  /** Every event keeps the hook's invariant. */
  lemma StepKeepsInv(ct: Ctype, s: State, ev: KeyEvent)
    requires Conforming(ct) && Inv(ct, s)
    ensures Inv(ct, Step(ct, s, ev).state)
  {
    if !ev.injected && !(s.swallow && ev.kind == Up && ev.vk == s.swallowVk) && ev.kind == Down {
      DownKeepsInv(ct, s, ev);
    }
  }

  lemma DownKeepsInv(ct: Ctype, s: State, ev: KeyEvent)
    requires Conforming(ct) && Inv(ct, s)
    ensures Inv(ct, DownStep(ct, s, ev).state)
  {
    if !(ev.vk == VkQ && ev.ctrl && ev.alt && ev.shift) && ev.vk != VkPause && !ev.ctrl && !ev.alt {
      PlainKeepsInv(ct, s, ev);
    }
  }

  lemma PlainKeepsInv(ct: Ctype, s: State, ev: KeyEvent)
    requires Conforming(ct) && Inv(ct, s)
    ensures Inv(ct, PlainStep(ct, s, ev).state)
  {
    if ev.vk != VkBack && ev.vk != VkEscape {
      match ev.typed
      case Some(ch) =>
        if !IsWordChar(ct, ch) {
          BoundaryKeepsInv(ct, s, ch, ev.vk, ev.now);
        }
      case None =>
        NonTextKeepsInv(ct, s, ev.now);
    }
  }

  /** The token is made of word characters, none of which is the terminator. */
  lemma TokenNotNul(ct: Ctype, s: State)
    requires Conforming(ct) && Inv(ct, s)
    ensures '\0' !in s.token
  {
    forall i | 0 <= i < |s.token| ensures s.token[i] != '\0' {
      WordCharNotNul(ct, s.token[i]);
    }
  }

  lemma BoundaryKeepsInv(ct: Ctype, s: State, ch: char, vk: nat, now: Tick)
    requires Conforming(ct) && Inv(ct, s)
    ensures Inv(ct, BoundaryStep(ct, s, ch, vk, now).state)
  {
    if |s.token| >= MinToken {
      TokenNotNul(ct, s);
      TryKeepsWellFormed(ct, s.token, ch, true, now, s.fix);
    }
  }

  lemma NonTextKeepsInv(ct: Ctype, s: State, now: Tick)
    requires Conforming(ct) && Inv(ct, s)
    ensures Inv(ct, NonTextStep(ct, s, now).state)
  {
    if |s.token| >= MinToken {
      TokenNotNul(ct, s);
      TryKeepsWellFormed(ct, s.token, '\0', false, now, s.fix);
    }
  }

  /** Events injected by any program, this one included, pass through untouched. */
  lemma InjectedPassesThrough(ct: Ctype, s: State, ev: KeyEvent)
    requires ev.injected
    ensures Step(ct, s, ev) == Outcome(s, [], false)
  {
  }

  /** The armed latch swallows exactly one matching key-up and disarms; the same
      key-up again, and any other key-up, passes through with nothing changed. */
  lemma LatchSwallowsOnce(ct: Ctype, s: State, ev: KeyEvent)
    requires !ev.injected && ev.kind == Up
    ensures s.swallow && ev.vk == s.swallowVk ==>
              Step(ct, s, ev) == Outcome(s.(swallow := false, swallowVk := 0), [], true)
              && Step(ct, Step(ct, s, ev).state, ev) == Outcome(Step(ct, s, ev).state, [], false)
    ensures !(s.swallow && ev.vk == s.swallowVk) ==> Step(ct, s, ev) == Outcome(s, [], false)
  {
  }

  /** A key-down that the hook handles itself, rather than as Pause or as the
      emergency chord. */
  predicate Ordinary(s: State, ev: KeyEvent)
  {
    !ev.injected && ev.kind == Down && ev.vk != VkPause && !(ev.vk == VkQ && ev.ctrl && ev.alt && ev.shift)
  }

  /** Ctrl+Alt+Shift+Q asks to quit and is swallowed; nothing else changes. */
  lemma QuitChord(ct: Ctype, s: State, ev: KeyEvent)
    requires !ev.injected && ev.kind == Down && ev.vk == VkQ && ev.ctrl && ev.alt && ev.shift
    ensures Step(ct, s, ev) == Outcome(s, [Quit], true)
  {
  }

  /** Pause (without the quit chord) is handed to the toggle, which decides alone
      whether the key is swallowed; the token and the latch are left alone. */
  lemma PauseToggles(ct: Ctype, s: State, ev: KeyEvent)
    requires !ev.injected && ev.kind == Down && ev.vk == VkPause
    ensures var t := ToggleStep(s.fix, ev.now);
            Step(ct, s, ev) == Outcome(s.(fix := t.fix), t.actions, t.handled)
  {
  }

  /** The token editing keys: a word character is appended while the token has
      fewer than 64 characters, Backspace removes the last character if there is
      one, Escape empties the token; all of them drop the fix and pass through. */
  lemma TokenEditing(ct: Ctype, s: State, ev: KeyEvent)
    requires Ordinary(s, ev) && !ev.ctrl && !ev.alt
    ensures ev.vk == VkBack ==>
              Step(ct, s, ev) == Outcome(s.(fix := Invalidate(s.fix),
                token := if |s.token| > 0 then s.token[..|s.token| - 1] else []), [], false)
    ensures ev.vk == VkEscape ==>
              Step(ct, s, ev) == Outcome(s.(fix := Invalidate(s.fix), token := []), [], false)
    ensures ev.vk != VkBack && ev.vk != VkEscape && ev.typed.Some? && IsWordChar(ct, ev.typed.value) ==>
              Step(ct, s, ev) == Outcome(s.(fix := Invalidate(s.fix),
                token := if |s.token| < TokenMax then s.token + [ev.typed.value] else s.token), [], false)
  {
  }

  /** A key-down that the hook lets through, other than Pause, always leaves the
      fix inactive: Ctrl/Alt chords, word characters, Backspace, Escape, keys
      that type nothing, and boundaries that were not corrected. */
  lemma PassedKeyDropsFix(ct: Ctype, s: State, ev: KeyEvent)
    requires Ordinary(s, ev) && !Step(ct, s, ev).consumed
    ensures !Step(ct, s, ev).state.fix.active
  {
  }

  /** A key that types nothing never leaves a fix to undo, even right after it
      triggered a correction; the token is emptied and the correction's actions
      are the only ones issued. */
  lemma NonTextKeyDropsFix(ct: Ctype, s: State, ev: KeyEvent)
    requires Ordinary(s, ev) && !ev.ctrl && !ev.alt && ev.vk != VkBack && ev.vk != VkEscape
    requires ev.typed.None?
    ensures var o := Step(ct, s, ev);
            !o.state.fix.active && o.state.token == [] && !o.consumed
            && o.actions == (if |s.token| >= MinToken then TryStep(ct, s.token, '\0', false, ev.now, s.fix).actions else [])
  {
  }

  /** A printable boundary after a token of at least three characters that the
      decision corrects: the boundary keystroke is swallowed, the token emptied,
      the latch armed for that key's key-up, and the fix recorded as active with
      the boundary; otherwise the boundary passes and the token is emptied. */
  lemma BoundaryCorrects(ct: Ctype, s: State, ev: KeyEvent)
    requires Ordinary(s, ev) && !ev.ctrl && !ev.alt && ev.vk != VkBack && ev.vk != VkEscape
    requires ev.typed.Some? && !IsWordChar(ct, ev.typed.value)
    ensures var o := Step(ct, s, ev);
            var a := TryStep(ct, s.token, ev.typed.value, true, ev.now, s.fix);
            if |s.token| >= MinToken && a.fixed then
              o.consumed && o.state == State([], true, ev.vk, a.fix) && o.actions == a.actions
              && a.fix.active && a.fix.hadBoundary && a.fix.boundary == ev.typed.value
            else
              !o.consumed && o.state == s.(fix := Invalidate(s.fix), token := []) && o.actions == []
  {
  }

  /** The hook's globals, updated in place. */
  class Engine {
    const ct: Ctype
    const buf: array<char>    // g_token, TOKEN_MAX_CHARS + 1 characters
    var tokenLen: nat         // g_token_len
    var swallowKeyUp: bool    // g_swallow_keyup
    var swallowVk: nat        // g_swallow_vk_keyup
    var lastFix: Fix          // g_last_fix
    var log: seq<Action>      // what has been asked of the system so far

    ghost predicate Valid()
      reads this, buf
    {
      Conforming(ct) && Buffered() && Inv(ct, Abstract())
    }

    /** g_token holds g_token_len characters followed by the terminator. */
    predicate Buffered()
      reads this, buf
    {
      buf.Length == TokenMax + 1 && tokenLen <= TokenMax && buf[tokenLen] == '\0'
    }

    function Abstract(): State
      reads this, buf
      requires tokenLen <= buf.Length
    {
      State(buf[..tokenLen], swallowKeyUp, swallowVk, lastFix)
    }

    /** The zero-initialised globals. */
    constructor(ct: Ctype)
      requires Conforming(ct)
      ensures Valid() && fresh(buf)
      ensures Abstract() == Initial && log == []
    {
      this.ct := ct;
      buf := new char[TokenMax + 1](_ => '\0');
      tokenLen := 0;
      swallowKeyUp := false;
      swallowVk := 0;
      lastFix := NoFix;
      log := [];
    }

    /** main.c InvalidateLastFix. */
    method InvalidateLastFix()
      modifies this
      ensures lastFix == Invalidate(old(lastFix))
      ensures tokenLen == old(tokenLen) && swallowKeyUp == old(swallowKeyUp)
      ensures swallowVk == old(swallowVk) && log == old(log)
    {
      lastFix := lastFix.(active := false);
    }

    /** main.c ToggleLastFixIfPossible. */
    method ToggleLastFixIfPossible(now: Tick) returns (handled: bool)
      modifies this
      ensures var t := ToggleStep(old(lastFix), now);
              handled == t.handled && lastFix == t.fix && log == old(log) + t.actions
      ensures tokenLen == old(tokenLen) && swallowKeyUp == old(swallowKeyUp) && swallowVk == old(swallowVk)
    {
      if !lastFix.active {
        return false;
      }
      if Elapsed(now, lastFix.ts) > ToggleWindow {
        lastFix := lastFix.(active := false);
        return false;
      }
      if !lastFix.hadBoundary {
        lastFix := lastFix.(active := false);
        return false;
      }
      var want := !lastFix.correctedApplied;
      var target := Target(lastFix);
      var targetIsEnglish := if want then lastFix.toEnglish else !lastFix.toEnglish;
      var switch := [SwitchLayout(LangOf(targetIsEnglish))];
      log := log + switch;
      if |target| + 1 >= OutCapacity {
        lastFix := lastFix.(active := false);
        return false;
      }
      var batch := SendBackspacesAndText(|Current(lastFix)| + 1, target + [lastFix.boundary]);
      log := log + Send(batch);
      assert log == old(log) + (switch + Send(batch));
      lastFix := lastFix.(correctedApplied := want, ts := now);
      handled := true;
    }

    /** main.c TryAutocorrectToken on the token `token`. */
    method TryAutocorrectToken(token: seq<char>, boundary: char, includeBoundary: bool, now: Tick)
      returns (fixed: bool)
      modifies this
      ensures var a := TryStep(ct, token, boundary, includeBoundary, now, old(lastFix));
              fixed == a.fixed && lastFix == a.fix && log == old(log) + a.actions
      ensures tokenLen == old(tokenLen) && swallowKeyUp == old(swallowKeyUp) && swallowVk == old(swallowVk)
    {
      var v := Decide(ct, token);
      fixed := Record(v, token, boundary, includeBoundary, now);
    }

    /** The part of TryAutocorrectToken after the decision: on a correction,
        overwrite the record, request the layout and replace the token. */
    method Record(v: Verdict, token: seq<char>, boundary: char, includeBoundary: bool, now: Tick)
      returns (fixed: bool)
      modifies this
      ensures var a := Act(v, token, boundary, includeBoundary, now, old(lastFix));
              fixed == a.fixed && lastFix == a.fix && log == old(log) + a.actions
      ensures tokenLen == old(tokenLen) && swallowKeyUp == old(swallowKeyUp) && swallowVk == old(swallowVk)
    {
      if !(v.Scored? && v.corrects) {
        return false;
      }
      lastFix := Fix(true, now, token, v.mapped, boundary, includeBoundary, v.toEnglish, true);
      log := log + [SwitchLayout(LangOf(v.toEnglish))];
      var text := if includeBoundary && |v.mapped| + 1 < OutCapacity then v.mapped + [boundary] else v.mapped;
      var batch := SendBackspacesAndText(|token|, text);
      log := log + Send(batch);
      fixed := true;
    }

    /** main.c LowLevelKeyboardProc: returns whether the event is swallowed. */
    method OnKeyEvent(ev: KeyEvent) returns (consumed: bool)
      requires Valid()
      modifies this, buf
      ensures Valid()
      ensures var o := Step(ct, old(Abstract()), ev);
              Abstract() == o.state && log == old(log) + o.actions && consumed == o.consumed
    {
      StepKeepsInv(ct, Abstract(), ev);
      if ev.injected {
        return false;
      }
      if swallowKeyUp && ev.kind == Up && ev.vk == swallowVk {
        swallowKeyUp := false;
        swallowVk := 0;
        return true;
      }
      if ev.kind != Down {
        return false;
      }
      consumed := OnKeyDown(ev);
    }

    method OnKeyDown(ev: KeyEvent) returns (consumed: bool)
      requires Buffered()
      modifies this, buf
      ensures Buffered()
      ensures var o := DownStep(ct, old(Abstract()), ev);
              Abstract() == o.state && log == old(log) + o.actions && consumed == o.consumed
    {
      if ev.vk == VkQ && ev.ctrl && ev.alt && ev.shift {
        log := log + [Quit];
        return true;
      }
      if ev.vk == VkPause {
        consumed := ToggleLastFixIfPossible(ev.now);
        return;
      }
      if ev.ctrl || ev.alt {
        InvalidateLastFix();
        return false;
      }
      consumed := OnPlainKey(ev);
    }

    method OnPlainKey(ev: KeyEvent) returns (consumed: bool)
      requires Buffered()
      modifies this, buf
      ensures Buffered()
      ensures var o := PlainStep(ct, old(Abstract()), ev);
              Abstract() == o.state && log == old(log) + o.actions && consumed == o.consumed
    {
      if ev.vk == VkBack {
        InvalidateLastFix();
        DropLast();
        return false;
      }
      if ev.vk == VkEscape {
        InvalidateLastFix();
        ClearToken();
        return false;
      }
      match ev.typed {
        case Some(ch) =>
          if IsWordChar(ct, ch) {
            InvalidateLastFix();
            AppendChar(ch);
            consumed := false;
          } else {
            consumed := OnBoundary(ch, ev.vk, ev.now);
          }
        case None =>
          OnNonTextKey(ev.now);
          consumed := false;
      }
    }

    method OnBoundary(ch: char, vk: nat, now: Tick) returns (consumed: bool)
      requires Buffered()
      modifies this, buf
      ensures Buffered()
      ensures var o := BoundaryStep(ct, old(Abstract()), ch, vk, now);
              Abstract() == o.state && log == old(log) + o.actions && consumed == o.consumed
    {
      if tokenLen >= MinToken {
        var fixed := TryAutocorrectToken(buf[..tokenLen], ch, true, now);
        if fixed {
          SwallowBoundary(vk);
          return true;
        }
      }
      InvalidateLastFix();
      ClearToken();
      consumed := false;
    }

    /** After a correction: empty g_token and swallow the boundary's key-up. */
    method SwallowBoundary(vk: nat)
      requires Buffered()
      modifies this, buf
      ensures Buffered() && Abstract() == State([], true, vk, old(lastFix))
      ensures lastFix == old(lastFix) && log == old(log)
    {
      ClearToken();
      swallowVk := vk;
      swallowKeyUp := true;
    }

    /** Backspace: the token loses its last character, if it has one. */
    method DropLast()
      requires Buffered()
      modifies this, buf
      ensures Buffered()
      ensures Abstract() == old(Abstract()).(token := if old(tokenLen) > 0 then old(buf[..tokenLen - 1]) else [])
      ensures lastFix == old(lastFix) && log == old(log)
    {
      if tokenLen > 0 {
        tokenLen := tokenLen - 1;
        buf[tokenLen] := '\0';
      }
    }

    /** A word character joins the token while there is room for it. */
    method AppendChar(ch: char)
      requires Buffered()
      modifies this, buf
      ensures Buffered()
      ensures Abstract() == old(Abstract()).(token := if old(tokenLen) < TokenMax then old(buf[..tokenLen]) + [ch] else old(buf[..tokenLen]))
      ensures lastFix == old(lastFix) && log == old(log)
    {
      if tokenLen < TokenMax {
        buf[tokenLen] := ch;
        tokenLen := tokenLen + 1;
        buf[tokenLen] := '\0';
      }
    }

    /** Empties g_token. */
    method ClearToken()
      requires Buffered()
      modifies this, buf
      ensures Buffered() && Abstract() == old(Abstract()).(token := [])
      ensures lastFix == old(lastFix) && log == old(log)
    {
      tokenLen := 0;
      buf[0] := '\0';
    }

    method OnNonTextKey(now: Tick)
      requires Buffered()
      modifies this, buf
      ensures Buffered()
      ensures var o := NonTextStep(ct, old(Abstract()), now);
              Abstract() == o.state && log == old(log) + o.actions
    {
      if tokenLen >= MinToken {
        var _ := TryAutocorrectToken(buf[..tokenLen], '\0', false, now);
      }
      InvalidateLastFix();
      tokenLen := 0;
      buf[0] := '\0';
    }
  }
}
