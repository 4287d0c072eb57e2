/** The keystrokes the engine injects to replace text, and what the engine asks
    of the system. SendInput, RequestLayoutSwitch and PostQuitMessage are not
    called: each becomes an `Action` that the engine appends to its output log. */
module Injection {
  import opened WCtype

  /** Virtual-key code of Backspace and the KEYBDINPUT flags the engine uses. */
  const VkBack: nat := 0x08
  const KeyUp: nat := 0x0002     // KEYEVENTF_KEYUP
  const Unicode: nat := 0x0004   // KEYEVENTF_UNICODE

  /** Room in SendBackspacesAndText's `inputs` array, and the key pairs that fit:
      a pair is added only while `count + 2 < 256`. */
  const InputCapacity: nat := 256
  const MaxPairs: nat := 127

  /** One keyboard INPUT record: wVk, wScan and dwFlags (time and dwExtraInfo are
      always 0). */
  datatype KeyInput = KeyInput(vk: nat, scan: char, flags: nat)

  const BackDown := KeyInput(VkBack, '\0', 0)
  const BackUp := KeyInput(VkBack, '\0', KeyUp)

  function CharDown(c: char): KeyInput { KeyInput(0, c, Unicode) }
  function CharUp(c: char): KeyInput { KeyInput(0, c, Unicode + KeyUp) }

  /** k Backspace presses, each a key-down followed by a key-up. */
  function BackspacePairs(k: nat): (r: seq<KeyInput>)
    ensures |r| == 2 * k
  {
    if k == 0 then [] else BackspacePairs(k - 1) + [BackDown, BackUp]
  }

  /** Each character of text typed as a Unicode key-down followed by a key-up. */
  function TextPairs(text: seq<char>): (r: seq<KeyInput>)
    ensures |r| == 2 * |text|
  {
    if text == [] then [] else TextPairs(text[..|text| - 1]) + [CharDown(text[|text| - 1]), CharUp(text[|text| - 1])]
  }

  /** What SendBackspacesAndText puts in its array: the backspaces first, then the
      C string text, both cut so that at most MaxPairs pairs are sent. */
  function Batch(backspaces: nat, text: seq<char>): seq<KeyInput>
  {
    var b := Min(backspaces, MaxPairs);
    var t := CString(text);
    BackspacePairs(b) + TextPairs(t[..Min(|t|, MaxPairs - b)])
  }

  /** The batch never exceeds MaxPairs pairs, starts with every backspace that fits,
      and then types the longest prefix of the C string that fits. */
  lemma BatchShape(backspaces: nat, text: seq<char>)
    ensures var r := Batch(backspaces, text);
            var b := Min(backspaces, MaxPairs);
            var t := CString(text);
            var m := Min(|t|, MaxPairs - b);
            |r| == 2 * (b + m) <= 2 * MaxPairs < InputCapacity
            && r[..2 * b] == BackspacePairs(b)
            && r[2 * b..] == TextPairs(t[..m])
            && (backspaces + |t| <= MaxPairs ==> b == backspaces && m == |t|)
  {
  }

  lemma AppendPair(b: nat, text: seq<char>, p: nat)
    requires p < |text|
    ensures BackspacePairs(b) + TextPairs(text[..p + 1])
         == BackspacePairs(b) + TextPairs(text[..p]) + [CharDown(text[p]), CharUp(text[p])]
  {
    assert text[..p + 1][..p] == text[..p];
  }

  /** Writes a key-down and its key-up at inputs[count] and inputs[count + 1]. */
  method PutPair(inputs: array<KeyInput>, count: nat, down: KeyInput, up: KeyInput)
    requires count + 2 <= inputs.Length
    modifies inputs
    ensures inputs[..count + 2] == old(inputs[..count]) + [down, up]
  {
    inputs[count] := down;
    inputs[count + 1] := up;
    assert inputs[..count + 2] == old(inputs[..count]) + [down, up];
  }

  /** main.c SendBackspacesAndText: fills a 256-entry INPUT array with a counter
      loop and returns what it would hand to SendInput. */
  method SendBackspacesAndText(backspaces: nat, text: seq<char>) returns (batch: seq<KeyInput>)
    ensures batch == Batch(backspaces, text)
  {
    var inputs := new KeyInput[InputCapacity](_ => KeyInput(0, '\0', 0));
    var count := 0;
    var i := 0;
    while i < backspaces && count + 2 < inputs.Length
      invariant i <= backspaces && i <= MaxPairs && count == 2 * i
      invariant inputs[..count] == BackspacePairs(i)
    {
      PutPair(inputs, count, BackDown, BackUp);
      count := count + 2;
      i := i + 1;
    }
    assert i == Min(backspaces, MaxPairs);
    var p := 0;
    while p < |text| && text[p] != '\0' && count + 2 < inputs.Length
      invariant p <= |text| && p <= MaxPairs - i && count == 2 * (i + p)
      invariant '\0' !in text[..p]
      invariant inputs[..count] == BackspacePairs(i) + TextPairs(text[..p])
    {
      PutPair(inputs, count, CharDown(text[p]), CharUp(text[p]));
      AppendPair(i, text, p);
      count := count + 2;
      p := p + 1;
    }
    batch := inputs[..count];
    BatchAfter(backspaces, text, i, p);
  }

  /** The batch once i backspace pairs and p characters of the C string went in. */
  lemma BatchAfter(backspaces: nat, text: seq<char>, i: nat, p: nat)
    requires i == Min(backspaces, MaxPairs) && p <= |text| && i + p <= MaxPairs
    requires '\0' !in text[..p]
    requires p == |text| || text[p] == '\0' || i + p == MaxPairs
    ensures Batch(backspaces, text) == BackspacePairs(i) + TextPairs(text[..p])
  {
    CStringScan(text, p);
    assert CString(text)[..p] == text[..p];
  }

  datatype Lang = English | Russian

  /** What the engine asks of the system: a layout switch request to the
      foreground window, a SendInput call, or leaving the message loop. */
  datatype Action = SwitchLayout(lang: Lang) | Inject(inputs: seq<KeyInput>) | Quit

  /** SendInput is called only when the batch is not empty. */
  function Send(batch: seq<KeyInput>): (r: seq<Action>)
    ensures |r| <= 1
    ensures r == [] <==> batch == []
    ensures r != [] ==> r[0] == Inject(batch)
  {
    if batch == [] then [] else [Inject(batch)]
  }

  /** The text of a focused edit field with the caret at its end, after one
      injected key: a Unicode key-down types its character, a Backspace key-down
      erases the last character, key-ups change nothing. */
  function Apply(doc: seq<char>, key: KeyInput): seq<char>
  {
    if key.flags == Unicode then doc + [key.scan]
    else if key.vk == VkBack && key.flags == 0 then (if doc == [] then [] else doc[..|doc| - 1])
    else doc
  }

  function Replay(doc: seq<char>, keys: seq<KeyInput>): seq<char>
    decreases |keys|
  {
    if keys == [] then doc else Replay(Apply(doc, keys[0]), keys[1..])
  }

  lemma {:induction false} ReplayAppend(doc: seq<char>, a: seq<KeyInput>, b: seq<KeyInput>)
    ensures Replay(doc, a + b) == Replay(Replay(doc, a), b)
    decreases |a|
  {
    if a != [] {
      assert (a + b)[0] == a[0] && (a + b)[1..] == a[1..] + b;
      ReplayAppend(Apply(doc, a[0]), a[1..], b);
    } else {
      assert a + b == b;
    }
  }

  lemma ReplayPair(doc: seq<char>, x: KeyInput, y: KeyInput)
    ensures Replay(doc, [x, y]) == Apply(Apply(doc, x), y)
  {
    assert [x, y][0] == x && [x, y][1..] == [y];
    assert [y][0] == y && [y][1..] == [];
    assert Replay(doc, [x, y]) == Replay(Apply(doc, x), [y]);
    assert Replay(Apply(doc, x), [y]) == Replay(Apply(Apply(doc, x), y), []);
  }

  /** k backspace pairs erase the last k characters. */
  lemma {:induction false} ReplayBackspaces(doc: seq<char>, k: nat)
    requires k <= |doc|
    ensures Replay(doc, BackspacePairs(k)) == doc[..|doc| - k]
  {
    if k > 0 {
      ReplayAppend(doc, BackspacePairs(k - 1), [BackDown, BackUp]);
      ReplayBackspaces(doc, k - 1);
      var d := doc[..|doc| - (k - 1)];
      ReplayPair(d, BackDown, BackUp);
      assert d[..|d| - 1] == doc[..|doc| - k];
    }
  }

  /** Typed pairs append the text. */
  lemma {:induction false} ReplayText(doc: seq<char>, text: seq<char>)
    ensures Replay(doc, TextPairs(text)) == doc + text
    decreases |text|
  {
    if text != [] {
      var c := text[|text| - 1];
      ReplayAppend(doc, TextPairs(text[..|text| - 1]), [CharDown(c), CharUp(c)]);
      ReplayText(doc, text[..|text| - 1]);
      ReplayPair(doc + text[..|text| - 1], CharDown(c), CharUp(c));
      assert doc + text[..|text| - 1] + [c] == doc + text;
    }
  }

  /** Whatever the lengths, a batch erases min(k, 127) characters and then types
      the part of the C string that still fits. */
  lemma BatchEffect(doc: seq<char>, k: nat, text: seq<char>)
    requires Min(k, MaxPairs) <= |doc|
    ensures var b := Min(k, MaxPairs);
            var t := CString(text);
            Replay(doc, Batch(k, text)) == doc[..|doc| - b] + t[..Min(|t|, MaxPairs - b)]
  {
    var b := Min(k, MaxPairs);
    var t := CString(text);
    var u := t[..Min(|t|, MaxPairs - b)];
    assert Batch(k, text) == BackspacePairs(b) + TextPairs(u);
    ReplayAppend(doc, BackspacePairs(b), TextPairs(u));
    ReplayBackspaces(doc, b);
    ReplayText(doc[..|doc| - b], u);
  }

  /** When k backspaces and the text fit in one batch, replaying the batch after
      the text `doc` replaces its last k characters by the text. */
  lemma BatchReplaces(doc: seq<char>, k: nat, text: seq<char>)
    requires k <= |doc| && '\0' !in text && k + |text| <= MaxPairs
    ensures Replay(doc, Batch(k, text)) == doc[..|doc| - k] + text
  {
    CStringNoNul(text);
    assert text[..|text|] == text;
    assert Batch(k, text) == BackspacePairs(k) + TextPairs(text);
    ReplayAppend(doc, BackspacePairs(k), TextPairs(text));
    ReplayBackspaces(doc, k);
    ReplayText(doc[..|doc| - k], text);
  }

  /** Replacing a 64-character word with a 64-character correction and a boundary
      needs 129 pairs: only the first 63 characters of the correction reach the
      document, and neither its last character nor the boundary do. */
  lemma LongReplacementIsCut(doc: seq<char>, word: seq<char>, mapped: seq<char>, boundary: char)
    requires |word| == 64 && |mapped| == 64 && '\0' !in mapped && boundary != '\0'
    ensures Replay(doc + word, Batch(|word|, mapped + [boundary])) == doc + mapped[..63]
  {
    var text := mapped + [boundary];
    CStringNoNul(text);
    BatchEffect(doc + word, 64, text);
    assert (doc + word)[..|doc + word| - 64] == doc;
    assert text[..63] == mapped[..63];
  }
}
