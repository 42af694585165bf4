/** The line discipline: scancodes in, one line of text out. */
module Keyboard {
  import opened Bytes

  const LINE: nat := 128
  const KEYS: nat := 89

  const ENTER: byte := 28
  const ERASE: byte := 14
  const LEFT_CTRL: byte := 29
  const KEY_L: byte := 38
  const LEFT_SHIFT: byte := 42
  const RIGHT_SHIFT: byte := 54
  const LEFT_ALT: byte := 56
  const CAPS_LOCK: byte := 58
  const F1: byte := 59
  const F10: byte := 68
  const F11: byte := 87
  const F12: byte := 88
  const RELEASE: nat := 0x80
  const MULTIBYTE: byte := 0xE0

  // -------------------------------------------------------------- the layout

  /** What each key types; 0 for the keys that type nothing. */
  function Keycode(scancode: byte): byte
    requires scancode < F12
  {
    if 2 <= scancode <= 13 then "1234567890-="[scancode - 2] as int
    else if scancode == ERASE then NEWLINE
    else if scancode == 15 then SPACE
    else if 16 <= scancode <= 27 then "qwertyuiop[]"[scancode - 16] as int
    else if scancode == ENTER then NEWLINE
    else if 30 <= scancode <= 41 then "asdfghjkl;'`"[scancode - 30] as int
    else if 43 <= scancode <= 53 then "\\zxcvbnm,./"[scancode - 43] as int
    else if scancode == 55 then '*' as int
    else if scancode == 57 then SPACE
    else NUL
  }

  predicate Letter(c: byte) {
    'a' as int <= c <= 'z' as int
  }

  function Shifted(c: byte): byte {
    if c == '1' as int then '!' as int
    else if c == '2' as int then '@' as int
    else if c == '3' as int then '#' as int
    else if c == '4' as int then '$' as int
    else if c == '5' as int then '%' as int
    else if c == '6' as int then '^' as int
    else if c == '7' as int then '&' as int
    else if c == '8' as int then '*' as int
    else if c == '9' as int then '(' as int
    else if c == '0' as int then ')' as int
    else if c == '`' as int then '~' as int
    else if c == '-' as int then '_' as int
    else if c == '=' as int then '+' as int
    else if c == ';' as int then ':' as int
    else if c == '\'' as int then '"' as int
    else if c == ',' as int then '<' as int
    else if c == '.' as int then '>' as int
    else if c == '/' as int then '?' as int
    else if c == '[' as int then '{' as int
    else if c == ']' as int then '}' as int
    else if c == '\\' as int then '|' as int
    else c
  }

  function HandleDisp(disp: byte, shift: bool, caps: bool): byte {
    if shift || (caps && Letter(disp)) then
      if Letter(disp) && !(caps && shift) then disp - 0x20 else Shifted(disp)
    else disp
  }

  /** A letter is upper case exactly if one of shift and caps lock is on, not both; caps
      lock changes nothing else. */
  lemma {:induction false} UpperIffOneOfBoth(c: byte, shift: bool, caps: bool)
    ensures Letter(c) ==> HandleDisp(c, shift, caps) == if shift != caps then c - 0x20 else c
    ensures !Letter(c) ==> HandleDisp(c, shift, caps) == if shift then Shifted(c) else c
    ensures HandleDisp(c, shift, caps) == NEWLINE <==> c == NEWLINE
    ensures HandleDisp(c, shift, caps) == NUL <==> c == NUL
  {
  }

  // ------------------------------------------------------------- one scancode

  /** The keyboard and the displayed terminal's line. */
  datatype Keys = Keys(down: seq<bool>, capsRepeat: bool, multiByte: bool, switchTo: int,
                       line: seq<byte>, index: nat, reading: bool)

  /** What a key press means for the line. */
  datatype Effect = Append(c: byte) | Pop | Nothing

  ghost predicate Shape(k: Keys) {
    |k.down| == KEYS && |k.line| == LINE && k.index <= LINE
  }

  function ShiftDown(down: seq<bool>): bool
    requires |down| == KEYS
  {
    down[LEFT_SHIFT] || down[RIGHT_SHIFT]
  }

  function FuncDown(down: seq<bool>): bool
    requires |down| == KEYS
  {
    (exists f: nat :: F1 <= f <= F10 && down[f]) || down[F11] || down[F12]
  }

  function Pressed(k: Keys, scancode: byte): (r: seq<bool>)
    requires Shape(k) && 0 < scancode < F12
    ensures |r| == KEYS
  {
    if scancode == CAPS_LOCK && !k.capsRepeat then k.down[scancode := !k.down[scancode]] else k.down[scancode := true]
  }

  /** The character is looked up before the key counts as down, everything else after. */
  function EffectOf(k: Keys, scancode: byte): Effect
    requires Shape(k) && 0 < scancode < F12
  {
    var disp := HandleDisp(Keycode(scancode), ShiftDown(k.down), k.down[CAPS_LOCK]);
    var down := Pressed(k, scancode);
    if down[LEFT_ALT] && FuncDown(down) then Nothing
    else if down[LEFT_CTRL] && scancode == KEY_L then Nothing
    else if !k.reading then Nothing
    else if down[ERASE] then Pop
    else if disp != NUL then Append(disp)
    else Nothing
  }

  /** An Enter on a line whose last byte is taken would be stored behind the buffer. */
  predicate Overflows(k: Keys, scancode: byte)
    requires Shape(k)
  {
    && !k.multiByte && 0 < scancode < F12
    && EffectOf(k, scancode) == Append(NEWLINE) && k.index == LINE
  }

  function Apply(k: Keys, e: Effect): (r: Keys)
    requires Shape(k) && !(e == Append(NEWLINE) && k.index == LINE)
    ensures Shape(r)
  {
    match e
    case Append(c) =>
      if k.index < LINE - 1 || c == NEWLINE then k.(line := k.line[k.index := c], index := k.index + 1) else k
    case Pop => if k.index > 0 then k.(line := k.line[k.index - 1 := NUL], index := k.index - 1) else k
    case Nothing => k
  }

  function SwitchOf(k: Keys, scancode: byte): int
    requires Shape(k) && 0 < scancode < F12
  {
    var down := Pressed(k, scancode);
    if down[LEFT_ALT] && FuncDown(down) && F1 <= scancode <= F1 + 2 then scancode - F1 else k.switchTo
  }

  function Handle(k: Keys, scancode: byte): (r: Keys)
    requires Shape(k) && !Overflows(k, scancode)
    ensures Shape(r)
  {
    if scancode == MULTIBYTE then k.(multiByte := true)
    else if k.multiByte then k.(multiByte := false)
    else if 0 < scancode < F12 then
      Apply(k, EffectOf(k, scancode)).(
        down := Pressed(k, scancode),
        capsRepeat := k.capsRepeat || scancode == CAPS_LOCK,
        switchTo := SwitchOf(k, scancode))
    else if RELEASE < scancode <= RELEASE + F12 then
      if scancode == RELEASE + CAPS_LOCK then k.(capsRepeat := false)
      else k.(down := k.down[scancode - RELEASE := false])
    else k
  }

  // ------------------------------------------------------------------ the line

  function Edit(text: seq<byte>, e: Effect): seq<byte> {
    match e
    case Append(c) => if |text| < LINE - 1 || c == NEWLINE then text + [c] else text
    case Pop => if text == [] then [] else text[..|text| - 1]
    case Nothing => text
  }

  function Typed(k: Keys): seq<byte>
    requires Shape(k)
  {
    k.line[..k.index]
  }

  /** Behind the text the buffer is clear. */
  ghost predicate Clear(k: Keys) {
    Shape(k) && forall i :: k.index <= i < LINE ==> k.line[i] == NUL
  }

  lemma {:induction false} ApplyEdits(k: Keys, e: Effect)
    requires Clear(k) && !(e == Append(NEWLINE) && k.index == LINE)
    ensures Clear(Apply(k, e)) && Typed(Apply(k, e)) == Edit(Typed(k), e)
  {
  }

  /** Any scancode edits the text by its effect, or leaves it alone. */
  lemma {:induction false} HandleEdits(k: Keys, scancode: byte)
    requires Clear(k) && !Overflows(k, scancode)
    ensures Clear(Handle(k, scancode))
    ensures Typed(Handle(k, scancode))
         == if !k.multiByte && 0 < scancode < F12 then Edit(Typed(k), EffectOf(k, scancode)) else Typed(k)
  {
    if scancode != MULTIBYTE && !k.multiByte && 0 < scancode < F12 { ApplyEdits(k, EffectOf(k, scancode)); }
  }

  /** The buffer is only ever full of a line that ends in a newline. */
  ghost predicate Bounded(k: Keys) {
    Clear(k) && (k.index == LINE ==> k.line[LINE - 1] == NEWLINE)
  }

  /** The index stays within the buffer, whatever is pressed, as long as no Enter comes
      while a full line is still waiting for its reader. */
  lemma {:induction false} IndexStaysInBuffer(k: Keys, scancode: byte)
    requires Bounded(k)
    ensures Overflows(k, scancode) ==> k.index == LINE && NEWLINE in Typed(k)
    ensures !Overflows(k, scancode) ==> Bounded(Handle(k, scancode))
  {
    if Overflows(k, scancode) {
      assert Typed(k)[LINE - 1] == NEWLINE;
    } else {
      HandleEdits(k, scancode);
    }
  }

  // ---------------------------------------------------- keys pressed and released

  datatype Action = Tap(key: byte) | HoldShift(right: bool) | ReleaseShift(right: bool) | CapsLock

  predicate Types(key: byte) {
    0 < key < F12 && (Keycode(key) != NUL)
  }

  predicate Tappable(a: Action) {
    a.Tap? ==> Types(a.key)
  }

  function Scancodes(a: Action): seq<byte>
    requires Tappable(a)
  {
    match a
    case Tap(key) => [key, key + RELEASE]
    case HoldShift(right) => [if right then RIGHT_SHIFT else LEFT_SHIFT]
    case ReleaseShift(right) => [RELEASE + if right then RIGHT_SHIFT else LEFT_SHIFT]
    case CapsLock => [CAPS_LOCK, RELEASE + CAPS_LOCK]
  }

  /** What a typist sees: the modifiers and the text. */
  datatype View = View(left: bool, right: bool, caps: bool, text: seq<byte>)

  function Character(key: byte, shift: bool, caps: bool): byte
    requires Types(key)
  {
    var c := Keycode(key);
    if Letter(c) then (if shift != caps then c - 0x20 else c) else if shift then Shifted(c) else c
  }

  function Act(v: View, a: Action): View
    requires Tappable(a)
  {
    match a
    case Tap(key) =>
      v.(text := Edit(v.text, if key == ERASE then Pop else Append(Character(key, v.left || v.right, v.caps))))
    case HoldShift(right) => if right then v.(right := true) else v.(left := true)
    case ReleaseShift(right) => if right then v.(right := false) else v.(left := false)
    case CapsLock => v.(caps := !v.caps)
  }

  /** Reading, with no key down but shift and caps lock. */
  ghost predicate Quiet(k: Keys) {
    && Clear(k) && k.reading && !k.multiByte && !k.capsRepeat
    && forall i :: 0 <= i < KEYS && i != LEFT_SHIFT && i != RIGHT_SHIFT && i != CAPS_LOCK ==> !k.down[i]
  }

  function ViewOf(k: Keys): View
    requires Shape(k)
  {
    View(k.down[LEFT_SHIFT], k.down[RIGHT_SHIFT], k.down[CAPS_LOCK], Typed(k))
  }

  predicate Safe(k: Keys, scancodes: seq<byte>)
    requires Shape(k)
    decreases |scancodes|
  {
    scancodes == [] || (!Overflows(k, scancodes[0]) && Safe(Handle(k, scancodes[0]), scancodes[1..]))
  }

  function HandleAll(k: Keys, scancodes: seq<byte>): (r: Keys)
    requires Shape(k) && Safe(k, scancodes)
    ensures Shape(r)
    decreases |scancodes|
  {
    if scancodes == [] then k else HandleAll(Handle(k, scancodes[0]), scancodes[1..])
  }

  lemma {:induction false} HandleAllAppend(k: Keys, first: seq<byte>, second: seq<byte>)
    requires Shape(k) && Safe(k, first) && Safe(HandleAll(k, first), second)
    ensures Safe(k, first + second) && HandleAll(k, first + second) == HandleAll(HandleAll(k, first), second)
    decreases |first|
  {
    if first == [] {
      assert first + second == second;
    } else {
      HandleAllAppend(Handle(k, first[0]), first[1..], second);
      assert (first + second)[1..] == first[1..] + second;
    }
  }

  /** No line is waiting: there is room for the next Enter. */
  ghost predicate Open(text: seq<byte>) {
    |text| < LINE && NEWLINE !in text
  }

  lemma {:induction false} TapEffect(k: Keys, key: byte)
    requires Quiet(k) && Types(key)
    ensures EffectOf(k, key)
         == if key == ERASE then Pop else Append(Character(key, ShiftDown(k.down), k.down[CAPS_LOCK]))
  {
    UpperIffOneOfBoth(Keycode(key), ShiftDown(k.down), k.down[CAPS_LOCK]);
    var down := Pressed(k, key);
    assert !down[LEFT_ALT] && !down[LEFT_CTRL] && (down[ERASE] <==> key == ERASE);
  }

  lemma {:induction false} TapStep(k: Keys, key: byte)
    requires Quiet(k) && Types(key) && Open(Typed(k))
    ensures Safe(k, Scancodes(Tap(key)))
    ensures Quiet(HandleAll(k, Scancodes(Tap(key))))
    ensures ViewOf(HandleAll(k, Scancodes(Tap(key)))) == Act(ViewOf(k), Tap(key))
  {
    TapEffect(k, key);
    HandleEdits(k, key);
    hide Character, Keycode;
    var k1 := Handle(k, key);
    HandleEdits(k1, key + RELEASE);
    var k2 := Handle(k1, key + RELEASE);
    assert Scancodes(Tap(key))[1..] == [key + RELEASE];
    assert HandleAll(k1, [key + RELEASE]) == k2 && Safe(k1, [key + RELEASE]);
    assert k2.down == k.down;
  }

  /** Modifiers are no letters: they only change the modifiers. */
  lemma {:induction false} HoldStep(k: Keys, scancode: byte)
    requires Quiet(k) && scancode in {LEFT_SHIFT, RIGHT_SHIFT, CAPS_LOCK}
    ensures Safe(k, [scancode]) && Typed(Handle(k, scancode)) == Typed(k) && Clear(Handle(k, scancode))
    ensures HandleAll(k, [scancode]) == Handle(k, scancode)
    ensures Handle(k, scancode) == k.(down := Pressed(k, scancode), capsRepeat := scancode == CAPS_LOCK)
  {
    var down := Pressed(k, scancode);
    assert !down[LEFT_ALT] && !down[LEFT_CTRL] && !down[ERASE];
    assert Keycode(scancode) == NUL;
    assert EffectOf(k, scancode) == Nothing;
    assert Handle(k, scancode).switchTo == k.switchTo;
    assert HandleAll(Handle(k, scancode), []) == Handle(k, scancode);
  }

  lemma {:induction false} ActionStep(k: Keys, a: Action)
    requires Quiet(k) && Open(Typed(k)) && Tappable(a)
    ensures Safe(k, Scancodes(a)) && Quiet(HandleAll(k, Scancodes(a)))
    ensures ViewOf(HandleAll(k, Scancodes(a))) == Act(ViewOf(k), a)
  {
    match a
    case Tap(key) => TapStep(k, key);
    case HoldShift(right) => HoldStep(k, if right then RIGHT_SHIFT else LEFT_SHIFT);
    case ReleaseShift(right) =>
      var scancode := Scancodes(a)[0];
      assert HandleAll(Handle(k, scancode), []) == Handle(k, scancode);
    case CapsLock =>
      HoldStep(k, CAPS_LOCK);
      var k1 := Handle(k, CAPS_LOCK);
      var k2 := Handle(k1, RELEASE + CAPS_LOCK);
      assert Scancodes(a)[1..] == [RELEASE + CAPS_LOCK];
      assert HandleAll(k1, [RELEASE + CAPS_LOCK]) == k2 && Safe(k1, [RELEASE + CAPS_LOCK]);
  }

  // ------------------------------------------------------------- a line at a time

  predicate NoEnter(a: Action) {
    Tappable(a) && a != Tap(ENTER)
  }

  predicate AllTappable(actions: seq<Action>) {
    forall i :: 0 <= i < |actions| ==> Tappable(actions[i])
  }

  predicate NoEnters(actions: seq<Action>) {
    forall i :: 0 <= i < |actions| ==> NoEnter(actions[i])
  }

  function AllScancodes(actions: seq<Action>): seq<byte>
    requires AllTappable(actions)
    decreases |actions|
  {
    if actions == [] then [] else Scancodes(actions[0]) + AllScancodes(actions[1..])
  }

  function ActAll(v: View, actions: seq<Action>): View
    requires AllTappable(actions)
    decreases |actions|
  {
    if actions == [] then v else ActAll(Act(v, actions[0]), actions[1..])
  }

  lemma {:induction false} StaysOpen(v: View, a: Action)
    requires Open(v.text) && NoEnter(a)
    ensures Open(Act(v, a).text)
  {
    if a.Tap? {
      TypesNoNewline(a.key, v.left || v.right, v.caps);
      hide Character;
    }
  }

  lemma {:induction false} TypesNoNewline(key: byte, shift: bool, caps: bool)
    requires Types(key) && key != ENTER
    ensures key != ERASE ==> Character(key, shift, caps) != NEWLINE
  {
    var c := Keycode(key);
    assert key != ERASE ==> c != NEWLINE;
    hide Keycode;
  }

  lemma {:induction false} TypingIsEditing(k: Keys, actions: seq<Action>)
    requires Quiet(k) && Open(Typed(k)) && NoEnters(actions)
    ensures AllTappable(actions)
    ensures var codes := AllScancodes(actions);
            && Safe(k, codes) && Quiet(HandleAll(k, codes))
            && ViewOf(HandleAll(k, codes)) == ActAll(ViewOf(k), actions) && Open(Typed(HandleAll(k, codes)))
    decreases |actions|
  {
    if actions != [] {
      assert NoEnter(actions[0]);
      ActionStep(k, actions[0]);
      StaysOpen(ViewOf(k), actions[0]);
      var k1 := HandleAll(k, Scancodes(actions[0]));
      TypingIsEditing(k1, actions[1..]);
      HandleAllAppend(k, Scancodes(actions[0]), AllScancodes(actions[1..]));
    }
  }

  /** Typing up to the first Enter leaves exactly the edited line and its newline, within
      the buffer. */
  lemma {:induction false} LineIsWhatWasTyped(k: Keys, actions: seq<Action>)
    requires Quiet(k) && k.index == 0 && NoEnters(actions)
    ensures AllTappable(actions)
    ensures var codes := AllScancodes(actions) + Scancodes(Tap(ENTER));
            && Safe(k, codes)
            && Typed(HandleAll(k, codes)) == ActAll(ViewOf(k), actions).text + [NEWLINE]
            && Quiet(HandleAll(k, codes)) && Open(ActAll(ViewOf(k), actions).text)
            && ViewOf(HandleAll(k, codes)) == Act(ActAll(ViewOf(k), actions), Tap(ENTER))
  {
    TypingIsEditing(k, actions);
    var k1 := HandleAll(k, AllScancodes(actions));
    ActionStep(k1, Tap(ENTER));
    HandleAllAppend(k, AllScancodes(actions), Scancodes(Tap(ENTER)));
  }

  // ------------------------------------------------- an Enter too many is possible

  const KEY_A: byte := 30

  function Taps(n: nat): (r: seq<Action>)
    ensures NoEnters(r)
  {
    seq(n, _ => Tap(KEY_A))
  }

  lemma {:induction false} TapsFill(v: View, n: nat)
    requires |v.text| + n <= LINE - 1
    ensures |ActAll(v, Taps(n)).text| == |v.text| + n
    decreases n
  {
    if n > 0 {
      assert Taps(n)[1..] == Taps(n - 1);
      TapsFill(Act(v, Tap(KEY_A)), n - 1);
    }
  }

  /** The keyboard after its initialisation, once a reader waits. */
  function Initial(): Keys {
    Keys(seq(KEYS, _ => false), false, false, -1, seq(LINE, _ => NUL), 0, true)
  }

  lemma {:induction false} InitialIsQuiet()
    ensures Quiet(Initial()) && Initial().index == 0
  {
  }

  /** From a cleared line, so from the start, 127 letters and an Enter fill the buffer; a
      second Enter before the reader comes is stored behind it. */
  lemma {:induction false} SecondEnterIsReached(k: Keys)
    requires Quiet(k) && k.index == 0
    ensures var codes := AllScancodes(Taps(LINE - 1)) + Scancodes(Tap(ENTER));
            Safe(k, codes) && Overflows(HandleAll(k, codes), ENTER)
  {
    var codes := AllScancodes(Taps(LINE - 1)) + Scancodes(Tap(ENTER));
    LineIsWhatWasTyped(k, Taps(LINE - 1));
    TapsFill(ViewOf(k), LINE - 1);
    var r := HandleAll(k, codes);
    assert |Typed(r)| == LINE;
    TapEffect(r, ENTER);
  }

  /** The first newline in the first size bytes, or -1. */
  function ContainsNewline(buf: seq<byte>, size: nat): (r: int)
    requires size <= |buf|
    ensures r == -1 <==> NEWLINE !in buf[..size]
    ensures r != -1 ==> 0 <= r < size && buf[r] == NEWLINE && NEWLINE !in buf[..r]
    decreases size
  {
    if size == 0 then -1
    else
      assert buf[..size] == buf[..size - 1] + [buf[size - 1]];
      var r := ContainsNewline(buf, size - 1);
      if r != -1 then r else if buf[size - 1] == NEWLINE then size - 1 else -1
  }

  lemma {:induction false} FirstNewline(buf: seq<byte>, size: nat, i: nat)
    requires i < size <= |buf| && buf[i] == NEWLINE && NEWLINE !in buf[..i]
    ensures ContainsNewline(buf, size) == i
    decreases size
  {
    if i < size - 1 { FirstNewline(buf, size - 1, i); }
  }

  function Blank(k: Keys): Keys
    requires Shape(k)
  {
    k.(line := seq(LINE, _ => NUL), index := 0)
  }

  /** What a reader gets once there is a line. */
  function Returned(k: Keys, nbytes: nat): seq<byte>
    requires Shape(k) && ContainsNewline(k.line, LINE) != -1
  {
    k.line[..Min(ContainsNewline(k.line, LINE) + 1, nbytes)]
  }

  /** The reader gets the typed line cut to the size it asked for. */
  lemma {:induction false} ReaderGetsTheLine(k: Keys, text: seq<byte>, nbytes: nat)
    requires Clear(k) && Open(text) && Typed(k) == text + [NEWLINE]
    ensures ContainsNewline(k.line, LINE) == |text|
    ensures Returned(k, nbytes) == (text + [NEWLINE])[..Min(|text| + 1, nbytes)]
  {
    assert k.line[|text|] == Typed(k)[|text|];
    assert k.line[..|text|] == Typed(k)[..|text|] && Typed(k)[..|text|] == text;
    FirstNewline(k.line, LINE, |text|);
    assert k.line[..|text| + 1] == Typed(k);
  }

  // ------------------------------------------------------------- line after line

  /** What a finished read leaves: no line, and nobody reading. */
  function Finished(k: Keys): Keys
    requires Shape(k)
  {
    Blank(k).(reading := false)
  }

  /** A read takes the whole line away, and nothing else. */
  lemma {:induction false} ReadClears(k: Keys)
    requires Shape(k)
    ensures var r := Finished(k);
            && Clear(r) && r.index == 0 && Typed(r) == [] && !r.reading && Bounded(r)
            && (forall i :: 0 <= i < LINE ==> r.line[i] == NUL)
            && r.down == k.down && r.capsRepeat == k.capsRepeat && r.multiByte == k.multiByte && r.switchTo == k.switchTo
            && (Quiet(k) ==> Quiet(r.(reading := true)))
  {
  }

  /** What is typed before the Enter, and how much of it the reader asks for. */
  datatype Line = Line(actions: seq<Action>, nbytes: nat)

  predicate AllTyped(lines: seq<Line>) {
    forall i :: 0 <= i < |lines| ==> NoEnters(lines[i].actions)
  }

  /** Typing one line up to its Enter. */
  function TypeLine(k: Keys, actions: seq<Action>): (r: Keys)
    requires Quiet(k) && k.index == 0 && NoEnters(actions)
    ensures Quiet(r) && ContainsNewline(r.line, LINE) != -1
  {
    LineIsWhatWasTyped(k, actions);
    var r := HandleAll(k, AllScancodes(actions) + Scancodes(Tap(ENTER)));
    ReaderGetsTheLine(r, ActAll(ViewOf(k), actions).text, 0);
    r
  }

  /** What the reads return: each line is typed, read, and reading turned on again. */
  function Reads(k: Keys, lines: seq<Line>): (r: seq<seq<byte>>)
    requires Quiet(k) && k.index == 0 && AllTyped(lines)
    ensures |r| == |lines|
    decreases |lines|
  {
    if lines == [] then []
    else
      assert NoEnters(lines[0].actions);
      var typed := TypeLine(k, lines[0].actions);
      ReadClears(typed);
      [Returned(typed, lines[0].nbytes)] + Reads(Finished(typed).(reading := true), lines[1..])
  }

  /** What a typist expects: every line as edited from an empty one, cut to its size, with
      only shift and caps lock carried over. */
  function EditedLines(v: View, lines: seq<Line>): (r: seq<seq<byte>>)
    requires AllTyped(lines)
    ensures |r| == |lines|
    decreases |lines|
  {
    if lines == [] then []
    else
      assert NoEnters(lines[0].actions);
      var after := ActAll(v.(text := []), lines[0].actions);
      var line := after.text + [NEWLINE];
      [line[..Min(|line|, lines[0].nbytes)]] + EditedLines(after, lines[1..])
  }

  lemma {:induction false} TextDropped(v: View, lines: seq<Line>)
    requires AllTyped(lines)
    ensures EditedLines(v, lines) == EditedLines(v.(text := []), lines)
  {
  }

  lemma {:induction false} NextLine(k: Keys, actions: seq<Action>)
    requires Quiet(k) && k.index == 0 && NoEnters(actions)
    ensures var next := Finished(TypeLine(k, actions)).(reading := true);
            && Quiet(next) && next.index == 0
            && ViewOf(next) == ActAll(ViewOf(k), actions).(text := [])
  {
    LineIsWhatWasTyped(k, actions);
    ReadClears(TypeLine(k, actions));
  }

  lemma {:induction false} FirstRead(k: Keys, actions: seq<Action>, nbytes: nat)
    requires Quiet(k) && k.index == 0 && NoEnters(actions)
    ensures var line := ActAll(ViewOf(k), actions).text + [NEWLINE];
            Returned(TypeLine(k, actions), nbytes) == line[..Min(|line|, nbytes)]
  {
    LineIsWhatWasTyped(k, actions);
    ReaderGetsTheLine(TypeLine(k, actions), ActAll(ViewOf(k), actions).text, nbytes);
  }

  /** Over any number of lines the i-th read returns exactly the i-th line as it was edited,
      cut to the size asked for: no line leaves anything behind for the next. */
  lemma {:induction false} EveryLineIsRead(k: Keys, lines: seq<Line>)
    requires Quiet(k) && k.index == 0 && AllTyped(lines)
    ensures Reads(k, lines) == EditedLines(ViewOf(k), lines)
    decreases |lines|
  {
    if lines != [] {
      var actions := lines[0].actions;
      assert NoEnters(actions) && AllTyped(lines[1..]);
      assert ViewOf(k) == ViewOf(k).(text := []);
      FirstRead(k, actions, lines[0].nbytes);
      NextLine(k, actions);
      var next := Finished(TypeLine(k, actions)).(reading := true);
      EveryLineIsRead(next, lines[1..]);
      TextDropped(ActAll(ViewOf(k), actions), lines[1..]);
    }
  }

  // ---------------------------------------------------------- the keys as engraved

  /** A row of neighbouring keys with what is engraved on them, below and above. */
  datatype Row = Row(first: byte, plain: string, shifted: string)

  const ROWS: seq<Row> := [Row(2, "1234567890-=", "!@#$%^&*()_+"), Row(16, "qwertyuiop[]", "QWERTYUIOP{}"),
                           Row(30, "asdfghjkl;'`", "ASDFGHJKL:\"~"), Row(43, "\\zxcvbnm,./", "|ZXCVBNM<>?"),
                           Row(57, " ", " "), Row(15, " ", " "), Row(55, "*", "*")]

  /** A key struck, with shift or without. */
  datatype Stroke = Stroke(row: nat, place: nat, shift: bool)

  predicate IsKey(s: Stroke) {
    s.row < |ROWS| && s.place < |ROWS[s.row].plain| && s.place < |ROWS[s.row].shifted|
  }

  function Engraved(s: Stroke): char
    requires IsKey(s)
  {
    if s.shift then ROWS[s.row].shifted[s.place] else ROWS[s.row].plain[s.place]
  }

  function KeyOf(s: Stroke): (key: nat)
    requires IsKey(s)
    ensures key < F12
  {
    ROWS[s.row].first + s.place
  }

  /** The i-th key of a row types what is engraved on it. */
  predicate TypesRight(row: Row, i: nat, shift: bool) {
    && i < |row.plain| && i < |row.shifted|
    && row.first + i < F12 && Types(row.first + i) && row.first + i != ENTER && row.first + i != ERASE
    && Character(row.first + i, shift, false) == if shift then row.shifted[i] as int else row.plain[i] as int
  }

  lemma {:induction false} DigitsTypeRight(i: nat, shift: bool)
    requires i < 12
    ensures TypesRight(ROWS[0], i, shift)
  {
  }

  lemma {:induction false} UpperRowTypesRight(i: nat, shift: bool)
    requires i < 12
    ensures TypesRight(ROWS[1], i, shift)
  {
  }

  lemma {:induction false} HomeRowTypesRight(i: nat, shift: bool)
    requires i < 12
    ensures TypesRight(ROWS[2], i, shift)
  {
  }

  lemma {:induction false} LowerRowTypesRight(i: nat, shift: bool)
    requires i < 11
    ensures TypesRight(ROWS[3], i, shift)
  {
  }

  lemma {:induction false} SingleKeysTypeRight(row: nat, shift: bool)
    requires 4 <= row < 7
    ensures TypesRight(ROWS[row], 0, shift)
  {
  }

  /** Every key types what is engraved on it. */
  lemma {:induction false} StrokeTypes(s: Stroke)
    requires IsKey(s)
    ensures Types(KeyOf(s)) && KeyOf(s) != ENTER && KeyOf(s) != ERASE
    ensures Character(KeyOf(s), s.shift, false) == Engraved(s) as int
  {
    hide Character, Keycode;
    if s.row == 0 { DigitsTypeRight(s.place, s.shift); }
    else if s.row == 1 { UpperRowTypesRight(s.place, s.shift); }
    else if s.row == 2 { HomeRowTypesRight(s.place, s.shift); }
    else if s.row == 3 { LowerRowTypesRight(s.place, s.shift); }
    else { SingleKeysTypeRight(s.row, s.shift); }
  }

  function Code(s: Stroke): byte
    requires IsKey(s)
  {
    StrokeTypes(s);
    Engraved(s) as int
  }

  predicate AllKeys(strokes: seq<Stroke>) {
    forall i :: 0 <= i < |strokes| ==> IsKey(strokes[i])
  }

  /** What stands on the keys that are struck. */
  function TextOf(strokes: seq<Stroke>): (text: seq<byte>)
    requires AllKeys(strokes)
    ensures |text| == |strokes|
    decreases |strokes|
  {
    if strokes == [] then [] else assert IsKey(strokes[0]); [Code(strokes[0])] + TextOf(strokes[1..])
  }

  function Struck(s: Stroke): (r: seq<Action>)
    requires IsKey(s)
    ensures NoEnters(r)
  {
    StrokeTypes(s);
    if s.shift then [HoldShift(false), Tap(KeyOf(s)), ReleaseShift(false)] else [Tap(KeyOf(s))]
  }

  function AllStruck(strokes: seq<Stroke>): (r: seq<Action>)
    requires AllKeys(strokes)
    ensures NoEnters(r)
    decreases |strokes|
  {
    if strokes == [] then [] else assert IsKey(strokes[0]); Struck(strokes[0]) + AllStruck(strokes[1..])
  }

  lemma {:induction false} ActAllAppend(v: View, a: seq<Action>, b: seq<Action>)
    requires NoEnters(a) && NoEnters(b)
    ensures AllTappable(a) && AllTappable(b) && AllTappable(a + b)
    ensures ActAll(v, a + b) == ActAll(ActAll(v, a), b)
    decreases |a|
  {
    if a == [] {
      assert a + b == b;
    } else {
      assert NoEnter(a[0]) && (a + b)[1..] == a[1..] + b;
      ActAllAppend(Act(v, a[0]), a[1..], b);
    }
  }

  /** No modifier is down. */
  function Bare(text: seq<byte>): View {
    View(false, false, false, text)
  }

  lemma {:induction false} StruckEdits(text: seq<byte>, s: Stroke)
    requires IsKey(s) && |text| < LINE - 1
    ensures AllTappable(Struck(s))
    ensures ActAll(Bare(text), Struck(s)) == Bare(text + [Code(s)])
  {
    StrokeTypes(s);
    var key := KeyOf(s);
    hide Character, Keycode, Engraved, Types, ActAll, KeyOf, IsKey;
    if s.shift {
      ActThree(Bare(text), HoldShift(false), Tap(key), ReleaseShift(false));
    } else {
      ActOne(Bare(text), Tap(key));
    }
  }

  lemma {:induction false} ActOne(v: View, a: Action)
    requires Tappable(a)
    ensures AllTappable([a]) && ActAll(v, [a]) == Act(v, a)
  {
    assert [a][1..] == [];
  }

  lemma {:induction false} ActThree(v: View, a: Action, b: Action, c: Action)
    requires Tappable(a) && Tappable(b) && Tappable(c)
    ensures AllTappable([a, b, c]) && ActAll(v, [a, b, c]) == Act(Act(Act(v, a), b), c)
  {
    hide Act, Tappable;
    assert [a, b, c][1..] == [b, c] && [b, c][1..] == [c];
    ActOne(Act(Act(v, a), b), c);
  }

  lemma {:induction false} Regroup(a: seq<byte>, b: seq<byte>, c: seq<byte>)
    ensures a + b + c == a + (b + c)
  {
  }

  lemma {:induction false} StrokesApart(strokes: seq<Stroke>)
    requires AllKeys(strokes) && strokes != []
    ensures IsKey(strokes[0]) && AllKeys(strokes[1..])
    ensures AllStruck(strokes) == Struck(strokes[0]) + AllStruck(strokes[1..])
    ensures TextOf(strokes) == [Code(strokes[0])] + TextOf(strokes[1..])
  {
  }

  lemma {:induction false} StrokesEdit(text: seq<byte>, strokes: seq<Stroke>)
    requires AllKeys(strokes) && |text| + |strokes| <= LINE - 1
    ensures AllTappable(AllStruck(strokes))
    ensures ActAll(Bare(text), AllStruck(strokes)) == Bare(text + TextOf(strokes))
    decreases |strokes|
  {
    if strokes == [] {
      assert text + [] == text;
    } else {
      hide *;
      var s, rest := strokes[0], strokes[1..];
      StrokesApart(strokes);
      StruckEdits(text, s);
      StrokesEdit(text + [Code(s)], rest);
      ActAllAppend(Bare(text), Struck(s), AllStruck(rest));
      Regroup(text, [Code(s)], TextOf(rest));
    }
  }

  /** A text that is typed on the keys it is engraved on comes back to the reader as itself. */
  lemma {:induction false} TextComesBack(k: Keys, strokes: seq<Stroke>, nbytes: nat)
    requires Quiet(k) && k.index == 0 && AllKeys(strokes) && |strokes| < LINE
    requires !ShiftDown(k.down) && !k.down[CAPS_LOCK]
    ensures var line := TextOf(strokes) + [NEWLINE];
            && AllTyped([Line(AllStruck(strokes), nbytes)])
            && Reads(k, [Line(AllStruck(strokes), nbytes)]) == [line[..Min(|line|, nbytes)]]
  {
    var actions := AllStruck(strokes);
    assert ViewOf(k) == Bare([]);
    StrokesEdit([], strokes);
    assert [] + TextOf(strokes) == TextOf(strokes);
    FirstRead(k, actions, nbytes);
    var lines := [Line(actions, nbytes)];
    assert lines[1..] == [];
    assert Reads(k, lines) == [Returned(TypeLine(k, actions), nbytes)] + Reads(Finished(TypeLine(k, actions)).(reading := true), lines[1..]);
  }

  /** Where a character stands in a row. */
  function PlaceOf(s: string, c: char): (i: nat)
    ensures i <= |s| && (i < |s| ==> s[i] == c)
    ensures i == |s| ==> c !in s
    decreases |s|
  {
    if s == [] || s[0] == c then 0 else 1 + PlaceOf(s[1..], c)
  }

  lemma {:induction false} EngravedIn(row: nat, shift: bool, c: char)
    requires row < |ROWS| && |ROWS[row].plain| == |ROWS[row].shifted|
    requires c in if shift then ROWS[row].shifted else ROWS[row].plain
    ensures exists s :: IsKey(s) && Engraved(s) == c
  {
    var s := Stroke(row, PlaceOf(if shift then ROWS[row].shifted else ROWS[row].plain, c), shift);
    assert IsKey(s) && Engraved(s) == c;
  }

  /** Every printable character is engraved on some key. */
  lemma {:induction false} EveryCharacterHasItsKey(c: char)
    requires ' ' <= c <= '~'
    ensures exists s :: IsKey(s) && Engraved(s) == c
  {
    if c in ROWS[0].plain { EngravedIn(0, false, c); }
    else if c in ROWS[0].shifted { EngravedIn(0, true, c); }
    else if c in ROWS[1].plain { EngravedIn(1, false, c); }
    else if c in ROWS[1].shifted { EngravedIn(1, true, c); }
    else if c in ROWS[2].plain { EngravedIn(2, false, c); }
    else if c in ROWS[2].shifted { EngravedIn(2, true, c); }
    else if c in ROWS[3].plain { EngravedIn(3, false, c); }
    else if c in ROWS[3].shifted { EngravedIn(3, true, c); }
    else { EngravedIn(4, false, c); }
  }

  // ----------------------------------------------------------------- keys held down

  function Held(n: nat): seq<byte> {
    seq(n, _ => CAPS_LOCK)
  }

  lemma {:induction false} CapsLockPress(k: Keys)
    requires Shape(k) && !k.multiByte && !k.down[LEFT_ALT]
    ensures !Overflows(k, CAPS_LOCK)
    ensures var r := Handle(k, CAPS_LOCK);
            && r.down == k.down[CAPS_LOCK := k.capsRepeat || !k.down[CAPS_LOCK]]
            && r.capsRepeat && !r.multiByte
  {
    assert Keycode(CAPS_LOCK) == NUL;
  }

  lemma {:induction false} RepeatedCapsLock(k: Keys, n: nat)
    requires Shape(k) && !k.multiByte && !k.down[LEFT_ALT] && k.capsRepeat
    ensures Safe(k, Held(n)) && HandleAll(k, Held(n)).capsRepeat && !HandleAll(k, Held(n)).multiByte
    ensures HandleAll(k, Held(n)).down == if n == 0 then k.down else k.down[CAPS_LOCK := true]
    decreases n
  {
    if n > 0 {
      CapsLockPress(k);
      assert Held(n)[1..] == Held(n - 1) && Held(n)[0] == CAPS_LOCK;
      RepeatedCapsLock(Handle(k, CAPS_LOCK), n - 1);
    }
  }

  /** Caps lock changes over once however long it is held, exactly if it was off or does not
      repeat: every repetition turns it on, whatever the first press did. */
  lemma {:induction false} HeldCapsLockTogglesIff(k: Keys, n: nat)
    requires Shape(k) && !k.multiByte && !k.down[LEFT_ALT] && !k.capsRepeat && n > 0
    ensures Safe(k, Held(n))
    ensures HandleAll(k, Held(n)).down[CAPS_LOCK] == !k.down[CAPS_LOCK] <==> n == 1 || !k.down[CAPS_LOCK]
  {
    CapsLockPress(k);
    assert Held(n)[1..] == Held(n - 1) && Held(n)[0] == CAPS_LOCK;
    RepeatedCapsLock(Handle(k, CAPS_LOCK), n - 1);
  }

  /** A prefixed scancode is skipped. */
  lemma {:induction false} PrefixedIsSkipped(k: Keys, scancode: byte)
    requires Shape(k) && !k.multiByte && scancode != MULTIBYTE
    ensures Safe(k, [MULTIBYTE, scancode]) && HandleAll(k, [MULTIBYTE, scancode]) == k
  {
    var m := Handle(k, MULTIBYTE);
    assert [MULTIBYTE, scancode][1..] == [scancode] && [scancode][1..] == [];
    assert HandleAll(m, [scancode]) == Handle(m, scancode);
    assert Safe(m, [scancode]);
  }

  /** While backspace is held every other key erases too; Ctrl-L and keys that nobody reads
      leave the line alone; so does a release. */
  lemma {:induction false} HeldKeysDecide(k: Keys, scancode: byte)
    requires Clear(k) && !k.multiByte && scancode != MULTIBYTE && !Overflows(k, scancode)
    ensures !k.reading || scancode >= RELEASE ==> Typed(Handle(k, scancode)) == Typed(k)
    ensures k.down[LEFT_CTRL] && scancode == KEY_L ==> Typed(Handle(k, scancode)) == Typed(k)
    ensures k.reading && !k.down[LEFT_ALT] && !k.down[LEFT_CTRL] && k.down[ERASE]
            && 0 < scancode < F12 && scancode != LEFT_ALT && scancode != LEFT_CTRL ==>
              Typed(Handle(k, scancode)) == Edit(Typed(k), Pop)
  {
    HandleEdits(k, scancode);
  }

  // ------------------------------------------------------------ asking for a terminal

  /** A terminal is asked for exactly by one of the first three function keys while Alt is
      held; no other scancode changes what was asked for, nor does this one touch the line. */
  lemma {:induction false} AltAsksForTerminal(k: Keys, scancode: byte)
    requires Shape(k) && !Overflows(k, scancode)
    ensures var asks := !k.multiByte && k.down[LEFT_ALT] && F1 <= scancode <= F1 + 2;
            && Handle(k, scancode).switchTo == (if asks then scancode - F1 else k.switchTo)
            && (asks ==> Typed(Handle(k, scancode)) == Typed(k))
  {
    if 0 < scancode < F12 {
      var down := Pressed(k, scancode);
      assert F1 <= scancode <= F1 + 2 ==> down[scancode] && down[LEFT_ALT] == k.down[LEFT_ALT];
    }
  }
}
