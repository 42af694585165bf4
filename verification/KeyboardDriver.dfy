/** The keyboard interrupt and the terminal's line buffer as they run. */
module KeyboardDriver {
  import opened Bytes
  import opened Keyboard

  class Driver {
    const keyState: array<bool>
    var capsLockRepeat: bool
    var multiByte: bool
    var terminalToSwitchTo: int
    const lineBuf: array<byte>
    var lineBufIndex: nat
    var readFlag: bool

    ghost predicate Valid()
      reads this, keyState, lineBuf
    {
      Shape(View())
    }

    ghost function View(): Keys
      reads this, keyState, lineBuf
    {
      Keys(keyState[..], capsLockRepeat, multiByte, terminalToSwitchTo, lineBuf[..], lineBufIndex, readFlag)
    }

    constructor ()
      ensures Valid() && fresh(keyState) && fresh(lineBuf)
      ensures View() == Keys(seq(KEYS, _ => false), false, false, -1, seq(LINE, _ => NUL), 0, false)
    {
      keyState := new bool[KEYS](_ => false);
      capsLockRepeat, multiByte, terminalToSwitchTo := false, false, -1;
      lineBuf := new byte[LINE](_ => NUL);
      lineBufIndex, readFlag := 0, false;
    }

    predicate ShiftPressed()
      reads this, keyState
      requires keyState.Length == KEYS
    {
      keyState[LEFT_SHIFT] || keyState[RIGHT_SHIFT]
    }

    predicate IsFuncKey()
      reads this, keyState
      requires keyState.Length == KEYS
      ensures IsFuncKey() <==> FuncDown(keyState[..])
    {
      var down := keyState[..];
      assert down[F1] || down[F1 + 1] || down[F1 + 2] || down[F1 + 3] || down[F1 + 4] || down[F1 + 5]
             || down[F1 + 6] || down[F1 + 7] || down[F1 + 8] || down[F1 + 9]
             <==> exists f: nat :: F1 <= f <= F10 && down[f];
      || keyState[F1] || keyState[F1 + 1] || keyState[F1 + 2] || keyState[F1 + 3] || keyState[F1 + 4]
      || keyState[F1 + 5] || keyState[F1 + 6] || keyState[F1 + 7] || keyState[F1 + 8] || keyState[F1 + 9]
      || keyState[F11] || keyState[F12]
    }

    /** One scancode from the keyboard. */
    method HandleKeypress(scancode: byte)
      requires Valid() && !Overflows(View(), scancode)
      modifies this, keyState, lineBuf
      ensures Valid() && View() == Handle(old(View()), scancode)
    {
      if scancode == MULTIBYTE {
        multiByte := true;
      } else if multiByte {
        multiByte := false;
      } else if 0 < scancode < F12 {
        Press(scancode);
      } else if RELEASE < scancode <= RELEASE + F12 {
        if scancode == RELEASE + CAPS_LOCK {
          capsLockRepeat := false;
        } else {
          keyState[scancode - RELEASE] := false;
        }
      }
    }

    method Press(scancode: byte)
      requires Valid() && 0 < scancode < F12 && !multiByte && !Overflows(View(), scancode)
      modifies this, keyState, lineBuf
      ensures Valid() && View() == Handle(old(View()), scancode)
    {
      hide HandleDisp, Keycode, Pressed;
      ghost var was := View();
      var disp := HandleDisp(Keycode(scancode), ShiftPressed(), keyState[CAPS_LOCK]);
      MarkPressed(scancode);
      if keyState[LEFT_ALT] && IsFuncKey() {
        if scancode == F1 {
          terminalToSwitchTo := 0;
        } else if scancode == F1 + 1 {
          terminalToSwitchTo := 1;
        } else if scancode == F1 + 2 {
          terminalToSwitchTo := 2;
        }
      } else if keyState[LEFT_CTRL] && scancode == KEY_L {
      } else if !readFlag {
        return;
      } else if keyState[ERASE] {
        EraseLast();
      } else if disp != NUL {
        Store(disp);
      }
    }

    method MarkPressed(scancode: byte)
      requires Valid() && 0 < scancode < F12
      modifies this`capsLockRepeat, keyState
      ensures View() == old(View()).(down := Pressed(old(View()), scancode),
                                     capsRepeat := old(capsLockRepeat) || scancode == CAPS_LOCK)
    {
      ghost var was := View();
      if scancode == CAPS_LOCK && !capsLockRepeat {
        keyState[scancode] := !keyState[scancode];
        capsLockRepeat := true;
      } else {
        keyState[scancode] := true;
      }
      assert keyState[..] == Pressed(was, scancode);
    }

    method EraseLast()
      requires Valid()
      modifies this`lineBufIndex, lineBuf
      ensures View() == Apply(old(View()), Pop)
    {
      if lineBufIndex > 0 {
        lineBufIndex := lineBufIndex - 1;
        lineBuf[lineBufIndex] := NUL;
      }
    }

    method Store(disp: byte)
      requires Valid() && !(disp == NEWLINE && lineBufIndex == LINE)
      modifies this`lineBufIndex, lineBuf
      ensures View() == Apply(old(View()), Append(disp))
    {
      if lineBufIndex < LINE - 1 {
        lineBuf[lineBufIndex] := disp;
        lineBufIndex := lineBufIndex + 1;
      } else if disp == NEWLINE {
        lineBuf[lineBufIndex] := disp;
        lineBufIndex := lineBufIndex + 1;
      }
    }

    method FindNewline(size: nat) returns (r: int)
      requires size <= lineBuf.Length
      ensures r == ContainsNewline(lineBuf[..], size)
    {
      var i := 0;
      while i < size
        invariant i <= size && NEWLINE !in lineBuf[..i]
      {
        if lineBuf[i] == NEWLINE {
          FirstNewline(lineBuf[..], size, i);
          return i;
        }
        i := i + 1;
      }
      return -1;
    }

    /** get_line_buf up to its wait for a newline, if the arguments make it wait. */
    method BeginRead(buf: array?<byte>, nbytes: int) returns (waits: bool)
      modifies this`readFlag
      ensures waits <==> buf != null && nbytes > 0
      ensures View() == if waits then old(View()).(reading := true) else old(View())
    {
      if nbytes <= 0 || buf == null { return false; }
      readFlag := true;
      return true;
    }

    method CopyLine(buf: array<byte>, limit: nat)
      requires buf != lineBuf && limit <= lineBuf.Length && limit <= buf.Length
      modifies buf
      ensures buf[..limit] == lineBuf[..limit]
      ensures forall j :: limit <= j < buf.Length ==> buf[j] == old(buf[j])
    {
      var i := 0;
      while i < limit
        invariant 0 <= i <= limit && buf[..i] == lineBuf[..i]
        invariant forall j :: i <= j < buf.Length ==> buf[j] == old(buf[j])
      {
        buf[i] := lineBuf[i];
        i := i + 1;
      }
    }

    method FinishRead()
      requires Valid()
      modifies this`lineBufIndex, this`readFlag, lineBuf
      ensures View() == Finished(old(View()))
    {
      ClearLineBuf();
      readFlag := false;
    }

    /** get_line_buf, once there is a newline if it has waited for one. buf holds one byte
        more than is returned. */
    method GetLineBuf(buf: array?<byte>, nbytes: int) returns (r: int)
      requires Valid() && buf != lineBuf
      requires buf != null && nbytes > 0 ==>
                 ContainsNewline(lineBuf[..], LINE) != -1 && Min(nbytes, LINE) < buf.Length
      modifies this`lineBufIndex, this`readFlag, lineBuf, buf
      ensures buf == null || nbytes <= 0 ==> r == -1 && View() == old(View())
      ensures buf != null && nbytes <= 0 ==> buf[..] == old(buf[..])
      ensures buf != null && nbytes > 0 ==>
                && r == |Returned(old(View()), nbytes)| <= Min(nbytes, LINE)
                && buf[..r] == Returned(old(View()), nbytes)
                && View() == Finished(old(View()))
                && buf[Min(nbytes, LINE)] == NEWLINE
                && forall j :: r <= j < buf.Length && j != Min(nbytes, LINE) ==> buf[j] == old(buf[j])
    {
      if nbytes <= 0 || buf == null { return -1; }
      var nl := FindNewline(LINE);
      var limit := Min(nl + 1, nbytes);
      CopyLine(buf, limit);
      buf[Min(nbytes, LINE)] := NEWLINE;
      FinishRead();
      return limit;
    }

    method ClearLineBuf()
      requires Valid()
      modifies this`lineBufIndex, lineBuf
      ensures Valid() && View() == Blank(old(View()))
      ensures lineBufIndex == 0 && forall j :: 0 <= j < LINE ==> lineBuf[j] == NUL
    {
      var i := 0;
      while i < LINE
        invariant i <= LINE && forall j :: 0 <= j < i ==> lineBuf[j] == NUL
        modifies lineBuf
      {
        lineBuf[i] := NUL;
        i := i + 1;
      }
      lineBufIndex := 0;
      assert lineBuf[..] == seq(LINE, _ => NUL);
    }
  }
}
