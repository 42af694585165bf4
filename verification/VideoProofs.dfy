/** Every terminal owns an independent screen and cursor: the kernel's shared, aliased
    video memory simulates one screen per terminal over every run. */
module VideoProofs {
  import opened Bytes
  import opened KernelState
  import opened ProcessProofs
  import S = Screen

  // ------------------------------------------------------------- memory slices

  lemma {:induction false} SpliceInside(mem: seq<byte>, base: nat, at: nat, data: seq<byte>)
    requires base <= at && at + |data| <= base + S.SCREEN_BYTES <= |mem|
    ensures Page(Splice(mem, at, data), base) == Splice(Page(mem, base), at - base, data)
  {
    forall k | 0 <= k < S.SCREEN_BYTES
      ensures Page(Splice(mem, at, data), base)[k] == Splice(Page(mem, base), at - base, data)[k]
    {
      SpliceAt(mem, at, data, base + k);
      SpliceAt(Page(mem, base), at - base, data, k);
    }
  }

  lemma {:induction false} SpliceOutside(mem: seq<byte>, base: nat, at: nat, data: seq<byte>)
    requires base + S.SCREEN_BYTES <= |mem| && at + |data| <= |mem|
    requires base + S.SCREEN_BYTES <= at || at + |data| <= base
    ensures Page(Splice(mem, at, data), base) == Page(mem, base)
  {
  }

  lemma {:induction false} SpliceWhole(cells: seq<byte>, data: seq<byte>)
    requires |cells| == |data|
    ensures Splice(cells, 0, data) == data
  {
  }

  lemma {:induction false} SpliceCell(cells: seq<byte>, cell: nat, c: byte)
    requires 2 * cell + 1 < |cells|
    ensures Splice(cells, 2 * cell, [c, S.ATTRIB]) == S.SetCell(cells, cell, c)
  {
  }

  // ------------------------------------------------------- screens and invariant

  function ScreenOf(k: Kernel, t: nat): S.Screen
    requires Shape(k) && t < |k.terms|
  {
    var (x, y) := CursorOf(k, t);
    S.Screen(Page(k.mem, Target(k, t)), x, y)
  }

  /** The running process's pages lead to its own terminal's output, and the processes
      that the scheduler may resume have a vidmap page only if it will be remapped. */
  ghost predicate MapOk(k: Kernel)
    requires Shape(k)
  {
    && k.cr3 == k.runningPid
    && k.video[k.runningPid] == Target(k, k.schedule)
    && (k.user[k.runningPid].Some? ==> k.user[k.runningPid].value == Target(k, k.schedule))
    && UserPagesOk(k)
  }

  /** A process that waits for a child still has its VIDEO page on the display: it started
      the child there, and only running processes are remapped. */
  ghost predicate ParentsOk(k: Kernel)
    requires Shape(k)
  {
    forall p :: 0 <= p < NUM_PROC && p in k.live && k.pcbs[p].child.Some? ==> k.video[p] == 0
  }

  ghost predicate Inv(k: Kernel) {
    ProcInv(k) && CursorsOk(k) && MapOk(k) && ParentsOk(k)
  }

  /** Only terminal t's screen differs, and it is s. */
  ghost predicate OnlyScreen(k: Kernel, r: Kernel, t: nat, s: S.Screen)
    requires Shape(k) && Shape(r) && |k.terms| == |r.terms| && t < |k.terms|
  {
    && ScreenOf(r, t) == s
    && forall u :: 0 <= u < |k.terms| && u != t ==> ScreenOf(r, u) == ScreenOf(k, u)
  }

  /** The steps of a write change memory and cursors, nothing else. */
  ghost predicate SameBut(k: Kernel, r: Kernel) {
    && Shape(k) && Shape(r) && |k.terms| == |r.terms|
    && r == k.(mem := r.mem, x := r.x, y := r.y, terms := r.terms)
    && forall u :: 0 <= u < |k.terms| ==> r.terms[u] == k.terms[u].(x := r.terms[u].x, y := r.terms[u].y)
  }

  lemma {:induction false} SameButKeeps(k: Kernel, r: Kernel)
    requires Inv(k) && SameBut(k, r) && CursorsOk(r)
    ensures Inv(r)
  {
  }

  /** All that printing relies on: the running process sees its terminal's screen. */
  ghost predicate Sees(k: Kernel) {
    Shape(k) && CursorsOk(k) && VideoPage(k) == Target(k, k.schedule)
  }

  /** From k to r the running terminal's screen becomes s; all else that matters stays. */
  ghost predicate Shown(k: Kernel, r: Kernel, s: S.Screen)
    requires Shape(k)
  {
    Sees(r) && SameBut(k, r) && OnlyScreen(k, r, k.schedule, s)
  }

  // ------------------------------------------------------------------ putc

  lemma {:induction false} SpliceSim(k: Kernel, offset: nat, data: seq<byte>)
    requires Sees(k) && offset + |data| <= S.SCREEN_BYTES
    ensures var at := Target(k, k.schedule);
      && at + S.SCREEN_BYTES <= |k.mem|
      && Shown(k, k.(mem := Splice(k.mem, at + offset, data)),
               ScreenOf(k, k.schedule).(cells := Splice(Page(k.mem, at), offset, data)))
  {
    hide Splice, Page;
    var t := k.schedule;
    var at := Target(k, t);
    var r := k.(mem := Splice(k.mem, at + offset, data));
    SpliceInside(k.mem, at, at + offset, data);
    forall u | 0 <= u < |k.terms| && u != t ensures ScreenOf(r, u) == ScreenOf(k, u) {
      SpliceOutside(k.mem, Target(k, u), at + offset, data);
    }
  }

  lemma {:induction false} StoreSim(k: Kernel, x: nat, y: nat, c: byte)
    requires Sees(k) && OnScreen(x, y)
    ensures var s := ScreenOf(k, k.schedule);
      var cell := S.COLS * y + x;
      Shown(k, StoreCell(k, Target(k, k.schedule) + 2 * cell, c), s.(cells := S.SetCell(s.cells, cell, c)))
  {
    var cell, at := S.COLS * y + x, Target(k, k.schedule);
    SpliceSim(k, 2 * cell, [c, S.ATTRIB]);
    SpliceCell(Page(k.mem, at), cell, c);
    assert StoreCell(k, at + 2 * cell, c) == k.(mem := Splice(k.mem, at + 2 * cell, [c, S.ATTRIB]));
    hide Shown, Splice, Page, StoreCell, Target, S.SetCell;
  }

  lemma {:induction false} ScrollSim(k: Kernel)
    requires Sees(k)
    ensures var s := ScreenOf(k, k.schedule);
      Shown(k, ScrollVideo(k), s.(cells := S.ScrollUp(s.cells)))
  {
    var cells := Page(k.mem, Target(k, k.schedule));
    SpliceSim(k, 0, S.ScrollUp(cells));
    SpliceWhole(cells, S.ScrollUp(cells));
  }

  lemma {:induction false} CursorSim(k: Kernel, x: int, y: int)
    requires Sees(k) && OnScreen(x, y)
    ensures Shown(k, SetCursor(k, k.schedule, x, y), ScreenOf(k, k.schedule).(x := x, y := y))
  {
  }

  lemma {:induction false} Same(k: Kernel, r: Kernel, r': Kernel, s: S.Screen, s': S.Screen)
    requires r == r' && s == s' && Shape(k) && Shown(k, r', s')
    ensures Shown(k, r, s)
  {
  }

  lemma {:induction false} Twice(k: Kernel, m: Kernel, r: Kernel, s: S.Screen, s': S.Screen)
    requires Shape(k) && Shown(k, m, s) && Shown(m, r, s')
    ensures Shown(k, r, s')
  {
  }

  lemma {:induction false} StepBackSim(k: Kernel)
    requires Sees(k) && !Underflows(k, k.schedule, BACKSPACE)
    ensures var s := ScreenOf(k, k.schedule);
      var (px, py) := S.Back(s.x, s.y);
      Shown(k, StepBack(k, k.schedule, s.x, s.y), s.(x := px, y := py))
  {
    var s := ScreenOf(k, k.schedule);
    var (px, py) := S.Back(s.x, s.y);
    CursorSim(k, px, py);
    StepBackCases(k, s.x, s.y);
    if s.x == 0 && s.y == 0 { NothingShown(k); }
    hide StepBack, SetCursor, Shown;
  }

  lemma {:induction false} NothingShown(k: Kernel)
    requires Sees(k)
    ensures Shown(k, k, ScreenOf(k, k.schedule))
  {
  }

  /** In the top left corner a displayed cursor stays, as 65535 is off the screen. */
  lemma {:induction false} StepBackCases(k: Kernel, x: nat, y: nat)
    requires Shape(k) && CursorsFit(k) && OnScreen(x, y)
    ensures var (px, py) := S.Back(x, y);
      if x == 0 && y == 0 then k.schedule == k.current ==> StepBack(k, k.schedule, x, y) == k
      else StepBack(k, k.schedule, x, y) == SetCursor(k, k.schedule, px, py)
  {
    if x > 0 { assert Wrap16(x - 1) == x - 1; }
  }

  lemma {:induction false} BlankIsStore(k: Kernel)
    requires Sees(k)
    ensures var (x, y) := CursorOf(k, k.schedule);
      BlankCell(k, k.schedule) == StoreCell(k, Target(k, k.schedule) + 2 * (S.COLS * y + x), SPACE)
  {
  }

  lemma {:induction false} BlankSim(k: Kernel)
    requires Sees(k)
    ensures var s := ScreenOf(k, k.schedule);
      Shown(k, BlankCell(k, k.schedule), s.(cells := S.SetCell(s.cells, S.COLS * s.y + s.x, SPACE)))
  {
    hide Shown, BlankCell, StoreCell;
    var s := ScreenOf(k, k.schedule);
    BlankIsStore(k);
    StoreSim(k, s.x, s.y, SPACE);
  }

  lemma {:induction false} EraseSim(k: Kernel)
    requires Sees(k) && !Underflows(k, k.schedule, BACKSPACE)
    ensures var s := ScreenOf(k, k.schedule);
      Shown(k, Erase(k, k.schedule, s.x, s.y), S.Putc(s, BACKSPACE))
  {
    var t := k.schedule;
    var s := ScreenOf(k, t);
    var (px, py) := S.Back(s.x, s.y);
    var back := StepBack(k, t, s.x, s.y);
    StepBackSim(k);
    BlankSim(back);
    Twice(k, back, BlankCell(back, t), s.(x := px, y := py), S.Putc(s, BACKSPACE));
  }

  function Advanced(s: S.Screen): S.Screen
    requires s.Valid()
  {
    if s.x + 1 < S.COLS then s.(x := s.x + 1)
    else if s.y + 1 < S.ROWS then s.(x := 0, y := s.y + 1)
    else S.Screen(S.ScrollUp(s.cells), 0, s.y)
  }

  lemma {:induction false} AdvanceCases(k: Kernel, t: nat, x: nat, y: nat)
    requires Shape(k) && CursorsFit(k) && t < |k.terms| && OnScreen(x, y)
    ensures Advance(k, t, x, y)
      == if x + 1 < S.COLS then SetCursor(k, t, x + 1, y)
         else if y == S.ROWS - 1 then SetCursor(ScrollVideo(k), t, 0, y)
         else SetCursor(k, t, 0, y + 1)
  {
    assert (x + 1) / S.COLS == if x + 1 < S.COLS then 0 else 1;
  }

  lemma {:induction false} AdvanceSim(k: Kernel)
    requires Sees(k)
    ensures var s := ScreenOf(k, k.schedule);
      Shown(k, Advance(k, k.schedule, s.x, s.y), Advanced(s))
  {
    var t := k.schedule;
    var s := ScreenOf(k, t);
    var r := Advance(k, t, s.x, s.y);
    AdvanceCases(k, t, s.x, s.y);
    hide Advance, SetCursor, ScrollVideo, Shown;
    if s.x + 1 < S.COLS {
      CursorSim(k, s.x + 1, s.y);
      Same(k, r, SetCursor(k, t, s.x + 1, s.y), Advanced(s), s.(x := s.x + 1, y := s.y));
    } else if s.y == S.ROWS - 1 {
      ScrollThenHome(k);
      Same(k, r, SetCursor(ScrollVideo(k), t, 0, s.y), Advanced(s), S.Screen(S.ScrollUp(s.cells), 0, s.y));
    } else {
      CursorSim(k, 0, s.y + 1);
      Same(k, r, SetCursor(k, t, 0, s.y + 1), Advanced(s), s.(x := 0, y := s.y + 1));
    }
  }

  lemma {:induction false} ScrollThenHome(k: Kernel)
    requires Sees(k)
    ensures var s := ScreenOf(k, k.schedule);
      Shown(k, SetCursor(ScrollVideo(k), k.schedule, 0, s.y), S.Screen(S.ScrollUp(s.cells), 0, s.y))
  {
    var s := ScreenOf(k, k.schedule);
    var up := ScrollVideo(k);
    ScrollSim(k);
    CursorSim(up, 0, s.y);
    Twice(k, up, SetCursor(up, k.schedule, 0, s.y), s.(cells := S.ScrollUp(s.cells)),
          S.Screen(S.ScrollUp(s.cells), 0, s.y));
  }

  /** The character put under the cursor. */
  function Stored(s: S.Screen, c: byte): (r: S.Screen)
    requires s.Valid()
    ensures r.Valid() && r.x == s.x && r.y == s.y
  {
    s.(cells := S.SetCell(s.cells, S.COLS * s.y + s.x, c))
  }

  lemma {:induction false} StoreCharIsStore(k: Kernel, x: nat, y: nat, c: byte)
    requires Sees(k) && OnScreen(x, y)
    ensures StoreChar(k, k.schedule, x, y, c) == StoreCell(k, Target(k, k.schedule) + 2 * (S.COLS * y + x), c)
  {
  }

  lemma {:induction false} StoreCharSim(k: Kernel, c: byte)
    requires Sees(k)
    ensures var s := ScreenOf(k, k.schedule);
      Shown(k, StoreChar(k, k.schedule, s.x, s.y, c), Stored(s, c))
  {
    hide Shown, StoreChar, StoreCell;
    var s := ScreenOf(k, k.schedule);
    var m := StoreCell(k, Target(k, k.schedule) + 2 * (S.COLS * s.y + s.x), c);
    StoreCharIsStore(k, s.x, s.y, c);
    StoreSim(k, s.x, s.y, c);
    Same(k, StoreChar(k, k.schedule, s.x, s.y, c), m,
         Stored(s, c), s.(cells := S.SetCell(s.cells, S.COLS * s.y + s.x, c)));
  }

  lemma {:induction false} PrintIsAdvanced(s: S.Screen, c: byte)
    requires s.Valid()
    ensures S.Print(s, c) == Advanced(Stored(s, c))
  {
  }

  lemma {:induction false} AdvanceAfter(k: Kernel, m: Kernel, s: S.Screen)
    requires Shape(k) && s.Valid() && Shown(k, m, s)
    ensures Shown(k, Advance(m, k.schedule, s.x, s.y), Advanced(s))
  {
    AdvanceSim(m);
    Twice(k, m, Advance(m, k.schedule, s.x, s.y), s, Advanced(s));
  }

  lemma {:induction false} PrintSim(k: Kernel, c: byte)
    requires Sees(k)
    ensures var t := k.schedule;
      var s := ScreenOf(k, t);
      Shown(k, Advance(StoreChar(k, t, s.x, s.y, c), t, s.x, s.y), S.Print(s, c))
  {
    var s := ScreenOf(k, k.schedule);
    StoreCharSim(k, c);
    PrintIsAdvanced(s, c);
    AdvanceAfter(k, StoreChar(k, k.schedule, s.x, s.y, c), Stored(s, c));
  }

  /** Printing one byte does to the running terminal's own screen what Putc says, wherever
      that screen is kept, and leaves every other terminal's screen and cursor alone. */
  lemma {:induction false} PutcSim(k: Kernel, c: byte)
    requires Sees(k) && !Underflows(k, k.schedule, c)
    ensures Shown(k, PutcAt(k, k.schedule, c), S.Putc(ScreenOf(k, k.schedule), c))
  {
    var s := ScreenOf(k, k.schedule);
    if c == NEWLINE {
      if s.y < S.ROWS - 1 { CursorSim(k, 0, s.y + 1); } else { ScrollThenHome(k); }
    } else if c == BACKSPACE {
      EraseSim(k);
    } else if c != NUL {
      PrintSim(k, if c == TAB then SPACE else c);
    }
  }

  /** The excluded case is exactly the one that spoils the state: the cursor wraps to
      65535 and leaves the screen. */
  lemma {:induction false} PutcKeepsInvIff(k: Kernel, c: byte)
    requires Inv(k)
    ensures Inv(PutcAt(k, k.schedule, c)) <==> !Underflows(k, k.schedule, c)
  {
    var t := k.schedule;
    if Underflows(k, t, c) {
      assert PutcAt(k, t, c).terms[t].x == 65535;
    } else {
      PutcSim(k, c);
      SameButKeeps(k, PutcAt(k, t, c));
    }
  }

  // ------------------------------------------------------------------ write

  /** No byte of the text is a backspace that finds the cursor in the top left corner. */
  predicate NoUnderflow(s: S.Screen, text: seq<byte>)
    requires s.Valid()
  {
    forall i :: 0 <= i < |text| && text[i] == BACKSPACE ==>
      var now := S.Type(s, text[..i]);
      now.x != 0 || now.y != 0
  }

  predicate WriteOk(k: Kernel, text: seq<byte>)
    requires Shape(k) && CursorsOk(k)
  {
    k.schedule == k.current || NoUnderflow(ScreenOf(k, k.schedule), text)
  }

  lemma {:induction false} WriteMore(k: Kernel, m: Kernel, c: byte, s: S.Screen)
    requires Shape(k) && s.Valid() && Shown(k, m, s)
    requires k.schedule == k.current || !(c == BACKSPACE && s.x == 0 && s.y == 0)
    ensures Shown(k, PutcAt(m, k.schedule, c), S.Putc(s, c))
  {
    PutcSim(m, c);
    Twice(k, m, PutcAt(m, k.schedule, c), s, S.Putc(s, c));
  }

  /** A whole write prints its bytes on the writer's screen and on no other. */
  lemma {:induction false} WriteSim(k: Kernel, text: seq<byte>)
    requires Sees(k) && WriteOk(k, text)
    ensures Shown(k, WriteAt(k, k.schedule, text), S.Type(ScreenOf(k, k.schedule), text))
    decreases |text|
  {
    if text != [] {
      var n := |text| - 1;
      var most := text[..n];
      forall i | 0 <= i < n ensures most[..i] == text[..i] {}
      WriteSim(k, most);
      WriteMore(k, WriteAt(k, k.schedule, most), text[n], S.Type(ScreenOf(k, k.schedule), most));
    }
  }

  // ------------------------------------------------------- switching and the timer

  lemma {:induction false} SwitchSim(k: Kernel, to: int)
    requires Inv(k)
    ensures var r := Switch(k, to);
      && CursorsOk(r) && |r.terms| == |k.terms|
      && forall t :: 0 <= t < |k.terms| ==> ScreenOf(r, t) == ScreenOf(k, t)
  {
    if to != k.current && 0 <= to < |k.terms| {
      var prev := k.current;
      var r := Switch(k, to);
      var saved := Splice(k.mem, BufferOf(prev), Page(k.mem, 0));
      SpliceInside(k.mem, BufferOf(prev), BufferOf(prev), Page(k.mem, 0));
      SpliceWhole(Page(k.mem, BufferOf(prev)), Page(k.mem, 0));
      SpliceInside(saved, 0, 0, Page(saved, BufferOf(to)));
      SpliceWhole(Page(saved, 0), Page(saved, BufferOf(to)));
      forall t | 0 <= t < |k.terms| ensures ScreenOf(r, t) == ScreenOf(k, t) {
        SpliceOutside(saved, BufferOf(t), 0, Page(saved, BufferOf(to)));
        if t != prev { SpliceOutside(k.mem, BufferOf(t), BufferOf(prev), Page(k.mem, 0)); }
      }
    }
  }

  /** Between the switch and the rescheduling, the interrupted process still writes to its
      own terminal exactly if that was the displayed one, whose buffer it is left mapped to. */
  lemma {:induction false} SwitchedWriterSeesIff(k: Kernel, to: int)
    requires Inv(k) && to != k.current && 0 <= to < |k.terms|
    ensures var s := Switch(k, to);
      && s.cr3 == s.runningPid == k.runningPid && s.schedule == k.schedule
      && (VideoPage(s) == Target(s, s.schedule) <==> k.schedule == k.current)
  {
    RunningIsLeaf(k);
  }

  /** Going round from c finds another ready terminal, if there is one, before c itself. */
  lemma {:induction false} AnotherIsNext(terms: seq<Terminal>, c: nat, d: nat, e: nat)
    requires c < |terms| && 1 <= d <= e < |terms| && terms[Around(c, e, |terms|)].ready
    ensures NextReady(terms, c, d) != c
    decreases e - d
  {
    if !terms[Around(c, d, |terms|)].ready { AnotherIsNext(terms, c, d + 1, e); }
  }

  lemma {:induction false} ReadyElsewhere(terms: seq<Terminal>, c: nat, o: nat)
    requires c < |terms| && o < |terms| && o != c && terms[o].ready
    ensures NextReady(terms, c, 1) != c
  {
    AnotherIsNext(terms, c, 1, if o > c then o - c else o - c + |terms|);
  }

  /** A real switch leaves two terminals to choose from, so the tick always reschedules
      and the stale mapping the switch leaves behind is never used. */
  lemma {:induction false} RealSwitchReschedules(k: Kernel, to: int)
    requires Inv(k) && to != k.current && 0 <= to < |k.terms|
    ensures var s := Switch(k, to); NextReady(s.terms, s.counter, 1) != s.schedule
  {
    var s := Switch(k, to);
    ReadyElsewhere(s.terms, s.counter, if s.schedule == to then k.current else to);
  }

  /** Processes that may be resumed hold a vidmap page only where it will be remapped. */
  ghost predicate UserPagesOk(k: Kernel)
    requires Shape(k)
  {
    forall t :: 0 <= t < |k.terms| && k.terms[t].running && k.user[Leaf(k, t)].Some? ==> k.terms[t].vidmap
  }

  lemma {:induction false} ResumeSim(k: Kernel, t: nat)
    requires Shape(k) && CursorsOk(k) && ChainsOk(k) && UserPagesOk(k) && t < |k.terms|
    requires forall u :: 0 <= u < |k.terms| && k.terms[u].running ==> k.chains[u] != []
    requires k.terms[t].running
    ensures var r := Remap(k.(counter := t, schedule := t, runningPid := Leaf(k, t)), t, Leaf(k, t));
      && MapOk(r) && CursorsOk(r)
      && forall u :: 0 <= u < |k.terms| ==> ScreenOf(r, u) == ScreenOf(k, u)
  {
    forall u | 0 <= u < |k.terms| && k.terms[u].running && u != t ensures Leaf(k, u) != Leaf(k, t) {
      LeafIsLive(k, u);
      LeafIsLive(k, t);
    }
  }

  /** A new process has its VIDEO page on the display and no vidmap page. */
  lemma {:induction false} StartPages(k: Kernel)
    requires Shape(k) && FirstFree(k.live, 0).Some?
    ensures var p, r := FirstFree(k.live, 0).value, Execute(k, Loads);
      && r.runningPid == r.cr3 == p && r.video == k.video[p := 0] && r.user == k.user[p := None]
      && r.mem == k.mem && r.x == k.x && r.y == k.y && r.current == k.current
  {
  }

  lemma {:induction false} StartSim(k: Kernel, t: nat)
    requires Shape(k) && CursorsOk(k) && ChainsOk(k) && UserPagesOk(k) && t < |k.terms|
    requires forall u :: 0 <= u < |k.terms| && k.terms[u].running ==> k.chains[u] != []
    requires !k.terms[t].running && t == k.current && k.schedule == t
    requires k.chains[t] == [] && FirstFree(k.live, 0).Some?
    requires forall u :: 0 <= u < t ==> k.terms[u].running
    ensures var r := Execute(k, Loads);
      && MapOk(r) && CursorsOk(r) && |r.terms| == |k.terms|
      && forall u :: 0 <= u < |k.terms| ==> ScreenOf(r, u) == ScreenOf(k, u)
  {
    var r := Execute(k, Loads);
    var p := FirstFree(k.live, 0).value;
    StartPages(k);
    StartKeepsChains(k, t);
    hide Execute, FirstFree;
    LeafIsLive(r, t);
    forall u | 0 <= u < |r.terms| && r.terms[u].running && r.user[Leaf(r, u)].Some?
      ensures r.terms[u].vidmap
    {
      if u != t {
        LeafIsLive(k, u);
        assert Leaf(r, u) == Leaf(k, u) != p;
      }
    }
  }

  lemma {:induction false} SwitchKeeps(k: Kernel, to: int)
    requires Inv(k)
    ensures var s := Switch(k, to);
      && CursorsOk(s) && ChainsOk(s) && UserPagesOk(s) && s.terms[s.counter].ready
      && (forall u :: 0 <= u < |s.terms| && s.terms[u].running ==> s.chains[u] != [])
      && (NextReady(s.terms, s.counter, 1) == s.schedule ==> s == k)
  {
    var s := Switch(k, to);
    SwitchSim(k, to);
    if to != k.current && 0 <= to < |k.terms| {
      RealSwitchReschedules(k, to);
    }
    forall u | 0 <= u < |s.terms| ensures Leaf(s, u) == Leaf(k, u) {}
  }

  lemma {:induction false} NewTerminalIsNext(k: Kernel, to: int)
    requires Inv(k) && TickOk(k, to)
    ensures var s := Switch(k, to);
      var t := NextReady(s.terms, s.counter, 1);
      !s.terms[t].running ==>
        && t == s.current && s.chains[t] == [] && FirstFree(s.live, 0).Some?
        && forall u :: 0 <= u < t ==> s.terms[u].running
  {
    var s := Switch(k, to);
    SwitchKeepsProc(k, to);
    NextReadyIsReady(s.terms, s.counter, 1);
  }

  lemma {:induction false} SwitchKeepsParents(k: Kernel, to: int)
    requires Inv(k)
    ensures ParentsOk(Switch(k, to))
  {
    RunningIsLeaf(k);
    SwitchIsSwitched(k, to);
    var s := Switch(k, to);
    assert forall p :: 0 <= p < NUM_PROC && p != k.runningPid ==> s.video[p] == k.video[p];
  }

  lemma {:induction false} ResumeKeepsParents(k: Kernel, t: nat)
    requires Shape(k) && ChainsOk(k) && ParentsOk(k) && t < |k.terms| && k.chains[t] != []
    ensures ParentsOk(Remap(k.(counter := t, schedule := t, runningPid := Leaf(k, t)), t, Leaf(k, t)))
  {
    LeafIsLive(k, t);
  }

  lemma {:induction false} StartKeepsParents(k: Kernel, t: nat)
    requires Shape(k) && ParentsOk(k) && t == k.current && !k.terms[t].running
    requires forall u :: 0 <= u < t ==> k.terms[u].running
    ensures ParentsOk(Execute(k, Loads))
  {
    assert FirstIdle(k.terms, 0) == t;
  }

  lemma {:induction false} TickKeepsParents(k: Kernel, to: int)
    requires Inv(k) && TickOk(k, to)
    ensures ParentsOk(Tick(k, to))
  {
    var s := Switch(k, to);
    var t := NextReady(s.terms, s.counter, 1);
    SwitchKeeps(k, to);
    SwitchKeepsParents(k, to);
    NewTerminalIsNext(k, to);
    if t != s.schedule {
      if s.terms[t].running { ResumeKeepsParents(s, t); } else { StartKeepsParents(s.(counter := t, schedule := t), t); }
    }
  }

  lemma {:induction false} TickMaps(k: Kernel, to: int)
    requires Inv(k) && TickOk(k, to)
    ensures var r := Tick(k, to);
      && MapOk(r) && CursorsOk(r) && |r.terms| == |k.terms|
      && forall t :: 0 <= t < |k.terms| ==> ScreenOf(r, t) == ScreenOf(Switch(k, to), t)
  {
    var s := Switch(k, to);
    var t := NextReady(s.terms, s.counter, 1);
    SwitchKeeps(k, to);
    NewTerminalIsNext(k, to);
    assert MapOk(k) && CursorsOk(k);
    hide Switch, Inv, TickOk, NextReady;
    if t != s.schedule {
      if s.terms[t].running { ResumeSim(s, t); } else { StartSim(s.(counter := t, schedule := t), t); }
    }
  }

  /** A timer tick, with or without a switch, changes no terminal's screen or cursor. */
  lemma {:induction false} TickSim(k: Kernel, to: int)
    requires Inv(k) && TickOk(k, to)
    ensures var r := Tick(k, to);
      && Inv(r) && |r.terms| == |k.terms|
      && forall t :: 0 <= t < |k.terms| ==> ScreenOf(r, t) == ScreenOf(k, t)
  {
    TickKeepsProc(k, to);
    TickKeepsParents(k, to);
    TickMaps(k, to);
    SwitchSim(k, to);
  }
}
