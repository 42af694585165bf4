/** The limits are met in practice: short runs from the kernel's start, with the code's
    three terminals, that end just before each of the steps that Limits rules out. */
module Reached {
  import opened Bytes
  import opened KernelState
  import opened ProcessProofs
  import opened VideoProofs
  import opened Runs
  import opened Limits
  import S = Screen

  /** The run of these events leads from k to r. */
  ghost predicate Leads(k: Kernel, events: seq<Event>, r: Kernel) {
    Inv(k) && Allowed(k, events) && After(k, events) == r
  }

  lemma {:induction false} OneMore(k: Kernel, events: seq<Event>, m: Kernel, e: Event)
    requires Leads(k, events, m) && Inv(m) && Enabled(m, e)
    ensures Inv(Step(m, e)) && Leads(k, events + [e], Step(m, e))
    decreases |events|
  {
    StepSim(m, e);
    if events == [] {
      assert events + [e] == [e] && [e][1..] == [];
    } else {
      StepSim(k, events[0]);
      assert (events + [e])[1..] == events[1..] + [e];
      OneMore(Step(k, events[0]), events[1..], m, e);
    }
  }

  lemma {:induction false} TickMore(k: Kernel, events: seq<Event>, m: Kernel, to: int)
    requires Leads(k, events, m) && Inv(m) && TickOk(m, to)
    ensures Leads(k, events + [OnTick(to)], Tick(m, to))
  {
    OneMore(k, events, m, OnTick(to));
  }

  /** With the invariant, the chains and the two terminal numbers tell what is to come. */
  ghost predicate At(k: Kernel, chains: seq<seq<nat>>, schedule: nat, current: nat) {
    && Shape(k) && ProcInv(k) && CursorsOk(k) && Inv(k) && |k.terms| == 3
    && k.chains == chains && k.schedule == schedule && k.current == current
  }

  /** Terminals with a chain have their shell. */
  lemma {:induction false} AtRuns(k: Kernel, chains: seq<seq<nat>>, schedule: nat, current: nat, t: nat)
    requires At(k, chains, schedule, current) && t < 3 == |chains|
    ensures k.terms[t].running <==> chains[t] != []
    ensures |chains[schedule]| >= 1 && (IsRoot(k) <==> |chains[schedule]| == 1)
  {
    RunningIsLeaf(k);
  }

  lemma {:induction false} AtBoot(k: Kernel)
    requires Zeroed(k) && |k.terms| == 3
    ensures At(Boot(k), [[0], [], []], 0, 0) && Boot(k).live == {0} && Leads(Boot(k), [], Boot(k))
  {
    BootInv(k);
    assert FirstFree({}, 0) == Some(0);
    assert Boot(k).chains == [[0], [], []];
  }

  /** The second terminal is opened: its shell starts at once. */
  lemma {:induction false} OpenSecond(k: Kernel, c: seq<nat>, p: nat)
    requires At(k, [c, [], []], 0, 0) && FirstFree(k.live, 0) == Some(p)
    ensures TickOk(k, 1) && At(Tick(k, 1), [c, [p], []], 1, 1) && Tick(k, 1).live == k.live + {p}
  {
    TickSim(k, 1);
    SwitchIsSwitched(k, 1);
    var s := Switch(k, 1);
    assert NextReady(s.terms, 0, 1) == 1;
    var m := s.(counter := 1, schedule := 1);
    SwitchKeeps(k, 1);
    StartKeepsChains(m, 1);
    StartTerms(m);
    assert m.chains[1 := [p]] == [c, [p], []];
  }

  /** From the second terminal the turn passes to the first, which may be asked for. */
  lemma {:induction false} FirstIsNext(k: Kernel, c: seq<nat>, d: seq<nat>, to: int)
    requires At(k, [c, d, []], 1, 1) && c != [] && d != [] && (to == -1 || to == 0)
    ensures TickOk(k, to) && At(Tick(k, to), [c, d, []], 0, if to == 0 then 0 else 1)
    ensures Tick(k, to).live == k.live
  {
    TickSim(k, to);
    SwitchIsSwitched(k, to);
    var s := Switch(k, to);
    assert !s.terms[2].ready && s.terms[0].ready;
    assert NextReady(s.terms, 1, 1) == NextReady(s.terms, 1, 2) == 0;
  }

  /** From the first terminal the turn passes to the second, while the displayed terminal
      stays or the third is asked for. */
  lemma {:induction false} SecondIsNext(k: Kernel, c: seq<nat>, d: seq<nat>, current: nat, to: int)
    requires At(k, [c, d, []], 0, current) && current < 2 && c != [] && d != []
    requires to == -1 || (to == 2 && FirstFree(k.live, 0).Some?)
    ensures TickOk(k, to) && At(Tick(k, to), [c, d, []], 1, if to == 2 then 2 else current)
    ensures Tick(k, to).live == k.live
  {
    TickSim(k, to);
    SwitchIsSwitched(k, to);
    var s := Switch(k, to);
    assert s.terms[1].ready;
    assert NextReady(s.terms, 0, 1) == 1;
  }

  lemma {:induction false} FirstPids()
    ensures FirstFree({0}, 0) == Some(1) && FirstFree({0, 1}, 0) == Some(2) && FirstFree({0, 1, 2}, 0) == Some(3)
  {
  }

  lemma {:induction false} ProgramJoinsChain(k: Kernel)
    requires Shape(k) && ProcInv(k) && Starts(k, Loads) && k.terms[k.current].running
    ensures var p, r := FirstFree(k.live, 0).value, Execute(k, Loads);
      && r.chains == k.chains[k.schedule := k.chains[k.schedule] + [p]] && r.live == k.live + {p}
      && r.schedule == k.schedule && r.current == k.current && |r.terms| == |k.terms|
      && r.user == k.user[p := None]
  {
    assert Sits(k.pcbs, k.chains, k.place, k.current, 0);
  }

  lemma {:induction false} ExecuteKeepsInv(k: Kernel)
    requires Inv(k) && Enabled(k, OnExecute(Loads))
    ensures var r := Execute(k, Loads); Inv(r) && ProcInv(r) && CursorsOk(r)
  {
    StepSim(k, OnExecute(Loads));
  }

  /** A program is started from the first terminal's shell. */
  lemma {:induction false} StartProgram(k: Kernel)
    requires At(k, [[0], [], []], 0, 0) && k.live == {0}
    ensures Enabled(k, OnExecute(Loads))
    ensures At(Execute(k, Loads), [[0, 1], [], []], 0, 0) && Execute(k, Loads).live == {0, 1}
    ensures Execute(k, Loads).user == k.user[1 := None]
  {
    hide Execute, Inv, ProcInv;
    FirstPids();
    AtRuns(k, [[0], [], []], 0, 0, 0);
    ExecuteKeepsInv(k);
    ProgramJoinsChain(k);
    assert [0] + [1] == [0, 1];
    assert [[0], [], []][0 := [0, 1]] == [[0, 1], [], []];
  }

  // ------------------------------------------------------ down to the last row

  function Newlines(n: nat): seq<byte> {
    seq(n, _ => NEWLINE)
  }

  lemma {:induction false} NewlinesGoDown(s: S.Screen, n: nat)
    requires s.Valid()
    ensures S.Type(s, Newlines(n)).y == Min(s.y + n, S.ROWS - 1)
    decreases n
  {
    if n > 0 {
      NewlinesGoDown(s, n - 1);
      assert Newlines(n)[..n - 1] == Newlines(n - 1);
    }
  }

  /** The running program goes to the last row of its screen. */
  lemma {:induction false} GoDown(k: Kernel, chains: seq<seq<nat>>, schedule: nat, current: nat)
    requires At(k, chains, schedule, current) && schedule != current
    ensures var e := OnWrite(Newlines(S.ROWS - 1));
      && Enabled(k, e) && At(Step(k, e), chains, schedule, current)
      && Step(k, e).terms[schedule].y == S.ROWS - 1 && Step(k, e).live == k.live && Step(k, e).pcbs == k.pcbs
  {
    var text := Newlines(S.ROWS - 1);
    StepSim(k, OnWrite(text));
    WriteSim(k, text);
    NewlinesGoDown(ScreenOf(k, schedule), S.ROWS - 1);
    var r := WriteAt(k, schedule, text);
    assert ShowAll(ScreenOf(k, schedule), [Text(text)]) == S.Type(ScreenOf(k, schedule), text) by {
      assert [Text(text)][1..] == [];
    }
    assert ScreenOf(r, schedule).y == r.terms[schedule].y;
  }

  // ------------------------------------------------------------- the limits met

  /** The first command may already lose a pid. */
  lemma {:induction false} LeakIsReached(k: Kernel)
    requires Zeroed(k) && |k.terms| == 3
    ensures Inv(Boot(k)) && !Healthy(Execute(Boot(k), BadEntry)) && !Healthy(Execute(Boot(k), BadImage))
  {
    AtBoot(k);
    assert FirstFree({0}, 0) == Some(1);
    LeakedPidIsNowhere(Boot(k), BadEntry);
    LeakedPidIsNowhere(Boot(k), BadImage);
  }

  /** The first switch may already open the third terminal before the second: its shell is
      then recorded as the second's, so what it prints does not appear on the display. */
  lemma {:induction false} OutOfTurnIsReached(k: Kernel)
    requires Zeroed(k) && |k.terms| == 3
    ensures var r := Tick(Boot(k), 2);
      && Inv(Boot(k)) && !Sound(r)
      && r.current == r.schedule == 2 && !r.terms[2].running
      && FirstWithPid(r.terms, r.runningPid, 0) == 1
  {
    AtBoot(k);
    var b := Boot(k);
    TickSoundIff(b, 2);
    SwitchIsSwitched(b, 2);
    var s := Switch(b, 2);
    assert NextReady(s.terms, 0, 1) == NextReady(s.terms, 0, 2) == 2;
    assert FirstFree({0}, 0) == Some(1);
    assert FirstIdle(s.terms, 0) == FirstIdle(s.terms, 1) == 1;
    StartTerms(s.(counter := 2, schedule := 2));
  }

  /** Two terminals, the second displayed, the first running in the background: its shell
      may exit there. */
  lemma {:induction false} BackgroundShellIsReached(k: Kernel) returns (r: Kernel)
    requires Zeroed(k) && |k.terms| == 3
    ensures Leads(Boot(k), [OnTick(1), OnTick(-1)], r)
    ensures At(r, [[0], [1], []], 0, 1) && r.live == {0, 1} && IsRoot(r) && !Healthy(Halt(r))
  {
    hide ProcInv, Inv, Tick, Leads, Boot, TickOk, Execute, Halt;
    AtBoot(k);
    FirstPids();
    var b := Boot(k);
    OpenSecond(b, [0], 1);
    TickMore(b, [], b, 1);
    assert [] + [OnTick(1)] == [OnTick(1)];
    FirstIsNext(Tick(b, 1), [0], [1], -1);
    TickMore(b, [OnTick(1)], Tick(b, 1), -1);
    assert [OnTick(1)] + [OnTick(-1)] == [OnTick(1), OnTick(-1)];
    r := Tick(Tick(b, 1), -1);
    RunningIsLeaf(r);
    BackgroundRootHalts(r);
  }

  /** Or it may start a program there, whose next newline scrolls the display. */
  lemma {:induction false} BackgroundExecuteIsReached(k: Kernel) returns (r: Kernel)
    requires Zeroed(k) && |k.terms| == 3
    ensures Leads(Boot(k), [OnTick(1), OnTick(-1), OnWrite(Newlines(S.ROWS - 1))], r)
    ensures Inv(r) && |r.terms| == 3 && r.schedule == 0 && r.current == 1 && !Sound(Execute(r, Loads))
    ensures var e := Execute(r, Loads);
      && CursorsFit(e) && |e.terms| == 3
      && ScreenOf(PutcAt(e, 0, NEWLINE), 1).cells == S.ScrollUp(ScreenOf(r, 1).cells)
  {
    hide ProcInv, Inv, Tick, Leads, Boot, TickOk, Execute, Halt;
    var m := BackgroundShellIsReached(k);
    FirstPids();
    GoDown(m, [[0], [1], []], 0, 1);
    OneMore(Boot(k), [OnTick(1), OnTick(-1)], m, OnWrite(Newlines(S.ROWS - 1)));
    assert [OnTick(1), OnTick(-1)] + [OnWrite(Newlines(S.ROWS - 1))]
        == [OnTick(1), OnTick(-1), OnWrite(Newlines(S.ROWS - 1))];
    r := Step(m, OnWrite(Newlines(S.ROWS - 1)));
    ExecuteSoundIff(r, Loads);
    AtRuns(r, [[0], [1], []], 0, 1, 1);
    BackgroundProgramScrollsDisplay(r);
  }

  /** A program started on the display, running in the background. */
  lemma {:induction false} BackgroundProgramIsReached(k: Kernel) returns (r: Kernel)
    requires Zeroed(k) && |k.terms| == 3
    ensures Leads(Boot(k), [OnExecute(Loads), OnTick(1), OnTick(-1)], r)
    ensures At(r, [[0, 1], [2], []], 0, 1)
  {
    hide ProcInv, Inv, Tick, Leads, Boot, TickOk, Execute, Halt;
    AtBoot(k);
    FirstPids();
    var b := Boot(k);
    StartProgram(b);
    OneMore(b, [], b, OnExecute(Loads));
    assert [] + [OnExecute(Loads)] == [OnExecute(Loads)];
    var one := Execute(b, Loads);
    OpenSecond(one, [0, 1], 2);
    TickMore(b, [OnExecute(Loads)], one, 1);
    assert [OnExecute(Loads)] + [OnTick(1)] == [OnExecute(Loads), OnTick(1)];
    FirstIsNext(Tick(one, 1), [0, 1], [2], -1);
    TickMore(b, [OnExecute(Loads), OnTick(1)], Tick(one, 1), -1);
    assert [OnExecute(Loads), OnTick(1)] + [OnTick(-1)] == [OnExecute(Loads), OnTick(1), OnTick(-1)];
    r := Tick(Tick(one, 1), -1);
  }

  /** When it ends there, its parent scrolls the display. */
  lemma {:induction false} BackgroundReturnIsReached(k: Kernel) returns (r: Kernel)
    requires Zeroed(k) && |k.terms| == 3
    ensures Leads(Boot(k), [OnExecute(Loads), OnTick(1), OnTick(-1), OnWrite(Newlines(S.ROWS - 1))], r)
    ensures Inv(r) && |r.terms| == 3 && r.schedule == 0 && r.current == 1 && !IsRoot(r)
    ensures 0 <= r.pcbs[r.runningPid].parentPid < NUM_PROC && !Sound(Halt(r))
    ensures var h := Halt(r);
      && CursorsFit(h) && |h.terms| == 3
      && ScreenOf(PutcAt(h, 0, NEWLINE), 1).cells == S.ScrollUp(ScreenOf(r, 1).cells)
  {
    hide ProcInv, Inv, Tick, Leads, Boot, TickOk, Execute, Halt;
    var m := BackgroundProgramIsReached(k);
    var most := [OnExecute(Loads), OnTick(1), OnTick(-1)];
    GoDown(m, [[0, 1], [2], []], 0, 1);
    OneMore(Boot(k), most, m, OnWrite(Newlines(S.ROWS - 1)));
    assert most + [OnWrite(Newlines(S.ROWS - 1))]
        == [OnExecute(Loads), OnTick(1), OnTick(-1), OnWrite(Newlines(S.ROWS - 1))];
    r := Step(m, OnWrite(Newlines(S.ROWS - 1)));
    RunningIsLeaf(r);
    HaltSoundIff(r);
    BackgroundParentScrollsDisplay(r);
  }

  lemma {:induction false} MapShell(k: Kernel)
    requires At(k, [[0], [], []], 0, 0) && k.live == {0}
    ensures At(Vidmap(k), [[0], [], []], 0, 0) && Vidmap(k).live == {0} && Vidmap(k).user[0].Some?
  {
    VidmapSim(k);
    RunningIsLeaf(k);
  }

  /** A shell that has called vidmap and then runs a program gets a page back that its
      terminal no longer keeps up to date. */
  lemma {:induction false} StaleUserPageIsReached(k: Kernel) returns (r: Kernel)
    requires Zeroed(k) && |k.terms| == 3
    ensures Leads(Boot(k), [OnVidmap, OnExecute(Loads)], r)
    ensures Shape(r) && r.schedule == r.current == 0 && !IsRoot(r)
    ensures 0 <= r.pcbs[r.runningPid].parentPid < NUM_PROC && !Sound(Halt(r))
  {
    hide ProcInv, Inv, Leads, Boot, Execute, Halt, Vidmap, Sound;
    AtBoot(k);
    var b := Boot(k);
    MapShell(b);
    OneMore(b, [], b, OnVidmap);
    assert [] + [OnVidmap] == [OnVidmap];
    var one := Vidmap(b);
    StartProgram(one);
    OneMore(b, [OnVidmap], one, OnExecute(Loads));
    assert [OnVidmap] + [OnExecute(Loads)] == [OnVidmap, OnExecute(Loads)];
    r := Execute(one, Loads);
    RunningIsLeaf(r);
    HaltSoundIff(r);
  }

  lemma {:induction false} TwoTicksKeepScreen(k: Kernel, t: nat, first: int, second: int)
    requires Inv(k) && TickOk(k, first) && Inv(Tick(k, first)) && TickOk(Tick(k, first), second) && t < |k.terms|
    ensures var r := Tick(Tick(k, first), second);
      Shape(r) && |r.terms| == |k.terms| && ScreenOf(r, t) == ScreenOf(k, t)
  {
    TickSim(k, first);
    TickSim(Tick(k, first), second);
  }

  lemma {:induction false} ClearedUnderflows(k: Kernel)
    requires Shape(k) && 1 < |k.terms| && k.current != 1 && ScreenOf(k, 1) == S.Cleared()
    ensures Underflows(k, 1, BACKSPACE)
  {
    assert ScreenOf(k, 1).x == 0 && ScreenOf(k, 1).y == 0;
  }

  lemma {:induction false} ThereAndBack(k: Kernel) returns (r: Kernel)
    requires Zeroed(k) && |k.terms| == 3
    ensures Leads(Boot(k), [OnTick(1), OnTick(0), OnTick(-1)], r) && At(r, [[0], [1], []], 1, 0)
    ensures Shape(Boot(k)) && |Boot(k).terms| == 3 && ScreenOf(r, 1) == ScreenOf(Boot(k), 1)
  {
    hide ProcInv, Inv, Tick, Leads, Boot, TickOk, Execute, Halt, ScreenOf;
    AtBoot(k);
    FirstPids();
    var b := Boot(k);
    OpenSecond(b, [0], 1);
    TickMore(b, [], b, 1);
    assert [] + [OnTick(1)] == [OnTick(1)];
    var one := Tick(b, 1);
    FirstIsNext(one, [0], [1], 0);
    TickMore(b, [OnTick(1)], one, 0);
    assert [OnTick(1)] + [OnTick(0)] == [OnTick(1), OnTick(0)];
    TwoTicksKeepScreen(b, 1, 1, 0);
    var two := Tick(one, 0);
    SecondIsNext(two, [0], [1], 0, -1);
    TickMore(b, [OnTick(1), OnTick(0)], two, -1);
    assert [OnTick(1), OnTick(0)] + [OnTick(-1)] == [OnTick(1), OnTick(0), OnTick(-1)];
    TickSim(two, -1);
    r := Tick(two, -1);
  }

  /** A fresh terminal in the background has its cursor in the top left corner. */
  lemma {:induction false} UnderflowIsReached(k: Kernel) returns (r: Kernel)
    requires Zeroed(k) && |k.terms| == 3
    ensures Leads(Boot(k), [OnTick(1), OnTick(0), OnTick(-1)], r)
    ensures Shape(r) && CursorsFit(r) && |r.terms| == 3 && r.schedule == 1 && r.current == 0
    ensures Underflows(r, 1, BACKSPACE) && !Inv(PutcAt(r, 1, BACKSPACE))
  {
    hide ProcInv, Inv, Leads, Boot, ScreenOf, PutcAt;
    BootInv(k);
    r := ThereAndBack(k);
    ClearedUnderflows(r);
    PutcKeepsInvIff(r, BACKSPACE);
  }

  lemma {:induction false} WaitingRun(k: Kernel) returns (r: Kernel)
    requires Zeroed(k) && |k.terms| == 3
    ensures Leads(Boot(k), [OnTick(1), OnTick(-1), OnTick(2)], r)
    ensures At(r, [[0], [1], []], 1, 2) && r.live == {0, 1}
  {
    hide ProcInv, Inv, Tick, Leads, Boot, TickOk, Execute, Halt;
    var m := BackgroundShellIsReached(k);
    FirstPids();
    SecondIsNext(m, [0], [1], 1, 2);
    TickMore(Boot(k), [OnTick(1), OnTick(-1)], m, 2);
    assert [OnTick(1), OnTick(-1)] + [OnTick(2)] == [OnTick(1), OnTick(-1), OnTick(2)];
    r := Tick(m, 2);
  }

  /** The third terminal is asked for while the second is next: until its own turn comes it
      waits for its shell.  A program started meanwhile takes it over, and leaving it strands it. */
  lemma {:induction false} WaitingIsReached(k: Kernel) returns (r: Kernel)
    requires Zeroed(k) && |k.terms| == 3
    ensures Leads(Boot(k), [OnTick(1), OnTick(-1), OnTick(2)], r)
    ensures Shape(r) && |r.terms| == 3 && r.schedule == 1 && r.current == 2 && !r.terms[2].running
    ensures var e := Execute(r, Loads); |e.terms| == 3 && e.terms[2].pid == e.runningPid && !Healthy(e)
    ensures !Sound(Tick(r, 0))
  {
    hide ProcInv, Inv, Tick, Leads, Boot, Execute, Healthy, Sound;
    r := WaitingRun(k);
    FirstPids();
    AtRuns(r, [[0], [1], []], 1, 2, 2);
    ProgramTakesTerminal(r);
    TickSoundIff(r, 0);
  }
}
