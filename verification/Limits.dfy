/** Exactly where execute and halt stop keeping the kernel's invariants. */
module Limits {
  import opened Bytes
  import opened KernelState
  import opened ProcessProofs
  import opened VideoProofs
  import opened Runs
  import S = Screen

  lemma {:induction false} RootsAreLive(k: Kernel, t: nat)
    requires ProcInv(k) && t < |k.terms| && k.terms[t].running
    ensures k.terms[t].pid in k.live
  {
    assert Sits(k.pcbs, k.chains, k.place, t, 0);
  }

  lemma {:induction false} ChildrenAreLive(k: Kernel, q: nat)
    requires ProcInv(k) && q in k.live
    ensures q < NUM_PROC && (k.pcbs[q].child.Some? ==> k.pcbs[q].child.value in k.live)
  {
    var (t, i) := k.place[q];
    assert Sits(k.pcbs, k.chains, k.place, t, i);
    if i + 1 < |k.chains[t]| { assert Sits(k.pcbs, k.chains, k.place, t, i + 1); }
  }

  predicate ChildOf(k: Kernel, q: nat, p: nat) {
    q < |k.pcbs| && q != p && k.pcbs[q].child == Some(p)
  }

  /** A live process is a terminal's root or some other live process's child. */
  lemma {:induction false} LiveHasPlace(k: Kernel, p: nat)
    requires ProcInv(k) && p in k.live
    ensures (exists t :: 0 <= t < |k.terms| && k.terms[t].running && k.terms[t].pid == p)
         || (exists q :: q in k.live && ChildOf(k, q, p))
  {
    var (t, i) := k.place[p];
    assert Sits(k.pcbs, k.chains, k.place, t, i);
    if i > 0 {
      assert Sits(k.pcbs, k.chains, k.place, t, i - 1);
      assert ChildOf(k, k.chains[t][i - 1], p);
    }
  }

  lemma {:induction false} NoPlaceFor(k: Kernel, p: nat)
    requires Shape(k) && p in k.live
    requires forall t :: 0 <= t < |k.terms| && k.terms[t].running ==> k.terms[t].pid != p
    requires forall q :: q in k.live ==> !ChildOf(k, q, p)
    ensures !Healthy(k)
  {
    forall chains, place ensures !ProcInv(k.(chains := chains, place := place)) {
      var h := k.(chains := chains, place := place);
      if ProcInv(h) {
        LiveHasPlace(h, p);
      }
    }
  }

  /** A pid taken for a program that then cannot be read belongs to no terminal. */
  lemma {:induction false} LeakedPidIsNowhere(k: Kernel, load: Load)
    requires ProcInv(k) && LeaksPid(k, load)
    ensures !Healthy(Execute(k, load))
  {
    var p, r := FirstFree(k.live, 0).value, Execute(k, load);
    assert r.live == k.live + {p} && r.pcbs == k.pcbs && r.terms == k.terms;
    hide Execute, ProcInv;
    forall t | 0 <= t < |k.terms| && k.terms[t].running ensures k.terms[t].pid != p {
      RootsAreLive(k, t);
    }
    forall q | q in r.live ensures !ChildOf(r, q, p) {
      if q in k.live { ChildrenAreLive(k, q); }
    }
    NoPlaceFor(r, p);
  }

  lemma {:induction false} NoneIdleBefore(terms: seq<Terminal>, t: nat, c: nat)
    requires t <= c < |terms| && !terms[c].running
    requires forall u :: t <= u < c ==> terms[u].running
    ensures FirstIdle(terms, t) == c
    decreases c - t
  {
    if t < c { NoneIdleBefore(terms, t + 1, c); }
  }

  /** What starting a shell does to the terminals, whoever runs. */
  lemma {:induction false} StartTerms(k: Kernel)
    requires Shape(k) && FirstFree(k.live, 0).Some?
    ensures var p, u, e := FirstFree(k.live, 0).value, FirstIdle(k.terms, 0), Execute(k, Loads);
      && e.schedule == k.schedule && e.current == k.current && e.counter == k.counter
      && e.runningPid == p && e.video[p] == 0 && e.live == k.live + {p}
      && (k.terms[k.current].running ==> e.terms == k.terms)
      && (!k.terms[k.current].running ==>
            u < |k.terms| && e.terms == k.terms[u := k.terms[u].(pid := p, running := true)])
  {
  }

  /** A program started while the displayed terminal still waits for its shell is recorded
      as that terminal's root, although another terminal runs it. */
  lemma {:induction false} ProgramTakesTerminal(k: Kernel)
    requires ProcInv(k) && Starts(k, Loads) && !k.terms[k.current].running
    ensures var r := Execute(k, Loads);
      && |r.terms| == |k.terms| && r.terms[k.current].pid == r.runningPid && r.schedule == k.schedule != k.current
      && !Healthy(r)
  {
    var r := Execute(k, Loads);
    NoneIdleBefore(k.terms, 0, k.current);
    StartTerms(k);
    forall chains, place ensures !ProcInv(r.(chains := chains, place := place)) {
      var h := r.(chains := chains, place := place);
      if ProcInv(h) {
        RootIsPlaced(h, h.current);
        LeafIsLive(h, h.schedule);
      }
    }
  }

  lemma {:induction false} RootIsPlaced(k: Kernel, t: nat)
    requires ProcInv(k) && t < |k.terms| && k.terms[t].running
    ensures k.terms[t].pid in k.place && k.place[k.terms[t].pid] == (t, 0)
  {
    assert Sits(k.pcbs, k.chains, k.place, t, 0);
  }

  lemma {:induction false} ExecuteHealthyIff(k: Kernel, load: Load)
    requires ProcInv(k)
    ensures Healthy(Execute(k, load)) <==>
              !LeaksPid(k, load) && (Starts(k, load) ==> k.terms[k.current].running)
  {
    if LeaksPid(k, load) {
      LeakedPidIsNowhere(k, load);
    } else if Starts(k, load) && !k.terms[k.current].running {
      ProgramTakesTerminal(k);
    } else {
      ExecuteKeepsProc(k, load);
      var r := Execute(k, load);
      assert r == r.(chains := r.chains, place := r.place);
    }
  }

  lemma {:induction false} RootsDiffer(k: Kernel, t: nat, u: nat)
    requires ProcInv(k) && t < |k.terms| && u < |k.terms| && t != u
    requires k.terms[t].running && k.terms[u].running
    ensures k.terms[t].pid != k.terms[u].pid
  {
    assert Sits(k.pcbs, k.chains, k.place, t, 0) && Sits(k.pcbs, k.chains, k.place, u, 0);
  }

  /** A root shell that halts in the background frees the displayed terminal instead. */
  lemma {:induction false} BackgroundRootHalts(k: Kernel)
    requires ProcInv(k) && IsRoot(k) && k.schedule != k.current
    ensures !Healthy(Halt(k))
  {
    RunningIsLeaf(k);
    var r, p, t, c := Halt(k), k.runningPid, k.schedule, k.current;
    var u := Unlink(k);
    var v := u.(terms := u.terms[c := u.terms[c].(running := false)], chains := u.chains[t := []]);
    assert p in k.live && v.live == k.live - {p};
    assert FirstFree(v.live, 0).Some?;
    var p' := FirstFree(v.live, 0).value;
    NoneIdleBefore(v.terms, 0, c);
    assert r.terms == v.terms[c := v.terms[c].(pid := p', running := true)];
    assert r.live == v.live + {p'};
    assert k.terms[t].pid == p;
    forall chains, place ensures !ProcInv(r.(chains := chains, place := place)) {
      var h := r.(chains := chains, place := place);
      if ProcInv(h) {
        RootsAreLive(h, t);
        RootsDiffer(h, t, c);
      }
    }
  }

  lemma {:induction false} HaltHealthyIff(k: Kernel)
    requires ProcInv(k)
    ensures IsRoot(k) || 0 <= k.pcbs[k.runningPid].parentPid < NUM_PROC
    ensures Healthy(Halt(k)) <==> (IsRoot(k) ==> k.schedule == k.current)
  {
    RunningIsLeaf(k);
    if IsRoot(k) && k.schedule != k.current {
      BackgroundRootHalts(k);
    } else {
      HaltKeepsProc(k);
      var r := Halt(k);
      assert r == r.(chains := r.chains, place := r.place);
    }
  }

  /** The full invariant, for some reading of the pointers as chains. */
  ghost predicate Sound(k: Kernel) {
    exists chains, place :: Inv(k.(chains := chains, place := place))
  }

  lemma {:induction false} UnhealthyIsUnsound(k: Kernel)
    requires !Healthy(k)
    ensures !Sound(k)
  {
    forall chains, place ensures !Inv(k.(chains := chains, place := place)) {
      assert !ProcInv(k.(chains := chains, place := place));
    }
  }

  /** A terminal waits for its shell that is not displayed, or the scheduled one does, or
      one that can never get it; or the running process writes to another's screen. */
  ghost predicate Stranded(k: Kernel)
    requires Shape(k)
  {
    || !k.terms[k.schedule].running
    || (exists t :: 0 <= t < |k.terms| && t != k.current && k.terms[t].ready && !k.terms[t].running)
    || (!k.terms[k.current].running && !MayOpen(k, k.current))
    || k.video[k.runningPid] != Target(k, k.schedule)
  }

  lemma {:induction false} StrandedIsUnsound(k: Kernel)
    requires Shape(k) && Stranded(k)
    ensures !Sound(k)
  {
    forall chains, place ensures !Inv(k.(chains := chains, place := place)) {
      var h := k.(chains := chains, place := place);
      assert h.terms == k.terms;
    }
  }

  /** execute resets the VIDEO page to the physical screen, so a program started in the
      background would scroll the displayed terminal's screen. */
  lemma {:induction false} ExecuteSoundIff(k: Kernel, load: Load)
    requires Inv(k)
    ensures Sound(Execute(k, load)) <==> !LeaksPid(k, load) && (Starts(k, load) ==> k.schedule == k.current)
  {
    var r := Execute(k, load);
    if Enabled(k, OnExecute(load)) {
      StepSim(k, OnExecute(load));
      assert r == r.(chains := r.chains, place := r.place);
    } else if LeaksPid(k, load) {
      LeakedPidIsNowhere(k, load);
      UnhealthyIsUnsound(r);
    } else {
      StartTerms(k);
      hide Execute, Inv, Enabled;
      StrandedIsUnsound(r);
    }
  }

  /** The state in which a halting child leaves its parent. */
  lemma {:induction false} HaltReturns(k: Kernel)
    requires Inv(k) && !IsRoot(k)
    ensures 0 <= k.pcbs[k.runningPid].parentPid < NUM_PROC
    ensures var h, q := Halt(k), k.pcbs[k.runningPid].parentPid;
      && h.runningPid == h.cr3 == q && h.video == k.video && h.user == k.user && k.video[q] == 0
      && h.mem == k.mem && h.current == k.current && h.schedule == k.schedule && h.x == k.x && h.y == k.y
      && h.terms == k.terms[k.schedule := k.terms[k.schedule].(vidmap := false)]
  {
    RunningIsLeaf(k);
    LinksAreInverse(k, k.runningPid);
    LinksAreInverse(k, k.pcbs[k.runningPid].parentPid);
  }

  /** halt returns to a parent whose pages are as they were when it started the program: its
      VIDEO page leads to the display, so the terminal must still be displayed, and it must
      not hold a vidmap page, which the terminal forgets. */
  lemma {:induction false} HaltSoundIff(k: Kernel)
    requires Inv(k)
    ensures IsRoot(k) || 0 <= k.pcbs[k.runningPid].parentPid < NUM_PROC
    ensures Sound(Halt(k)) <==>
              k.schedule == k.current && (IsRoot(k) || k.user[k.pcbs[k.runningPid].parentPid].None?)
  {
    RunningIsLeaf(k);
    var r := Halt(k);
    if Enabled(k, OnHalt) {
      StepSim(k, OnHalt);
      assert r == r.(chains := r.chains, place := r.place);
    } else if IsRoot(k) {
      BackgroundRootHalts(k);
      UnhealthyIsUnsound(r);
    } else if k.schedule != k.current {
      HaltReturns(k);
      hide Halt, Inv;
      StrandedIsUnsound(r);
    } else {
      StaleUserPageStays(k);
    }
  }

  lemma {:induction false} StaleUserPageStays(k: Kernel)
    requires Inv(k) && !IsRoot(k)
    ensures 0 <= k.pcbs[k.runningPid].parentPid < NUM_PROC
    ensures k.user[k.pcbs[k.runningPid].parentPid].Some? ==> !Sound(Halt(k))
  {
    HaltReturns(k);
    var r, q := Halt(k), k.pcbs[k.runningPid].parentPid;
    hide Halt;
    forall chains, place | k.user[q].Some? ensures !Inv(r.(chains := chains, place := place)) {
      var h := r.(chains := chains, place := place);
      if ProcInv(h) { LeafIsLive(h, h.schedule); }
    }
  }

  /** A program on the last row of a background screen whose VIDEO page leads to the display
      scrolls the displayed terminal with a newline, and not its own. */
  lemma {:induction false} NewlineScrollsDisplay(k: Kernel, t: nat)
    requires Shape(k) && CursorsFit(k) && t < |k.terms| && t != k.current && VideoPage(k) == 0
    requires k.terms[t].y == S.ROWS - 1
    ensures var r := PutcAt(k, t, NEWLINE);
      && r.current == k.current && |r.terms| == |k.terms|
      && ScreenOf(r, k.current).cells == S.ScrollUp(ScreenOf(k, k.current).cells)
      && ScreenOf(r, t).cells == ScreenOf(k, t).cells
  {
    var data := S.ScrollUp(Page(k.mem, 0));
    SpliceInside(k.mem, 0, 0, data);
    SpliceWhole(Page(k.mem, 0), data);
    SpliceOutside(k.mem, BufferOf(t), 0, data);
    assert PutcAt(k, t, NEWLINE).mem == Splice(k.mem, 0, data);
  }

  lemma {:induction false} ExecuteShowsDisplay(k: Kernel)
    requires Inv(k) && Starts(k, Loads) && k.terms[k.current].running
    ensures var e := Execute(k, Loads);
      && VideoPage(e) == 0 && e.mem == k.mem && e.terms == k.terms && e.current == k.current
      && e.x == k.x && e.y == k.y && e.schedule == k.schedule
  {
  }

  /** What a program started in the background does. */
  lemma {:induction false} BackgroundProgramScrollsDisplay(k: Kernel)
    requires Inv(k) && k.schedule != k.current && Starts(k, Loads) && k.terms[k.current].running
    requires k.terms[k.schedule].y == S.ROWS - 1
    ensures var e := Execute(k, Loads);
      && CursorsFit(e) && |e.terms| == |k.terms|
      && var r := PutcAt(e, k.schedule, NEWLINE);
      && ScreenOf(r, k.current).cells == S.ScrollUp(ScreenOf(k, k.current).cells)
      && ScreenOf(r, k.schedule).cells == ScreenOf(k, k.schedule).cells
  {
    ExecuteShowsDisplay(k);
    hide Execute, Inv;
    NewlineScrollsDisplay(Execute(k, Loads), k.schedule);
  }

  /** A load that fails while the program is read leaves the new page directory loaded, so
      that whatever is printed next in the background scrolls the display; one that fails
      before leaves the pages as they were. */
  lemma {:induction false} FailedLoadScrollsDisplay(k: Kernel, t: nat)
    requires Inv(k) && LeaksPid(k, BadImage) && t < |k.terms| && t != k.current && k.terms[t].y == S.ROWS - 1
    ensures VideoPage(Execute(k, BadEntry)) == VideoPage(k) && Execute(k, BadEntry).user == k.user
    ensures var e := Execute(k, BadImage);
      && CursorsFit(e) && |e.terms| == |k.terms|
      && var r := PutcAt(e, t, NEWLINE);
      && ScreenOf(r, k.current).cells == S.ScrollUp(ScreenOf(k, k.current).cells)
      && ScreenOf(r, t).cells == ScreenOf(k, t).cells
  {
    var e := Execute(k, BadImage);
    assert VideoPage(e) == 0 && e.mem == k.mem && e.terms == k.terms && e.current == k.current;
    assert e.x == k.x && e.y == k.y;
    hide Execute, Inv;
    NewlineScrollsDisplay(e, t);
  }

  /** What a parent does to which a program returns in the background. */
  lemma {:induction false} BackgroundParentScrollsDisplay(k: Kernel)
    requires Inv(k) && k.schedule != k.current && !IsRoot(k)
    requires k.terms[k.schedule].y == S.ROWS - 1
    ensures 0 <= k.pcbs[k.runningPid].parentPid < NUM_PROC
    ensures var h := Halt(k);
      && CursorsFit(h) && |h.terms| == |k.terms|
      && var r := PutcAt(h, k.schedule, NEWLINE);
      && ScreenOf(r, k.current).cells == S.ScrollUp(ScreenOf(k, k.current).cells)
      && ScreenOf(r, k.schedule).cells == ScreenOf(k, k.schedule).cells
  {
    HaltReturns(k);
    hide Halt, Inv;
    NewlineScrollsDisplay(Halt(k), k.schedule);
  }

  // -------------------------------------------------------------- opening terminals

  /** Opening a terminal before those below it, or when no pid is free. */
  lemma {:induction false} OutOfTurnStrands(k: Kernel, to: int)
    requires Inv(k) && 0 <= to < |k.terms| && to != k.current && k.terms[k.current].running
    requires !k.terms[to].running && !MayOpen(k, to)
    ensures Stranded(Tick(k, to))
  {
    var s := Switch(k, to);
    SwitchIsSwitched(k, to);
    var t := NextReady(s.terms, s.counter, 1);
    NextReadyIsReady(s.terms, s.counter, 1);
    if t == to {
      var m := s.(counter := t, schedule := t);
      if FirstFree(k.live, 0).Some? { StartTerms(m); }
    }
  }

  /** Leaving a terminal before its shell has started. */
  lemma {:induction false} LeavingStrands(k: Kernel, to: int)
    requires Inv(k) && 0 <= to < |k.terms| && to != k.current && !k.terms[k.current].running
    ensures Stranded(Tick(k, to))
  {
    var s, c := Switch(k, to), k.current;
    SwitchIsSwitched(k, to);
    var t := NextReady(s.terms, s.counter, 1);
    NextReadyIsReady(s.terms, s.counter, 1);
    NoneIdleBefore(s.terms, 0, c);
    assert s.terms[c].ready && !s.terms[c].running;
    if !s.terms[t].running {
      StartTerms(s.(counter := t, schedule := t));
    } else {
      assert Tick(k, to).terms[c] == s.terms[c];
    }
  }

  /** A tick keeps the full invariant exactly if no terminal is opened out of turn or left
      before its shell has started. */
  lemma {:induction false} TickSoundIff(k: Kernel, to: int)
    requires Inv(k)
    ensures Sound(Tick(k, to)) <==> TickOk(k, to)
  {
    var r := Tick(k, to);
    if TickOk(k, to) {
      TickSim(k, to);
      assert r == r.(chains := r.chains, place := r.place);
    } else {
      if k.terms[k.current].running { OutOfTurnStrands(k, to); } else { LeavingStrands(k, to); }
      StrandedIsUnsound(r);
    }
  }

  // ------------------------------------------------------------ how long it lasts

  lemma {:induction false} RemapPoints(k: Kernel, t: nat, p: nat)
    requires Shape(k) && t < |k.terms| && p < NUM_PROC
    ensures var r := Remap(k, t, p);
      && r.cr3 == p && r.video[p] == Target(r, t) && r.terms == k.terms && r.current == k.current
      && r.schedule == k.schedule && r.runningPid == k.runningPid
      && (k.terms[t].vidmap ==> r.user[p] == Some(Target(r, t)))
  {
  }

  lemma {:induction false} StartPoints(k: Kernel)
    requires Shape(k) && k.schedule == k.current && FirstFree(k.live, 0).Some?
    ensures var r := Execute(k, Loads);
      && r.cr3 == r.runningPid && r.video[r.runningPid] == Target(r, r.schedule) && r.schedule == k.schedule
  {
  }

  lemma {:induction false} DispatchPoints(k: Kernel)
    requires ProcInv(k) && Dispatch(k).schedule != k.schedule
    ensures var r := Dispatch(k);
      && r.cr3 == r.runningPid && r.video[r.runningPid] == Target(r, r.schedule)
      && r.schedule < |k.terms|
      && (k.terms[r.schedule].running && k.terms[r.schedule].vidmap ==>
            r.user[r.runningPid] == Some(Target(r, r.schedule)))
  {
    var t := NextReady(k.terms, k.counter, 1);
    NextReadyIsReady(k.terms, k.counter, 1);
    var m := k.(counter := t, schedule := t);
    RemapPoints(m.(runningPid := Leaf(k, t)), t, Leaf(k, t));
    if !k.terms[t].running {
      assert t == k.current && FirstFree(m.live, 0).Some?;
      StartPoints(m);
    }
    hide Remap, Execute, NextReady, ProcInv;
  }

  /** A tick that schedules another terminal puts its process's pages right, whatever they
      led to before: a mapping that has gone stale lasts until then and no longer. */
  lemma {:induction false} TickRestoresPages(k: Kernel, to: int)
    requires ProcInv(k) && TickOk(k, to) && Tick(k, to).schedule != k.schedule
    ensures var r := Tick(k, to);
      && r.cr3 == r.runningPid && r.video[r.runningPid] == Target(r, r.schedule)
      && r.schedule < |k.terms|
      && (k.terms[r.schedule].running && k.terms[r.schedule].vidmap ==>
            r.user[r.runningPid] == Some(Target(r, r.schedule)))
  {
    SwitchIsSwitched(k, to);
    SwitchKeepsProc(k, to);
    hide Switch, Dispatch, ProcInv;
    DispatchPoints(Switch(k, to));
  }
}
