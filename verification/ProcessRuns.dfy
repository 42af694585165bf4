/** Runs as far as the process table goes: background execute, halts under stale pages and
    backspaces off the screen are all allowed here. */
module ProcessRuns {
  import opened Bytes
  import opened KernelState
  import opened ProcessProofs
  import V = VideoProofs
  import R = Runs

  /** What the process table asks of a step: no pid leaks, a program starts only while the
      displayed terminal has its shell, a root halts only while displayed, and terminals are
      opened in turn. */
  predicate Keeps(k: Kernel, e: R.Event)
    requires Shape(k)
  {
    match e
    case OnTick(to) => TickOk(k, to)
    case OnExecute(load) => !LeaksPid(k, load) && (Starts(k, load) ==> k.terms[k.current].running)
    case OnHalt => IsRoot(k) ==> k.schedule == k.current
    case _ => true
  }

  /** Cursors are unsigned in the code, and never negative. */
  ghost predicate Table(k: Kernel) {
    ProcInv(k) && CursorsFit(k)
  }

  // ------------------------------------------------------------------ one step

  lemma {:induction false} SameButTwice(k: Kernel, m: Kernel, r: Kernel)
    requires V.SameBut(k, m) && V.SameBut(m, r)
    ensures V.SameBut(k, r)
  {
  }

  lemma {:induction false} SetCursorSameBut(k: Kernel, t: nat, x: int, y: int)
    requires Shape(k) && CursorsFit(k) && t < |k.terms| && 0 <= x && 0 <= y
    ensures V.SameBut(k, SetCursor(k, t, x, y))
  {
  }

  lemma {:induction false} MemSameBut(k: Kernel, r: Kernel)
    requires Shape(k) && Shape(r) && r == k.(mem := r.mem)
    ensures V.SameBut(k, r)
  {
  }

  lemma {:induction false} AdvanceSameBut(k: Kernel, t: nat, x: int, y: int)
    requires Shape(k) && CursorsFit(k) && t < |k.terms| && 0 <= x && 0 <= y
    ensures V.SameBut(k, Advance(k, t, x, y)) && V.SameBut(k, NewLine(k, t, y))
  {
    hide SetCursor, ScrollVideo, V.SameBut;
    var up := ScrollVideo(k);
    MemSameBut(k, up);
    var nx := x + 1;
    SetCursorSameBut(k, t, nx, y);
    SetCursorSameBut(up, t, nx % 80, y);
    SetCursorSameBut(k, t, nx % 80, (y + nx / 80) % 25);
    SetCursorSameBut(k, t, 0, y + 1);
    SetCursorSameBut(up, t, 0, y);
    SameButTwice(k, up, SetCursor(up, t, nx % 80, y));
    SameButTwice(k, up, SetCursor(up, t, 0, y));
  }

  lemma {:induction false} EraseSameBut(k: Kernel, t: nat, x: int, y: int)
    requires Shape(k) && CursorsFit(k) && t < |k.terms| && 0 <= x && 0 <= y
    ensures V.SameBut(k, Erase(k, t, x, y))
  {
    hide SetCursor, BlankCell, V.SameBut;
    var back := StepBack(k, t, x, y);
    if x == 0 && y > 0 { SetCursorSameBut(k, t, 79, y - 1); } else { SetCursorSameBut(k, t, Wrap16(x - 1), y); }
    MemSameBut(back, BlankCell(back, t));
    SameButTwice(k, back, BlankCell(back, t));
  }

  lemma {:induction false} PutcSameBut(k: Kernel, t: nat, c: byte)
    requires Shape(k) && CursorsFit(k) && t < |k.terms|
    ensures V.SameBut(k, PutcAt(k, t, c))
  {
    hide Advance, NewLine, Erase, StoreChar, V.SameBut;
    var (x, y) := CursorOf(k, t);
    MemSameBut(k, k);
    AdvanceSameBut(k, t, x, y);
    EraseSameBut(k, t, x, y);
    var stored := StoreChar(k, t, x, y, if c == TAB then SPACE else c);
    MemSameBut(k, stored);
    AdvanceSameBut(stored, t, x, y);
    SameButTwice(k, stored, Advance(stored, t, x, y));
  }

  lemma {:induction false} WriteSameBut(k: Kernel, t: nat, text: seq<byte>)
    requires Shape(k) && CursorsFit(k) && t < |k.terms|
    ensures V.SameBut(k, WriteAt(k, t, text))
    decreases |text|
  {
    if text == [] {
      MemSameBut(k, k);
    } else {
      var most := WriteAt(k, t, text[..|text| - 1]);
      WriteSameBut(k, t, text[..|text| - 1]);
      PutcSameBut(most, t, text[|text| - 1]);
      SameButTwice(k, most, PutcAt(most, t, text[|text| - 1]));
    }
  }

  lemma {:induction false} SameButKeepsProc(k: Kernel, r: Kernel)
    requires ProcInv(k) && V.SameBut(k, r)
    ensures ProcInv(r)
  {
  }

  lemma {:induction false} SwitchKeepsCursors(k: Kernel, to: int)
    requires Shape(k) && CursorsFit(k)
    ensures CursorsFit(Switch(k, to))
  {
  }

  lemma {:induction false} DispatchKeepsCursors(k: Kernel)
    requires Shape(k) && CursorsFit(k)
    ensures CursorsFit(Dispatch(k))
  {
    var t := NextReady(k.terms, k.counter, 1);
    ExecuteKeepsCursors(k.(counter := t, schedule := t), Loads);
    hide Execute, NextReady;
  }

  lemma {:induction false} TickKeepsCursors(k: Kernel, to: int)
    requires Shape(k) && CursorsFit(k)
    ensures CursorsFit(Tick(k, to))
  {
    SwitchKeepsCursors(k, to);
    DispatchKeepsCursors(Switch(k, to));
    hide Switch, Dispatch;
  }

  lemma {:induction false} StepKeepsTable(k: Kernel, e: R.Event)
    requires Table(k) && Keeps(k, e)
    ensures e.OnHalt? ==> IsRoot(k) || 0 <= k.pcbs[k.runningPid].parentPid < NUM_PROC
    ensures Table(R.Step(k, e))
  {
    assert Shape(k);
    hide ProcInv, Tick, Halt, Execute;
    match e
    case OnTick(to) =>
      TickKeepsProc(k, to);
      TickKeepsCursors(k, to);
    case OnWrite(text) =>
      WriteSameBut(k, k.schedule, text);
      SameButKeepsProc(k, R.Step(k, e));
    case OnVidmap => VidmapKeepsTable(k);
    case OnPoke(offset, b) =>
      MemSameBut(k, Poke(k, offset, b));
      SameButKeepsProc(k, Poke(k, offset, b));
    case OnExecute(load) =>
      ExecuteKeepsProc(k, load);
      ExecuteKeepsCursors(k, load);
    case OnHalt =>
      HaltKeepsProc(k);
      HaltKeepsCursors(k);
  }

  lemma {:induction false} VidmapKeepsTable(k: Kernel)
    requires Table(k)
    ensures Table(Vidmap(k))
  {
  }

  lemma {:induction false} ExecuteKeepsCursors(k: Kernel, load: Load)
    requires Shape(k) && CursorsFit(k)
    ensures CursorsFit(Execute(k, load))
  {
  }

  lemma {:induction false} HaltKeepsCursors(k: Kernel)
    requires Shape(k) && CursorsFit(k) && (IsRoot(k) || 0 <= k.pcbs[k.runningPid].parentPid < NUM_PROC)
    ensures CursorsFit(Halt(k))
  {
    if IsRoot(k) { ExecuteKeepsCursors(StopRoot(Unlink(k)), Loads); }
  }

  // ---------------------------------------------------------------- whole runs

  ghost predicate AllKeep(k: Kernel, events: seq<R.Event>)
    requires Table(k)
    decreases |events|
  {
    events != [] ==>
      && Keeps(k, events[0])
      && (StepKeepsTable(k, events[0]); AllKeep(R.Step(k, events[0]), events[1..]))
  }

  ghost function After(k: Kernel, events: seq<R.Event>): (r: Kernel)
    requires Table(k) && AllKeep(k, events)
    ensures Table(r)
    decreases |events|
  {
    if events == [] then k else StepKeepsTable(k, events[0]); After(R.Step(k, events[0]), events[1..])
  }

  /** Parent and child pointers of live processes are inverse and lead to live processes. */
  ghost predicate LinksInverse(k: Kernel) {
    && Shape(k)
    && forall p :: 0 <= p < NUM_PROC && p in k.live ==>
         && k.pcbs[p].pid == p
         && (k.pcbs[p].child.Some? ==>
               var c := k.pcbs[p].child.value;
               c in k.live && c < NUM_PROC && k.pcbs[c].parent == Some(p) && k.pcbs[c].parentPid == p)
         && (k.pcbs[p].parent.Some? ==>
               var q := k.pcbs[p].parent.value;
               q in k.live && k.pcbs[q].child == Some(p) && k.pcbs[p].parentPid == q)
  }

  /** Each process of a chain is live, in that one place, and recorded as a terminal's
      exactly if it is that terminal's root. */
  ghost predicate OnePlaceEach(k: Kernel) {
    && Shape(k)
    && forall t, i, u, j :: 0 <= t < |k.terms| && 0 <= u < |k.terms|
                            && 0 <= i < |k.chains[t]| && 0 <= j < |k.chains[u]| ==>
         && k.chains[t][i] in k.live
         && (k.chains[t][i] == k.chains[u][j] <==> t == u && i == j)
         && FirstWithPid(k.terms, k.chains[t][i], 0) == if i == 0 then t else |k.terms|
  }

  /** get_running_terminal's climb from the running process ends at the scheduled terminal. */
  ghost predicate OwnerIsFound(k: Kernel) {
    && Shape(k) && k.chains[k.schedule] != []
    && k.runningPid == Last(k.chains[k.schedule]) && k.runningPid in k.live
    && Climbs(k.pcbs, k.terms, k.chains[k.schedule], k.schedule)
  }

  lemma {:induction false} LinksAreSound(k: Kernel)
    requires ProcInv(k)
    ensures LinksInverse(k)
  {
    forall p | 0 <= p < NUM_PROC && p in k.live
      ensures && k.pcbs[p].pid == p
              && (k.pcbs[p].child.Some? ==>
                    var c := k.pcbs[p].child.value;
                    c in k.live && c < NUM_PROC && k.pcbs[c].parent == Some(p) && k.pcbs[c].parentPid == p)
              && (k.pcbs[p].parent.Some? ==>
                    var q := k.pcbs[p].parent.value;
                    q in k.live && k.pcbs[q].child == Some(p) && k.pcbs[p].parentPid == q)
    {
      LinksAreInverse(k, p);
    }
  }

  lemma {:induction false} PlacesAreSound(k: Kernel)
    requires ProcInv(k)
    ensures OnePlaceEach(k)
  {
    forall t, i, u, j | 0 <= t < |k.terms| && 0 <= u < |k.terms| && 0 <= i < |k.chains[t]| && 0 <= j < |k.chains[u]|
      ensures && k.chains[t][i] in k.live
              && (k.chains[t][i] == k.chains[u][j] <==> t == u && i == j)
              && FirstWithPid(k.terms, k.chains[t][i], 0) == if i == 0 then t else |k.terms|
    {
      OneChainEach(k, t, i, u, j);
      OwnerOfPid(k, t, i);
    }
  }

  lemma {:induction false} OwnerIsSound(k: Kernel)
    requires ProcInv(k)
    ensures OwnerIsFound(k)
  {
    RunningIsLeaf(k);
    RunningClimbs(k);
  }

  /** In every state that the kernel can reach by such steps from its start, the process
      pointers form one chain per started terminal, no process is in two places, and the
      running process is found to belong to the scheduled terminal. */
  lemma {:induction false} TableStaysSound(k: Kernel, events: seq<R.Event>)
    requires R.Zeroed(k) && Table(R.Boot(k)) && AllKeep(R.Boot(k), events)
    ensures var r := After(R.Boot(k), events);
      LinksInverse(r) && OnePlaceEach(r) && OwnerIsFound(r)
  {
    var r := After(R.Boot(k), events);
    assert ProcInv(r);
    hide *;
    LinksAreSound(r);
    PlacesAreSound(r);
    OwnerIsSound(r);
  }

  /** The start is such a state. */
  lemma {:induction false} BootTable(k: Kernel)
    requires R.Zeroed(k)
    ensures Table(R.Boot(k)) && |R.Boot(k).terms| == |k.terms|
  {
    R.BootInv(k);
  }

  // ---------------------------------------------------- started terminals stay started

  /** The terminals started in k are started in r. */
  ghost predicate Started(k: Kernel, r: Kernel) {
    |r.terms| == |k.terms| && forall t :: 0 <= t < |k.terms| && k.terms[t].running ==> r.terms[t].running
  }

  lemma {:induction false} ExecuteStarted(k: Kernel, load: Load)
    requires Shape(k)
    ensures Started(k, Execute(k, load))
  {
  }

  lemma {:induction false} TickStarted(k: Kernel, to: int)
    requires Shape(k)
    ensures Started(k, Tick(k, to))
  {
    SwitchIsSwitched(k, to);
    var s := Switch(k, to);
    var t := NextReady(s.terms, s.counter, 1);
    ExecuteStarted(s.(counter := t, schedule := t), Loads);
    hide Switch, Execute, NextReady;
  }

  lemma {:induction false} HaltStarted(k: Kernel)
    requires ProcInv(k) && (IsRoot(k) ==> k.schedule == k.current)
    ensures IsRoot(k) || 0 <= k.pcbs[k.runningPid].parentPid < NUM_PROC
    ensures Started(k, Halt(k))
  {
    HaltKeepsProc(k);
    if IsRoot(k) { HaltRootKeepsProc(k); }
  }

  lemma {:induction false} StepStarted(k: Kernel, e: R.Event)
    requires Table(k) && Keeps(k, e)
    ensures e.OnHalt? ==> IsRoot(k) || 0 <= k.pcbs[k.runningPid].parentPid < NUM_PROC
    ensures Started(k, R.Step(k, e))
  {
    assert Shape(k);
    hide ProcInv, Tick, Halt, Execute;
    match e
    case OnTick(to) => TickStarted(k, to);
    case OnWrite(text) => WriteSameBut(k, k.schedule, text);
    case OnVidmap =>
    case OnPoke(offset, b) =>
    case OnExecute(load) => ExecuteStarted(k, load);
    case OnHalt => HaltStarted(k);
  }
}
