/** Which programs have a vidmap page: what asks for it is recorded of the terminal, not of
    the process. */
module UserPages {
  import opened Bytes
  import opened KernelState
  import opened ProcessProofs
  import opened VideoProofs
  import opened Runs
  import opened Limits
  import opened Reached

  /** Terminal t has not asked, and none of its processes has a page. */
  ghost predicate NoPage(k: Kernel, t: nat) {
    && Shape(k) && t < |k.terms| && !k.terms[t].vidmap
    && forall i :: 0 <= i < |k.chains[t]| && k.chains[t][i] < NUM_PROC ==> k.user[k.chains[t][i]].None?
  }

  /** Another terminal's process gets or keeps its page. */
  lemma {:induction false} OtherPage(k: Kernel, t: nat, u: nat, page: Option<int>)
    requires ProcInv(k) && NoPage(k, t) && u < |k.terms| && u != t && k.chains[u] != []
    ensures Leaf(k, u) < NUM_PROC && NoPage(k.(user := k.user[Leaf(k, u) := page]), t)
  {
    var last := |k.chains[u]| - 1;
    forall i | 0 <= i < |k.chains[t]| ensures k.chains[t][i] != k.chains[u][last] { OneChainEach(k, t, i, u, last); }
    LeafIsLive(k, u);
  }

  lemma {:induction false} ExecutePages(k: Kernel, load: Load, t: nat)
    requires NoPage(k, t) && !LeaksPid(k, load)
    ensures |Execute(k, load).terms| == |k.terms| && NoPage(Execute(k, load), t)
    ensures Execute(k, load).terms[t].vidmap == k.terms[t].vidmap
  {
  }

  lemma {:induction false} DispatchPages(k: Kernel, t: nat)
    requires ProcInv(k) && NoPage(k, t) && (forall u :: 0 <= u < |k.terms| && k.terms[u].running ==> k.chains[u] != [])
    ensures |Dispatch(k).terms| == |k.terms| && NoPage(Dispatch(k), t)
  {
    var u := NextReady(k.terms, k.counter, 1);
    var m := k.(counter := u, schedule := u);
    if u != k.schedule {
      if k.terms[u].running {
        if u != t { OtherPage(k, t, u, Some(Target(m, u))); }
      } else {
        ExecutePages(m, Loads, t);
      }
    }
    hide Execute, ProcInv, NextReady;
  }

  lemma {:induction false} TickPages(k: Kernel, to: int, t: nat)
    requires ProcInv(k) && TickOk(k, to) && NoPage(k, t)
    ensures |Tick(k, to).terms| == |k.terms| && NoPage(Tick(k, to), t)
  {
    var s := Switch(k, to);
    SwitchIsSwitched(k, to);
    SwitchKeepsProc(k, to);
    hide Switch, Dispatch, TickOk;
    assert NoPage(s, t);
    DispatchPages(s, t);
  }

  lemma {:induction false} WritePages(k: Kernel, text: seq<byte>, t: nat)
    requires Inv(k) && WriteOk(k, text) && NoPage(k, t)
    ensures NoPage(WriteAt(k, k.schedule, text), t)
  {
    WriteSim(k, text);
    hide WriteAt, Inv, WriteOk;
  }

  lemma {:induction false} HaltPages(k: Kernel, t: nat)
    requires Inv(k) && Enabled(k, OnHalt) && NoPage(k, t)
    ensures NoPage(Halt(k), t)
  {
    RunningIsLeaf(k);
    if IsRoot(k) {
      ExecutePages(StopRoot(Unlink(k)), Loads, t);
    }
    hide Execute, ProcInv, Inv;
  }

  /** Only its own vidmap gives a terminal's processes a page. */
  lemma {:induction false} UnaskedStep(k: Kernel, e: Event, t: nat)
    requires Inv(k) && Enabled(k, e) && NoPage(k, t) && !(e.OnVidmap? && k.schedule == t)
    ensures Inv(Step(k, e)) && NoPage(Step(k, e), t)
  {
    StepSim(k, e);
    match e
    case OnTick(to) => TickPages(k, to, t);
    case OnWrite(text) => WritePages(k, text, t);
    case OnVidmap =>
      VidmapIs(k);
      RunningIsLeaf(k);
      OtherPage(k, t, k.schedule, Vidmap(k).user[k.runningPid]);
    case OnPoke(offset, b) => PokeIsSplice(k, offset, b);
    case OnExecute(load) => ExecutePages(k, load, t);
    case OnHalt => HaltPages(k, t);
  }

  ghost predicate NeverAsks(k: Kernel, events: seq<Event>, t: nat)
    requires Inv(k) && Allowed(k, events)
    decreases |events|
  {
    events != [] ==>
      && !(events[0].OnVidmap? && k.schedule == t)
      && (StepSim(k, events[0]); NeverAsks(Step(k, events[0]), events[1..], t))
  }

  /** A terminal whose programs never call vidmap never has a page, whatever the others do. */
  lemma {:induction false} UnaskedStaysUnmapped(k: Kernel, events: seq<Event>, t: nat)
    requires Inv(k) && Allowed(k, events) && NoPage(k, t) && NeverAsks(k, events, t)
    ensures NoPage(After(k, events), t)
    decreases |events|
  {
    if events != [] {
      UnaskedStep(k, events[0], t);
      UnaskedStaysUnmapped(Step(k, events[0]), events[1..], t);
    }
  }

  /** At the start there is none. */
  lemma {:induction false} BootPages(k: Kernel, t: nat)
    requires Zeroed(k) && t < |k.terms|
    ensures Inv(Boot(k)) && NoPage(Boot(k), t)
  {
    BootInv(k);
    assert FirstFree({}, 0) == Some(0);
  }

  /** A process that a tick resumes has a page exactly if its terminal is recorded to have
      asked, whichever of its processes that was. */
  lemma {:induction false} PageFollowsTerminal(k: Kernel, to: int)
    requires Inv(k) && TickOk(k, to) && Tick(k, to).schedule != k.schedule
    ensures var r := Tick(k, to);
      && r.schedule < |r.terms| == |k.terms| && Inv(r)
      && (k.terms[r.schedule].running ==>
            (r.user[r.runningPid].Some? <==> k.terms[r.schedule].vidmap))
      && forall t :: 0 <= t < |k.terms| ==> r.terms[t].vidmap == k.terms[t].vidmap
  {
    TickRestoresPages(k, to);
    TickSim(k, to);
    TickKeepsFlags(k, to);
    RunningIsLeaf(Tick(k, to));
    hide Tick, TickOk;
  }

  lemma {:induction false} TickKeepsFlags(k: Kernel, to: int)
    requires ProcInv(k) && TickOk(k, to)
    ensures |Tick(k, to).terms| == |k.terms|
    ensures forall t :: 0 <= t < |k.terms| ==> Tick(k, to).terms[t].vidmap == k.terms[t].vidmap
  {
    SwitchIsSwitched(k, to);
    hide Switch, TickOk;
    DispatchKeepsFlags(Switch(k, to));
    hide Dispatch;
  }

  lemma {:induction false} DispatchKeepsFlags(k: Kernel)
    requires Shape(k)
    ensures |Dispatch(k).terms| == |k.terms|
    ensures forall t :: 0 <= t < |k.terms| ==> Dispatch(k).terms[t].vidmap == k.terms[t].vidmap
  {
  }

  /** Halt withdraws the record exactly for a program that has a parent: a shell that ends
      leaves it to its successor, which has no page yet. */
  lemma {:induction false} HaltForgetsIff(k: Kernel)
    requires Inv(k) && Enabled(k, OnHalt)
    ensures var r := Halt(k);
      && r.schedule == k.schedule < |r.terms|
      && (!r.terms[r.schedule].vidmap <==> !IsRoot(k) || !k.terms[k.schedule].vidmap)
      && (IsRoot(k) ==> r.user[r.runningPid].None?)
  {
    if IsRoot(k) {
      FreshFlags(StopRoot(Unlink(k)));
    }
    hide Execute, ProcInv, Inv, Enabled;
  }

  lemma {:induction false} FreshFlags(k: Kernel)
    requires Shape(k)
    ensures var r := Execute(k, Loads);
      && r.schedule == k.schedule && |r.terms| == |k.terms|
      && (forall t :: 0 <= t < |k.terms| ==> r.terms[t].vidmap == k.terms[t].vidmap)
      && (FirstFree(k.live, 0).Some? ==> r.user[r.runningPid].None?)
  {
  }

  /** The shell asks, starts a program without a page, and after two ticks the program that
      never asked has one. */
  lemma {:induction false} InheritedPageIsReached(k: Kernel) returns (r: Kernel)
    requires Zeroed(k) && |k.terms| == 3
    ensures Leads(Boot(k), [OnVidmap, OnExecute(Loads), OnTick(1), OnTick(-1)], r)
    ensures Shape(r) && r.runningPid == 1 && r.schedule == 0 && r.user[1] == Some(Target(r, 0))
    ensures Shape(Boot(k)) && var asked := Vidmap(Boot(k)); asked.runningPid == 0 && Execute(asked, Loads).user[1] == None
  {
    hide ProcInv, Inv, Leads, Boot, Execute, Vidmap, Tick, TickOk;
    AtBoot(k);
    var b := Boot(k);
    MapShell(b);
    AskedByShell(b);
    OneMore(b, [], b, OnVidmap);
    assert [] + [OnVidmap] == [OnVidmap];
    var one := Vidmap(b);
    StartProgram(one);
    StartKeepsFlag(one);
    OneMore(b, [OnVidmap], one, OnExecute(Loads));
    assert [OnVidmap] + [OnExecute(Loads)] == [OnVidmap, OnExecute(Loads)];
    var two := Execute(one, Loads);
    FirstPids();
    OpenSecond(two, [0, 1], 2);
    TickKeepsFlag(two, 1);
    TickMore(b, [OnVidmap, OnExecute(Loads)], two, 1);
    assert [OnVidmap, OnExecute(Loads)] + [OnTick(1)] == [OnVidmap, OnExecute(Loads), OnTick(1)];
    var three := Tick(two, 1);
    FirstIsNext(three, [0, 1], [2], -1);
    TickMore(b, [OnVidmap, OnExecute(Loads), OnTick(1)], three, -1);
    assert [OnVidmap, OnExecute(Loads), OnTick(1)] + [OnTick(-1)] == [OnVidmap, OnExecute(Loads), OnTick(1), OnTick(-1)];
    r := Tick(three, -1);
    Resumed(three);
  }

  lemma {:induction false} AskedByShell(k: Kernel)
    requires At(k, [[0], [], []], 0, 0)
    ensures Vidmap(k).runningPid == 0 && |Vidmap(k).terms| == 3 && Vidmap(k).terms[0].vidmap
  {
    RunningIsLeaf(k);
    VidmapIs(k);
    hide Vidmap;
  }

  lemma {:induction false} StartKeepsFlag(k: Kernel)
    requires At(k, [[0], [], []], 0, 0) && k.live == {0} && k.terms[0].vidmap
    ensures |Execute(k, Loads).terms| == 3 && Execute(k, Loads).terms[0].vidmap
  {
    FirstPids();
    AtRuns(k, [[0], [], []], 0, 0, 0);
    ExecuteGrows(k);
    hide Execute;
  }

  lemma {:induction false} TickKeepsFlag(k: Kernel, to: int)
    requires Shape(k) && ProcInv(k) && TickOk(k, to) && k.terms[0].vidmap
    ensures |Tick(k, to).terms| == |k.terms| && Tick(k, to).terms[0].vidmap
  {
    TickKeepsFlags(k, to);
  }

  lemma {:induction false} Resumed(k: Kernel)
    requires At(k, [[0, 1], [2], []], 1, 1) && k.terms[0].vidmap
    requires At(Tick(k, -1), [[0, 1], [2], []], 0, 1) && TickOk(k, -1)
    ensures var r := Tick(k, -1); r.runningPid == 1 && r.user[1] == Some(Target(r, 0))
  {
    AtRuns(k, [[0, 1], [2], []], 1, 1, 0);
    TickRestoresPages(k, -1);
    RunningIsLeaf(Tick(k, -1));
    hide Tick, TickOk;
  }
}
