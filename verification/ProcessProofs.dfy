/** The process table stays well formed in every run of execute, halt and tick. */
module ProcessProofs {
  import opened Bytes
  import opened KernelState

  type Chains = seq<seq<nat>>
  type Places = map<nat, (nat, nat)>

  // ------------------------------------------------ growing and shrinking chains

  /** A fresh process under the last one of a chain. */
  lemma {:induction false} Grow(pcbs: seq<Pcb>, chains: Chains, place: Places, t: nat, p: nat)
    requires Woven(pcbs, chains, place)
    requires t < |chains| && chains[t] != [] && p < |pcbs| && p !in place
    ensures var q := Last(chains[t]);
      && q < |pcbs| && q in place
      && Woven(pcbs[p := Pcb(p, q, Some(q), None)][q := pcbs[q].(child := Some(p))],
               chains[t := chains[t] + [p]], place[p := (t, |chains[t]|)])
  {
    var c := chains[t];
    var n := |c|;
    assert Sits(pcbs, chains, place, t, n - 1);
    var q := c[n - 1];
    var pcbs2 := pcbs[p := Pcb(p, q, Some(q), None)][q := pcbs[q].(child := Some(p))];
    var chains2, place2 := chains[t := c + [p]], place[p := (t, n)];
    forall u, i | 0 <= u < |chains2| && 0 <= i < |chains2[u]| ensures Sits(pcbs2, chains2, place2, u, i) {
      if !(u == t && i == n) {
        assert Sits(pcbs, chains, place, u, i);
      }
    }
  }

  /** A fresh root process. */
  lemma {:induction false} Plant(pcbs: seq<Pcb>, chains: Chains, place: Places, t: nat, p: nat)
    requires Woven(pcbs, chains, place)
    requires t < |chains| && chains[t] == [] && p < |pcbs| && p !in place
    ensures Woven(pcbs[p := Pcb(p, -1, None, None)], chains[t := [p]], place[p := (t, 0)])
  {
    var pcbs2, chains2, place2 := pcbs[p := Pcb(p, -1, None, None)], chains[t := [p]], place[p := (t, 0)];
    forall u, i | 0 <= u < |chains2| && 0 <= i < |chains2[u]| ensures Sits(pcbs2, chains2, place2, u, i) {
      if u != t { assert Sits(pcbs, chains, place, u, i); }
    }
  }

  /** The last process of a chain goes. */
  lemma {:induction false} Shrink(pcbs: seq<Pcb>, chains: Chains, place: Places, t: nat)
    requires Woven(pcbs, chains, place)
    requires t < |chains| && |chains[t]| >= 2
    ensures var c := chains[t];
      var q := c[|c| - 2];
      && q < |pcbs|
      && Woven(pcbs[q := pcbs[q].(child := None)], chains[t := c[..|c| - 1]], place - {Last(c)})
  {
    var c := chains[t];
    var n := |c|;
    assert Sits(pcbs, chains, place, t, n - 1) && Sits(pcbs, chains, place, t, n - 2);
    var q := c[n - 2];
    var pcbs2 := pcbs[q := pcbs[q].(child := None)];
    var chains2, place2 := chains[t := c[..n - 1]], place - {c[n - 1]};
    forall u, i | 0 <= u < |chains2| && 0 <= i < |chains2[u]| ensures Sits(pcbs2, chains2, place2, u, i) {
      assert Sits(pcbs, chains, place, u, i);
    }
  }

  lemma {:induction false} Uproot(pcbs: seq<Pcb>, chains: Chains, place: Places, t: nat)
    requires Woven(pcbs, chains, place)
    requires t < |chains| && |chains[t]| == 1
    ensures Woven(pcbs, chains[t := []], place - {chains[t][0]})
  {
    var chains2, place2 := chains[t := []], place - {chains[t][0]};
    assert Sits(pcbs, chains, place, t, 0);
    forall u, i | 0 <= u < |chains2| && 0 <= i < |chains2[u]| ensures Sits(pcbs, chains2, place2, u, i) {
      assert Sits(pcbs, chains, place, u, i);
    }
  }

  // -------------------------------------------------------- what the steps keep

  lemma {:induction false} LeafIsLive(k: Kernel, t: nat)
    requires Shape(k) && ChainsOk(k) && t < |k.terms| && k.chains[t] != []
    ensures Leaf(k, t) == Last(k.chains[t]) && Leaf(k, t) in k.live
    ensures k.place[Leaf(k, t)] == (t, |k.chains[t]| - 1)
    ensures k.pcbs[Leaf(k, t)] == Link(k.chains[t], |k.chains[t]| - 1)
  {
    assert Sits(k.pcbs, k.chains, k.place, t, |k.chains[t]| - 1);
  }

  /** Parent and child pointers of live processes are inverse to each other, and both
      lead to live processes. */
  lemma {:induction false} LinksAreInverse(k: Kernel, p: nat)
    requires ProcInv(k) && p in k.live
    ensures p < NUM_PROC && k.pcbs[p].pid == p
    ensures k.pcbs[p].child.Some? ==>
              var c := k.pcbs[p].child.value;
              c in k.live && c < NUM_PROC && k.pcbs[c].parent == Some(p) && k.pcbs[c].parentPid == p
    ensures k.pcbs[p].parent.Some? ==>
              var q := k.pcbs[p].parent.value;
              q in k.live && k.pcbs[q].child == Some(p) && k.pcbs[p].parentPid == q
    ensures k.pcbs[p].parent.None? <==> k.pcbs[p].parentPid == -1
  {
    var (t, i) := k.place[p];
    assert Sits(k.pcbs, k.chains, k.place, t, i);
    if i > 0 { assert Sits(k.pcbs, k.chains, k.place, t, i - 1); }
    if i + 1 < |k.chains[t]| { assert Sits(k.pcbs, k.chains, k.place, t, i + 1); }
  }

  /** The live processes are exactly those on the chains of started terminals, each in one
      place only: no chain meets another or itself, and root shells have distinct pids. */
  lemma {:induction false} OneChainEach(k: Kernel, t: nat, i: nat, u: nat, j: nat)
    requires ProcInv(k) && t < |k.terms| && u < |k.terms| && i < |k.chains[t]| && j < |k.chains[u]|
    ensures k.chains[t][i] in k.live && k.terms[t].running && k.chains[t][0] == k.terms[t].pid
    ensures k.chains[t][i] == k.chains[u][j] <==> t == u && i == j
  {
    assert Sits(k.pcbs, k.chains, k.place, t, i) && Sits(k.pcbs, k.chains, k.place, u, j);
  }

  lemma {:induction false} RunningIsLeaf(k: Kernel)
    requires ProcInv(k)
    ensures k.chains[k.schedule] != []
    ensures k.runningPid in k.live
    ensures k.pcbs[k.runningPid] == Link(k.chains[k.schedule], |k.chains[k.schedule]| - 1)
    ensures IsRoot(k) <==> |k.chains[k.schedule]| == 1
    ensures IsRoot(k) || 0 <= k.pcbs[k.runningPid].parentPid < NUM_PROC
  {
    LeafIsLive(k, k.schedule);
    var c := k.chains[k.schedule];
    if |c| >= 2 { assert Sits(k.pcbs, k.chains, k.place, k.schedule, |c| - 2); }
  }

  /** A pid identifies a terminal exactly if it is that terminal's root shell. */
  lemma {:induction false} OwnerOfPid(k: Kernel, t: nat, i: nat)
    requires ProcInv(k) && t < |k.terms| && i < |k.chains[t]|
    ensures FirstWithPid(k.terms, k.chains[t][i], 0) == if i == 0 then t else |k.terms|
  {
    var p := k.chains[t][i];
    assert Sits(k.pcbs, k.chains, k.place, t, i);
    assert Sits(k.pcbs, k.chains, k.place, 0, 0);
    var r := FirstWithPid(k.terms, p, 0);
    if r < |k.terms| && k.chains[r] != [] { assert Sits(k.pcbs, k.chains, k.place, r, 0); }
    if i == 0 { assert k.terms[t].pid == p; }
  }

  lemma {:induction false} RunningClimbs(k: Kernel)
    requires ProcInv(k)
    ensures Climbs(k.pcbs, k.terms, k.chains[k.schedule], k.schedule)
    ensures k.runningPid == Last(k.chains[k.schedule])
  {
    var t := k.schedule;
    var c := k.chains[t];
    forall i | 0 <= i < |c| ensures ClimbsAt(k.pcbs, k.terms, c, t, i) {
      assert Sits(k.pcbs, k.chains, k.place, t, i);
      OwnerOfPid(k, t, i);
    }
  }

  /** The climb still works after the parent has dropped its link to the running process. */
  lemma {:induction false} ClearedStillClimbs(k: Kernel)
    requires Shape(k) && Climbs(k.pcbs, k.terms, k.chains[k.schedule], k.schedule)
    ensures var r := ClearChild(k); Climbs(r.pcbs, r.terms, r.chains[r.schedule], r.schedule)
  {
    var r := ClearChild(k);
    var c := k.chains[k.schedule];
    forall i | 0 <= i < |c| ensures ClimbsAt(r.pcbs, r.terms, c, r.schedule, i) {
      assert ClimbsAt(k.pcbs, k.terms, c, k.schedule, i);
    }
  }

  /** A process more at the end of the scheduled chain. */
  lemma {:induction false} GrownIsProc(k: Kernel, r: Kernel, p: nat)
    requires ProcInv(k) && Shape(r) && p !in k.live && k.terms[k.current].running
    requires r.terms == k.terms && r.current == k.current && r.schedule == k.schedule == r.counter
    requires r.live == k.live + {p} && r.runningPid == p && r.place.Keys == r.live
    requires r.chains == k.chains[k.schedule := k.chains[k.schedule] + [p]]
    requires Woven(r.pcbs, r.chains, r.place)
    ensures ProcInv(r)
  {
    hide Woven;
  }

  lemma {:induction false} ExecuteGrows(k: Kernel)
    requires ProcInv(k) && Starts(k, Loads) && k.terms[k.current].running
    ensures var p, q, r := FirstFree(k.live, 0).value, Last(k.chains[k.schedule]), Execute(k, Loads);
      && q == k.runningPid < NUM_PROC
      && r.pcbs == k.pcbs[p := Pcb(p, q, Some(q), None)][q := k.pcbs[q].(child := Some(p))]
      && r.chains == k.chains[k.schedule := k.chains[k.schedule] + [p]]
      && r.place == k.place[p := (k.schedule, |k.chains[k.schedule]|)] && r.live == k.live + {p}
      && r.terms == k.terms && r.current == k.current && r.schedule == k.schedule == r.counter && r.runningPid == p
  {
    RunningIsLeaf(k);
    assert Sits(k.pcbs, k.chains, k.place, k.current, 0);
  }

  lemma {:induction false} ExecuteKeepsProc(k: Kernel, load: Load)
    requires ProcInv(k) && !LeaksPid(k, load) && (Starts(k, load) ==> k.terms[k.current].running)
    ensures ProcInv(Execute(k, load))
  {
    if Starts(k, load) {
      var p := FirstFree(k.live, 0).value;
      ExecuteGrows(k);
      Grow(k.pcbs, k.chains, k.place, k.schedule, p);
      hide Execute;
      GrownIsProc(k, Execute(k, Loads), p);
    }
  }

  /** Starting the first idle terminal's root shell. */
  lemma {:induction false} StartKeepsChains(k: Kernel, t: nat)
    requires Shape(k) && ChainsOk(k) && t == k.current
    requires k.chains[t] == [] && !k.terms[t].running
    requires forall u :: 0 <= u < t ==> k.terms[u].running
    requires FirstFree(k.live, 0).Some?
    ensures var p := FirstFree(k.live, 0).value;
      var e := Execute(k, Loads);
      && ChainsOk(e) && e.chains == k.chains[t := [p]]
      && e.runningPid == p && e.schedule == k.schedule && e.current == k.current && e.counter == k.counter
      && e.terms == k.terms[t := k.terms[t].(pid := p, running := true)]
  {
    var p := FirstFree(k.live, 0).value;
    Plant(k.pcbs, k.chains, k.place, t, p);
  }

  lemma {:induction false} HaltRootKeepsProc(k: Kernel)
    requires ProcInv(k) && IsRoot(k) && k.schedule == k.current
    ensures ProcInv(Halt(k))
    ensures var p := Halt(k).runningPid;
      Halt(k).terms == k.terms[k.schedule := k.terms[k.schedule].(pid := p)]
  {
    RunningIsLeaf(k);
    var t := k.schedule;
    Uproot(k.pcbs, k.chains, k.place, t);
    var u := Unlink(k);
    var v := u.(terms := u.terms[t := u.terms[t].(running := false)], chains := u.chains[t := []]);
    StartKeepsChains(v, t);
  }

  lemma {:induction false} FreeAfterRelease(live: set<nat>, p: nat, from: nat)
    requires from <= p < NUM_PROC
    ensures FirstFree(live - {p}, from).Some?
  {
  }

  /** A process less at the end of the scheduled chain. */
  lemma {:induction false} ShrunkIsProc(k: Kernel, r: Kernel, p: nat)
    requires ProcInv(k) && Shape(r) && |k.chains[k.schedule]| >= 2 && p < NUM_PROC
    requires r.terms == k.terms[k.schedule := k.terms[k.schedule].(vidmap := false)]
    requires r.current == k.current && r.schedule == k.schedule == r.counter
    requires r.live == k.live - {p} && r.place.Keys == r.live
    requires r.chains == k.chains[k.schedule := k.chains[k.schedule][..|k.chains[k.schedule]| - 1]]
    requires r.runningPid == Last(r.chains[r.schedule])
    requires Woven(r.pcbs, r.chains, r.place)
    ensures ProcInv(r)
  {
    FreeAfterRelease(k.live, p, 0);
    hide Woven;
  }

  lemma {:induction false} HaltShrinks(k: Kernel)
    requires ProcInv(k) && !IsRoot(k)
    ensures 0 <= k.pcbs[k.runningPid].parentPid < NUM_PROC && |k.chains[k.schedule]| >= 2
    ensures var p, r, c := k.runningPid, Halt(k), k.chains[k.schedule];
      var q := c[|c| - 2];
      && q < NUM_PROC && r.pcbs == k.pcbs[q := k.pcbs[q].(child := None)]
      && r.chains == k.chains[k.schedule := c[..|c| - 1]]
      && r.place == k.place - {p} && r.live == k.live - {p} && r.runningPid == q
      && r.terms == k.terms[k.schedule := k.terms[k.schedule].(vidmap := false)]
      && r.current == k.current && r.schedule == k.schedule == r.counter
  {
    RunningIsLeaf(k);
    var c := k.chains[k.schedule];
    assert Sits(k.pcbs, k.chains, k.place, k.schedule, |c| - 2);
  }

  lemma {:induction false} HaltChildKeepsProc(k: Kernel)
    requires ProcInv(k) && !IsRoot(k)
    ensures 0 <= k.pcbs[k.runningPid].parentPid < NUM_PROC
    ensures ProcInv(Halt(k))
  {
    HaltShrinks(k);
    Shrink(k.pcbs, k.chains, k.place, k.schedule);
    hide Halt;
    ShrunkIsProc(k, Halt(k), k.runningPid);
  }

  /** Pid 0 never leaves the first terminal: its root shell, if restarted, gets it back. */
  lemma {:induction false} HaltKeepsProc(k: Kernel)
    requires ProcInv(k) && (IsRoot(k) ==> k.schedule == k.current)
    ensures IsRoot(k) || 0 <= k.pcbs[k.runningPid].parentPid < NUM_PROC
    ensures ProcInv(Halt(k))
  {
    if IsRoot(k) { HaltRootKeepsProc(k); } else { HaltChildKeepsProc(k); }
  }

  lemma {:induction false} NextReadyIsReady(terms: seq<Terminal>, c: nat, d: nat)
    requires c < |terms| && 1 <= d <= |terms|
    requires terms[c].ready
    ensures terms[NextReady(terms, c, d)].ready
    decreases |terms| - d
  {
    if d < |terms| { NextReadyIsReady(terms, c, d + 1); }
  }

  /** What a switch from k to s does to the process table and the schedule: next to
      nothing.  Terminal to is displayed and may be scheduled. */
  ghost predicate Switched(k: Kernel, s: Kernel, to: int) {
    && Shape(k) && Shape(s) && |s.terms| == |k.terms|
    && s.live == k.live && s.runningPid == k.runningPid && s.pcbs == k.pcbs
    && s.schedule == k.schedule && s.counter == k.counter && s.user == k.user
    && s.chains == k.chains && s.place == k.place
    && (to == k.current || !(0 <= to < |k.terms|) ==> s == k)
    && (0 <= to < |k.terms| ==> s.current == to)
    && forall t :: 0 <= t < |k.terms| ==>
         s.terms[t] == k.terms[t].(ready := k.terms[t].ready || (t == to && t != k.current),
                                   x := s.terms[t].x, y := s.terms[t].y)
  }

  lemma {:induction false} SwitchIsSwitched(k: Kernel, to: int)
    requires Shape(k)
    ensures Switched(k, Switch(k, to), to)
  {
  }

  lemma {:induction false} SwitchKeepsProc(k: Kernel, to: int)
    requires ProcInv(k) && TickOk(k, to)
    ensures ProcInv(Switch(k, to))
  {
    SwitchIsSwitched(k, to);
  }

  lemma {:induction false} ResumeKeepsProc(k: Kernel, t: nat)
    requires ProcInv(k) && t < |k.terms| && k.terms[t].running
    ensures ProcInv(k.(schedule := t, counter := t, runningPid := Leaf(k, t)))
  {
    LeafIsLive(k, t);
  }

  lemma {:induction false} StartedIsProc(k: Kernel, t: nat)
    requires Shape(k) && ChainsOk(k) && t == k.current == k.schedule == k.counter
    requires k.chains[t] == [] && !k.terms[t].running && k.terms[t].ready
    requires forall u :: 0 <= u < |k.terms| && u != t ==>
      && k.terms[u].running == k.terms[u].ready && (k.terms[u].running <==> k.chains[u] != [])
      && k.terms[u].pid == (if k.chains[u] == [] then 0 else k.chains[u][0])
    requires forall u :: 0 <= u < |k.terms| && u != t ==> k.terms[u].running == (u < t)
    requires k.terms[0].running && k.terms[0].pid == 0
    requires FirstFree(k.live, 0).Some?
    ensures ProcInv(Execute(k, Loads))
  {
    StartKeepsChains(k, t);
  }

  lemma {:induction false} StartKeepsProc(k: Kernel)
    requires ProcInv(k) && !k.terms[k.current].running
    ensures ProcInv(Execute(k.(schedule := k.current, counter := k.current), Loads))
  {
    StartedIsProc(k.(schedule := k.current, counter := k.current), k.current);
  }

  lemma {:induction false} RemapKeepsProc(k: Kernel, t: nat, p: nat)
    requires ProcInv(k) && t < |k.terms| && p < NUM_PROC
    ensures ProcInv(Remap(k, t, p))
  {
  }

  lemma {:induction false} DispatchKeepsProc(k: Kernel)
    requires ProcInv(k)
    ensures ProcInv(Dispatch(k))
  {
    var t := NextReady(k.terms, k.counter, 1);
    NextReadyIsReady(k.terms, k.counter, 1);
    if t == k.schedule {
      assert Dispatch(k) == k;
    } else if k.terms[t].running {
      ResumeKeepsProc(k, t);
      RemapKeepsProc(k.(schedule := t, counter := t, runningPid := Leaf(k, t)), t, Leaf(k, t));
    } else {
      StartKeepsProc(k);
    }
  }

  lemma {:induction false} TickKeepsProc(k: Kernel, to: int)
    requires ProcInv(k) && TickOk(k, to)
    ensures ProcInv(Tick(k, to))
  {
    SwitchKeepsProc(k, to);
    DispatchKeepsProc(Switch(k, to));
  }

  lemma {:induction false} MayDispatch(k: Kernel, to: int)
    requires ProcInv(k)
    ensures var s := Switch(k, to);
      && s.terms[0].ready && ChainsOk(s)
      && forall t :: 0 <= t < |s.terms| && s.terms[t].running ==>
           s.chains[t] != [] && s.terms[t].pid == s.chains[t][0]
  {
    SwitchIsSwitched(k, to);
  }

  /** After every tick the running process is the last one of the scheduled chain. */
  lemma {:induction false} TickRunsLeaf(k: Kernel, to: int)
    requires ProcInv(k) && TickOk(k, to)
    ensures var r := Tick(k, to);
      && r.chains[r.schedule] != [] && r.runningPid == Last(r.chains[r.schedule])
      && r.pcbs[r.runningPid].child == None
      && r.schedule == NextReady(Switch(k, to).terms, k.counter, 1)
  {
    TickKeepsProc(k, to);
    RunningIsLeaf(Tick(k, to));
    SwitchIsSwitched(k, to);
    DispatchSelects(Switch(k, to));
    hide ProcInv, Switch, Dispatch, NextReady;
  }

  lemma {:induction false} DispatchSelects(k: Kernel)
    requires Shape(k)
    ensures Dispatch(k).schedule == NextReady(k.terms, k.counter, 1)
  {
  }
}
