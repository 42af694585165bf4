/** The virtual real-time clocks, one per terminal, driven by one real interrupt. */
module Rtc {
  import opened Arithmetic
  import opened Bytes
  import H = Kernel
  import K = KernelState
  import P = ProcessProofs
  import PR = ProcessRuns
  import R = Runs

  datatype Clock = Clock(virtFreq: u32, realFreq: u32, intCount: u32, flag: bool)

  // ------------------------------------------------------------ powers of two

  ghost predicate IsPow2(v: nat) {
    exists n: nat :: Pow2(n) == v
  }

  /** Bitwise and. */
  function And(a: nat, b: nat): nat
    decreases a
  {
    if a == 0 then 0 else (if a % 2 == 1 && b % 2 == 1 then 1 else 0) + 2 * And(a / 2, b / 2)
  }

  lemma {:induction false} AndSelf(a: nat)
    ensures And(a, a) == a
    decreases a
  {
    if a > 0 { AndSelf(a / 2); }
  }

  lemma {:induction false} HalfPow2(v: nat)
    requires v >= 2
    ensures IsPow2(v) <==> v % 2 == 0 && IsPow2(v / 2)
  {
    if IsPow2(v) {
      var n: nat :| Pow2(n) == v;
      assert Pow2(n - 1) == v / 2;
    }
    if v % 2 == 0 && IsPow2(v / 2) {
      var n: nat :| Pow2(n) == v / 2;
      assert Pow2(n + 1) == v;
    }
  }

  /** v & (v - 1) clears the lowest set bit: nothing is left exactly of a power of two. */
  lemma {:induction false} OneBitIffPow2(v: nat)
    requires v > 0
    ensures And(v, v - 1) == 0 <==> IsPow2(v)
    decreases v
  {
    if v == 1 {
      assert Pow2(0) == 1;
    } else {
      HalfPow2(v);
      if v % 2 == 0 {
        assert (v - 1) / 2 == v / 2 - 1;
        OneBitIffPow2(v / 2);
      } else {
        assert (v - 1) / 2 == v / 2;
        AndSelf(v / 2);
      }
    }
  }

  lemma {:induction false} Pow2Divides(v: nat, r: nat)
    requires IsPow2(v) && IsPow2(r) && v <= r
    ensures r % v == 0 && (r / v) * v == r
    decreases v
  {
    if v > 1 {
      HalfPow2(v);
      HalfPow2(r);
      Pow2Divides(v / 2, r / 2);
      var q := (r / 2) / (v / 2);
      assert q * (v / 2) == r / 2;
      assert q * v == r;
      QuotientIs(r, v, q, 0);
    }
  }

  // ---------------------------------------------------------- one clock's steps

  function Count(c: Clock): Clock {
    var n := Wrap32(c.intCount + 1);
    c.(intCount := n, flag := c.realFreq <= Wrap32(c.virtFreq * n))
  }

  function Reset(c: Clock): Clock {
    c.(flag := false, intCount := 0)
  }

  predicate AcceptsFreq(c: Clock, freq: u32) {
    freq != 0 && freq <= c.realFreq && And(freq, freq - 1) == 0
  }

  function SetFreq(c: Clock, freq: u32): Clock {
    if AcceptsFreq(c, freq) then c.(intCount := 0, virtFreq := freq) else c
  }

  /** Accepted are the powers of two up to the real frequency. */
  lemma {:induction false} AcceptedIff(c: Clock, freq: u32)
    ensures AcceptsFreq(c, freq) <==> IsPow2(freq) && freq <= c.realFreq
  {
    if freq > 0 { OneBitIffPow2(freq); } else { assert forall n: nat :: Pow2(n) != 0; }
  }

  function Counted(c: Clock, n: nat): Clock {
    if n == 0 then c else Count(Counted(c, n - 1))
  }

  lemma {:induction false} CountedIs(c: Clock, n: nat)
    requires c.intCount + n < 0x1_0000_0000
    ensures Counted(c, n).intCount == c.intCount + n
    ensures Counted(c, n).virtFreq == c.virtFreq && Counted(c, n).realFreq == c.realFreq
    ensures n > 0 ==> (Counted(c, n).flag <==> c.realFreq <= Wrap32(c.virtFreq * (c.intCount + n)))
    decreases n
  {
    if n > 0 {
      CountedIs(c, n - 1);
      assert Wrap32(c.intCount + n) == c.intCount + n;
    }
  }

  lemma {:induction false} Scale(v: nat, a: nat, b: nat)
    requires v > 0
    ensures v * a <= v * b <==> a <= b
  {
    if a <= b {
      assert v * b == v * a + v * (b - a);
    } else {
      assert v * a == v * b + v * (a - b) && v * (a - b) > 0;
    }
  }

  lemma {:induction false} FlagAt(c: Clock, n: nat)
    requires 0 < n && 0 < c.virtFreq && c.virtFreq * n < 0x1_0000_0000
    ensures Counted(Reset(c), n).flag <==> c.realFreq <= c.virtFreq * n
  {
    Scale(c.virtFreq, 1, c.virtFreq);
    assert n <= c.virtFreq * n by { assert (c.virtFreq - 1) * n >= 0; }
    CountedIs(Reset(c), n);
  }

  lemma {:induction false} QuotientPositive(v: nat, r: nat)
    requires 0 < v && 0 < r && v * (r / v) == r
    ensures r / v >= 1
  {
  }

  lemma {:induction false} NoFlagAtOnce(c: Clock)
    ensures !Counted(Reset(c), 0).flag
  {
  }

  /** Both frequencies are as they can be set. */
  ghost predicate Tuned(c: Clock) {
    0 < c.virtFreq <= c.realFreq && IsPow2(c.realFreq) && IsPow2(c.virtFreq)
  }

  /** n interrupts do not wrap the product that is compared. */
  predicate NoWrap(c: Clock, n: nat) {
    c.virtFreq * n < 0x1_0000_0000
  }

  /** After a read has reset a clock, its flag is set from the (real / virtual)-th interrupt
      on, and not before. */
  lemma {:induction false} FirstFlag(c: Clock, n: nat)
    requires Tuned(c) && NoWrap(c, n)
    ensures Counted(Reset(c), n).flag <==> n >= c.realFreq / c.virtFreq
    ensures c.virtFreq * (c.realFreq / c.virtFreq) == c.realFreq
  {
    var v, q := c.virtFreq, c.realFreq / c.virtFreq;
    assert v * n < 0x1_0000_0000;
    Pow2Divides(v, c.realFreq);
    hide *;
    QuotientPositive(v, c.realFreq);
    if n == 0 {
      NoFlagAtOnce(c);
    } else {
      FlagAt(c, n);
      Scale(v, q, n);
    }
  }

  // ------------------------------------------------------------ all the clocks

  /** The interrupt's loop over the pids from p on. */
  function IrqFrom(terms: seq<K.Terminal>, clocks: seq<Clock>, p: nat): (r: seq<Clock>)
    requires |clocks| == |terms| && p <= K.NUM_PROC
    ensures |r| == |clocks|
    decreases K.NUM_PROC - p
  {
    if p == K.NUM_PROC then clocks
    else
      var t := K.FirstWithPid(terms, p, 0);
      IrqFrom(terms, if t < |terms| then clocks[t := Count(clocks[t])] else clocks, p + 1)
  }

  lemma {:induction false} IrqStep(terms: seq<K.Terminal>, clocks: seq<Clock>, p: nat)
    requires |clocks| == |terms| && p < K.NUM_PROC
    ensures var t := K.FirstWithPid(terms, p, 0);
            IrqFrom(terms, clocks, p)
            == IrqFrom(terms, if t < |terms| then clocks[t := Count(clocks[t])] else clocks, p + 1)
  {
  }

  lemma {:induction false} IrqEnds(terms: seq<K.Terminal>, clocks: seq<Clock>)
    requires |clocks| == |terms|
    ensures IrqFrom(terms, clocks, K.NUM_PROC) == clocks
  {
  }

  /** The loop counts a clock once if its terminal is the first with its pid, else never. */
  lemma {:induction false} IrqCounts(terms: seq<K.Terminal>, clocks: seq<Clock>, p: nat, t: nat)
    requires |clocks| == |terms| && p <= K.NUM_PROC && t < |terms|
    ensures IrqFrom(terms, clocks, p)[t]
         == if p <= terms[t].pid < K.NUM_PROC && K.FirstWithPid(terms, terms[t].pid, 0) == t
            then Count(clocks[t]) else clocks[t]
    decreases K.NUM_PROC - p
  {
    if p < K.NUM_PROC {
      var u := K.FirstWithPid(terms, p, 0);
      IrqCounts(terms, if u < |terms| then clocks[u := Count(clocks[u])] else clocks, p + 1, t);
    }
  }

  function Irq(k: K.Kernel, clocks: seq<Clock>): (r: seq<Clock>)
    requires |clocks| == |k.terms|
    ensures |r| == |clocks|
  {
    IrqFrom(k.terms, clocks, 0)
  }

  /** Every interrupt counts each started terminal's clock exactly once, and no other. */
  lemma {:induction false} EachStartedOnce(k: K.Kernel, clocks: seq<Clock>, t: nat)
    requires K.ProcInv(k) && |clocks| == |k.terms| && t < |k.terms|
    ensures Irq(k, clocks)[t] == if k.terms[t].running then Count(clocks[t]) else clocks[t]
  {
    IrqCounts(k.terms, clocks, 0, t);
    if k.terms[t].running {
      P.OwnerOfPid(k, t, 0);
      assert K.Sits(k.pcbs, k.chains, k.place, t, 0);
    } else {
      assert k.terms[t].pid == 0 && K.FirstWithPid(k.terms, 0, 0) == 0;
    }
  }

  // -------------------------------------------------------------- any run of them

  /** Read is the start of rtc_read, which then waits for the flag.  In between the kernel
      goes on: ticks, switches, writes, programs that start and end. */
  datatype Event = Interrupt | Read(t: nat) | Write(t: nat, freq: u32) | Step(step: R.Event)

  datatype System = System(kernel: K.Kernel, clocks: seq<Clock>)

  ghost predicate Ready(s: System) {
    PR.Table(s.kernel) && |s.clocks| == |s.kernel.terms|
  }

  predicate May(s: System, e: Event)
    requires K.Shape(s.kernel)
  {
    e.Step? ==> PR.Keeps(s.kernel, e.step)
  }

  ghost function Next(s: System, e: Event): (r: System)
    requires Ready(s) && May(s, e)
    ensures Ready(r) && |r.clocks| == |s.clocks|
  {
    match e
    case Interrupt => s.(clocks := Irq(s.kernel, s.clocks))
    case Read(t) => if t < |s.clocks| then s.(clocks := s.clocks[t := Reset(s.clocks[t])]) else s
    case Write(t, freq) => if t < |s.clocks| then s.(clocks := s.clocks[t := SetFreq(s.clocks[t], freq)]) else s
    case Step(step) =>
      PR.StepKeepsTable(s.kernel, step);
      PR.StepStarted(s.kernel, step);
      s.(kernel := R.Step(s.kernel, step))
  }

  ghost predicate AllMay(s: System, events: seq<Event>)
    requires Ready(s)
    decreases |events|
  {
    events != [] ==> May(s, events[0]) && AllMay(Next(s, events[0]), events[1..])
  }

  ghost function Run(s: System, events: seq<Event>): (r: System)
    requires Ready(s) && AllMay(s, events)
    ensures Ready(r) && |r.clocks| == |s.clocks|
    decreases |events|
  {
    if events == [] then s else Run(Next(s, events[0]), events[1..])
  }

  /** The same for one terminal that has the clock to itself. */
  function Own(c: Clock, e: Event, t: nat): Clock {
    match e
    case Interrupt => Count(c)
    case Read(u) => if u == t then Reset(c) else c
    case Write(u, freq) => if u == t then SetFreq(c, freq) else c
    case Step(_) => c
  }

  function OwnRun(c: Clock, events: seq<Event>, t: nat): Clock
    decreases |events|
  {
    if events == [] then c else OwnRun(Own(c, events[0], t), events[1..], t)
  }

  lemma {:induction false} OwnStep(s: System, e: Event, t: nat)
    requires Ready(s) && May(s, e) && t < |s.clocks| && s.kernel.terms[t].running
    ensures Next(s, e).clocks[t] == Own(s.clocks[t], e, t) && Next(s, e).kernel.terms[t].running
  {
    match e
    case Interrupt => EachStartedOnce(s.kernel, s.clocks, t);
    case Read(u) =>
    case Write(u, freq) =>
    case Step(step) => PR.StepStarted(s.kernel, step);
  }

  /** A started terminal's clock is what its own calls and the interrupts make of it,
      whatever the other terminals do and the kernel schedules meanwhile. */
  lemma {:induction false} ClocksAreIndependent(s: System, events: seq<Event>, t: nat)
    requires Ready(s) && AllMay(s, events) && t < |s.clocks| && s.kernel.terms[t].running
    ensures Run(s, events).clocks[t] == OwnRun(s.clocks[t], events, t)
    decreases |events|
  {
    if events != [] {
      OwnStep(s, events[0], t);
      ClocksAreIndependent(Next(s, events[0]), events[1..], t);
    }
  }

  function Interrupts(events: seq<Event>): nat
    decreases |events|
  {
    if events == [] then 0 else (if events[0] == Interrupt then 1 else 0) + Interrupts(events[1..])
  }

  predicate Leaves(e: Event, t: nat) {
    e.Read? || e.Write? ==> e.t != t
  }

  lemma {:induction false} OwnRunCounts(c: Clock, events: seq<Event>, t: nat, n: nat)
    requires forall i :: 0 <= i < |events| ==> Leaves(events[i], t)
    ensures OwnRun(Counted(c, n), events, t) == Counted(c, n + Interrupts(events))
    decreases |events|
  {
    if events != [] {
      assert Leaves(events[0], t);
      OwnRunCounts(c, events[1..], t, if events[0] == Interrupt then n + 1 else n);
    }
  }

  lemma {:induction false} ReadResets(s: System, t: nat)
    requires Ready(s) && t < |s.clocks|
    ensures K.Shape(s.kernel) && May(s, Read(t))
    ensures var m := Next(s, Read(t)); m.kernel == s.kernel && m.clocks[t] == Reset(s.clocks[t])
  {
  }

  /** The same for a clock of one's own. */
  lemma {:induction false} OwnWaits(c: Clock, events: seq<Event>, t: nat)
    requires forall i :: 0 <= i < |events| ==> Leaves(events[i], t)
    requires Tuned(c) && NoWrap(c, Interrupts(events))
    ensures OwnRun(Reset(c), events, t).flag <==> Interrupts(events) >= c.realFreq / c.virtFreq
  {
    var n := Interrupts(events);
    assert Counted(Reset(c), 0) == Reset(c);
    OwnRunCounts(Reset(c), events, t, 0);
    assert OwnRun(Reset(c), events, t) == Counted(Reset(c), n);
    hide *;
    FirstFlag(c, n);
  }

  /** A reader waits for exactly (real / virtual) interrupts, whatever the other terminals
      read and set and the kernel does meanwhile. */
  lemma {:induction false} ReaderWaits(s: System, events: seq<Event>, t: nat)
    requires Ready(s) && t < |s.clocks| && s.kernel.terms[t].running
    requires AllMay(Next(s, Read(t)), events)
    requires forall i :: 0 <= i < |events| ==> Leaves(events[i], t)
    requires Tuned(s.clocks[t]) && NoWrap(s.clocks[t], Interrupts(events))
    ensures Run(Next(s, Read(t)), events).clocks[t].flag
       <==> Interrupts(events) >= s.clocks[t].realFreq / s.clocks[t].virtFreq
  {
    ReadResets(s, t);
    hide *;
    ClocksAreIndependent(Next(s, Read(t)), events, t);
    OwnWaits(s.clocks[t], events, t);
  }

  // ------------------------------------------------------- from the write to the wake-up

  /** The frequency after asking for freq. */
  ghost function Granted(c: Clock, freq: u32): u32 {
    if IsPow2(freq) && freq <= c.realFreq then freq else c.virtFreq
  }

  /** An accepted write sets the frequency asked for and starts the count anew, a refused
      one changes nothing; either way the clock stays tuned. */
  lemma {:induction false} WriteSetsFreq(c: Clock, freq: u32)
    ensures var r := SetFreq(c, freq);
            && r.virtFreq == Granted(c, freq) && r.realFreq == c.realFreq && r.flag == c.flag
            && r.intCount == (if IsPow2(freq) && freq <= c.realFreq then 0 else c.intCount)
            && (Tuned(c) ==> Tuned(r))
  {
    AcceptedIff(c, freq);
  }

  lemma {:induction false} CountFromZero(c: Clock, n: nat)
    requires c.intCount == 0 && n > 0
    ensures Counted(c, n) == Counted(Reset(c), n)
    decreases n
  {
    if n > 1 { CountFromZero(c, n - 1); }
  }

  /** Without a read, too, the first flag after an accepted write comes with the
      (real / freq)-th interrupt from then on. */
  lemma {:induction false} FirstFlagAfterWrite(c: Clock, freq: u32, n: nat)
    requires Tuned(c) && IsPow2(freq) && freq <= c.realFreq && 0 < n && NoWrap(c.(virtFreq := freq), n)
    ensures freq > 0
    ensures Counted(SetFreq(c, freq), n).flag <==> n >= c.realFreq / freq
  {
    WriteSetsFreq(c, freq);
    CountFromZero(SetFreq(c, freq), n);
    FirstFlag(SetFreq(c, freq), n);
  }

  lemma {:induction false} OwnRunKeepsFreq(c: Clock, events: seq<Event>, t: nat)
    requires forall i :: 0 <= i < |events| ==> Leaves(events[i], t)
    ensures OwnRun(c, events, t).virtFreq == c.virtFreq && OwnRun(c, events, t).realFreq == c.realFreq
    decreases |events|
  {
    if events != [] {
      assert Leaves(events[0], t);
      OwnRunKeepsFreq(Own(c, events[0], t), events[1..], t);
    }
  }

  /** A clock stays tuned through all that happens to it. */
  lemma {:induction false} TunedStays(c: Clock, events: seq<Event>, t: nat)
    requires Tuned(c)
    ensures Tuned(OwnRun(c, events, t))
    decreases |events|
  {
    if events != [] {
      if events[0].Write? { WriteSetsFreq(c, events[0].freq); }
      TunedStays(Own(c, events[0], t), events[1..], t);
    }
  }

  const INITIAL_CLOCK := Clock(2, 1024, 0, false)

  lemma {:induction false} InitialIsTuned()
    ensures Tuned(INITIAL_CLOCK)
  {
    assert Pow2(1) == 2;
    assert Pow2(5) == 32 && Pow2(10) == 32 * Pow2(5);
  }

  lemma {:induction false} RunningStays(s: System, events: seq<Event>, t: nat)
    requires Ready(s) && AllMay(s, events) && t < |s.clocks| && s.kernel.terms[t].running
    ensures Run(s, events).kernel.terms[t].running
    decreases |events|
  {
    if events != [] {
      OwnStep(s, events[0], t);
      RunningStays(Next(s, events[0]), events[1..], t);
    }
  }

  lemma {:induction false} MayCall(s: System, e: Event)
    requires Ready(s) && (e.Read? || e.Write?)
    ensures K.Shape(s.kernel) && May(s, e)
  {
  }

  /** The wait, from the request on: a terminal asks for a frequency, and at some later time
      reads. It then waits (real / freq) interrupts if the request was accepted, and as long
      as before if it was refused, whatever happens elsewhere in between and meanwhile. */
  lemma {:induction false} WriteSetsTheWait(s: System, freq: u32, between: seq<Event>, meanwhile: seq<Event>, t: nat)
    requires Ready(s) && t < |s.clocks| && s.kernel.terms[t].running && Tuned(s.clocks[t])
    requires AllMay(Next(s, Write(t, freq)), between)
    requires AllMay(Next(Run(Next(s, Write(t, freq)), between), Read(t)), meanwhile)
    requires forall i :: 0 <= i < |between| ==> Leaves(between[i], t)
    requires forall i :: 0 <= i < |meanwhile| ==> Leaves(meanwhile[i], t)
    requires NoWrap(s.clocks[t].(virtFreq := Granted(s.clocks[t], freq)), Interrupts(meanwhile))
    ensures Granted(s.clocks[t], freq) > 0
    ensures Run(Next(Run(Next(s, Write(t, freq)), between), Read(t)), meanwhile).clocks[t].flag
       <==> Interrupts(meanwhile) >= s.clocks[t].realFreq / Granted(s.clocks[t], freq)
  {
    MayCall(s, Write(t, freq));
    OwnStep(s, Write(t, freq), t);
    var c, m := s.clocks[t], Next(s, Write(t, freq));
    assert m.clocks[t] == SetFreq(c, freq);
    WriteSetsFreq(c, freq);
    hide *;
    ClocksAreIndependent(m, between, t);
    RunningStays(m, between, t);
    OwnRunKeepsFreq(SetFreq(c, freq), between, t);
    TunedStays(SetFreq(c, freq), between, t);
    WaitIs(Run(m, between), meanwhile, t, c.realFreq, Granted(c, freq));
  }

  lemma {:induction false} WaitIs(s: System, events: seq<Event>, t: nat, actual: u32, virt: u32)
    requires Ready(s) && t < |s.clocks| && s.kernel.terms[t].running
    requires AllMay(Next(s, Read(t)), events)
    requires forall i :: 0 <= i < |events| ==> Leaves(events[i], t)
    requires Tuned(s.clocks[t]) && s.clocks[t].virtFreq == virt && s.clocks[t].realFreq == actual
    requires virt * Interrupts(events) < 0x1_0000_0000
    ensures virt > 0
    ensures Run(Next(s, Read(t)), events).clocks[t].flag <==> Interrupts(events) >= actual / virt
  {
    assert virt > 0 && NoWrap(s.clocks[t], Interrupts(events));
    hide *;
    ReaderWaits(s, events, t);
  }

  // ----------------------------------------------------------------- the driver

  class Driver {
    const clocks: array<Clock>

    constructor (n: nat)
      ensures fresh(clocks) && clocks[..] == seq(n, _ => INITIAL_CLOCK)
    {
      clocks := new Clock[n](_ => INITIAL_CLOCK);
    }

    /** One real interrupt, for the terminals that the kernel finds by their pids. */
    method IrqhRtc(k: H.Kernel)
      requires k.TablesOk() && clocks.Length == k.n
      modifies clocks
      ensures clocks[..] == IrqFrom(k.model.terms, old(clocks[..]), 0)
    {
      ghost var terms := k.model.terms;
      var i := 0;
      hide IrqFrom, K.FirstWithPid, Count;
      while i < K.NUM_PROC
        invariant i <= K.NUM_PROC
        invariant IrqFrom(terms, clocks[..], i) == IrqFrom(terms, old(clocks[..]), 0)
      {
        IrqStep(terms, clocks[..], i);
        CountFor(k, i);
        i := i + 1;
      }
      IrqEnds(terms, clocks[..]);
    }

    /** One round of the loop: the terminal with this pid, if there is one. */
    method CountFor(k: H.Kernel, pid: nat)
      requires k.TablesOk() && clocks.Length == k.n
      modifies clocks
      ensures var t := K.FirstWithPid(k.model.terms, pid, 0);
              clocks[..] == if t < k.n then old(clocks[..])[t := Count(old(clocks[t]))] else old(clocks[..])
    {
      var t := k.GetTerminalFromPid(pid);
      if t != null { CountOne(t.id); }
    }

    method CountOne(t: nat)
      requires t < clocks.Length
      modifies clocks
      ensures clocks[..] == old(clocks[..])[t := Count(old(clocks[t]))]
    {
      var c := clocks[t];
      var n := Wrap32(c.intCount + 1);
      clocks[t] := c.(intCount := n, flag := c.realFreq <= Wrap32(c.virtFreq * n));
    }

    /** The start of rtc_read for the running terminal, if there is one. */
    method RtcRead(running: Option<nat>) returns (r: int)
      requires running.Some? ==> running.value < clocks.Length
      modifies clocks
      ensures running == None ==> r == -1 && clocks[..] == old(clocks[..])
      ensures running.Some? ==> r == 0 && clocks[..] == old(clocks[..])[running.value := Reset(old(clocks[running.value]))]
    {
      if running == None { return -1; }
      clocks[running.value] := clocks[running.value].(flag := false, intCount := 0);
      return 0;
    }

    method SetVirtualFreq(running: Option<nat>, freq: u32) returns (r: int)
      requires running.Some? ==> running.value < clocks.Length
      modifies clocks
      ensures running == None ==> r == -1 && clocks[..] == old(clocks[..])
      ensures running.Some? ==>
                var c := old(clocks[running.value]);
                && r == (if IsPow2(freq) && freq <= c.realFreq then 0 else -1)
                && clocks[..] == old(clocks[..])[running.value := SetFreq(c, freq)]
    {
      if freq == 0 || running == None || freq > clocks[running.value].realFreq || And(freq, freq - 1) != 0 {
        if running.Some? { AcceptedIff(clocks[running.value], freq); }
        return -1;
      }
      AcceptedIff(clocks[running.value], freq);
      clocks[running.value] := clocks[running.value].(intCount := 0, virtFreq := freq);
      return 0;
    }
  }
}
