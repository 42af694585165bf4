/** Whole runs of the kernel: ticks, switches, writes, vidmap stores, execute and halt. */
module Runs {
  import opened Bytes
  import opened KernelState
  import opened ProcessProofs
  import opened VideoProofs
  import S = Screen

  datatype Event = OnTick(to: int) | OnWrite(text: seq<byte>) | OnVidmap | OnPoke(offset: nat, b: byte)
                 | OnExecute(load: Load) | OnHalt

  function Step(k: Kernel, e: Event): (r: Kernel)
    requires Shape(k)
    requires e.OnWrite? ==> CursorsFit(k)
    requires e.OnHalt? ==> IsRoot(k) || 0 <= k.pcbs[k.runningPid].parentPid < NUM_PROC
    ensures Shape(r)
  {
    match e
    case OnTick(to) => Tick(k, to)
    case OnWrite(text) => WriteAt(k, k.schedule, text)
    case OnVidmap => Vidmap(k)
    case OnPoke(offset, b) => Poke(k, offset, b)
    case OnExecute(load) => Execute(k, load)
    case OnHalt => Halt(k)
  }

  predicate NoUserPage(k: Kernel, q: int)
    requires Shape(k)
  {
    0 <= q < NUM_PROC && k.user[q].None?
  }

  /** What a step asks of the state it starts from. */
  predicate Enabled(k: Kernel, e: Event)
    requires Shape(k) && CursorsOk(k)
  {
    match e
    case OnTick(to) => TickOk(k, to)
    case OnWrite(text) => WriteOk(k, text)
    case OnVidmap => true
    case OnPoke(offset, b) => k.user[k.runningPid].Some? && offset < PAGE
    case OnExecute(load) => !LeaksPid(k, load) && (Starts(k, load) ==> k.schedule == k.current)
    case OnHalt => k.schedule == k.current && (IsRoot(k) || NoUserPage(k, k.pcbs[k.runningPid].parentPid))
  }

  // ---------------------------------------------------------- remaining steps

  /** What a program does to its own screen. */
  datatype Output = Text(text: seq<byte>) | Cell(offset: nat, b: byte)

  function Show(s: S.Screen, o: Output): (r: S.Screen)
    requires s.Valid()
    ensures r.Valid()
  {
    match o
    case Text(text) => S.Type(s, text)
    case Cell(offset, b) => if offset < S.SCREEN_BYTES then s.(cells := s.cells[offset := b]) else s
  }

  lemma {:induction false} PokeShows(k: Kernel, offset: nat, b: byte)
    requires Sees(k) && offset < S.SCREEN_BYTES
    ensures var at := Target(k, k.schedule);
      && at + offset < |k.mem|
      && Shown(k, k.(mem := Splice(k.mem, at + offset, [b])),
               ScreenOf(k, k.schedule).(cells := ScreenOf(k, k.schedule).cells[offset := b]))
  {
    SpliceSim(k, offset, [b]);
    var page := Page(k.mem, Target(k, k.schedule));
    assert Splice(page, offset, [b]) == page[offset := b];
  }

  lemma {:induction false} BetweenScreens(k: Kernel, u: nat, offset: nat)
    requires Shape(k) && u < |k.terms| && S.SCREEN_BYTES <= offset < PAGE
    ensures var at := Target(k, k.schedule) + offset;
      Target(k, u) + S.SCREEN_BYTES <= at || at < Target(k, u)
  {
  }

  lemma {:induction false} HiddenFrom(k: Kernel, u: nat, offset: nat, b: byte)
    requires Shape(k) && u < |k.terms| && S.SCREEN_BYTES <= offset < PAGE
    ensures Target(k, k.schedule) + offset < |k.mem|
    ensures ScreenOf(k.(mem := Splice(k.mem, Target(k, k.schedule) + offset, [b])), u) == ScreenOf(k, u)
  {
    var at := Target(k, k.schedule) + offset;
    BetweenScreens(k, u, offset);
    SpliceOutside(k.mem, Target(k, u), at, [b]);
    hide Splice, Page;
  }

  /** The last 96 bytes of a page are on no screen. */
  lemma {:induction false} PokeHidden(k: Kernel, offset: nat, b: byte)
    requires Sees(k) && S.SCREEN_BYTES <= offset < PAGE
    ensures var at := Target(k, k.schedule);
      && at + offset < |k.mem|
      && Shown(k, k.(mem := Splice(k.mem, at + offset, [b])), ScreenOf(k, k.schedule))
  {
    hide Splice, Page, Shown, ScreenOf;
    HiddenFrom(k, k.schedule, offset, b);
    var r := k.(mem := Splice(k.mem, Target(k, k.schedule) + offset, [b]));
    forall u | 0 <= u < |k.terms| ensures ScreenOf(r, u) == ScreenOf(k, u) { HiddenFrom(k, u, offset, b); }
    NoScreenChanged(k, r);
  }

  lemma {:induction false} NoScreenChanged(k: Kernel, r: Kernel)
    requires Sees(k) && Shape(r) && r == k.(mem := r.mem)
    requires forall u :: 0 <= u < |k.terms| ==> ScreenOf(r, u) == ScreenOf(k, u)
    ensures Shown(k, r, ScreenOf(k, k.schedule))
  {
    hide ScreenOf;
  }

  lemma {:induction false} PokeIsSplice(k: Kernel, offset: nat, b: byte)
    requires Inv(k) && k.user[k.runningPid].Some? && offset < PAGE
    ensures var at := Target(k, k.schedule);
      at + offset < |k.mem| && Poke(k, offset, b) == k.(mem := Splice(k.mem, at + offset, [b]))
  {
  }

  lemma {:induction false} PokeSim(k: Kernel, offset: nat, b: byte)
    requires Inv(k) && k.user[k.runningPid].Some? && offset < PAGE
    ensures Shown(k, Poke(k, offset, b), Show(ScreenOf(k, k.schedule), Cell(offset, b)))
  {
    PokeIsSplice(k, offset, b);
    if offset < S.SCREEN_BYTES { PokeShows(k, offset, b); } else { PokeHidden(k, offset, b); }
  }

  lemma {:induction false} VidmapIs(k: Kernel)
    requires ProcInv(k)
    ensures Vidmap(k)
      == k.(terms := k.terms[k.schedule := k.terms[k.schedule].(vidmap := true)],
            user := k.user[k.runningPid := Some(Target(k, k.schedule))], cr3 := k.runningPid)
  {
    RunningIsLeaf(k);
  }

  lemma {:induction false} OtherLeaves(k: Kernel, u: nat)
    requires ProcInv(k) && u < |k.terms| && k.terms[u].running && u != k.schedule
    ensures Leaf(k, u) != k.runningPid
  {
    LeafIsLive(k, u);
    LeafIsLive(k, k.schedule);
  }

  lemma {:induction false} VidmapSim(k: Kernel)
    requires Inv(k)
    ensures var r := Vidmap(k);
      && Inv(r) && |r.terms| == |k.terms|
      && forall t :: 0 <= t < |k.terms| ==> ScreenOf(r, t) == ScreenOf(k, t)
  {
    var r := Vidmap(k);
    VidmapIs(k);
    hide Vidmap;
    forall u | 0 <= u < |k.terms| && k.terms[u].running && u != k.schedule
      ensures Leaf(r, u) == Leaf(k, u) != k.runningPid
    {
      OtherLeaves(k, u);
    }
  }

  ghost predicate OneNewParent(k: Kernel, r: Kernel, p: nat)
    requires Shape(k) && Shape(r) && p < NUM_PROC
  {
    && r.pcbs[p].child == None
    && forall q :: 0 <= q < NUM_PROC && r.pcbs[q].child.Some? ==> k.pcbs[q].child.Some? || q == k.runningPid
  }

  lemma {:induction false} ParentIsRunning(k: Kernel, r: Kernel, p: nat)
    requires Shape(k) && Shape(r) && p < NUM_PROC && p != k.runningPid
    requires r.pcbs == k.pcbs[p := Pcb(p, k.runningPid, Some(k.runningPid), None)]
                             [k.runningPid := k.pcbs[k.runningPid].(child := Some(p))]
    ensures OneNewParent(k, r, p)
  {
  }

  lemma {:induction false} SameScreens(k: Kernel, r: Kernel)
    requires Shape(k) && Shape(r) && r.terms == k.terms && r.current == k.current
    requires r.mem == k.mem && r.x == k.x && r.y == k.y
    ensures forall t :: 0 <= t < |k.terms| ==> ScreenOf(r, t) == ScreenOf(k, t)
  {
  }

  lemma {:induction false} StartedMaps(k: Kernel, r: Kernel, p: nat)
    requires Inv(k) && ProcInv(r) && p !in k.live && p < NUM_PROC && k.schedule == k.current
    requires r.terms == k.terms && r.current == k.current && r.schedule == k.schedule
    requires r.live == k.live + {p} && r.runningPid == r.cr3 == p && r.x == k.x && r.y == k.y && r.mem == k.mem
    requires r.chains == k.chains[k.schedule := k.chains[k.schedule] + [p]]
    requires r.video == k.video[p := 0] && r.user == k.user[p := None]
    requires OneNewParent(k, r, p)
    ensures MapOk(r) && CursorsOk(r) && ParentsOk(r)
  {
    forall u | 0 <= u < |k.terms| && r.terms[u].running && u != k.schedule ensures Leaf(r, u) == Leaf(k, u) != p {
      LeafIsLive(k, u);
    }
    assert Leaf(r, k.schedule) == p;
  }

  lemma {:induction false} StartMaps(k: Kernel)
    requires Inv(k) && Starts(k, Loads) && k.schedule == k.current
    ensures var r := Execute(k, Loads);
      && MapOk(r) && CursorsOk(r) && ParentsOk(r) && |r.terms| == |k.terms|
      && forall t :: 0 <= t < |k.terms| ==> ScreenOf(r, t) == ScreenOf(k, t)
  {
    assert ProcInv(k) && CursorsOk(k) && k.terms[k.current].running;
    hide Execute, Inv, ProcInv, MapOk, ParentsOk, FirstFree;
    var p, r := FirstFree(k.live, 0).value, Execute(k, Loads);
    RunningIsLeaf(k);
    ExecuteKeepsProc(k, Loads);
    ExecuteGrows(k);
    StartPages(k);
    ParentIsRunning(k, r, p);
    SameScreens(k, r);
    hide OneNewParent, ScreenOf;
    StartedMaps(k, r, p);
  }

  lemma {:induction false} NothingStarts(k: Kernel, load: Load)
    requires Shape(k) && !LeaksPid(k, load) && !Starts(k, load)
    ensures Execute(k, load) == k
  {
  }

  lemma {:induction false} ExecuteMaps(k: Kernel, load: Load)
    requires Inv(k) && Enabled(k, OnExecute(load))
    ensures var r := Execute(k, load);
      && MapOk(r) && CursorsOk(r) && ParentsOk(r) && |r.terms| == |k.terms|
      && forall t :: 0 <= t < |k.terms| ==> ScreenOf(r, t) == ScreenOf(k, t)
  {
    hide Execute;
    if Starts(k, load) { StartMaps(k); } else { NothingStarts(k, load); }
  }

  lemma {:induction false} HaltRootMaps(k: Kernel)
    requires Inv(k) && IsRoot(k) && k.schedule == k.current
    ensures var r := Halt(k);
      && MapOk(r) && CursorsOk(r) && ParentsOk(r) && |r.terms| == |k.terms|
      && forall t :: 0 <= t < |k.terms| ==> ScreenOf(r, t) == ScreenOf(k, t)
  {
    RunningIsLeaf(k);
    var t := k.schedule;
    var u := Unlink(k);
    Uproot(k.pcbs, k.chains, k.place, t);
    var v := u.(terms := u.terms[t := u.terms[t].(running := false)], chains := u.chains[t := []]);
    forall w | 0 <= w < |v.terms| && v.terms[w].running ensures Leaf(v, w) == Leaf(k, w) {}
    StartSim(v, t);
    StartKeepsParents(v, t);
  }

  lemma {:induction false} ParentTakesOver(k: Kernel)
    requires ProcInv(k) && !IsRoot(k)
    ensures 0 <= k.pcbs[k.runningPid].parentPid < NUM_PROC
    ensures var r := Halt(k);
      var q := k.pcbs[k.runningPid].parentPid;
      && r.runningPid == r.cr3 == Leaf(r, k.schedule) == q
      && forall w :: 0 <= w < |k.terms| && w != k.schedule ==> Leaf(r, w) == Leaf(k, w)
  {
    var t := k.schedule;
    var c := k.chains[t];
    RunningIsLeaf(k);
    assert Sits(k.pcbs, k.chains, k.place, t, |c| - 2);
    assert c[..|c| - 1][|c| - 2] == c[|c| - 2];
  }

  lemma {:induction false} HaltChildMaps(k: Kernel)
    requires Inv(k) && !IsRoot(k) && Enabled(k, OnHalt)
    ensures var r := Halt(k);
      && MapOk(r) && CursorsOk(r) && ParentsOk(r) && |r.terms| == |k.terms|
      && forall t :: 0 <= t < |k.terms| ==> ScreenOf(r, t) == ScreenOf(k, t)
  {
    ParentTakesOver(k);
    RunningIsLeaf(k);
    LinksAreInverse(k, k.runningPid);
    var q := k.pcbs[k.runningPid].parentPid;
    var r := Halt(k);
    assert r.video == k.video && r.user == k.user && r.mem == k.mem;
    assert r.terms == k.terms[k.schedule := k.terms[k.schedule].(vidmap := false)];
  }

  // -------------------------------------------------------------------- runs

  function OutputOf(e: Event): seq<Output> {
    match e
    case OnWrite(text) => [Text(text)]
    case OnPoke(offset, b) => [Cell(offset, b)]
    case _ => []
  }

  function ShowAll(s: S.Screen, outputs: seq<Output>): (r: S.Screen)
    requires s.Valid()
    ensures r.Valid()
    decreases |outputs|
  {
    if outputs == [] then s else ShowAll(Show(s, outputs[0]), outputs[1..])
  }

  /** One step keeps the invariant, and changes a terminal's screen only by what the
      running program prints or pokes there itself. */
  lemma {:induction false} StepSim(k: Kernel, e: Event)
    requires Inv(k) && Enabled(k, e)
    ensures Inv(Step(k, e)) && |Step(k, e).terms| == |k.terms|
    ensures forall t :: 0 <= t < |k.terms| ==>
      ScreenOf(Step(k, e), t)
      == if t == k.schedule then ShowAll(ScreenOf(k, t), OutputOf(e)) else ScreenOf(k, t)
  {
    match e
    case OnTick(to) => TickSim(k, to);
    case OnWrite(text) =>
      WriteSim(k, text);
      SameButKeeps(k, Step(k, e));
    case OnVidmap => VidmapSim(k);
    case OnPoke(offset, b) =>
      PokeSim(k, offset, b);
      SameButKeeps(k, Step(k, e));
    case OnExecute(load) =>
      ExecuteKeepsProc(k, load);
      ExecuteMaps(k, load);
    case OnHalt =>
      HaltKeepsProc(k);
      if IsRoot(k) { HaltRootMaps(k); } else { HaltChildMaps(k); }
  }

  ghost predicate Allowed(k: Kernel, events: seq<Event>)
    requires Inv(k)
    decreases |events|
  {
    events != [] ==>
      && Enabled(k, events[0])
      && (StepSim(k, events[0]); Allowed(Step(k, events[0]), events[1..]))
  }

  ghost function After(k: Kernel, events: seq<Event>): (r: Kernel)
    requires Inv(k) && Allowed(k, events)
    ensures Shape(r)
    decreases |events|
  {
    if events == [] then k else StepSim(k, events[0]); After(Step(k, events[0]), events[1..])
  }

  /** Everything the programs of terminal t print or poke in the course of a run. */
  ghost function OutputsOf(k: Kernel, events: seq<Event>, t: nat): seq<Output>
    requires Inv(k) && Allowed(k, events)
    decreases |events|
  {
    if events == [] then []
    else
      StepSim(k, events[0]);
      (if t == k.schedule then OutputOf(events[0]) else [])
      + OutputsOf(Step(k, events[0]), events[1..], t)
  }

  lemma {:induction false} ShowAllAppend(s: S.Screen, a: seq<Output>, b: seq<Output>)
    requires s.Valid()
    ensures ShowAll(s, a + b) == ShowAll(ShowAll(s, a), b)
    decreases |a|
  {
    if a == [] {
      assert a + b == b;
    } else {
      assert (a + b)[1..] == a[1..] + b;
      ShowAllAppend(Show(s, a[0]), a[1..], b);
    }
  }

  /** Independent screens: after any run each terminal's screen and cursor are what its own
      programs' outputs alone make of its own first screen.  Switches, ticks and whatever
      the other terminals print in between leave no trace. */
  lemma {:induction false} ScreensAreIndependent(k: Kernel, events: seq<Event>, t: nat)
    requires Inv(k) && Allowed(k, events) && t < |k.terms|
    ensures var r := After(k, events);
      && Inv(r) && |r.terms| == |k.terms|
      && ScreenOf(r, t) == ShowAll(ScreenOf(k, t), OutputsOf(k, events, t))
    decreases |events|
  {
    if events != [] {
      var e, m := events[0], Step(k, events[0]);
      StepSim(k, e);
      ScreensAreIndependent(m, events[1..], t);
      ShowAllAppend(ScreenOf(k, t), if t == k.schedule then OutputOf(e) else [],
                    OutputsOf(m, events[1..], t));
    }
  }

  // ------------------------------------------------------------------- start

  function BlankPage(): seq<byte> {
    S.Cleared().cells
  }

  /** The buffers of terminals t up to n are cleared; that of terminal 0 never is. */
  function ClearBuffers(mem: seq<byte>, n: nat, t: nat): (r: seq<byte>)
    requires |mem| == PAGE * (n + 1) && 1 <= t <= n
    ensures |r| == |mem|
    decreases n - t
  {
    if t == n then mem else ClearBuffers(Splice(mem, BufferOf(t), BlankPage()), n, t + 1)
  }

  lemma {:induction false} BufferCleared(mem: seq<byte>, n: nat, t: nat, u: nat)
    requires |mem| == PAGE * (n + 1) && 1 <= t < n && u < n
    ensures var next := Splice(mem, BufferOf(t), BlankPage());
      && Page(next, 0) == Page(mem, 0)
      && Page(next, BufferOf(u)) == if u == t then BlankPage() else Page(mem, BufferOf(u))
  {
    SpliceOutside(mem, 0, BufferOf(t), BlankPage());
    if u == t {
      SpliceInside(mem, BufferOf(u), BufferOf(t), BlankPage());
      SpliceWhole(Page(mem, BufferOf(u)), BlankPage());
    } else {
      SpliceOutside(mem, BufferOf(u), BufferOf(t), BlankPage());
    }
  }

  lemma {:induction false} BuffersClear(mem: seq<byte>, n: nat, t: nat, u: nat)
    requires |mem| == PAGE * (n + 1) && 1 <= t <= n && u < n
    requires 1 <= u < t ==> Page(mem, BufferOf(u)) == BlankPage()
    ensures 1 <= u ==> Page(ClearBuffers(mem, n, t), BufferOf(u)) == BlankPage()
    ensures Page(ClearBuffers(mem, n, t), 0) == Page(mem, 0)
    decreases n - t
  {
    if t < n {
      var next := Splice(mem, BufferOf(t), BlankPage());
      assert Page(next, 0) == Page(mem, 0) && (1 <= u <= t ==> Page(next, BufferOf(u)) == BlankPage()) by {
        BufferCleared(mem, n, t, u);
      }
      BuffersClear(next, n, t + 1, u);
    }
  }

  /** The kernel's static storage before init_terminals: no process, no terminal, whatever
      memory and page tables, and the cursor where the boot messages left it. */
  ghost predicate Zeroed(k: Kernel) {
    && Shape(k) && k.live == {} && k.runningPid == 0
    && k.current == k.schedule == k.counter == 0
    && k.pcbs == seq(NUM_PROC, _ => Pcb(0, 0, None, None))
    && k.terms == seq(|k.terms|, _ => Terminal(0, false, false, false, 0, 0))
    && k.chains == seq(|k.terms|, _ => []) && k.place == map[]
    && OnScreen(k.x, k.y)
  }

  function FirstTerminal(k: Kernel): (r: Kernel)
    requires Shape(k)
    ensures Shape(r)
  {
    k.(terms := k.terms[0 := Terminal(0, true, true, false, k.x, k.y)],
       mem := ClearBuffers(k.mem, |k.terms|, 1))
  }

  /** The kernel after init_terminals has set up the terminals and started the first shell. */
  function Boot(k: Kernel): (r: Kernel)
    requires Shape(k)
    ensures Shape(r)
  {
    Execute(FirstTerminal(k), Loads)
  }

  lemma {:induction false} BootInv(k: Kernel)
    requires Zeroed(k)
    ensures var r := Boot(k);
      && Inv(r) && |r.terms| == |k.terms|
      && ScreenOf(r, 0) == S.Screen(Page(k.mem, 0), k.x, k.y)
      && forall t :: 1 <= t < |k.terms| ==> ScreenOf(r, t) == S.Cleared()
  {
    var n, r := |k.terms|, Boot(k);
    assert FirstFree({}, 0) == Some(0);
    assert r.chains == seq(n, i => if i == 0 then [0] else []);
    BuffersClear(k.mem, n, 1, 0);
    forall t | 1 <= t < n ensures ScreenOf(r, t) == S.Cleared() {
      BuffersClear(k.mem, n, 1, t);
    }
  }

  /** What is printed is text: printable characters, newlines and tabs. */
  predicate Plain(text: seq<byte>) {
    forall i :: 0 <= i < |text| ==> S.Printable(text[i]) || text[i] == NEWLINE
  }

  predicate AllPlain(outputs: seq<Output>) {
    forall i :: 0 <= i < |outputs| ==> outputs[i].Text? && Plain(outputs[i].text)
  }

  function Joined(outputs: seq<Output>): (text: seq<byte>)
    requires AllPlain(outputs)
    ensures Plain(text)
    decreases |outputs|
  {
    if outputs == [] then [] else outputs[0].text + Joined(outputs[1..])
  }

  lemma {:induction false} TextsAreTyped(s: S.Screen, outputs: seq<Output>)
    requires s.Valid() && AllPlain(outputs)
    ensures ShowAll(s, outputs) == S.Type(s, Joined(outputs))
    decreases |outputs|
  {
    if outputs != [] {
      TextsAreTyped(Show(s, outputs[0]), outputs[1..]);
      S.TypeAppend(s, outputs[0].text, Joined(outputs[1..]));
    }
  }

  /** Whatever texts a fresh terminal prints, wherever its writes fall in a run, together
      they are what its screen shows at the end, laid out in rows. */
  lemma {:induction false} FreshTerminalShowsItsText(k: Kernel, events: seq<Event>, t: nat)
    requires Zeroed(k) && 1 <= t < |k.terms|
    requires Inv(Boot(k)) && Allowed(Boot(k), events) && AllPlain(OutputsOf(Boot(k), events, t))
    ensures var r := After(Boot(k), events);
      && |r.terms| == |k.terms| && ScreenOf(r, t).Valid()
      && S.Shows(S.LayOut(S.Detab(Joined(OutputsOf(Boot(k), events, t)))), ScreenOf(r, t))
  {
    var outputs := OutputsOf(Boot(k), events, t);
    BootInv(k);
    ScreensAreIndependent(Boot(k), events, t);
    TextsAreTyped(S.Cleared(), outputs);
    S.TypedTextIsShown(Joined(outputs));
  }
}
