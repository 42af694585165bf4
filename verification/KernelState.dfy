/** The kernel's process table, terminals and video memory as plain values, and the steps
    that change them.  The class in Kernel.dfy carries these steps out on the heap. */
module KernelState {
  import opened Bytes
  import S = Screen

  const NUM_PROC: nat := 8
  const PAGE: nat := 0x1000

  /** A process control block; pointers are indices into the table of blocks. */
  datatype Pcb = Pcb(pid: nat, parentPid: int, parent: Option<nat>, child: Option<nat>)

  /** ready: the scheduler may pick the terminal; running: it has a root shell. */
  datatype Terminal = Terminal(pid: nat, running: bool, ready: bool, vidmap: bool, x: int, y: int)

  /** mem holds the physical bytes from VIDEO on: the display in the first page, terminal
      t's private buffer in page t + 1.  video[p] is the physical offset behind process
      p's VIDEO page and user[p] the one behind its vidmap page, if that is mapped.
      chains and place are auxiliary: the processes of each terminal, root shell first, and
      the terminal and position of each process. */
  datatype Kernel = Kernel(
    live: set<nat>, runningPid: nat, pcbs: seq<Pcb>, terms: seq<Terminal>,
    current: nat, schedule: nat, counter: nat,
    x: int, y: int, mem: seq<byte>, video: seq<int>, user: seq<Option<int>>, cr3: nat,
    chains: seq<seq<nat>>, place: map<nat, (nat, nat)>)

  predicate Shape(k: Kernel) {
    && |k.pcbs| == |k.video| == |k.user| == NUM_PROC
    && 1 <= |k.terms| == |k.chains|
    && |k.mem| == PAGE * (|k.terms| + 1)
    && k.current < |k.terms| && k.schedule < |k.terms| && k.counter < |k.terms|
    && k.runningPid < NUM_PROC && k.cr3 < NUM_PROC
    && (forall p :: 0 <= p < NUM_PROC ==> k.pcbs[p].pid < NUM_PROC)
    && (forall p :: 0 <= p < NUM_PROC && k.pcbs[p].parent.Some? ==> k.pcbs[p].parent.value < NUM_PROC)
  }

  function Last(c: seq<nat>): nat
    requires c != []
  {
    c[|c| - 1]
  }

  // --------------------------------------------------- the process invariant

  /** The block of the i-th process of a chain. */
  function Link(chain: seq<nat>, i: nat): Pcb
    requires i < |chain|
  {
    Pcb(chain[i],
        if i == 0 then -1 else chain[i - 1],
        if i == 0 then None else Some(chain[i - 1]),
        if i == |chain| - 1 then None else Some(chain[i + 1]))
  }

  /** The i-th process of chain t has the right pointers, and is recorded as being there. */
  ghost predicate Sits(pcbs: seq<Pcb>, chains: seq<seq<nat>>, place: map<nat, (nat, nat)>, t: nat, i: nat)
    requires t < |chains| && i < |chains[t]|
  {
    var p := chains[t][i];
    p < |pcbs| && pcbs[p] == Link(chains[t], i) && p in place && place[p] == (t, i)
  }

  /** The pointers run along the chains, and each process is in one place only. */
  ghost predicate Woven(pcbs: seq<Pcb>, chains: seq<seq<nat>>, place: map<nat, (nat, nat)>) {
    && (forall t, i :: 0 <= t < |chains| && 0 <= i < |chains[t]| ==> Sits(pcbs, chains, place, t, i))
    && (forall p :: p in place ==>
          place[p].0 < |chains| && place[p].1 < |chains[place[p].0]|
          && chains[place[p].0][place[p].1] == p)
  }

  ghost predicate ChainsOk(k: Kernel)
    requires Shape(k)
  {
    Woven(k.pcbs, k.chains, k.place) && k.place.Keys == k.live
  }

  /** The terminals before t have their shells, and there is a pid for one more. */
  predicate MayOpen(k: Kernel, t: nat)
    requires Shape(k) && t < |k.terms|
  {
    FirstFree(k.live, 0).Some? && forall u :: 0 <= u < t ==> k.terms[u].running
  }

  /** Started terminals come first, and each one's pid is that of its root shell.  Only the
      displayed terminal may still wait for its shell. */
  ghost predicate TerminalsOk(k: Kernel)
    requires Shape(k)
  {
    && k.terms[0].running && k.terms[0].pid == 0
    && (k.terms[k.current].running || (k.terms[k.current].ready && MayOpen(k, k.current)))
    && (forall t :: 0 <= t < |k.terms| ==>
          && (k.terms[t].running ==> k.terms[t].ready)
          && (k.terms[t].ready ==> k.terms[t].running || t == k.current)
          && (k.terms[t].running <==> k.chains[t] != [])
          && k.terms[t].pid == (if k.chains[t] == [] then 0 else k.chains[t][0]))
    && (forall t, u :: 0 <= t < u < |k.terms| && k.terms[u].running ==> k.terms[t].running)
  }

  ghost predicate ProcInv(k: Kernel) {
    && Shape(k) && ChainsOk(k) && TerminalsOk(k)
    && k.counter == k.schedule && k.terms[k.schedule].running
    && k.runningPid == Last(k.chains[k.schedule])
  }

  /** The same for some reading of the pointers as chains. */
  ghost predicate Healthy(k: Kernel) {
    exists chains, place :: ProcInv(k.(chains := chains, place := place))
  }

  // ---------------------------------------------------------- whose process

  /** The first terminal recorded with this pid, started or not. */
  function FirstWithPid(terms: seq<Terminal>, pid: int, t: nat): (r: nat)
    requires t <= |terms|
    ensures t <= r <= |terms| && (r < |terms| ==> terms[r].pid == pid)
    ensures forall u :: t <= u < r ==> terms[u].pid != pid
    decreases |terms| - t
  {
    if t == |terms| || terms[t].pid == pid then t else FirstWithPid(terms, pid, t + 1)
  }

  /** What climbing a chain relies on: each process points to the one above, and only the
      topmost is recorded as a terminal's, namely t's. */
  predicate ClimbsAt(pcbs: seq<Pcb>, terms: seq<Terminal>, c: seq<nat>, t: nat, i: nat)
    requires i < |c|
  {
    && c[i] < |pcbs|
    && pcbs[c[i]].pid == c[i]
    && pcbs[c[i]].parent == (if i == 0 then None else Some(c[i - 1]))
    && (i > 0 ==> pcbs[c[i]].parentPid == c[i - 1])
    && FirstWithPid(terms, c[i], 0) == (if i == 0 then t else |terms|)
  }

  ghost predicate Climbs(pcbs: seq<Pcb>, terms: seq<Terminal>, c: seq<nat>, t: nat) {
    c != [] && forall i :: 0 <= i < |c| ==> ClimbsAt(pcbs, terms, c, t, i)
  }

  // ---------------------------------------------------------------- execute

  /** How loading a program goes: refused before a pid is taken, unreadable after the pid
      (before or after its page directory is made), or fine. */
  datatype Load = Refused | BadEntry | BadImage | Loads

  function FirstFree(live: set<nat>, p: nat): (r: Option<nat>)
    requires p <= NUM_PROC
    ensures r.Some? ==> p <= r.value < NUM_PROC && r.value !in live
    ensures forall q :: p <= q < (if r.Some? then r.value else NUM_PROC) ==> q in live
    decreases NUM_PROC - p
  {
    if p == NUM_PROC then None
    else if p !in live then Some(p)
    else FirstFree(live, p + 1)
  }

  function FirstIdle(terms: seq<Terminal>, t: nat): (r: nat)
    requires t <= |terms|
    ensures t <= r <= |terms|
    ensures r < |terms| ==> !terms[r].running
    ensures forall u :: t <= u < r ==> terms[u].running
    decreases |terms| - t
  {
    if t == |terms| || !terms[t].running then t else FirstIdle(terms, t + 1)
  }

  /** The terminal a new process is compared with: the displayed one, or if that has no
      shell yet the first idle one, which the new process then starts. */
  function ForNewProcess(k: Kernel): (r: (seq<Terminal>, nat))
    requires Shape(k)
    ensures |r.0| == |k.terms| && r.1 < |k.terms|
  {
    if k.terms[k.current].running then (k.terms, k.current)
    else
      var t := FirstIdle(k.terms, 0);
      (k.terms[t := k.terms[t].(pid := k.runningPid, running := true)], t)
  }

  function AttachRoot(k: Kernel, t: nat): (r: Kernel)
    requires Shape(k) && t < |k.terms|
    ensures Shape(r)
  {
    var p := k.runningPid;
    k.(pcbs := k.pcbs[p := Pcb(p, -1, None, None)], chains := k.chains[t := [p]], place := k.place[p := (t, 0)])
  }

  function AttachChild(k: Kernel, parent: nat): (r: Kernel)
    requires Shape(k) && parent < NUM_PROC
    ensures Shape(r)
  {
    var p, t := k.runningPid, k.schedule;
    var pcbs := k.pcbs[p := Pcb(p, if parent == p then p else k.pcbs[parent].pid, Some(parent), None)];
    k.(pcbs := pcbs[parent := pcbs[parent].(child := Some(p))],
       chains := k.chains[t := k.chains[t] + [p]], place := k.place[p := (t, |k.chains[t]|)])
  }

  /** The new process's block and its place: a root if its pid is its terminal's. */
  function Attach(k: Kernel, parent: nat): (r: Kernel)
    requires Shape(k) && parent < NUM_PROC
    ensures Shape(r)
  {
    var (terms, t) := ForNewProcess(k);
    var k1 := k.(terms := terms);
    if terms[t].pid == k.runningPid then AttachRoot(k1, t) else AttachChild(k1, parent)
  }

  function Execute(k: Kernel, load: Load): (r: Kernel)
    requires Shape(k)
    ensures Shape(r)
  {
    var free := FirstFree(k.live, 0);
    if load.Refused? || free.None? then k
    else
      var p := free.value;
      var k1 := k.(live := k.live + {p}, runningPid := p);
      if load.BadEntry? then k1
      else
        var k2 := k1.(video := k1.video[p := 0], user := k1.user[p := None], cr3 := p);
        if load.BadImage? then k2 else Attach(k2, k.runningPid)
  }

  /** A pid is taken and the program starts. */
  predicate Starts(k: Kernel, load: Load) {
    load.Loads? && FirstFree(k.live, 0).Some?
  }

  predicate LeaksPid(k: Kernel, load: Load) {
    (load.BadEntry? || load.BadImage?) && FirstFree(k.live, 0).Some?
  }

  // ------------------------------------------------------------------- halt

  predicate IsRoot(k: Kernel)
    requires Shape(k)
  {
    k.pcbs[k.runningPid].parentPid == -1
  }

  function ClearChild(k: Kernel): (r: Kernel)
    requires Shape(k)
    ensures Shape(r)
  {
    var parent := k.pcbs[k.runningPid].parent;
    if parent.None? then k
    else k.(pcbs := k.pcbs[parent.value := k.pcbs[parent.value].(child := None)])
  }

  function ReleasePid(k: Kernel): (r: Kernel)
    requires Shape(k)
    ensures Shape(r)
  {
    var pid := k.pcbs[k.runningPid].pid;
    k.(live := k.live - {pid}, place := k.place - {pid})
  }

  /** The running process leaves the table: its parent's link to it and its pid go. */
  function Unlink(k: Kernel): (r: Kernel)
    requires Shape(k)
    ensures Shape(r)
  {
    ReleasePid(ClearChild(k))
  }

  function StopRoot(k: Kernel): (r: Kernel)
    requires Shape(k)
    ensures Shape(r)
  {
    k.(terms := k.terms[k.current := k.terms[k.current].(running := false)],
       chains := k.chains[k.schedule := []])
  }

  function ReturnToParent(k: Kernel, q: nat): (r: Kernel)
    requires Shape(k) && q < NUM_PROC
    ensures Shape(r)
  {
    var t, c := k.schedule, k.chains[k.schedule];
    k.(runningPid := q, cr3 := k.pcbs[q].pid,
       terms := k.terms[t := k.terms[t].(vidmap := false)],
       chains := k.chains[t := if c == [] then [] else c[..|c| - 1]])
  }

  /** The running process ends; a root shell is replaced by a fresh one. */
  function Halt(k: Kernel): (r: Kernel)
    requires Shape(k)
    requires IsRoot(k) || 0 <= k.pcbs[k.runningPid].parentPid < NUM_PROC
    ensures Shape(r)
  {
    if IsRoot(k) then Execute(StopRoot(Unlink(k)), Loads)
    else ReturnToParent(Unlink(k), k.pcbs[k.runningPid].parentPid)
  }

  // --------------------------------------------------- switching and the timer

  function BufferOf(t: nat): nat {
    PAGE * (t + 1)
  }

  /** The physical page a terminal's output belongs in. */
  function Target(k: Kernel, t: nat): nat {
    if t == k.current then 0 else BufferOf(t)
  }

  predicate OnScreen(x: int, y: int) {
    0 <= x < S.COLS && 0 <= y < S.ROWS
  }

  function Page(mem: seq<byte>, at: nat): (r: seq<byte>)
    requires at + S.SCREEN_BYTES <= |mem|
    ensures |r| == S.SCREEN_BYTES
  {
    mem[at..at + S.SCREEN_BYTES]
  }

  /** The displayed cursor is saved with the old terminal and taken from the new one. */
  function ExchangeCursors(k: Kernel, to: nat): (r: Kernel)
    requires Shape(k) && to < |k.terms|
    ensures Shape(r) && r == k.(x := r.x, y := r.y, terms := r.terms) && |r.terms| == |k.terms|
  {
    var saved := k.(terms := k.terms[k.current := k.terms[k.current].(x := k.x, y := k.y)]);
    var term := saved.terms[to];
    if OnScreen(term.x, term.y) then saved.(x := term.x, y := term.y) else saved
  }

  /** The display goes to the old terminal's buffer and the new one's buffer to the display;
      process pid is left writing to the old buffer. */
  function ExchangeScreens(k: Kernel, to: nat, pid: nat): (r: Kernel)
    requires Shape(k) && to < |k.terms| && pid < NUM_PROC
    ensures Shape(r) && r == k.(mem := r.mem, video := r.video, cr3 := r.cr3)
  {
    var buffer := BufferOf(k.current);
    var k1 := k.(video := k.video[pid := 0], cr3 := pid);
    var k2 := k1.(mem := Splice(k1.mem, buffer, Page(k1.mem, 0)));
    var k3 := k2.(mem := Splice(k2.mem, 0, Page(k2.mem, BufferOf(to))));
    k3.(video := k3.video[pid := buffer], cr3 := pid)
  }

  function Restore(k: Kernel, to: nat): (r: Kernel)
    requires Shape(k) && to < |k.terms|
    ensures Shape(r) && |r.terms| == |k.terms|
  {
    ExchangeScreens(ExchangeCursors(k, to), to, k.pcbs[k.runningPid].pid)
  }

  function MarkReady(k: Kernel, to: nat): (r: Kernel)
    requires Shape(k) && to < |k.terms|
    ensures Shape(r) && |r.terms| == |k.terms|
  {
    k.(current := to, terms := k.terms[to := k.terms[to].(ready := true)])
  }

  /** Terminal t takes over the display; the old screen is saved in its own buffer. */
  function Switch(k: Kernel, to: int): (r: Kernel)
    requires Shape(k)
    ensures Shape(r)
  {
    if to == k.current || !(0 <= to < |k.terms|) then k
    else MarkReady(Restore(k, to), to)
  }

  /** The place d steps round the ring of n terminals. */
  function Around(c: nat, d: nat, n: nat): nat {
    if c + d < n then c + d else c + d - n
  }

  /** The first ready terminal met going round from c. */
  function NextReady(terms: seq<Terminal>, c: nat, d: nat): (r: nat)
    requires c < |terms| && 1 <= d <= |terms|
    ensures r < |terms|
    decreases |terms| - d
  {
    var t := Around(c, d, |terms|);
    if d == |terms| || terms[t].ready then t else NextReady(terms, c, d + 1)
  }

  /** Point process p's pages at the terminal's output page. */
  function Remap(k: Kernel, t: nat, p: nat): (r: Kernel)
    requires Shape(k) && t < |k.terms| && p < NUM_PROC
    ensures Shape(r)
  {
    k.(video := k.video[p := Target(k, t)],
       user := if k.terms[t].vidmap then k.user[p := Some(Target(k, t))] else k.user,
       cr3 := p)
  }

  /** The process at the end of terminal t's chain, found by going down from its root. */
  function Leaf(k: Kernel, t: nat): (p: nat)
    requires Shape(k) && t < |k.terms|
    ensures p < NUM_PROC
  {
    if k.chains[t] != [] && Last(k.chains[t]) < NUM_PROC then Last(k.chains[t]) else 0
  }

  function Dispatch(k: Kernel): (r: Kernel)
    requires Shape(k)
    ensures Shape(r)
  {
    var t := NextReady(k.terms, k.counter, 1);
    if t == k.schedule then k.(counter := t)
    else
      var k1 := k.(counter := t, schedule := t);
      if k.terms[t].running then Remap(k1.(runningPid := Leaf(k, t)), t, Leaf(k, t))
      else Execute(k1, Loads)
  }

  /** One timer interrupt; to is the terminal asked for on the keyboard, or -1. */
  function Tick(k: Kernel, to: int): (r: Kernel)
    requires Shape(k)
    ensures Shape(r)
  {
    Dispatch(Switch(k, to))
  }

  /** Terminals are opened in index order, and not left before their shell has started. */
  predicate TickOk(k: Kernel, to: int)
    requires Shape(k)
  {
    0 <= to < |k.terms| && to != k.current ==>
      k.terms[k.current].running && (k.terms[to].running || MayOpen(k, to))
  }

  // ---------------------------------------------------------------- output

  function VideoPage(k: Kernel): int
    requires Shape(k)
  {
    k.video[k.cr3]
  }

  /** The physical place of a byte of video memory as the loaded page tables see it. */
  function VideoAddress(k: Kernel, offset: nat): int
    requires Shape(k)
  {
    if offset < PAGE then VideoPage(k) + offset else offset
  }

  predicate CursorsFit(k: Kernel)
    requires Shape(k)
  {
    k.x >= 0 && k.y >= 0 && forall t :: 0 <= t < |k.terms| ==> k.terms[t].x >= 0 && k.terms[t].y >= 0
  }

  /** Store a character and its attribute; addresses beyond the buffers are not modelled. */
  function StoreCell(k: Kernel, at: int, c: byte): (r: Kernel)
    requires Shape(k)
    ensures Shape(r) && r == k.(mem := r.mem)
  {
    if 0 <= at && at + 2 <= |k.mem| then k.(mem := Splice(k.mem, at, [c, S.ATTRIB])) else k
  }

  function ScrollVideo(k: Kernel): (r: Kernel)
    requires Shape(k)
    ensures Shape(r) && r == k.(mem := r.mem)
  {
    var at := VideoPage(k);
    if 0 <= at && at + S.SCREEN_BYTES <= |k.mem|
    then k.(mem := Splice(k.mem, at, S.ScrollUp(Page(k.mem, at))))
    else k
  }

  function CursorOf(k: Kernel, t: nat): (int, int)
    requires Shape(k) && t < |k.terms|
  {
    if t == k.current then (k.x, k.y) else (k.terms[t].x, k.terms[t].y)
  }

  /** The displayed terminal's setter rejects a position off the screen; the other one
      rejects it only when both coordinates are out of range. */
  function SetCursor(k: Kernel, t: nat, x: int, y: int): (r: Kernel)
    requires Shape(k) && CursorsFit(k) && t < |k.terms| && 0 <= x && 0 <= y
    ensures Shape(r) && CursorsFit(r) && |r.terms| == |k.terms|
  {
    if t == k.current then
      if OnScreen(x, y) then k.(x := x, y := y) else k
    else
      if x >= S.COLS && y >= S.ROWS then k else k.(terms := k.terms[t := k.terms[t].(x := x, y := y)])
  }

  function NewLine(k: Kernel, t: nat, y: int): (r: Kernel)
    requires Shape(k) && CursorsFit(k) && t < |k.terms| && 0 <= y
    ensures Shape(r) && CursorsFit(r) && |r.terms| == |k.terms|
  {
    if y < S.ROWS - 1 then SetCursor(k, t, 0, y + 1) else SetCursor(ScrollVideo(k), t, 0, y)
  }

  function StepBack(k: Kernel, t: nat, x: int, y: int): (r: Kernel)
    requires Shape(k) && CursorsFit(k) && t < |k.terms| && 0 <= x && 0 <= y
    ensures Shape(r) && CursorsFit(r) && |r.terms| == |k.terms|
  {
    if x == 0 && y > 0 then SetCursor(k, t, S.COLS - 1, y - 1) else SetCursor(k, t, Wrap16(x - 1), y)
  }

  function Erase(k: Kernel, t: nat, x: int, y: int): (r: Kernel)
    requires Shape(k) && CursorsFit(k) && t < |k.terms| && 0 <= x && 0 <= y
    ensures Shape(r) && CursorsFit(r) && |r.terms| == |k.terms|
  {
    BlankCell(StepBack(k, t, x, y), t)
  }

  /** The cell under terminal t's cursor, in whatever page VIDEO leads to. */
  function BlankCell(k: Kernel, t: nat): (r: Kernel)
    requires Shape(k) && CursorsFit(k) && t < |k.terms|
    ensures Shape(r) && r == k.(mem := r.mem)
  {
    var (x, y) := CursorOf(k, t);
    StoreCell(k, VideoAddress(k, 2 * (S.COLS * y + x)), SPACE)
  }

  /** The cursor after a printed character: the next cell, scrolling past the last one. */
  function Advance(k: Kernel, t: nat, x: int, y: int): (r: Kernel)
    requires Shape(k) && CursorsFit(k) && t < |k.terms| && 0 <= x && 0 <= y
    ensures Shape(r) && CursorsFit(r) && |r.terms| == |k.terms|
  {
    var nx := x + 1;
    if nx / S.COLS == 0 then SetCursor(k, t, nx, y)
    else if y == S.ROWS - 1 then SetCursor(ScrollVideo(k), t, nx % S.COLS, y)
    else SetCursor(k, t, nx % S.COLS, (y + nx / S.COLS) % S.ROWS)
  }

  /** The displayed terminal prints through VIDEO, the others into their own buffers. */
  function StoreChar(k: Kernel, t: nat, x: int, y: int, c: byte): (r: Kernel)
    requires Shape(k) && t < |k.terms| && 0 <= x && 0 <= y
    ensures Shape(r) && r == k.(mem := r.mem)
  {
    var offset := 2 * (S.COLS * y + x);
    StoreCell(k, if t == k.current then VideoAddress(k, offset) else BufferOf(t) + offset, c)
  }

  /** Print one byte on terminal t, through whatever pages are mapped now. */
  function PutcAt(k: Kernel, t: nat, c: byte): (r: Kernel)
    requires Shape(k) && CursorsFit(k) && t < |k.terms|
    ensures Shape(r) && CursorsFit(r) && |r.terms| == |k.terms|
  {
    var (x, y) := CursorOf(k, t);
    if c == NUL then k
    else if c == NEWLINE then NewLine(k, t, y)
    else if c == BACKSPACE then Erase(k, t, x, y)
    else Advance(StoreChar(k, t, x, y, if c == TAB then SPACE else c), t, x, y)
  }

  predicate CursorsOk(k: Kernel) {
    OnScreen(k.x, k.y) && forall t :: 0 <= t < |k.terms| ==> OnScreen(k.terms[t].x, k.terms[t].y)
  }

  /** A background backspace in the top left corner leaves the screen. */
  predicate Underflows(k: Kernel, t: nat, c: byte)
    requires Shape(k) && t < |k.terms|
  {
    c == BACKSPACE && t != k.current && CursorOf(k, t) == (0, 0)
  }

  /** Print a text on terminal t, byte by byte. */
  function WriteAt(k: Kernel, t: nat, text: seq<byte>): (r: Kernel)
    requires Shape(k) && CursorsFit(k) && t < |k.terms|
    ensures Shape(r) && CursorsFit(r) && |r.terms| == |k.terms|
    decreases |text|
  {
    if text == [] then k else PutcAt(WriteAt(k, t, text[..|text| - 1]), t, text[|text| - 1])
  }

  lemma {:induction false} WriteAtMore(k: Kernel, t: nat, text: seq<byte>, i: nat)
    requires Shape(k) && CursorsFit(k) && t < |k.terms| && i < |text|
    ensures WriteAt(k, t, text[..i + 1]) == PutcAt(WriteAt(k, t, text[..i]), t, text[i])
  {
    assert text[..i + 1][..i] == text[..i];
  }

  /** The vidmap call of the running process. */
  function Vidmap(k: Kernel): (r: Kernel)
    requires Shape(k)
    ensures Shape(r)
  {
    var p, t := k.pcbs[k.runningPid].pid, k.schedule;
    k.(terms := k.terms[t := k.terms[t].(vidmap := true)], user := k.user[p := Some(Target(k, t))], cr3 := p)
  }

  /** A store of the running process into its vidmap page. */
  function Poke(k: Kernel, offset: nat, b: byte): (r: Kernel)
    requires Shape(k)
    ensures Shape(r)
  {
    var page := k.user[k.cr3];
    if page.Some? && 0 <= page.value && page.value + offset < |k.mem|
    then k.(mem := Splice(k.mem, page.value + offset, [b]))
    else k
  }

  lemma {:induction false} StepBackStaysOnScreen(k: Kernel, t: nat, x: int, y: int)
    requires Shape(k) && CursorsFit(k) && t < |k.terms| && OnScreen(x, y) && CursorOf(k, t) == (x, y)
    requires !Underflows(k, t, BACKSPACE)
    ensures var (px, py) := CursorOf(StepBack(k, t, x, y), t); OnScreen(px, py)
  {
  }
}
