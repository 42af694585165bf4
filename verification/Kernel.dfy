/** The kernel on the heap: process control blocks and terminals as objects linked by
    pointers, video memory as one array seen through the page tables.  Every method is
    proved to take the step that KernelState describes. */
module Kernel {
  import opened Arithmetic
  import opened Bytes
  import opened PidBits
  import K = KernelState
  import S = Screen
  import P = Paging
  import Memory
  import ProcessProofs
  import VideoProofs
  import Runs

  const VIDEO: nat := 0xB8000
  const VIDEO_PAGE: nat := 0xB8
  const TASK_NOT_RUNNING: nat := 0
  const TASK_RUNNING: nat := 1
  /** Directory slot of the vidmap page, at 160 MB. */
  const USER_SLOT: nat := 40

  // ------------------------------------------------ what the page tables amount to

  /** The physical offset from VIDEO behind process p's VIDEO page. */
  function VideoPage(t: P.Tables, p: nat): int
    requires t.Valid() && p < P.NUM_PROC
  {
    t.tbls[p][VIDEO_PAGE] / P.KB4 * P.KB4 - VIDEO
  }

  /** The same for its vidmap page, if that is mapped. */
  function UserPage(t: P.Tables, p: nat): Option<int>
    requires t.Valid() && p < P.NUM_PROC
  {
    if t.dirs[p][USER_SLOT] == P.TablePde(t, p) && P.Present(t.tbls[p][0])
    then Some(t.tbls[p][0] / P.KB4 * P.KB4 - VIDEO) else None
  }

  /** Process p's first directory entry leads to its own table, where n terminals' buffers
      keep their addresses. */
  predicate Ready(t: P.Tables, p: nat, n: nat)
    requires t.Valid() && p < P.NUM_PROC && n < 256
  {
    && t.dirs[p][0] == P.TablePde(t, p)
    && P.Present(t.tbls[p][VIDEO_PAGE])
    && forall i :: VIDEO_PAGE < i <= VIDEO_PAGE + n ==> t.tbls[p][i] == P.IdentityPte(i)
  }

  /** The tables are what the model says of each process's pages. */
  ghost predicate PagesMatch(t: P.Tables, video: seq<int>, user: seq<Option<int>>, place: map<nat, (nat, nat)>, n: nat)
    requires t.Valid() && n < 256
  {
    && |video| == |user| == P.NUM_PROC
    && (forall p :: 0 <= p < P.NUM_PROC ==> video[p] == VideoPage(t, p))
    && (forall p :: 0 <= p < P.NUM_PROC ==> user[p] == UserPage(t, p))
    && (forall p :: p in place ==> p < P.NUM_PROC && Ready(t, p, n))
  }

  lemma {:induction false} VideoTranslates(t: P.Tables, p: nat, n: nat, offset: nat)
    requires t.Valid() && p < P.NUM_PROC && n < 256 && Ready(t, p, n) && offset < K.PAGE * (n + 1)
    requires VideoPage(t, p) >= 0
    ensures P.Walk(t, p, VIDEO + offset)
      == Some(VIDEO + if offset < K.PAGE then VideoPage(t, p) + offset else offset)
  {
    P.TablePdeLeadsToTable(t, p);
    var i := P.Index(VIDEO + offset);
    assert i == VIDEO_PAGE + offset / K.PAGE;
    hide P.TablePde, P.UserMay;
    if offset >= K.PAGE {
      assert t.tbls[p][i] == P.IdentityPte(i);
      assert P.IdentityPte(i) / P.KB4 == i;
    }
  }

  lemma {:induction false} MapVideoPage(t: P.Tables, pid: nat, page: nat, n: nat, q: nat)
    requires t.Valid() && pid < P.NUM_PROC && q < P.NUM_PROC && n < 256
    requires page % K.PAGE == 0 && page < K.PAGE * (n + 1)
    ensures var r := P.MapPage(t, pid, VIDEO, VIDEO + page);
      && VideoPage(r, q) == (if q == pid then page else VideoPage(t, q))
      && UserPage(r, q) == UserPage(t, q)
      && (Ready(t, q, n) ==> Ready(r, q, n))
  {
    P.PteDecodes(VIDEO + page);
  }

  lemma {:induction false} MapUserPage(t: P.Tables, pid: nat, page: nat, n: nat, q: nat)
    requires t.Valid() && pid < P.NUM_PROC && q < P.NUM_PROC && n < 256
    requires page % K.PAGE == 0 && page < K.PAGE * (n + 1)
    ensures var r := P.MapPage(t, pid, P.MB4 * USER_SLOT, VIDEO + page);
      && VideoPage(r, q) == VideoPage(t, q)
      && UserPage(r, q) == (if q == pid then Some(page) else UserPage(t, q))
      && (Ready(t, q, n) ==> Ready(r, q, n))
  {
    P.PteDecodes(VIDEO + page);
  }

  lemma {:induction false} MakePage(t: P.Tables, pid: nat, n: nat, q: nat)
    requires t.Valid() && pid < P.NUM_PROC && q < P.NUM_PROC && n < 256
    ensures var r := P.MakeTask(t, pid);
      && VideoPage(r, q) == (if q == pid then 0 else VideoPage(t, q))
      && UserPage(r, q) == (if q == pid then None else UserPage(t, q))
      && (Ready(t, q, n) || q == pid ==> Ready(r, q, n))
  {
  }

  lemma {:induction false} VideoStaysMatched(t: P.Tables, video: seq<int>, user: seq<Option<int>>, place: map<nat, (nat, nat)>, n: nat, pid: nat, page: nat)
    requires t.Valid() && n < 256 && PagesMatch(t, video, user, place, n) && pid < P.NUM_PROC
    requires page % K.PAGE == 0 && page < K.PAGE * (n + 1)
    ensures PagesMatch(P.MapPage(t, pid, VIDEO, VIDEO + page), video[pid := page], user, place, n)
  {
    var r := P.MapPage(t, pid, VIDEO, VIDEO + page);
    hide P.MapPage, VideoPage, UserPage, Ready;
    forall q | 0 <= q < P.NUM_PROC
      ensures && VideoPage(r, q) == (if q == pid then page else VideoPage(t, q))
              && UserPage(r, q) == UserPage(t, q)
              && (Ready(t, q, n) ==> Ready(r, q, n))
    {
      MapVideoPage(t, pid, page, n, q);
    }
  }

  lemma {:induction false} UserStaysMatched(t: P.Tables, video: seq<int>, user: seq<Option<int>>, place: map<nat, (nat, nat)>, n: nat, pid: nat, page: nat)
    requires t.Valid() && n < 256 && PagesMatch(t, video, user, place, n) && pid < P.NUM_PROC
    requires page % K.PAGE == 0 && page < K.PAGE * (n + 1)
    ensures PagesMatch(P.MapPage(t, pid, P.MB4 * USER_SLOT, VIDEO + page),
                       video, user[pid := Some(page)], place, n)
  {
    var r := P.MapPage(t, pid, P.MB4 * USER_SLOT, VIDEO + page);
    hide P.MapPage, VideoPage, UserPage, Ready;
    forall q | 0 <= q < P.NUM_PROC
      ensures && VideoPage(r, q) == VideoPage(t, q)
              && UserPage(r, q) == (if q == pid then Some(page) else UserPage(t, q))
              && (Ready(t, q, n) ==> Ready(r, q, n))
    {
      MapUserPage(t, pid, page, n, q);
    }
  }

  lemma {:induction false} MadeIsMatched(t: P.Tables, video: seq<int>, user: seq<Option<int>>, place: map<nat, (nat, nat)>, n: nat, pid: nat)
    requires t.Valid() && n < 256 && PagesMatch(t, video, user, place, n) && pid < P.NUM_PROC
    ensures var r := P.MakeTask(t, pid);
      && PagesMatch(r, video[pid := 0], user[pid := None], place, n)
      && Ready(r, pid, n)
  {
    forall q | 0 <= q < P.NUM_PROC { MakePage(t, pid, n, q); }
    hide P.MakeTask, VideoPage, UserPage, Ready;
  }

  lemma {:induction false} RemovedIsMatched(t: P.Tables, video: seq<int>, user: seq<Option<int>>, place: map<nat, (nat, nat)>, n: nat, pid: nat)
    requires t.Valid() && n < 256 && PagesMatch(t, video, user, place, n) && pid < P.NUM_PROC
    ensures PagesMatch(P.RemoveTask(t, pid), video, user, place, n)
  {
    forall q | 0 <= q < P.NUM_PROC
      ensures && VideoPage(P.RemoveTask(t, pid), q) == VideoPage(t, q)
              && UserPage(P.RemoveTask(t, pid), q) == UserPage(t, q)
              && (Ready(t, q, n) ==> Ready(P.RemoveTask(t, pid), q, n))
    {
    }
    hide P.RemoveTask, VideoPage, UserPage, Ready;
  }

  // ----------------------------------------------------- rearranging memory

  lemma {:induction false} TwoBytes(mem: seq<byte>, at: nat, c: byte)
    requires at + 2 <= |mem|
    ensures mem[at := c][at + 1 := S.ATTRIB] == Splice(mem, at, [c, S.ATTRIB])
  {
  }

  /** The memory behind VIDEO as the loaded page tables see it is that of a terminal. */
  predicate Within(k: K.Kernel) {
    K.Shape(k) && 0 <= K.VideoPage(k) <= K.PAGE * |k.terms|
  }

  function RowsUp(k: K.Kernel): K.Kernel
    requires Within(k)
  {
    var at := K.VideoPage(k);
    k.(mem := Splice(k.mem, at, k.mem[at + S.ROW_BYTES..at + S.SCREEN_BYTES]))
  }

  /** The first i cells of the last row are blank. */
  function BlankedTo(k: K.Kernel, i: nat): K.Kernel
    requires Within(k) && i <= S.COLS
  {
    k.(mem := Splice(k.mem, K.VideoPage(k) + S.SCREEN_BYTES - S.ROW_BYTES, S.BlankRow()[..2 * i]))
  }

  lemma {:induction false} NothingBlanked(k: K.Kernel)
    requires Within(k)
    ensures BlankedTo(k, 0) == k
  {
  }

  lemma {:induction false} BlankedSees(k: K.Kernel, i: nat)
    requires Within(k) && i <= S.COLS
    ensures Within(BlankedTo(k, i)) && BlankedTo(k, i).cr3 == k.cr3 && BlankedTo(k, i).place == k.place
  {
  }

  lemma {:induction false} BlankMore(mem: seq<byte>, last: nat, i: nat)
    requires i < S.COLS && last + S.ROW_BYTES <= |mem|
    ensures Splice(Splice(mem, last, S.BlankRow()[..2 * i]), last + 2 * i, [SPACE, S.ATTRIB])
      == Splice(mem, last, S.BlankRow()[..2 * (i + 1)])
  {
    assert S.BlankRow()[..2 * (i + 1)] == S.BlankRow()[..2 * i] + [SPACE, S.ATTRIB];
  }

  lemma {:induction false} BlankedMore(k: K.Kernel, i: nat)
    requires Within(k) && i < S.COLS
    ensures var m := BlankedTo(k, i);
      && K.Shape(m)
      && K.StoreCell(m, K.VideoAddress(m, 2 * (S.COLS * (S.ROWS - 1) + i)), SPACE) == BlankedTo(k, i + 1)
  {
    BlankMore(k.mem, K.VideoPage(k) + S.SCREEN_BYTES - S.ROW_BYTES, i);
  }

  lemma {:induction false} ScrollWhole(mem: seq<byte>, at: nat)
    requires at + S.SCREEN_BYTES <= |mem|
    ensures var rows := S.SCREEN_BYTES - S.ROW_BYTES;
      Splice(Splice(mem, at, mem[at + S.ROW_BYTES..at + S.SCREEN_BYTES]), at + rows, S.BlankRow()[..S.ROW_BYTES])
      == Splice(mem, at, S.ScrollUp(K.Page(mem, at)))
  {
  }

  lemma {:induction false} ScrolledWhole(k: K.Kernel)
    requires Within(k)
    ensures Within(RowsUp(k)) && BlankedTo(RowsUp(k), S.COLS) == K.ScrollVideo(k)
  {
    ScrollWhole(k.mem, K.VideoPage(k));
  }

  /** After any part of an allowed write the next byte can be printed. */
  lemma {:induction false} PrefixSees(v: K.Kernel, text: seq<byte>, i: nat)
    requires VideoProofs.Inv(v) && VideoProofs.WriteOk(v, text) && i < |text|
    ensures var m := K.WriteAt(v, v.schedule, text[..i]);
      && K.CursorsOk(m) && !K.Underflows(m, v.schedule, text[i])
      && m.cr3 in m.place && Within(m)
  {
    forall j | 0 <= j < i ensures text[..i][..j] == text[..j] {}
    assert VideoProofs.WriteOk(v, text[..i]);
    VideoProofs.WriteSim(v, text[..i]);
    ProcessProofs.RunningIsLeaf(v);
  }

  lemma {:induction false} StepsAround(c: nat, n: nat)
    requires c < n
    ensures (c + 1) % n == if c + 1 == n then 0 else c + 1
  {
    QuotientIs(c, n, 0, c);
    NextRemainder(c, n);
  }

  lemma {:induction false} ColumnsWrap(x: nat)
    requires x <= S.COLS
    ensures x / S.COLS == (if x < S.COLS then 0 else 1) && x % S.COLS == (if x < S.COLS then x else 0)
  {
  }

  /** The first free pid and its bit; the search mask moves right from the top bit. */
  method FindFree(procs: bv8) returns (pid: Option<nat>, mask: bv8)
    ensures pid == K.FirstFree(Live(procs), 0)
    ensures pid.Some? ==> mask == Mask(pid.value)
  {
    mask := FIRST_PID;
    for i := 0 to K.NUM_PROC
      invariant i < K.NUM_PROC ==> mask == Mask(i)
      invariant K.FirstFree(Live(procs), 0) == K.FirstFree(Live(procs), i)
    {
      InLive(procs, i);
      if mask & procs == 0 { return Some(i), mask; }
      MaskIsShift(i);
      mask := mask >> 1;
    }
    return None, mask;
  }

  // ---------------------------------------------------------------- the objects

  class Pcb {
    const slot: nat
    var pid: nat
    var parentPid: int
    var parentPcb: Pcb?
    var childPcb: Pcb?

    ghost predicate Blank()
      reads this
    {
      pid == 0 && parentPid == 0 && parentPcb == null && childPcb == null
    }

    constructor (slot: nat)
      ensures this.slot == slot && Blank()
    {
      this.slot := slot;
      pid, parentPid, parentPcb, childPcb := 0, 0, null, null;
    }
  }

  method NewPcbs() returns (ps: seq<Pcb>)
    ensures |ps| == K.NUM_PROC && forall j :: 0 <= j < |ps| ==> fresh(ps[j]) && ps[j].slot == j && ps[j].Blank()
  {
    ps := [];
    for i := 0 to K.NUM_PROC
      invariant |ps| == i
      invariant forall j :: 0 <= j < i ==> fresh(ps[j]) && ps[j].slot == j && ps[j].Blank()
    {
      var p := new Pcb(i);
      ps := ps + [p];
    }
  }

  class Terminal {
    const id: nat
    var pid: nat
    var running: bool
    var status: nat
    var vidmap: bool
    var x: u16
    var y: u16

    ghost predicate Blank()
      reads this
    {
      pid == 0 && !running && status == TASK_NOT_RUNNING && !vidmap && x == y == 0
    }

    constructor (id: nat)
      ensures this.id == id && Blank()
    {
      this.id := id;
      pid, running, status, vidmap, x, y := 0, false, TASK_NOT_RUNNING, false, 0, 0;
    }
  }

  method NewTerminals(n: nat) returns (ts: seq<Terminal>)
    ensures |ts| == n && forall j :: 0 <= j < n ==> fresh(ts[j]) && ts[j].id == j && ts[j].Blank()
  {
    ts := [];
    for i := 0 to n
      invariant |ts| == i
      invariant forall j :: 0 <= j < i ==> fresh(ts[j]) && ts[j].id == j && ts[j].Blank()
    {
      var t := new Terminal(i);
      ts := ts + [t];
    }
  }

  /** The model of static storage that is all zero. */
  ghost function ZeroModel(n: nat, mem: seq<byte>, t: P.Tables): (k: K.Kernel)
    requires 1 <= n < 256 && |mem| == K.PAGE * (n + 1) && t.Valid()
    ensures Runs.Zeroed(k) && |k.terms| == n && PagesMatch(t, k.video, k.user, k.place, n)
  {
    K.Kernel({}, 0, seq(K.NUM_PROC, _ => K.Pcb(0, 0, None, None)),
             seq(n, _ => K.Terminal(0, false, false, false, 0, 0)), 0, 0, 0, 0, 0, mem,
             seq(P.NUM_PROC, p requires 0 <= p < P.NUM_PROC => VideoPage(t, p)),
             seq(P.NUM_PROC, p requires 0 <= p < P.NUM_PROC => UserPage(t, p)), 0,
             seq(n, _ => []), map[])
  }

  class Kernel {
    const n: nat
    const pcbs: seq<Pcb>
    const terminals: seq<Terminal>
    const mmu: P.Mmu
    const vram: array<byte>
    var procs: bv8
    var runningPid: nat
    var current: nat
    var schedule: nat
    var counter: nat
    var x: u16
    var y: u16
    /** The value all of the above amounts to. */
    ghost var model: K.Kernel

    ghost predicate Fixed() {
      && |pcbs| == K.NUM_PROC && 1 <= |terminals| == n < 256
      && vram.Length == K.PAGE * (n + 1)
      && (forall i :: 0 <= i < |pcbs| ==> pcbs[i].slot == i)
      && (forall i :: 0 <= i < |terminals| ==> terminals[i].id == i)
    }

    ghost predicate Points(p: Pcb?, to: Option<nat>) {
      if p == null then to == None else p.slot < |pcbs| && pcbs[p.slot] == p && to == Some(p.slot)
    }

    ghost predicate PcbsOk(ps: seq<K.Pcb>)
      reads pcbs
    {
      |ps| == |pcbs| && forall i {:trigger ps[i]} :: 0 <= i < |ps| ==>
        && pcbs[i].pid == ps[i].pid && pcbs[i].parentPid == ps[i].parentPid
        && Points(pcbs[i].parentPcb, ps[i].parent) && Points(pcbs[i].childPcb, ps[i].child)
    }

    ghost predicate TerminalsOk(ts: seq<K.Terminal>)
      reads terminals
    {
      |ts| == |terminals| && forall i :: 0 <= i < |terminals| ==>
        ts[i] == K.Terminal(terminals[i].pid, terminals[i].running, terminals[i].status == TASK_RUNNING,
                            terminals[i].vidmap, terminals[i].x, terminals[i].y)
    }

    ghost predicate PagesOk(k: K.Kernel)
      requires n < 256
      reads mmu, mmu.pgdir, mmu.pgtbl
    {
      mmu.Valid() && k.cr3 == mmu.cr3 && PagesMatch(mmu.tables, k.video, k.user, k.place, n)
    }

    ghost predicate Valid()
      reads this, pcbs, terminals, vram, mmu, mmu.pgdir, mmu.pgtbl
    {
      && Fixed() && K.Shape(model)
      && model.live == Live(procs) && model.runningPid == runningPid
      && model.current == current && model.schedule == schedule && model.counter == counter
      && model.x == x && model.y == y && model.mem == vram[..]
      && PcbsOk(model.pcbs) && TerminalsOk(model.terms) && PagesOk(model)
    }

    /** The kernel's static storage, all zero, for n terminals. */
    constructor (n: nat, base: nat)
      requires 1 <= n < 256
      requires base % P.KB4 == 0 && P.MB4 <= base && base + P.NUM_PROC * P.KB4 <= 2 * P.MB4
      ensures Valid() && this.n == n
      ensures Runs.Zeroed(model)
    {
      var ps := NewPcbs();
      var ts := NewTerminals(n);
      var mmu := new P.Mmu(base);
      var vram := new byte[K.PAGE * (n + 1)](_ => 0);
      this.n := n;
      pcbs, terminals, this.mmu, this.vram := ps, ts, mmu, vram;
      procs, runningPid, current, schedule, counter, x, y := 0, 0, 0, 0, 0, 0, 0;
      model := ZeroModel(n, vram[..], mmu.tables);
      NoBits();
    }

    // ------------------------------------------------------------------ lookup

    /** The part of Valid that concerns processes and terminals. */
    ghost predicate TablesOk()
      reads this`model, this`runningPid, this`schedule, pcbs, terminals
    {
      && Fixed() && PcbsOk(model.pcbs) && TerminalsOk(model.terms)
      && runningPid == model.runningPid < K.NUM_PROC && schedule == model.schedule < n == |model.chains|
    }

    method GetTerminalFromPid(pid: int) returns (t: Terminal?)
      requires TablesOk()
      ensures var r := K.FirstWithPid(model.terms, pid, 0);
        if r < n then t == terminals[r] else t == null
    {
      for i := 0 to n
        invariant K.FirstWithPid(model.terms, pid, 0) == K.FirstWithPid(model.terms, pid, i)
      {
        if terminals[i].pid == pid { return terminals[i]; }
      }
      return null;
    }

    lemma {:induction false} ClimbStep(c: seq<nat>, i: nat)
      requires TablesOk() && K.Climbs(model.pcbs, model.terms, c, schedule) && i < |c|
      ensures c[i] < |pcbs| && pcbs[c[i]].pid == c[i]
      ensures i == 0 <==> pcbs[c[i]].parentPcb == null
      ensures i > 0 ==> c[i - 1] < |pcbs| && pcbs[c[i]].parentPcb == pcbs[c[i - 1]] && pcbs[c[i]].parentPid == c[i - 1]
      ensures K.FirstWithPid(model.terms, c[i], 0) == if i == 0 then schedule else n
    {
      assert K.ClimbsAt(model.pcbs, model.terms, c, schedule, i);
    }

    /** Climbs from the running process to the terminal's root process. */
    method GetRunningTerminal() returns (t: Terminal?)
      requires TablesOk()
      requires K.Climbs(model.pcbs, model.terms, model.chains[model.schedule], model.schedule)
      requires runningPid == K.Last(model.chains[model.schedule])
      ensures t == terminals[schedule]
    {
      var pcb := pcbs[runningPid];
      ghost var c := model.chains[model.schedule];
      ghost var i := |c| - 1;
      ClimbStep(c, i);
      t := GetTerminalFromPid(pcb.pid);
      if t != null { return t; }
      if pcb.parentPcb == null { return null; }
      while pcb.parentPcb != null
        invariant 0 < i < |c| && c[i] < |pcbs| && pcb == pcbs[c[i]] && pcb.parentPcb != null
        decreases i
      {
        ClimbStep(c, i);
        ClimbStep(c, i - 1);
        t := GetTerminalFromPid(pcb.parentPid);
        if t != null { return t; }
        pcb := pcb.parentPcb;
        i := i - 1;
      }
      return null;
    }

    method FindOwner() returns (t: Terminal?)
      requires Valid() && K.ProcInv(model)
      ensures t == terminals[schedule]
    {
      ProcessProofs.RunningClimbs(model);
      t := GetRunningTerminal();
    }

    // ------------------------------------------------------------------ paging

    method MapVideo(pid: nat, page: nat)
      requires Valid() && pid < K.NUM_PROC && page % K.PAGE == 0 && page < K.PAGE * (n + 1)
      modifies this`model, mmu, mmu.pgdir, mmu.pgtbl
      ensures Valid() && model == old(model).(video := old(model).video[pid := page], cr3 := pid)
    {
      VideoStaysMatched(mmu.tables, model.video, model.user, model.place, n, pid, page);
      hide PagesMatch, P.MapPage;
      var _ := mmu.MapVidMem(pid, VIDEO, VIDEO + page);
      model := model.(video := model.video[pid := page], cr3 := pid);
    }

    /** The page at 160 MB through which a program may write video memory. */
    method MapUser(pid: nat, page: nat)
      requires Valid() && pid < K.NUM_PROC && page % K.PAGE == 0 && page < K.PAGE * (n + 1)
      modifies this`model, mmu, mmu.pgdir, mmu.pgtbl
      ensures Valid() && model == old(model).(user := old(model).user[pid := Some(page)], cr3 := pid)
    {
      UserStaysMatched(mmu.tables, model.video, model.user, model.place, n, pid, page);
      hide PagesMatch, P.MapPage;
      var _ := mmu.MapVidMem(pid, P.MB4 * USER_SLOT, VIDEO + page);
      model := model.(user := model.user[pid := Some(page)], cr3 := pid);
    }

    method MakePages(pid: nat)
      requires Valid() && pid < K.NUM_PROC
      modifies this`model, mmu, mmu.pgdir, mmu.pgtbl
      ensures Valid() && Ready(mmu.tables, pid, n)
      ensures model == old(model).(video := old(model).video[pid := 0], user := old(model).user[pid := None], cr3 := pid)
    {
      MadeIsMatched(mmu.tables, model.video, model.user, model.place, n, pid);
      hide PagesMatch, P.MakeTask;
      var _ := mmu.MakeTaskPgdir(pid);
      model := model.(video := model.video[pid := 0], user := model.user[pid := None], cr3 := pid);
    }

    method RemovePages(pid: nat)
      requires Valid() && pid < K.NUM_PROC
      modifies this`model, mmu, mmu.pgdir
      ensures Valid() && model == old(model).(cr3 := pid)
    {
      RemovedIsMatched(mmu.tables, model.video, model.user, model.place, n, pid);
      hide PagesMatch, P.RemoveTask;
      mmu.RemoveTaskPgdir(pid);
      model := model.(cr3 := pid);
    }

    method FlushTlb(pid: nat)
      requires Valid() && pid < K.NUM_PROC
      modifies this`model, mmu`cr3
      ensures Valid() && model == old(model).(cr3 := pid)
    {
      mmu.FlushTlb(pid);
      model := model.(cr3 := pid);
    }

    // ------------------------------------------------------------------ output

    /** The memory behind VIDEO as the loaded page tables see it lies within the array. */
    ghost predicate SeesVideo()
      reads this`model
    {
      Within(model) && model.cr3 in model.place
    }

    /** Where a virtual address of video memory leads, from VIDEO on. */
    method Physical(offset: nat) returns (at: nat)
      requires Valid() && SeesVideo() && offset < K.PAGE * (n + 1)
      ensures at == K.VideoAddress(model, offset) < vram.Length
    {
      VideoTranslates(mmu.tables, mmu.cr3, n, offset);
      var pa := mmu.Translate(VIDEO + offset);
      at := pa.value - VIDEO;
    }

    method PokeVideo(offset: nat, b: byte)
      requires Valid() && SeesVideo() && offset < K.PAGE * (n + 1)
      modifies this`model, vram
      ensures var at := K.VideoAddress(old(model), offset);
        && 0 <= at < |old(model).mem| && Valid() && model == old(model).(mem := old(model).mem[at := b])
    {
      var at := Physical(offset);
      vram[at] := b;
      model := model.(mem := vram[..]);
    }

    /** A character cell, written through virtual addresses. */
    method StoreCell(offset: nat, c: byte)
      requires Valid() && SeesVideo() && offset % 2 == 0 && offset < K.PAGE * (n + 1)
      modifies this`model, vram
      ensures Valid() && model == K.StoreCell(old(model), K.VideoAddress(old(model), offset), c)
    {
      hide PagesMatch;
      ghost var v := model;
      PokeVideo(offset, c);
      PokeVideo(offset + 1, S.ATTRIB);
      TwoBytes(v.mem, K.VideoAddress(v, offset), c);
    }

    method BlankLastRow()
      requires Valid() && SeesVideo()
      modifies this`model, vram
      ensures Valid() && model == BlankedTo(old(model), S.COLS)
    {
      ghost var v := model;
      NothingBlanked(v);
      for i := 0 to S.COLS
        invariant Valid() && model == BlankedTo(v, i)
      {
        BlankedSees(v, i);
        StoreCell(2 * (S.COLS * (S.ROWS - 1) + i), SPACE);
        BlankedMore(v, i);
      }
    }

    method MoveRowsUp()
      requires Valid() && SeesVideo()
      modifies this`model, vram
      ensures Valid() && model == RowsUp(old(model))
    {
      var at := Physical(0);
      hide PagesMatch, Splice;
      Memory.MemMove(vram, at, at + S.ROW_BYTES, S.COLS * (S.ROWS - 1) * 2);
      model := model.(mem := vram[..]);
    }

    /** Rows move up by one and the last row is blanked; video_mem stays where it is. */
    method ScrollUp()
      requires Valid() && SeesVideo()
      modifies this`model, vram
      ensures Valid() && model == K.ScrollVideo(old(model))
    {
      ghost var v := model;
      MoveRowsUp();
      BlankLastRow();
      ScrolledWhole(v);
    }

    lemma {:induction false} CursorsAreWords()
      requires Valid()
      ensures K.CursorsFit(model)
    {
    }

    method SetScreenXY(nx: u16, ny: u16)
      requires Valid()
      modifies this`model, this`x, this`y
      ensures Valid()
      ensures model == if K.OnScreen(nx, ny) then old(model).(x := nx, y := ny) else old(model)
    {
      hide PagesMatch;
      if ny < S.ROWS && nx < S.COLS {
        y, x := ny, nx;
        model := model.(x := nx, y := ny);
      }
    }

    /** Nothing for a terminal that does not exist, or if both coordinates are too large. */
    method SetTerminalScreenXY(t: nat, nx: u16, ny: u16)
      requires Valid()
      modifies this`model, terminals
      ensures Valid()
      ensures model == if t >= n || (ny >= S.ROWS && nx >= S.COLS) then old(model)
        else old(model).(terms := old(model).terms[t := old(model).terms[t].(x := nx, y := ny)])
    {
      hide PagesMatch;
      if t >= n || (ny >= S.ROWS && nx >= S.COLS) { return; }
      terminals[t].x, terminals[t].y := nx, ny;
      model := model.(terms := model.terms[t := model.terms[t].(x := nx, y := ny)]);
    }

    method SetCursor(t: nat, nx: u16, ny: u16)
      requires Valid() && t < n
      modifies this`model, this`x, this`y, terminals
      ensures K.CursorsFit(old(model)) && Valid() && model == K.SetCursor(old(model), t, nx, ny)
    {
      hide PagesMatch;
      CursorsAreWords();
      if t == current { SetScreenXY(nx, ny); } else { SetTerminalScreenXY(t, nx, ny); }
    }

    method NewLine(t: nat, py: u16)
      requires Valid() && SeesVideo() && t < n && py < S.ROWS
      modifies this`model, this`x, this`y, vram, terminals
      ensures K.CursorsFit(old(model)) && Valid() && model == K.NewLine(old(model), t, py)
    {
      hide PagesMatch;
      if py < S.ROWS - 1 {
        SetCursor(t, 0, py + 1);
      } else {
        ScrollUp();
        SetCursor(t, 0, py);
      }
    }

    method StepBack(t: nat, px: u16, py: u16)
      requires Valid() && t < n && py < S.ROWS
      modifies this`model, this`x, this`y, terminals
      ensures K.CursorsFit(old(model)) && Valid() && model == K.StepBack(old(model), t, px, py)
    {
      hide PagesMatch;
      if px == 0 && py > 0 {
        SetCursor(t, S.COLS - 1, py - 1);
      } else {
        SetCursor(t, Wrap16(px - 1), py);
      }
    }

    method BlankCell(t: nat)
      requires Valid() && SeesVideo() && t < n
      requires var (cx, cy) := K.CursorOf(model, t); K.OnScreen(cx, cy)
      modifies this`model, vram
      ensures K.CursorsFit(old(model)) && Valid() && model == K.BlankCell(old(model), t)
    {
      hide PagesMatch;
      var col, row := x, y;
      if t != current { col, row := terminals[t].x, terminals[t].y; }
      StoreCell(2 * (S.COLS * row + col), SPACE);
    }

    method Erase(t: nat, px: u16, py: u16)
      requires Valid() && SeesVideo() && t < n && K.OnScreen(px, py) && K.CursorOf(model, t) == (px, py)
      requires !K.Underflows(model, t, BACKSPACE)
      modifies this`model, this`x, this`y, vram, terminals
      ensures K.CursorsFit(old(model)) && Valid() && model == K.Erase(old(model), t, px, py)
    {
      hide PagesMatch;
      ghost var v := model;
      StepBack(t, px, py);
      K.StepBackStaysOnScreen(v, t, px, py);
      BlankCell(t);
    }

    method StoreChar(t: nat, px: u16, py: u16, c: byte)
      requires Valid() && SeesVideo() && t < n && K.OnScreen(px, py)
      modifies this`model, vram
      ensures Valid() && model == K.StoreChar(old(model), t, px, py, c)
    {
      hide PagesMatch;
      var cell := 2 * (S.COLS * py + px);
      if t == current { StoreCell(cell, c); } else { StoreCell(K.BufferOf(t) + cell, c); }
    }

    method Advance(t: nat, px: u16, py: u16)
      requires Valid() && SeesVideo() && t < n && K.OnScreen(px, py)
      modifies this`model, this`x, this`y, vram, terminals
      ensures K.CursorsFit(old(model)) && Valid() && model == K.Advance(old(model), t, px, py)
    {
      var nx, ny := px + 1, py;
      ColumnsWrap(nx);
      hide K.SetCursor, K.ScrollVideo, PagesMatch;
      if nx / S.COLS > 0 {
        if ny == S.ROWS - 1 { ScrollUp(); } else { ny := (ny + nx / S.COLS) % S.ROWS; }
      }
      SetCursor(t, nx % S.COLS, ny);
    }

    method TerminalPutc(t: nat, c: byte)
      requires Valid() && SeesVideo() && t < n
      requires var (cx, cy) := K.CursorOf(model, t); K.OnScreen(cx, cy)
      requires !K.Underflows(model, t, c)
      modifies this`model, this`x, this`y, vram, terminals
      ensures K.CursorsFit(old(model)) && Valid() && model == K.PutcAt(old(model), t, c)
      decreases c == TAB
    {
      hide PagesMatch;
      if c == NUL { return; }
      var px, py := x, y;
      if t != current { px, py := terminals[t].x, terminals[t].y; }
      if c == NEWLINE {
        NewLine(t, py);
      } else if c == BACKSPACE {
        Erase(t, px, py);
      } else if c == TAB {
        TerminalPutc(t, SPACE);
      } else {
        StoreChar(t, px, py, c);
        Advance(t, px, py);
      }
    }

    method WriteText(t: nat, text: seq<byte>)
      requires Valid() && t == schedule && VideoProofs.Inv(model) && VideoProofs.WriteOk(model, text)
      modifies this`model, this`x, this`y, vram, terminals
      ensures Valid() && model == K.WriteAt(old(model), t, text)
    {
      ghost var v := model;
      for i := 0 to |text|
        invariant Valid() && model == K.WriteAt(v, t, text[..i])
      {
        PrefixSees(v, text, i);
        TerminalPutc(t, text[i]);
        K.WriteAtMore(v, t, text, i);
      }
      assert text[..|text|] == text;
    }

    /** The write call of the running process; a write runs with interrupts off. */
    method TerminalWrite(buf: Option<seq<byte>>, nbytes: int) returns (written: int)
      requires Valid() && VideoProofs.Inv(model)
      requires buf.Some? ==> nbytes <= |buf.value|
      requires buf.Some? && nbytes > 0 ==> VideoProofs.WriteOk(model, buf.value[..nbytes])
      modifies this`model, this`x, this`y, vram, terminals
      ensures Valid()
      ensures buf.None? || nbytes <= 0 ==> written == -1 && model == old(model)
      ensures buf.Some? && nbytes > 0 ==>
        written == nbytes && model == K.WriteAt(old(model), schedule, buf.value[..nbytes])
    {
      var term := FindOwner();
      if nbytes <= 0 || buf.None? || term == null { return -1; }
      WriteText(term.id, buf.value[..nbytes]);
      return nbytes;
    }

    // --------------------------------------------------- switching and the timer

    method CopyPhysical(dest: nat, src: nat)
      requires Valid() && dest <= K.PAGE * n && src <= K.PAGE * n && dest + S.SCREEN_BYTES <= vram.Length
      requires dest <= src || src + S.SCREEN_BYTES <= dest
      modifies this`model, vram
      ensures Valid()
      ensures model == old(model).(mem := Splice(old(model).mem, dest, K.Page(old(model).mem, src)))
    {
      hide PagesMatch;
      Memory.MemCopy(vram, dest, src, S.COLS * S.ROWS * 2);
      model := model.(mem := vram[..]);
    }

    /** Copies a screen between two pages of video memory, by their virtual addresses. */
    method CopyScreen(dest: nat, src: nat)
      requires Valid() && SeesVideo() && K.VideoPage(model) == 0
      requires dest % K.PAGE == 0 && src % K.PAGE == 0 && dest <= K.PAGE * n && src <= K.PAGE * n
      requires dest == 0 || src == 0
      modifies this`model, vram
      ensures Valid()
      ensures model == old(model).(mem := Splice(old(model).mem, dest, K.Page(old(model).mem, src)))
    {
      var to := Physical(dest);
      var from := Physical(src);
      CopyPhysical(to, from);
    }

    method ExchangeCursors(to: nat)
      requires Valid() && to < n
      requires K.OnScreen(x, y)
      modifies this`model, this`x, this`y, terminals
      ensures Valid() && model == K.ExchangeCursors(old(model), to)
    {
      hide PagesMatch;
      SetTerminalScreenXY(terminals[current].id, x, y);
      SetScreenXY(terminals[to].x, terminals[to].y);
    }

    method ExchangeScreens(to: nat, pid: nat)
      requires Valid() && to < n && pid < K.NUM_PROC && pid in model.place
      modifies this`model, vram, mmu, mmu.pgdir, mmu.pgtbl
      ensures Valid() && model == K.ExchangeScreens(old(model), to, pid)
    {
      MapVideo(pid, 0);
      CopyScreen(K.BufferOf(current), 0);
      CopyScreen(0, K.BufferOf(to));
      MapVideo(pid, K.BufferOf(current));
    }

    method RestoreTerminal(to: nat)
      requires Valid() && to < n && K.OnScreen(x, y)
      requires pcbs[runningPid].pid < K.NUM_PROC && pcbs[runningPid].pid in model.place
      modifies this`model, this`x, this`y, vram, terminals, mmu, mmu.pgdir, mmu.pgtbl
      ensures Valid() && model == K.Restore(old(model), to)
    {
      hide PagesMatch;
      ExchangeCursors(to);
      ExchangeScreens(to, pcbs[runningPid].pid);
    }

    method MarkReady(to: nat)
      requires Valid() && to < n
      modifies this`model, this`current, terminals
      ensures Valid() && model == K.MarkReady(old(model), to)
    {
      hide PagesMatch;
      current := to;
      terminals[to].status := TASK_RUNNING;
      model := K.MarkReady(model, to);
    }

    method SwitchTerminal(to: int)
      requires Valid() && K.OnScreen(x, y) && pcbs[runningPid].pid in model.place
      modifies this`model, this`current, this`x, this`y, vram, terminals, mmu, mmu.pgdir, mmu.pgtbl
      ensures Valid() && model == K.Switch(old(model), to)
    {
      if current == to || !(0 <= to < n) { return; }
      RestoreTerminal(to);
      MarkReady(to);
    }

    // ---------------------------------------------------------------- execute

    method ClaimPid(pid: nat, mask: bv8)
      requires Valid() && pid < K.NUM_PROC && mask == Mask(pid)
      modifies this`model, this`procs, this`runningPid
      ensures Valid() && model == old(model).(live := old(model).live + {pid}, runningPid := pid)
    {
      hide PagesMatch;
      SetBit(procs, pid);
      procs := procs | mask;
      runningPid := pid;
      model := model.(live := model.live + {pid}, runningPid := pid);
    }

    method TakePid() returns (pid: Option<nat>)
      requires Valid()
      modifies this`model, this`procs, this`runningPid
      ensures Valid() && pid == K.FirstFree(old(model).live, 0)
      ensures model == match pid
        case None => old(model)
        case Some(p) => old(model).(live := old(model).live + {p}, runningPid := p)
    {
      hide PagesMatch;
      var mask;
      pid, mask := FindFree(procs);
      if pid.Some? { ClaimPid(pid.value, mask); }
    }

    method NewTerminal(pid: nat) returns (t: Terminal?)
      requires Valid()
      modifies this`model, terminals
      ensures Valid()
      ensures var i := K.FirstIdle(old(model).terms, 0);
        && (i == n ==> t == null && model == old(model))
        && (i < n ==> t == terminals[i] && model == old(model).(
              terms := old(model).terms[i := old(model).terms[i].(pid := pid, running := true)]))
    {
      hide PagesMatch;
      for i := 0 to n
        invariant Valid() && model == old(model)
        invariant K.FirstIdle(model.terms, 0) == K.FirstIdle(model.terms, i)
      {
        if terminals[i].running { continue; }
        terminals[i].pid := pid;
        terminals[i].running := true;
        model := model.(terms := model.terms[i := model.terms[i].(pid := pid, running := true)]);
        return terminals[i];
      }
      return null;
    }

    method FindTerminal() returns (term: Terminal)
      requires Valid()
      modifies this`model, terminals
      ensures Valid()
      ensures var (terms, t) := K.ForNewProcess(old(model));
        term == terminals[t] && model == old(model).(terms := terms)
    {
      hide PagesMatch;
      term := terminals[current];
      if !term.running {
        var t := NewTerminal(runningPid);
        term := t;
      }
    }

    method FillPcb(parentPid: int, parent: Pcb?)
      requires Valid() && (parent != null ==> parent.slot < K.NUM_PROC && parent == pcbs[parent.slot])
      modifies this`model, pcbs
      ensures Valid()
      ensures model == old(model).(pcbs := old(model).pcbs[runningPid :=
        K.Pcb(runningPid, parentPid, if parent == null then None else Some(parent.slot), None)])
    {
      hide PagesMatch;
      assert Points(parent, if parent == null then None else Some(parent.slot)) && Points(null, None);
      hide Points;
      var pcb := pcbs[runningPid];
      pcb.pid := runningPid;
      pcb.childPcb := null;
      pcb.parentPid := parentPid;
      pcb.parentPcb := parent;
      model := model.(pcbs := model.pcbs[runningPid :=
        K.Pcb(runningPid, parentPid, if parent == null then None else Some(parent.slot), None)]);
    }

    method SetChild(parent: Pcb)
      requires Valid() && parent.slot < K.NUM_PROC && parent == pcbs[parent.slot]
      modifies this`model, pcbs
      ensures Valid()
      ensures model == old(model).(pcbs := old(model).pcbs[parent.slot :=
        old(model).pcbs[parent.slot].(child := Some(runningPid))])
    {
      hide PagesMatch;
      parent.childPcb := pcbs[runningPid];
      model := model.(pcbs := model.pcbs[parent.slot := model.pcbs[parent.slot].(child := Some(runningPid))]);
    }

    /** Bookkeeping of the auxiliary variables only. */
    ghost method Record(chains: seq<seq<nat>>, place: map<nat, (nat, nat)>)
      requires Valid() && |chains| == n
      requires forall p :: p in place ==> p < K.NUM_PROC && Ready(mmu.tables, p, n)
      modifies this`model
      ensures Valid() && model == old(model).(chains := chains, place := place)
    {
      model := model.(chains := chains, place := place);
    }

    method AttachRoot(term: Terminal)
      requires Valid() && term.id < n && Ready(mmu.tables, runningPid, n)
      modifies this`model, pcbs
      ensures Valid() && model == K.AttachRoot(old(model), term.id)
    {
      ghost var k := K.AttachRoot(model, term.id);
      FillPcb(-1, null);
      Record(k.chains, k.place);
    }

    method AttachChild(parent: Pcb)
      requires Valid() && parent.slot < K.NUM_PROC && parent == pcbs[parent.slot]
      requires Ready(mmu.tables, runningPid, n)
      modifies this`model, pcbs
      ensures Valid() && model == K.AttachChild(old(model), parent.slot)
    {
      ghost var k := K.AttachChild(model, parent.slot);
      FillPcb(if parent == pcbs[runningPid] then runningPid else parent.pid, parent);
      SetChild(parent);
      Record(k.chains, k.place);
    }

    /** Fills in the new process's block and links it below its parent. */
    method Attach(parent: Pcb)
      requires Valid() && parent.slot < K.NUM_PROC && parent == pcbs[parent.slot]
      requires Ready(mmu.tables, runningPid, n)
      modifies this`model, terminals, pcbs
      ensures Valid() && model == K.Attach(old(model), parent.slot)
    {
      var term := FindTerminal();
      if runningPid == term.pid { AttachRoot(term); } else { AttachChild(parent); }
    }

    /** Starts a program; on true control passes to the new process. */
    method Execute(load: K.Load) returns (started: bool)
      requires Valid()
      modifies this`model, this`procs, this`runningPid, terminals, pcbs, mmu, mmu.pgdir, mmu.pgtbl
      ensures Valid() && model == K.Execute(old(model), load)
      ensures started <==> load.Loads? && K.FirstFree(old(model).live, 0).Some?
    {
      var parent := pcbs[runningPid];
      if load.Refused? { return false; }
      var pid := TakePid();
      if pid.None? || load.BadEntry? { return false; }
      MakePages(pid.value);
      if load.BadImage? { return false; }
      Attach(parent);
      return true;
    }

    // ------------------------------------------------------------- halt and tick

    method ClearChild()
      requires Valid()
      modifies this`model, pcbs
      ensures Valid() && model == K.ClearChild(old(model))
    {
      hide PagesMatch;
      var parent := pcbs[runningPid].parentPcb;
      if parent == null { return; }
      parent.childPcb := null;
      ghost var q := parent.slot;
      model := model.(pcbs := model.pcbs[q := model.pcbs[q].(child := None)]);
    }

    method ReleasePid()
      requires Valid()
      modifies this`model, this`procs
      ensures Valid() && model == K.ReleasePid(old(model))
    {
      var pid := pcbs[runningPid].pid;
      assert pid == model.pcbs[runningPid].pid;
      ReleaseBit(procs, pid);
      procs := procs & !(FIRST_PID >> pid);
      model := K.ReleasePid(model);
    }

    method StopRoot()
      requires Valid()
      modifies this`model, terminals
      ensures Valid() && model == K.StopRoot(old(model))
    {
      hide PagesMatch;
      terminals[current].running := false;
      model := K.StopRoot(model);
    }

    method SetRunning(pid: nat)
      requires Valid() && pid < K.NUM_PROC
      modifies this`model, this`runningPid
      ensures Valid() && model == old(model).(runningPid := pid)
    {
      hide PagesMatch;
      runningPid := pid;
      model := model.(runningPid := pid);
    }

    method SetVidmap(t: nat, vidmap: bool)
      requires Valid() && t < n
      modifies this`model, terminals
      ensures Valid()
      ensures model == old(model).(terms := old(model).terms[t := old(model).terms[t].(vidmap := vidmap)])
    {
      hide PagesMatch;
      terminals[t].vidmap := vidmap;
      model := model.(terms := model.terms[t := model.terms[t].(vidmap := vidmap)]);
    }

    method ReturnToParent(term: Terminal, parentPid: nat)
      requires Valid() && parentPid < K.NUM_PROC && term.id == schedule && term == terminals[schedule]
      modifies this`model, this`runningPid, terminals, mmu, mmu.pgdir
      ensures Valid() && model == K.ReturnToParent(old(model), parentPid)
    {
      var pid := pcbs[runningPid].pid;
      ghost var k := K.ReturnToParent(model, parentPid);
      assert pid == model.pcbs[runningPid].pid && pcbs[parentPid].pid == model.pcbs[parentPid].pid;
      SetRunning(parentPid);
      RemovePages(pid);
      FlushTlb(pcbs[runningPid].pid);
      SetVidmap(term.id, false);
      Record(k.chains, k.place);
    }

    /** The running process ends; the terminal is looked up while its pid is still taken. */
    method Halt()
      requires Valid() && K.ProcInv(model)
      modifies this`model, this`procs, this`runningPid, terminals, pcbs, mmu, mmu.pgdir, mmu.pgtbl
      ensures K.IsRoot(old(model)) || 0 <= old(model).pcbs[old(model).runningPid].parentPid < K.NUM_PROC
      ensures Valid() && model == K.Halt(old(model))
    {
      ProcessProofs.RunningIsLeaf(model);
      ProcessProofs.RunningClimbs(model);
      ProcessProofs.ClearedStillClimbs(model);
      hide K.ClearChild, K.ReleasePid, K.StopRoot, K.ReturnToParent, K.Execute, K.ProcInv, K.Climbs, PagesMatch;
      var parentPid := pcbs[runningPid].parentPid;
      ClearChild();
      var term := GetRunningTerminal();
      ReleasePid();
      if parentPid == -1 {
        StopRoot();
        var _ := Execute(K.Loads);
      } else {
        ReturnToParent(term, parentPid);
      }
    }

    /** Round robin from the counter.  Terminal 0 is always ready, so the search ends. */
    method NextReady()
      requires Valid() && model.terms[0].ready
      modifies this`model, this`counter
      ensures Valid() && model == old(model).(counter := K.NextReady(old(model).terms, old(model).counter, 1))
    {
      hide PagesMatch;
      ghost var d := 1;
      StepsAround(counter, n);
      var next := (counter + 1) % n;
      while terminals[next].status != TASK_RUNNING
        invariant Valid() && model == old(model) && 1 <= d <= n && next == K.Around(counter, d, n)
        invariant K.NextReady(model.terms, counter, 1) == K.NextReady(model.terms, counter, d)
        invariant forall e :: 1 <= e < d ==> !model.terms[K.Around(counter, e, n)].ready
        decreases n - d
      {
        assert K.Around(counter, if counter == 0 then n else n - counter, n) == 0;
        StepsAround(next, n);
        next := (next + 1) % n;
        d := d + 1;
      }
      SetCounter(next);
    }

    method SetCounter(next: nat)
      requires Valid() && next < n
      modifies this`model, this`counter
      ensures Valid() && model == old(model).(counter := next)
    {
      hide PagesMatch;
      counter := next;
      model := model.(counter := next);
    }

    method SetSchedule(next: nat)
      requires Valid() && next < n
      modifies this`model, this`schedule
      ensures Valid() && model == old(model).(schedule := next)
    {
      hide PagesMatch;
      schedule := next;
      model := model.(schedule := next);
    }

    /** p is the i-th process of chain t, and its child pointer leads to the next one. */
    ghost predicate OnChain(t: nat, i: nat, p: Pcb)
      requires t < |model.chains|
      reads this`model, pcbs
    {
      var c := model.chains[t];
      && i < |c| && c[i] < |pcbs| && p == pcbs[c[i]] && p.pid == c[i] && p in pcbs
      && (p.childPcb == null <==> i + 1 == |c|)
      && (i + 1 < |c| ==> c[i + 1] < |pcbs| && p.childPcb == pcbs[c[i + 1]])
    }

    lemma {:induction false} IsOnChain(t: nat, i: nat)
      requires TablesOk() && K.Shape(model) && K.ChainsOk(model) && t < n && i < |model.chains[t]|
      ensures model.chains[t][i] < |pcbs| && OnChain(t, i, pcbs[model.chains[t][i]])
    {
      assert K.Sits(model.pcbs, model.chains, model.place, t, i);
    }

    /** Down the chain from a terminal's root process to the one that runs. */
    method Descend(t: nat) returns (p: Pcb)
      requires TablesOk() && K.Shape(model) && t < n && K.ChainsOk(model) && model.chains[t] != []
      requires terminals[t].pid == model.chains[t][0]
      ensures p == pcbs[K.Leaf(model, t)] && p.pid == K.Leaf(model, t)
    {
      ghost var c := model.chains[t];
      ghost var i := 0;
      IsOnChain(t, 0);
      ProcessProofs.LeafIsLive(model, t);
      assert K.Leaf(model, t) == c[|c| - 1];
      hide K.ChainsOk, K.Leaf, PcbsOk, TerminalsOk;
      p := pcbs[terminals[t].pid];
      while p.childPcb != null
        invariant i < |c| && OnChain(t, i, p)
        decreases |c| - i
      {
        p := p.childPcb;
        i := i + 1;
        IsOnChain(t, i);
      }
    }

    method Remap(t: nat, pid: nat)
      requires Valid() && t < n && pid < K.NUM_PROC
      modifies this`model, mmu, mmu.pgdir, mmu.pgtbl
      ensures Valid() && model == K.Remap(old(model), t, pid)
    {
      hide PagesMatch;
      var page := if t == current then 0 else K.BufferOf(t);
      if terminals[t].vidmap { MapUser(pid, page); }
      MapVideo(pid, page);
    }

    method Resume(t: nat)
      requires Valid() && t < n && K.ChainsOk(model) && model.chains[t] != []
      requires terminals[t].pid == model.chains[t][0]
      modifies this`model, this`runningPid, mmu, mmu.pgdir, mmu.pgtbl
      ensures Valid()
      ensures var p := K.Leaf(old(model), t); model == K.Remap(old(model).(runningPid := p), t, p)
    {
      hide PagesMatch;
      var next := Descend(t);
      SetRunning(next.pid);
      Remap(t, runningPid);
    }

    method Dispatch()
      requires Valid() && model.terms[0].ready && K.ChainsOk(model)
      requires forall t :: 0 <= t < n && model.terms[t].running ==>
        model.chains[t] != [] && model.terms[t].pid == model.chains[t][0]
      modifies this, terminals, pcbs, mmu, mmu.pgdir, mmu.pgtbl
      ensures Valid() && model == K.Dispatch(old(model))
    {
      hide PagesMatch;
      NextReady();
      if counter == schedule { return; }
      SetSchedule(counter);
      if terminals[schedule].running {
        Resume(schedule);
      } else {
        var _ := Execute(K.Loads);
      }
    }

    method SwitchIfAsked(to: int)
      requires Valid() && VideoProofs.Inv(model)
      modifies this`model, this`current, this`x, this`y, vram, terminals, mmu, mmu.pgdir, mmu.pgtbl
      ensures Valid() && model == K.Switch(old(model), to)
    {
      hide PagesMatch;
      ProcessProofs.RunningIsLeaf(model);
      if to != -1 { SwitchTerminal(to); }
    }

    /** The timer interrupt; to is the terminal asked for on the keyboard, or -1. */
    method IrqhPit(to: int)
      requires Valid() && VideoProofs.Inv(model)
      modifies this, vram, terminals, pcbs, mmu, mmu.pgdir, mmu.pgtbl
      ensures Valid() && model == K.Tick(old(model), to)
    {
      ProcessProofs.MayDispatch(model, to);
      SwitchIfAsked(to);
      Dispatch();
    }

    /** start is what is stored behind the caller's pointer, if it is one of user space. */
    method Vidmap(screenStart: u32) returns (r: int, start: Option<nat>)
      requires Valid() && K.ProcInv(model)
      modifies this`model, terminals, mmu, mmu.pgdir, mmu.pgtbl
      ensures Valid()
      ensures screenStart < 2 * P.MB4 ==> r == -1 && start == None && model == old(model)
      ensures screenStart >= 2 * P.MB4 ==>
        r == 0 && start == Some(P.MB4 * USER_SLOT) && model == K.Vidmap(old(model))
    {
      hide PagesMatch;
      if screenStart < 2 * P.MB4 { return -1, None; }
      var term := FindOwner();
      var page := if term.id == current then 0 else K.BufferOf(term.id);
      SetVidmap(term.id, true);
      assert pcbs[runningPid].pid == model.pcbs[runningPid].pid;
      MapUser(pcbs[runningPid].pid, page);
      return 0, Some(P.MB4 * USER_SLOT);
    }

    // ------------------------------------------------------------------- start

    method ClearBuffer(t: nat)
      requires Valid() && t < n
      modifies this`model, vram
      ensures Valid()
      ensures model == old(model).(mem := Splice(old(model).mem, K.BufferOf(t), Runs.BlankPage()))
    {
      hide PagesMatch;
      ghost var was := vram[..];
      var at := K.BufferOf(t);
      var j := 0;
      while j < S.ROWS * S.COLS * 2
        invariant 0 <= j <= S.SCREEN_BYTES && j % 2 == 0
        invariant forall i :: 0 <= i < vram.Length ==>
          vram[i] == if at <= i < at + j then Runs.BlankPage()[i - at] else was[i]
        modifies vram
        decreases S.SCREEN_BYTES - j
      {
        vram[at + j] := SPACE;
        vram[at + j + 1] := S.ATTRIB;
        j := j + 2;
      }
      assert vram[..] == Splice(was, at, Runs.BlankPage());
      model := model.(mem := vram[..]);
    }

    method OpenFirst()
      requires Valid()
      modifies this`model, terminals
      ensures Valid()
      ensures model == old(model).(terms := old(model).terms[0 := K.Terminal(0, true, true, false, x, y)])
    {
      hide PagesMatch;
      var t := terminals[0];
      t.pid, t.running, t.status, t.vidmap, t.x, t.y := 0, true, TASK_RUNNING, false, x, y;
      model := model.(terms := model.terms[0 := K.Terminal(0, true, true, false, x, y)]);
    }

    /** The terminals' other fields are still zero from the static storage. */
    method InitTerminals()
      requires Valid() && Runs.Zeroed(model)
      modifies this, vram, terminals, pcbs, mmu, mmu.pgdir, mmu.pgtbl
      ensures Valid() && model == Runs.Boot(old(model))
    {
      ghost var k := model;
      for i := 1 to n
        invariant Valid() && |model.mem| == |k.mem| && model == k.(mem := model.mem)
        invariant Runs.ClearBuffers(model.mem, n, i) == Runs.ClearBuffers(k.mem, n, 1)
      {
        ClearBuffer(i);
      }
      OpenFirst();
      assert model == Runs.FirstTerminal(k);
      var _ := Execute(K.Loads);
    }
  }
}
