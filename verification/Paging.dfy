/** Page directories and page tables of the processes, and the hardware's walk over them
    (Intel SDM Volume 3A, section 4.3, 32-bit paging with 4 MB pages). */
module Paging {
  import opened Arithmetic
  import opened Bytes

  const NUM_PROC: nat := 8
  const ENTRIES: nat := 1024
  const KB4: nat := 0x1000
  const MB4: nat := 0x40_0000
  const ELF_LOAD_PG: nat := 0x20
  const PG_PRESENT: nat := 1
  const PG_RW: nat := 2
  const PG_USPACE: nat := 4
  const PG_SIZE: nat := 0x80

  /** One directory and one table for each process.  The tables themselves lie in the
      kernel, one page each, from base on. */
  datatype Tables = Tables(dirs: seq<seq<u32>>, tbls: seq<seq<u32>>, base: nat) {
    predicate Valid() {
      && |dirs| == |tbls| == NUM_PROC
      && (forall p :: 0 <= p < NUM_PROC ==> |dirs[p]| == ENTRIES)
      && (forall p :: 0 <= p < NUM_PROC ==> |tbls[p]| == ENTRIES)
      && base % KB4 == 0 && MB4 <= base && base + NUM_PROC * KB4 <= 2 * MB4
    }
  }

  function Put(row: seq<u32>, i: nat, entry: u32): (r: seq<u32>)
    requires i < |row|
    ensures |r| == |row|
  {
    row[i := entry]
  }

  predicate Present(entry: u32) { entry % 2 == 1 }

  predicate IsBig(entry: u32) { (entry / PG_SIZE) % 2 == 1 }

  function Slot(va: u32): nat { va / MB4 }

  function Index(va: u32): nat { va % MB4 / KB4 }

  /** The table a directory entry leads to, if it leads to one of the processes' tables. */
  function TableOf(t: Tables, pde: u32): (q: Option<nat>)
    ensures q.Some? ==> q.value < NUM_PROC
  {
    var frame := pde / KB4 * KB4;
    if !Present(pde) || IsBig(pde) || frame < t.base || (frame - t.base) / KB4 >= NUM_PROC then None
    else Some((frame - t.base) / KB4)
  }

  /** The physical address behind va when process p's directory is loaded. */
  function Walk(t: Tables, p: nat, va: u32): Option<nat>
    requires t.Valid() && p < NUM_PROC
  {
    var pde := t.dirs[p][Slot(va)];
    if Present(pde) && IsBig(pde) then Some(pde / MB4 * MB4 + va % MB4)
    else
      match TableOf(t, pde)
      case None => None
      case Some(q) =>
        var pte := t.tbls[q][Index(va)];
        if Present(pte) then Some(pte / KB4 * KB4 + va % KB4) else None
  }

  predicate User(entry: u32) { (entry / PG_USPACE) % 2 == 1 }

  predicate Writable(entry: u32) { (entry / PG_RW) % 2 == 1 }

  predicate Open(entry: u32) { User(entry) && Writable(entry) }

  /** User code may read and write at va: the walk leads somewhere, and every entry on its
      way says so (section 4.6 of the same manual). */
  predicate UserMay(t: Tables, p: nat, va: u32)
    requires t.Valid() && p < NUM_PROC
  {
    var pde := t.dirs[p][Slot(va)];
    && Walk(t, p, va).Some? && Open(pde)
    && (!IsBig(pde) ==> TableOf(t, pde).Some? && Open(t.tbls[TableOf(t, pde).value][Index(va)]))
  }

  /** The entry pointing at process p's table: user, writable, present. */
  function TablePde(t: Tables, p: nat): u32
    requires t.Valid() && p < NUM_PROC
  {
    t.base + p * KB4 + PG_USPACE + PG_RW + PG_PRESENT
  }

  lemma {:induction false} TablePdeLeadsToTable(t: Tables, p: nat)
    requires t.Valid() && p < NUM_PROC
    ensures TableOf(t, TablePde(t, p)) == Some(p) && !IsBig(TablePde(t, p)) && Open(TablePde(t, p))
  {
    assert TablePde(t, p) == 8 * (KB4 / 8 * (t.base / KB4 + p)) + 7;
    LowBits(KB4 / 8 * (t.base / KB4 + p));
  }

  /** Three flags set at the bottom of an entry. */
  lemma {:induction false} LowBits(m: nat)
    requires 8 * m + 7 < 0x1_0000_0000
    ensures Open(8 * m + 7) && Present(8 * m + 7)
  {
    QuotientIs(8 * m + 7, 4, 2 * m + 1, 3);
    QuotientIs(2 * m + 1, 2, m, 1);
    QuotientIs(8 * m + 7, 2, 4 * m + 3, 1);
    QuotientIs(4 * m + 3, 2, 2 * m + 1, 1);
  }

  // ------------------------------------------------------------ map_vid_mem

  /** pa joined with the user, writable and present bits. */
  function PagePte(pa: u32): u32 {
    pa - pa % 8 + PG_USPACE + PG_RW + PG_PRESENT
  }

  function MapPage(t: Tables, p: nat, va: u32, pa: u32): (r: Tables)
    requires t.Valid() && p < NUM_PROC
    ensures r.Valid() && r.base == t.base
  {
    t.(dirs := t.dirs[p := Put(t.dirs[p], Slot(va), TablePde(t, p))],
       tbls := t.tbls[p := Put(t.tbls[p], Index(va), PagePte(pa))])
  }

  lemma {:induction false} PageAddress(va: u32)
    requires va % KB4 == 0
    ensures va == Slot(va) * MB4 + Index(va) * KB4 && Index(va) < ENTRIES
  {
    var inSlot := va % MB4;
    assert va == Slot(va) * MB4 + inSlot;
    assert inSlot % KB4 == 0;
  }

  lemma {:induction false} AddressOf(slot: nat, index: nat, offset: nat)
    requires index < ENTRIES && offset < KB4 && slot * MB4 < 0x1_0000_0000
    ensures slot * MB4 + index * KB4 + offset < 0x1_0000_0000
    ensures var a := slot * MB4 + index * KB4 + offset; Slot(a) == slot && Index(a) == index && a % KB4 == offset
  {
    var a := slot * MB4 + index * KB4 + offset;
    QuotientIs(a, MB4, slot, index * KB4 + offset);
    QuotientIs(index * KB4 + offset, KB4, index, offset);
    QuotientIs(a, KB4, slot * ENTRIES + index, offset);
  }

  lemma {:induction false} OffsetsShareEntries(va: u32, offset: nat)
    requires va % KB4 == 0 && offset < KB4
    ensures va + offset < 0x1_0000_0000
    ensures Slot(va + offset) == Slot(va) && Index(va + offset) == Index(va)
    ensures (va + offset) % KB4 == offset
  {
    PageAddress(va);
    hide Slot, Index;
    AddressOf(Slot(va), Index(va), offset);
  }

  lemma {:induction false} EntryDecodes(q: nat, b: nat)
    requires b < KB4 / 8
    ensures (KB4 * q + 8 * b + 7) / KB4 == q && (KB4 * q + 8 * b + 7) % 2 == 1
  {
    QuotientIs(KB4 * q + 8 * b + 7, KB4, q, 8 * b + 7);
  }

  /** The entry names the frame of pa; of an unaligned pa the low bits are flags. */
  lemma {:induction false} PteDecodes(pa: u32)
    ensures Present(PagePte(pa)) && Open(PagePte(pa)) && PagePte(pa) / KB4 * KB4 == pa - pa % KB4
  {
    var q, low := pa / KB4, pa % KB4;
    var b, c := low / 8, low % 8;
    assert pa == KB4 * q + low && low == 8 * b + c && b < KB4 / 8;
    QuotientIs(pa, 8, KB4 / 8 * q + b, c);
    assert PagePte(pa) == KB4 * q + 8 * b + 7;
    EntryDecodes(q, b);
    LowBits(KB4 / 8 * q + b);
  }

  /** Every offset of the mapped page leads to the same offset of the physical page, also
      when the physical address given is not that of its start, and user code may write it. */
  lemma {:induction false} MappedPageTranslates(t: Tables, p: nat, va: u32, pa: u32, offset: nat)
    requires t.Valid() && p < NUM_PROC && va % KB4 == 0 && offset < KB4
    ensures va + offset < 0x1_0000_0000
    ensures Walk(MapPage(t, p, va, pa), p, va + offset) == Some(pa - pa % KB4 + offset)
    ensures UserMay(MapPage(t, p, va, pa), p, va + offset)
  {
    TablePdeLeadsToTable(t, p);
    OffsetsShareEntries(va, offset);
    PteDecodes(pa);
  }

  /** The page (of any process) does not go through the table entry being written. */
  predicate Apart(t: Tables, p: nat, va: u32, q: nat, other: u32)
    requires t.Valid() && p < NUM_PROC && q < NUM_PROC
  {
    !(TableOf(t, t.dirs[q][Slot(other)]) == Some(p) && Index(other) == Index(va))
  }

  /** Any page apart from that entry keeps its translation, if its directory entry is
      another one or already led to this table. */
  lemma {:induction false} OtherPagesKeepTranslation(t: Tables, p: nat, va: u32, pa: u32, q: nat, other: u32)
    requires t.Valid() && p < NUM_PROC && q < NUM_PROC
    requires Apart(t, p, va, q, other)
    requires (q == p && Slot(other) == Slot(va)) ==> t.dirs[p][Slot(va)] == TablePde(t, p)
    ensures Walk(MapPage(t, p, va, pa), q, other) == Walk(t, q, other)
    ensures UserMay(MapPage(t, p, va, pa), q, other) == UserMay(t, q, other)
  {
    TablePdeLeadsToTable(t, p);
  }

  // -------------------------------------------------------- make_task_pgdir

  function IdentityPte(i: nat): u32
    requires i < ENTRIES
  {
    if i == 0 then PG_USPACE + PG_RW else i * KB4 + PG_USPACE + PG_RW + PG_PRESENT
  }

  /** The kernel's frame is open to user code as well. */
  function KernelPde(): u32 { MB4 + PG_USPACE + PG_RW + PG_SIZE + PG_PRESENT }

  function ProgramPde(p: nat): u32
    requires p < NUM_PROC
  {
    (p + 2) * MB4 + PG_SIZE + PG_USPACE + PG_RW + PG_PRESENT
  }

  function MakeTask(t: Tables, p: nat): (r: Tables)
    requires t.Valid() && p < NUM_PROC
    ensures r.Valid() && r.base == t.base
  {
    t.(tbls := t.tbls[p := seq(ENTRIES, i requires 0 <= i < ENTRIES => IdentityPte(i))],
       dirs := t.dirs[p := Put(Put(Put(t.dirs[p], 0, TablePde(t, p)), 1, KernelPde()), ELF_LOAD_PG, ProgramPde(p))])
  }

  lemma {:induction false} IdentityDecodes(i: nat)
    requires i < ENTRIES
    ensures Present(IdentityPte(i)) <==> i > 0
    ensures i > 0 ==> IdentityPte(i) / KB4 == i && Open(IdentityPte(i))
  {
    if i > 0 {
      assert IdentityPte(i) == KB4 * i + 8 * 0 + 7;
      EntryDecodes(i, 0);
      LowBits(KB4 / 8 * i);
    }
  }

  lemma {:induction false} LowAddress(va: u32)
    requires va < MB4
    ensures Slot(va) == 0 && Index(va) == va / KB4 < ENTRIES && va == Index(va) * KB4 + va % KB4
    ensures va < KB4 <==> Index(va) == 0
  {
  }

  lemma {:induction false} LowMemoryTranslates(t: Tables, p: nat, va: u32)
    requires t.Valid() && p < NUM_PROC && va < MB4
    ensures Walk(MakeTask(t, p), p, va) == if va < KB4 then None else Some(va)
    ensures va >= KB4 ==> UserMay(MakeTask(t, p), p, va)
  {
    TablePdeLeadsToTable(t, p);
    LowAddress(va);
    IdentityDecodes(Index(va));
    hide Slot, Index, IdentityPte, TablePde, TableOf;
  }

  lemma {:induction false} BigPageTranslates(t: Tables, p: nat, va: u32)
    requires t.Valid() && p < NUM_PROC && (Slot(va) == 1 || Slot(va) == ELF_LOAD_PG)
    ensures Walk(MakeTask(t, p), p, va)
      == Some((if Slot(va) == 1 then MB4 else (p + 2) * MB4) + va % MB4)
    ensures UserMay(MakeTask(t, p), p, va)
  {
    BigEntries(p);
    hide ProgramPde, KernelPde, IsBig, Open, Present;
  }

  lemma {:induction false} BigEntries(p: nat)
    requires p < NUM_PROC
    ensures ProgramPde(p) / MB4 == p + 2 && Present(ProgramPde(p)) && IsBig(ProgramPde(p)) && Open(ProgramPde(p))
    ensures KernelPde() / MB4 == 1 && Present(KernelPde()) && IsBig(KernelPde()) && Open(KernelPde())
  {
  }

  /** A new task sees low memory and the kernel where they are, page 0 not at all, and its
      program page in a 4 MB frame of its own; user code may write all of it. */
  lemma {:induction false} NewTaskTranslates(t: Tables, p: nat, va: u32)
    requires t.Valid() && p < NUM_PROC
    ensures var w := Walk(MakeTask(t, p), p, va);
      && (va < KB4 ==> w == None)
      && (KB4 <= va < 2 * MB4 ==> w == Some(va))
      && (Slot(va) == ELF_LOAD_PG ==> w == Some((p + 2) * MB4 + va % MB4))
      && (KB4 <= va < 2 * MB4 || Slot(va) == ELF_LOAD_PG ==> UserMay(MakeTask(t, p), p, va))
  {
    if va < MB4 {
      LowMemoryTranslates(t, p, va);
    } else if Slot(va) == 1 || Slot(va) == ELF_LOAD_PG {
      BigPageTranslates(t, p, va);
    }
  }

  function RemoveTask(t: Tables, p: nat): (r: Tables)
    requires t.Valid() && p < NUM_PROC
    ensures r.Valid() && r.base == t.base
  {
    var pde := t.dirs[p][ELF_LOAD_PG];
    t.(dirs := t.dirs[p := Put(t.dirs[p], ELF_LOAD_PG, pde - pde % 2)])
  }

  // ------------------------------------------------------- any run of the calls

  datatype Call = Make(p: nat) | Map(p: nat, va: u32, pa: u32) | Remove(p: nat)

  /** map_vid_mem is called for the VIDEO page and the page at 160 MB only; what matters is
      that it is not called for the program page. */
  predicate Sparing(c: Call) {
    c.p < NUM_PROC && (c.Map? ==> Slot(c.va) != ELF_LOAD_PG)
  }

  predicate AllSparing(calls: seq<Call>) {
    forall k :: 0 <= k < |calls| ==> Sparing(calls[k])
  }

  function Do(t: Tables, c: Call): (r: Tables)
    requires t.Valid() && Sparing(c)
    ensures r.Valid()
  {
    match c
    case Make(p) => MakeTask(t, p)
    case Map(p, va, pa) => MapPage(t, p, va, pa)
    case Remove(p) => RemoveTask(t, p)
  }

  function DoAll(t: Tables, calls: seq<Call>): (r: Tables)
    requires t.Valid() && AllSparing(calls)
    ensures r.Valid()
    decreases |calls|
  {
    if calls == [] then t else assert Sparing(calls[0]); DoAll(Do(t, calls[0]), calls[1..])
  }

  /** Whether task p has its program page after the calls. */
  predicate Has(calls: seq<Call>, p: nat, had: bool)
    decreases |calls|
  {
    if calls == [] then had else Has(calls[1..], p, HasAfter(calls[0], p, had))
  }

  predicate HasAfter(c: Call, p: nat, had: bool) {
    match c
    case Make(q) => had || q == p
    case Map(_, _, _) => had
    case Remove(q) => had && q != p
  }

  /** Task p's program entry is its own frame's, or not present. */
  predicate Framed(t: Tables, p: nat, has: bool)
    requires t.Valid() && p < NUM_PROC
  {
    if has then t.dirs[p][ELF_LOAD_PG] == ProgramPde(p) else !Present(t.dirs[p][ELF_LOAD_PG])
  }

  lemma {:induction false} CallKeepsFrame(t: Tables, c: Call, p: nat, had: bool)
    requires t.Valid() && p < NUM_PROC && Sparing(c) && Framed(t, p, had)
    ensures Framed(Do(t, c), p, HasAfter(c, p, had))
  {
  }

  lemma {:induction false} CallsKeepFrame(t: Tables, calls: seq<Call>, p: nat, had: bool)
    requires t.Valid() && p < NUM_PROC && AllSparing(calls) && Framed(t, p, had)
    ensures Framed(DoAll(t, calls), p, Has(calls, p, had))
    decreases |calls|
  {
    if calls != [] {
      assert Sparing(calls[0]);
      CallKeepsFrame(t, calls[0], p, had);
      CallsKeepFrame(Do(t, calls[0]), calls[1..], p, HasAfter(calls[0], p, had));
    }
  }

  lemma {:induction false} FramedTranslates(t: Tables, p: nat, has: bool, va: u32)
    requires t.Valid() && p < NUM_PROC && Framed(t, p, has) && Slot(va) == ELF_LOAD_PG
    ensures Walk(t, p, va) == if has then Some((p + 2) * MB4 + va % MB4) else None
    ensures UserMay(t, p, va) == has
  {
    BigEntries(p);
    hide ProgramPde, KernelPde, IsBig, Open, Present;
  }

  /** After any run of task creations, removals and video mappings from tables without
      programs, a task's program page is its own 4 MB frame, exactly if it was created and
      not removed since: the programs of two tasks never share a byte, and none touches the
      kernel's frame or low memory. */
  lemma {:induction false} ProgramsAreDisjoint(t: Tables, calls: seq<Call>, p: nat, q: nat, va: u32, wa: u32)
    requires t.Valid() && AllSparing(calls) && p < NUM_PROC && q < NUM_PROC
    requires !Present(t.dirs[p][ELF_LOAD_PG]) && !Present(t.dirs[q][ELF_LOAD_PG])
    requires Slot(va) == Slot(wa) == ELF_LOAD_PG
    ensures var a, b := Walk(DoAll(t, calls), p, va), Walk(DoAll(t, calls), q, wa);
      && a == (if Has(calls, p, false) then Some((p + 2) * MB4 + va % MB4) else None)
      && (a.Some? ==> a.value >= 2 * MB4) && (UserMay(DoAll(t, calls), p, va) <==> a.Some?)
      && (a.Some? && b.Some? && p != q ==> a.value != b.value)
  {
    CallsKeepFrame(t, calls, p, false);
    CallsKeepFrame(t, calls, q, false);
    FramedTranslates(DoAll(t, calls), p, Has(calls, p, false), va);
    FramedTranslates(DoAll(t, calls), q, Has(calls, q, false), wa);
  }

  /** The kernel's frame and the task's table are entered, and all of that table but page 0
      is present and open. */
  predicate Entered(t: Tables, p: nat)
    requires t.Valid() && p < NUM_PROC
  {
    && t.dirs[p][0] == TablePde(t, p) && t.dirs[p][1] == KernelPde()
    && forall i :: 0 < i < ENTRIES ==> Present(t.tbls[p][i]) && Open(t.tbls[p][i])
  }

  /** Nor is the kernel's slot mapped over. */
  predicate SparesKernel(calls: seq<Call>) {
    forall k :: 0 <= k < |calls| ==> calls[k].Map? ==> Slot(calls[k].va) != 1
  }

  lemma {:induction false} MakeEnters(t: Tables, p: nat)
    requires t.Valid() && p < NUM_PROC
    ensures Entered(MakeTask(t, p), p)
  {
    forall i | 0 < i < ENTRIES ensures Present(IdentityPte(i)) && Open(IdentityPte(i)) { IdentityDecodes(i); }
  }

  lemma {:induction false} MapKeepsEntered(t: Tables, q: nat, va: u32, pa: u32, p: nat)
    requires t.Valid() && p < NUM_PROC && q < NUM_PROC && Entered(t, p) && Slot(va) != 1
    ensures Entered(MapPage(t, q, va, pa), p)
  {
    PteDecodes(pa);
    hide PagePte, Open, Present;
  }

  lemma {:induction false} CallKeepsEntered(t: Tables, c: Call, p: nat)
    requires t.Valid() && p < NUM_PROC && Sparing(c) && Entered(t, p) && (c.Map? ==> Slot(c.va) != 1)
    ensures Entered(Do(t, c), p)
  {
    match c
    case Make(q) => if q == p { MakeEnters(t, p); }
    case Map(q, va, pa) => MapKeepsEntered(t, q, va, pa, p);
    case Remove(q) =>
  }

  lemma {:induction false} CallsKeepEntered(t: Tables, calls: seq<Call>, p: nat)
    requires t.Valid() && p < NUM_PROC && AllSparing(calls) && SparesKernel(calls) && Entered(t, p)
    ensures Entered(DoAll(t, calls), p)
    decreases |calls|
  {
    if calls != [] {
      assert Sparing(calls[0]);
      CallKeepsEntered(t, calls[0], p);
      CallsKeepEntered(Do(t, calls[0]), calls[1..], p);
    }
  }

  /** Once a task has been created, all of low memory above page 0 and of the kernel's frame
      stays open to its user code through any run of the calls, and the kernel's frame stays
      where it is. */
  lemma {:induction false} MemoryStaysOpen(t: Tables, calls: seq<Call>, p: nat, va: u32)
    requires t.Valid() && p < NUM_PROC && AllSparing(calls) && SparesKernel(calls) && KB4 <= va < 2 * MB4
    ensures var r := DoAll(MakeTask(t, p), calls);
      UserMay(r, p, va) && (va >= MB4 ==> Walk(r, p, va) == Some(va))
  {
    MakeEnters(t, p);
    CallsKeepEntered(MakeTask(t, p), calls, p);
    var r := DoAll(MakeTask(t, p), calls);
    EnteredIsOpen(r, p, va);
  }

  lemma {:induction false} EnteredIsOpen(t: Tables, p: nat, va: u32)
    requires t.Valid() && p < NUM_PROC && Entered(t, p) && KB4 <= va < 2 * MB4
    ensures UserMay(t, p, va) && (va >= MB4 ==> Walk(t, p, va) == Some(va))
  {
    if va < MB4 {
      TablePdeLeadsToTable(t, p);
      LowAddress(va);
      hide Slot, Index, TablePde, TableOf, Open, Present, IsBig;
    } else {
      BigEntries(p);
      hide Open, Present, IsBig, KernelPde;
    }
  }

  /** The two directory slots that lead to a task's table share its entries: the page mapped
      at 160 MB for vidmap appears at address 0 as well, where nothing was before. */
  lemma {:induction false} FirstPageIsShared(t: Tables, p: nat, slot: nat, pa: u32, offset: nat)
    requires t.Valid() && p < NUM_PROC && 2 <= slot < ENTRIES && slot != ELF_LOAD_PG && offset < KB4
    ensures slot * MB4 < 0x1_0000_0000
    ensures Walk(MakeTask(t, p), p, offset) == None
    ensures Walk(MapPage(MakeTask(t, p), p, slot * MB4, pa), p, offset) == Some(pa - pa % KB4 + offset)
  {
    NewTaskTranslates(t, p, offset);
    TablePdeLeadsToTable(t, p);
    PteDecodes(pa);
    AddressOf(slot, 0, 0);
    AddressOf(0, 0, offset);
    hide Slot, Index, TablePde, TableOf, PagePte, IdentityPte, KernelPde, ProgramPde;
  }

  // --------------------------------------------------------------- the arrays

  class Mmu {
    const base: nat
    const pgdir: array2<u32>
    const pgtbl: array2<u32>
    var cr3: nat
    /** What the arrays hold, as a value. */
    ghost var tables: Tables

    ghost predicate Valid()
      reads this, pgdir, pgtbl
    {
      && pgdir.Length0 == pgtbl.Length0 == NUM_PROC && pgdir.Length1 == pgtbl.Length1 == ENTRIES
      && pgdir != pgtbl && tables.Valid() && tables.base == base && cr3 < NUM_PROC
      && (forall p, i :: 0 <= p < NUM_PROC && 0 <= i < ENTRIES ==> pgdir[p, i] == tables.dirs[p][i])
      && (forall p, i :: 0 <= p < NUM_PROC && 0 <= i < ENTRIES ==> pgtbl[p, i] == tables.tbls[p][i])
    }

    constructor (base: nat)
      requires base % KB4 == 0 && MB4 <= base && base + NUM_PROC * KB4 <= 2 * MB4
      ensures Valid() && this.base == base && cr3 == 0 && fresh(pgdir) && fresh(pgtbl)
    {
      this.base := base;
      pgdir := new u32[NUM_PROC, ENTRIES]((p, i) => 0);
      pgtbl := new u32[NUM_PROC, ENTRIES]((p, i) => 0);
      cr3 := 0;
      var row: seq<u32> := seq(ENTRIES, _ => 0);
      tables := Tables(seq(NUM_PROC, _ => row), seq(NUM_PROC, _ => row), base);
    }

    /** What the hardware does on every access. */
    method Translate(va: u32) returns (pa: Option<nat>)
      requires Valid()
      ensures pa == Walk(tables, cr3, va)
    {
      var pde := pgdir[cr3, va / MB4];
      if Present(pde) && IsBig(pde) { return Some(pde / MB4 * MB4 + va % MB4); }
      var frame := pde / KB4 * KB4;
      if !Present(pde) || frame < base || (frame - base) / KB4 >= NUM_PROC { return None; }
      var pte := pgtbl[(frame - base) / KB4, va % MB4 / KB4];
      return if Present(pte) then Some(pte / KB4 * KB4 + va % KB4) else None;
    }

    method MakeTaskPgdir(proc: nat) returns (r: int)
      requires Valid()
      modifies this, pgdir, pgtbl
      ensures Valid()
      ensures proc >= NUM_PROC ==> r == -1 && tables == old(tables) && cr3 == old(cr3)
      ensures proc < NUM_PROC ==> r == 0 && tables == MakeTask(old(tables), proc) && cr3 == proc
    {
      if proc >= NUM_PROC { return -1; }
      pgtbl[proc, 0] := PG_USPACE + PG_RW;
      for i := 1 to ENTRIES
        invariant tables == old(tables) && cr3 == old(cr3)
        invariant forall j :: 0 <= j < i ==> pgtbl[proc, j] == IdentityPte(j)
        invariant forall p, j :: 0 <= p < NUM_PROC && 0 <= j < ENTRIES && p != proc ==>
          pgtbl[p, j] == tables.tbls[p][j]
        invariant forall p, j :: 0 <= p < NUM_PROC && 0 <= j < ENTRIES ==> pgdir[p, j] == tables.dirs[p][j]
      {
        pgtbl[proc, i] := i * KB4 + PG_USPACE + PG_RW + PG_PRESENT;
      }
      pgdir[proc, 0] := base + proc * KB4 + PG_USPACE + PG_RW + PG_PRESENT;
      pgdir[proc, 1] := MB4 + PG_USPACE + PG_RW + PG_SIZE + PG_PRESENT;
      pgdir[proc, ELF_LOAD_PG] := (proc + 2) * MB4 + PG_SIZE + PG_USPACE + PG_RW + PG_PRESENT;
      cr3 := proc;
      tables := MakeTask(tables, proc);
      return 0;
    }

    method RemoveTaskPgdir(proc: nat)
      requires Valid() && proc < NUM_PROC
      modifies this, pgdir
      ensures Valid() && tables == RemoveTask(old(tables), proc) && cr3 == proc
    {
      pgdir[proc, ELF_LOAD_PG] := pgdir[proc, ELF_LOAD_PG] - pgdir[proc, ELF_LOAD_PG] % 2;
      cr3 := proc;
      tables := RemoveTask(tables, proc);
    }

    method MapVidMem(proc: nat, va: u32, pa: u32) returns (r: int)
      requires Valid()
      modifies this, pgdir, pgtbl
      ensures Valid()
      ensures proc >= NUM_PROC ==> r == -1 && tables == old(tables) && cr3 == old(cr3)
      ensures proc < NUM_PROC ==> r == 0 && tables == MapPage(old(tables), proc, va, pa) && cr3 == proc
    {
      if proc >= NUM_PROC { return -1; }
      pgdir[proc, va / MB4] := base + proc * KB4 + PG_USPACE + PG_RW + PG_PRESENT;
      pgtbl[proc, va % MB4 / KB4] := pa - pa % 8 + PG_USPACE + PG_RW + PG_PRESENT;
      cr3 := proc;
      tables := MapPage(tables, proc, va, pa);
      return 0;
    }

    /** Reloading CR3 with a process's directory. */
    method FlushTlb(proc: nat)
      requires Valid() && proc < NUM_PROC
      modifies this`cr3
      ensures Valid() && cr3 == proc
    {
      cr3 := proc;
    }
  }
}
