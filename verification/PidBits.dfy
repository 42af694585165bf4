/** The eight-bit map of process ids: pid 0 is the top bit. */
module PidBits {
  const FIRST_PID: bv8 := 0x80

  function Mask(pid: nat): bv8
    requires pid < 8
  {
    [0x80, 0x40, 0x20, 0x10, 0x08, 0x04, 0x02, 0x01][pid]
  }

  lemma {:induction false} MaskIsShift(pid: nat)
    requires pid < 8
    ensures FIRST_PID >> pid == Mask(pid)
    ensures pid < 7 ==> Mask(pid) >> 1 == Mask(pid + 1)
  {
    if pid == 0 {} else if pid == 1 {} else if pid == 2 {} else if pid == 3 {}
    else if pid == 4 {} else if pid == 5 {} else if pid == 6 {} else {}
  }

  predicate Bit(procs: bv8, pid: nat)
    requires pid < 8
  {
    Mask(pid) & procs != 0
  }

  function Live(procs: bv8): set<nat> {
    set p: nat | 0 <= p < 8 && Bit(procs, p)
  }

  lemma {:induction false} InLive(procs: bv8, pid: nat)
    requires pid < 8
    ensures Mask(pid) & procs == 0 <==> pid !in Live(procs)
  {
  }

  lemma {:induction false} NoBits()
    ensures Live(0) == {}
  {
  }

  lemma {:induction false} SetBit(procs: bv8, pid: nat)
    requires pid < 8
    ensures Live(procs | Mask(pid)) == Live(procs) + {pid}
  {
    forall q | 0 <= q < 8 ensures Bit(procs | Mask(pid), q) <==> Bit(procs, q) || q == pid {
      OneBit(pid, q);
      OrBits(procs, Mask(pid), Mask(q));
    }
  }

  lemma {:induction false} ClearOne(procs: bv8, pid: nat, q: nat)
    requires pid < 8 && q < 8
    ensures Bit(procs & !Mask(pid), q) <==> Bit(procs, q) && q != pid
  {
    OneBit(pid, q);
    if q == pid { AndNotSelf(procs, Mask(q)); } else { AndNotOther(procs, Mask(pid), Mask(q)); }
  }

  lemma {:induction false} ClearBit(procs: bv8, pid: nat)
    requires pid < 8
    ensures Live(procs & !Mask(pid)) == Live(procs) - {pid}
  {
    forall q | 0 <= q < 8 ensures Bit(procs & !Mask(pid), q) <==> Bit(procs, q) && q != pid {
      ClearOne(procs, pid, q);
    }
  }

  lemma {:induction false} ReleaseBit(procs: bv8, pid: nat)
    requires pid < 8
    ensures Live(procs & !(FIRST_PID >> pid)) == Live(procs) - {pid}
  {
    MaskIsShift(pid);
    ClearBit(procs, pid);
  }

  lemma {:induction false} OneBit(p: nat, q: nat)
    requires p < 8 && q < 8
    ensures Mask(q) & Mask(p) == if p == q then Mask(p) else 0
    ensures Mask(p) != 0
  {
    var m := [0x80 as bv8, 0x40, 0x20, 0x10, 0x08, 0x04, 0x02, 0x01];
    assert forall i, j :: 0 <= i < 8 && 0 <= j < 8 ==> m[j] & m[i] == if i == j then m[i] else 0;
  }

  lemma {:induction false} OrBits(a: bv8, b: bv8, m: bv8)
    ensures m & (a | b) == (m & a) | (m & b)
    ensures (m & a) | (m & b) == 0 <==> m & a == 0 && m & b == 0
  {
  }

  lemma {:induction false} AndNotSelf(a: bv8, m: bv8)
    ensures m & (a & !m) == 0
  {
  }

  lemma {:induction false} AndNotOther(a: bv8, b: bv8, m: bv8)
    requires m & b == 0
    ensures m & (a & !b) == m & a
  {
  }
}
