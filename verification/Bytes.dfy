/** Machine-level vocabulary shared by every other module. */
module Bytes {
  type byte = b: int | 0 <= b < 0x100
  type u16 = w: int | 0 <= w < 0x1_0000
  type u32 = w: int | 0 <= w < 0x1_0000_0000

  const NUL: byte := 0
  const BACKSPACE: byte := 8
  const TAB: byte := 9
  const NEWLINE: byte := 10
  const SPACE: byte := 32

  datatype Option<+T> = None | Some(value: T)

  function Min(a: int, b: int): int {
    if a < b then a else b
  }

  function Pow2(n: nat): (r: nat)
    ensures r >= 1
    decreases n
  {
    if n == 0 then 1 else 2 * Pow2(n - 1)
  }

  function Wrap16(v: int): u16 {
    v % 0x1_0000
  }

  function Wrap32(v: int): u32 {
    v % 0x1_0000_0000
  }

  /** The signed reading of a 32-bit word. */
  function Signed32(v: u32): int {
    if v < 0x8000_0000 then v else v - 0x1_0000_0000
  }

  /** A char is signed. */
  function SignedChar(b: byte): int {
    if b < 0x80 then b else b - 0x100
  }

  /** mem with data written over it from index at on. */
  function Splice(mem: seq<byte>, at: nat, data: seq<byte>): (r: seq<byte>)
    requires at + |data| <= |mem|
    ensures |r| == |mem|
  {
    mem[..at] + data + mem[at + |data|..]
  }

  lemma {:induction false} SpliceAt(mem: seq<byte>, at: nat, data: seq<byte>, k: nat)
    requires at + |data| <= |mem| && k < |mem|
    ensures Splice(mem, at, data)[k] == if at <= k < at + |data| then data[k - at] else mem[k]
  {
  }

  lemma {:induction false} SpliceMore(mem: seq<byte>, at: nat, data: seq<byte>, b: byte)
    requires at + |data| < |mem|
    ensures Splice(mem, at, data)[at + |data| := b] == Splice(mem, at, data + [b])
  {
  }

  lemma {:induction false} SpliceIs(mem: seq<byte>, at: nat, data: seq<byte>, r: seq<byte>)
    requires at + |data| <= |mem| == |r|
    requires r[..at] == mem[..at] && r[at..at + |data|] == data && r[at + |data|..] == mem[at + |data|..]
    ensures r == Splice(mem, at, data)
  {
    assert r == r[..at] + r[at..at + |data|] + r[at + |data|..];
  }
}
