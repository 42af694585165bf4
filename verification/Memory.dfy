/** The kernel's assembly copy loops over flat memory; an address is an index into mem. */
module Memory {
  import opened Bytes

  /** Bytes lo up to hi of the source have arrived, the rest of memory is as it was. */
  ghost predicate Copied(was: seq<byte>, now: seq<byte>, dest: int, src: int, lo: int, hi: int)
    requires 0 <= src + lo <= src + hi <= |was|
  {
    && |now| == |was|
    && forall i {:trigger now[i]} :: 0 <= i < |was| ==>
         now[i] == if dest + lo <= i < dest + hi then was[src + i - dest] else was[i]
  }

  lemma {:induction false} CopiedIsSplice(was: seq<byte>, now: seq<byte>, dest: nat, src: nat, n: nat)
    requires src + n <= |was| && dest + n <= |was| && Copied(was, now, dest, src, 0, n)
    ensures now == Splice(was, dest, was[src..src + n])
  {
    var r := Splice(was, dest, was[src..src + n]);
    forall i | 0 <= i < |was| ensures now[i] == r[i] {
      if dest <= i < dest + n { assert r[i] == was[src..src + n][i - dest]; }
    }
  }

  /** rep movsb, upwards unless the source lies below the destination. */
  method MemMove(mem: array<byte>, dest: nat, src: nat, n: nat)
    requires dest + n <= mem.Length && src + n <= mem.Length
    modifies mem
    ensures mem[..] == Splice(old(mem[..]), dest, old(mem[src..src + n]))
  {
    var esi, edi, ecx: int := src, dest, n;
    var down := false;
    if esi < edi {
      esi, edi := esi - 1 + ecx, edi - 1 + ecx;
      down := true;
    }
    while ecx != 0
      invariant 0 <= ecx <= n && down == (src < dest)
      invariant !down ==> esi == src + (n - ecx) && edi == dest + (n - ecx)
      invariant down ==> esi == src + ecx - 1 && edi == dest + ecx - 1
      invariant !down ==> Copied(old(mem[..]), mem[..], dest, src, 0, n - ecx)
      invariant down ==> Copied(old(mem[..]), mem[..], dest, src, ecx, n)
      decreases ecx
    {
      mem[edi] := mem[esi];
      if down { esi, edi := esi - 1, edi - 1; } else { esi, edi := esi + 1, edi + 1; }
      ecx := ecx - 1;
    }
    CopiedIsSplice(old(mem[..]), mem[..], dest, src, n);
  }

  /** rep movsl, upwards; a word is read whole before it is written.  k bytes of the copy
      from was have been made before. */
  method MoveWords(mem: array<byte>, ghost was: seq<byte>, dest: nat, src: nat, k: nat, words: nat)
    requires |was| == mem.Length
    requires dest + k + 4 * words <= mem.Length && src + k + 4 * words <= mem.Length
    requires dest <= src || src + k + 4 * words <= dest
    requires Copied(was, mem[..], dest, src, 0, k)
    modifies mem
    ensures Copied(was, mem[..], dest, src, 0, k + 4 * words)
  {
    var edi, esi, ecx := dest + k, src + k, words;
    while ecx != 0
      invariant 0 <= ecx <= words
      invariant edi == dest + k + 4 * (words - ecx) && esi == src + k + 4 * (words - ecx)
      invariant forall i {:trigger mem[i]} :: 0 <= i < mem.Length ==>
        mem[i] == if dest <= i < edi then was[src + i - dest] else was[i]
      decreases ecx
    {
      var b0, b1, b2, b3 := mem[esi], mem[esi + 1], mem[esi + 2], mem[esi + 3];
      mem[edi], mem[edi + 1], mem[edi + 2], mem[edi + 3] := b0, b1, b2, b3;
      edi, esi, ecx := edi + 4, esi + 4, ecx - 1;
    }
  }

  /** The byte loops at either end; the first one stops at a word boundary. */
  method MoveBytes(mem: array<byte>, ghost was: seq<byte>, dest: nat, src: nat, k: nat, n: nat, toBoundary: bool)
    returns (done: nat)
    requires |was| == mem.Length
    requires dest + k + n <= mem.Length && src + k + n <= mem.Length
    requires dest <= src || src + k + n <= dest
    requires Copied(was, mem[..], dest, src, 0, k)
    modifies mem
    ensures done <= n && (done == n || (toBoundary && (dest + k + done) % 4 == 0))
    ensures Copied(was, mem[..], dest, src, 0, k + done)
  {
    var edi, esi := dest + k, src + k;
    done := 0;
    while done != n && !(toBoundary && edi % 4 == 0)
      invariant 0 <= done <= n && edi == dest + k + done && esi == src + k + done
      invariant forall i {:trigger mem[i]} :: 0 <= i < mem.Length ==>
        mem[i] == if dest <= i < edi then was[src + i - dest] else was[i]
      decreases n - done
    {
      mem[edi] := mem[esi];
      edi, esi, done := edi + 1, esi + 1, done + 1;
    }
  }

  /** Bytes up to a word boundary of the destination, then words, then the last bytes:
      for every length and alignment a plain copy. */
  method MemCopy(mem: array<byte>, dest: nat, src: nat, n: nat)
    requires dest + n <= mem.Length && src + n <= mem.Length
    requires dest <= src || src + n <= dest
    modifies mem
    ensures mem[..] == Splice(old(mem[..]), dest, old(mem[src..src + n]))
  {
    ghost var was := mem[..];
    var head := MoveBytes(mem, was, dest, src, 0, n, true);
    if head != n {
      var ecx, edx := (n - head) / 4, (n - head) % 4;
      MoveWords(mem, was, dest, src, head, ecx);
      var _ := MoveBytes(mem, was, dest, src, head + 4 * ecx, edx, false);
    }
    CopiedIsSplice(was, mem[..], dest, src, n);
  }

  /** memset in the same three parts; the word filler is the low byte of c four times. */
  method MemSet(mem: array<byte>, dest: nat, c: int, n: nat)
    requires dest + n <= mem.Length
    modifies mem
    ensures mem[..] == Splice(old(mem[..]), dest, seq(n, _ => c % 0x100))
  {
    var al: byte := c % 0x100;
    var edi, ecx := dest, n;
    while ecx != 0 && edi % 4 != 0
      invariant 0 <= ecx <= n && edi == dest + (n - ecx)
      invariant forall i :: 0 <= i < mem.Length ==> mem[i] == if dest <= i < edi then al else old(mem[i])
    {
      mem[edi] := al;
      edi, ecx := edi + 1, ecx - 1;
    }
    if ecx != 0 {
      var edx := ecx % 4;
      ecx := ecx / 4;
      while ecx != 0
        invariant 0 <= ecx && 0 <= edx < 4 && edi + 4 * ecx + edx == dest + n && dest <= edi
        invariant forall i :: 0 <= i < mem.Length ==> mem[i] == if dest <= i < edi then al else old(mem[i])
        decreases ecx
      {
        mem[edi], mem[edi + 1], mem[edi + 2], mem[edi + 3] := al, al, al, al;
        edi, ecx := edi + 4, ecx - 1;
      }
      while edx != 0
        invariant 0 <= edx && edi + edx == dest + n && dest <= edi
        invariant forall i :: 0 <= i < mem.Length ==> mem[i] == if dest <= i < edi then al else old(mem[i])
      {
        mem[edi] := al;
        edi, edx := edi + 1, edx - 1;
      }
    }
    assert mem[..] == Splice(old(mem[..]), dest, seq(n, _ => al));
  }
}
