/** The file system calls as they run, over the image the boot loader left in memory. */
module FileDriver {
  import opened Bytes
  import opened FileSystem
  import opened Strings

  /** The reading loop after some bytes: all is valid up to the block it is in. */
  ghost predicate Reading(img: Image, node: INode, offset: nat, done: nat) {
    forall s :: offset / BLOCK <= s <= (offset + done) / BLOCK ==> Valid(img, node, s)
  }

  /** What the loop has put into the buffer. */
  ghost predicate Copied(img: Image, node: INode, offset: nat, data: seq<byte>)
    requires WellFormed(img)
  {
    && (forall p :: offset <= p < offset + |data| ==> Has(img, node, p))
    && data == BytesAt(img, node, offset, |data|)
  }

  lemma {:induction false} CopiedMore(img: Image, node: INode, offset: nat, data: seq<byte>)
    requires WellFormed(img) && Copied(img, node, offset, data) && Has(img, node, offset + |data|)
    ensures Copied(img, node, offset, data + [ByteAt(img, node, offset + |data|)])
  {
  }

  lemma {:induction false} StoppedAt(img: Image, node: INode, offset: nat, data: seq<byte>, n: nat)
    requires WellFormed(img) && 0 < |data| <= n && Reading(img, node, offset, |data| - 1)
    requires Copied(img, node, offset, data)
    requires (offset + |data|) % BLOCK == 0 && !Valid(img, node, (offset + |data|) / BLOCK)
    ensures Fetch(img, node, offset, n) == Outcome(-1, data)
  {
    var bad := (offset + |data|) / BLOCK;
    assert offset / BLOCK < bad <= (offset + n) / BLOCK && (offset + |data| - 1) / BLOCK == bad - 1;
    assert FirstBad(img, node, offset / BLOCK, (offset + n) / BLOCK + 1) == bad;
  }

  /** The place of the byte after p. */
  lemma {:induction false} NextPlace(p: nat)
    ensures p % BLOCK + 1 < BLOCK ==> (p + 1) / BLOCK == p / BLOCK && (p + 1) % BLOCK == p % BLOCK + 1
    ensures p % BLOCK + 1 == BLOCK ==> (p + 1) / BLOCK == p / BLOCK + 1 && (p + 1) % BLOCK == 0
  {
  }

  lemma {:induction false} SlotIsValid(img: Image, node: INode, slot: nat)
    requires WellFormed(img) && slot < |node.slots| && node.slots[slot] < img.blockCount
    ensures Valid(img, node, slot)
  {
  }

  lemma {:induction false} StoppedHere(img: Image, node: INode, offset: nat, data: seq<byte>, n: nat)
    requires WellFormed(img) && 0 < |data| <= n && Reading(img, node, offset, |data| - 1)
    requires Copied(img, node, offset, data) && (offset + |data|) % BLOCK == 0
    requires var slot := (offset + |data|) / BLOCK; slot < |node.slots| ==> node.slots[slot] >= img.blockCount
    ensures Fetch(img, node, offset, n) == Outcome(-1, data)
  {
    StoppedAt(img, node, offset, data, n);
  }

  lemma {:induction false} MoreToCome(img: Image, node: INode, offset: nat, done: nat, n: nat)
    requires WellFormed(img) && done < n && Reading(img, node, offset, done)
    ensures |Fetch(img, node, offset, n).data| > done && Has(img, node, offset + done)
  {
    assert FirstBad(img, node, offset / BLOCK, (offset + n) / BLOCK + 1) > (offset + done) / BLOCK;
  }

  lemma {:induction false} Finished(img: Image, node: INode, offset: nat, data: seq<byte>)
    requires WellFormed(img) && Reading(img, node, offset, |data|) && Copied(img, node, offset, data)
    ensures Fetch(img, node, offset, |data|) == Outcome(|data|, data)
  {
    var last := (offset + |data|) / BLOCK;
    assert FirstBad(img, node, offset / BLOCK, last + 1) == last + 1;
  }

  lemma {:induction false} ReadingMore(img: Image, node: INode, offset: nat, done: nat)
    requires Reading(img, node, offset, done)
    requires (offset + done + 1) % BLOCK == 0 ==> Valid(img, node, (offset + done + 1) / BLOCK)
    ensures Reading(img, node, offset, done + 1)
  {
    if (offset + done + 1) % BLOCK != 0 {
      assert (offset + done + 1) / BLOCK == (offset + done) / BLOCK;
    } else {
      assert (offset + done + 1) / BLOCK == (offset + done) / BLOCK + 1;
    }
  }

  /** The length test and the 32-byte comparison together compare whole names. */
  lemma {:induction false} NamesCompared(fname: seq<byte>, field: seq<byte>)
    requires Terminated(fname) && |field| == NAME
    ensures (|CString(fname)| <= NAME && CString(Take(fname, NAME)) == CString(Take(field, NAME)))
       <==> CString(fname) == CString(field)
  {
    TerminatedString(fname);
    assert Take(field, NAME) == field;
    if |CString(fname)| <= NAME { CStringIs(Take(fname, NAME), |CString(fname)|); }
  }

  lemma {:induction false} LookupNext(entries: seq<DirEntry>, i: nat, fname: seq<byte>)
    requires i < |entries|
    ensures Lookup(entries[i..], fname)
         == if CString(entries[i].name) == fname then Some(entries[i]) else Lookup(entries[i + 1..], fname)
  {
    assert entries[i..][0] == entries[i] && entries[i..][1..] == entries[i + 1..];
  }

  lemma {:induction false} NoneLeft(entries: seq<DirEntry>, fname: seq<byte>)
    ensures Lookup(entries[|entries|..], fname) == None
  {
  }

  class Filesystem {
    const bootblk: Image

    constructor (image: Image)
      ensures bootblk == image
    {
      bootblk := image;
    }

    /** Reads into buf from index at on. */
    method ReadData(inode: u32, offset: u32, buf: array?<byte>, at: nat, ulength: u32) returns (r: int)
      requires WellFormed(bootblk)
      requires inode < bootblk.inodeCount ==> bootblk.inodes[inode].size < SLOTS * BLOCK
      requires buf != null ==> at + |Read(bootblk, inode, offset, ulength).data| <= buf.Length
      modifies buf
      ensures buf == null ==> r == -1
      ensures buf != null ==> var o := Read(bootblk, inode, offset, ulength);
                              r == o.result && buf[..] == Splice(old(buf[..]), at, o.data)
    {
      var length := Signed32(ulength);
      var datablkIdx := offset / BLOCK;
      if buf == null { return -1; }
      assert buf[..] == Splice(buf[..], at, []);
      if inode >= bootblk.inodeCount { return -1; }
      var node := bootblk.inodes[inode];
      if offset >= node.size { return 0; }
      if Wrap32(offset + ulength) >= Wrap32(bootblk.entryCount * BLOCK) { return -1; }
      if node.slots[datablkIdx] >= bootblk.blockCount { return -1; }
      assert Valid(bootblk, node, datablkIdx);
      r := CopyOut(node, offset, buf, at, length, Wanted(node, offset, ulength));
    }

    /** The reading loop. */
    method CopyOut(node: INode, offset: u32, buf: array<byte>, at: nat, length: int, ghost n: nat) returns (r: int)
      requires WellFormed(bootblk) && |node.slots| == SLOTS && offset < node.size < SLOTS * BLOCK
      requires Valid(bootblk, node, offset / BLOCK)
      requires n == if length <= 0 then 0 else Min(length, node.size - offset)
      requires at + |Fetch(bootblk, node, offset, n).data| <= buf.Length
      modifies buf
      ensures var o := Fetch(bootblk, node, offset, n);
              r == o.result && buf[..] == Splice(old(buf[..]), at, o.data)
    {
      ghost var mem, data: seq<byte> := buf[..], [];
      var datablkIdx := offset / BLOCK;
      var datablkOffset := offset % BLOCK;
      var done := 0;
      assert mem == Splice(mem, at, data);
      assert Reading(bootblk, node, offset, 0) && Copied(bootblk, node, offset, []);
      hide Reading, Copied, Splice, Fetch, BytesAt, FirstBad, WellFormed, Valid, Has, ByteAt;
      while done < length
        invariant 0 <= done == |data| <= n && Reading(bootblk, node, offset, done)
        invariant datablkIdx == (offset + done) / BLOCK && datablkOffset == (offset + done) % BLOCK
        invariant Copied(bootblk, node, offset, data)
        invariant at + done <= buf.Length == |mem| && buf[..] == Splice(mem, at, data)
        decreases length - done
      {
        var datablk := BlockOf(node, offset, done, datablkIdx);
        if done + offset >= node.size { break; }
        MoreToCome(bootblk, node, offset, done, n);
        CopiedMore(bootblk, node, offset, data);
        ghost var b := ByteAt(bootblk, node, offset + done);
        SpliceMore(mem, at, data, b);
        data := data + [b];
        CopyByte(buf, at + done, datablk, datablkOffset, node, offset + done);
        var valid;
        valid, datablkIdx, datablkOffset := NextByte(node, offset, done, datablkIdx, datablkOffset);
        done := done + 1;
        if !valid {
          StoppedHere(bootblk, node, offset, data, n);
          return -1;
        }
      }
      Finished(bootblk, node, offset, data);
      return done;
    }

    /** The place of the next byte; a block that ends is followed by the next slot's, if that
        is valid. */
    method NextByte(node: INode, ghost offset: nat, ghost done: nat, datablkIdx: nat, datablkOffset: nat)
      returns (valid: bool, idx: nat, off: nat)
      requires WellFormed(bootblk) && |node.slots| == SLOTS && offset + done < node.size < SLOTS * BLOCK
      requires Reading(bootblk, node, offset, done)
      requires datablkIdx == (offset + done) / BLOCK && datablkOffset == (offset + done) % BLOCK
      ensures valid ==> && Reading(bootblk, node, offset, done + 1)
                        && idx == (offset + done + 1) / BLOCK && off == (offset + done + 1) % BLOCK
      ensures !valid ==> && (offset + done + 1) % BLOCK == 0
                         && var slot := (offset + done + 1) / BLOCK;
                            slot < |node.slots| ==> node.slots[slot] >= bootblk.blockCount
    {
      NextPlace(offset + done);
      hide Reading;
      idx, off := datablkIdx, datablkOffset + 1;
      if off >= BLOCK {
        idx := idx + 1;
        if node.slots[idx] >= bootblk.blockCount { return false, idx, off; }
        off := 0;
        SlotIsValid(bootblk, node, idx);
      }
      ReadingMore(bootblk, node, offset, done);
      valid := true;
    }

    /** The block that the loop reads from: its slot has been checked. */
    method BlockOf(node: INode, ghost offset: nat, ghost done: nat, datablkIdx: nat) returns (datablk: u32)
      requires Reading(bootblk, node, offset, done) && datablkIdx == (offset + done) / BLOCK
      ensures datablkIdx < |node.slots| && datablk == node.slots[datablkIdx] < |bootblk.blocks|
    {
      assert Valid(bootblk, node, (offset + done) / BLOCK);
      datablk := node.slots[datablkIdx];
    }

    method CopyByte(buf: array<byte>, to: nat, datablk: u32, datablkOffset: nat, ghost node: INode, ghost p: nat)
      requires WellFormed(bootblk) && to < buf.Length && Has(bootblk, node, p)
      requires datablk == node.slots[p / BLOCK] && datablkOffset == p % BLOCK
      modifies buf
      ensures buf[..] == old(buf[..])[to := ByteAt(bootblk, node, p)]
    {
      buf[to] := bootblk.blocks[datablk][datablkOffset];
    }

    /** Whether an entry's name is this one. */
    method SameName(fname: seq<byte>, field: seq<byte>) returns (same: bool)
      requires Terminated(fname) && |field| == NAME
      ensures same <==> CString(field) == CString(fname)
    {
      NamesCompared(fname, field);
      var length := StrLen(fname);
      if length > NAME { return false; }
      var r := StrNCmp(fname, field, NAME);
      return r == 0;
    }

    /** The directory entry with this name, among all 63 whether used or not. */
    method ReadDentryByName(fname: seq<byte>) returns (dentry: Option<DirEntry>)
      requires WellFormed(bootblk) && Terminated(fname)
      ensures dentry == Lookup(bootblk.entries, CString(fname))
    {
      var i := 0;
      hide CString, Lookup;
      assert bootblk.entries[0..] == bootblk.entries;
      while i < ENTRIES
        invariant i <= ENTRIES
        invariant Lookup(bootblk.entries, CString(fname)) == Lookup(bootblk.entries[i..], CString(fname))
      {
        var field := bootblk.entries[i].name;
        LookupNext(bootblk.entries, i, CString(fname));
        var same := SameName(fname, field);
        if same { return Some(bootblk.entries[i]); }
        i := i + 1;
      }
      NoneLeft(bootblk.entries, CString(fname));
      return None;
    }

    /** A piece of the named file; size 0 asks for all of it. */
    method FileReadName(fname: seq<byte>, buf: array?<byte>, offset: u32, size: u32) returns (r: int)
      requires WellFormed(bootblk) && Terminated(fname)
      requires forall i :: 0 <= i < |bootblk.inodes| ==> bootblk.inodes[i].size < SLOTS * BLOCK
      requires var e := Lookup(bootblk.entries, CString(fname));
               e.Some? && size == 0 ==> e.value.inode < bootblk.inodeCount
      requires var e := Lookup(bootblk.entries, CString(fname));
               e.Some? && buf != null ==>
                 |Read(bootblk, e.value.inode, offset, Asked(bootblk, e.value.inode, size)).data| <= buf.Length
      modifies buf
      ensures var e := Lookup(bootblk.entries, CString(fname));
              if e == None || buf == null then r == -1
              else
                var o := Read(bootblk, e.value.inode, offset, Asked(bootblk, e.value.inode, size));
                r == o.result && buf[..] == Splice(old(buf[..]), 0, o.data)
    {
      var dentry := ReadDentryByName(fname);
      if dentry == None { return -1; }
      var inode := dentry.value.inode;
      r := ReadData(inode, offset, buf, 0, if size == 0 then bootblk.inodes[inode].size else size);
    }
  }
}
