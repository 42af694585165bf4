/** How loading a program goes, as execute finds out from the file system. */
module Loading {
  import opened Bytes
  import opened FileSystem
  import K = KernelState
  import Limits

  const ELF_HEADER: seq<byte> := [0x7f, 'E' as int, 'L' as int, 'F' as int]
  const ENTRY_POINT_OFFSET: nat := 24
  const WORD: nat := 4

  /** Refused before a pid is taken; unreadable after it, at the entry point or as a whole;
      or loaded. */
  function LoadOf(img: Image, name: seq<byte>): K.Load
    requires WellFormed(img)
  {
    var dentry := Lookup(img.entries, name);
    if dentry == None then K.Refused
    else
      var inode := dentry.value.inode;
      var header := Read(img, inode, 0, WORD);
      if header.result != WORD || header.data != ELF_HEADER then K.Refused
      else if Read(img, inode, ENTRY_POINT_OFFSET, Asked(img, inode, WORD)).result != WORD then K.BadEntry
      else if Read(img, inode, 0, Asked(img, inode, 0)).result == -1 then K.BadImage
      else K.Loads
  }

  /** The file's first four bytes can be read and are the magic number. */
  predicate Executable(img: Image, inode: u32)
    requires WellFormed(img)
  {
    && inode < img.inodeCount && img.entryCount >= 1
    && var node := img.inodes[inode];
    && node.size >= WORD && Valid(img, node, 0) && img.blocks[node.slots[0]][..WORD] == ELF_HEADER
  }

  /** All of the file can be read at once. */
  ghost predicate Readable(img: Image, inode: u32)
    requires WellFormed(img) && inode < img.inodeCount
  {
    img.inodes[inode].size < img.entryCount * BLOCK && Sound(img, img.inodes[inode])
  }

  lemma {:induction false} HeaderRead(img: Image, inode: u32)
    requires WellFormed(img)
    ensures var header := Read(img, inode, 0, WORD);
            header.result == WORD && header.data == ELF_HEADER <==> Executable(img, inode)
  {
    if inode < img.inodeCount && img.inodes[inode].size >= WORD && Valid(img, img.inodes[inode], 0) {
      var node := img.inodes[inode];
      assert FirstBad(img, node, 0, 1) == 1;
      assert forall p :: 0 <= p < WORD ==> Has(img, node, p);
      assert BytesAt(img, node, 0, WORD) == img.blocks[node.slots[0]][..WORD];
    }
  }

  lemma {:induction false} EntryRead(img: Image, inode: u32)
    requires WellFormed(img) && Executable(img, inode)
    ensures Read(img, inode, ENTRY_POINT_OFFSET, WORD).result == WORD
       <==> img.inodes[inode].size >= ENTRY_POINT_OFFSET + WORD
  {
    var node := img.inodes[inode];
    assert FirstBad(img, node, 0, 1) == 1;
  }

  lemma {:induction false} WholeRead(img: Image, inode: u32)
    requires WellFormed(img) && Executable(img, inode)
    ensures Read(img, inode, 0, img.inodes[inode].size).result != -1 <==> Readable(img, inode)
  {
    var size := img.inodes[inode].size;
    ReadSucceedsIff(img, inode, 0, size);
    assert Wrap32(0 + size) == size;
  }

  /** For every image and name: which files are refused, which are unreadable after the pid
      was taken, and which load. */
  lemma {:induction false} LoadOfIs(img: Image, name: seq<byte>)
    requires WellFormed(img)
    ensures var e := Lookup(img.entries, name);
            if e == None || !Executable(img, e.value.inode) then LoadOf(img, name) == K.Refused
            else if img.inodes[e.value.inode].size < ENTRY_POINT_OFFSET + WORD then LoadOf(img, name) == K.BadEntry
            else LoadOf(img, name) == if Readable(img, e.value.inode) then K.Loads else K.BadImage
  {
    hide Read, Readable, Lookup;
    var e := Lookup(img.entries, name);
    if e.Some? {
      var inode := e.value.inode;
      HeaderRead(img, inode);
      if Executable(img, inode) {
        EntryRead(img, inode);
        WholeRead(img, inode);
      }
    }
  }

  /** In terms of the file's bytes: a sound file that starts with the magic number loses a
      pid exactly if it ends before its entry point or reaches the bound on reads; in
      between, all of it arrives at the load address. */
  lemma {:induction false} SoundFileLoads(img: Image, name: seq<byte>)
    requires WellFormed(img) && img.entryCount >= 1
    requires var e := Lookup(img.entries, name);
             e.Some? && e.value.inode < img.inodeCount && Sound(img, img.inodes[e.value.inode])
    ensures var inode := Lookup(img.entries, name).value.inode;
            var file := Contents(img, img.inodes[inode]);
            var magic := |file| >= WORD && file[..WORD] == ELF_HEADER;
            var long := |file| >= ENTRY_POINT_OFFSET + WORD;
            var bounded := |file| < img.entryCount * BLOCK;
            && (LoadOf(img, name) == K.Refused <==> !magic)
            && (LoadOf(img, name) in {K.BadEntry, K.BadImage} <==> magic && !(long && bounded))
            && (LoadOf(img, name) == K.Loads <==> magic && long && bounded)
            && (LoadOf(img, name) == K.Loads ==> Read(img, inode, 0, |file|) == Outcome(|file|, file))
  {
    var inode := Lookup(img.entries, name).value.inode;
    var node := img.inodes[inode];
    var file := Contents(img, node);
    LoadOfIs(img, name);
    if node.size >= WORD { MagicIsInFile(img, node); }
    if |file| < img.entryCount * BLOCK && |file| > 0 {
      ReadIsSlice(img, inode, 0, |file|);
      assert file[0..|file|] == file;
    }
  }

  lemma {:induction false} MagicIsInFile(img: Image, node: INode)
    requires WellFormed(img) && Sound(img, node) && node.size >= WORD
    ensures Valid(img, node, 0) && Contents(img, node)[..WORD] == img.blocks[node.slots[0]][..WORD]
  {
    forall k | 0 <= k < WORD
      ensures Valid(img, node, 0) && Contents(img, node)[k] == img.blocks[node.slots[0]][k]
    {
      BlocksAt(img, node, 0, node.size / BLOCK + 1, k);
    }
  }

  /** When execute leaves a well-formed process table, as a condition on the file: nothing
      is started, or all of the program can be read and the displayed terminal has its shell. */
  lemma {:induction false} ExecuteHealthyIff(k: K.Kernel, img: Image, name: seq<byte>)
    requires K.ProcInv(k) && WellFormed(img)
    ensures K.Healthy(K.Execute(k, LoadOf(img, name))) <==>
              var e := Lookup(img.entries, name);
              || e == None || !Executable(img, e.value.inode) || K.FirstFree(k.live, 0) == None
              || (&& img.inodes[e.value.inode].size >= ENTRY_POINT_OFFSET + WORD
                  && Readable(img, e.value.inode) && k.terms[k.current].running)
  {
    LoadOfIs(img, name);
    Limits.ExecuteHealthyIff(k, LoadOf(img, name));
  }
}
