/** The read-only block file system: block-indexed reads against flat byte strings. */
module FileSystem {
  import opened Bytes
  import opened Strings

  const BLOCK: nat := 4096
  const ENTRIES: nat := 63
  const NAME: nat := 32
  const SLOTS: nat := 1023

  datatype FileType = Rtc | Directory | Regular | Other

  datatype DirEntry = DirEntry(name: seq<byte>, filetype: FileType, inode: u32)

  datatype INode = INode(size: u32, slots: seq<u32>)

  /** The file system image in memory. */
  datatype Image = Image(entryCount: u32, inodeCount: u32, blockCount: u32,
                         entries: seq<DirEntry>, inodes: seq<INode>, blocks: seq<seq<byte>>)

  ghost predicate WellFormed(img: Image) {
    && img.entryCount < ENTRIES && |img.entries| == ENTRIES
    && (forall e :: 0 <= e < ENTRIES ==> |img.entries[e].name| == NAME)
    && |img.inodes| == img.inodeCount && |img.blocks| == img.blockCount
    && (forall i :: 0 <= i < |img.inodes| ==> |img.inodes[i].slots| == SLOTS)
    && (forall b :: 0 <= b < |img.blocks| ==> |img.blocks[b]| == BLOCK)
  }

  // ---------------------------------------------------------- bytes of a file

  predicate Valid(img: Image, node: INode, slot: nat) {
    slot < |node.slots| && node.slots[slot] < |img.blocks|
  }

  /** The first slot from..upto that names no block, or upto. */
  function FirstBad(img: Image, node: INode, from: nat, upto: nat): (k: nat)
    requires from <= upto
    ensures from <= k <= upto && (k < upto ==> !Valid(img, node, k))
    ensures forall s :: from <= s < k ==> Valid(img, node, s)
    decreases upto - from
  {
    if from == upto || !Valid(img, node, from) then from else FirstBad(img, node, from + 1, upto)
  }

  /** The blocks of slots from..upto, one after another. */
  function Blocks(img: Image, node: INode, from: nat, upto: nat): seq<byte>
    requires from <= upto && forall s :: from <= s < upto ==> Valid(img, node, s)
    decreases upto - from
  {
    if from == upto then []
    else assert Valid(img, node, from); img.blocks[node.slots[from]] + Blocks(img, node, from + 1, upto)
  }

  /** Where a byte of the blocks is: block and offset come from dividing its position. */
  lemma {:induction false} BlocksAt(img: Image, node: INode, from: nat, upto: nat, p: nat)
    requires WellFormed(img) && from <= upto && forall s :: from <= s < upto ==> Valid(img, node, s)
    requires p < (upto - from) * BLOCK
    ensures |Blocks(img, node, from, upto)| == (upto - from) * BLOCK
    ensures Valid(img, node, from + p / BLOCK)
    ensures Blocks(img, node, from, upto)[p] == img.blocks[node.slots[from + p / BLOCK]][p % BLOCK]
    decreases upto - from
  {
    assert Valid(img, node, from);
    if p >= BLOCK {
      BlocksAt(img, node, from + 1, upto, p - BLOCK);
    } else if upto - from > 1 {
      BlocksAt(img, node, from + 1, upto, 0);
    } else {
      assert Blocks(img, node, from + 1, upto) == [];
    }
  }

  /** Every block a file of this size reaches, its very end included. */
  ghost predicate Sound(img: Image, node: INode) {
    node.size < SLOTS * BLOCK && forall s :: 0 <= s <= node.size / BLOCK ==> Valid(img, node, s)
  }

  /** The file as a flat byte string. */
  ghost function Contents(img: Image, node: INode): (r: seq<byte>)
    requires WellFormed(img) && Sound(img, node)
    ensures |r| == node.size
  {
    BlocksAt(img, node, 0, node.size / BLOCK + 1, node.size);
    Blocks(img, node, 0, node.size / BLOCK + 1)[..node.size]
  }

  predicate Has(img: Image, node: INode, p: nat) {
    Valid(img, node, p / BLOCK)
  }

  function ByteAt(img: Image, node: INode, p: nat): byte
    requires WellFormed(img) && Has(img, node, p)
  {
    img.blocks[node.slots[p / BLOCK]][p % BLOCK]
  }

  function BytesAt(img: Image, node: INode, offset: nat, n: nat): (r: seq<byte>)
    requires WellFormed(img) && forall p :: offset <= p < offset + n ==> Has(img, node, p)
    ensures |r| == n
  {
    seq<byte>(n, k requires 0 <= k < n => ByteAt(img, node, offset + k))
  }

  lemma {:induction false} BytesAreContents(img: Image, node: INode, offset: nat, n: nat)
    requires WellFormed(img) && Sound(img, node) && offset + n <= node.size
    ensures forall p :: offset <= p < offset + n ==> Has(img, node, p)
    ensures BytesAt(img, node, offset, n) == Contents(img, node)[offset..offset + n]
  {
    forall p | offset <= p < offset + n
      ensures Has(img, node, p) && ByteAt(img, node, p) == Contents(img, node)[p]
    {
      BlocksAt(img, node, 0, node.size / BLOCK + 1, p);
    }
  }

  // --------------------------------------------------------------- read_data

  /** What a read returns and what it leaves in the buffer. */
  datatype Outcome = Outcome(result: int, data: seq<byte>)

  const FAILED := Outcome(-1, [])

  /** How many bytes a read inside a file asks for. */
  function Wanted(node: INode, offset: u32, ulength: u32): nat
    requires offset < node.size
  {
    if Signed32(ulength) <= 0 then 0 else Min(ulength, node.size - offset)
  }

  lemma {:induction false} ValidUpTo(img: Image, node: INode, offset: nat, n: nat, bad: nat)
    requires offset / BLOCK <= bad && forall s :: offset / BLOCK <= s < bad ==> Valid(img, node, s)
    requires n > 0 ==> (offset + n - 1) / BLOCK < bad
    ensures forall p :: offset <= p < offset + n ==> Has(img, node, p)
  {
    forall p | offset <= p < offset + n ensures Has(img, node, p) {
      assert offset / BLOCK <= p / BLOCK <= (offset + n - 1) / BLOCK;
    }
  }

  /** The bytes of the wanted blocks; a slot that names no block stops the read, also the
      slot just after the last byte when that byte ends its block. */
  function Fetch(img: Image, node: INode, offset: nat, n: nat): Outcome
    requires WellFormed(img)
  {
    var from, last := offset / BLOCK, (offset + n) / BLOCK;
    var bad := FirstBad(img, node, from, last + 1);
    if bad == last + 1 then
      ValidUpTo(img, node, offset, n, bad);
      Outcome(n, BytesAt(img, node, offset, n))
    else if bad == from then FAILED
    else
      ValidUpTo(img, node, offset, bad * BLOCK - offset, bad);
      Outcome(-1, BytesAt(img, node, offset, bad * BLOCK - offset))
  }

  function Read(img: Image, inode: u32, offset: u32, ulength: u32): Outcome
    requires WellFormed(img)
  {
    if inode >= img.inodeCount then FAILED
    else
      var node := img.inodes[inode];
      if offset >= node.size then Outcome(0, [])
      else if Wrap32(offset + ulength) >= Wrap32(img.entryCount * BLOCK) then FAILED
      else Fetch(img, node, offset, Wanted(node, offset, ulength))
  }

  lemma {:induction false} FetchIsSlice(img: Image, node: INode, offset: nat, n: nat)
    requires WellFormed(img) && Sound(img, node) && offset + n <= node.size
    ensures Fetch(img, node, offset, n) == Outcome(n, Contents(img, node)[offset..offset + n])
  {
    assert (offset + n) / BLOCK <= node.size / BLOCK;
    BytesAreContents(img, node, offset, n);
  }

  /** On a sound file a read inside the bound returns exactly the asked piece of it. */
  lemma {:induction false} ReadIsSlice(img: Image, inode: u32, offset: u32, ulength: u32)
    requires WellFormed(img) && inode < img.inodeCount && Sound(img, img.inodes[inode])
    requires offset + ulength < img.entryCount * BLOCK
    ensures var file := Contents(img, img.inodes[inode]);
            var n := if offset < |file| then Min(ulength, |file| - offset) else 0;
            Read(img, inode, offset, ulength)
            == Outcome(n, if offset < |file| then file[offset..offset + n] else [])
  {
    var node := img.inodes[inode];
    if offset < node.size { FetchIsSlice(img, node, offset, Wanted(node, offset, ulength)); }
  }

  /** Whatever is asked, a sound file answers with its own bytes from the offset on, or
      not at all. */
  lemma {:induction false} ReadIsSliceOrFails(img: Image, inode: u32, offset: u32, ulength: u32)
    requires WellFormed(img) && inode < img.inodeCount && Sound(img, img.inodes[inode])
    requires offset <= img.inodes[inode].size
    ensures var o := Read(img, inode, offset, ulength);
            || o == FAILED
            || (&& 0 <= o.result <= img.inodes[inode].size - offset
                && o.data == Contents(img, img.inodes[inode])[offset..offset + o.result])
  {
    var node := img.inodes[inode];
    if offset < node.size { FetchIsSlice(img, node, offset, Wanted(node, offset, ulength)); }
  }

  lemma {:induction false} ReadStaysInside(img: Image, inode: u32, offset: u32, ulength: u32)
    requires WellFormed(img) && inode < img.inodeCount && offset <= img.inodes[inode].size
    ensures var o := Read(img, inode, offset, ulength);
            o.result >= 0 ==> o.result == |o.data| && offset + o.result <= img.inodes[inode].size
  {
  }

  /** When a read inside a file succeeds: exactly if no slot from its first byte's to that
      of the byte after its last names a missing block. */
  lemma {:induction false} ReadSucceedsIff(img: Image, inode: u32, offset: u32, ulength: u32)
    requires WellFormed(img) && inode < img.inodeCount && offset < img.inodes[inode].size
    ensures var node := img.inodes[inode];
            var n := Wanted(node, offset, ulength);
            Read(img, inode, offset, ulength).result != -1 <==>
              (&& Wrap32(offset + ulength) < img.entryCount * BLOCK
               && forall s :: offset / BLOCK <= s <= (offset + n) / BLOCK ==> Valid(img, node, s))
    ensures Read(img, inode, offset, ulength).result != -1 ==>
              Read(img, inode, offset, ulength).result == Wanted(img.inodes[inode], offset, ulength)
  {
  }

  /** A missing inode cannot be read, and at the end of a file or behind it there is
      nothing to read, whatever the bound. */
  lemma {:induction false} ReadAtTheEdges(img: Image, inode: u32, offset: u32, ulength: u32)
    requires WellFormed(img)
    ensures inode >= img.inodeCount ==> Read(img, inode, offset, ulength) == FAILED
    ensures inode < img.inodeCount && offset >= img.inodes[inode].size ==>
              Read(img, inode, offset, ulength) == Outcome(0, [])
  {
  }

  /** A length of 0, or one that is negative as a signed number, reads nothing, and fails only
      for the bound or if the slot of the offset is bad. */
  lemma {:induction false} NothingAskedNothingRead(img: Image, inode: u32, offset: u32, ulength: u32)
    requires WellFormed(img) && inode < img.inodeCount && offset < img.inodes[inode].size
    requires ulength == 0 || ulength >= 0x8000_0000
    ensures Read(img, inode, offset, ulength)
         == if Wrap32(offset + ulength) < Wrap32(img.entryCount * BLOCK)
               && Valid(img, img.inodes[inode], offset / BLOCK)
            then Outcome(0, []) else FAILED
  {
  }

  /** The slot after the last byte counts: a file of exactly one block, complete, cannot be
      read to its end unless a second slot is valid too. */
  lemma {:induction false} BlockBoundaryFails(img: Image, inode: u32)
    requires WellFormed(img) && inode < img.inodeCount && img.entryCount >= 2
    requires var node := img.inodes[inode];
             node.size == BLOCK && Valid(img, node, 0) && !Valid(img, node, 1)
    ensures Read(img, inode, 0, BLOCK).result == -1
    ensures Read(img, inode, 0, BLOCK).data == Blocks(img, img.inodes[inode], 0, 1)
    ensures Read(img, inode, 0, BLOCK - 1) == Outcome(BLOCK - 1, Blocks(img, img.inodes[inode], 0, 1)[..BLOCK - 1])
  {
    var node := img.inodes[inode];
    assert FirstBad(img, node, 0, 2) == 1;
    assert FirstBad(img, node, 0, 1) == 1;
    assert Blocks(img, node, 0, 1) == img.blocks[node.slots[0]] + Blocks(img, node, 1, 1);
    assert BytesAt(img, node, 0, BLOCK) == img.blocks[node.slots[0]];
  }

  // -------------------------------------------------------------------- names

  /** The first entry with this name; a name of all 32 bytes has no terminator. */
  function Lookup(entries: seq<DirEntry>, fname: seq<byte>): (r: Option<DirEntry>)
    ensures r.Some? ==> r.value in entries && CString(r.value.name) == fname
    ensures r == None ==> forall e :: 0 <= e < |entries| ==> CString(entries[e].name) != fname
    decreases |entries|
  {
    if entries == [] then None
    else if CString(entries[0].name) == fname then Some(entries[0])
    else Lookup(entries[1..], fname)
  }

  /** It is the first one. */
  lemma {:induction false} LookupIsFirst(entries: seq<DirEntry>, fname: seq<byte>, i: nat)
    requires i < |entries| && CString(entries[i].name) == fname
    requires forall j :: 0 <= j < i ==> CString(entries[j].name) != fname
    ensures Lookup(entries, fname) == Some(entries[i])
    decreases i
  {
    if i > 0 {
      assert CString(entries[0].name) != fname;
      LookupIsFirst(entries[1..], fname, i - 1);
    }
  }

  // -------------------------------------------------------- reading a file through

  /** The length file_read passes on: 0 asks for the whole size. */
  function Asked(img: Image, inode: u32, nbytes: u32): u32
    requires nbytes == 0 ==> inode < |img.inodes|
  {
    if nbytes == 0 then img.inodes[inode].size else nbytes
  }

  datatype Progress = Progress(data: seq<byte>, position: u32)

  /** The pieces that reads of the given lengths return one after another, and the file
      position they leave. */
  function Pieces(img: Image, inode: u32, position: u32, lengths: seq<u32>): Progress
    requires WellFormed(img) && inode < img.inodeCount
    decreases |lengths|
  {
    if lengths == [] then Progress([], position)
    else
      var o := Read(img, inode, position, Asked(img, inode, lengths[0]));
      if o.result < 0 then Pieces(img, inode, position, lengths[1..])
      else Then(o.data, Pieces(img, inode, Wrap32(position + o.result), lengths[1..]))
  }

  function Then(data: seq<byte>, rest: Progress): Progress {
    Progress(data + rest.data, rest.position)
  }

  /** Where a piece of the file ends. */
  function End(file: seq<byte>, position: nat, length: u32): (r: nat)
    requires position <= |file|
    ensures position <= r <= |file|
  {
    Min(position + length, |file|)
  }

  /** The same on a flat byte string. */
  function FlatPieces(file: seq<byte>, position: nat, lengths: seq<u32>): Progress
    requires position <= |file| < 0x1_0000_0000
    decreases |lengths|
  {
    if lengths == [] then Progress([], position)
    else
      var end := End(file, position, lengths[0]);
      Then(file[position..end], FlatPieces(file, end, lengths[1..]))
  }

  function Total(lengths: seq<u32>): nat
    decreases |lengths|
  {
    if lengths == [] then 0 else lengths[0] + Total(lengths[1..])
  }

  lemma {:induction false} FlatPiecesConcatenate(file: seq<byte>, position: nat, lengths: seq<u32>)
    requires position <= |file| < 0x1_0000_0000
    ensures var end := Min(position + Total(lengths), |file|);
            FlatPieces(file, position, lengths) == Progress(file[position..end], end)
    decreases |lengths|
  {
    if lengths == [] {
      assert file[position..position] == [];
    } else {
      var next := End(file, position, lengths[0]);
      FlatPiecesConcatenate(file, next, lengths[1..]);
      var end := Min(position + Total(lengths), |file|);
      assert file[position..end] == file[position..next] + file[next..end];
    }
  }

  /** The bound a read has to stay below. */
  predicate Bounded(img: Image, inode: u32, length: u32)
    requires inode < |img.inodes|
  {
    0 < length && img.inodes[inode].size + length < img.entryCount * BLOCK
  }

  /** One positive read moves the position to where its piece of the file ends. */
  lemma {:induction false} PieceIsNext(img: Image, inode: u32, position: u32, length: u32, file: seq<byte>)
    requires WellFormed(img) && inode < img.inodeCount && Sound(img, img.inodes[inode])
    requires file == Contents(img, img.inodes[inode])
    requires position <= |file| && Bounded(img, inode, length)
    ensures Read(img, inode, position, Asked(img, inode, length))
         == Outcome(End(file, position, length) - position, file[position..End(file, position, length)])
  {
    ReadIsSlice(img, inode, position, length);
  }

  lemma {:induction false} PiecesStep(img: Image, inode: u32, position: u32, lengths: seq<u32>, end: u32, data: seq<byte>)
    requires WellFormed(img) && inode < img.inodeCount && lengths != [] && position <= end
    requires Read(img, inode, position, Asked(img, inode, lengths[0])) == Outcome(end - position, data)
    ensures Pieces(img, inode, position, lengths) == Then(data, Pieces(img, inode, end, lengths[1..]))
  {
    assert Wrap32(position + (end - position)) == end;
    hide Read, WellFormed, Asked;
  }

  lemma {:induction false} PiecesAreFlat(img: Image, inode: u32, position: u32, lengths: seq<u32>, file: seq<byte>)
    requires WellFormed(img) && inode < img.inodeCount && Sound(img, img.inodes[inode])
    requires file == Contents(img, img.inodes[inode]) && position <= |file|
    requires forall k :: 0 <= k < |lengths| ==> Bounded(img, inode, lengths[k])
    ensures Pieces(img, inode, position, lengths) == FlatPieces(file, position, lengths)
    decreases |lengths|
  {
    if lengths != [] {
      var end := End(file, position, lengths[0]);
      PiecesAreFlat(img, inode, end, lengths[1..], file);
      assert Bounded(img, inode, lengths[0]);
      PieceIsNext(img, inode, position, lengths[0], file);
      PiecesStep(img, inode, position, lengths, end, file[position..end]);
    }
  }

  /** Reads of positive lengths return consecutive pieces of the file. */
  lemma {:induction false} PiecesConcatenate(img: Image, inode: u32, lengths: seq<u32>)
    requires WellFormed(img) && inode < img.inodeCount && Sound(img, img.inodes[inode])
    requires forall k :: 0 <= k < |lengths| ==> Bounded(img, inode, lengths[k])
    ensures var file := Contents(img, img.inodes[inode]);
            var end := Min(Total(lengths), |file|);
            Pieces(img, inode, 0, lengths) == Progress(file[..end], end)
  {
    PiecesAreFlat(img, inode, 0, lengths, Contents(img, img.inodes[inode]));
    FlatPiecesConcatenate(Contents(img, img.inodes[inode]), 0, lengths);
  }
}
