/** The eight file descriptors of a process. */
module Descriptors {
  import opened Bytes
  import opened FileDriver
  import opened FileSystem
  import opened Strings

  const FD_START: nat := 2
  const FD_CNT: nat := 8

  datatype FileOps = StdIn | StdOut | RtcFile | DirectoryFile | RegularFile

  datatype FileDesc = FileDesc(jumptable: Option<FileOps>, inode: u32, position: u32, inUse: bool)

  const UNUSED := FileDesc(None, 0, 0, false)

  /** The descriptors a new process starts with. */
  const INITIAL: seq<FileDesc> := [FileDesc(Some(StdIn), 0, 0, true), FileDesc(Some(StdOut), 0, 0, true),
                                   UNUSED, UNUSED, UNUSED, UNUSED, UNUSED, UNUSED]

  /** An image whose regular files have inodes of readable size. */
  ghost predicate Readable(img: Image) {
    && WellFormed(img)
    && (forall i :: 0 <= i < |img.inodes| ==> img.inodes[i].size < SLOTS * BLOCK)
    && (forall e :: e in img.entries && e.filetype == Regular ==> e.inode < img.inodeCount)
  }

  // ---------------------------------------------------------- the three calls

  function OpsFor(t: FileType): Option<FileOps> {
    match t
    case Rtc => Some(RtcFile)
    case Directory => Some(DirectoryFile)
    case Regular => Some(RegularFile)
    case Other => None
  }

  /** The least descriptor from i on that is not in use, or 8. */
  function FirstUnused(fds: seq<FileDesc>, i: nat): (r: nat)
    requires |fds| == FD_CNT && i <= FD_CNT
    ensures i <= r <= FD_CNT && (r < FD_CNT ==> !fds[r].inUse)
    ensures forall k :: i <= k < r ==> fds[k].inUse
    decreases FD_CNT - i
  {
    if i == FD_CNT || !fds[i].inUse then i else FirstUnused(fds, i + 1)
  }

  /** The descriptor open would hand out for a name, or -1. */
  function Opened(fds: seq<FileDesc>, entries: seq<DirEntry>, name: seq<byte>): (fd: int)
    requires |fds| == FD_CNT
    ensures fd == -1 || FD_START <= fd < FD_CNT
  {
    var dentry := if name == [] then None else Lookup(entries, name);
    var fd := FirstUnused(fds, FD_START);
    if dentry == None || fd == FD_CNT || OpsFor(dentry.value.filetype) == None then -1 else fd
  }

  function WithOpened(fds: seq<FileDesc>, entries: seq<DirEntry>, name: seq<byte>): (r: seq<FileDesc>)
    requires |fds| == FD_CNT
    ensures |r| == FD_CNT
  {
    var fd := Opened(fds, entries, name);
    if fd == -1 then fds
    else
      var dentry := Lookup(entries, name).value;
      fds[fd := FileDesc(OpsFor(dentry.filetype), if dentry.filetype == Regular then dentry.inode else 0, 0, true)]
  }

  predicate Closes(fds: seq<FileDesc>, fd: int)
    requires |fds| == FD_CNT
  {
    FD_START <= fd < FD_CNT && fds[fd].inUse && fds[fd].jumptable.Some?
  }

  function WithClosed(fds: seq<FileDesc>, fd: int): (r: seq<FileDesc>)
    requires |fds| == FD_CNT
    ensures |r| == FD_CNT
  {
    if Closes(fds, fd) then fds[fd := UNUSED] else fds
  }

  predicate Reads(fds: seq<FileDesc>, fd: int, nbytes: int)
    requires |fds| == FD_CNT
  {
    0 <= fd < FD_CNT && 0 <= nbytes < 0x8000_0000 && fds[fd].inUse && fds[fd].jumptable.Some?
  }

  predicate ReadsFile(fds: seq<FileDesc>, fd: int, nbytes: int)
    requires |fds| == FD_CNT
  {
    Reads(fds, fd, nbytes) && fds[fd].jumptable == Some(RegularFile)
  }

  /** What a read of a regular file answers. */
  function FileRead(fds: seq<FileDesc>, img: Image, fd: int, nbytes: int): Outcome
    requires |fds| == FD_CNT && ReadsFile(fds, fd, nbytes) && WellFormed(img) && fds[fd].inode < img.inodeCount
  {
    Read(img, fds[fd].inode, fds[fd].position, Asked(img, fds[fd].inode, nbytes))
  }

  function Advance(fds: seq<FileDesc>, img: Image, fd: int, nbytes: int): (r: seq<FileDesc>)
    requires |fds| == FD_CNT && WellFormed(img)
    requires ReadsFile(fds, fd, nbytes) ==> fds[fd].inode < img.inodeCount
    ensures |r| == FD_CNT
  {
    if !ReadsFile(fds, fd, nbytes) || FileRead(fds, img, fd, nbytes).result < 0 then fds
    else fds[fd := fds[fd].(position := Wrap32(fds[fd].position + FileRead(fds, img, fd, nbytes).result))]
  }

  // -------------------------------------------------------------- any run of them

  datatype Call = OpenCall(name: seq<byte>) | CloseCall(fd: int) | ReadCall(fd: int, nbytes: int)

  /** The descriptors, and for each what its reads have returned since it was opened. */
  datatype Session = Session(fds: seq<FileDesc>, returned: seq<seq<byte>>)

  const FRESH := Session(INITIAL, [[], [], [], [], [], [], [], []])

  /** What every run of calls keeps. */
  ghost predicate Inv(s: Session, img: Image) {
    && |s.fds| == FD_CNT && |s.returned| == FD_CNT
    && (forall i :: 0 <= i < FD_CNT ==> Kept(s.fds[i], s.returned[i], img))
    && s.fds[0].jumptable == Some(StdIn) && s.fds[1].jumptable == Some(StdOut)
  }

  ghost predicate Kept(fd: FileDesc, returned: seq<byte>, img: Image) {
    && (fd.inUse <==> fd.jumptable.Some?)
    && (fd.jumptable == Some(RegularFile) ==>
          && fd.inode < |img.inodes| && fd.position == |returned| <= img.inodes[fd.inode].size
          && (WellFormed(img) && Sound(img, img.inodes[fd.inode]) ==>
                returned == Contents(img, img.inodes[fd.inode])[..fd.position]))
  }

  function Step(s: Session, img: Image, c: Call): (r: Session)
    requires Inv(s, img) && Readable(img)
    ensures Inv(r, img)
  {
    match c
    case OpenCall(name) =>
      var fd := Opened(s.fds, img.entries, name);
      if fd == -1 then s else Session(WithOpened(s.fds, img.entries, name), s.returned[fd := []])
    case CloseCall(fd) =>
      if Closes(s.fds, fd) then Session(WithClosed(s.fds, fd), s.returned[fd := []]) else s
    case ReadCall(fd, nbytes) =>
      if !ReadsFile(s.fds, fd, nbytes) then s
      else
        assert Kept(s.fds[fd], s.returned[fd], img);
        var o := FileRead(s.fds, img, fd, nbytes);
        ReadKeeps(s.fds[fd], s.returned[fd], img, Asked(img, s.fds[fd].inode, nbytes));
        if o.result < 0 then s
        else Session(Advance(s.fds, img, fd, nbytes), s.returned[fd := s.returned[fd] + o.data])
  }

  lemma {:induction false} PrefixGrows(file: seq<byte>, p: nat, n: nat)
    requires p + n <= |file|
    ensures file[..p] + file[p..p + n] == file[..p + n]
  {
  }

  lemma {:induction false} ReadKeeps(fd: FileDesc, returned: seq<byte>, img: Image, n: u32)
    requires Kept(fd, returned, img) && Readable(img) && fd.jumptable == Some(RegularFile)
    ensures var o := Read(img, fd.inode, fd.position, n);
            o.result >= 0 ==>
              Kept(fd.(position := Wrap32(fd.position + o.result)), returned + o.data, img)
  {
    var node := img.inodes[fd.inode];
    var o := Read(img, fd.inode, fd.position, n);
    ReadStaysInside(img, fd.inode, fd.position, n);
    hide Read, Contents, Sound, WellFormed;
    if o.result >= 0 {
      assert Wrap32(fd.position + o.result) == fd.position + o.result;
      if Sound(img, node) {
        ReadIsSliceOrFails(img, fd.inode, fd.position, n);
        PrefixGrows(Contents(img, node), fd.position, o.result);
      }
    }
  }

  function Run(s: Session, img: Image, calls: seq<Call>): (r: Session)
    requires Inv(s, img) && Readable(img)
    ensures Inv(r, img)
    decreases |calls|
  {
    if calls == [] then s else Run(Step(s, img, calls[0]), img, calls[1..])
  }

  /** After any calls of a process: a descriptor is in use exactly if it has a jump table,
      standard input and output are open, and each regular file has returned its first
      position bytes since it was opened. */
  lemma {:induction false} AfterAnyCalls(img: Image, calls: seq<Call>, i: nat)
    requires Readable(img) && i < FD_CNT
    ensures Inv(FRESH, img)
    ensures var s := Run(FRESH, img, calls);
            && (s.fds[i].inUse <==> s.fds[i].jumptable.Some?)
            && s.fds[0].inUse && s.fds[1].inUse
            && (s.fds[i].jumptable == Some(RegularFile) ==>
                  && s.fds[i].inode < img.inodeCount && s.fds[i].position == |s.returned[i]|
                  && (Sound(img, img.inodes[s.fds[i].inode]) ==>
                        s.returned[i] <= Contents(img, img.inodes[s.fds[i].inode])))
  {
    assert forall k :: 0 <= k < FD_CNT ==> Kept(INITIAL[k], FRESH.returned[k], img);
    var s := Run(FRESH, img, calls);
    assert Kept(s.fds[i], s.returned[i], img) && Kept(s.fds[0], s.returned[0], img) && Kept(s.fds[1], s.returned[1], img);
  }

  /** Open hands out the least unused descriptor from 2 on, with the operations of the
      entry's type and at position 0, and touches no other; it fails exactly for an unknown
      name or type or when all six are taken. */
  lemma {:induction false} OpenTakesLeast(s: Session, img: Image, name: seq<byte>)
    requires Inv(s, img) && Readable(img)
    ensures var fd := Opened(s.fds, img.entries, name);
            var dentry := Lookup(img.entries, name);
            && (fd == -1 <==> (|| name == [] || dentry == None || dentry.value.filetype == Other
                               || forall k :: FD_START <= k < FD_CNT ==> s.fds[k].jumptable.Some?))
            && (fd == -1 ==> WithOpened(s.fds, img.entries, name) == s.fds)
            && (fd != -1 ==>
                  && s.fds[fd].jumptable == None
                  && (forall k :: FD_START <= k < fd ==> s.fds[k].jumptable.Some?))
    ensures var fd := Opened(s.fds, img.entries, name);
            var r := WithOpened(s.fds, img.entries, name);
            fd != -1 ==>
              && r[fd].inUse && r[fd].position == 0
              && (forall k :: 0 <= k < FD_CNT && k != fd ==> r[k] == s.fds[k])
              && match Lookup(img.entries, name).value.filetype
                 case Regular =>
                   r[fd].jumptable == Some(RegularFile) && r[fd].inode == Lookup(img.entries, name).value.inode
                 case Rtc => r[fd].jumptable == Some(RtcFile) && r[fd].inode == 0
                 case Directory => r[fd].jumptable == Some(DirectoryFile) && r[fd].inode == 0
                 case Other => false
  {
    assert forall k :: 0 <= k < FD_CNT ==> Kept(s.fds[k], s.returned[k], img);
  }

  /** A close that succeeds releases the descriptor, and no other. */
  lemma {:induction false} CloseReleases(fds: seq<FileDesc>, fd: int)
    requires |fds| == FD_CNT && Closes(fds, fd)
    ensures var r := WithClosed(fds, fd);
            && r[fd].jumptable == None && !r[fd].inUse && r[fd].inode == 0 && r[fd].position == 0
            && !Closes(r, fd) && (forall nbytes: nat :: !Reads(r, fd, nbytes))
            && forall k :: 0 <= k < FD_CNT && k != fd ==> r[k] == fds[k]
  {
  }

  /** The flags and tables of two lots of descriptors agree. */
  ghost predicate SameUse(fds: seq<FileDesc>, other: seq<FileDesc>) {
    |fds| == |other| == FD_CNT
    && forall k :: 0 <= k < FD_CNT ==> fds[k].inUse == other[k].inUse && fds[k].jumptable == other[k].jumptable
  }

  lemma {:induction false} SameUseSameOpen(fds: seq<FileDesc>, other: seq<FileDesc>, i: nat)
    requires SameUse(fds, other) && i <= FD_CNT
    ensures FirstUnused(fds, i) == FirstUnused(other, i)
    decreases FD_CNT - i
  {
    if i < FD_CNT { SameUseSameOpen(fds, other, i + 1); }
  }

  /** Opening and closing again leaves all as it was: whatever is opened next gets the
      descriptor it would have got before. */
  lemma {:induction false} OpenCloseRestores(s: Session, img: Image, name: seq<byte>, next: seq<byte>)
    requires Inv(s, img) && Readable(img) && Opened(s.fds, img.entries, name) != -1
    ensures var fd := Opened(s.fds, img.entries, name);
            var r := Step(Step(s, img, OpenCall(name)), img, CloseCall(fd));
            && SameUse(r.fds, s.fds)
            && Opened(r.fds, img.entries, next) == Opened(s.fds, img.entries, next)
  {
    var fd := Opened(s.fds, img.entries, name);
    var open := Step(s, img, OpenCall(name));
    var r := Step(open, img, CloseCall(fd));
    OpenTakesLeast(s, img, name);
    assert Kept(s.fds[fd], s.returned[fd], img);
    CloseReleases(open.fds, fd);
    SameUseSameOpen(r.fds, s.fds, FD_START);
  }

  // ------------------------------------------------------- a file read piece by piece

  /** Anything but closing this descriptor, or a read of it beyond the bound. */
  predicate Undisturbed(c: Call, img: Image, fd: nat, inode: u32)
    requires inode < |img.inodes|
  {
    match c
    case OpenCall(_) => true
    case CloseCall(other) => other != fd
    case ReadCall(other, nbytes) =>
      other == fd ==> 0 <= nbytes < 0x8000_0000 && Bounded(img, inode, Length(nbytes, img.inodes[inode].size))
  }

  predicate AllUndisturbed(calls: seq<Call>, img: Image, fd: nat, inode: u32)
    requires inode < |img.inodes|
  {
    forall k :: 0 <= k < |calls| ==> Undisturbed(calls[k], img, fd, inode)
  }

  /** The length a read of n bytes means: 0 is as many as the file holds. */
  function Length(n: u32, size: u32): u32 {
    if n == 0 then size else n
  }

  /** The lengths that the reads of this descriptor ask for. */
  function LengthsOn(calls: seq<Call>, fd: nat, size: u32): (r: seq<u32>)
    decreases |calls|
  {
    if calls == [] then []
    else if calls[0].ReadCall? && calls[0].fd == fd && 0 <= calls[0].nbytes < 0x8000_0000
    then [Length(calls[0].nbytes, size)] + LengthsOn(calls[1..], fd, size)
    else LengthsOn(calls[1..], fd, size)
  }

  /** The descriptor is open on this file, at this position. */
  ghost predicate OpenOn(s: Session, fd: nat, inode: u32, position: u32) {
    && FD_START <= fd < |s.fds| && s.fds[fd] == FileDesc(Some(RegularFile), inode, position, true)
  }

  lemma {:induction false} OthersLeaveIt(s: Session, img: Image, c: Call, fd: nat, inode: u32, position: u32)
    requires Inv(s, img) && Readable(img) && inode < |img.inodes| && OpenOn(s, fd, inode, position)
    requires Undisturbed(c, img, fd, inode) && !(c.ReadCall? && c.fd == fd)
    ensures OpenOn(Step(s, img, c), fd, inode, position) && Step(s, img, c).returned[fd] == s.returned[fd]
  {
  }

  lemma {:induction false} OwnReadAdvances(s: Session, img: Image, n: u32, fd: nat, inode: u32, position: u32, file: seq<byte>)
    requires Inv(s, img) && Readable(img) && OpenOn(s, fd, inode, position)
    requires inode < img.inodeCount && Sound(img, img.inodes[inode]) && file == Contents(img, img.inodes[inode])
    requires position <= |file| && n < 0x8000_0000 && Bounded(img, inode, Length(n, |file|))
    ensures var end := End(file, position, Length(n, |file|));
            && OpenOn(Step(s, img, ReadCall(fd, n)), fd, inode, end)
            && Step(s, img, ReadCall(fd, n)).returned[fd] == s.returned[fd] + file[position..end]
  {
    hide Read, Contents, Sound, WellFormed;
    var length := Length(n, |file|);
    PieceIsNext(img, inode, position, length, file);
    assert Asked(img, inode, n) == Asked(img, inode, length);
    assert Wrap32(position + (End(file, position, length) - position)) == End(file, position, length);
  }

  lemma {:induction false} ReadsArePieces(s: Session, img: Image, calls: seq<Call>, fd: nat, inode: u32, position: u32, file: seq<byte>)
    requires Inv(s, img) && Readable(img) && OpenOn(s, fd, inode, position)
    requires inode < img.inodeCount && Sound(img, img.inodes[inode]) && file == Contents(img, img.inodes[inode])
    requires position <= |file| && AllUndisturbed(calls, img, fd, inode)
    ensures var pieces := FlatPieces(file, position, LengthsOn(calls, fd, |file|));
            && Run(s, img, calls).returned[fd] == s.returned[fd] + pieces.data
            && OpenOn(Run(s, img, calls), fd, inode, pieces.position)
    decreases |calls|
  {
    if calls == [] {
      assert s.returned[fd] + [] == s.returned[fd];
    } else {
      var c, m, rest := calls[0], Step(s, img, calls[0]), calls[1..];
      assert Undisturbed(c, img, fd, inode) && AllUndisturbed(rest, img, fd, inode) && |m.returned| == FD_CNT;
      hide Contents, Sound, WellFormed, Step, Inv, OpenOn, FlatPieces;
      if c.ReadCall? && c.fd == fd {
        var length := Length(c.nbytes, |file|);
        var end := End(file, position, length);
        OwnReadAdvances(s, img, c.nbytes, fd, inode, position, file);
        ReadsArePieces(m, img, rest, fd, inode, end, file);
        PiecesOfMore(s.returned[fd], file, position, length, LengthsOn(rest, fd, |file|));
      } else {
        OthersLeaveIt(s, img, c, fd, inode, position);
        ReadsArePieces(m, img, rest, fd, inode, position, file);
      }
    }
  }

  lemma {:induction false} PiecesOfMore(prior: seq<byte>, file: seq<byte>, position: nat, n: u32, lengths: seq<u32>)
    requires position <= |file| < 0x1_0000_0000
    ensures var end := End(file, position, n);
            var whole, rest := FlatPieces(file, position, [n] + lengths), FlatPieces(file, end, lengths);
            && whole.position == rest.position
            && prior + whole.data == prior + file[position..end] + rest.data
  {
    assert ([n] + lengths)[1..] == lengths;
  }

  /** A regular file that is opened and then read returns its bytes from the beginning on,
      piece by piece, whatever is opened, closed and read on other descriptors in between,
      even of the same file. */
  lemma {:induction false} OpenedFileIsRead(s: Session, img: Image, name: seq<byte>, calls: seq<Call>)
    requires Inv(s, img) && Readable(img) && Opened(s.fds, img.entries, name) != -1
    requires var e := Lookup(img.entries, name);
             e.Some? && e.value.filetype == Regular && e.value.inode < img.inodeCount
             && Sound(img, img.inodes[e.value.inode])
             && AllUndisturbed(calls, img, Opened(s.fds, img.entries, name), e.value.inode)
    ensures var fd := Opened(s.fds, img.entries, name);
            var inode := Lookup(img.entries, name).value.inode;
            var file := Contents(img, img.inodes[inode]);
            var pieces := FlatPieces(file, 0, LengthsOn(calls, fd, |file|));
            && Run(Step(s, img, OpenCall(name)), img, calls).returned[fd] == pieces.data
            && OpenOn(Run(Step(s, img, OpenCall(name)), img, calls), fd, inode, pieces.position)
  {
    var fd := Opened(s.fds, img.entries, name);
    var inode := Lookup(img.entries, name).value.inode;
    var file := Contents(img, img.inodes[inode]);
    var open := Step(s, img, OpenCall(name));
    OpenTakesLeast(s, img, name);
    assert open.returned[fd] == [] && OpenOn(open, fd, inode, 0);
    ReadsArePieces(open, img, calls, fd, inode, 0, file);
    assert [] + FlatPieces(file, 0, LengthsOn(calls, fd, |file|)).data == FlatPieces(file, 0, LengthsOn(calls, fd, |file|)).data;
  }

  /** The descriptor a call is about, if it gets that far. */
  function Target(s: Session, img: Image, c: Call): int
    requires |s.fds| == FD_CNT
  {
    match c
    case OpenCall(name) => Opened(s.fds, img.entries, name)
    case CloseCall(fd) => fd
    case ReadCall(fd, nbytes) => fd
  }

  predicate Spares(s: Session, img: Image, calls: seq<Call>, i: nat)
    requires Inv(s, img) && Readable(img)
    decreases |calls|
  {
    calls == [] || (Target(s, img, calls[0]) != i && Spares(Step(s, img, calls[0]), img, calls[1..], i))
  }

  /** Calls about other descriptors, even on the same file, leave one untouched. */
  lemma {:induction false} DescriptorsAreIndependent(s: Session, img: Image, calls: seq<Call>, i: nat)
    requires Inv(s, img) && Readable(img) && i < FD_CNT && Spares(s, img, calls, i)
    ensures Run(s, img, calls).fds[i] == s.fds[i] && Run(s, img, calls).returned[i] == s.returned[i]
    decreases |calls|
  {
    if calls != [] { DescriptorsAreIndependent(Step(s, img, calls[0]), img, calls[1..], i); }
  }

  /** Standard input and output are never the target of an open, and cannot be closed: a read
      of either reaches its device at any time, for every size, and moves no position. */
  lemma {:induction false} StandardStaysOpen(s: Session, img: Image, c: Call, i: nat, nbytes: nat)
    requires Inv(s, img) && Readable(img) && i < FD_START && nbytes < 0x8000_0000
    ensures Step(s, img, c).fds[i] == s.fds[i]
    ensures Reads(s.fds, i, nbytes) && !ReadsFile(s.fds, i, nbytes)
  {
    assert Kept(s.fds[i], s.returned[i], img);
  }

  // ---------------------------------------------------------------- the process

  class Process {
    const fds: array<FileDesc>

    ghost predicate Valid()
      reads this, fds
    {
      fds.Length == FD_CNT
    }

    constructor ()
      ensures Valid() && fresh(fds) && fds[..] == INITIAL
    {
      fds := new FileDesc[FD_CNT];
      new;
      var i := 0;
      while i < FD_START
        invariant i <= FD_START && fds[..i] == INITIAL[..i]
        modifies fds
      {
        fds[i] := FileDesc(Some(if i == 0 then StdIn else StdOut), 0, 0, true);
        i := i + 1;
      }
      while i < FD_CNT
        invariant FD_START <= i <= FD_CNT && fds[..i] == INITIAL[..i]
        modifies fds
      {
        fds[i] := UNUSED;
        i := i + 1;
      }
    }

    /** filename None stands for a null pointer. */
    method Open(files: Filesystem, filename: Option<seq<byte>>) returns (fd: int)
      requires Valid() && WellFormed(files.bootblk) && (filename.Some? ==> Terminated(filename.value))
      modifies fds
      ensures var name := if filename == None then [] else CString(filename.value);
              && fd == Opened(old(fds[..]), files.bootblk.entries, name)
              && fds[..] == WithOpened(old(fds[..]), files.bootblk.entries, name)
    {
      if filename == None { return -1; }
      TerminatedString(filename.value);
      if filename.value[0] == NUL { return -1; }
      var dentry := files.ReadDentryByName(filename.value);
      if dentry == None { return -1; }
      ghost var was := fds[..];
      fd := FD_START;
      while fd < FD_CNT
        invariant FD_START <= fd <= FD_CNT && FirstUnused(was, FD_START) == FirstUnused(was, fd) && fds[..] == was
      {
        if !fds[fd].inUse {
          var ops := OpsFor(dentry.value.filetype);
          if ops == None { return -1; }
          fds[fd] := FileDesc(ops, if dentry.value.filetype == Regular then dentry.value.inode else 0, 0, true);
          return;
        }
        fd := fd + 1;
      }
      return -1;
    }

    method Close(fd: int) returns (r: int)
      requires Valid()
      modifies fds
      ensures fds[..] == WithClosed(old(fds[..]), fd)
      ensures r == if Closes(old(fds[..]), fd) then 0 else -1
      ensures r == 0 ==> fds[fd].jumptable == None && !fds[fd].inUse
    {
      if fd < FD_START || fd >= FD_CNT { return -1; }
      if !fds[fd].inUse || fds[fd].jumptable == None { return -1; }
      fds[fd] := UNUSED;
      return 0;
    }

    /** A read; other is what a device that is not a file answers. */
    method Read(files: Filesystem, fd: int, buf: array?<byte>, nbytes: int, other: int) returns (r: int)
      requires Valid() && Readable(files.bootblk) && nbytes < 0x8000_0000
      requires ReadsFile(fds[..], fd, nbytes) ==> fds[fd].inode < files.bootblk.inodeCount
      requires ReadsFile(fds[..], fd, nbytes) && buf != null ==>
                 |FileRead(fds[..], files.bootblk, fd, nbytes).data| <= buf.Length
      modifies fds, buf
      ensures buf == null || !Reads(old(fds[..]), fd, nbytes) ==> r == -1 && fds[..] == old(fds[..])
      ensures buf != null && Reads(old(fds[..]), fd, nbytes) ==>
                fds[..] == Advance(old(fds[..]), files.bootblk, fd, nbytes)
      ensures buf != null && ReadsFile(old(fds[..]), fd, nbytes) ==>
                var o := FileRead(old(fds[..]), files.bootblk, fd, nbytes);
                r == o.result && buf[..] == Splice(old(buf[..]), 0, o.data)
      ensures buf != null && !ReadsFile(old(fds[..]), fd, nbytes) ==> buf[..] == old(buf[..])
    {
      if buf == null || fd < 0 || fd >= FD_CNT || nbytes < 0 || !fds[fd].inUse || fds[fd].jumptable == None {
        return -1;
      }
      if fds[fd].jumptable != Some(RegularFile) { return other; }
      r := ReadFile(files, fd, buf, nbytes);
    }

    /** The regular file's own read. */
    method ReadFile(files: Filesystem, fd: nat, buf: array<byte>, nbytes: u32) returns (r: int)
      requires Valid() && Readable(files.bootblk) && ReadsFile(fds[..], fd, nbytes)
      requires fds[fd].inode < files.bootblk.inodeCount
      requires |FileRead(fds[..], files.bootblk, fd, nbytes).data| <= buf.Length
      modifies fds, buf
      ensures fds[..] == Advance(old(fds[..]), files.bootblk, fd, nbytes)
      ensures var o := FileRead(old(fds[..]), files.bootblk, fd, nbytes);
              r == o.result && buf[..] == Splice(old(buf[..]), 0, o.data)
    {
      var d := fds[fd];
      var asked := if nbytes == 0 then files.bootblk.inodes[d.inode].size else nbytes;
      r := files.ReadData(d.inode, d.position, buf, 0, asked);
      if r >= 0 {
        fds[fd] := d.(position := Wrap32(d.position + r));
      }
    }
  }
}
