/** Command lines: the program's name and its arguments. */
module Commands {
  import opened Bytes
  import opened Strings
  import Memory

  const ARGS_SIZE: nat := 128

  // --------------------------------------------------------- words of a command

  /** The first position from i on that holds a space, or the end. */
  function WordEnd(s: seq<byte>, i: nat): (r: nat)
    requires i <= |s|
    ensures i <= r <= |s| && (r < |s| ==> s[r] == SPACE)
    ensures forall k :: i <= k < r ==> s[k] != SPACE
    decreases |s| - i
  {
    if i == |s| || s[i] == SPACE then i else WordEnd(s, i + 1)
  }

  function Name(s: seq<byte>): seq<byte> {
    s[NonSpace(s, 0)..WordEnd(s, NonSpace(s, 0))]
  }

  function Arguments(s: seq<byte>): seq<byte> {
    s[NonSpace(s, WordEnd(s, NonSpace(s, 0)))..]
  }

  ghost predicate Spaces(s: seq<byte>) {
    forall k :: 0 <= k < |s| ==> s[k] == SPACE
  }

  /** A command taken apart: spaces, a word, spaces, and what the word is given. */
  ghost predicate Parts(s: seq<byte>, lead: seq<byte>, name: seq<byte>, gap: seq<byte>, rest: seq<byte>) {
    && s == lead + name + gap + rest && Spaces(lead) && Spaces(gap) && SPACE !in name
    && (name == [] ==> gap == [] && rest == []) && (gap == [] ==> rest == [])
    && (rest != [] ==> rest[0] != SPACE)
  }

  lemma {:induction false} SliceOfSpaces(s: seq<byte>, a: nat, b: nat)
    requires a <= b <= |s| && AllSpaces(s, a, b)
    ensures Spaces(s[a..b])
  {
    forall k | 0 <= k < b - a ensures s[a..b][k] == SPACE { assert s[a..b][k] == s[a + k]; }
  }

  lemma {:induction false} SliceOfWord(s: seq<byte>, a: nat, b: nat)
    requires a <= b <= |s| && forall k :: a <= k < b ==> s[k] != SPACE
    ensures SPACE !in s[a..b]
  {
    forall k | 0 <= k < b - a ensures s[a..b][k] != SPACE { assert s[a..b][k] == s[a + k]; }
  }

  lemma {:induction false} PartsAt(s: seq<byte>, a: nat, b: nat, c: nat)
    requires a <= b <= c <= |s| && AllSpaces(s, 0, a) && AllSpaces(s, b, c)
    requires forall k :: a <= k < b ==> s[k] != SPACE
    requires a < |s| ==> s[a] != SPACE
    requires b < |s| ==> s[b] == SPACE
    requires c < |s| ==> s[c] != SPACE
    ensures Parts(s, s[..a], s[a..b], s[b..c], s[c..])
  {
    Fourths(s, a, b, c);
    SliceOfSpaces(s, 0, a);
    assert s[0..a] == s[..a];
    SliceOfSpaces(s, b, c);
    SliceOfWord(s, a, b);
    if c < |s| { assert s[c..][0] == s[c]; }
  }

  /** Every command has such parts, and they are the name and the arguments. */
  lemma {:induction false} PartsOfCommand(s: seq<byte>)
    ensures var a, b := NonSpace(s, 0), WordEnd(s, NonSpace(s, 0));
            Parts(s, s[..a], Name(s), s[b..NonSpace(s, b)], Arguments(s))
  {
    var a := NonSpace(s, 0);
    var b := WordEnd(s, a);
    var c := NonSpace(s, b);
    NonSpaceIs(s, 0, a);
    NonSpaceIs(s, b, c);
    hide NonSpace, WordEnd, Parts, AllSpaces;
    PartsAt(s, a, b, c);
  }

  lemma {:induction false} Fourths(s: seq<byte>, a: nat, b: nat, c: nat)
    requires a <= b <= c <= |s|
    ensures s == s[..a] + s[a..b] + s[b..c] + s[c..]
  {
    assert s[a..] == s[a..b] + s[b..];
    assert s[b..] == s[b..c] + s[c..];
  }

  lemma {:induction false} SliceWasSpaces(s: seq<byte>, a: nat, b: nat)
    requires a <= b <= |s| && Spaces(s[a..b])
    ensures AllSpaces(s, a, b)
  {
    forall k | a <= k < b ensures s[k] == SPACE { assert s[a..b][k - a] == s[k]; }
  }

  lemma {:induction false} SliceWasWord(s: seq<byte>, a: nat, b: nat)
    requires a <= b <= |s| && SPACE !in s[a..b]
    ensures forall k :: a <= k < b ==> s[k] != SPACE
  {
    forall k | a <= k < b ensures s[k] != SPACE { assert s[a..b][k - a] == s[k]; }
  }

  lemma {:induction false} OneWay(s: seq<byte>, a: nat, b: nat, c: nat)
    requires a <= b <= c <= |s| && Parts(s, s[..a], s[a..b], s[b..c], s[c..])
    ensures NonSpace(s, 0) == a && WordEnd(s, a) == b && NonSpace(s, b) == c
  {
    assert s[0..a] == s[..a];
    SliceWasSpaces(s, 0, a);
    SliceWasWord(s, a, b);
    SliceWasSpaces(s, b, c);
    assert c < |s| ==> s[c..][0] == s[c];
    NonSpaceIs(s, 0, a);
    WordEndIs(s, a, b);
    NonSpaceIs(s, b, c);
  }

  lemma {:induction false} OnePartition(s: seq<byte>, lead: seq<byte>, name: seq<byte>, gap: seq<byte>, rest: seq<byte>)
    requires Parts(s, lead, name, gap, rest)
    ensures Name(s) == name && Arguments(s) == rest
  {
    var a, b := |lead|, |lead| + |name|;
    var c := b + |gap|;
    assert s[..a] == lead && s[a..b] == name && s[b..c] == gap && s[c..] == rest;
    hide Parts;
    OneWay(s, a, b, c);
  }

  lemma {:induction false} WordEndIs(s: seq<byte>, i: nat, r: nat)
    requires i <= r <= |s| && (r < |s| ==> s[r] == SPACE) && forall k :: i <= k < r ==> s[k] != SPACE
    ensures WordEnd(s, i) == r
  {
  }

  // -------------------------------------------------------- the argument buffer

  /** Every byte that is stored lies in the buffer: the name, and behind a space the
      arguments, each with its NUL. */
  predicate Fits(s: seq<byte>) {
    |Name(s)| + |Arguments(s)| + (if WordEnd(s, NonSpace(s, 0)) == |s| then 1 else 2) <= ARGS_SIZE
  }

  /** The name, a NUL, the arguments, and NULs up to the end. */
  function Layout(s: seq<byte>): (r: seq<byte>)
    requires Fits(s)
    ensures |r| == ARGS_SIZE
  {
    Name(s) + [NUL] + Arguments(s) + Zeros(ARGS_SIZE - 1 - |Name(s)| - |Arguments(s)|)
  }

  /** Where the second string of a block of two starts. */
  function Second(raw: seq<byte>): nat {
    |CString(raw)| + 1
  }

  lemma {:induction false} ArgumentsFollow(raw: seq<byte>, name: seq<byte>, arguments: seq<byte>)
    requires NUL !in name && NUL !in arguments && name + [NUL] + arguments + [NUL] <= raw
    ensures CString(raw) == name && Second(raw) == |name| + 1 < |raw|
    ensures CString(raw[|name| + 1..]) == arguments
    ensures NUL in raw && NUL in raw[|name| + 1..]
  {
    var n, m, tail := |name|, |arguments|, raw[|name| + 1..];
    assert raw[..n] == name && raw[n] == NUL;
    CStringIs(raw, n);
    assert tail[..m] == arguments && tail[m] == NUL;
    CStringIs(tail, m);
  }

  /** A process finds its name in its block, and its arguments behind it. */
  lemma {:induction false} BlockHoldsBoth(s: seq<byte>)
    requires Fits(s) && |Name(s)| + |Arguments(s)| + 2 <= ARGS_SIZE && NUL !in s
    ensures CString(Layout(s)) == Name(s) && Second(Layout(s)) < ARGS_SIZE
    ensures CString(Layout(s)[Second(Layout(s))..]) == Arguments(s)
    ensures Terminated(Layout(s)) && Terminated(Layout(s)[Second(Layout(s))..])
  {
    assert NUL !in Name(s) && NUL !in Arguments(s);
    var name, arguments := Name(s), Arguments(s);
    hide CString, Name, Arguments, Fits;
    assert name + [NUL] + arguments + [NUL] <= Layout(s);
    ArgumentsFollow(Layout(s), name, arguments);
  }

  function Zeros(n: nat): (r: seq<byte>)
    ensures |r| == n
  {
    seq(n, _ => NUL)
  }

  lemma {:induction false} OneMore(prefix: seq<byte>, n: nat, b: byte)
    requires n > 0
    ensures (prefix + Zeros(n))[|prefix| := b] == (prefix + [b]) + Zeros(n - 1)
  {
  }

  lemma {:induction false} LayoutOfWord(s: seq<byte>, zeroed: seq<byte>)
    requires Fits(s) && WordEnd(s, NonSpace(s, 0)) == |s| && zeroed == Name(s) + Zeros(ARGS_SIZE - |Name(s)|)
    ensures zeroed[|Name(s)| := NUL] == Layout(s)
  {
  }

  /** What is left when the separator of the copied rest is cleared. */
  lemma {:induction false} LayoutOfBoth(s: seq<byte>, zeroed: seq<byte>, cmd: seq<byte>)
    requires Fits(s) && zeroed == Name(s) + Zeros(ARGS_SIZE - |Name(s)|)
    requires |Name(s)| + |Arguments(s)| + 2 <= ARGS_SIZE
    requires cmd == Splice(zeroed, |Name(s)|, [SPACE] + Arguments(s) + [NUL])
    ensures |cmd| == ARGS_SIZE && cmd[|Name(s)| := NUL] == Layout(s)
  {
  }

  /** Splits a command, in memory up to its NUL, into a block. */
  method ParseCommand(ucmd: seq<byte>) returns (cmd: array<byte>)
    requires Terminated(ucmd) && Fits(CString(ucmd))
    ensures fresh(cmd) && cmd[..] == Layout(CString(ucmd))
  {
    ghost var s := CString(ucmd);
    cmd := new byte[ARGS_SIZE](_ => NUL);
    assert cmd[..] == Zeros(ARGS_SIZE);
    hide *;
    var l := StrLen(ucmd);
    var i := StrNonSpace(ucmd, l);
    var j;
    i, j := CopyWord(cmd, ucmd, i, l);
    ghost var zeroed := cmd[..];
    if i < l {
      CopyRest(cmd, j, ucmd, i, l);
      LayoutOfBoth(s, zeroed, cmd[..]);
    } else {
      LayoutOfWord(s, zeroed);
    }
    ghost var copied := cmd[..];
    cmd[j] := NUL;
    assert cmd[..] == copied[j := NUL];
  }

  method PutByte(cmd: array<byte>, j: nat, b: byte, ghost word: seq<byte>)
    requires j == |word| < cmd.Length == ARGS_SIZE && cmd[..] == word + Zeros(ARGS_SIZE - j)
    modifies cmd
    ensures cmd[..] == (word + [b]) + Zeros(ARGS_SIZE - (j + 1))
  {
    OneMore(word, ARGS_SIZE - j, b);
    cmd[j] := b;
  }

  /** Bytes from i on that are no spaces go to the front of the block. */
  method CopyWord(cmd: array<byte>, ucmd: seq<byte>, from: nat, l: nat) returns (i: nat, j: nat)
    requires Terminated(ucmd) && Fits(CString(ucmd)) && l == |CString(ucmd)| && from == NonSpace(CString(ucmd), 0)
    requires cmd[..] == Zeros(ARGS_SIZE)
    modifies cmd
    ensures i == WordEnd(CString(ucmd), from) && j == |Name(CString(ucmd))|
    ensures cmd[..] == Name(CString(ucmd)) + Zeros(ARGS_SIZE - |Name(CString(ucmd))|)
  {
    ghost var s := CString(ucmd);
    TerminatedString(ucmd);
    assert Name(s) == s[from..WordEnd(s, from)] && |Name(s)| < ARGS_SIZE;
    assert s == ucmd[..l];
    hide *;
    i, j := CopyUntilSpace(cmd, ucmd, from, l, WordEnd(s, from));
  }

  method CopyUntilSpace(cmd: array<byte>, ucmd: seq<byte>, from: nat, l: nat, ghost end: nat) returns (i: nat, j: nat)
    requires from <= end <= l <= |ucmd| && end - from < ARGS_SIZE && cmd[..] == Zeros(ARGS_SIZE)
    requires forall k :: from <= k < end ==> ucmd[k] != SPACE
    requires end < l ==> ucmd[end] == SPACE
    modifies cmd
    ensures i == end && j == end - from && cmd[..] == ucmd[from..end] + Zeros(ARGS_SIZE - j)
  {
    i, j := from, 0;
    assert ucmd[from..from] == [];
    while i < l && ucmd[i] != SPACE
      invariant from <= i <= end && j == i - from
      invariant cmd.Length == ARGS_SIZE && cmd[..] == ucmd[from..i] + Zeros(ARGS_SIZE - j)
    {
      PutByte(cmd, j, ucmd[i], ucmd[from..i]);
      assert ucmd[from..i] + [ucmd[i]] == ucmd[from..i + 1];
      i := i + 1;
      j := j + 1;
    }
  }

  /** The last space of the gap. */
  method LastSpace(ucmd: seq<byte>, from: nat, l: nat) returns (i: nat)
    requires from < l <= |ucmd| && ucmd[from] == SPACE
    ensures from <= i < l && AllSpaces(ucmd, from, i + 1) && (i + 1 < l ==> ucmd[i + 1] != SPACE)
  {
    i := from;
    while i + 1 < l && ucmd[i + 1] == SPACE
      invariant from <= i < l && AllSpaces(ucmd, from, i + 1)
    {
      i := i + 1;
    }
  }

  lemma {:induction false} RestIsArguments(s: seq<byte>, i: nat, from: nat)
    requires from <= i < |s| && from == WordEnd(s, NonSpace(s, 0))
    requires AllSpaces(s, from, i + 1) && (i + 1 < |s| ==> s[i + 1] != SPACE)
    ensures s[i..] == [SPACE] + Arguments(s)
  {
    NonSpaceIs(s, from, i + 1);
  }

  /** From the last space of the gap on, the rest of the command goes behind the name. */
  method CopyRest(cmd: array<byte>, j: nat, ucmd: seq<byte>, from: nat, l: nat)
    requires Terminated(ucmd) && Fits(CString(ucmd)) && l == |CString(ucmd)| && from < l && ucmd[from] == SPACE
    requires from == WordEnd(CString(ucmd), NonSpace(CString(ucmd), 0))
    requires cmd.Length == ARGS_SIZE && j == |Name(CString(ucmd))|
    modifies cmd
    ensures |Arguments(CString(ucmd))| + j + 2 <= ARGS_SIZE
    ensures cmd[..] == Splice(old(cmd[..]), j, [SPACE] + Arguments(CString(ucmd)) + [NUL])
  {
    ghost var s, was := CString(ucmd), cmd[..];
    assert s == ucmd[..l] && j + |Arguments(s)| + 2 <= ARGS_SIZE;
    hide NonSpace, WordEnd, Name, Arguments, Fits, CString;
    cmd[j] := NUL;
    var i := LastSpace(ucmd, from, l);
    RestIsArguments(s, i, from);
    StrCpy(cmd, j, ucmd, i, l);
  }

  /** Where the command's first byte that is no space is. */
  method StrNonSpace(s: seq<byte>, l: nat) returns (i: nat)
    requires Terminated(s) && l == |CString(s)|
    ensures i == NonSpace(CString(s), 0)
  {
    i := 0;
    while i < l
      invariant i <= l && forall k :: 0 <= k < i ==> CString(s)[k] == SPACE
    {
      if s[i] != SPACE { break; }
      i := i + 1;
    }
    NonSpaceIs(CString(s), 0, i);
  }

  lemma {:induction false} StringAndNul(tail: seq<byte>, n: nat)
    requires Terminated(tail)
    ensures Min(|CString(tail)| + 1, n) <= |tail|
    ensures tail[..Min(|CString(tail)| + 1, n)] == Take(CString(tail) + [NUL], n)
    ensures tail != [] && (tail[0] == NUL <==> CString(tail) == [])
  {
    TerminatedString(tail);
    EndsAt(tail, 0);
    assert tail[..|CString(tail)| + 1] == CString(tail) + [NUL];
  }

  /** A string and its NUL, cut to nbytes, are copied within memory. */
  method CopyString(mem: array<byte>, dest: nat, src: nat, nbytes: nat)
    requires src <= mem.Length && Terminated(mem[src..])
    requires var n := Min(|CString(mem[src..])| + 1, nbytes);
             dest + n <= mem.Length && (dest <= src || src + n <= dest)
    modifies mem
    ensures var copied := Take(CString(old(mem[src..])) + [NUL], nbytes);
            dest + |copied| <= mem.Length && mem[..] == Splice(old(mem[..]), dest, copied)
  {
    ghost var tail := mem[src..];
    StringAndNul(tail, nbytes);
    hide CString, Splice, Take;
    var n := StrLen(mem[src..]);
    var count := Min(n + 1, nbytes);
    assert mem[src..src + count] == tail[..count];
    Memory.MemCopy(mem, dest, src, count);
  }

  /** The arguments from a process's block at raw, cut to nbytes; second is where the
      second string of the block starts. */
  method GetArgs(mem: array<byte>, raw: nat, buf: Option<nat>, nbytes: int, ghost second: nat, ghost arguments: seq<byte>)
    returns (r: int)
    requires raw <= mem.Length && Terminated(mem[raw..]) && second == raw + Second(mem[raw..])
    requires second <= mem.Length && Terminated(mem[second..]) && arguments == CString(mem[second..])
    requires buf.Some? && nbytes >= 0 ==>
               var n := Min(|arguments| + 1, nbytes);
               buf.value + n <= mem.Length && (buf.value <= second || second + n <= buf.value)
    modifies mem
    ensures r == if buf == None || nbytes < 0 || arguments == [] then -1 else 0
    ensures r == -1 ==> mem[..] == old(mem[..])
    ensures r == 0 ==> var copied := Take(arguments + [NUL], nbytes);
              buf.value + |copied| <= mem.Length && mem[..] == Splice(old(mem[..]), buf.value, copied)
  {
    var l := StrLen(mem[raw..]);
    var at := raw + l + 1;
    assert at == second;
    StringAndNul(mem[second..], 0);
    hide *;
    if buf == None || nbytes < 0 || mem[at] == NUL { return -1; }
    CopyString(mem, buf.value, at, nbytes);
    return 0;
  }
}
