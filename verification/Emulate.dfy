/** The system calls as emulated on the development host: splitting a command in place and
    joining a program's arguments again. */
module Emulate {
  import opened Bytes
  import opened Strings

  const LIMIT: nat := 1023

  predicate Delimiter(c: byte) {
    c == SPACE || c == NEWLINE
  }

  /** The first delimiter from i on, or the end. */
  function Stop(s: seq<byte>, i: nat): (r: nat)
    requires i <= |s|
    ensures i <= r <= |s|
    decreases |s| - i
  {
    if i < |s| && !Delimiter(s[i]) then Stop(s, i + 1) else i
  }

  ghost predicate NoDelimiter(s: seq<byte>, i: nat, j: nat)
    requires i <= j <= |s|
  {
    forall k :: i <= k < j ==> !Delimiter(s[k])
  }

  lemma {:induction false} StopIs(s: seq<byte>, i: nat, r: nat)
    requires i <= r <= |s|
    ensures Stop(s, i) == r <==> NoDelimiter(s, i, r) && (r < |s| ==> Delimiter(s[r]))
    decreases |s| - i
  {
    if i < r {
      StopIs(s, i + 1, r);
      assert !Delimiter(s[i]) || !NoDelimiter(s, i, r);
    }
  }

  /** The words of a string; a newline where a word would start ends the string. */
  function Words(s: seq<byte>): seq<seq<byte>>
    decreases |s|
  {
    var a := NonSpace(s, 0);
    if a == |s| || s[a] == NEWLINE then []
    else
      var b := Stop(s, a);
      [s[a..b]] + if b < |s| then Words(s[b + 1..]) else []
  }

  lemma {:induction false} StopsLater(s: seq<byte>, a: nat)
    requires a == NonSpace(s, 0) < |s| && s[a] != NEWLINE
    ensures Stop(s, a) > a
  {
    NonSpaceIs(s, 0, a);
    assert !Delimiter(s[a]);
  }

  lemma {:induction false} WordThenMore(s: seq<byte>, a: nat, b: nat, w: seq<byte>, more: seq<byte>)
    requires a == NonSpace(s, 0) < |s| && s[a] != NEWLINE && b == Stop(s, a) < |s|
    requires w == s[a..b] && more == s[b + 1..]
    ensures Words(s) == [w] + Words(more)
  {
  }

  lemma {:induction false} WordAtEnd(s: seq<byte>, a: nat, w: seq<byte>)
    requires a == NonSpace(s, 0) < |s| && s[a] != NEWLINE && Stop(s, a) == |s| && w == s[a..]
    ensures Words(s) == [w]
  {
    assert s[a..|s|] == s[a..];
  }

  /** Words and the delimiters between them take up the bytes of a command. */
  lemma {:induction false} FewWords(s: seq<byte>)
    ensures 2 * |Words(s)| <= |s| + 1
    decreases |s|
  {
    var a := NonSpace(s, 0);
    if a < |s| && s[a] != NEWLINE {
      var b := Stop(s, a);
      StopsLater(s, a);
      if b < |s| {
        WordThenMore(s, a, b, s[a..b], s[b + 1..]);
        FewWords(s[b + 1..]);
      } else {
        WordAtEnd(s, a, s[a..]);
      }
    }
  }

  // ----------------------------------------------------------- what words are

  predicate IsWord(w: seq<byte>) {
    w != [] && forall k :: 0 <= k < |w| ==> !Delimiter(w[k]) && w[k] != NUL
  }

  function Blanks(n: nat): (r: seq<byte>)
    ensures |r| == n
  {
    seq(n, _ => SPACE)
  }

  /** The words with that many spaces before each of them and after the last. */
  function Spread(words: seq<seq<byte>>, gaps: seq<nat>): seq<byte>
    requires |gaps| == |words| + 1
    decreases |words|
  {
    if words == [] then Blanks(gaps[0]) else Blanks(gaps[0]) + words[0] + Spread(words[1..], gaps[1..])
  }

  ghost predicate Separate(words: seq<seq<byte>>, gaps: seq<nat>) {
    && |gaps| == |words| + 1
    && (forall k :: 0 <= k < |words| ==> IsWord(words[k]))
    && (forall k :: 0 < k < |words| ==> gaps[k] > 0)
  }

  /** Spaces, a word, and the rest of the string from its delimiter on. */
  ghost predicate Begins(s: seq<byte>, n: nat, w: seq<byte>, rest: seq<byte>) {
    && |s| == n + |w| + |rest| && AllSpaces(s, 0, n)
    && s[n..n + |w|] == w && s[n + |w|..] == rest
    && IsWord(w) && (rest != [] ==> Delimiter(rest[0]))
  }

  lemma {:induction false} BeginsAs(n: nat, w: seq<byte>, rest: seq<byte>)
    requires IsWord(w) && (rest != [] ==> Delimiter(rest[0]))
    ensures Begins(Blanks(n) + w + rest, n, w, rest)
  {
  }

  lemma {:induction false} FirstBounds(s: seq<byte>, n: nat, w: seq<byte>, rest: seq<byte>)
    requires Begins(s, n, w, rest)
    ensures NonSpace(s, 0) == n < |s| && s[n] != NEWLINE && Stop(s, n) == n + |w|
  {
    var b := n + |w|;
    forall k | n <= k < b ensures !Delimiter(s[k]) { assert s[k] == w[k - n]; }
    assert !Delimiter(s[n]);
    assert rest != [] ==> s[b] == rest[0];
    NonSpaceIs(s, 0, n);
    StopIs(s, n, b);
  }

  /** The first word and what is left behind its delimiter. */
  lemma {:induction false} FirstWord(s: seq<byte>, n: nat, w: seq<byte>, rest: seq<byte>)
    requires Begins(s, n, w, rest) && rest != []
    ensures Words(s) == [w] + Words(rest[1..])
  {
    FirstBounds(s, n, w, rest);
    WordThenMore(s, n, n + |w|, w, rest[1..]);
  }

  lemma {:induction false} OnlyWord(s: seq<byte>, n: nat, w: seq<byte>)
    requires Begins(s, n, w, [])
    ensures Words(s) == [w]
  {
    FirstBounds(s, n, w, []);
    WordAtEnd(s, n, w);
  }

  lemma {:induction false} NoWord(s: seq<byte>, n: nat, end: seq<byte>)
    requires s == Blanks(n) + end && (end == [] || end[0] == NEWLINE)
    ensures Words(s) == []
  {
    assert AllSpaces(s, 0, n);
    assert end != [] ==> s[n] == end[0];
    NonSpaceIs(s, 0, n);
  }

  /** One blank less in front of the first gap changes no word. */
  lemma {:induction false} BlankDropped(words: seq<seq<byte>>, gaps: seq<nat>, end: seq<byte>)
    requires |gaps| == |words| + 1 && gaps[0] > 0
    ensures (Spread(words, gaps) + end)[1..] == Spread(words, gaps[0 := gaps[0] - 1]) + end
    ensures (Spread(words, gaps) + end)[0] == SPACE
  {
    assert Blanks(gaps[0])[1..] == Blanks(gaps[0] - 1);
    if words != [] { assert gaps[0 := gaps[0] - 1][1..] == gaps[1..]; }
  }

  lemma {:induction false} SpreadShape(words: seq<seq<byte>>, gaps: seq<nat>, end: seq<byte>)
    requires |gaps| == |words| + 1 && words != []
    ensures Spread(words, gaps) + end == Blanks(gaps[0]) + words[0] + (Spread(words[1..], gaps[1..]) + end)
  {
  }

  lemma {:induction false} SeparateRest(words: seq<seq<byte>>, gaps: seq<nat>)
    requires Separate(words, gaps) && words != []
    ensures IsWord(words[0]) && (|words| > 1 ==> gaps[1] > 0)
    ensures gaps[1] > 0 ==> Separate(words[1..], gaps[1..][0 := gaps[1] - 1])
  {
  }

  /** However many spaces separate them, and with or without a final newline, the words are
      found again. */
  lemma {:induction false} SpreadIsSplit(words: seq<seq<byte>>, gaps: seq<nat>, end: seq<byte>)
    requires Separate(words, gaps) && (end == [] || end == [NEWLINE])
    ensures Words(Spread(words, gaps) + end) == words
    decreases |words|
  {
    if words == [] {
      NoWord(Spread(words, gaps) + end, gaps[0], end);
    } else {
      var w, more, later := words[0], words[1..], gaps[1..];
      SpreadShape(words, gaps, end);
      SeparateRest(words, gaps);
      if later[0] > 0 {
        BlankDropped(more, later, end);
        BeginsAs(gaps[0], w, Spread(more, later) + end);
        FirstWord(Spread(words, gaps) + end, gaps[0], w, Spread(more, later) + end);
        SpreadIsSplit(more, later[0 := later[0] - 1], end);
      } else {
        assert more == [] && Spread(more, later) + end == end;
        EndsInWord(gaps[0], w, end);
      }
    }
  }

  lemma {:induction false} EndsInWord(n: nat, w: seq<byte>, end: seq<byte>)
    requires IsWord(w) && (end == [] || end == [NEWLINE])
    ensures Words(Blanks(n) + w + end) == [w]
  {
    BeginsAs(n, w, end);
    if end == [] {
      OnlyWord(Blanks(n) + w + end, n, w);
    } else {
      FirstWord(Blanks(n) + w + end, n, w, end);
      NoWord(end[1..], 0, []);
    }
  }

  /** A word, a space, and a spread of more words. */
  lemma {:induction false} SpreadAfterWord(s: seq<byte>, n: nat, w: seq<byte>, rest: seq<byte>, words: seq<seq<byte>>, gaps: seq<nat>)
    requires s == Blanks(n) + w + [SPACE] + rest && IsWord(w)
    requires Separate(words, gaps) && rest == Spread(words, gaps)
    ensures Separate([w] + words, [n, gaps[0] + 1] + gaps[1..])
    ensures s == Spread([w] + words, [n, gaps[0] + 1] + gaps[1..])
  {
    var more := [n, gaps[0] + 1] + gaps[1..];
    SpreadWithOneMore(words, gaps);
    assert more[1..] == gaps[0 := gaps[0] + 1] && ([w] + words)[1..] == words;
    assert Spread([w] + words, more) == Blanks(n) + w + ([SPACE] + rest);
  }

  lemma {:induction false} SpreadOfWord(s: seq<byte>, n: nat, w: seq<byte>)
    requires s == Blanks(n) + w && IsWord(w)
    ensures Separate([w], [n, 0]) && s == Spread([w], [n, 0])
  {
    assert Spread([], [0]) == [] && [n, 0][1..] == [0];
  }

  /** No byte that would end a string or a command. */
  ghost predicate Plain(s: seq<byte>) {
    forall k :: 0 <= k < |s| ==> s[k] != NUL && s[k] != NEWLINE
  }

  lemma {:induction false} WordOf(s: seq<byte>, a: nat, b: nat)
    requires Plain(s) && a == NonSpace(s, 0) < |s| && b == Stop(s, a)
    ensures IsWord(s[a..b]) && s[..a] == Blanks(a)
    ensures b < |s| ==> s[b..] == [SPACE] + s[b + 1..]
  {
    NonSpaceIs(s, 0, a);
    StopIs(s, a, b);
    assert Delimiter(s[a]) ==> a == b;
  }

  lemma {:induction false} LastWord(s: seq<byte>, a: nat, end: seq<byte>)
    requires Plain(s) && a == NonSpace(s, 0) < |s| && Stop(s, a) == |s| && (end == [] || end == [NEWLINE])
    ensures Words(s + end) == [s[a..]]
    ensures Separate([s[a..]], [a, 0]) && s == Spread([s[a..]], [a, 0])
  {
    WordOf(s, a, |s|);
    assert s[a..|s|] == s[a..];
    assert s == Blanks(a) + s[a..] by { assert s == s[..a] + s[a..]; }
    assert s + end == Blanks(a) + s[a..] + end;
    EndsInWord(a, s[a..], end);
    SpreadOfWord(s, a, s[a..]);
  }

  lemma {:induction false} InnerWord(s: seq<byte>, a: nat, b: nat, end: seq<byte>)
    requires Plain(s) && a == NonSpace(s, 0) < |s| && b == Stop(s, a) < |s|
    ensures Words(s + end) == [s[a..b]] + Words(s[b + 1..] + end)
    ensures IsWord(s[a..b]) && s == Blanks(a) + s[a..b] + [SPACE] + s[b + 1..]
  {
    WordOf(s, a, b);
    assert s == Blanks(a) + s[a..b] + [SPACE] + s[b + 1..] by {
      assert s == s[..a] + s[a..b] + s[b..];
    }
    var rest := [SPACE] + (s[b + 1..] + end);
    assert s + end == Blanks(a) + s[a..b] + rest;
    BeginsAs(a, s[a..b], rest);
    FirstWord(s + end, a, s[a..b], rest);
    assert rest[1..] == s[b + 1..] + end;
  }

  /** Every command with no NUL and no newline but a final one is its words, spread. */
  lemma {:induction false} SplitIsSpread(s: seq<byte>, end: seq<byte>) returns (gaps: seq<nat>)
    requires Plain(s) && (end == [] || end == [NEWLINE])
    ensures Separate(Words(s + end), gaps) && s == Spread(Words(s + end), gaps)
    decreases |s|
  {
    var a := NonSpace(s, 0);
    var b := Stop(s, a);
    if a == |s| {
      gaps := [a];
      NonSpaceIs(s, 0, a);
      assert s == Blanks(a);
      NoWord(s + end, a, end);
    } else if b == |s| {
      gaps := [a, 0];
      LastWord(s, a, end);
    } else {
      InnerWord(s, a, b, end);
      var more := SplitIsSpread(s[b + 1..], end);
      gaps := [a, more[0] + 1] + more[1..];
      SpreadAfterWord(s, a, s[a..b], s[b + 1..], Words(s[b + 1..] + end), more);
    }
  }

  lemma {:induction false} SpreadWithOneMore(words: seq<seq<byte>>, gaps: seq<nat>)
    requires |gaps| == |words| + 1
    ensures Spread(words, gaps[0 := gaps[0] + 1]) == [SPACE] + Spread(words, gaps)
  {
    BlankDropped(words, gaps[0 := gaps[0] + 1], []);
    var more := gaps[0 := gaps[0] + 1];
    assert more[0 := more[0] - 1] == gaps;
    assert Spread(words, more) + [] == Spread(words, more) && Spread(words, gaps) + [] == Spread(words, gaps);
    assert Spread(words, more) == [Spread(words, more)[0]] + Spread(words, more)[1..];
  }

  // ----------------------------------------------------------------- splitting

  const DOT_SLASH: seq<byte> := ['.' as int, '/' as int]

  /** The program, named in the current directory, and its arguments. */
  function Argv(s: seq<byte>): seq<seq<byte>> {
    var b := Stop(s, 0);
    [DOT_SLASH + s[..b]] + if b < |s| then Words(s[b + 1..]) else []
  }

  lemma {:induction false} NoSpaceFirst(s: seq<byte>)
    requires s != []
    ensures NonSpace(s, 0) == 0 <==> s[0] != SPACE
    ensures s[0] == SPACE ==> Stop(s, 0) == 0
  {
    NonSpaceIs(s, 0, 0);
    StopIs(s, 0, 0);
  }

  lemma {:induction false} FirstOfWords(s: seq<byte>)
    requires Words(s) != []
    ensures var a := NonSpace(s, 0);
            var b := Stop(s, a);
            && a < |s| && b > a
            && Words(s) == [s[a..b]] + if b < |s| then Words(s[b + 1..]) else []
  {
    hide NonSpace, Stop;
    StopsLater(s, NonSpace(s, 0));
  }

  lemma {:induction false} SpaceFirst(s: seq<byte>, w: seq<byte>, more: seq<seq<byte>>)
    requires s != [] && s[0] == SPACE && w != []
    ensures Argv(s)[0] == DOT_SLASH && Argv(s) != [DOT_SLASH + w] + more
  {
    NoSpaceFirst(s);
    hide Words, Stop;
    assert s[..0] == [] && DOT_SLASH + [] == DOT_SLASH;
    assert |DOT_SLASH + w| > |DOT_SLASH| && ([DOT_SLASH + w] + more)[0] == DOT_SLASH + w;
  }

  lemma {:induction false} NameFirst(s: seq<byte>)
    requires Words(s) != [] && s != [] && s[0] != SPACE
    ensures Argv(s) == [DOT_SLASH + Words(s)[0]] + Words(s)[1..]
  {
    NoSpaceFirst(s);
    FirstOfWords(s);
    var b := Stop(s, 0);
    var more := if b < |s| then Words(s[b + 1..]) else [];
    hide Words, Stop, NonSpace;
    assert s[..b] == s[0..b] && Words(s)[1..] == more;
  }

  /** The arguments are the command's words, the program's with ./ in front, exactly if no
      space comes first: with one, the program is ./ alone and every word its argument. */
  lemma {:induction false} ArgvIsWordsIff(s: seq<byte>)
    requires Words(s) != []
    ensures Argv(s) == [DOT_SLASH + Words(s)[0]] + Words(s)[1..] <==> s[0] != SPACE
    ensures s[0] == SPACE ==> Argv(s)[0] == DOT_SLASH
  {
    FirstOfWords(s);
    hide Words, Stop, NonSpace, Argv;
    if s[0] == SPACE { SpaceFirst(s, Words(s)[0], Words(s)[1..]); } else { NameFirst(s); }
  }

  lemma {:induction false} ArgvIsShort(s: seq<byte>)
    ensures 2 * |Argv(s)| <= |s| + 3
  {
    var b := Stop(s, 0);
    if b < |s| { FewWords(s[b + 1..]); }
  }

  /** A string of the list: it ends before limit, at a NUL. */
  ghost predicate Stored(mem: seq<byte>, p: Option<nat>, w: seq<byte>, limit: nat) {
    && p.Some? && p.value + |w| <= limit < |mem| && NUL !in w
    && mem[p.value..p.value + |w|] == w && mem[p.value + |w|] == NUL
  }

  lemma {:induction false} StoredIsString(mem: seq<byte>, p: Option<nat>, w: seq<byte>, limit: nat)
    requires Stored(mem, p, w, limit)
    ensures p.value <= |mem| && CString(mem[p.value..]) == w
  {
    CStringIs(mem[p.value..], |w|);
  }

  ghost predicate AllStored(mem: seq<byte>, args: seq<Option<nat>>, words: seq<seq<byte>>, limit: nat) {
    |words| <= |args| && forall k :: 0 <= k < |words| ==> Stored(mem, args[k], words[k], limit)
  }

  /** Ending a string at or behind the limit spoils no string before it. */
  lemma {:induction false} CutKeepsStored(mem: seq<byte>, args: seq<Option<nat>>, words: seq<seq<byte>>, limit: nat, q: nat, limit': nat)
    requires AllStored(mem, args, words, limit) && limit <= q < |mem| && limit <= limit' < |mem|
    ensures AllStored(mem[q := NUL], args, words, limit')
  {
    forall k | 0 <= k < |words| ensures Stored(mem[q := NUL], args[k], words[k], limit') {
      assert Stored(mem, args[k], words[k], limit);
      var p := args[k].value;
      assert mem[q := NUL][p..p + |words[k]|] == mem[p..p + |words[k]|];
    }
  }

  lemma {:induction false} OneMoreStored(mem: seq<byte>, args: seq<Option<nat>>, words: seq<seq<byte>>, limit: nat, p: nat, w: seq<byte>)
    requires AllStored(mem, args, words, limit) && |words| < |args| && Stored(mem, Some(p), w, limit)
    ensures AllStored(mem, args[|words| := Some(p)], words + [w], limit)
  {
    var args' := args[|words| := Some(p)];
    forall k | 0 <= k < |words| + 1 ensures Stored(mem, args'[k], (words + [w])[k], limit) {
      if k < |words| { assert Stored(mem, args[k], words[k], limit); }
    }
  }

  /** The text still to be split, from p on. */
  ghost predicate Holds(mem: seq<byte>, p: nat, t: seq<byte>) {
    p + |t| < |mem| && mem[p..p + |t|] == t && mem[p + |t|] == NUL && NUL !in t
  }

  lemma {:induction false} HoldsAt(mem: seq<byte>, p: nat, t: seq<byte>, k: nat)
    requires Holds(mem, p, t) && k <= |t|
    ensures mem[p + k] == if k < |t| then t[k] else NUL
    ensures mem[p + k] == NUL <==> k == |t|
  {
    if k < |t| { assert mem[p..p + |t|][k] == t[k]; }
  }

  /** Cutting off a word at its delimiter, or finding it cut off at the end. */
  lemma {:induction false} Cut(mem: seq<byte>, p: nat, t: seq<byte>, a: nat, b: nat)
    requires Holds(mem, p, t) && a <= b <= |t|
    ensures Stored(mem[p + b := NUL], Some(p + a), t[a..b], p + b)
    ensures b < |t| ==> Holds(mem[p + b := NUL], p + b + 1, t[b + 1..])
    ensures b == |t| ==> mem[p + b := NUL] == mem && Holds(mem, p + b, [])
  {
    forall k | 0 <= k <= |t| ensures mem[p + k] == if k < |t| then t[k] else NUL { HoldsAt(mem, p, t, k); }
    assert mem[p + a..p + b] == t[a..b];
    assert forall k :: 0 <= k < |t[a..b]| ==> t[a..b][k] == t[a + k];
  }

  method SkipBlanks(buf: array<byte>, from: nat, ghost t: seq<byte>) returns (scan: nat)
    requires Holds(buf[..], from, t)
    ensures scan == from + NonSpace(t, 0)
  {
    scan := from;
    HoldsAt(buf[..], from, t, 0);
    while buf[scan] == SPACE
      invariant from <= scan <= from + |t| && NonSpace(t, 0) == NonSpace(t, scan - from)
      invariant buf[scan] == if scan - from < |t| then t[scan - from] else NUL
      decreases from + |t| - scan
    {
      scan := scan + 1;
      HoldsAt(buf[..], from, t, scan - from);
    }
  }

  method SkipWord(buf: array<byte>, from: nat, ghost t: seq<byte>, ghost p: nat) returns (scan: nat)
    requires Holds(buf[..], p, t) && p <= from <= p + |t|
    ensures scan == p + Stop(t, from - p)
  {
    scan := from;
    HoldsAt(buf[..], p, t, scan - p);
    while buf[scan] != NUL && buf[scan] != SPACE && buf[scan] != NEWLINE
      invariant from <= scan <= p + |t| && Stop(t, from - p) == Stop(t, scan - p)
      invariant buf[scan] == if scan - p < |t| then t[scan - p] else NUL
      decreases p + |t| - scan
    {
      scan := scan + 1;
      HoldsAt(buf[..], p, t, scan - p);
    }
    HoldsAt(buf[..], p, t, scan - p);
  }

  /** Finds the next word and cuts it off. */
  method NextWord(buf: array<byte>, from: nat, ghost t: seq<byte>)
    returns (found: bool, start: nat, scan: nat, ghost end: nat, ghost w: seq<byte>, ghost rest: seq<byte>)
    requires Holds(buf[..], from, t)
    modifies buf
    ensures from <= end <= scan < buf.Length && buf[..] == old(buf[..])[end := NUL]
    ensures !found ==> Words(t) == []
    ensures found ==> Words(t) == [w] + Words(rest) && Stored(buf[..], Some(start), w, end)
    ensures found ==> Holds(buf[..], scan, rest) && |rest| < |t|
  {
    w, rest := [], [];
    scan := SkipBlanks(buf, from, t);
    ghost var a := NonSpace(t, 0);
    HoldsAt(buf[..], from, t, a);
    start, end := scan, scan;
    if buf[scan] == NUL || buf[scan] == NEWLINE {
      buf[scan] := NUL;
      return false, start, scan, end, w, rest;
    }
    found := true;
    scan := SkipWord(buf, start, t, from);
    end := scan;
    scan, w, rest := EndWord(buf, scan, from, t, a);
  }

  /** Ends the word that was just scanned, unless the text ends there anyway. */
  method EndWord(buf: array<byte>, end: nat, ghost p: nat, ghost t: seq<byte>, ghost a: nat)
    returns (scan: nat, ghost w: seq<byte>, ghost rest: seq<byte>)
    requires Holds(buf[..], p, t) && a == NonSpace(t, 0) < |t| && t[a] != NEWLINE && end == p + Stop(t, a)
    modifies buf
    ensures end <= scan < buf.Length && buf[..] == old(buf[..])[end := NUL]
    ensures Words(t) == [w] + Words(rest) && Stored(buf[..], Some(p + a), w, end)
    ensures Holds(buf[..], scan, rest) && |rest| < |t|
  {
    hide Words, NonSpace, Stop;
    ghost var b := Stop(t, a);
    scan, w, rest := end, t[a..b], [];
    Cut(buf[..], p, t, a, b);
    HoldsAt(buf[..], p, t, b);
    if buf[scan] != NUL {
      rest := t[b + 1..];
      WordThenMore(t, a, b, w, rest);
      buf[scan] := NUL;
      scan := scan + 1;
    } else {
      assert t[a..b] == t[a..];
      WordAtEnd(t, a, w);
      NoWord([], 0, []);
    }
  }

  lemma {:induction false} TextInPlace(mem: seq<byte>, s: seq<byte>)
    requires |mem| == 1026 && |s| <= LIMIT && NUL !in s
    requires mem[..2] == DOT_SLASH && mem[2..2 + |s|] == s && mem[2 + |s|] == NUL
    ensures Holds(mem, 2, s)
  {
  }

  /** The program's own name is cut off with the prefix in front of it. */
  lemma {:induction false} FirstCut(mem: seq<byte>, s: seq<byte>, b: nat)
    requires Holds(mem, 2, s) && mem[..2] == DOT_SLASH && b <= |s|
    ensures Stored(mem[2 + b := NUL], Some(0), DOT_SLASH + s[..b], 2 + b)
    ensures b < |s| ==> Holds(mem[2 + b := NUL], 2 + b + 1, s[b + 1..])
    ensures b == |s| ==> mem[2 + b := NUL] == mem
  {
    Cut(mem, 2, s, 0, b);
    assert mem[0..2 + b] == mem[..2] + mem[2..2 + b];
    assert mem[2..2 + b] == s[..b];
  }

  /** The words found so far are stored; the others are in the text from scan on. */
  ghost predicate Progress(mem: seq<byte>, args: seq<Option<nat>>, scan: nat, t: seq<byte>,
                           found: seq<seq<byte>>, all: seq<seq<byte>>) {
    Holds(mem, scan, t) && AllStored(mem, args, found, scan) && all == found + Words(t) && |all| < |args|
  }

  lemma {:induction false} WordMoves(t: seq<byte>, w: seq<byte>, rest: seq<byte>, found: seq<seq<byte>>, all: seq<seq<byte>>)
    requires all == found + Words(t) && Words(t) == [w] + Words(rest)
    ensures all == (found + [w]) + Words(rest) && |found| < |all|
  {
  }

  /** One more argument, if there is one. */
  method AddArgument(buf: array<byte>, args: array<Option<nat>>, n: nat, from: nat,
                     ghost t: seq<byte>, ghost found: seq<seq<byte>>, ghost all: seq<seq<byte>>)
    returns (more: bool, scan: nat, ghost w: seq<byte>, ghost rest: seq<byte>)
    requires Progress(buf[..], args[..], from, t, found, all) && n == |found|
    modifies buf, args
    ensures !more ==> found == all && AllStored(buf[..], args[..], all, buf.Length - 1)
    ensures more ==> Progress(buf[..], args[..], scan, rest, found + [w], all) && |rest| < |t|
  {
    ghost var mem, was := buf[..], args[..];
    var start;
    ghost var end;
    more, start, scan, end, w, rest := NextWord(buf, from, t);
    if !more {
      CutKeepsStored(mem, was, found, from, end, buf.Length - 1);
    } else {
      CutKeepsStored(mem, was, found, from, end, scan);
      WordMoves(t, w, rest, found, all);
      OneMoreStored(buf[..], was, found, scan, start, w);
      args[n] := Some(start);
      assert args[..] == was[n := Some(start)];
    }
  }

  /** The loop over the arguments. */
  method SplitArguments(buf: array<byte>, args: array<Option<nat>>, from: nat, ghost text: seq<byte>,
                        ghost first: seq<seq<byte>>, ghost all: seq<seq<byte>>) returns (n: nat)
    requires Progress(buf[..], args[..], from, text, first, all) && |first| == 1
    modifies buf, args
    ensures n == |all| && AllStored(buf[..], args[..], all, buf.Length - 1)
  {
    n := 1;
    var scan := from;
    ghost var t, found := text, first;
    while true
      invariant Progress(buf[..], args[..], scan, t, found, all) && n == |found|
      decreases |t|
    {
      var more;
      ghost var w, rest;
      more, scan, w, rest := AddArgument(buf, args, n, scan, t, found, all);
      if !more { return; }
      n := n + 1;
      found, t := found + [w], rest;
    }
  }

  /** The buffer with the command behind its prefix. */
  method CopyIn(command: seq<byte>, len: nat) returns (buf: array<byte>)
    requires Terminated(command) && len == |CString(command)| <= LIMIT
    ensures fresh(buf) && buf.Length == 1026
    ensures Holds(buf[..], 2, CString(command)) && buf[..2] == DOT_SLASH
  {
    buf := new byte[1026](_ => NUL);
    buf[0], buf[1] := '.' as int, '/' as int;
    StrCpy(buf, 2, command, 0, len);
    assert CString(command)[0..] == CString(command);
    TextInPlace(buf[..], CString(command));
  }

  /** The program's name, and then the loop. */
  method SplitText(buf: array<byte>, args: array<Option<nat>>, ghost s: seq<byte>) returns (n: nat)
    requires Holds(buf[..], 2, s) && buf[..2] == DOT_SLASH && |Argv(s)| < args.Length
    modifies buf, args
    ensures n == |Argv(s)| && AllStored(buf[..], args[..], Argv(s), buf.Length - 1)
  {
    var scan := SkipWord(buf, 2, s, 2);
    ghost var b, mem := Stop(s, 0), buf[..];
    ghost var first, cut: seq<byte> := [DOT_SLASH + s[..b]], mem[2 + b := NUL];
    HoldsAt(mem, 2, s, b);
    FirstCut(mem, s, b);
    args[0], n := Some(0), 1;
    assert AllStored(cut, args[..], first, 2 + b);
    if buf[scan] != NUL {
      buf[scan] := NUL;
      CutKeepsStored(cut, args[..], first, 2 + b, 2 + b, 3 + b);
      assert buf[..] == cut && cut[2 + b := NUL] == cut;
      n := SplitArguments(buf, args, scan + 1, s[b + 1..], first, Argv(s));
    } else {
      CutKeepsStored(mem, args[..], first, 2 + b, 2 + b, buf.Length - 1);
    }
  }

  /** Splits a command, in memory up to its NUL, in place: r is -1 if it is too long, else
      args holds n pointers into buf and a null pointer behind them. */
  method SplitCommand(command: seq<byte>)
    returns (r: int, buf: array<byte>, args: array<Option<nat>>, n: nat)
    requires Terminated(command)
    ensures r == if |CString(command)| > LIMIT then -1 else 0
    ensures r == 0 ==> n == |Argv(CString(command))| < args.Length == 1024 && args[n] == None
    ensures r == 0 ==> forall k :: 0 <= k < n ==>
              args[k].Some? && args[k].value <= buf.Length
              && CString(buf[args[k].value..]) == Argv(CString(command))[k]
  {
    buf, args, n := new byte[0], new Option<nat>[1024](_ => None), 0;
    var len := StrLen(command);
    if len > LIMIT { return -1, buf, args, n; }
    buf := CopyIn(command, len);
    ghost var words := Argv(CString(command));
    ArgvIsShort(CString(command));
    n := SplitText(buf, args, CString(command));
    args[n] := None;
    forall k | 0 <= k < n
      ensures args[k].Some? && args[k].value <= buf.Length && CString(buf[args[k].value..]) == words[k]
    {
      assert Stored(buf[..], args[k], words[k], buf.Length - 1);
      StoredIsString(buf[..], args[k], words[k], buf.Length - 1);
    }
    return 0, buf, args, n;
  }

  // ------------------------------------------------------------------- joining

  /** The words with a single space between each two. */
  function Join(words: seq<seq<byte>>): (r: seq<byte>)
    ensures words != [] ==> |r| >= |words[0]|
    decreases |words|
  {
    if words == [] then [] else if |words| == 1 then words[0] else words[0] + [SPACE] + Join(words[1..])
  }

  function SingleGaps(n: nat): (r: seq<nat>)
    ensures |r| == n + 1
  {
    seq(n + 1, k => if 0 < k < n then 1 else 0)
  }

  lemma {:induction false} JoinIsSpread(words: seq<seq<byte>>)
    ensures Spread(words, SingleGaps(|words|)) == Join(words)
    decreases |words|
  {
    var n := |words|;
    if n == 1 {
      assert words[1..] == [] && SingleGaps(1)[1..] == [0];
      assert Spread([], [0]) == [];
    } else if n > 1 {
      var gaps := SingleGaps(n - 1);
      JoinIsSpread(words[1..]);
      SpreadWithOneMore(words[1..], gaps);
      assert SingleGaps(n)[1..] == gaps[0 := 1];
    }
  }

  /** Splitting a join gives the words back. */
  lemma {:induction false} SplitOfJoin(words: seq<seq<byte>>)
    requires forall k :: 0 <= k < |words| ==> IsWord(words[k])
    ensures Words(Join(words)) == words
  {
    JoinIsSpread(words);
    SpreadIsSplit(words, SingleGaps(|words|), []);
    assert Spread(words, SingleGaps(|words|)) + [] == Join(words);
  }

  lemma {:induction false} FirstIsWord(s: seq<byte>, a: nat, b: nat)
    requires NUL !in s && a == NonSpace(s, 0) < |s| && s[a] != NEWLINE && b == Stop(s, a)
    ensures IsWord(s[a..b])
  {
    StopsLater(s, a);
    StopIs(s, a, b);
    forall k | 0 <= k < b - a ensures !Delimiter(s[a..b][k]) && s[a..b][k] != NUL { assert s[a..b][k] == s[a + k]; }
  }

  lemma {:induction false} WordsAreWords(s: seq<byte>)
    requires NUL !in s
    ensures forall k :: 0 <= k < |Words(s)| ==> IsWord(Words(s)[k])
    decreases |s|
  {
    var a := NonSpace(s, 0);
    if a < |s| && s[a] != NEWLINE {
      var b := Stop(s, a);
      FirstIsWord(s, a, b);
      if b < |s| {
        WordThenMore(s, a, b, s[a..b], s[b + 1..]);
        WordsAreWords(s[b + 1..]);
      } else {
        WordAtEnd(s, a, s[a..]);
        assert s[a..b] == s[a..];
      }
    }
  }

  /** A command's words, joined by the program that got them and split again. */
  lemma {:induction false} SplitJoinSplit(s: seq<byte>)
    requires NUL !in s
    ensures Words(Join(Words(s))) == Words(s)
  {
    WordsAreWords(s);
    SplitOfJoin(Words(s));
  }

  /** The strings a program was started with, from the i-th on. */
  function ArgsFrom(argv: seq<seq<byte>>, i: nat): (r: seq<seq<byte>>)
    requires i <= |argv|
    ensures |r| == |argv| - i
    decreases |argv| - i
  {
    if i == |argv| then [] else [CString(argv[i])] + ArgsFrom(argv, i + 1)
  }

  /** Joins the arguments behind the program's name. The buffer has one byte to spare, for
      the terminator of an argument that just fits. */
  method GetArgs(argv: seq<seq<byte>>, buf: array<byte>, nbytes: int) returns (r: int)
    requires |argv| >= 1 && forall i :: 0 <= i < |argv| ==> Terminated(argv[i])
    requires buf.Length >= 1 && buf.Length >= nbytes + 1
    modifies buf
    ensures r == (if |Join(ArgsFrom(argv, 1))| + 1 <= nbytes then 0 else -1)
    ensures r == 0 ==> buf[..] == Splice(old(buf[..]), 0, Join(ArgsFrom(argv, 1)) + [NUL])
    ensures Same(buf[..], old(buf[..]), if nbytes < 0 then 0 else nbytes + 1)
  {
    hide *;
    ghost var was, all, done: seq<byte> := buf[..], Join(ArgsFrom(argv, 1)), [];
    NothingJoined(argv, was);
    var idx, at, left := 1, 0, nbytes;
    while idx < |argv|
      invariant 1 <= idx <= |argv| && at == |done| && left == nbytes - at && if idx == 1 then done == [] else left >= 0
      invariant Pending(argv, idx, done, all) && at < |was| == buf.Length
      invariant buf[..] == Splice(was, 0, done)
      decreases |argv| - idx
    {
      var fits;
      fits, at, left, done := JoinNext(argv, buf, idx, at, left, nbytes, was, done, all);
      if !fits { return -1; }
      idx := idx + 1;
      if idx >= |argv| { break; }
    }
    if done != all { PendingEnds(argv, done, all); }
    r := EndJoin(buf, at, left, nbytes, was, done);
  }

  lemma {:induction false} NothingJoined(argv: seq<seq<byte>>, was: seq<byte>)
    requires |argv| >= 1
    ensures Pending(argv, 1, [], Join(ArgsFrom(argv, 1))) && Splice(was, 0, []) == was
  {
  }

  /** One argument, and the space behind it if another one follows. */
  method JoinNext(argv: seq<seq<byte>>, buf: array<byte>, idx: nat, at: nat, left: int, nbytes: int,
                  ghost was: seq<byte>, ghost done: seq<byte>, ghost all: seq<byte>)
    returns (fits: bool, next: nat, room: int, ghost more: seq<byte>)
    requires idx < |argv| && Terminated(argv[idx]) && Pending(argv, idx, done, all)
    requires at == |done| < buf.Length == |was| && nbytes < buf.Length
    requires left == nbytes - at && (left >= 0 || done == [])
    requires buf[..] == Splice(was, 0, done)
    modifies buf
    ensures !fits ==> |all| + 1 > nbytes && Same(buf[..], was, if nbytes < 0 then 0 else nbytes + 1)
    ensures fits ==> next == |more| < buf.Length && room == nbytes - next && room >= 0
    ensures fits && idx + 1 == |argv| ==> more == all && buf[..] == Splice(was, 0, more + [NUL])
    ensures fits && idx + 1 < |argv| ==> Pending(argv, idx + 1, more, all) && buf[..] == Splice(was, 0, more)
  {
    hide *;
    JoinStep(argv, idx, done, all);
    fits, next, room, more := false, at, left, done;
    var len := StrLen(argv[idx]);
    if len > left {
      Untouched(was, done, nbytes);
      return;
    }
    PutWord(buf, at, argv[idx], len, was, done);
    more, next, room := more + CString(argv[idx]), next + len, room - len;
    if idx + 1 < |argv| {
      if room < 1 {
        Untouched(was, more + [NUL], nbytes);
        return;
      }
      PutByte(buf, next, SPACE, was, more);
      more, next, room := more + [SPACE], next + 1, room - 1;
    }
    fits := true;
  }

  /** The terminator, if there is room for it. */
  method EndJoin(buf: array<byte>, at: nat, left: int, nbytes: int, ghost was: seq<byte>, ghost done: seq<byte>)
    returns (r: int)
    requires at == |done| < buf.Length == |was| && left == nbytes - at && (left >= 0 || done == [])
    requires buf[..] == Splice(was, 0, done) || buf[..] == Splice(was, 0, done + [NUL])
    requires nbytes < 0 ==> buf[..] == Splice(was, 0, done)
    modifies buf
    ensures r == if at + 1 <= nbytes then 0 else -1
    ensures r == 0 ==> buf[..] == Splice(was, 0, done + [NUL])
    ensures Same(buf[..], was, if nbytes < 0 then 0 else nbytes + 1)
  {
    hide Splice, Same;
    if left < 1 {
      Untouched(was, done, nbytes);
      if nbytes >= 0 { Untouched(was, done + [NUL], nbytes); }
      return -1;
    }
    PutByte(buf, at, NUL, was, done);
    Untouched(was, done + [NUL], nbytes);
    return 0;
  }

  /** Copies a word behind what was joined so far. */
  method PutWord(buf: array<byte>, at: nat, word: seq<byte>, len: nat, ghost was: seq<byte>, ghost done: seq<byte>)
    requires Terminated(word) && len == |CString(word)| && at == |done| && at + len < buf.Length == |was|
    requires buf[..] == Splice(was, 0, done)
    modifies buf
    ensures buf[..] == Splice(was, 0, done + CString(word) + [NUL])
  {
    StrCpy(buf, at, word, 0, len);
    SpliceWord(was, done, CString(word));
  }

  /** Puts a byte there, over the last word's terminator if there is one. */
  method PutByte(buf: array<byte>, at: nat, b: byte, ghost was: seq<byte>, ghost done: seq<byte>)
    requires at == |done| < buf.Length == |was|
    requires buf[..] == Splice(was, 0, done) || buf[..] == Splice(was, 0, done + [NUL])
    modifies buf
    ensures buf[..] == Splice(was, 0, done + [b])
  {
    SpliceByte(was, done, b);
    buf[at] := b;
  }

  /** Equal from index p on. */
  ghost predicate Same(s: seq<byte>, t: seq<byte>, p: nat) {
    |s| == |t| && forall k :: p <= k < |s| ==> s[k] == t[k]
  }

  lemma {:induction false} Untouched(was: seq<byte>, data: seq<byte>, nbytes: int)
    requires |data| <= |was| && (data == [] || |data| <= nbytes + 1)
    ensures Same(Splice(was, 0, data), was, if nbytes < 0 then 0 else nbytes + 1)
  {
  }

  lemma {:induction false} SpliceWord(was: seq<byte>, done: seq<byte>, word: seq<byte>)
    requires |done| + |word| < |was|
    ensures Splice(Splice(was, 0, done), |done|, word[0..] + [NUL]) == Splice(was, 0, done + word + [NUL])
  {
  }

  lemma {:induction false} SpliceByte(was: seq<byte>, done: seq<byte>, b: byte)
    requires |done| < |was|
    ensures Splice(was, 0, done)[|done| := b] == Splice(was, 0, done + [b])
    ensures Splice(was, 0, done + [NUL])[|done| := b] == Splice(was, 0, done + [b])
  {
  }

  /** What has been joined so far, and what is still to come. */
  ghost predicate Pending(argv: seq<seq<byte>>, i: nat, done: seq<byte>, all: seq<byte>) {
    i <= |argv| && all == done + Join(ArgsFrom(argv, i))
  }

  lemma {:induction false} PendingEnds(argv: seq<seq<byte>>, done: seq<byte>, all: seq<byte>)
    requires Pending(argv, |argv|, done, all)
    ensures all == done
  {
  }

  lemma {:induction false} JoinOfMore(words: seq<seq<byte>>, w: seq<byte>, more: seq<seq<byte>>)
    requires words == [w] + more
    ensures Join(words) == if more == [] then w else w + [SPACE] + Join(more)
  {
    assert words[1..] == more;
  }

  lemma {:induction false} JoinStep(argv: seq<seq<byte>>, i: nat, done: seq<byte>, all: seq<byte>)
    requires i < |argv| && Pending(argv, i, done, all)
    ensures var more := done + CString(argv[i]);
            if i + 1 == |argv| then all == more
            else |all| > |more| && Pending(argv, i + 1, more + [SPACE], all)
    ensures |all| >= |done| + |CString(argv[i])|
  {
    var w, rest := CString(argv[i]), ArgsFrom(argv, i + 1);
    JoinOfMore(ArgsFrom(argv, i), w, rest);
    if i + 1 < |argv| {
      assert all == done + (w + [SPACE] + Join(rest));
      assert all == (done + w + [SPACE]) + Join(rest);
    }
  }
}
