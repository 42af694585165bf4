/** grep's line matcher: a 1024-byte buffer is refilled chunk by chunk, and an unfinished
    line at its end is carried over to its start. */
module Grep {
  import opened Bytes
  import opened Text
  import Strings

  const BUFSIZE: nat := 1024

  // --------------------------------------------------------- what should be printed

  /** Byte b does not occur from lo up to hi. */
  predicate Without(data: seq<byte>, b: byte, lo: nat, hi: nat) {
    lo <= hi <= |data| && forall i :: lo <= i < hi ==> data[i] != b
  }

  /** The pattern lies in the line at this place. */
  predicate MatchesAt(line: seq<byte>, pattern: seq<byte>, at: nat) {
    at + |pattern| <= |line| && line[at..at + |pattern|] == pattern
  }

  ghost predicate Contains(line: seq<byte>, pattern: seq<byte>) {
    exists at :: 0 <= at <= |line| && MatchesAt(line, pattern, at)
  }

  /** Lines separated by newlines; what follows the last newline is a line too. */
  function Lines(text: seq<byte>): (lines: seq<seq<byte>>)
    ensures |lines| >= 1
    decreases |text|
  {
    var n := RowEnd(text, |text|);
    if n == |text| then [text] else [text[..n]] + Lines(text[n + 1..])
  }

  /** The lines among these that contain the pattern, in order. */
  ghost function Matching(lines: seq<seq<byte>>, pattern: seq<byte>): seq<seq<byte>> {
    if lines == [] then []
    else (if Contains(lines[0], pattern) then [lines[0]] else []) + Matching(lines[1..], pattern)
  }

  /** The first byte of the pattern is compared as a signed character with an unsigned one,
      so a pattern that is empty or starts above 127 finds nothing. */
  predicate Searchable(pattern: seq<byte>) {
    pattern != [] && pattern[0] < 0x80
  }

  /** What the program prints for a text it has still to scan. */
  ghost function Hits(text: seq<byte>, pattern: seq<byte>): seq<seq<byte>> {
    if Searchable(pattern) then Matching(Rows(text, BUFSIZE), pattern) else []
  }

  // -------------------------------------------------------------- one row at a time

  ghost function Hit(row: seq<byte>, pattern: seq<byte>): seq<seq<byte>> {
    if Searchable(pattern) && Contains(row, pattern) then [row] else []
  }

  lemma {:induction false} EmptyRowIsNoHit(pattern: seq<byte>)
    ensures Hit([], pattern) == []
  {
  }

  lemma {:induction false} MatchingOne(line: seq<byte>, pattern: seq<byte>)
    ensures Matching([line], pattern) == if Contains(line, pattern) then [line] else []
  {
    assert [line][1..] == [];
  }

  /** A line that ends in the buffer. */
  lemma {:induction false} HitsLine(line: seq<byte>, rest: seq<byte>, pattern: seq<byte>)
    requires |line| < BUFSIZE && Without(line, NEWLINE, 0, |line|)
    ensures Hits(line + [NEWLINE] + rest, pattern) == Hit(line, pattern) + Hits(rest, pattern)
  {
    var text := line + [NEWLINE] + rest;
    RowEndUnique(text, BUFSIZE, |line|);
    assert text[..|line|] == line && text[|line| + 1..] == rest;
    assert Rows(text, BUFSIZE)[1..] == Rows(rest, BUFSIZE);
  }

  /** A line that fills the whole buffer is cut there. */
  lemma {:induction false} HitsFullRow(row: seq<byte>, rest: seq<byte>, pattern: seq<byte>)
    requires |row| == BUFSIZE && Without(row, NEWLINE, 0, |row|)
    ensures Hits(row + rest, pattern) == Hit(row, pattern) + Hits(rest, pattern)
  {
    var text := row + rest;
    RowEndUnique(text, BUFSIZE, BUFSIZE);
    assert text[..BUFSIZE] == row && text[BUFSIZE..] == rest;
    assert Rows(text, BUFSIZE)[1..] == Rows(rest, BUFSIZE);
  }

  /** The last line need not end in a newline. */
  lemma {:induction false} HitsLast(line: seq<byte>, pattern: seq<byte>)
    requires |line| <= BUFSIZE && Without(line, NEWLINE, 0, |line|)
    ensures Hits(line, pattern) == Hit(line, pattern)
  {
    if |line| == BUFSIZE {
      assert line + [] == line;
      HitsFullRow(line, [], pattern);
      assert Rows([], BUFSIZE) == [[]];
      MatchingOne([], pattern);
      EmptyRowIsNoHit(pattern);
    } else {
      RowEndUnique(line, BUFSIZE, |line|);
      assert Rows(line, BUFSIZE) == [line];
      MatchingOne(line, pattern);
    }
  }

  lemma {:induction false} HitsNothing(pattern: seq<byte>)
    ensures Hits([], pattern) == []
  {
    HitsLast([], pattern);
  }

  // ------------------------------------------------------- rows and whole lines

  lemma {:induction false} EmptyContainsNothing(pattern: seq<byte>)
    requires pattern != []
    ensures !Contains([], pattern)
  {
  }

  lemma {:induction false} MatchingFirst(rows: seq<seq<byte>>, first: seq<byte>, pattern: seq<byte>)
    ensures Matching([first] + rows, pattern) == (if Contains(first, pattern) then [first] else []) + Matching(rows, pattern)
  {
    assert ([first] + rows)[1..] == rows;
  }

  lemma {:induction false} LastLineMatches(line: seq<byte>, pattern: seq<byte>)
    requires pattern != [] && |line| <= BUFSIZE && Without(line, NEWLINE, 0, |line|)
    ensures Matching(Rows(line, BUFSIZE), pattern) == Matching([line], pattern)
  {
    RowEndUnique(line, BUFSIZE, |line|);
    assert line[..|line|] == line;
    if |line| == BUFSIZE {
      assert line[BUFSIZE..] == [] && Rows([], BUFSIZE) == [[]];
      MatchingFirst([[]], line, pattern);
      MatchingOne([], pattern);
      MatchingOne(line, pattern);
      EmptyContainsNothing(pattern);
    }
  }

  lemma {:induction false} RowsOfShortLine(text: seq<byte>, n: nat)
    requires n < |text| && n < BUFSIZE && text[n] == NEWLINE && Without(text, NEWLINE, 0, n)
    ensures Rows(text, BUFSIZE) == [text[..n]] + Rows(text[n + 1..], BUFSIZE)
  {
    RowEndUnique(text, BUFSIZE, n);
  }

  lemma {:induction false} LineThenNewline(text: seq<byte>, n: nat, pattern: seq<byte>)
    requires pattern != [] && n < |text| && n <= BUFSIZE && text[n] == NEWLINE
    requires Without(text, NEWLINE, 0, n)
    ensures Matching(Rows(text, BUFSIZE), pattern)
      == (if Contains(text[..n], pattern) then [text[..n]] else []) + Matching(Rows(text[n + 1..], BUFSIZE), pattern)
  {
    if n < BUFSIZE {
      RowsOfShortLine(text, n);
      MatchingFirst(Rows(text[n + 1..], BUFSIZE), text[..n], pattern);
    } else {
      FullLineThenNewline(text, pattern);
    }
  }

  /** A text whose lines all fit the buffer is cut only at its newlines; a line of exactly
      1024 bytes is followed by an empty row, in which nothing is found. */
  lemma {:induction false} RowsMatchLikeLines(text: seq<byte>, pattern: seq<byte>)
    requires pattern != [] && Fits(text)
    ensures Matching(Rows(text, BUFSIZE), pattern) == Matching(Lines(text), pattern)
    decreases |text|
  {
    var n := RowEnd(text, |text|);
    if n == |text| {
      assert Lines(text) == [text] && [text][0] == text && |text| <= BUFSIZE;
      LastLineMatches(text, pattern);
    } else {
      var rest := text[n + 1..];
      LinesApart(text, n);
      hide Lines, Rows, Matching, AllFit;
      OthersFit(text[..n], Lines(rest));
      RowsMatchLikeLines(rest, pattern);
      MatchingFirst(Lines(rest), text[..n], pattern);
      LineThenNewline(text, n, pattern);
    }
  }

  lemma {:induction false} LinesApart(text: seq<byte>, n: nat)
    requires n == RowEnd(text, |text|) < |text|
    ensures Lines(text) == [text[..n]] + Lines(text[n + 1..])
  {
  }

  predicate AllFit(lines: seq<seq<byte>>) {
    forall i :: 0 <= i < |lines| ==> |lines[i]| <= BUFSIZE
  }

  /** Every line of the text fits the buffer. */
  predicate Fits(text: seq<byte>) {
    AllFit(Lines(text))
  }

  lemma {:induction false} OthersFit(first: seq<byte>, lines: seq<seq<byte>>)
    requires AllFit([first] + lines)
    ensures AllFit(lines) && |first| <= BUFSIZE
  {
    assert ([first] + lines)[0] == first;
    forall i | 0 <= i < |lines| ensures |lines[i]| <= BUFSIZE { assert ([first] + lines)[i + 1] == lines[i]; }
  }

  lemma {:induction false} RowsOfFullLine(text: seq<byte>)
    requires BUFSIZE < |text| && text[BUFSIZE] == NEWLINE && Without(text, NEWLINE, 0, BUFSIZE)
    ensures Rows(text, BUFSIZE) == [text[..BUFSIZE]] + Rows(text[BUFSIZE..], BUFSIZE)
  {
    RowEndUnique(text, BUFSIZE, BUFSIZE);
  }

  lemma {:induction false} RowsAfterNewline(text: seq<byte>)
    requires text != [] && text[0] == NEWLINE
    ensures Rows(text, BUFSIZE) == [[]] + Rows(text[1..], BUFSIZE)
  {
    RowEndUnique(text, BUFSIZE, 0);
    assert text[..0] == [];
  }

  lemma {:induction false} FullLineThenNewline(text: seq<byte>, pattern: seq<byte>)
    requires pattern != [] && BUFSIZE < |text| && text[BUFSIZE] == NEWLINE
    requires Without(text, NEWLINE, 0, BUFSIZE)
    ensures Matching(Rows(text, BUFSIZE), pattern)
      == (if Contains(text[..BUFSIZE], pattern) then [text[..BUFSIZE]] else [])
         + Matching(Rows(text[BUFSIZE + 1..], BUFSIZE), pattern)
  {
    var after, rest := text[BUFSIZE..], text[BUFSIZE + 1..];
    RowsOfFullLine(text);
    RowsAfterNewline(after);
    assert after[1..] == rest;
    MatchingFirst(Rows(after, BUFSIZE), text[..BUFSIZE], pattern);
    EmptyRowIsSkipped(Rows(rest, BUFSIZE), pattern);
  }

  lemma {:induction false} EmptyRowIsSkipped(rows: seq<seq<byte>>, pattern: seq<byte>)
    requires pattern != []
    ensures Matching([[]] + rows, pattern) == Matching(rows, pattern)
  {
    MatchingFirst(rows, [], pattern);
    EmptyContainsNothing(pattern);
  }

  /** What grep prints, for any file with lines of at most 1024 bytes: exactly the lines
      that contain the pattern, unless the pattern starts with a byte above 127. */
  lemma {:induction false} HitsAreMatchingLines(text: seq<byte>, pattern: seq<byte>)
    requires pattern != [] && Fits(text)
    ensures Hits(text, pattern) == Matching(Lines(text), pattern)
      <==> pattern[0] < 0x80 || Matching(Lines(text), pattern) == []
  {
    RowsMatchLikeLines(text, pattern);
  }

  /** No text whose lines fit the buffer can contain such a pattern. */
  predicate NeverFits(pattern: seq<byte>) {
    |pattern| > BUFSIZE || NEWLINE in pattern
  }

  lemma {:induction false} MatchFits(line: seq<byte>, pattern: seq<byte>, at: nat)
    requires MatchesAt(line, pattern, at) && |line| <= BUFSIZE && NEWLINE !in line
    ensures !NeverFits(pattern)
  {
    forall k | 0 <= k < |pattern| ensures pattern[k] != NEWLINE {
      assert line[at..at + |pattern|][k] == line[at + k];
    }
  }

  lemma {:induction false} NothingMatches(lines: seq<seq<byte>>, pattern: seq<byte>)
    requires NeverFits(pattern)
    requires forall i :: 0 <= i < |lines| ==> |lines[i]| <= BUFSIZE && NEWLINE !in lines[i]
    ensures Matching(lines, pattern) == []
    decreases |lines|
  {
    if lines != [] {
      forall at | 0 <= at <= |lines[0]| ensures !MatchesAt(lines[0], pattern, at) {
        if MatchesAt(lines[0], pattern, at) { MatchFits(lines[0], pattern, at); }
      }
      NothingMatches(lines[1..], pattern);
    }
  }

  lemma {:induction false} LinesHoldNoNewline(text: seq<byte>)
    ensures forall i :: 0 <= i < |Lines(text)| ==> NEWLINE !in Lines(text)[i]
    decreases |text|
  {
    var n := RowEnd(text, |text|);
    if n < |text| { LinesHoldNoNewline(text[n + 1..]); }
  }

  ghost predicate RightFor(text: seq<byte>, pattern: seq<byte>) {
    Hits(text, pattern) == Matching(Lines(text), pattern)
  }

  /** A pattern is searched for correctly in every text exactly if its first byte is below
      128, or if no line could hold it anyway. */
  lemma {:induction false} RightForAllTextsIff(pattern: seq<byte>)
    requires pattern != []
    ensures (forall text :: Fits(text) ==> RightFor(text, pattern)) <==> pattern[0] < 0x80 || NeverFits(pattern)
  {
    if pattern[0] < 0x80 || NeverFits(pattern) {
      forall text | Fits(text) ensures RightFor(text, pattern) {
        RowsMatchLikeLines(text, pattern);
        if NeverFits(pattern) {
          LinesHoldNoNewline(text);
          assert forall i :: 0 <= i < |Lines(text)| ==> |Lines(text)[i]| <= BUFSIZE;
          NothingMatches(Lines(text), pattern);
        }
      }
    } else {
      ItselfIsMissed(pattern);
      assert Fits(pattern) && !RightFor(pattern, pattern);
    }
  }

  lemma {:induction false} ItselfIsMissed(pattern: seq<byte>)
    requires pattern != [] && pattern[0] >= 0x80 && !NeverFits(pattern)
    ensures Fits(pattern) && !RightFor(pattern, pattern)
  {
    RowEndUnique(pattern, |pattern|, |pattern|);
    assert Lines(pattern) == [pattern];
    assert MatchesAt(pattern, pattern, 0);
    MatchingOne(pattern, pattern);
  }

  /** The byte 200 is in the line, but grep does not find it. */
  lemma {:induction false} HighByteIsMissed()
    ensures Contains([200], [200]) && Hits([200], [200]) == [] && Matching(Lines([200]), [200]) == [[200]]
  {
    assert MatchesAt([200], [200], 0);
    assert Lines([200]) == [[200]];
    MatchingOne([200], [200]);
  }

  // ---------------------------------------------------------------- the C code

  /** An open file.  Reads are short only at the end of the file; faults tells which of the
      coming reads fail. */
  class Reader {
    const content: seq<byte>
    var pos: nat
    var faults: seq<bool>

    ghost predicate Valid()
      reads this
    {
      pos <= |content|
    }

    constructor (content: seq<byte>, faults: seq<bool>)
      ensures Valid() && this.content == content && pos == 0 && this.faults == faults
    {
      this.content, this.faults := content, faults;
      pos := 0;
    }

    method Fails() returns (fails: bool)
      modifies this`faults
      ensures fails <==> true in old(faults[..Min(1, |faults|)])
      ensures faults == old(faults[Min(1, |faults|)..])
    {
      fails := faults != [] && faults[0];
      if faults != [] { faults := faults[1..]; }
    }

    method Read(data: array<byte>, at: nat, n: nat) returns (cnt: int)
      requires Valid() && 0 < n && at + n <= data.Length
      modifies this, data
      ensures Valid() && (cnt == -1 || cnt >= 0)
      ensures cnt == -1 <==> true in old(faults[..Min(1, |faults|)])
      ensures cnt == -1 ==> pos == old(pos) && data[..] == old(data[..])
      ensures faults == old(faults[Min(1, |faults|)..])
      ensures cnt >= 0 ==> cnt == Min(n, |content| - old(pos)) && pos == old(pos) + cnt
      ensures cnt >= 0 ==> data[at..at + cnt] == content[old(pos)..pos]
      ensures cnt >= 0 ==>
                forall i :: 0 <= i < data.Length && !(at <= i < at + cnt) ==> data[i] == old(data[i])
    {
      var fails := Fails();
      if fails { return -1; }
      cnt := Min(n, |content| - pos);
      for i := 0 to cnt
        invariant pos == old(pos) && faults == old(faults[Min(1, |faults|)..])
        invariant forall j :: 0 <= j < data.Length ==>
          data[j] == if at <= j < at + i then content[pos + j - at] else old(data[j])
      {
        data[at + i] := content[pos + i];
      }
      assert data[at..at + cnt] == content[pos..pos + cnt];
      pos := pos + cnt;
    }
  }

  /** The bytes of data from start on up to a terminating NUL at end. */
  predicate IsLine(data: seq<byte>, start: nat, end: nat) {
    end < |data| && data[end] == NUL && Without(data, NUL, start, end)
  }

  predicate IsPattern(s: seq<byte>) {
    |s| >= 1 && s[|s| - 1] == NUL && Without(s, NUL, 0, |s| - 1)
  }

  lemma {:induction false} MatchIsBytewise(line: seq<byte>, pattern: seq<byte>)
    ensures MatchesAt(line, pattern, 0) <==>
      |pattern| <= |line| && forall j :: 0 <= j < |pattern| ==> line[j] == pattern[j]
  {
    if |pattern| <= |line| {
      assert line[0..|pattern|] == line[..|pattern|];
      assert MatchesAt(line, pattern, 0) ==> forall j :: 0 <= j < |pattern| ==> line[..|pattern|][j] == pattern[j];
    }
  }

  /** Equality of n bytes, stopping early at a NUL on either side. */
  method StrNCmp(data: seq<byte>, at: nat, end: nat, s: seq<byte>, n: nat) returns (r: int)
    requires IsLine(data, at, end) && IsPattern(s) && n == |s| - 1
    ensures r == 0 <==> MatchesAt(data[at..end], s[..n], 0)
  {
    ghost var line, pattern := data[at..end], s[..n];
    MatchIsBytewise(line, pattern);
    if n == 0 { return 0; }
    var i, left := 0, n;
    while data[at + i] == s[i]
      invariant 0 <= i < n && left == n - i && at + i <= end
      invariant forall j :: 0 <= j < i ==> line[j] == pattern[j]
      decreases left
    {
      if at + i < end { assert line[i] == data[at + i]; }
      left := left - 1;
      if data[at + i] == NUL || left == 0 {
        return 0;
      }
      i := i + 1;
    }
    return (data[at + i] as int) - (s[i] as int);
  }

  /** Does the NUL-terminated line contain the pattern, by the program's own test? */
  method SearchLine(data: seq<byte>, start: nat, end: nat, s: seq<byte>, sLen: nat) returns (found: bool)
    requires IsLine(data, start, end) && IsPattern(s) && sLen == |s| - 1
    ensures found <==> Searchable(s[..sLen]) && Contains(data[start..end], s[..sLen])
  {
    var line, pattern := data[start..end], s[..sLen];
    var check := start;
    while check < end
      invariant start <= check <= end
      invariant Searchable(pattern) ==> forall at :: 0 <= at < check - start ==> !MatchesAt(line, pattern, at)
    {
      MatchFromHere(data, start, end, check, pattern);
      if SignedChar(s[0]) == data[check] {
        var r := StrNCmp(data, check, end, s, sLen);
        if r == 0 { return true; }
      }
      check := check + 1;
    }
    return false;
  }

  lemma {:induction false} MatchFromHere(data: seq<byte>, start: nat, end: nat, check: nat, pattern: seq<byte>)
    requires start <= check < end <= |data|
    ensures MatchesAt(data[check..end], pattern, 0) <==> MatchesAt(data[start..end], pattern, check - start)
    ensures pattern != [] && MatchesAt(data[check..end], pattern, 0) ==> data[check] == pattern[0]
  {
    var m := |pattern|;
    if m <= end - check {
      assert data[check..end][0..m] == data[start..end][check - start..check - start + m];
      if m > 0 { assert data[check..end][0..m][0] == data[check]; }
    }
  }

  /** ece391_strcpy(data, data + from): bytes up to and including the NUL at end move down. */
  method CopyDown(data: array<byte>, from: nat, end: nat)
    requires IsLine(data[..], from, end)
    modifies data
    ensures data[..end - from + 1] == old(data[from..end + 1])
    ensures forall i :: end - from < i < data.Length ==> data[i] == old(data[i])
  {
    var i := 0;
    while true
      invariant 0 <= i <= end - from
      invariant forall j :: 0 <= j < i ==> data[j] == old(data[from + j])
      invariant forall j :: i <= j < data.Length ==> data[j] == old(data[j])
      decreases end - from - i
    {
      data[i] := data[from + i];
      if data[i] == NUL { break; }
      i := i + 1;
    }
  }

  /** One printed line: the file's name, a colon, the line, a newline. */
  function Print(fname: seq<byte>, lines: seq<seq<byte>>): seq<byte> {
    if lines == [] then [] else fname + [58] + lines[0] + [NEWLINE] + Print(fname, lines[1..])
  }

  lemma {:induction false} PrintAppend(fname: seq<byte>, a: seq<seq<byte>>, b: seq<seq<byte>>)
    ensures Print(fname, a + b) == Print(fname, a) + Print(fname, b)
    decreases |a|
  {
    if a == [] {
      assert a + b == b;
    } else {
      assert (a + b)[1..] == a[1..] + b;
      PrintAppend(fname, a[1..], b);
    }
  }

  /** One printed line, without its newline. */
  function Printed(fname: seq<byte>, line: seq<byte>): seq<byte> {
    fname + [58] + line
  }

  function AllPrinted(fname: seq<byte>, lines: seq<seq<byte>>): seq<seq<byte>> {
    if lines == [] then [] else [Printed(fname, lines[0])] + AllPrinted(fname, lines[1..])
  }

  lemma {:induction false} FirstLineOf(line: seq<byte>, rest: seq<byte>)
    requires NEWLINE !in line
    ensures Lines(line + [NEWLINE] + rest) == [line] + Lines(rest)
  {
    var text := line + [NEWLINE] + rest;
    RowEndUnique(text, |text|, |line|);
    assert text[..|line|] == line && text[|line| + 1..] == rest;
  }

  /** The output read line by line is the hits in order, each behind the file's name. */
  lemma {:induction false} OutputIsLinePerHit(fname: seq<byte>, lines: seq<seq<byte>>)
    requires NEWLINE !in fname && forall i :: 0 <= i < |lines| ==> NEWLINE !in lines[i]
    ensures Lines(Print(fname, lines)) == AllPrinted(fname, lines) + [[]]
    decreases |lines|
  {
    if lines != [] {
      var first, rest := Printed(fname, lines[0]), Print(fname, lines[1..]);
      assert NEWLINE !in first;
      assert Print(fname, lines) == first + [NEWLINE] + rest;
      FirstLineOf(first, rest);
      OutputIsLinePerHit(fname, lines[1..]);
      assert [first] + (AllPrinted(fname, lines[1..]) + [[]]) == AllPrinted(fname, lines) + [[]];
    }
  }

  lemma {:induction false} WithoutSlice(data: seq<byte>, b: byte, lo: nat, hi: nat)
    requires Without(data, b, lo, hi)
    ensures Without(data[lo..hi], b, 0, hi - lo)
  {
    forall i | 0 <= i < hi - lo ensures data[lo..hi][i] != b { assert data[lo..hi][i] == data[lo + i]; }
  }

  /** One line's contribution, however the line ended. */
  lemma {:induction false} LineIsScanned(was: seq<byte>, start: nat, end: nat, last: nat, rest: seq<byte>, pattern: seq<byte>)
    requires start <= end <= last <= |was| && last - start <= BUFSIZE
    requires Without(was, NEWLINE, start, end)
    requires end < last ==> was[end] == NEWLINE
    requires end == last ==> last - start == BUFSIZE || rest == []
    ensures Hits(was[start..last] + rest, pattern)
      == Hit(was[start..end], pattern) + Hits((if end < last then was[end + 1..last] else []) + rest, pattern)
  {
    var line := was[start..end];
    WithoutSlice(was, NEWLINE, start, end);
    if end < last {
      assert was[start..last] + rest == line + [NEWLINE] + (was[end + 1..last] + rest);
      HitsLine(line, was[end + 1..last] + rest, pattern);
    } else if rest == [] {
      assert line + [] == line && [] + rest == [];
      HitsLast(line, pattern);
      HitsNothing(pattern);
    } else {
      assert [] + rest == rest;
      HitsFullRow(line, rest, pattern);
    }
  }

  method FindEnd(data: seq<byte>, start: nat, last: nat) returns (end: nat)
    requires start <= last < |data|
    ensures start <= end <= last && Without(data, NEWLINE, start, end)
    ensures end < last ==> data[end] == NEWLINE
  {
    end := start;
    while end < last && data[end] != NEWLINE
      invariant start <= end <= last && Without(data, NEWLINE, start, end)
    {
      end := end + 1;
    }
  }

  /** What is still to be printed: the unscanned part of the buffer and the unread file. */
  ghost function Due(fname: seq<byte>, pattern: seq<byte>, text: seq<byte>): seq<byte> {
    Print(fname, Hits(text, pattern))
  }

  lemma {:induction false} LineIsPrinted(fname: seq<byte>, pattern: seq<byte>, line: seq<byte>, text: seq<byte>, rest: seq<byte>)
    requires Hits(text, pattern) == Hit(line, pattern) + Hits(rest, pattern)
    ensures Due(fname, pattern, text)
      == (if Hit(line, pattern) == [] then [] else fname + [58] + line + [NEWLINE]) + Due(fname, pattern, rest)
  {
    PrintAppend(fname, Hit(line, pattern), Hits(rest, pattern));
    if Hit(line, pattern) != [] {
      assert Print(fname, [line]) == fname + [58] + line + [NEWLINE] + Print(fname, [line][1..]);
    }
  }

  /** Terminates the line in place and prints it if it matches. */
  method ScanLine(s: seq<byte>, sLen: nat, fname: seq<byte>, data: array<byte>, start: nat, end: nat)
    returns (out: seq<byte>)
    requires IsPattern(s) && sLen == |s| - 1
    requires end < data.Length && Without(data[..], NUL, start, end)
    modifies data
    ensures data[end] == NUL && forall i :: 0 <= i < data.Length && i != end ==> data[i] == old(data[i])
    ensures var line := old(data[start..end]);
      out == if Hit(line, s[..sLen]) == [] then [] else fname + [58] + line + [NEWLINE]
  {
    ghost var line := data[start..end];
    data[end] := NUL;
    assert data[start..end] == line;
    var found := SearchLine(data[..], start, end, s, sLen);
    assert data[..][start..end] == line;
    out := if found then fname + [58] + data[start..end] + [NEWLINE] else [];
  }

  lemma {:induction false} Accumulate(a: seq<byte>, b: seq<byte>, c: seq<byte>)
    ensures a + (b + c) == (a + b) + c
  {
  }

  ghost function Beyond(was: seq<byte>, end: nat, last: nat): seq<byte>
    requires end <= last <= |was|
  {
    if end < last then was[end + 1..last] else []
  }

  lemma {:induction false} LineIsDone(fname: seq<byte>, pattern: seq<byte>, was: seq<byte>, start: nat, end: nat, last: nat, rest: seq<byte>, out: seq<byte>)
    requires start <= end <= last <= |was| && last - start <= BUFSIZE
    requires Without(was, NEWLINE, start, end)
    requires end < last ==> was[end] == NEWLINE
    requires end == last ==> last - start == BUFSIZE || rest == []
    requires out == if Hit(was[start..end], pattern) == [] then [] else fname + [58] + was[start..end] + [NEWLINE]
    ensures Due(fname, pattern, was[start..last] + rest) == out + Due(fname, pattern, Beyond(was, end, last) + rest)
  {
    LineIsScanned(was, start, end, last, rest, pattern);
    LineIsPrinted(fname, pattern, was[start..end], was[start..last] + rest, Beyond(was, end, last) + rest);
  }

  lemma {:induction false} KeptBehind(was: seq<byte>, now: seq<byte>, end: nat, last: nat)
    requires end <= last <= |was| == |now| && forall i :: end < i < |was| ==> now[i] == was[i]
    ensures Beyond(now, end, last) == Beyond(was, end, last)
  {
  }

  /** Scans the line from start to end; what remains due is what lies beyond it. */
  method FinishLine(s: seq<byte>, sLen: nat, fname: seq<byte>, data: array<byte>, start: nat, end: nat,
                    last: nat, ghost rest: seq<byte>)
    returns (out: seq<byte>)
    requires IsPattern(s) && sLen == |s| - 1 && data.Length == BUFSIZE + 1 && last <= BUFSIZE
    requires end <= last && Without(data[..], NUL, start, end) && Without(data[..], NEWLINE, start, end)
    requires end < last ==> data[end] == NEWLINE
    requires end == last ==> last - start == BUFSIZE || rest == []
    modifies data
    ensures data[BUFSIZE] == old(data[BUFSIZE]) || data[BUFSIZE] == NUL
    ensures Beyond(data[..], end, last) == old(Beyond(data[..], end, last))
    ensures forall i :: end < i < data.Length ==> data[i] == old(data[i])
    ensures Due(fname, s[..sLen], old(data[start..last]) + rest)
      == out + Due(fname, s[..sLen], old(Beyond(data[..], end, last)) + rest)
  {
    ghost var was := data[..];
    assert was[start..end] == data[start..end] && was[start..last] == data[start..last];
    hide Due, Hit, Without;
    out := ScanLine(s, sLen, fname, data, start, end);
    LineIsDone(fname, s[..sLen], was, start, end, last, rest, out);
    KeptBehind(was, data[..], end, last);
  }

  /** One line of the buffer: carried over if it is unfinished, otherwise scanned. */
  method ScanNext(s: seq<byte>, sLen: nat, fname: seq<byte>, data: array<byte>, start: nat, last: nat,
                  cnt: nat, ghost rest: seq<byte>)
    returns (out: seq<byte>, next: nat, done: bool, left: nat)
    requires IsPattern(s) && sLen == |s| - 1
    requires data.Length == BUFSIZE + 1 && last <= BUFSIZE && Without(data[..], NUL, start, last)
    requires start < last || start == 0
    requires data[BUFSIZE] != NEWLINE
    requires last < BUFSIZE || cnt == 0 ==> rest == []
    modifies data
    ensures data[BUFSIZE] != NEWLINE
    ensures done ==> left < BUFSIZE && (cnt == 0 ==> left == 0) && Without(data[..], NUL, 0, left)
    ensures !done ==> start < next < last && Without(data[..], NUL, next, last)
    ensures var after := if done then data[..left] else data[next..last];
      Due(fname, s[..sLen], old(data[start..last]) + rest) == out + Due(fname, s[..sLen], after + rest)
  {
    hide Due;
    ghost var was, text := data[..], data[start..last];
    assert text == was[start..last];
    var end := FindEnd(data[..], start, last);
    next, left := end + 1, 0;
    if data[end] != NEWLINE && cnt != 0 && start != 0 {
      assert end == last;
      left := CarryOver(data, start, end);
      return [], next, true, left;
    }
    out := FinishLine(s, sLen, fname, data, start, end, last, rest);
    done := next >= last;
    BeyondKept(was, data[..], end, last);
    assert data[..0] == [];
  }

  /** Behind the line nothing has changed. */
  lemma {:induction false} BeyondKept(was: seq<byte>, now: seq<byte>, end: nat, last: nat)
    requires end <= last < |was| == |now| && forall i :: end < i < |was| ==> now[i] == was[i]
    ensures end + 1 < last ==> Beyond(was, end, last) == now[end + 1..last]
    ensures end + 1 >= last ==> Beyond(was, end, last) == []
    ensures end + 1 < last && Without(was, NUL, end, last) ==> Without(now, NUL, end + 1, last)
  {
    if end + 1 < last {
      assert was[end + 1..last] == now[end + 1..last];
      if Without(was, NUL, end, last) {
        forall i | end + 1 <= i < last ensures now[i] != NUL { assert was[i] != NUL; }
      }
    }
  }

  /** One pass over the buffer: prints the matching lines that are complete and leaves the
      unfinished one at the start.  Reading more would give rest. */
  method ScanBuffer(s: seq<byte>, sLen: nat, fname: seq<byte>, data: array<byte>, last: nat, cnt: nat, ghost rest: seq<byte>)
    returns (out: seq<byte>, left: nat)
    requires IsPattern(s) && sLen == |s| - 1
    requires data.Length == BUFSIZE + 1 && last <= BUFSIZE && Without(data[..], NUL, 0, last)
    requires data[BUFSIZE] != NEWLINE
    requires last < BUFSIZE || cnt == 0 ==> rest == []
    modifies data
    ensures left < BUFSIZE && (cnt == 0 ==> left == 0) && data[BUFSIZE] != NEWLINE
    ensures Without(data[..], NUL, 0, left)
    ensures Due(fname, s[..sLen], old(data[..last]) + rest) == out + Due(fname, s[..sLen], data[..left] + rest)
  {
    hide Due;
    ghost var total := Due(fname, s[..sLen], data[..last] + rest);
    out := [];
    var start := 0;
    assert data[0..last] == data[..last];
    while true
      invariant 0 <= start <= last && (start < last || start == 0)
      invariant data[BUFSIZE] != NEWLINE && Without(data[..], NUL, start, last)
      invariant total == out + Due(fname, s[..sLen], data[start..last] + rest)
      decreases last - start
    {
      var printed, next, done;
      printed, next, done, left := ScanNext(s, sLen, fname, data, start, last, cnt, rest);
      if done {
        Accumulate(out, printed, Due(fname, s[..sLen], data[..left] + rest));
        out := out + printed;
        return;
      }
      Accumulate(out, printed, Due(fname, s[..sLen], data[next..last] + rest));
      out := out + printed;
      start := next;
    }
  }

  lemma {:induction false} CarriedIs(was: seq<byte>, cut: seq<byte>, now: seq<byte>, start: nat, end: nat)
    requires start <= end < |was| == |now| && cut == was[end := NUL]
    requires now[..end - start + 1] == cut[start..end + 1] && Without(was, NUL, start, end)
    ensures now[..end - start] == was[start..end] && Without(now, NUL, 0, end - start)
  {
    assert now[..end - start] == now[..end - start + 1][..end - start];
    assert was[start..end] == cut[start..end + 1][..end - start];
    WithoutSlice(was, NUL, start, end);
    forall i | 0 <= i < end - start ensures now[i] != NUL { assert now[..end - start][i] == was[start..end][i]; }
  }

  /** The unfinished line is terminated and copied down to the start of the buffer. */
  method CarryOver(data: array<byte>, start: nat, end: nat) returns (left: nat)
    requires 0 < start <= end <= BUFSIZE && data.Length == BUFSIZE + 1
    requires Without(data[..], NUL, start, end) && data[BUFSIZE] != NEWLINE
    modifies data
    ensures left == end - start < BUFSIZE && data[..left] == old(data[start..end]) && data[BUFSIZE] != NEWLINE
    ensures Without(data[..], NUL, 0, left)
  {
    ghost var was := data[..];
    data[end] := NUL;
    ghost var cut := data[..];
    CopyDown(data, start, end);
    left := end - start;
    CarriedIs(was, cut, data[..], start, end);
  }

  function Ascii(text: string): seq<byte> {
    seq(|text|, i requires 0 <= i < |text| => text[i] as int % 0x100)
  }

  /** Refills the buffer behind the carried part and scans it. */
  method ScanChunk(s: seq<byte>, sLen: nat, fname: seq<byte>, f: Reader, data: array<byte>, last: nat, ghost rest: seq<byte>)
    returns (cnt: int, out: seq<byte>, left: nat)
    requires IsPattern(s) && sLen == |s| - 1 && data.Length == BUFSIZE + 1 && data[BUFSIZE] != NEWLINE
    requires f.Valid() && Without(f.content, NUL, 0, |f.content|) && rest == f.content[f.pos..]
    requires last < BUFSIZE && Without(data[..], NUL, 0, last)
    modifies f, data
    ensures f.Valid() && f.faults == old(f.faults[Min(1, |f.faults|)..])
    ensures cnt == -1 || cnt >= 0
    ensures cnt == -1 <==> true in old(f.faults[..Min(1, |f.faults|)])
    ensures cnt == -1 ==> out == []
    ensures cnt >= 0 ==> f.pos == old(f.pos) + cnt && (cnt == 0 ==> rest == [] && left == 0)
    ensures cnt >= 0 ==> left < BUFSIZE && data[BUFSIZE] != NEWLINE && Without(data[..], NUL, 0, left)
    ensures cnt >= 0 ==>
              Due(fname, s[..sLen], old(data[..last]) + rest)
              == out + Due(fname, s[..sLen], data[..left] + f.content[f.pos..])
  {
    hide Due;
    cnt := Refill(f, data, last, rest);
    if cnt == -1 { return -1, [], last; }
    out, left := ScanBuffer(s, sLen, fname, data, last + cnt, cnt, f.content[f.pos..]);
  }

  /** Reads as much as fits behind what was carried over. */
  method Refill(f: Reader, data: array<byte>, last: nat, ghost rest: seq<byte>) returns (cnt: int)
    requires data.Length == BUFSIZE + 1 && data[BUFSIZE] != NEWLINE
    requires f.Valid() && Without(f.content, NUL, 0, |f.content|) && rest == f.content[f.pos..]
    requires last < BUFSIZE && Without(data[..], NUL, 0, last)
    modifies f, data
    ensures f.Valid() && f.faults == old(f.faults[Min(1, |f.faults|)..])
    ensures cnt == -1 || cnt >= 0
    ensures cnt == -1 <==> true in old(f.faults[..Min(1, |f.faults|)])
    ensures cnt >= 0 ==> f.pos == old(f.pos) + cnt && last + cnt <= BUFSIZE && data[BUFSIZE] != NEWLINE
    ensures cnt == 0 ==> rest == []
    ensures cnt >= 0 && (last + cnt < BUFSIZE || cnt == 0) ==> f.content[f.pos..] == []
    ensures cnt >= 0 ==> Without(data[..], NUL, 0, last + cnt)
    ensures cnt >= 0 ==> data[..last + cnt] + f.content[f.pos..] == old(data[..last]) + rest
  {
    ghost var carried := data[..last];
    cnt := f.Read(data, last, BUFSIZE - last);
    if cnt == -1 { return; }
    assert data[..][..last] == carried;
    Refilled(data[..], carried, last, cnt, f.content, f.pos);
    assert data[..last + cnt] == data[..][..last + cnt];
  }

  /** Prints exactly the hits of the file's content, in order, once each; up to a read that
      fails, a part of them. */
  method ScanFile(s: seq<byte>, sLen: nat, fname: seq<byte>, f: Reader, data: array<byte>)
    returns (ok: bool, out: seq<byte>)
    requires IsPattern(s) && sLen == |s| - 1 && data.Length == BUFSIZE + 1 && data[BUFSIZE] != NEWLINE
    requires f.Valid() && f.pos == 0 && Without(f.content, NUL, 0, |f.content|)
    modifies f, data
    ensures true !in old(f.faults) ==> ok
    ensures ok ==> out == Print(fname, Hits(f.content, s[..sLen]))
    ensures !ok ==> out <= Print(fname, Hits(f.content, s[..sLen]))
  {
    ghost var total, pattern := Due(fname, s[..sLen], f.content), s[..sLen];
    out := [];
    var last: nat := 0;
    assert data[..0] + f.content[0..] == f.content;
    ghost var due := total;
    while true
      invariant f.Valid() && last < BUFSIZE && data[BUFSIZE] != NEWLINE && Without(data[..], NUL, 0, last)
      invariant total == out + due && due == Due(fname, pattern, data[..last] + f.content[f.pos..])
      invariant true !in old(f.faults) ==> true !in f.faults
      decreases |f.content| - f.pos
    {
      var cnt, printed;
      cnt, printed, last := ScanChunk(s, sLen, fname, f, data, last, f.content[f.pos..]);
      if cnt == -1 { return false, out; }
      due := Due(fname, pattern, data[..last] + f.content[f.pos..]);
      Accumulate(out, printed, due);
      out := out + printed;
      if cnt == 0 { break; }
    }
    HitsNothing(pattern);
    assert data[..0] + f.content[f.pos..] == [];
    ok := true;
  }

  /** A part of the whole output, and then a note. */
  ghost predicate CutOff(out: seq<byte>, whole: seq<byte>, note: seq<byte>) {
    exists n :: 0 <= n <= |whole| && out == whole[..n] + note
  }

  /** Scans one file.  f is null if it cannot be opened, and closes tells whether closing
      it succeeds. */
  method DoOneFile(s: seq<byte>, fname: seq<byte>, f: Reader?, closes: bool, data: array<byte>)
    returns (r: int, out: seq<byte>)
    requires IsPattern(s) && data.Length == BUFSIZE + 1 && data[BUFSIZE] != NEWLINE
    requires f != null ==> f.Valid() && f.pos == 0 && Without(f.content, NUL, 0, |f.content|)
    modifies f, data
    ensures f == null ==> r == -1 && out == Ascii("file open failed\n")
    ensures f != null && true !in old(f.faults) ==>
              && r == (if closes then 0 else -1)
              && out == Print(fname, Hits(f.content, s[..|s| - 1]))
                        + (if closes then [] else Ascii("file close failed\n"))
    ensures f != null && r == 0 ==> closes && out == Print(fname, Hits(f.content, s[..|s| - 1]))
    ensures f != null && r != 0 && closes ==>
              r == -1 && CutOff(out, Print(fname, Hits(f.content, s[..|s| - 1])), Ascii("file read failed\n"))
  {
    Strings.CStringIs(s, |s| - 1);
    var sLen := Strings.StrLen(s);
    hide Print, Hits, Ascii, Without;
    if f == null { return -1, Ascii("file open failed\n"); }
    var ok;
    ok, out := ScanFile(s, sLen, fname, f, data);
    if !ok {
      assert out == Print(fname, Hits(f.content, s[..|s| - 1]))[..|out|];
      assert CutOff(out + Ascii("file read failed\n"), Print(fname, Hits(f.content, s[..|s| - 1])), Ascii("file read failed\n"));
      return -1, out + Ascii("file read failed\n");
    }
    if !closes { return -1, out + Ascii("file close failed\n"); }
    return 0, out;
  }

  lemma {:induction false} Refilled(now: seq<byte>, carried: seq<byte>, last: nat, cnt: nat, content: seq<byte>, pos: nat)
    requires last + cnt <= |now| && |carried| == last && now[..last] == carried
    requires cnt <= pos <= |content| && now[last..last + cnt] == content[pos - cnt..pos]
    requires Without(carried, NUL, 0, last) && Without(content, NUL, 0, |content|)
    ensures now[..last + cnt] + content[pos..] == carried + content[pos - cnt..]
    ensures Without(now, NUL, 0, last + cnt)
  {
    assert now[..last + cnt] == carried + now[last..last + cnt];
    forall i | 0 <= i < last + cnt ensures now[i] != NUL {
      if i < last { assert now[i] == carried[i]; } else { assert now[i] == content[pos - cnt..pos][i - last]; }
    }
    assert content[pos - cnt..] == content[pos - cnt..pos] + content[pos..];
  }
}
