/** Printing numbers: the user library's itoa and the kernel's own copy of it. */
module Numbers {
  import opened Bytes
  import opened Strings

  predicate Radix(r: int) {
    2 <= r <= 36
  }

  const LOOKUP := "0123456789ABCDEFGHIJKLMNOPQRSTUVWXYZ"

  /** The character of a digit. */
  function Digit(d: int): (c: byte)
    requires 0 <= d < 36
    ensures c != NUL
  {
    if d < 10 then '0' as int + d else 'A' as int + (d - 10)
  }

  lemma {:induction false} TableHolds(d: int)
    requires 0 <= d < 36
    ensures LOOKUP[d] as int == Digit(d)
  {
  }

  /** The digit a character stands for, or 36. */
  function DigitOf(c: byte): nat {
    if '0' as int <= c <= '9' as int then c - '0' as int
    else if 'A' as int <= c <= 'Z' as int then c - 'A' as int + 10
    else 36
  }

  lemma {:induction false} DigitRoundTrip(d: int, c: byte)
    ensures 0 <= d < 36 ==> DigitOf(Digit(d)) == d
    ensures DigitOf(c) < 36 ==> Digit(DigitOf(c)) == c
  {
  }

  // -------------------------------------------------------------- the meaning

  /** Division and its remainder. */
  function Quot(v: nat, radix: int): nat
    requires Radix(radix)
    decreases v
  {
    if v < radix then 0 else 1 + Quot(v - radix, radix)
  }

  function Rem(v: nat, radix: int): (r: nat)
    requires Radix(radix)
    ensures r < radix
    decreases v
  {
    if v < radix then v else Rem(v - radix, radix)
  }

  lemma {:induction false} QuotRem(v: nat, radix: int)
    requires Radix(radix)
    ensures v == Quot(v, radix) * radix + Rem(v, radix)
    ensures 2 * Quot(v, radix) <= v
    decreases v
  {
    if v >= radix {
      QuotRem(v - radix, radix);
      var q := Quot(v - radix, radix);
      assert (q + 1) * radix == q * radix + radix;
    }
  }

  lemma {:induction false} QuotOf(q: nat, r: nat, radix: int)
    requires Radix(radix) && r < radix
    ensures q * radix + r >= 0 && Quot(q * radix + r, radix) == q && Rem(q * radix + r, radix) == r
    decreases q
  {
    if q > 0 {
      assert q * radix == (q - 1) * radix + radix;
      QuotOf(q - 1, r, radix);
    }
  }

  /** They are the machine's operations. */
  lemma {:induction false} QuotIsDivision(v: nat, radix: int)
    requires Radix(radix)
    ensures v / radix == Quot(v, radix) && v % radix == Rem(v, radix)
  {
    var q, r := v / radix, v % radix;
    assert v == q * radix + r;
    QuotOf(q, r, radix);
  }

  /** The digits of a number, most significant first; none for 0. */
  function Positional(v: nat, radix: int): (s: seq<byte>)
    requires Radix(radix)
    decreases v
  {
    if v == 0 then []
    else
      QuotRem(v, radix);
      Positional(Quot(v, radix), radix) + [Digit(Rem(v, radix))]
  }

  function Itoa(v: nat, radix: int): seq<byte>
    requires Radix(radix)
  {
    if v == 0 then [Digit(0)] else Positional(v, radix)
  }

  /** Reading a numeral back. */
  function Parse(s: seq<byte>, radix: int): nat
    requires Radix(radix)
    decreases |s|
  {
    if s == [] then 0 else Parse(s[..|s| - 1], radix) * radix + DigitOf(s[|s| - 1])
  }

  /** A numeral: digits of the radix only, and no leading zero unless it is 0 itself. */
  ghost predicate Numeral(s: seq<byte>, radix: int) {
    && s != [] && (forall k :: 0 <= k < |s| ==> DigitOf(s[k]) < radix)
    && (s[0] == Digit(0) ==> |s| == 1)
  }

  lemma {:induction false} PositionalIsNumeral(v: nat, radix: int)
    requires Radix(radix) && v > 0
    ensures Numeral(Positional(v, radix), radix) && Positional(v, radix)[0] != Digit(0)
    decreases v
  {
    DigitRoundTrip(Rem(v, radix), 0);
    QuotRem(v, radix);
    if Quot(v, radix) > 0 { PositionalIsNumeral(Quot(v, radix), radix); }
  }

  lemma {:induction false} ParsePositional(v: nat, radix: int)
    requires Radix(radix)
    ensures Parse(Positional(v, radix), radix) == v
    decreases v
  {
    if v > 0 {
      QuotRem(v, radix);
      ParsePositional(Quot(v, radix), radix);
      DigitRoundTrip(Rem(v, radix), 0);
      var s := Positional(v, radix);
      assert s[..|s| - 1] == Positional(Quot(v, radix), radix);
    }
  }

  /** Printing gives a numeral, and reading it gives the number back. */
  lemma {:induction false} ParseOfItoa(v: nat, radix: int)
    requires Radix(radix)
    ensures Numeral(Itoa(v, radix), radix) && Parse(Itoa(v, radix), radix) == v
  {
    DigitRoundTrip(0, 0);
    if v > 0 {
      PositionalIsNumeral(v, radix);
      ParsePositional(v, radix);
    } else {
      assert Parse([Digit(0)], radix) == Parse([], radix) * radix + 0;
    }
  }

  lemma {:induction false} PositionalStep(q: nat, d: nat, radix: int)
    requires Radix(radix) && d < radix && (q > 0 || d > 0)
    ensures q * radix + d > 0 && Positional(q * radix + d, radix) == Positional(q, radix) + [Digit(d)]
  {
    QuotOf(q, d, radix);
    if q > 0 { assert q * radix == (q - 1) * radix + radix && (q - 1) * radix >= 0; }
  }

  lemma {:induction false} ParseStep(init: seq<byte>, c: byte, radix: int)
    requires Radix(radix)
    ensures Parse(init + [c], radix) == Parse(init, radix) * radix + DigitOf(c)
  {
    assert (init + [c])[..|init|] == init;
  }

  lemma {:induction false} PositionalOfParse(s: seq<byte>, radix: int)
    requires Radix(radix) && Numeral(s, radix) && s[0] != Digit(0)
    ensures Parse(s, radix) > 0 && Positional(Parse(s, radix), radix) == s
    decreases |s|
  {
    var init, c := s[..|s| - 1], s[|s| - 1];
    var q := Parse(init, radix);
    DigitRoundTrip(0, c);
    assert s == init + [c];
    ParseStep(init, c, radix);
    if init == [] {
      assert q == 0 && Positional(q, radix) == [];
    } else {
      PositionalOfParse(init, radix);
    }
    PositionalStep(q, DigitOf(c), radix);
  }

  /** Reading a numeral and printing it gives the numeral back. */
  lemma {:induction false} ItoaOfParse(s: seq<byte>, radix: int)
    requires Radix(radix) && Numeral(s, radix)
    ensures Itoa(Parse(s, radix), radix) == s
  {
    DigitRoundTrip(0, 0);
    if s[0] == Digit(0) {
      assert s == [Digit(0)];
      assert Parse(s, radix) == Parse([], radix) * radix + 0;
    } else {
      PositionalOfParse(s, radix);
    }
  }

  lemma {:induction false} Pow2Sum(a: nat, b: nat)
    ensures Pow2(a + b) == Pow2(a) * Pow2(b)
    decreases a
  {
    if a > 0 {
      Pow2Sum(a - 1, b);
      assert Pow2(a) * Pow2(b) == 2 * (Pow2(a - 1) * Pow2(b));
    }
  }

  lemma {:induction false} PositionalIsShort(v: nat, radix: int, n: nat)
    requires Radix(radix) && v < Pow2(n)
    ensures |Positional(v, radix)| <= n
    decreases n
  {
    if v > 0 {
      QuotRem(v, radix);
      PositionalIsShort(Quot(v, radix), radix, n - 1);
    }
  }

  /** 32 digits and a NUL fit every number in every radix. */
  lemma {:induction false} ItoaFits(v: u32, radix: int)
    requires Radix(radix)
    ensures 1 <= |Itoa(v, radix)| <= 32 && NUL !in Itoa(v, radix)
  {
    assert Pow2(8) == 0x100;
    Pow2Sum(8, 8);
    Pow2Sum(16, 16);
    PositionalIsShort(v, radix, 32);
    ParseOfItoa(v, radix);
  }

  // ------------------------------------------------------------ in the buffer

  function Reversed(s: seq<byte>): (r: seq<byte>)
    ensures |r| == |s|
  {
    seq<byte>(|s|, k requires 0 <= k < |s| => s[|s| - 1 - k])
  }

  lemma {:induction false} ReversedMore(s: seq<byte>, c: byte)
    ensures Reversed(s + [c]) == [c] + Reversed(s)
  {
  }

  /** The outer parts of the first len bytes are exchanged, the rest is as it was. */
  ghost predicate Turned(s: seq<byte>, was: seq<byte>, beg: nat, len: nat) {
    && |s| == |was| && 2 * beg <= len <= |s|
    && (forall k {:trigger s[k]} :: 0 <= k < |s| ==>
          s[k] == if k < len && (k < beg || k >= len - beg) then was[len - 1 - k] else was[k])
  }

  lemma {:induction false} TurnedMore(s: seq<byte>, was: seq<byte>, beg: nat, len: nat)
    requires Turned(s, was, beg, len) && beg < len - 1 - beg
    ensures Turned(s[len - 1 - beg := s[beg]][beg := s[len - 1 - beg]], was, beg + 1, len)
  {
    var end := len - 1 - beg;
    var t := s[end := s[beg]][beg := s[end]];
    assert s[beg] == was[beg] && s[end] == was[end];
    assert forall k :: 0 <= k < |t| && k != beg && k != end ==> t[k] == s[k];
  }

  lemma {:induction false} TurnedAll(s: seq<byte>, was: seq<byte>, beg: nat, len: nat)
    requires Turned(s, was, beg, len) && beg >= len - 1 - beg
    ensures s == Splice(was, 0, Reversed(was[..len]))
  {
    forall k | 0 <= k < |s| ensures s[k] == Splice(was, 0, Reversed(was[..len]))[k] {
      SpliceAt(was, 0, Reversed(was[..len]), k);
      if k < len { assert Reversed(was[..len])[k] == was[len - 1 - k]; }
    }
  }

  /** Reverses the string at the front of the buffer. */
  method StrRev(s: array<byte>, ghost t: seq<byte>)
    requires Terminated(s[..]) && t == CString(s[..])
    modifies s
    ensures s[..] == Splice(old(s[..]), 0, Reversed(t))
  {
    TerminatedString(s[..]);
    ghost var was := s[..];
    var len := StrLen(s[..]);
    var beg: nat, end: int := 0, len - 1;
    while beg < end
      invariant 0 <= beg <= len && end == len - 1 - beg && Turned(s[..], was, beg, len)
      decreases end
    {
      TurnedMore(s[..], was, beg, len);
      var tmp := s[end];
      s[end] := s[beg];
      s[beg] := tmp;
      beg := beg + 1;
      end := end - 1;
    }
    TurnedAll(s[..], was, beg, len);
  }

  /** The digits still to come and those written so far, least significant first. */
  ghost predicate Written(whole: seq<byte>, left: nat, low: seq<byte>, radix: int)
    requires Radix(radix)
  {
    whole == Positional(left, radix) + Reversed(low) && NUL !in low
  }

  lemma {:induction false} WriteMore(whole: seq<byte>, left: nat, low: seq<byte>, radix: int)
    requires Radix(radix) && Written(whole, left, low, radix) && left > 0
    ensures 0 <= left % radix < radix && 0 <= left / radix < left
    ensures Written(whole, left / radix, low + [Digit(left % radix)], radix) && |low| < |whole|
  {
    QuotIsDivision(left, radix);
    QuotRem(left, radix);
    ReversedMore(low, Digit(left % radix));
    var p, c := Positional(left / radix, radix), Digit(left % radix);
    assert (p + [c]) + Reversed(low) == p + ([c] + Reversed(low));
  }

  /** Closing the string and turning it round. */
  method Finish(buf: array<byte>, n: nat, ghost was: seq<byte>, ghost low: seq<byte>)
    requires |low| == n < buf.Length == |was| && NUL !in low && buf[..] == Splice(was, 0, low)
    modifies buf
    ensures buf[..] == Splice(was, 0, Reversed(low) + [NUL])
  {
    SpliceMore(was, 0, low, NUL);
    buf[n] := NUL;
    ghost var now := buf[..];
    assert now[..n] == low && now[n] == NUL;
    CStringIs(now, n);
    StrRev(buf, low);
    SpliceIs(was, 0, Reversed(low) + [NUL], buf[..]);
  }

  /** The user library's itoa. */
  method UserItoa(value: u32, buf: array<byte>, radix: int)
    requires Radix(radix) && |Itoa(value, radix)| < buf.Length
    modifies buf
    ensures buf[..] == Splice(old(buf[..]), 0, Itoa(value, radix) + [NUL])
  {
    ghost var was, whole := buf[..], Itoa(value, radix);
    if value == 0 {
      buf[0] := '0' as int;
      buf[1] := NUL;
      SpliceIs(was, 0, whole + [NUL], buf[..]);
      return;
    }
    var newval, n := value, 0;
    ghost var low: seq<byte> := [];
    assert buf[..] == Splice(was, 0, low) && Reversed(low) == [];
    while newval > 0
      invariant 0 <= newval <= value && n == |low| <= |whole| && Written(whole, newval, low, radix)
      invariant |was| == buf.Length && buf[..] == Splice(was, 0, low)
      decreases newval
    {
      WriteMore(whole, newval, low, radix);
      var i := newval % radix;
      SpliceMore(was, 0, low, Digit(i));
      TableHolds(i);
      low := low + [Digit(i)];
      buf[n] := LOOKUP[i] as int;
      n := n + 1;
      newval := newval / radix;
    }
    assert whole == Reversed(low);
    Finish(buf, n, was, low);
  }

  // --------------------------------------------------------- the kernel's copy

  /** The remainder of a word read as a signed number, truncated toward zero. */
  function SignedRem(v: u32, radix: int): int
    requires Radix(radix)
  {
    if v < 0x8000_0000 then v % radix else -((0x1_0000_0000 - v) % radix)
  }

  /** What the kernel's itoa prints; nothing if it looks up a digit before its table. */
  function KernelItoa(v: u32, radix: int): Option<seq<byte>>
    requires Radix(radix)
  {
    if SignedRem(v, radix) < 0 then None
    else if v < 0x8000_0000 then Some(Itoa(v, radix))
    else Some(Positional(v / radix, radix) + [Digit(0)])
  }

  /** The kernel prints the same as the user library exactly for the numbers that are not
      negative as signed words, and those above whose last digit is 0 either way. */
  lemma {:induction false} KernelAgreesIff(v: u32, radix: int)
    requires Radix(radix)
    ensures KernelItoa(v, radix) == Some(Itoa(v, radix))
       <==> v < 0x8000_0000 || ((0x1_0000_0000 - v) % radix == 0 && v % radix == 0)
  {
    if v >= 0x8000_0000 {
      QuotIsDivision(v, radix);
      QuotRem(v, radix);
      DigitRoundTrip(v % radix, 0);
      DigitRoundTrip(0, 0);
      var p := Positional(v / radix, radix);
      assert Itoa(v, radix) == p + [Digit(v % radix)];
      assert (p + [Digit(v % radix)])[|p|] == Digit(v % radix) && (p + [Digit(0)])[|p|] == Digit(0);
    }
  }

  /** The largest word is looked up before the table, and a smaller one gets a wrong digit. */
  lemma {:induction false} KernelGoesWrong()
    ensures KernelItoa(0xFFFF_FFFF, 10) == None
    ensures KernelItoa(0xFFFF_FFF6, 10).Some? && KernelItoa(0xFFFF_FFF6, 10) != Some(Itoa(0xFFFF_FFF6, 10))
  {
    KernelAgreesIff(0xFFFF_FFF6, 10);
  }

  /** The kernel's loop: only its first digit can come from a negative word. */
  ghost predicate Tracks(value: u32, left: u32, low: seq<byte>, radix: int)
    requires Radix(radix)
  {
    if left >= 0x8000_0000 then left == value && low == []
    else
      && KernelItoa(value, radix).Some? && NUL !in low
      && Written(KernelItoa(value, radix).value, left, low, radix)
  }

  lemma {:induction false} KernelLength(value: u32, radix: int)
    requires Radix(radix) && KernelItoa(value, radix).Some?
    ensures |KernelItoa(value, radix).value| == |Itoa(value, radix)|
  {
    if value > 0 { QuotIsDivision(value, radix); }
  }

  lemma {:induction false} KernelFirst(value: u32, radix: int)
    requires Radix(radix) && value >= 0x8000_0000 && SignedRem(value, radix) >= 0
    ensures SignedRem(value, radix) == 0 && value / radix < 0x8000_0000
    ensures Tracks(value, value / radix, [Digit(0)], radix)
  {
    QuotIsDivision(value, radix);
    QuotRem(value, radix);
    assert Reversed([Digit(0)]) == [Digit(0)];
  }

  lemma {:induction false} KernelMore(value: u32, left: u32, low: seq<byte>, radix: int)
    requires Radix(radix) && Tracks(value, left, low, radix) && 0 < left <= value && SignedRem(left, radix) >= 0
    ensures SignedRem(left, radix) < radix && 0 <= left / radix < left
    ensures Tracks(value, left / radix, low + [Digit(SignedRem(left, radix))], radix)
    ensures |low| < |Itoa(value, radix)|
  {
    QuotIsDivision(left, radix);
    QuotRem(left, radix);
    ItoaFits(value, radix);
    if left >= 0x8000_0000 {
      KernelFirst(value, radix);
      assert low + [Digit(0)] == [Digit(0)];
    } else {
      KernelLength(value, radix);
      WriteMore(KernelItoa(value, radix).value, left, low, radix);
    }
  }

  /** The kernel's itoa; ok is false if it reads outside its table. */
  method KernelItoaInPlace(value: u32, buf: array<byte>, radix: int) returns (ok: bool)
    requires Radix(radix) && |Itoa(value, radix)| < buf.Length
    modifies buf
    ensures ok <==> KernelItoa(value, radix).Some?
    ensures ok ==> |KernelItoa(value, radix).value| < buf.Length
                   && buf[..] == Splice(old(buf[..]), 0, KernelItoa(value, radix).value + [NUL])
  {
    ghost var was := buf[..];
    if value == 0 {
      buf[0] := '0' as int;
      buf[1] := NUL;
      SpliceIs(was, 0, Itoa(value, radix) + [NUL], buf[..]);
      return true;
    }
    var newval, n := value, 0;
    ghost var low: seq<byte> := [];
    assert buf[..] == Splice(was, 0, low) && Reversed(low) == [];
    while newval > 0
      invariant 0 <= newval <= value && n == |low| <= |Itoa(value, radix)| && Tracks(value, newval, low, radix)
      invariant |was| == buf.Length && buf[..] == Splice(was, 0, low)
      decreases newval
    {
      var i := SignedRem(newval, radix);
      if i < 0 {
        OnlyFirstIsNegative(newval, radix);
        return false;
      }
      KernelMore(value, newval, low, radix);
      SpliceMore(was, 0, low, Digit(i));
      TableHolds(i);
      low := low + [Digit(i)];
      buf[n] := LOOKUP[i] as int;
      n := n + 1;
      newval := newval / radix;
    }
    assert KernelItoa(value, radix).value == Reversed(low);
    KernelLength(value, radix);
    Finish(buf, n, was, low);
    return true;
  }

  lemma {:induction false} OnlyFirstIsNegative(v: u32, radix: int)
    requires Radix(radix) && SignedRem(v, radix) < 0
    ensures v >= 0x8000_0000
  {
    QuotIsDivision(v, radix);
  }
}
