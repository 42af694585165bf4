/** NUL-terminated strings in memory. */
module Strings {
  import opened Bytes

  /** A string in memory: its bytes up to the first NUL. */
  function CString(memory: seq<byte>): (r: seq<byte>)
    ensures |r| <= |memory| && r == memory[..|r|] && NUL !in r
    ensures |r| < |memory| ==> memory[|r|] == NUL
    decreases |memory|
  {
    if memory == [] || memory[0] == NUL then [] else [memory[0]] + CString(memory[1..])
  }

  lemma {:induction false} CStringIs(memory: seq<byte>, n: nat)
    requires n <= |memory| && NUL !in memory[..n] && (n < |memory| ==> memory[n] == NUL)
    ensures CString(memory) == memory[..n]
    decreases n
  {
    if n > 0 {
      assert memory[..n] == [memory[0]] + memory[1..][..n - 1];
      CStringIs(memory[1..], n - 1);
    }
  }

  ghost predicate Terminated(memory: seq<byte>) {
    NUL in memory
  }

  function Take(s: seq<byte>, n: nat): seq<byte> {
    s[..Min(n, |s|)]
  }

  lemma {:induction false} TerminatedString(memory: seq<byte>)
    requires Terminated(memory)
    ensures |CString(memory)| < |memory|
    decreases |memory|
  {
    if memory[0] != NUL {
      assert memory == [memory[0]] + memory[1..];
      TerminatedString(memory[1..]);
    }
  }

  /** Up to its end, a NUL is the end. */
  lemma {:induction false} EndsAt(memory: seq<byte>, k: nat)
    requires k <= |CString(memory)| < |memory|
    ensures memory[k] == NUL <==> k == |CString(memory)|
  {
    if k < |CString(memory)| { assert memory[k] == CString(memory)[k]; }
  }

  /** The first position from i on that holds no space, or the end. */
  function NonSpace(s: seq<byte>, i: nat): (r: nat)
    requires i <= |s|
    ensures i <= r <= |s|
    decreases |s| - i
  {
    if i < |s| && s[i] == SPACE then NonSpace(s, i + 1) else i
  }

  ghost predicate AllSpaces(s: seq<byte>, i: nat, j: nat)
    requires i <= j <= |s|
  {
    forall k :: i <= k < j ==> s[k] == SPACE
  }

  lemma {:induction false} NonSpaceIs(s: seq<byte>, i: nat, r: nat)
    requires i <= r <= |s|
    ensures NonSpace(s, i) == r <==> AllSpaces(s, i, r) && (r < |s| ==> s[r] != SPACE)
    decreases |s| - i
  {
    if i < r {
      NonSpaceIs(s, i + 1, r);
      assert s[i] == SPACE || !AllSpaces(s, i, r);
    }
  }

  /** The length of the string. */
  method StrLen(s: seq<byte>) returns (len: nat)
    requires Terminated(s)
    ensures len == |CString(s)|
  {
    TerminatedString(s);
    len := 0;
    EndsAt(s, len);
    while s[len] != NUL
      invariant len <= |CString(s)| < |s| && (s[len] == NUL <==> len == |CString(s)|)
      decreases |s| - len
    {
      len := len + 1;
      EndsAt(s, len);
    }
  }

  /** Whether the first n bytes hold the same string. */
  method StrNCmp(s1: seq<byte>, s2: seq<byte>, n: nat) returns (r: int)
    requires Terminated(s1) && n <= |s2|
    ensures r == 0 <==> CString(Take(s1, n)) == CString(Take(s2, n))
  {
    TerminatedString(s1);
    ghost var t1, t2 := Take(s1, n), Take(s2, n);
    var i := 0;
    while i < n
      invariant i <= n && i <= |CString(s1)|
      invariant s1[..i] == s2[..i] && NUL !in s1[..i]
      decreases n - i
    {
      if s1[i] != s2[i] || s1[i] == NUL {
        assert t1[..i] == s1[..i] && t2[..i] == s2[..i];
        if s1[i] == s2[i] {
          CStringIs(t1, i);
          CStringIs(t2, i);
        } else if |CString(t1)| > i && |CString(t2)| > i {
          assert CString(t1)[i] == s1[i] && CString(t2)[i] == s2[i];
        }
        return SignedChar(s1[i]) - SignedChar(s2[i]);
      }
      EndsAt(s1, i);
      i := i + 1;
    }
    assert t1 == s1[..n] && t2 == s2[..n];
    return 0;
  }

  /** Copies the string from src's index i on, its NUL included, to dest from index j on. */
  method StrCpy(dest: array<byte>, j: nat, src: seq<byte>, i: nat, ghost l: nat)
    requires Terminated(src) && l == |CString(src)| && i <= l && j + (l - i) < dest.Length
    modifies dest
    ensures dest[..] == Splice(old(dest[..]), j, CString(src)[i..] + [NUL])
  {
    TerminatedString(src);
    ghost var was, data: seq<byte> := dest[..], [];
    var k := 0;
    assert dest[..] == Splice(was, j, data);
    while src[i + k] != NUL
      invariant i + k <= l && |was| == dest.Length && |data| == k && data == src[i..i + k]
      invariant dest[..] == Splice(was, j, data)
      decreases l - (i + k)
    {
      EndsAt(src, i + k);
      SpliceMore(was, j, data, src[i + k]);
      data := data + [src[i + k]];
      dest[j + k] := src[i + k];
      k := k + 1;
    }
    EndsAt(src, i + k);
    SpliceMore(was, j, data, NUL);
    dest[j + k] := NUL;
    assert data == CString(src)[i..];
  }
}
