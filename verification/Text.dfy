/** Laying a byte string out in rows of bounded width.  The 80-column display and the
    1024-byte line buffer of grep are both described by the same function. */
module Text {
  import opened Bytes

  /** The length of the first row: up to a newline, the end of the text or the width. */
  function RowEnd(t: seq<byte>, width: nat): (n: nat)
    ensures n <= |t| && n <= width
    ensures forall i :: 0 <= i < n ==> t[i] != NEWLINE
    ensures n < |t| && n < width ==> t[n] == NEWLINE
  {
    if width == 0 || t == [] || t[0] == NEWLINE then 0
    else
      1 + RowEnd(t[1..], width - 1)
  }

  /** Only one length meets the description of RowEnd. */
  lemma {:induction false} RowEndUnique(t: seq<byte>, width: nat, n: nat)
    requires n <= |t| && n <= width
    requires forall i :: 0 <= i < n ==> t[i] != NEWLINE
    requires n == |t| || n == width || t[n] == NEWLINE
    ensures n == RowEnd(t, width)
  {
  }

  /** The rows of a text: a newline ends a row and so does a row's last column.
      There is always a last, unfinished row; it may be empty. */
  function Rows(t: seq<byte>, width: nat): (rows: seq<seq<byte>>)
    requires 0 < width
    ensures |rows| >= 1 && |rows[|rows| - 1]| < width
    ensures forall i :: 0 <= i < |rows| ==> |rows[i]| <= width && NEWLINE !in rows[i]
    decreases |t|
  {
    var n := RowEnd(t, width);
    if n == width then [t[..n]] + Rows(t[n..], width)
    else if n == |t| then [t]
    else [t[..n]] + Rows(t[n + 1..], width)
  }

  /** How one more byte changes the rows. */
  function Extend(rows: seq<seq<byte>>, c: byte, width: nat): (r: seq<seq<byte>>)
    requires |rows| >= 1
  {
    var all := rows[..|rows| - 1];
    var last := rows[|rows| - 1];
    if c == NEWLINE then rows + [[]]
    else if |last| + 1 < width then all + [last + [c]]
    else all + [last + [c], []]
  }

  lemma {:induction false} ExtendAfterRow(row: seq<byte>, rows: seq<seq<byte>>, c: byte, width: nat)
    requires |rows| >= 1
    ensures Extend([row] + rows, c, width) == [row] + Extend(rows, c, width)
  {
    var more := [row] + rows;
    assert more[..|more| - 1] == [row] + rows[..|rows| - 1];
  }

  lemma {:induction false} RowsFull(t: seq<byte>, width: nat)
    requires 0 < width && RowEnd(t, width) == width
    ensures Rows(t, width) == [t[..width]] + Rows(t[width..], width)
  {
  }

  lemma {:induction false} RowsLine(t: seq<byte>, width: nat, n: nat)
    requires 0 < width && RowEnd(t, width) == n < width && n < |t|
    ensures Rows(t, width) == [t[..n]] + Rows(t[n + 1..], width)
  {
  }

  lemma {:induction false} RowsRest(t: seq<byte>, width: nat)
    requires 0 < width && RowEnd(t, width) == |t| < width
    ensures Rows(t, width) == [t]
  {
  }

  /** The text ends in its last row. */
  lemma {:induction false} LastRowLonger(t: seq<byte>, c: byte, width: nat)
    requires 0 < width && RowEnd(t, width) == |t| < width
    ensures Rows(t + [c], width) == Extend([t], c, width)
  {
    var n, s := |t|, t + [c];
    RowsRest([], width);
    if c == NEWLINE {
      RowEndUnique(s, width, n);
      RowsLine(s, width, n);
      assert s[..n] == t && s[n + 1..] == [];
    } else {
      RowEndUnique(s, width, n + 1);
      if n + 1 == width {
        RowsFull(s, width);
        assert s[..width] == s && s[width..] == [];
      } else {
        RowsRest(s, width);
      }
    }
  }

  /** Laying out text a byte at a time agrees with laying out all of it. */
  lemma {:induction false} RowsOfLonger(t: seq<byte>, c: byte, width: nat)
    requires 0 < width
    ensures Rows(t + [c], width) == Extend(Rows(t, width), c, width)
    decreases |t|
  {
    hide Rows, RowEnd, Extend;
    var n := RowEnd(t, width);
    var s := t + [c];
    if n == width {
      RowEndUnique(s, width, n);
      assert s[..n] == t[..n] && s[n..] == t[n..] + [c];
      RowsFull(s, width);
      RowsFull(t, width);
      RowsOfLonger(t[n..], c, width);
      ExtendAfterRow(t[..n], Rows(t[n..], width), c, width);
    } else if n < |t| {
      RowEndUnique(s, width, n);
      assert s[..n] == t[..n] && s[n + 1..] == t[n + 1..] + [c];
      RowsLine(s, width, n);
      RowsLine(t, width, n);
      RowsOfLonger(t[n + 1..], c, width);
      ExtendAfterRow(t[..n], Rows(t[n + 1..], width), c, width);
    } else {
      RowsRest(t, width);
      LastRowLonger(t, c, width);
    }
  }
}
