/** Sequences laid out as grids: the x-major cell order that the nested
    `for x in x0..x1 { for y in y0..y1 { .. } }` loops of the bot produce,
    row flattening, and row reversal. */
module Grid {

  /** Number of values in the half-open range `lo..hi` (empty when hi <= lo). */
  function Span(lo: int, hi: int): nat
  {
    if hi > lo then hi - lo else 0
  }

  /** The values f(x, y0), .., f(x, y1 - 1). */
  function Row<T>(x: int, y0: int, y1: int, f: (int, int) -> T): seq<T>
  {
    seq(Span(y0, y1), j => f(x, y0 + j))
  }

  /** f over every cell of `x0..x1` × `y0..y1`, x-major: all of column x0
      first, then column x0 + 1, and so on. */
  function Cells<T>(x0: int, x1: int, y0: int, y1: int, f: (int, int) -> T): seq<T>
    decreases x1 - x0
  {
    if x1 <= x0 then [] else Cells(x0, x1 - 1, y0, y1, f) + Row(x1 - 1, y0, y1, f)
  }

  /** The same cells as `Cells`, one inner sequence per x. */
  function Rows<T>(x0: int, x1: int, y0: int, y1: int, f: (int, int) -> T): seq<seq<T>>
  {
    seq(Span(x0, x1), i => Row(x0 + i, y0, y1, f))
  }

  /** Concatenation of all rows, in order. */
  function Flatten<T>(rows: seq<seq<T>>): seq<T>
  {
    if rows == [] then [] else Flatten(rows[..|rows| - 1]) + rows[|rows| - 1]
  }

  /** The sequence read back to front. */
  function Reversed<T>(s: seq<T>): seq<T>
  {
    if s == [] then [] else Reversed(s[1..]) + [s[0]]
  }

  /** Cell (i, j) of the range sits at index i * height + j, and the whole
      range holds width * height cells. */
  lemma {:induction false} CellsAt<T>(x0: int, x1: int, y0: int, y1: int, f: (int, int) -> T, i: int, j: int)
    requires 0 <= i < Span(x0, x1) && 0 <= j < Span(y0, y1)
    ensures |Cells(x0, x1, y0, y1, f)| == Span(x0, x1) * Span(y0, y1)
    ensures i * Span(y0, y1) + j < |Cells(x0, x1, y0, y1, f)|
    ensures Cells(x0, x1, y0, y1, f)[i * Span(y0, y1) + j] == f(x0 + i, y0 + j)
    decreases x1 - x0
  {
    CellsLength(x0, x1, y0, y1, f);
    MulMono(i + 1, Span(x0, x1), Span(y0, y1));
    var h := Span(y0, y1);
    var w := Span(x0, x1 - 1);
    var prefix := Cells(x0, x1 - 1, y0, y1, f);
    var row := Row(x1 - 1, y0, y1, f);
    assert Cells(x0, x1, y0, y1, f) == prefix + row;
    CellsLength(x0, x1 - 1, y0, y1, f);
    assert |prefix| == w * h;
    if i < w {
      CellsAt(x0, x1 - 1, y0, y1, f, i, j);
      MulMono(i + 1, w, h);
      assert i * h + j < |prefix|;
    } else {
      assert i * h == |prefix|;
      assert row[j] == f(x1 - 1, y0 + j);
    }
  }

  /** Multiplying by a natural number keeps the order. */
  lemma MulMono(a: int, b: int, h: nat)
    requires a <= b
    ensures a * h <= b * h
  {
    assert b * h - a * h == (b - a) * h;
  }

  /** The range holds width * height cells (also when one side is empty). */
  lemma {:induction false} CellsLength<T>(x0: int, x1: int, y0: int, y1: int, f: (int, int) -> T)
    ensures |Cells(x0, x1, y0, y1, f)| == Span(x0, x1) * Span(y0, y1)
    decreases x1 - x0
  {
    if x1 > x0 {
      CellsLength(x0, x1 - 1, y0, y1, f);
      assert Span(x0, x1) * Span(y0, y1) == Span(x0, x1 - 1) * Span(y0, y1) + Span(y0, y1);
    }
  }

  /** Extending a row by one cell appends that cell. */
  lemma RowSnoc<T>(x: int, y0: int, y: int, f: (int, int) -> T)
    requires y0 <= y
    ensures Row(x, y0, y + 1, f) == Row(x, y0, y, f) + [f(x, y)]
  {
  }

  /** Every value in the range is f of some cell of the range. */
  lemma {:induction false} CellsMember<T>(x0: int, x1: int, y0: int, y1: int, f: (int, int) -> T, v: T)
    requires v in Cells(x0, x1, y0, y1, f)
    ensures exists a, b :: x0 <= a < x1 && y0 <= b < y1 && v == f(a, b)
    decreases x1 - x0
  {
    var prefix := Cells(x0, x1 - 1, y0, y1, f);
    if v in prefix {
      CellsMember(x0, x1 - 1, y0, y1, f, v);
    } else {
      var row := Row(x1 - 1, y0, y1, f);
      assert v in row;
      var j :| 0 <= j < |row| && row[j] == v;
      assert v == f(x1 - 1, y0 + j);
    }
  }

  /** Every cell of the range is visited. */
  lemma {:induction false} CellsCover<T>(x0: int, x1: int, y0: int, y1: int, f: (int, int) -> T, a: int, b: int)
    requires x0 <= a < x1 && y0 <= b < y1
    ensures f(a, b) in Cells(x0, x1, y0, y1, f)
  {
    CellsAt(x0, x1, y0, y1, f, a - x0, b - y0);
  }

  /** Flattening rows that all hold n values gives |rows| * n values, and
      value j of row i lands at index i * n + j. */
  lemma {:induction false} FlattenAt<T>(rows: seq<seq<T>>, n: nat, i: int, j: int)
    requires forall k :: 0 <= k < |rows| ==> |rows[k]| == n
    requires 0 <= i < |rows| && 0 <= j < n
    ensures |Flatten(rows)| == |rows| * n
    ensures i * n + j < |Flatten(rows)|
    ensures Flatten(rows)[i * n + j] == rows[i][j]
  {
    FlattenLength(rows, n);
    MulMono(i + 1, |rows|, n);
    var init := rows[..|rows| - 1];
    assert Flatten(rows) == Flatten(init) + rows[|rows| - 1];
    FlattenLength(init, n);
    if i < |init| {
      FlattenAt(init, n, i, j);
      MulMono(i + 1, |init|, n);
      assert i * n + j < |Flatten(init)|;
    } else {
      assert i * n == |Flatten(init)|;
    }
  }

  /** Rows of n values flatten to |rows| * n values. */
  lemma {:induction false} FlattenLength<T>(rows: seq<seq<T>>, n: nat)
    requires forall k :: 0 <= k < |rows| ==> |rows[k]| == n
    ensures |Flatten(rows)| == |rows| * n
  {
    if rows != [] {
      FlattenLength(rows[..|rows| - 1], n);
      assert |rows| * n == (|rows| - 1) * n + n;
    }
  }

  /** Appending a row appends its values. */
  lemma FlattenSnoc<T>(rows: seq<seq<T>>, row: seq<T>)
    ensures Flatten(rows + [row]) == Flatten(rows) + row
  {
    assert (rows + [row])[..|rows|] == rows;
  }

  /** `Rows` and `Cells` list the same cells. */
  lemma {:induction false} FlattenRows<T>(x0: int, x1: int, y0: int, y1: int, f: (int, int) -> T)
    ensures Flatten(Rows(x0, x1, y0, y1, f)) == Cells(x0, x1, y0, y1, f)
    decreases x1 - x0
  {
    var rows := Rows(x0, x1, y0, y1, f);
    if x1 > x0 {
      FlattenRows(x0, x1 - 1, y0, y1, f);
      assert rows[..|rows| - 1] == Rows(x0, x1 - 1, y0, y1, f);
      assert rows[|rows| - 1] == Row(x1 - 1, y0, y1, f);
    } else {
      assert rows == [];
    }
  }

  /** Reversal keeps the length and mirrors positions. */
  lemma {:induction false} ReversedAt<T>(s: seq<T>, k: int)
    requires 0 <= k < |s|
    ensures |Reversed(s)| == |s|
    ensures Reversed(s)[k] == s[|s| - 1 - k]
  {
    ReversedLength(s[1..]);
    if k < |s| - 1 {
      ReversedAt(s[1..], k);
    }
  }

  /** Reversal keeps the length. */
  lemma {:induction false} ReversedLength<T>(s: seq<T>)
    ensures |Reversed(s)| == |s|
  {
    if s != [] {
      ReversedLength(s[1..]);
    }
  }

  /** Reversing twice gives the original sequence back. */
  lemma ReversedTwice<T>(s: seq<T>)
    ensures Reversed(Reversed(s)) == s
  {
    ReversedLength(s);
    ReversedLength(Reversed(s));
    forall k | 0 <= k < |s|
      ensures Reversed(Reversed(s))[k] == s[k]
    {
      ReversedAt(Reversed(s), k);
      ReversedAt(s, |s| - 1 - k);
    }
  }
}
