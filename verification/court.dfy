/** The court: the single NX-by-NY grid of squares that locked pieces are
    stamped onto, with the cell accessors, the one-row collapse of
    `removeLine` and the full-row scan of `removeLines`. */
module Court {
  import opened Pieces

  /** Width and height of the court, in blocks. */
  const NX: nat := 10
  const NY: nat := 10

  /** A court square: empty, or holding the kind of the piece that locked over it. */
  datatype Square = Vacant | Filled(kind: Kind)

  /** One row of the court, left to right. */
  type Row = r: seq<Square> | |r| == NX witness seq(10, _ => Vacant)

  /** The court, row 0 at the top. The source keeps the same squares column
      by column (`blocks[x][y]`); `Get` and `Set` read and write them by (x, y). */
  type Board = b: seq<Row> | |b| == NY witness seq(10, _ => seq(10, _ => Vacant))

  /** A cell inside the court. */
  predicate InCourt(p: Pos)
  {
    0 <= p.x < NX && 0 <= p.y < NY
  }

  /** A row with nothing in it. */
  function EmptyRow(): (r: Row)
    ensures forall x :: 0 <= x < NX ==> r[x] == Vacant
  {
    seq(NX, _ => Vacant)
  }

  /** The court after `clearBlocks`. */
  function EmptyBoard(): (b: Board)
    ensures forall x, y :: Get(b, x, y) == Vacant
  {
    seq(NY, _ => EmptyRow())
  }

  /** `getBlock`: the square at (x, y); a cell outside the court reads as empty. */
  function Get(b: Board, x: int, y: int): (s: Square)
    ensures !InCourt(Pos(x, y)) ==> s == Vacant
  {
    if InCourt(Pos(x, y)) then b[y][x] else Vacant
  }

  /** `setBlock`: writes one square and leaves every other square as it was.
      A write outside the court is dropped (see the README). */
  function Set(b: Board, x: int, y: int, s: Square): (r: Board)
    ensures forall x', y' :: Get(r, x', y') ==
              if x' == x && y' == y && InCourt(Pos(x, y)) then s else Get(b, x', y')
  {
    if InCourt(Pos(x, y)) then b[y := b[y][x := s]] else b
  }

  /** Every square of the row is occupied. */
  predicate Full(r: Row)
  {
    forall x :: 0 <= x < NX ==> r[x] != Vacant
  }

  /** The `complete` test of `removeLines`: every column of row y holds a block.
      A row outside the court is never complete. */
  predicate RowComplete(b: Board, y: int)
  {
    forall x :: 0 <= x < NX ==> Get(b, x, y) != Vacant
  }

  lemma RowCompleteIsFull(b: Board, y: int)
    ensures RowComplete(b, y) <==> 0 <= y < NY && Full(b[y])
  {
    if !(0 <= y < NY) {
      assert Get(b, 0, y) == Vacant;
    } else if RowComplete(b, y) {
      {
        forall x | 0 <= x < NX
          ensures b[y][x] != Vacant
        {
          assert Get(b, x, y) != Vacant;
        }
      }
    }
    if 0 <= y < NY && Full(b[y]) {
      forall x | 0 <= x < NX
        ensures Get(b, x, y) != Vacant
      {
        assert b[y][x] != Vacant;
      }
    }
  }

  /** The court after `removeLine(n)`: row n disappears, the rows above it
      move down by one and an empty row appears at the top. */
  function ShiftDown(b: Board, n: int): (r: Board)
    requires 0 <= n < NY
    ensures forall x, y :: 0 <= x < NX && 0 <= y <= n ==>
              Get(r, x, y) == if y == 0 then Vacant else Get(b, x, y - 1)
    ensures forall x, y :: !(0 <= y <= n) ==> Get(r, x, y) == Get(b, x, y)
  {
    [EmptyRow()] + b[..n] + b[n + 1..]
  }

  /** The two loops of `removeLine(n)`: for y from n down to 0 and every
      column x, copy the square above, or empty for row 0. They compute
      `ShiftDown`. */
  method RemoveLine(b: Board, n: int) returns (r: Board)
    requires 0 <= n < NY
    ensures r == ShiftDown(b, n)
  {
    ghost var target := ShiftDown(b, n);
    r := b;
    var y := n;
    while y >= 0
      invariant -1 <= y <= n
      invariant forall yy :: 0 <= yy < NY && y < yy <= n ==> r[yy] == target[yy]
      invariant forall yy :: 0 <= yy < NY && !(y < yy <= n) ==> r[yy] == b[yy]
    {
      var x := 0;
      while x < NX
        invariant 0 <= x <= NX
        invariant forall yy :: 0 <= yy < NY && y < yy <= n ==> r[yy] == target[yy]
        invariant forall yy :: 0 <= yy < NY && yy != y && !(y < yy <= n) ==> r[yy] == b[yy]
        invariant forall xx :: 0 <= xx < x ==> r[y][xx] == target[y][xx]
        invariant forall xx :: x <= xx < NX ==> r[y][xx] == b[y][xx]
      {
        assert Get(target, x, y) == (if y == 0 then Vacant else Get(b, x, y - 1));
        r := Set(r, x, y, if y == 0 then Vacant else Get(r, x, y - 1));
        x := x + 1;
      }
      assert r[y] == target[y];
      y := y - 1;
    }
    assert r == target;
  }

  /** Puts `s` at every listed cell, one after the other, as `dropPiece`
      does with the cells of the locking piece. */
  function Stamp(b: Board, cells: seq<Pos>, s: Square): (r: Board)
    ensures forall x, y :: Get(r, x, y) ==
              if Pos(x, y) in cells && InCourt(Pos(x, y)) then s else Get(b, x, y)
    decreases |cells|
  {
    if cells == [] then b
    else Stamp(Set(b, cells[0].x, cells[0].y, s), cells[1..], s)
  }

  /** The rows that are not full, in their original order. */
  function KeepRows(rs: seq<Row>): (kept: seq<Row>)
    ensures |kept| <= |rs|
    ensures forall i :: 0 <= i < |kept| ==> !Full(kept[i])
  {
    if rs == [] then []
    else (if Full(rs[0]) then [] else [rs[0]]) + KeepRows(rs[1..])
  }

  /** `n` empty rows. */
  function EmptyRows(n: nat): (rs: seq<Row>)
    ensures |rs| == n
    ensures forall i :: 0 <= i < n ==> rs[i] == EmptyRow()
  {
    seq(n, _ => EmptyRow())
  }

  /** Some full row other than the top one: what `removeLines` can find. */
  predicate FullBelowTop(b: Board)
  {
    exists y :: 1 <= y < NY && Full(b[y])
  }

  /** The outcome of a line clear: the new court and how many rows went. */
  datatype Cleared = Cleared(board: Board, count: nat)

  /** What `removeLines` does to the court, stated without its scan. If no row
      below the top is full, nothing changes. Otherwise every full row goes,
      the top row included (it is shifted into the scanned range once a row
      below it has been removed), the remaining rows keep their order and
      empty rows fill the top. */
  function ClearLines(b: Board): (c: Cleared)
    ensures c.count <= NY
    ensures c.count == 0 <==> !FullBelowTop(b)
    ensures c.count == 0 ==> c.board == b
    ensures c.count > 0 ==> forall y :: 0 <= y < NY ==> !Full(c.board[y])
    ensures c.count > 0 ==> c.board[c.count..] == KeepRows(b)
    ensures forall y :: 0 <= y < c.count ==> c.board[y] == EmptyRow()
  {
    if !FullBelowTop(b) then Cleared(b, 0)
    else
      var kept := KeepRows(b);
      KeepRowsDrops(b);
      var n := NY - |kept|;
      assert !Full(EmptyRow()) by { assert EmptyRow()[0] == Vacant; }
      Cleared(EmptyRows(n) + kept, n)
  }

  /** A full row anywhere makes `KeepRows` strictly shorter. */
  lemma {:induction false} KeepRowsDrops(rs: seq<Row>)
    ensures (exists i :: 0 <= i < |rs| && Full(rs[i])) ==> |KeepRows(rs)| < |rs|
    ensures (forall i :: 0 <= i < |rs| ==> !Full(rs[i])) ==> KeepRows(rs) == rs
  {
    if rs != [] {
      KeepRowsDrops(rs[1..]);
      if exists i :: 0 <= i < |rs| && Full(rs[i]) {
        var i :| 0 <= i < |rs| && Full(rs[i]);
        if i > 0 {
          assert Full(rs[1..][i - 1]);
        }
      }
      if forall i :: 0 <= i < |rs| ==> !Full(rs[i]) {
        assert forall i :: 0 <= i < |rs[1..]| ==> !Full(rs[1..][i]) by {
          forall i | 0 <= i < |rs[1..]| ensures !Full(rs[1..][i]) {
            assert rs[1..][i] == rs[i + 1];
          }
        }
        assert rs == [rs[0]] + rs[1..];
      }
    }
  }

  /** `KeepRows` of a suffix that starts one row earlier. */
  lemma KeepRowsCons(rs: seq<Row>, j: nat)
    requires 0 < j <= |rs|
    ensures KeepRows(rs[j - 1..]) == (if Full(rs[j - 1]) then [] else [rs[j - 1]]) + KeepRows(rs[j..])
  {
    assert rs[j - 1..][1..] == rs[j..];
  }

  /** The scan of `removeLines`: y runs from NY (outside the court, never
      complete) down to 1; a complete row is removed and the same index is
      examined again. It computes `ClearLines`; `n` is the number of rows removed. */
  method RemoveLines(b: Board) returns (r: Board, n: nat)
    ensures Cleared(r, n) == ClearLines(b)
  {
    r, n := b, 0;
    var y := NY;
    ghost var j: nat := NY;
    while y > 0
      invariant 0 <= y <= NY
      invariant ScanState(b, r, n, j)
      invariant (y == NY && j == NY && n == 0) || (y < NY && 0 < j && y + 1 == n + j) || (y < NY && j == 0 && y < n)
      invariant n > 0 ==> FullBelowTop(b)
      decreases y, j
    {
      var complete := true;
      var x := 0;
      while x < NX
        invariant 0 <= x <= NX
        invariant complete <==> forall xx :: 0 <= xx < x ==> Get(r, xx, y) != Vacant
      {
        if Get(r, x, y) == Vacant {
          complete := false;
        }
        x := x + 1;
      }
      RowCompleteIsFull(r, y);
      ScanStep(b, r, n, j, y, complete);
      if complete {
        r := ShiftDown(r, y);
        y := y + 1;
        n := n + 1;
        j := j - 1;
      } else if y < NY && j > 0 {
        j := j - 1;
      }
      y := y - 1;
    }
    ScanEnd(b, r, n, j);
  }

  /** The scan state, in terms of the original court `b`: `n` empty rows on
      top, then rows 0..j-1 of `b` not yet examined, then what is kept of
      rows j.. of `b`. */
  ghost predicate ScanState(b: Board, r: Board, n: nat, j: nat)
  {
    && j <= NY
    && r == EmptyRows(n) + b[..j] + KeepRows(b[j..])
    && n + |KeepRows(b[j..])| == NY - j
  }

  /** One examined row, in terms of the original court. */
  lemma ScanStep(b: Board, r: Board, n: nat, j: nat, y: int, complete: bool)
    requires ScanState(b, r, n, j)
    requires (y == NY && j == NY && n == 0) || (y < NY && 0 < j && y + 1 == n + j) || (y < NY && j == 0 && y < n)
    requires 0 < y
    requires complete <==> 0 <= y < NY && Full(r[y])
    ensures complete ==> y < NY && 0 < j && y + 1 == n + j && Full(b[j - 1])
    ensures complete ==> ScanState(b, ShiftDown(r, y), n + 1, j - 1)
    ensures !complete && y < NY && j > 0 ==> ScanState(b, r, n, j - 1)
    ensures complete && n == 0 ==> FullBelowTop(b)
  {
    assert !Full(EmptyRow()) by { assert EmptyRow()[0] == Vacant; }
    if y < NY && 0 < j && y + 1 == n + j {
      assert r[y] == b[j - 1];
      KeepRowsCons(b, j);
      assert b[..j] == b[..j - 1] + [b[j - 1]];
      if complete {
        var s := ShiftDown(r, y);
        assert s == [EmptyRow()] + r[..y] + r[y + 1..];
        assert r[..y] == EmptyRows(n) + b[..j - 1];
        assert r[y + 1..] == KeepRows(b[j..]);
        assert EmptyRows(n + 1) == [EmptyRow()] + EmptyRows(n);
        if n == 0 {
          assert 1 <= j - 1 < NY && Full(b[j - 1]);
        }
      } else {
        assert EmptyRows(n) + b[..j] + KeepRows(b[j..]) ==
          EmptyRows(n) + b[..j - 1] + KeepRows(b[j - 1..]);
      }
    } else if y < NY && j == 0 {
      assert r[y] == EmptyRow();
    }
  }

  /** The scan has reached row 0: its court is `ClearLines`'s. */
  lemma ScanEnd(b: Board, r: Board, n: nat, j: nat)
    requires ScanState(b, r, n, j)
    requires (0 < j && 1 == n + j) || (j == 0 && 0 < n)
    requires n > 0 ==> FullBelowTop(b)
    ensures Cleared(r, n) == ClearLines(b)
  {
    if j == 1 {
      ScanEndKept(b, r);
    } else {
      ScanEndCleared(b, r, n);
    }
  }

  /** The scan ends having removed nothing: no row below the top was full. */
  lemma ScanEndKept(b: Board, r: Board)
    requires ScanState(b, r, 0, 1)
    ensures r == b && !FullBelowTop(b)
  {
    assert |KeepRows(b[1..])| == |b[1..]|;
    KeepRowsDrops(b[1..]);
    forall y | 1 <= y < NY
      ensures !Full(b[y])
    {
      assert b[1..][y - 1] == b[y];
    }
    assert KeepRows(b[1..]) == b[1..];
    assert r == b[..1] + b[1..];
  }

  /** The scan ends having removed rows: every row has been examined. */
  lemma ScanEndCleared(b: Board, r: Board, n: nat)
    requires ScanState(b, r, n, 0)
    ensures r == EmptyRows(n) + KeepRows(b)
    ensures n == NY - |KeepRows(b)|
  {
    assert b[0..] == b;
    assert b[..0] == [];
  }
}
