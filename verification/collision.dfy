/** The collision test `occupied`: a piece position is refused when one of
    its cells falls outside the court or onto a block. */
module Collision {
  import opened Pieces
  import opened Court

  /** A cell no piece may take: outside the court, or holding a block. */
  predicate Blocked(b: Board, c: Pos)
  {
    !InCourt(c) || Get(b, c.x, c.y) != Vacant
  }

  /** `occupied`: some cell of the piece is blocked. */
  predicate Occupied(b: Board, p: Piece)
  {
    exists c :: c in PieceCells(p) && Blocked(b, c)
  }

  /** Every cell of the piece lies inside the court. */
  predicate InsideCourt(p: Piece)
  {
    forall c :: c in PieceCells(p) ==> InCourt(c)
  }

  /** `occupied` stated on the mask itself: the piece is refused exactly when
      some set bit k of its mask stands for a blocked cell (x + k % 4, y + k / 4). */
  lemma OccupiedBits(b: Board, p: Piece)
    ensures Occupied(b, p) <==>
              exists k :: 0 <= k < 16 && Bit(Mask(p.kind, p.dir), k) && Blocked(b, BitCell(p.x, p.y, k))
  {
    if Occupied(b, p) {
      var c :| c in PieceCells(p) && Blocked(b, c);
      CellsMembership(p.kind, p.dir, p.x, p.y, c);
    }
    if exists k :: 0 <= k < 16 && Bit(Mask(p.kind, p.dir), k) && Blocked(b, BitCell(p.x, p.y, k)) {
      var k :| 0 <= k < 16 && Bit(Mask(p.kind, p.dir), k) && Blocked(b, BitCell(p.x, p.y, k));
      CellsMembership(p.kind, p.dir, p.x, p.y, BitCell(p.x, p.y, k));
    }
  }

  /** A position that is not occupied lies inside the court, on empty squares. */
  lemma FreeCells(b: Board, p: Piece)
    requires !Occupied(b, p)
    ensures InsideCourt(p)
    ensures forall c :: c in PieceCells(p) ==> Get(b, c.x, c.y) == Vacant
  {
  }

  /** `occupied` as the source computes it: expand the piece with `eachblock`
      and raise the result flag at every blocked cell. */
  method OccupiedScan(b: Board, k: Kind, x: int, y: int, dir: Rotation) returns (result: bool)
    ensures result <==> Occupied(b, Piece(k, dir, x, y))
  {
    var cells := EachBlock(k, x, y, dir);
    result := false;
    var i := 0;
    while i < |cells|
      invariant 0 <= i <= |cells|
      invariant result <==> exists j :: 0 <= j < i && Blocked(b, cells[j])
    {
      var c := cells[i];
      if c.x < 0 || c.x >= NX || c.y < 0 || c.y >= NY || Get(b, c.x, c.y) != Vacant {
        result := true;
      }
      assert result <==> (exists j :: 0 <= j < i && Blocked(b, cells[j])) || Blocked(b, cells[i]);
      i := i + 1;
    }
    ScanFound(b, cells);
  }

  /** The flag of the scan, once every cell has been seen, is `occupied`. */
  lemma ScanFound(b: Board, cells: seq<Pos>)
    ensures (exists j :: 0 <= j < |cells| && Blocked(b, cells[j])) <==> exists c :: c in cells && Blocked(b, c)
  {
    if exists c :: c in cells && Blocked(b, c) {
      var c :| c in cells && Blocked(b, c);
      var j :| 0 <= j < |cells| && cells[j] == c;
    }
  }

  /** Moving the box moves every cell by the same amount. */
  lemma CellsShift(x: int, y: int, bits: seq<nat>)
    ensures |CellsOfBits(x, y, bits)| == |CellsOfBits(0, 0, bits)|
    ensures forall i :: 0 <= i < |bits| ==>
              CellsOfBits(x, y, bits)[i] == Pos(x + CellsOfBits(0, 0, bits)[i].x, y + CellsOfBits(0, 0, bits)[i].y)
  {
  }

  /** The cells of a piece are its mask's cells at (0, 0), moved to (x, y):
      four distinct cells inside the size-by-size box at (x, y). */
  lemma PieceBox(p: Piece)
    ensures |PieceCells(p)| == 4
    ensures forall i, j :: 0 <= i < j < 4 ==> PieceCells(p)[i] != PieceCells(p)[j]
    ensures forall c :: c in PieceCells(p) ==>
              p.x <= c.x < p.x + Size(p.kind) && p.y <= c.y < p.y + Size(p.kind)
  {
    ShapesWellFormed(p.kind, p.dir);
    var bits := SetBits(Mask(p.kind, p.dir), 0);
    CellsShift(p.x, p.y, bits);
    var home := CellsOfBits(0, 0, bits);
    var cs := CellsOfBits(p.x, p.y, bits);
    assert cs == PieceCells(p);
    assert home == Cells(p.kind, p.dir, 0, 0);
    Boxed(p.x, p.y, Size(p.kind), home, cs);
  }

  /** Four distinct cells in the box at (0, 0), moved to (x, y). */
  lemma Boxed(x: int, y: int, size: nat, home: seq<Pos>, cs: seq<Pos>)
    requires |home| == 4 && |cs| == 4
    requires forall i :: 0 <= i < 4 ==> cs[i] == Pos(x + home[i].x, y + home[i].y)
    requires InBox(home[0], size) && InBox(home[1], size) && InBox(home[2], size) && InBox(home[3], size)
    requires home[0] != home[1] && home[0] != home[2] && home[0] != home[3]
    requires home[1] != home[2] && home[1] != home[3] && home[2] != home[3]
    ensures forall i, j :: 0 <= i < j < 4 ==> cs[i] != cs[j]
    ensures forall c :: c in cs ==> x <= c.x < x + size && y <= c.y < y + size
  {
    assert cs == [cs[0], cs[1], cs[2], cs[3]];
  }

  /** A piece whose box lies inside the court fits the empty court. */
  lemma BoxedFitsEmpty(p: Piece)
    requires 0 <= p.x <= NX - Size(p.kind)
    requires 0 <= p.y <= NY - Size(p.kind)
    ensures InsideCourt(p)
    ensures !Occupied(EmptyBoard(), p)
  {
    PieceBox(p);
  }
}
