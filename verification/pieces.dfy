/** Piece geometry of Quadrix: the seven piece kinds, their four rotations
    as 16-bit masks, and the expansion of a mask into court cells
    (most-significant bit first, four bits per row). */
module Pieces {

  /** The seven piece kinds; the drawing colour is not modelled. */
  datatype Kind = I | J | L | O | S | T | Z

  /** A rotation index, the `dir` field of a piece: 0 is the spawn rotation. */
  type Rotation = d: int | 0 <= d < 4

  /** A court cell: column `x`, row `y` (row 0 is the top). */
  datatype Pos = Pos(x: int, y: int)

  /** A falling piece: its kind, rotation and the court cell of its box's top-left corner. */
  datatype Piece = Piece(kind: Kind, dir: Rotation, x: int, y: int)

  /** Side of the bounding box a piece of this kind is spawned with. */
  function Size(k: Kind): (n: nat)
    ensures 2 <= n <= 4
    ensures n == 4 <==> k == I
  {
    match k
    case I => 4
    case O => 2
    case _ => 3
  }

  /** The rotation masks of the seven piece constants. */
  function Mask(k: Kind, dir: Rotation): (m: bv16)
    ensures m != 0
  {
    match k
    case I => [0x0F00, 0x2222, 0x00F0, 0x4444][dir]
    case J => [0x44C0, 0x8E00, 0x6440, 0x0E20][dir]
    case L => [0x4460, 0x0E80, 0xC440, 0x2E00][dir]
    case O => [0xCC00, 0xCC00, 0xCC00, 0xCC00][dir]
    case S => [0x06C0, 0x8C40, 0x6C00, 0x4620][dir]
    case T => [0x0E40, 0x4C40, 0x4E00, 0x4640][dir]
    case Z => [0x0C60, 0x4C80, 0xC600, 0x2640][dir]
  }

  /** The rotation a successful `rotate` moves to: 3 wraps round to 0. */
  function NextRotation(d: Rotation): (r: Rotation)
    ensures r != d
    ensures r == (d + 1) % 4
  {
    if d == 3 then 0 else d + 1
  }

  /** Bit `k` of the mask, counting from the most significant bit 0x8000. */
  predicate Bit(m: bv16, k: nat)
    requires k < 16
  {
    Hits(m, Probe(k))
  }

  /** The one-bit probe for bit index k: 0x8000 shifted right k times (0 once k is 16). */
  function Probe(k: nat): bv16
    requires k <= 16
  {
    0x8000 >> k
  }

  /** The test `blocks & bit` of `eachblock`. */
  predicate Hits(m: bv16, bit: bv16)
  {
    m & bit != 0
  }

  /** The probe step `bit >> 1` of `eachblock`. */
  function HalveProbe(bit: bv16): bv16
  {
    bit >> 1
  }

  /** The indexes k..15 of the set bits of `m`, most significant first. */
  function SetBits(m: bv16, k: nat): seq<nat>
    requires k <= 16
    decreases 16 - k
  {
    if k == 16 then []
    else if Bit(m, k) then [k] + SetBits(m, k + 1)
    else SetBits(m, k + 1)
  }

  /** The cell bit `j` of a mask stands for when the piece's box is at (x, y):
      bits run along a row of four, then on to the next row. */
  function BitCell(x: int, y: int, j: nat): Pos
  {
    Pos(x + j % 4, y + j / 4)
  }

  /** The cells a piece of kind `k` in rotation `dir` covers when its box is at
      (x, y): one per set bit of its mask, most significant bit first. */
  function Cells(k: Kind, dir: Rotation, x: int, y: int): seq<Pos>
  {
    CellsOfBits(x, y, SetBits(Mask(k, dir), 0))
  }

  /** The cells of the listed bit indexes, in the same order. */
  function CellsOfBits(x: int, y: int, bits: seq<nat>): seq<Pos>
  {
    seq(|bits|, i requires 0 <= i < |bits| => BitCell(x, y, bits[i]))
  }

  /** The cells of a piece. */
  function PieceCells(p: Piece): seq<Pos>
  {
    Cells(p.kind, p.dir, p.x, p.y)
  }

  /** The number of set bits among bit indexes k..15. */
  function PopCount(m: bv16, k: nat): nat
    requires k <= 16
    decreases 16 - k
  {
    if k == 16 then 0 else (if Bit(m, k) then 1 else 0) + PopCount(m, k + 1)
  }

  /** `SetBits` has one entry per set bit. */
  lemma {:induction false} SetBitsCount(m: bv16, k: nat)
    requires k <= 16
    ensures |SetBits(m, k)| == PopCount(m, k)
    decreases 16 - k
  {
    if k < 16 {
      SetBitsCount(m, k + 1);
    }
  }

  /** `SetBits` lists the set bits from index k on, and nothing else. */
  lemma {:induction false} SetBitsMembership(m: bv16, k: nat)
    requires k <= 16
    ensures forall j :: j in SetBits(m, k) <==> k <= j < 16 && Bit(m, j)
    decreases 16 - k
  {
    if k < 16 {
      SetBitsMembership(m, k + 1);
      if Bit(m, k) {
        assert SetBits(m, k) == [k] + SetBits(m, k + 1);
      }
    }
  }

  /** `SetBits` is strictly increasing: most significant bit first, no repeats. */
  lemma {:induction false} SetBitsIncreasing(m: bv16, k: nat)
    requires k <= 16
    ensures forall a, b :: 0 <= a < b < |SetBits(m, k)| ==> SetBits(m, k)[a] < SetBits(m, k)[b]
    decreases 16 - k
  {
    if k < 16 {
      SetBitsIncreasing(m, k + 1);
      SetBitsMembership(m, k + 1);
      if Bit(m, k) {
        var s := SetBits(m, k);
        assert s == [k] + SetBits(m, k + 1);
        forall a, b | 0 <= a < b < |s|
          ensures s[a] < s[b]
        {
          assert s[b] == SetBits(m, k + 1)[b - 1];
          assert s[b] in SetBits(m, k + 1);
          if a > 0 {
            assert s[a] == SetBits(m, k + 1)[a - 1];
          }
        }
      }
    }
  }

  /** A cell of a piece is exactly the cell of some set bit of its mask. */
  lemma CellsMembership(k: Kind, dir: Rotation, x: int, y: int, p: Pos)
    ensures p in Cells(k, dir, x, y) <==>
              exists j :: 0 <= j < 16 && Bit(Mask(k, dir), j) && p == BitCell(x, y, j)
  {
    var bits := SetBits(Mask(k, dir), 0);
    SetBitsMembership(Mask(k, dir), 0);
    if p in Cells(k, dir, x, y) {
      var i :| 0 <= i < |bits| && CellsOfBits(x, y, bits)[i] == p;
      assert bits[i] in bits;
    }
    if exists j :: 0 <= j < 16 && Bit(Mask(k, dir), j) && p == BitCell(x, y, j) {
      var j :| 0 <= j < 16 && Bit(Mask(k, dir), j) && p == BitCell(x, y, j);
      var i :| 0 <= i < |bits| && bits[i] == j;
      assert Cells(k, dir, x, y)[i] == p;
    }
  }

  /** A cell lies inside the size-by-size box at (0, 0). */
  predicate InBox(p: Pos, size: nat)
  {
    0 <= p.x < size && 0 <= p.y < size
  }

  /** Every piece constant, in every rotation, covers exactly four distinct
      cells, all inside its size-by-size box. */
  predicate WellShaped(k: Kind, dir: Rotation)
  {
    var cs := Cells(k, dir, 0, 0);
    && |cs| == 4
    && InBox(cs[0], Size(k)) && InBox(cs[1], Size(k)) && InBox(cs[2], Size(k)) && InBox(cs[3], Size(k))
    && cs[0] != cs[1] && cs[0] != cs[2] && cs[0] != cs[3]
    && cs[1] != cs[2] && cs[1] != cs[3] && cs[2] != cs[3]
  }

  /** The expansion of every mask constant, checked rotation by rotation. */
  lemma ShapesWellFormed(k: Kind, dir: Rotation)
    ensures WellShaped(k, dir)
    ensures PopCount(Mask(k, dir), 0) == 4
  {
    SetBitsCount(Mask(k, dir), 0);
    match k
    case I => ShapeI(dir);
    case J => ShapeJ(dir);
    case L => ShapeL(dir);
    case O => ShapeO(dir);
    case S => ShapeS(dir);
    case T => ShapeT(dir);
    case Z => ShapeZ(dir);
  }

  lemma ShapeI(dir: Rotation)
    ensures WellShaped(I, dir)
  {
    if dir == 0 { ShapeI0(); } else if dir == 1 { ShapeI1(); } else if dir == 2 { ShapeI2(); } else { ShapeI3(); }
  }

  lemma ShapeJ(dir: Rotation)
    ensures WellShaped(J, dir)
  {
    if dir == 0 { ShapeJ0(); } else if dir == 1 { ShapeJ1(); } else if dir == 2 { ShapeJ2(); } else { ShapeJ3(); }
  }

  lemma ShapeL(dir: Rotation)
    ensures WellShaped(L, dir)
  {
    if dir == 0 { ShapeL0(); } else if dir == 1 { ShapeL1(); } else if dir == 2 { ShapeL2(); } else { ShapeL3(); }
  }

  lemma ShapeO(dir: Rotation)
    ensures WellShaped(O, dir)
  {
    if dir == 0 { ShapeO0(); } else if dir == 1 { ShapeO1(); } else if dir == 2 { ShapeO2(); } else { ShapeO3(); }
  }

  lemma ShapeS(dir: Rotation)
    ensures WellShaped(S, dir)
  {
    if dir == 0 { ShapeS0(); } else if dir == 1 { ShapeS1(); } else if dir == 2 { ShapeS2(); } else { ShapeS3(); }
  }

  lemma ShapeT(dir: Rotation)
    ensures WellShaped(T, dir)
  {
    if dir == 0 { ShapeT0(); } else if dir == 1 { ShapeT1(); } else if dir == 2 { ShapeT2(); } else { ShapeT3(); }
  }

  lemma ShapeZ(dir: Rotation)
    ensures WellShaped(Z, dir)
  {
    if dir == 0 { ShapeZ0(); } else if dir == 1 { ShapeZ1(); } else if dir == 2 { ShapeZ2(); } else { ShapeZ3(); }
  }

  lemma ShapeI0()
    ensures WellShaped(I, 0)
  {
    assert Mask(I, 0) == 0x0F00;
    assert SetBits(0x0F00, 8) == [];
    assert SetBits(0x0F00, 0) == [4, 5, 6, 7];
  }

  lemma ShapeI1()
    ensures WellShaped(I, 1)
  {
    assert Mask(I, 1) == 0x2222;
    assert SetBits(0x2222, 8) == [10, 14];
    assert SetBits(0x2222, 0) == [2, 6, 10, 14];
  }

  lemma ShapeI2()
    ensures WellShaped(I, 2)
  {
    assert Mask(I, 2) == 0x00F0;
    assert SetBits(0x00F0, 8) == [8, 9, 10, 11];
    assert SetBits(0x00F0, 0) == [8, 9, 10, 11];
  }

  lemma ShapeI3()
    ensures WellShaped(I, 3)
  {
    assert Mask(I, 3) == 0x4444;
    assert SetBits(0x4444, 8) == [9, 13];
    assert SetBits(0x4444, 0) == [1, 5, 9, 13];
  }

  lemma ShapeJ0()
    ensures WellShaped(J, 0)
  {
    assert Mask(J, 0) == 0x44C0;
    assert SetBits(0x44C0, 8) == [8, 9];
    assert SetBits(0x44C0, 0) == [1, 5, 8, 9];
  }

  lemma ShapeJ1()
    ensures WellShaped(J, 1)
  {
    assert Mask(J, 1) == 0x8E00;
    assert SetBits(0x8E00, 8) == [];
    assert SetBits(0x8E00, 0) == [0, 4, 5, 6];
  }

  lemma ShapeJ2()
    ensures WellShaped(J, 2)
  {
    assert Mask(J, 2) == 0x6440;
    assert SetBits(0x6440, 8) == [9];
    assert SetBits(0x6440, 0) == [1, 2, 5, 9];
  }

  lemma ShapeJ3()
    ensures WellShaped(J, 3)
  {
    assert Mask(J, 3) == 0x0E20;
    assert SetBits(0x0E20, 8) == [10];
    assert SetBits(0x0E20, 0) == [4, 5, 6, 10];
  }

  lemma ShapeL0()
    ensures WellShaped(L, 0)
  {
    assert Mask(L, 0) == 0x4460;
    assert SetBits(0x4460, 8) == [9, 10];
    assert SetBits(0x4460, 0) == [1, 5, 9, 10];
  }

  lemma ShapeL1()
    ensures WellShaped(L, 1)
  {
    assert Mask(L, 1) == 0x0E80;
    assert SetBits(0x0E80, 8) == [8];
    assert SetBits(0x0E80, 0) == [4, 5, 6, 8];
  }

  lemma ShapeL2()
    ensures WellShaped(L, 2)
  {
    assert Mask(L, 2) == 0xC440;
    assert SetBits(0xC440, 8) == [9];
    assert SetBits(0xC440, 0) == [0, 1, 5, 9];
  }

  lemma ShapeL3()
    ensures WellShaped(L, 3)
  {
    assert Mask(L, 3) == 0x2E00;
    assert SetBits(0x2E00, 8) == [];
    assert SetBits(0x2E00, 0) == [2, 4, 5, 6];
  }

  lemma ShapeO0()
    ensures WellShaped(O, 0)
  {
    assert Mask(O, 0) == 0xCC00;
    assert SetBits(0xCC00, 8) == [];
    assert SetBits(0xCC00, 0) == [0, 1, 4, 5];
  }

  lemma ShapeO1()
    ensures WellShaped(O, 1)
  {
    assert Mask(O, 1) == 0xCC00;
    assert SetBits(0xCC00, 8) == [];
    assert SetBits(0xCC00, 0) == [0, 1, 4, 5];
  }

  lemma ShapeO2()
    ensures WellShaped(O, 2)
  {
    assert Mask(O, 2) == 0xCC00;
    assert SetBits(0xCC00, 8) == [];
    assert SetBits(0xCC00, 0) == [0, 1, 4, 5];
  }

  lemma ShapeO3()
    ensures WellShaped(O, 3)
  {
    assert Mask(O, 3) == 0xCC00;
    assert SetBits(0xCC00, 8) == [];
    assert SetBits(0xCC00, 0) == [0, 1, 4, 5];
  }

  lemma ShapeS0()
    ensures WellShaped(S, 0)
  {
    assert Mask(S, 0) == 0x06C0;
    assert SetBits(0x06C0, 8) == [8, 9];
    assert SetBits(0x06C0, 0) == [5, 6, 8, 9];
  }

  lemma ShapeS1()
    ensures WellShaped(S, 1)
  {
    assert Mask(S, 1) == 0x8C40;
    assert SetBits(0x8C40, 8) == [9];
    assert SetBits(0x8C40, 0) == [0, 4, 5, 9];
  }

  lemma ShapeS2()
    ensures WellShaped(S, 2)
  {
    assert Mask(S, 2) == 0x6C00;
    assert SetBits(0x6C00, 8) == [];
    assert SetBits(0x6C00, 0) == [1, 2, 4, 5];
  }

  lemma ShapeS3()
    ensures WellShaped(S, 3)
  {
    assert Mask(S, 3) == 0x4620;
    assert SetBits(0x4620, 8) == [10];
    assert SetBits(0x4620, 0) == [1, 5, 6, 10];
  }

  lemma ShapeT0()
    ensures WellShaped(T, 0)
  {
    assert Mask(T, 0) == 0x0E40;
    assert SetBits(0x0E40, 8) == [9];
    assert SetBits(0x0E40, 0) == [4, 5, 6, 9];
  }

  lemma ShapeT1()
    ensures WellShaped(T, 1)
  {
    assert Mask(T, 1) == 0x4C40;
    assert SetBits(0x4C40, 8) == [9];
    assert SetBits(0x4C40, 0) == [1, 4, 5, 9];
  }

  lemma ShapeT2()
    ensures WellShaped(T, 2)
  {
    assert Mask(T, 2) == 0x4E00;
    assert SetBits(0x4E00, 8) == [];
    assert SetBits(0x4E00, 0) == [1, 4, 5, 6];
  }

  lemma ShapeT3()
    ensures WellShaped(T, 3)
  {
    assert Mask(T, 3) == 0x4640;
    assert SetBits(0x4640, 8) == [9];
    assert SetBits(0x4640, 0) == [1, 5, 6, 9];
  }

  lemma ShapeZ0()
    ensures WellShaped(Z, 0)
  {
    assert Mask(Z, 0) == 0x0C60;
    assert SetBits(0x0C60, 8) == [9, 10];
    assert SetBits(0x0C60, 0) == [4, 5, 9, 10];
  }

  lemma ShapeZ1()
    ensures WellShaped(Z, 1)
  {
    assert Mask(Z, 1) == 0x4C80;
    assert SetBits(0x4C80, 8) == [8];
    assert SetBits(0x4C80, 0) == [1, 4, 5, 8];
  }

  lemma ShapeZ2()
    ensures WellShaped(Z, 2)
  {
    assert Mask(Z, 2) == 0xC600;
    assert SetBits(0xC600, 8) == [];
    assert SetBits(0xC600, 0) == [0, 1, 5, 6];
  }

  lemma ShapeZ3()
    ensures WellShaped(Z, 3)
  {
    assert Mask(Z, 3) == 0x2640;
    assert SetBits(0x2640, 8) == [9];
    assert SetBits(0x2640, 0) == [2, 5, 6, 9];
  }

  /** The bit-scanning loop of `eachblock`: a one-bit probe shifted right from
      0x8000, a column counter that wraps to the next row after four bits. It
      lists the cells `fn` is called with, in call order. */
  method EachBlock(k: Kind, x: int, y: int, dir: Rotation) returns (cells: seq<Pos>)
    ensures cells == Cells(k, dir, x, y)
  {
    var blocks := Mask(k, dir);
    var bit: bv16 := 0x8000;
    var row, col := 0, 0;
    ghost var n: nat := 0;
    ghost var all := CellsOfBits(x, y, SetBits(blocks, 0));
    cells := [];
    while bit > 0
      invariant n <= 16
      invariant bit == Probe(n)
      invariant col == n % 4 && row == n / 4
      invariant cells + CellsOfBits(x, y, SetBits(blocks, n)) == all
      decreases 16 - n
    {
      ProbeStep(n);
      assert Pos(x + col, y + row) == BitCell(x, y, n);
      ScanStep(blocks, x, y, n, cells, all);
      if Hits(blocks, bit) {
        cells := cells + [Pos(x + col, y + row)];
      }
      col := col + 1;
      if col == 4 {
        col := 0;
        row := row + 1;
      }
      bit := HalveProbe(bit);
      n := n + 1;
    }
    ProbeStep(n);
  }

  /** Consuming bit n: its cell, if it is set, is appended to the cells found so far. */
  lemma ScanStep(m: bv16, x: int, y: int, n: nat, found: seq<Pos>, all: seq<Pos>)
    requires n < 16
    requires found + CellsOfBits(x, y, SetBits(m, n)) == all
    ensures (if Bit(m, n) then found + [BitCell(x, y, n)] else found) + CellsOfBits(x, y, SetBits(m, n + 1)) == all
  {
    var rest := CellsOfBits(x, y, SetBits(m, n + 1));
    if Bit(m, n) {
      assert CellsOfBits(x, y, SetBits(m, n)) == [BitCell(x, y, n)] + rest;
      assert found + ([BitCell(x, y, n)] + rest) == (found + [BitCell(x, y, n)]) + rest;
    } else {
      assert CellsOfBits(x, y, SetBits(m, n)) == rest;
    }
  }

  /** Shifting the probe: it stays non-zero for sixteen steps, then vanishes. */
  lemma ProbeStep(n: nat)
    requires n <= 16
    ensures Probe(n) > 0 <==> n < 16
    ensures n < 16 ==> HalveProbe(Probe(n)) == Probe(n + 1)
  {
  }
}
