/** Piece movement: `move` one step left, right or down, and `rotate` to the
    next rotation, each committed only when the new position is not occupied. */
module Moves {
  import opened Pieces
  import opened Court
  import opened Collision

  /** The `DIR` codes: UP 0 (rotate), RIGHT 1, DOWN 2, LEFT 3. */
  datatype Dir = Up | Right | Down | Left

  /** The position `move(d)` tries: one column over for LEFT and RIGHT, one
      row down for DOWN; UP has no case in the switch and tries the same place. */
  function Target(p: Piece, d: Dir): (t: Piece)
    ensures t.kind == p.kind && t.dir == p.dir
    ensures d == Left ==> t.x == p.x - 1 && t.y == p.y
    ensures d == Right ==> t.x == p.x + 1 && t.y == p.y
    ensures d == Down ==> t.x == p.x && t.y == p.y + 1
    ensures d == Up ==> t == p
  {
    match d
    case Left => p.(x := p.x - 1)
    case Right => p.(x := p.x + 1)
    case Down => p.(y := p.y + 1)
    case Up => p
  }

  /** The outcome of `move`: the piece afterwards and the returned flag. */
  datatype Moved = Moved(piece: Piece, ok: bool)

  /** `move(d)`: the piece takes the target position when it is not
      occupied, and reports whether it did. */
  function Move(b: Board, p: Piece, d: Dir): (m: Moved)
    ensures m.ok <==> !Occupied(b, Target(p, d))
    ensures m.ok ==> m.piece == Target(p, d)
    ensures !m.ok ==> m.piece == p
    ensures !Occupied(b, p) ==> !Occupied(b, m.piece)
  {
    var t := Target(p, d);
    if Occupied(b, t) then Moved(p, false) else Moved(t, true)
  }

  /** A step left undone by a step right, and the other way round: from a
      free position the way back is always open and leads to the start. */
  lemma MoveBack(b: Board, p: Piece, d: Dir)
    requires !Occupied(b, p)
    requires d == Left || d == Right
    requires Move(b, p, d).ok
    ensures Move(b, Move(b, p, d).piece, if d == Left then Right else Left) == Moved(p, true)
  {
    var q := Move(b, p, d).piece;
    assert Target(q, if d == Left then Right else Left) == p;
  }

  /** `rotate`: the piece turns to the next rotation when that is not
      occupied; its kind and place never change. */
  function Rotate(b: Board, p: Piece): (r: Piece)
    ensures r.kind == p.kind && r.x == p.x && r.y == p.y
    ensures r.dir == p.dir || r.dir == NextRotation(p.dir)
    ensures r.dir != p.dir <==> !Occupied(b, p.(dir := NextRotation(p.dir)))
    ensures !Occupied(b, p) ==> !Occupied(b, r)
  {
    var turned := p.(dir := NextRotation(p.dir));
    if Occupied(b, turned) then p else turned
  }

  /** Four rotations that each succeed bring the piece back to where it started. */
  lemma FullTurn(b: Board, p: Piece)
    requires Rotate(b, p).dir != p.dir
    requires Rotate(b, Rotate(b, p)).dir != Rotate(b, p).dir
    requires Rotate(b, Rotate(b, Rotate(b, p))).dir != Rotate(b, Rotate(b, p)).dir
    requires Rotate(b, Rotate(b, Rotate(b, Rotate(b, p)))).dir != Rotate(b, Rotate(b, Rotate(b, p))).dir
    ensures Rotate(b, Rotate(b, Rotate(b, Rotate(b, p)))) == p
  {
  }
}
