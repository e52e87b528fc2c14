/** The piece bag of `randomPiece`: pieces are drawn without replacement from
    a bag that is refilled with four of each kind once it runs dry. The two
    uniform draws `Math.random()` makes are parameters. */
module Bag {
  import opened Pieces
  import opened Court

  /** The bag an empty bag is refilled with: four of each of the seven kinds. */
  const FullBag: seq<Kind> := [I, I, I, I, J, J, J, J, L, L, L, L, O, O, O, O,
                               S, S, S, S, T, T, T, T, Z, Z, Z, Z]

  /** The bag the third powerup installs: four O pieces and four I pieces. */
  const MercyBag: seq<Kind> := [O, O, O, O, I, I, I, I]

  /** The bag left behind when the third powerup expires: four O pieces. */
  const ExpiredMercyBag: seq<Kind> := [O, O, O, O]

  /** The two values of `Math.random()` one call of `randomPiece` uses: the
      first picks the bag entry, the second the spawn column. */
  datatype Draw = Draw(pick: real, column: real)

  /** `Math.random()` returns a value in [0, 1). */
  predicate ValidDraw(d: Draw)
  {
    0.0 <= d.pick < 1.0 && 0.0 <= d.column < 1.0
  }

  /** The index `splice` removes: `random(0, len - 1)`, truncated. It is below
      len - 1 unless the bag holds a single entry, so the last entry is only
      ever drawn when it is the only one left. */
  function PickIndex(len: nat, u: real): (i: nat)
    requires 0 < len
    requires 0.0 <= u < 1.0
    ensures i < len
    ensures len == 1 ==> i == 0
    ensures len > 1 ==> i < len - 1
  {
    var r := u * (len - 1) as real;
    Scale(u, (len - 1) as real);
    r.Floor
  }

  /** The spawn column `Math.round(random(0, nx - size))`: rounding half up
      keeps it within 0 .. nx - size, so the piece's box fits the court. */
  function SpawnColumn(size: nat, v: real): (x: int)
    requires size <= NX
    requires 0.0 <= v < 1.0
    ensures 0 <= x <= NX - size
  {
    RoundBound(v, NX - size);
    (v * (NX - size) as real + 0.5).Floor
  }

  /** Rounding a fraction in [0, 1) of n half up gives a value in 0 .. n. */
  lemma RoundBound(v: real, n: nat)
    requires 0.0 <= v < 1.0
    ensures 0 <= (v * n as real + 0.5).Floor <= n
  {
    var m := n as real;
    Scale(v, m);
    var w := v * m + 0.5;
    assert 0.0 <= w < m + 1.0;
  }

  /** A fraction in [0, 1) of a non-negative n lies in [0, n], below n when n > 0. */
  lemma Scale(u: real, n: real)
    requires 0.0 <= u < 1.0
    requires 0.0 <= n
    ensures 0.0 <= u * n <= n
    ensures 0.0 < n ==> u * n < n
  {
    assert n - u * n == (1.0 - u) * n;
  }

  /** A piece as `randomPiece` makes it: rotation 0, row 0, and a column
      that keeps its box inside the court. */
  predicate Spawned(p: Piece)
  {
    p.dir == 0 && p.y == 0 && 0 <= p.x <= NX - Size(p.kind)
  }

  /** What `randomPiece` returns and the bag it leaves. */
  datatype Drawn = Drawn(piece: Piece, bag: seq<Kind>)

  /** The bag `randomPiece` draws from: the current one, or a full one if it is empty. */
  function Refilled(bag: seq<Kind>): (src: seq<Kind>)
    ensures |src| > 0
    ensures bag != [] ==> src == bag
  {
    if bag == [] then FullBag else bag
  }

  /** `randomPiece`: refill an empty bag, remove one entry and spawn a piece
      of that kind. */
  function RandomPiece(bag: seq<Kind>, d: Draw): (r: Drawn)
    requires ValidDraw(d)
    ensures multiset(r.bag) + multiset{r.piece.kind} == multiset(Refilled(bag))
    ensures |r.bag| + 1 == |Refilled(bag)|
    ensures Spawned(r.piece)
    ensures |Refilled(bag)| > 1 ==> r.bag[|r.bag| - 1] == Refilled(bag)[|Refilled(bag)| - 1]
  {
    var src := Refilled(bag);
    var i := PickIndex(|src|, d.pick);
    var k := src[i];
    Splice(src, i);
    Drawn(Piece(k, 0, SpawnColumn(Size(k), d.column), 0), src[..i] + src[i + 1..])
  }

  /** `splice(i, 1)`: the entry at i leaves, the others keep their order. */
  lemma Splice(s: seq<Kind>, i: nat)
    requires i < |s|
    ensures multiset(s[..i] + s[i + 1..]) + multiset{s[i]} == multiset(s)
    ensures |s[..i] + s[i + 1..]| + 1 == |s|
    ensures i < |s| - 1 ==> (s[..i] + s[i + 1..])[|s| - 2] == s[|s| - 1]
  {
    assert s == s[..i] + [s[i]] + s[i + 1..];
  }

  /** Two draws in a row from a bag of at least two entries: the two kinds
      drawn and the bag left make up the bag drawn from. */
  lemma TwoDraws(bag: seq<Kind>, first: Draw, second: Draw)
    requires ValidDraw(first) && ValidDraw(second)
    requires |Refilled(bag)| > 1
    ensures var c := RandomPiece(bag, first);
            var n := RandomPiece(c.bag, second);
            && multiset(n.bag) + multiset{c.piece.kind, n.piece.kind} == multiset(Refilled(bag))
            && |n.bag| + 2 == |Refilled(bag)|
  {
    var c := RandomPiece(bag, first);
    var n := RandomPiece(c.bag, second);
    assert Refilled(c.bag) == c.bag;
    TakeTwo(Refilled(bag), c.bag, n.bag, c.piece.kind, n.piece.kind);
  }

  /** Taking x and then y out of a bag leaves it less the two of them. */
  lemma TakeTwo(a: seq<Kind>, b: seq<Kind>, c: seq<Kind>, x: Kind, y: Kind)
    requires multiset(b) + multiset{x} == multiset(a)
    requires multiset(c) + multiset{y} == multiset(b)
    ensures multiset(c) + multiset{x, y} == multiset(a)
  {
    assert multiset{x, y} == multiset{y} + multiset{x};
  }

  /** The kinds a run of draws hands out, in order, and the bag it leaves. */
  datatype Dealt = Dealt(kinds: seq<Kind>, bag: seq<Kind>)

  /** Calls `randomPiece` once per draw. */
  function Deal(bag: seq<Kind>, ds: seq<Draw>): (r: Dealt)
    requires forall i :: 0 <= i < |ds| ==> ValidDraw(ds[i])
    ensures |r.kinds| == |ds|
    decreases |ds|
  {
    if ds == [] then Dealt([], bag)
    else
      var r := RandomPiece(bag, ds[0]);
      assert forall i :: 0 <= i < |ds[1..]| ==> ds[1..][i] == ds[i + 1];
      var rest := Deal(r.bag, ds[1..]);
      Dealt([r.piece.kind] + rest.kinds, rest.bag)
  }

  /** Emptying a bag hands out exactly its contents: as many draws as the
      bag holds give back every entry once and leave the bag empty. */
  lemma {:induction false} DealEmpties(bag: seq<Kind>, ds: seq<Draw>)
    requires forall i :: 0 <= i < |ds| ==> ValidDraw(ds[i])
    requires |ds| == |bag|
    ensures multiset(Deal(bag, ds).kinds) == multiset(bag)
    ensures Deal(bag, ds).bag == []
    decreases |ds|
  {
    if ds != [] {
      var r := RandomPiece(bag, ds[0]);
      DealEmpties(r.bag, ds[1..]);
    }
  }

  /** 28 draws starting from an empty bag, with nothing replacing the bag in
      between, hand out the refill: four pieces of each kind, in some order,
      after which the bag is empty again. */
  lemma FairBag(ds: seq<Draw>)
    requires forall i :: 0 <= i < |ds| ==> ValidDraw(ds[i])
    requires |ds| == |FullBag|
    ensures multiset(Deal([], ds).kinds) == multiset(FullBag)
    ensures Deal([], ds).bag == []
  {
    assert RandomPiece([], ds[0]) == RandomPiece(FullBag, ds[0]);
    assert Deal([], ds) == Deal(FullBag, ds);
    DealEmpties(FullBag, ds);
  }
}
