/** What every reachable game state satisfies, and that each event keeps it:
    in particular a game in progress never has its current piece overlapping
    a block or the court's edge, and the shown score never runs ahead. */
module Invariants {
  import opened Pieces
  import opened Court
  import opened Collision
  import opened Moves
  import opened Bag
  import opened Powerups
  import opened Controls
  import opened Engine

  /** The state invariant. */
  predicate Inv(g: Game)
  {
    && Valid(g.powerups)
    && (g.multiplier == 1 || g.multiplier == 2)
    && (g.slow == 1 || g.slow == 2)
    && g.step == StepFor(g.rows, g.slow)
    && g.vscore <= g.score
    && Spawned(g.next)
    && InsideCourt(g.current)
    && (g.playing ==> !Occupied(g.board, g.current))
  }

  /** A freshly drawn piece lies inside the court. */
  lemma SpawnedInside(p: Piece)
    requires Spawned(p)
    ensures InsideCourt(p)
    ensures !Occupied(EmptyBoard(), p)
  {
    BoxedFitsEmpty(p);
  }

  /** The page starts in a state that satisfies the invariant. */
  lemma BootInv(first: Draw, second: Draw)
    requires ValidDraw(first) && ValidDraw(second)
    ensures Inv(Boot(first, second))
  {
    SpawnedInside(Boot(first, second).current);
  }

  /** Locking keeps the invariant: the new current piece was a spawned
      `next`, and the game goes on only if it fits. */
  lemma LockInv(g: Game, d: Draw)
    requires Inv(g) && ValidDraw(d)
    ensures Inv(Lock(g, d))
  {
    SpawnedInside(g.next);
  }

  /** Dropping keeps the invariant: the piece only moves to a free place. */
  lemma DropInv(g: Game, d: Draw)
    requires Inv(g) && ValidDraw(d)
    ensures Inv(Drop(g, d))
  {
    if Move(g.board, g.current, Down).ok {
      FreeCells(g.board, Drop(g, d).current);
    } else {
      LockInv(g, d);
    }
  }

  /** Handling a queued action keeps the invariant. */
  lemma HandleInv(g: Game, a: Dir, d: Draw)
    requires Inv(g) && ValidDraw(d)
    ensures Inv(Handle(g, a, d))
  {
    var r := Handle(g, a, d);
    match a
    case Down => DropInv(g, d);
    case Up =>
      if r.current != g.current {
        FreeCells(g.board, r.current);
      }
    case _ =>
      if r.current != g.current {
        FreeCells(g.board, r.current);
      }
  }

  /** A frame keeps the invariant. */
  lemma UpdateInv(g: Game, gravity: bool, first: Draw, second: Draw)
    requires Inv(g) && ValidDraw(first) && ValidDraw(second)
    ensures Inv(Update(g, gravity, first, second))
  {
    if !(g.paused || !g.playing) {
      var g1 := CatchUp(g);
      var g2 := HandleNext(g1, first);
      if g1.actions != [] {
        HandleInv(g1.(actions := g1.actions[1..]), g1.actions[0], first);
      }
      if gravity {
        DropInv(g2, second);
      }
    }
  }

  /** A new game keeps the invariant: the court is empty, so the old `next`
      fits. */
  lemma PlayInv(g: Game, d: Draw)
    requires Inv(g) && ValidDraw(d)
    ensures Inv(Play(g, d))
  {
    SpawnedInside(g.next);
  }

  /** A key press keeps the invariant. */
  lemma KeyDownInv(g: Game, key: int, d: Draw)
    requires Inv(g) && ValidDraw(d)
    ensures Inv(KeyDown(g, key, d))
  {
    if !g.paused && !g.playing && key == KeyEnter {
      PlayInv(g, d);
    }
  }

  /** Every event keeps the invariant. */
  lemma ApplyInv(g: Game, e: Event)
    requires Inv(g) && ValidEvent(e)
    ensures Inv(Apply(g, e))
  {
    match e
    case KeyPress(key, d) => KeyDownInv(g, key, d);
    case Frame(gravity, d1, d2) => UpdateInv(g, gravity, d1, d2);
    case _ =>
  }

  /** Every state reached from the loaded page satisfies the invariant; so
      whenever a game is in progress its current piece fits the court. */
  lemma {:induction false} RunInv(g: Game, es: seq<Event>)
    requires Inv(g)
    requires forall i :: 0 <= i < |es| ==> ValidEvent(es[i])
    ensures Inv(Run(g, es))
    ensures Run(g, es).playing ==> !Occupied(Run(g, es).board, Run(g, es).current)
    decreases |es|
  {
    if es != [] {
      ApplyInv(g, es[0]);
      RunInv(Apply(g, es[0]), es[1..]);
    }
  }

  /** The score only drops when a new game starts. */
  lemma ScoreKept(g: Game, e: Event)
    requires ValidEvent(e)
    ensures Apply(g, e).score >= g.score || (e.KeyPress? && Apply(g, e) == Play(g, e.draw))
  {
    match e
    case KeyPress(key, d) => KeyScore(g, key, d);
    case Frame(gravity, d1, d2) =>
      if !(g.paused || !g.playing) {
        var g1 := HandleNext(CatchUp(g), d1);
        if g.actions != [] {
          var h := CatchUp(g);
          DropScore(h.(actions := h.actions[1..]), d1);
        }
        assert g1.score >= g.score;
        DropScore(g1, d2);
      }
    case _ =>
  }

  /** Dropping never lowers the score. */
  lemma DropScore(g: Game, d: Draw)
    requires ValidDraw(d)
    ensures Drop(g, d).score >= g.score
  {
  }

  /** A key lowers the score only by starting a new game. */
  lemma KeyScore(g: Game, key: int, d: Draw)
    requires ValidDraw(d)
    ensures KeyDown(g, key, d).score >= g.score || KeyDown(g, key, d) == Play(g, d)
  {
    var r := KeyDown(g, key, d);
    if g.paused {
      assert r.score == g.score;
    } else if g.playing {
      match PlayingCommand(g.facing, key)
      case Push(a) => assert r == g.(actions := g.actions + [a]);
      case Quit => assert r == Lose(g);
      case Pause => assert r == g.(paused := true);
      case Activate(slot) =>
        assert r == UsePowerup(g, slot);
        assert UsePowerup(g, slot).score == g.score;
      case Ignore => assert r == g;
    } else if key == KeyEnter {
      assert r == Play(g, d);
    } else {
      assert r == g;
    }
  }

  /** A lock that clears no rows leaves the piece on the court: each of its
      cells now holds its kind and every other square is as it was. */
  lemma LockStamps(g: Game, d: Draw)
    requires ValidDraw(d) && InsideCourt(g.current)
    ensures ClearLines(LockBoard(g)).count == 0 ==> forall c :: c in PieceCells(g.current) ==>
              Get(Lock(g, d).board, c.x, c.y) == Filled(g.current.kind)
    ensures ClearLines(LockBoard(g)).count == 0 ==> forall x, y :: Pos(x, y) !in PieceCells(g.current) ==>
              Get(Lock(g, d).board, x, y) == Get(g.board, x, y)
    ensures ClearLines(LockBoard(g)).count == 0 ==> Lock(g, d).score == g.score + 10 * g.multiplier
  {
  }
}
