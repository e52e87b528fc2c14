/** The game state of Quadrix and its transitions: the key handler, the
    per-frame update, piece locking with scoring and line clearing, new
    games, and the powerups' effects and expiries. */
module Engine {
  import opened Pieces
  import opened Court
  import opened Collision
  import opened Moves
  import opened Bag
  import opened Powerups
  import opened Controls

  /** The game variables. `multiplier`, `slow` and `facing` are globals that
      a new game does not reset. */
  datatype Game = Game(
    board: Board,
    current: Piece,
    next: Piece,
    bag: seq<Kind>,
    actions: seq<Dir>,
    playing: bool,
    paused: bool,
    score: nat,
    vscore: nat,
    rows: nat,
    step: real,
    facing: Facing,
    powerups: PowerupState,
    multiplier: nat,
    slow: nat)

  /** The `speed` constants: seconds per row at the start, the decrease per
      completed row, and the floor. */
  const SpeedStart: real := 0.6
  const SpeedDecrement: real := 0.005
  const SpeedMin: real := 0.1

  /** The drop interval `setRows` computes: it shortens with every completed
      row down to the floor, and `slow` stretches it. */
  function StepFor(rows: nat, slow: nat): (s: real)
  {
    BaseStep(rows) * slow as real
  }

  /** `Math.max(speed.min, speed.start - speed.decrement * rows)`. */
  function BaseStep(rows: nat): (s: real)
    ensures SpeedMin <= s <= SpeedStart
  {
    if SpeedStart - SpeedDecrement * rows as real > SpeedMin
    then SpeedStart - SpeedDecrement * rows as real else SpeedMin
  }

  /** The drop interval lies between the floor and the starting interval,
      both stretched by `slow`, and sits on the floor from row 100 on. */
  lemma StepBounds(rows: nat, slow: nat)
    ensures SpeedMin * slow as real <= StepFor(rows, slow) <= SpeedStart * slow as real
    ensures rows >= 100 ==> StepFor(rows, slow) == SpeedMin * slow as real
  {
    Stretch(BaseStep(rows), SpeedMin, SpeedStart, slow as real);
  }

  /** Scaling by a non-negative factor keeps the order of the bounds. */
  lemma Stretch(v: real, lo: real, hi: real, k: real)
    requires lo <= v <= hi
    requires 0.0 <= k
    ensures lo * k <= v * k <= hi * k
  {
    assert v * k - lo * k == (v - lo) * k;
    assert hi * k - v * k == (hi - v) * k;
  }

  /** More completed rows never make the pieces fall more slowly. */
  lemma StepShrinks(r1: nat, r2: nat, slow: nat)
    requires r1 <= r2
    ensures StepFor(r2, slow) <= StepFor(r1, slow)
  {
    Stretch(BaseStep(r2), BaseStep(r2), BaseStep(r1), slow as real);
  }

  /** The points `addScore(n)` adds: n times the multiplier. */
  function Points(n: nat, multiplier: nat): nat
  {
    n * multiplier
  }

  /** 2 to the n. */
  function Pow2(n: nat): (p: nat)
    ensures p >= 1
  {
    if n == 0 then 1 else 2 * Pow2(n - 1)
  }

  /** The bonus for n rows removed by one lock, before the multiplier:
      100 for one row, doubling with each further row. */
  function LineScore(n: nat): nat
  {
    if n == 0 then 0 else 100 * Pow2(n - 1)
  }

  /** The bonus table in the comment beside `removeLines`, and its doubling. */
  lemma LineScoreTable(n: nat)
    ensures LineScore(1) == 100 && LineScore(2) == 200 && LineScore(3) == 400 && LineScore(4) == 800
    ensures n >= 1 ==> LineScore(n + 1) == 2 * LineScore(n)
  {
  }

  /** `lose`: the game ends and the shown score catches up at once. */
  function Lose(g: Game): (r: Game)
    ensures !r.playing && r.vscore == r.score
    ensures r.(playing := g.playing, vscore := g.vscore) == g
  {
    g.(playing := false, vscore := g.score)
  }

  /** `dropPiece`'s stamping: the cells of the current piece take its kind. */
  function LockBoard(g: Game): Board
  {
    Stamp(g.board, PieceCells(g.current), Filled(g.current.kind))
  }

  /** The branch of `drop` where the piece cannot move down: 10 points, the
      piece is stamped, the side turns, full rows are removed and scored,
      `next` becomes the current piece and a new `next` is drawn, the action
      queue is emptied, and the game is lost if the new piece does not fit. */
  function Lock(g: Game, d: Draw): (r: Game)
    requires ValidDraw(d)
    ensures var c := ClearLines(LockBoard(g));
            && r.board == c.board
            && r.score == g.score + Points(10, g.multiplier) + Points(LineScore(c.count), g.multiplier)
            && r.rows == g.rows + c.count
            && r.powerups == AddPRows(g.powerups, c.count)
    ensures r.step == if r.rows == g.rows then g.step else StepFor(r.rows, g.slow)
    ensures r.facing == NextFacing(g.facing)
    ensures r.current == g.next && Spawned(r.next) && r.actions == []
    ensures multiset(r.bag) + multiset{r.next.kind} == multiset(Refilled(g.bag))
    ensures Occupied(r.board, r.current) ==> !r.playing && r.vscore == r.score
    ensures !Occupied(r.board, r.current) ==> r.playing == g.playing && r.vscore == g.vscore
    ensures r.paused == g.paused && r.multiplier == g.multiplier && r.slow == g.slow
  {
    // addScore(10), then dropPiece and removeLines
    var locked := g.score + Points(10, g.multiplier);
    var c := ClearLines(LockBoard(g));
    // addRows(n) and addScore(100 * 2^(n - 1)) when rows went
    var rows := if c.count > 0 then g.rows + c.count else g.rows;
    var step := if c.count > 0 then StepFor(rows, g.slow) else g.step;
    var score := if c.count > 0 then locked + Points(LineScore(c.count), g.multiplier) else locked;
    // setCurrentPiece(next), setNextPiece(randomPiece()), and lose() if the new piece does not fit
    var drawn := RandomPiece(g.bag, d);
    var lost := Occupied(c.board, g.next);
    Game(c.board, g.next, drawn.piece, drawn.bag, [], g.playing && !lost, g.paused,
         score, if lost then score else g.vscore, rows, step, NextFacing(g.facing),
         AddPRows(g.powerups, c.count), g.multiplier, g.slow)
  }

  /** `drop`: one row down if the piece fits there, otherwise it locks. */
  function Drop(g: Game, d: Draw): (r: Game)
    requires ValidDraw(d)
    ensures Move(g.board, g.current, Down).ok ==> r == g.(current := g.current.(y := g.current.y + 1))
    ensures !Move(g.board, g.current, Down).ok ==> r == Lock(g, d)
  {
    var m := Move(g.board, g.current, Down);
    if m.ok then g.(current := m.piece) else Lock(g, d)
  }

  /** `handle`: apply one queued action; UP rotates, DOWN drops. */
  function Handle(g: Game, a: Dir, d: Draw): (r: Game)
    requires ValidDraw(d)
    ensures (a == Left || a == Right) ==> r.current == Move(g.board, g.current, a).piece
    ensures a == Up ==> r.current == Rotate(g.board, g.current)
    ensures a == Down ==> r == Drop(g, d)
    ensures a != Down ==> r.(current := g.current) == g
    ensures a != Down ==> r.current.kind == g.current.kind
    ensures !Occupied(g.board, g.current) && a != Down ==> !Occupied(r.board, r.current)
  {
    match a
    case Left => g.(current := Move(g.board, g.current, Left).piece)
    case Right => g.(current := Move(g.board, g.current, Right).piece)
    case Up => g.(current := Rotate(g.board, g.current))
    case Down => Drop(g, d)
  }

  /** The shown score moves one point toward the score. */
  function CatchUp(g: Game): (r: Game)
    ensures g.vscore < g.score ==> r.vscore == g.vscore + 1
    ensures g.vscore >= g.score ==> r == g
    ensures g.vscore <= g.score ==> r.vscore <= r.score
    ensures r.(vscore := g.vscore) == g
  {
    if g.vscore < g.score then g.(vscore := g.vscore + 1) else g
  }

  /** `handle(actions.shift())`: the oldest queued action leaves the queue
      and is handled; an empty queue yields nothing to handle. */
  function HandleNext(g: Game, d: Draw): (r: Game)
    requires ValidDraw(d)
    ensures g.actions == [] ==> r == g
    ensures g.actions != [] && g.actions[0] == Down ==> r == Drop(g.(actions := g.actions[1..]), d)
    ensures g.actions != [] && g.actions[0] != Down ==>
              r.actions == g.actions[1..] && r == Handle(g, g.actions[0], d).(actions := g.actions[1..])
  {
    if g.actions == [] then g
    else Handle(g.(actions := g.actions[1..]), g.actions[0], d)
  }

  /** `update` for one frame, with the elapsed-time test replaced by the flag
      `gravity`: nothing while paused or between games; otherwise the shown
      score moves one point toward the score, the oldest queued action is
      handled, and on a gravity tick the piece drops, even when the handled
      action has just ended the game. */
  function Update(g: Game, gravity: bool, first: Draw, second: Draw): (r: Game)
    requires ValidDraw(first) && ValidDraw(second)
    ensures g.paused || !g.playing ==> r == g
    ensures g.playing && !g.paused && g.actions == [] && !gravity ==> r == CatchUp(g)
    ensures g.playing && !g.paused && !gravity ==> r == HandleNext(CatchUp(g), first)
    ensures g.playing && !g.paused && gravity ==> r == Drop(HandleNext(CatchUp(g), first), second)
  {
    if g.paused || !g.playing then g
    else
      var handled := HandleNext(CatchUp(g), first);
      if gravity then Drop(handled, second) else handled
  }

  /** A frame whose queued action is DOWN drops twice on a gravity tick: the
      gravity drop follows the handled drop even when that one has locked a
      piece and lost the game. */
  lemma GravityAfterDrop(g: Game, first: Draw, second: Draw)
    requires ValidDraw(first) && ValidDraw(second)
    requires g.playing && !g.paused && g.actions != [] && g.actions[0] == Down
    ensures var handled := Drop(CatchUp(g).(actions := g.actions[1..]), first);
            Update(g, true, first, second) == Drop(handled, second)
  {
  }

  /** `reset`: a cleared court, no rows, no score, no powerups, `next` as
      the current piece and a new `next`. The bag, `multiplier`, `slow`, the
      side being faced and `playing` are left as they are. */
  function Reset(g: Game, d: Draw): (r: Game)
    requires ValidDraw(d)
    ensures r.board == EmptyBoard() && r.actions == []
    ensures r.score == 0 && r.vscore == 0 && r.rows == 0 && r.step == StepFor(0, g.slow)
    ensures r.current == g.next && Spawned(r.next)
    ensures multiset(r.bag) + multiset{r.next.kind} == multiset(Refilled(g.bag))
    ensures !r.paused && r.powerups == NoPowerups
    ensures r.multiplier == g.multiplier && r.slow == g.slow && r.facing == g.facing
    ensures r.playing == g.playing
  {
    var drawn := RandomPiece(g.bag, d);
    g.(actions := [], board := EmptyBoard(), rows := 0, step := StepFor(0, g.slow),
       score := 0, vscore := 0, current := g.next, next := drawn.piece, bag := drawn.bag,
       paused := false, powerups := NoPowerups)
  }

  /** `play`: a new game, in progress. */
  function Play(g: Game, d: Draw): (r: Game)
    requires ValidDraw(d)
    ensures r.playing && !r.paused && r.actions == []
    ensures r.board == EmptyBoard() && r.score == 0 && r.vscore == 0 && r.rows == 0
    ensures r.step == StepFor(0, g.slow)
    ensures r.current == g.next && Spawned(r.next)
    ensures Spawned(g.next) ==> !Occupied(r.board, r.current)
    ensures multiset(r.bag) + multiset{r.next.kind} == multiset(Refilled(g.bag))
    ensures r.powerups == NoPowerups
    ensures r.multiplier == g.multiplier && r.slow == g.slow && r.facing == g.facing
  {
    assert Spawned(g.next) ==> !Occupied(EmptyBoard(), g.next) by {
      if Spawned(g.next) {
        BoxedFitsEmpty(g.next);
      }
    }
    Reset(g, d).(playing := true)
  }

  /** The state after the page loads: the globals' initial values and the
      first `reset`, which finds no `next` and so draws the current piece
      as well. No game is in progress. */
  function Boot(first: Draw, second: Draw): (r: Game)
    requires ValidDraw(first) && ValidDraw(second)
    ensures !r.playing && !r.paused && r.score == 0 && r.rows == 0
    ensures r.board == EmptyBoard() && Spawned(r.current) && Spawned(r.next)
    ensures |r.bag| == |FullBag| - 2
    ensures multiset(r.bag) + multiset{r.current.kind, r.next.kind} == multiset(FullBag)
    ensures r.vscore == 0 && r.actions == [] && r.step == StepFor(0, 1)
    ensures r.multiplier == 1 && r.slow == 1 && r.facing == South && r.powerups == NoPowerups
  {
    var c := RandomPiece([], first);
    var n := RandomPiece(c.bag, second);
    TwoDraws([], first, second);
    Game(EmptyBoard(), c.piece, n.piece, n.bag, [], false, false, 0, 0, 0, StepFor(0, 1),
         South, NoPowerups, 1, 1)
  }

  /** `activatePowerupOne/Two/Three`, reached from keys 1, 2 and 3 only when
      that powerup is available: double scoring, half speed (with the drop
      interval recomputed), or the bag of O and I pieces; the powerup is
      used up. Anything else leaves the game as it is. */
  function UsePowerup(g: Game, slot: nat): (r: Game)
    ensures slot == 1 && g.powerups.one ==> r.multiplier == 2 && r == g.(multiplier := 2, powerups := g.powerups.(one := false))
    ensures slot == 2 && g.powerups.two ==>
              r.slow == 2 && r == g.(slow := 2, step := StepFor(g.rows, 2), powerups := g.powerups.(two := false))
    ensures slot == 3 && g.powerups.three ==> r == g.(bag := MercyBag, powerups := g.powerups.(three := false))
    ensures r != g ==> (slot == 1 && g.powerups.one) || (slot == 2 && g.powerups.two) || (slot == 3 && g.powerups.three)
  {
    if slot == 1 && g.powerups.one then
      g.(multiplier := 2, powerups := g.powerups.(one := false))
    else if slot == 2 && g.powerups.two then
      g.(slow := 2, step := StepFor(g.rows, 2), powerups := g.powerups.(two := false))
    else if slot == 3 && g.powerups.three then
      g.(bag := MercyBag, powerups := g.powerups.(three := false))
    else g
  }

  /** `keydown`. In a game: the side's key table. Between games: ENTER starts
      one. While paused: only ESC, which resumes. */
  function KeyDown(g: Game, key: int, d: Draw): (r: Game)
    requires ValidDraw(d)
    ensures g.paused ==> r == (if key == KeyEsc then g.(paused := false) else g)
    ensures !g.paused && !g.playing ==> r == (if key == KeyEnter then Play(g, d) else g)
    ensures !g.paused && g.playing && PlayingCommand(g.facing, key).Push? ==>
              r == g.(actions := g.actions + [PlayingCommand(g.facing, key).d])
    ensures !g.paused && g.playing && key == KeyP ==> r == Lose(g)
    ensures !g.paused && g.playing && key == KeyEsc ==> r == g.(paused := true)
    ensures !g.paused && g.playing && KeyPowerupOne <= key <= KeyPowerupThree ==>
              r == UsePowerup(g, key - KeyPowerupOne + 1)
    ensures !g.paused && g.playing && PlayingCommand(g.facing, key) == Ignore ==> r == g
  {
    if g.paused then
      if key == KeyEsc then g.(paused := false) else g
    else if g.playing then
      match PlayingCommand(g.facing, key)
      case Push(a) => g.(actions := g.actions + [a])
      case Quit => Lose(g)
      case Pause => g.(paused := true)
      case Activate(slot) => UsePowerup(g, slot)
      case Ignore => g
    else if key == KeyEnter then Play(g, d)
    else g
  }

  /** What can happen to a game: a key press, an animation frame (with or
      without a gravity tick), or the end of a powerup's 15 seconds. Each
      carries the `Math.random()` values its transition may need. */
  datatype Event =
    | KeyPress(key: int, draw: Draw)
    | Frame(gravity: bool, first: Draw, second: Draw)
    | MultiplierExpires
    | SlowExpires
    | MercyExpires

  /** Every random value an event carries is in [0, 1). */
  predicate ValidEvent(e: Event)
  {
    match e
    case KeyPress(_, d) => ValidDraw(d)
    case Frame(_, d1, d2) => ValidDraw(d1) && ValidDraw(d2)
    case _ => true
  }

  /** One event. The expiries are `resetMultiplier`, `resetSlow` (which also
      recomputes the drop interval) and `resetPieces`; they fire whatever
      state the game is in. */
  function Apply(g: Game, e: Event): (r: Game)
    requires ValidEvent(e)
    ensures e.KeyPress? ==> r == KeyDown(g, e.key, e.draw)
    ensures e.Frame? ==> r == Update(g, e.gravity, e.first, e.second)
    ensures e.MultiplierExpires? ==> r.multiplier == 1 && r.(multiplier := g.multiplier) == g
    ensures e.SlowExpires? ==> r.slow == 1 && r.step == StepFor(r.rows, 1) && r.(slow := g.slow, step := g.step) == g
    ensures e.MercyExpires? ==> multiset(r.bag) == multiset{O, O, O, O} && r.(bag := g.bag) == g
  {
    match e
    case KeyPress(key, d) => KeyDown(g, key, d)
    case Frame(gravity, d1, d2) => Update(g, gravity, d1, d2)
    case MultiplierExpires => g.(multiplier := 1)
    case SlowExpires => g.(slow := 1, step := StepFor(g.rows, 1))
    case MercyExpires => g.(bag := ExpiredMercyBag)
  }

  /** A run of events. */
  function Run(g: Game, es: seq<Event>): (r: Game)
    requires forall i :: 0 <= i < |es| ==> ValidEvent(es[i])
    ensures es != [] ==> r == Run(Apply(g, es[0]), es[1..])
    decreases |es|
  {
    if es == [] then g else Run(Apply(g, es[0]), es[1..])
  }
}
