/** The key table of `keydown` while a game is in progress: which key moves
    the piece depends on the side of the board the player faces, and the
    side turns a quarter after every locked piece. */
module Controls {
  import opened Moves

  /** Key codes of the `KEY` table. */
  const KeyEnter: int := 13
  const KeyEsc: int := 27
  const KeySpace: int := 32
  const KeyPowerupOne: int := 49
  const KeyPowerupTwo: int := 50
  const KeyPowerupThree: int := 51
  const KeyA: int := 65
  const KeyD: int := 68
  const KeyP: int := 80
  const KeyS: int := 83
  const KeyW: int := 87

  /** `currentDirection`: the side of the board the player is on. */
  datatype Facing = South | East | North | West

  /** The side after a piece locks: south, east, north, west, and round again. */
  function NextFacing(f: Facing): (g: Facing)
    ensures g != f
    ensures Turns(g) == (Turns(f) + 1) % 4
  {
    match f
    case South => East
    case East => North
    case North => West
    case West => South
  }

  /** What a key does to a game in progress. */
  datatype Command =
    | Push(d: Dir)         // queue a move or rotation in `actions`
    | Quit                 // P: `lose`
    | Pause                // ESC
    | Activate(slot: nat)  // 1, 2, 3: use a powerup if it is available
    | Ignore               // any other key

  /** The per-side `switch` of `keydown` while playing. */
  function PlayingCommand(f: Facing, key: int): Command
  {
    if key == KeySpace then Push(Up)
    else if key == KeyP then Quit
    else if key == KeyEsc then Pause
    else if key == KeyPowerupOne then Activate(1)
    else if key == KeyPowerupTwo then Activate(2)
    else if key == KeyPowerupThree then Activate(3)
    else
      match f
      case South =>
        if key == KeyA then Push(Left) else if key == KeyD then Push(Right)
        else if key == KeyS then Push(Down) else Ignore
      case East =>
        if key == KeyS then Push(Left) else if key == KeyW then Push(Right)
        else if key == KeyD then Push(Down) else Ignore
      case North =>
        if key == KeyD then Push(Left) else if key == KeyA then Push(Right)
        else if key == KeyW then Push(Down) else Ignore
      case West =>
        if key == KeyW then Push(Left) else if key == KeyS then Push(Right)
        else if key == KeyA then Push(Down) else Ignore
  }

  /** The four movement keys. */
  predicate MovementKey(key: int)
  {
    key == KeyW || key == KeyA || key == KeyS || key == KeyD
  }

  /** A quarter turn of the movement keys: A, S, D, W, and back to A. */
  function TurnKey(key: int): (k: int)
    ensures MovementKey(key) <==> MovementKey(k)
  {
    if key == KeyA then KeyS
    else if key == KeyS then KeyD
    else if key == KeyD then KeyW
    else if key == KeyW then KeyA
    else key
  }

  /** The scheme turns with the player: on the next side, the quarter-turned
      key does what the key did before. */
  lemma TableTurns(f: Facing, key: int)
    ensures PlayingCommand(NextFacing(f), TurnKey(key)) == PlayingCommand(f, key)
  {
  }

  /** The movement keys on the south side, the reference for the others. */
  function SouthKey(d: Dir): int
    requires d != Up
  {
    match d
    case Left => KeyA
    case Right => KeyD
    case Down => KeyS
  }

  /** Quarter turns from south to the given side. */
  function Turns(f: Facing): nat
  {
    match f
    case South => 0
    case East => 1
    case North => 2
    case West => 3
  }

  /** The key turned n quarters. */
  function TurnKeyTimes(key: int, n: nat): int
  {
    if n == 0 then key else TurnKey(TurnKeyTimes(key, n - 1))
  }

  /** On every side each move has exactly one key, the south key turned as
      far as the player has gone round; rotation is SPACE on every side. */
  lemma KeyForMove(f: Facing, d: Dir, key: int)
    ensures d != Up ==> (PlayingCommand(f, key) == Push(d) <==> key == TurnKeyTimes(SouthKey(d), Turns(f)))
    ensures d == Up ==> (PlayingCommand(f, key) == Push(d) <==> key == KeySpace)
  {
    if d != Up {
      var k0 := SouthKey(d);
      assert TurnKeyTimes(k0, 1) == TurnKey(k0);
      assert TurnKeyTimes(k0, 2) == TurnKey(TurnKey(k0));
      assert TurnKeyTimes(k0, 3) == TurnKey(TurnKey(TurnKey(k0)));
    }
  }

  /** Only movement keys, SPACE, P, ESC and 1, 2, 3 do anything in a game. */
  lemma OtherKeysIgnored(f: Facing, key: int)
    requires !MovementKey(key)
    requires key !in {KeySpace, KeyP, KeyEsc, KeyPowerupOne, KeyPowerupTwo, KeyPowerupThree}
    ensures PlayingCommand(f, key) == Ignore
  {
  }
}
