/** The sprite vocabulary shared by characters.py and the older Player of
    __main__.py: movement constants, the twelve animation states (facing +
    4 * level, level 0 idle, 1 walking, 2 running), the pressed-key record
    and the four-frame animation cycle. */
module Sprites {

  const PLAYER_SPEED: int := 4
  const TILE_SIZE: int := 16

  const RIGHT_IDLE: int := 0
  const LEFT_IDLE: int := 1
  const DOWN_IDLE: int := 2
  const UP_IDLE: int := 3
  const RIGHT_WALKING: int := 4
  const LEFT_WALKING: int := 5
  const DOWN_WALKING: int := 6
  const UP_WALKING: int := 7
  const RIGHT_RUNNING: int := 8
  const LEFT_RUNNING: int := 9
  const DOWN_RUNNING: int := 10
  const UP_RUNNING: int := 11

  datatype Option<T> = None | Some(value: T)

  /** An animation state is one of the twelve constants. */
  predicate ValidState(s: int)
  {
    RIGHT_IDLE <= s <= UP_RUNNING
  }

  /** The facing part of a state: its idle constant. */
  function Facing(s: int): (f: int)
    ensures RIGHT_IDLE <= f <= UP_IDLE
  {
    s % 4
  }

  datatype Direction = Right | Left | Down | Up

  /** The idle state facing `d`. */
  function IdleState(d: Direction): int
  {
    match d
    case Right => RIGHT_IDLE
    case Left => LEFT_IDLE
    case Down => DOWN_IDLE
    case Up => UP_IDLE
  }

  /** The walking state facing `d`. */
  function WalkingState(d: Direction): int
  {
    match d
    case Right => RIGHT_WALKING
    case Left => LEFT_WALKING
    case Down => DOWN_WALKING
    case Up => UP_WALKING
  }

  /** The direction a state faces. */
  function FacingDirection(s: int): (d: Direction)
    ensures IdleState(d) == Facing(s)
  {
    var f := Facing(s);
    if f == RIGHT_IDLE then Right
    else if f == LEFT_IDLE then Left
    else if f == DOWN_IDLE then Down
    else Up
  }

  /** The unit step toward `d` on screen, where y grows downwards. */
  function Heading(d: Direction): (int, int)
  {
    match d
    case Right => (1, 0)
    case Left => (-1, 0)
    case Down => (0, 1)
    case Up => (0, -1)
  }

  /** The keys `key.get_pressed()` is read for, plus every other key
      folded into `other` (it only matters to `any(keys)`). */
  datatype Keys = Keys(arrowRight: bool, arrowLeft: bool, arrowDown: bool, arrowUp: bool,
                       d: bool, a: bool, s: bool, w: bool,
                       leftShift: bool, other: bool)
  {
    /** `any(keys)`. */
    predicate Any()
    {
      arrowRight || arrowLeft || arrowDown || arrowUp || d || a || s || w || leftShift || other
    }

    /** A key for direction `dir` is held: an arrow or its letter. */
    predicate Pressed(dir: Direction)
    {
      match dir
      case Right => arrowRight || d
      case Left => arrowLeft || a
      case Down => arrowDown || s
      case Up => arrowUp || w
    }
  }

  /** The precedence of the direction checks: right, left, down, up. */
  function Rank(d: Direction): nat
  {
    match d
    case Right => 0
    case Left => 1
    case Down => 2
    case Up => 3
  }

  /** The direction the `if keys[K_RIGHT] or keys[K_d] ... elif ...` chain
      picks: a held direction no held direction outranks; none when no
      direction key is held. */
  function Steer(k: Keys): (r: Option<Direction>)
    ensures r.Some? ==> k.Pressed(r.value)
    ensures r.Some? ==> forall e :: Rank(e) < Rank(r.value) ==> !k.Pressed(e)
    ensures r.None? <==> forall e :: !k.Pressed(e)
    ensures r.Some? ==> k.Any()
  {
    if k.Pressed(Right) then Some(Right)
    else if k.Pressed(Left) then Some(Left)
    else if k.Pressed(Down) then Some(Down)
    else if k.Pressed(Up) then Some(Up)
    else None
  }

  /** Python's `max(a, b)` on integers. */
  function Max(a: int, b: int): int { if a < b then b else a }

  /** `current_frame = (current_frame + 1) % 4`. */
  function NextFrame(f: int): int
  {
    (f + 1) % 4
  }

  /** The frame after `n` updates starting from frame `f`. */
  function FrameAfter(f: int, n: nat): int
  {
    if n == 0 then f else NextFrame(FrameAfter(f, n - 1))
  }

  /** The animation cycles through the four frames one step per update. */
  lemma {:induction false} FramesCycle(f: int, n: nat)
    requires 0 <= f < 4
    ensures FrameAfter(f, n) == (f + n) % 4
    ensures 0 <= FrameAfter(f, n) < 4
  {
    if n > 0 {
      FramesCycle(f, n - 1);
      ModSucc(f + n - 1);
    }
  }

  lemma ModSucc(x: nat)
    ensures (x % 4 + 1) % 4 == (x + 1) % 4
  {
    var q, r := x / 4, x % 4;
    assert x == 4 * q + r && 0 <= r < 4;
    if r == 3 {
      assert x + 1 == 4 * (q + 1);
    } else {
      assert x + 1 == 4 * q + (r + 1);
    }
  }
}
