/** characters.py: the moves every character shares, the player's key
    handling and smelling cone, and the bear's decision chain. Each class
    method is tied to a function of the state it starts from; the lemmas
    below state what those functions promise. */
module Characters {
  import opened Rects
  import opened Sprites

  /** The `run` pair: the step multiplier and the state offset. */
  const WALK: (int, int) := (1, 0)
  const RUN: (int, int) := (2, 4)

  /** What a character's moves read and write. */
  datatype Pose = Pose(rect: Rect, state: int, run: (int, int), frame: int, lastSample: real)

  predicate ValidPose(p: Pose)
  {
    ValidState(p.state) && (p.run == WALK || p.run == RUN) && 0 <= p.frame < 4
  }

  // The shared moves of `Character`

  /** `right()`, `left()`, `down()` and `up()`: one coordinate of the rect
      moves by `PLAYER_SPEED * run[0]`, and the state becomes the walking
      constant of the direction plus `run[1]`. */
  function Walk(p: Pose, d: Direction): (q: Pose)
    ensures q.rect.w == p.rect.w && q.rect.h == p.rect.h
    ensures q.run == p.run && q.frame == p.frame && q.lastSample == p.lastSample
  {
    var step := PLAYER_SPEED * p.run.0;
    match d
    case Right => p.(rect := p.rect.(x := p.rect.x + step), state := RIGHT_WALKING + p.run.1)
    case Left => p.(rect := p.rect.(x := p.rect.x - step), state := LEFT_WALKING + p.run.1)
    case Up => p.(rect := p.rect.(y := p.rect.y - step), state := UP_WALKING + p.run.1)
    case Down => p.(rect := p.rect.(y := p.rect.y + step), state := DOWN_WALKING + p.run.1)
  }

  /** A move shifts the rect one step toward its direction, faces that
      direction, and walks (4..7) or runs (8..11) as `run` says. */
  lemma WalkMoves(p: Pose, d: Direction)
    requires ValidPose(p)
    ensures var q := Walk(p, d);
      && q.rect == p.rect.Moved(PLAYER_SPEED * p.run.0 * Heading(d).0, PLAYER_SPEED * p.run.0 * Heading(d).1)
      && FacingDirection(q.state) == d
      && (p.run == WALK ==> RIGHT_WALKING <= q.state <= UP_WALKING)
      && (p.run == RUN ==> RIGHT_RUNNING <= q.state <= UP_RUNNING)
      && q.run == p.run && q.frame == p.frame && q.lastSample == p.lastSample
      && ValidPose(q)
  {
  }

  /** `sample()`: stop running; once more than half a second has passed
      since the last turn, turn to the next facing, idle, and note the time. */
  function Sampled(p: Pose, now: real): (q: Pose)
    ensures q.run == WALK && q.rect == p.rect && q.frame == p.frame
    ensures q.lastSample == now || q.lastSample == p.lastSample
  {
    if now - p.lastSample > 0.5 then p.(run := WALK, state := (p.state + 1) % 4, lastSample := now)
    else p.(run := WALK)
  }

  /** Sampling turns a quarter at most every half second and stays put. */
  lemma {:induction false} SampleTurns(p: Pose, now: real)
    requires ValidPose(p)
    ensures var q := Sampled(p, now);
      && q.run == WALK && q.rect == p.rect && q.frame == p.frame && ValidPose(q)
      && (now - p.lastSample > 0.5 ==>
            q.state < 4 && Facing(q.state) == (Facing(p.state) + 1) % 4 && q.lastSample == now)
      && (now - p.lastSample <= 0.5 ==> q.state == p.state && q.lastSample == p.lastSample)
  {
    var k := p.state / 4;
    assert p.state == 4 * k + Facing(p.state);
    if Facing(p.state) == 3 {
      assert p.state + 1 == 4 * (k + 1);
    } else {
      assert p.state + 1 == 4 * k + (Facing(p.state) + 1);
    }
  }

  /** `idle()`: stop running and drop to the idle state of the same facing. */
  function Idled(p: Pose): (q: Pose)
    ensures q.run == WALK && q.rect == p.rect && q.frame == p.frame && q.lastSample == p.lastSample
  {
    p.(run := WALK, state := p.state % 4)
  }

  /** One `current_frame = (current_frame + 1) % 4` step. */
  function Advanced(p: Pose): Pose
  {
    p.(frame := NextFrame(p.frame))
  }

  /** Idling keeps the facing and the place, and leaves running. */
  lemma IdleKeepsFacing(p: Pose)
    requires ValidPose(p)
    ensures var q := Idled(p);
      && FacingDirection(q.state) == FacingDirection(p.state)
      && RIGHT_IDLE <= q.state <= UP_IDLE && q.run == WALK
      && q.rect == p.rect && ValidPose(q)
  {
  }

  /** What every character has: the sprite's rect, its animation state,
      the `run` pair, the frame shown and the time of the last turn while
      sampling. */
  class Character {
    var rect: Rect
    var state: int
    var run: (int, int)
    var currentFrame: int
    var lastSample: real

    function Snap(): Pose
      reads this
    {
      Pose(rect, state, run, currentFrame, lastSample)
    }

    ghost predicate Valid()
      reads this
    {
      ValidPose(Snap())
    }

    /** `Character(image_path, origin)` for a sprite of `size` x `size`
        pixels, centred on `origin`, at time `now`. */
    constructor (size: nat, origin: (int, int), now: real)
      ensures Snap() == Pose(Rect(0, 0, size, size).WithCenterX(origin.0).WithCenterY(origin.1),
                             RIGHT_IDLE, WALK, 0, now)
      ensures Valid()
    {
      currentFrame := 0;
      state := RIGHT_IDLE;
      run := WALK;
      var r := Rect(0, 0, size, size);
      r := r.WithCenterX(origin.0);
      r := r.WithCenterY(origin.1);
      rect := r;
      lastSample := now;
    }

    method Right()
      modifies this
      ensures Snap() == Walk(old(Snap()), Direction.Right)
    {
      rect := rect.(x := rect.x + PLAYER_SPEED * run.0);
      state := RIGHT_WALKING + run.1;
    }

    method Left()
      modifies this
      ensures Snap() == Walk(old(Snap()), Direction.Left)
    {
      rect := rect.(x := rect.x - PLAYER_SPEED * run.0);
      state := LEFT_WALKING + run.1;
    }

    method Up()
      modifies this
      ensures Snap() == Walk(old(Snap()), Direction.Up)
    {
      rect := rect.(y := rect.y - PLAYER_SPEED * run.0);
      state := UP_WALKING + run.1;
    }

    method Down()
      modifies this
      ensures Snap() == Walk(old(Snap()), Direction.Down)
    {
      rect := rect.(y := rect.y + PLAYER_SPEED * run.0);
      state := DOWN_WALKING + run.1;
    }

    /** `sample()`, with `time()` read as `now`. */
    method Sample(now: real)
      modifies this
      ensures Snap() == Sampled(old(Snap()), now)
    {
      run := WALK;
      if now - lastSample > 0.5 {
        state := (state + 1) % 4;
        lastSample := now;
      }
    }

    method Idle()
      modifies this
      ensures Snap() == Idled(old(Snap()))
    {
      run := WALK;
      state := state % 4;
    }

    /** Executes the move the direction names. */
    method Step(d: Direction)
      modifies this
      ensures Snap() == Walk(old(Snap()), d)
    {
      match d
      case Right => Right();
      case Left => Left();
      case Down => Down();
      case Up => Up();
    }

    method NextFrame()
      modifies this
      ensures Snap() == Advanced(old(Snap()))
    {
      currentFrame := (currentFrame + 1) % 4;
    }
  }

  // The player

  /** `set_cone()`: the cone is centred two tiles from the rect's centre,
      on the side the state faces. */
  function PlaceCone(cone: Rect, rect: Rect, state: int): (c: Rect)
    ensures c.w == cone.w && c.h == cone.h
  {
    var f := Facing(state);
    if f == RIGHT_IDLE then
      cone.WithCenterX(rect.CenterX() + TILE_SIZE * 2).WithCenterY(rect.CenterY())
    else if f == LEFT_IDLE then
      cone.WithCenterX(rect.CenterX() - TILE_SIZE * 2).WithCenterY(rect.CenterY())
    else if f == DOWN_IDLE then
      cone.WithCenterX(rect.CenterX()).WithCenterY(rect.CenterY() + TILE_SIZE * 2)
    else
      cone.WithCenterX(rect.CenterX()).WithCenterY(rect.CenterY() - TILE_SIZE * 2)
  }

  /** The cone keeps its size and sits `2 * TILE_SIZE` ahead of the rect's
      centre in the facing direction. */
  lemma ConeAhead(cone: Rect, rect: Rect, state: int)
    ensures var c := PlaceCone(cone, rect, state);
      var h := Heading(FacingDirection(state));
      && c.w == cone.w && c.h == cone.h
      && c.CenterX() == rect.CenterX() + 2 * TILE_SIZE * h.0
      && c.CenterY() == rect.CenterY() + 2 * TILE_SIZE * h.1
  {
  }

  /** One `Player.update()` on the pose and the cone, given the keys held. */
  function PlayerStep(p: Pose, cone: Rect, keys: Keys): (r: (Pose, Rect))
    ensures r.0.frame == NextFrame(p.frame) && r.0.lastSample == p.lastSample
    ensures r.0.rect.w == p.rect.w && r.0.rect.h == p.rect.h && r.1.w == cone.w && r.1.h == cone.h
    ensures !keys.Any() ==> r.0.rect == p.rect && r.1 == cone
  {
    if keys.Any() then
      var p1 := if keys.leftShift then p.(run := RUN) else p;
      var p2 := match Steer(keys)
                case Some(d) => Walk(p1, d)
                case None => Idled(p1);
      (Advanced(p2), PlaceCone(cone, p2.rect, p2.state))
    else if p.state >= 8 then
      (Advanced(p.(run := WALK, state := Max(0, p.state - 8))), cone)
    else if p.state >= 4 then
      (Advanced(p.(state := Max(0, p.state - 4))), cone)
    else
      (Advanced(p), cone)
  }

  /** With no key held the player stands still, drops to the idle state of
      the same facing, stops running when it was running, and keeps its
      cone. */
  lemma PlayerRests(p: Pose, cone: Rect, keys: Keys)
    requires ValidPose(p) && !keys.Any()
    ensures var (q, c) := PlayerStep(p, cone, keys);
      && q.rect == p.rect && c == cone
      && q.state == Facing(p.state)
      && (p.state >= RIGHT_RUNNING ==> q.run == WALK)
      && (p.state < RIGHT_RUNNING ==> q.run == p.run)
      && q.frame == NextFrame(p.frame)
  {
    var k := p.state / 4;
    assert p.state == 4 * k + Facing(p.state);
  }

  /** With a direction key held the player takes one step in the direction
      that wins the right, left, down, up precedence, running exactly when
      shift is held now or `run` was already set, and faces that way. */
  lemma PlayerSteps(p: Pose, cone: Rect, keys: Keys, d: Direction)
    requires ValidPose(p) && Steer(keys) == Some(d)
    ensures var (q, c) := PlayerStep(p, cone, keys);
      var run := if keys.leftShift then RUN else p.run;
      && q.run == run
      && q.rect == p.rect.Moved(PLAYER_SPEED * run.0 * Heading(d).0, PLAYER_SPEED * run.0 * Heading(d).1)
      && q.state == WalkingState(d) + run.1
      && FacingDirection(q.state) == d
      && q.frame == NextFrame(p.frame)
  {
    WalkMoves(if keys.leftShift then p.(run := RUN) else p, d);
  }

  /** Keys held but none of them a direction: the player idles, so shift
      alone ends with `run` back at walking. */
  lemma PlayerStops(p: Pose, cone: Rect, keys: Keys)
    requires ValidPose(p) && keys.Any() && Steer(keys) == None
    ensures var (q, c) := PlayerStep(p, cone, keys);
      && q.run == WALK && q.rect == p.rect
      && q.state == Facing(p.state)
      && q.frame == NextFrame(p.frame)
  {
  }

  /** After any key, the cone is re-centred ahead of the player's new rect,
      in its new facing. */
  lemma PlayerConeFollows(p: Pose, cone: Rect, keys: Keys)
    requires keys.Any()
    ensures var (q, c) := PlayerStep(p, cone, keys);
      var h := Heading(FacingDirection(q.state));
      && c.w == cone.w && c.h == cone.h
      && c.CenterX() == q.rect.CenterX() + 2 * TILE_SIZE * h.0
      && c.CenterY() == q.rect.CenterY() + 2 * TILE_SIZE * h.1
  {
    var (q, c) := PlayerStep(p, cone, keys);
    ConeAhead(cone, q.rect, q.state);
  }

  /** The state stays one of the twelve constants, `run` one of its two
      values and the frame in 0..3, whatever is held. */
  lemma PlayerStaysValid(p: Pose, cone: Rect, keys: Keys)
    requires ValidPose(p)
    ensures ValidPose(PlayerStep(p, cone, keys).0)
  {
    if keys.Any() {
      var p1 := if keys.leftShift then p.(run := RUN) else p;
      match Steer(keys)
      case Some(d) => WalkMoves(p1, d);
      case None => IdleKeepsFacing(p1);
    }
  }

  /** The player: a 16-pixel character and its smelling cone. */
  class Player {
    const sprite: Character
    var cone: Rect

    ghost predicate Valid()
      reads this, sprite
    {
      sprite.Valid() && cone.w == TILE_SIZE * 2 && cone.h == TILE_SIZE * 2
    }

    /** `Player(image_path, origin)` at time `now`. */
    constructor (origin: (int, int), now: real)
      ensures fresh(sprite) && Valid()
      ensures sprite.Snap() == Pose(Rect(0, 0, TILE_SIZE, TILE_SIZE).WithCenterX(origin.0).WithCenterY(origin.1),
                                    RIGHT_IDLE, WALK, 0, now)
      ensures cone == PlaceCone(Rect(0, 0, TILE_SIZE * 2, TILE_SIZE * 2), sprite.rect, RIGHT_IDLE)
    {
      sprite := new Character(TILE_SIZE, origin, now);
      cone := Rect(0, 0, TILE_SIZE * 2, TILE_SIZE * 2);
      new;
      SetCone();
    }

    method SetCone()
      modifies this
      ensures cone == PlaceCone(old(cone), sprite.rect, sprite.state)
    {
      var f := sprite.state % 4;
      if f == RIGHT_IDLE {
        cone := cone.WithCenterX(sprite.rect.CenterX() + TILE_SIZE * 2);
        cone := cone.WithCenterY(sprite.rect.CenterY());
      } else if f == LEFT_IDLE {
        cone := cone.WithCenterX(sprite.rect.CenterX() - TILE_SIZE * 2);
        cone := cone.WithCenterY(sprite.rect.CenterY());
      } else if f == DOWN_IDLE {
        cone := cone.WithCenterX(sprite.rect.CenterX());
        cone := cone.WithCenterY(sprite.rect.CenterY() + TILE_SIZE * 2);
      } else if f == UP_IDLE {
        cone := cone.WithCenterX(sprite.rect.CenterX());
        cone := cone.WithCenterY(sprite.rect.CenterY() - TILE_SIZE * 2);
      }
    }

    /** `update()`, with `key.get_pressed()` read as `keys`. */
    method Update(keys: Keys)
      requires Valid()
      modifies this, sprite
      ensures (sprite.Snap(), cone) == PlayerStep(old(sprite.Snap()), old(cone), keys)
      ensures Valid()
    {
      PlayerStaysValid(sprite.Snap(), cone, keys);
      if keys.Any() {
        if keys.leftShift {
          sprite.run := RUN;
        }
        match Steer(keys) {
          case Some(d) => sprite.Step(d);
          case None => sprite.Idle();
        }
        SetCone();
        ConeAhead(old(cone), sprite.rect, sprite.state);
      } else if sprite.state >= 8 {
        sprite.run := WALK;
        sprite.state := Max(0, sprite.state - 8);
      } else if sprite.state >= 4 {
        sprite.state := Max(0, sprite.state - 4);
      }
      sprite.NextFrame();
    }
  }

  // The bear

  /** What `self.move` can hold: one of the four walking moves, or
      `sample`. */
  datatype Move = Go(d: Direction) | Sniff

  /** What the bear reads of a particle: its colour and the integer cell
      `Rect(pos, (1, 1))` it occupies. */
  datatype Scent = Scent(color: string, x: int, y: int)

  /** The rect `smells_player` tests: the bear's rect moved two tiles
      toward its facing. */
  function Nose(rect: Rect, state: int): (n: Rect)
    ensures n.w == rect.w && n.h == rect.h
  {
    var f := Facing(state);
    if f == RIGHT_IDLE then rect.WithCenterX(rect.CenterX() + TILE_SIZE * 2)
    else if f == LEFT_IDLE then rect.WithCenterX(rect.CenterX() - TILE_SIZE * 2)
    else if f == DOWN_IDLE then rect.WithCenterY(rect.CenterY() + TILE_SIZE * 2)
    else rect.WithCenterY(rect.CenterY() - TILE_SIZE * 2)
  }

  /** The nose is the bear's rect shifted `2 * TILE_SIZE` ahead. */
  lemma NoseAhead(rect: Rect, state: int)
    ensures var h := Heading(FacingDirection(state));
      Nose(rect, state) == rect.Moved(2 * TILE_SIZE * h.0, 2 * TILE_SIZE * h.1)
  {
    ShiftCenter(rect, 2 * TILE_SIZE, 2 * TILE_SIZE);
    ShiftCenter(rect, -2 * TILE_SIZE, -2 * TILE_SIZE);
  }

  /** A particle the nose picks up: neither the bear's own red trail nor a
      green one, and inside the nose rect. */
  predicate Detects(nose: Rect, s: Scent)
  {
    s.color != "red" && s.color != "green" && nose.ContainsCell(s.x, s.y)
  }

  /** How many of the particles the nose picks up. */
  function CountScent(nose: Rect, ss: seq<Scent>): (n: nat)
    ensures n <= |ss|
  {
    if ss == [] then 0
    else CountScent(nose, ss[..|ss| - 1]) + (if Detects(nose, ss[|ss| - 1]) then 1 else 0)
  }

  /** The count is positive exactly when some particle is picked up, and
      never exceeds the number of particles. */
  lemma {:induction false} CountScentPositive(nose: Rect, ss: seq<Scent>)
    ensures CountScent(nose, ss) <= |ss|
    ensures CountScent(nose, ss) > 0 <==> exists j :: 0 <= j < |ss| && Detects(nose, ss[j])
  {
    if ss != [] {
      var init := ss[..|ss| - 1];
      CountScentPositive(nose, init);
      if CountScent(nose, init) > 0 {
        var j :| 0 <= j < |init| && Detects(nose, init[j]);
        assert ss[j] == init[j];
      }
      if exists j :: 0 <= j < |ss| && Detects(nose, ss[j]) {
        var j :| 0 <= j < |ss| && Detects(nose, ss[j]);
        if j < |init| {
          assert init[j] == ss[j];
        }
      }
    }
  }

  /** `smells_self()`: not written yet in the source; it never fires. */
  predicate SmellsSelf()
  {
    false
  }

  /** The move and the clock `Bear.update` settles on before moving: a
      scent picks `sample`, then the first edge of the play area the rect
      is past (top, bottom, left, right) picks the move back inside, then
      more than 3 seconds without a trigger picks `pick`. Every trigger
      resets the clock to `now`. */
  function Decide(rect: Rect, move: Move, clock: real, area: Rect, count: nat, now: real,
                  pick: Direction): (r: (Move, real))
    ensures now - r.1 <= 3.0
    ensures r.1 == now || r.1 == clock
  {
    var (m1, c1) := if count > 0 then (Sniff, now)
                   else if SmellsSelf() then (move, now)
                   else (move, clock);
    var (m2, c2) := if rect.Top() < area.Top() then (Go(Down), now)
                   else if rect.Bottom() > area.Bottom() then (Go(Up), now)
                   else if rect.Left() < area.Left() then (Go(Right), now)
                   else if rect.Right() > area.Right() then (Go(Left), now)
                   else (m1, c1);
    if now - c2 > 3.0 then (Go(pick), now) else (m2, c2)
  }

  /** The rect is past some edge of the play area. */
  predicate OutOfBounds(rect: Rect, area: Rect)
  {
    rect.Top() < area.Top() || rect.Bottom() > area.Bottom() ||
    rect.Left() < area.Left() || rect.Right() > area.Right()
  }

  /** The override chain, resolved: a border violation always wins (the
      clock it resets cannot be stale), a scent wins inside the area, and
      only a bear that neither strays nor smells anything for more than 3
      seconds takes the random move. */
  lemma DecidePriority(rect: Rect, move: Move, clock: real, area: Rect, count: nat, now: real,
                       pick: Direction)
    ensures var r := Decide(rect, move, clock, area, count, now, pick);
      && (rect.Top() < area.Top() ==> r == (Go(Down), now))
      && (rect.Top() >= area.Top() && rect.Bottom() > area.Bottom() ==> r == (Go(Up), now))
      && (rect.Top() >= area.Top() && rect.Bottom() <= area.Bottom() && rect.Left() < area.Left() ==>
            r == (Go(Right), now))
      && ((rect.Top() >= area.Top() && rect.Bottom() <= area.Bottom() && rect.Left() >= area.Left() &&
           rect.Right() > area.Right()) ==> r == (Go(Left), now))
      && (!OutOfBounds(rect, area) && count > 0 ==> r == (Sniff, now))
      && (!OutOfBounds(rect, area) && count == 0 && now - clock > 3.0 ==> r == (Go(pick), now))
      && (!OutOfBounds(rect, area) && count == 0 && now - clock <= 3.0 ==> r == (move, clock))
  {
  }

  /** The move only ever changes together with a clock reset. */
  lemma DecideResetsClock(rect: Rect, move: Move, clock: real, area: Rect, count: nat, now: real,
                          pick: Direction)
    ensures var r := Decide(rect, move, clock, area, count, now, pick);
      r.1 == now || r == (move, clock)
  {
  }

  /** Carries out the chosen move. */
  function Execute(p: Pose, m: Move, now: real): (q: Pose)
    ensures q.rect.w == p.rect.w && q.rect.h == p.rect.h && q.frame == p.frame
  {
    match m
    case Go(d) => Walk(p, d)
    case Sniff => Sampled(p, now)
  }

  /** The bear never runs: walking moves keep `run` and sampling resets it. */
  lemma BearWalks(p: Pose, m: Move, now: real)
    requires ValidPose(p) && p.run == WALK
    ensures var q := Advanced(Execute(p, m, now));
      ValidPose(q) && q.run == WALK
  {
    match m
    case Go(d) => WalkMoves(p, d);
    case Sniff => SampleTurns(p, now);
  }

  /** The bear: a 24-pixel character that wanders, follows the player's
      scent and turns back at the edges. `move` is the bound method
      `update` calls every tick. */
  class Bear {
    const sprite: Character
    var internalClock: real
    var move: Move

    ghost predicate Valid()
      reads this, sprite
    {
      sprite.Valid() && sprite.run == WALK
    }

    /** `Bear(image_path, origin, surface, particles)` at time `now`; the
        initial `choice` is `pick`. */
    constructor (origin: (int, int), now: real, pick: Direction)
      ensures fresh(sprite) && Valid()
      ensures sprite.Snap() == Pose(Rect(0, 0, 24, 24).WithCenterX(origin.0).WithCenterY(origin.1),
                                    RIGHT_IDLE, WALK, 1, now)
      ensures internalClock == now && move == Go(pick)
    {
      sprite := new Character(24, origin, now);
      internalClock := now;
      move := Go(pick);
      new;
      sprite.NextFrame();
    }

    /** `smells_player()`: counts the particles the nose picks up. */
    method SmellsPlayer(scents: seq<Scent>) returns (count: nat)
      ensures count == CountScent(Nose(sprite.rect, sprite.state), scents)
    {
      var nose := sprite.rect;
      var f := sprite.state % 4;
      if f == RIGHT_IDLE {
        nose := nose.WithCenterX(nose.CenterX() + TILE_SIZE * 2);
      } else if f == LEFT_IDLE {
        nose := nose.WithCenterX(nose.CenterX() - TILE_SIZE * 2);
      } else if f == DOWN_IDLE {
        nose := nose.WithCenterY(nose.CenterY() + TILE_SIZE * 2);
      } else if f == UP_IDLE {
        nose := nose.WithCenterY(nose.CenterY() - TILE_SIZE * 2);
      }
      count := 0;
      var i := 0;
      while i < |scents|
        invariant 0 <= i <= |scents|
        invariant count == CountScent(nose, scents[..i])
      {
        var s := scents[i];
        if s.color != "red" && s.color != "green" {
          count := count + if nose.ContainsCell(s.x, s.y) then 1 else 0;
        }
        assert scents[..i + 1][..i] == scents[..i];
        i := i + 1;
      }
      assert scents[..i] == scents;
    }

    /** `update()`: the play area `surface.get_bounding_rect()` is `area`,
        the particles are read as `scents`, every `time()` as `now`, and
        the `choice` among the four moves as `pick`. */
    method Update(area: Rect, scents: seq<Scent>, now: real, pick: Direction)
      requires Valid()
      modifies this, sprite
      ensures (move, internalClock) ==
              Decide(old(sprite.rect), old(move), old(internalClock), area,
                     CountScent(Nose(old(sprite.rect), old(sprite.state)), scents), now, pick)
      ensures sprite.Snap() == Advanced(Execute(old(sprite.Snap()), move, now))
      ensures Valid()
    {
      var count := SmellsPlayer(scents);
      // the `elif self.smells_self()` branch is left out: SmellsSelf never holds
      if count > 0 {
        internalClock := now;
        move := Sniff;
      }
      if sprite.rect.Top() < area.Top() {
        move := Go(Down);
        internalClock := now;
      } else if sprite.rect.Bottom() > area.Bottom() {
        move := Go(Up);
        internalClock := now;
      } else if sprite.rect.Left() < area.Left() {
        move := Go(Right);
        internalClock := now;
      } else if sprite.rect.Right() > area.Right() {
        move := Go(Left);
        internalClock := now;
      }
      if now - internalClock > 3.0 {
        move := Go(pick);
        internalClock := now;
      }
      BearWalks(sprite.Snap(), move, now);
      match move {
        case Go(d) => sprite.Step(d);
        case Sniff => sprite.Sample(now);
      }
      sprite.NextFrame();
    }
  }
}
