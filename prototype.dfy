/** The first version of the game logic, in __main__.py: particles that
    only move and collide (no speed limit, decay or smell), a swarm update
    that collides every ordered pair before moving anyone, and a player
    whose running is a boolean. */
module Prototype {
  import opened Physics
  import opened Rects
  import opened Sprites
  import opened Lists

  /** `sys.float_info.min`, the smallest positive normal double, is
      2^FLOAT_MIN_EXP. */
  const FLOAT_MIN_EXP: int := -1022

  /** The smallest positive subnormal double is 2^-1074, and an exact
      result of magnitude at most half of it, 2^UNDERFLOW_EXP, rounds to
      zero. */
  const UNDERFLOW_EXP: int := -1075

  /** The double `-(2^a) * 2^b` for two powers of two whose exact product
      underflows: it is -0.0, which adds and subtracts like 0. This is a
      modelling assumption about IEEE 754 round-to-nearest, taken as the
      definition and not proved: reals here carry no rounding, so
      `FallbackUnderflows` only checks the exponents against it. */
  function NegPowerProduct(a: int, b: int): real
    requires a + b <= UNDERFLOW_EXP
  {
    0.0
  }

  /** The impulse `(-h * _sin, -h * _cos)` of two coincident particles:
      `_sin`, `_cos` and `h` each fall back to `float_info.min` when the
      distance is 0, and 2^-1022 * 2^-1022 = 2^-2044 underflows. */
  const Nudge: Vec := Vec(NegPowerProduct(FLOAT_MIN_EXP, FLOAT_MIN_EXP),
                          NegPowerProduct(FLOAT_MIN_EXP, FLOAT_MIN_EXP))

  /** The nudge the fallbacks compute is the zero vector. */
  lemma FallbackUnderflows()
    ensures FLOAT_MIN_EXP + FLOAT_MIN_EXP < UNDERFLOW_EXP
    ensures Nudge == Zero
  {
  }

  /** Two coincident particles keep their velocities: the fallback nudge
      is zero, exactly as the later engine's explicit zero fallback. */
  lemma CoincidentPairKept(a: Body, b: Body)
    requires Dist2(a, b) == 0.0
    ensures Response(a, b, Nudge) == (a.vel, b.vel)
  {
    FallbackUnderflows();
    NoNormalMotionNoChange(a, b);
  }

  /** The prototype's `collide` and the later engine's give every pair the
      same velocities. */
  lemma SameResponseAsEngine(a: Body, b: Body)
    ensures Response(a, b, Nudge) == Response(a, b, Zero)
  {
    FallbackUnderflows();
  }

  /** A point particle without decay, colour or visibility. */
  class Particle {
    var pos: Vec
    var vector: Vec
    const inner: real
    const outer: real

    /** `Particle(position, vector, radius)`. */
    constructor (position: Vec, vector: Vec, radius: (real, real))
      ensures pos == position && this.vector == vector
      ensures inner == radius.0 && outer == radius.1
    {
      pos := position;
      this.vector := vector;
      inner, outer := radius.0, radius.1;
    }

    function AsBody(): Body
      reads this
    {
      Body(pos, vector, inner, outer)
    }

    /** `update()`: the position moves by the velocity, unclamped. */
    method Update()
      modifies this
      ensures AsBody() == Drifted(old(AsBody()))
    {
      pos := pos.(x := pos.x + vector.x);
      pos := pos.(y := pos.y + vector.y);
    }

    /** `collide(body)`: as in the later engine, with `float_info.min`
        standing in for each quotient by a zero distance. */
    method Collide(body: Particle)
      modifies this, body
      ensures pos == old(pos) && body.pos == old(body.pos)
      ensures this != body ==>
                (vector, body.vector) == Response(old(AsBody()), old(body.AsBody()), Nudge)
      ensures this == body ==> vector == old(vector)
    {
      var dx, dy := pos.x - body.pos.x, pos.y - body.pos.y;
      var d2 := dx * dx + dy * dy;
      assert d2 == Dist2(AsBody(), body.AsBody());
      if Within(d2, outer + body.outer) {
        var nx, ny := Kick(body, dx, dy, d2);
        if Within(d2, inner + body.inner) {
          vector := Vec(vector.x - nx, vector.y - ny);
          body.vector := Vec(body.vector.x + nx, body.vector.y + ny);
        } else {
          vector := Vec(vector.x + nx, vector.y + ny);
          body.vector := Vec(body.vector.x - nx, body.vector.y - ny);
        }
      }
    }

    /** The `(-h * _sin, -h * _cos)` part of `collide`. */
    method Kick(body: Particle, dx: real, dy: real, d2: real) returns (nx: real, ny: real)
      requires dx == pos.x - body.pos.x && dy == pos.y - body.pos.y && d2 == dx * dx + dy * dy
      ensures Vec(nx, ny) == Impulse(AsBody(), body.AsBody(), Nudge)
    {
      var dvx, dvy := vector.x - body.vector.x, vector.y - body.vector.y;
      if d2 > 0.0 {
        // (sin, cos) and h carry the common factor 1/delta each
        var sin, cos := dx, dy;
        var h := (dx * dvx + dy * dvy) / d2;
        nx, ny := -h * sin, -h * cos;
      } else {
        // h, sin and cos are all float_info.min
        nx, ny := NegPowerProduct(FLOAT_MIN_EXP, FLOAT_MIN_EXP), NegPowerProduct(FLOAT_MIN_EXP, FLOAT_MIN_EXP);
      }
    }
  }

  /** A body moved by its own velocity. */
  function Drifted(b: Body): (r: Body)
    ensures r.vel == b.vel && r.inner == b.inner && r.outer == b.outer
    ensures r.pos == b.pos.Plus(b.vel)
  {
    b.(pos := Vec(b.pos.x + b.vel.x, b.pos.y + b.vel.y))
  }

  /** Every body of a swarm moved by its own velocity. */
  function DriftAll(s: seq<Body>): (t: seq<Body>)
    ensures |t| == |s|
  {
    seq(|s|, k requires 0 <= k < |s| => Drifted(s[k]))
  }

  lemma {:induction false} DriftAllKeepsVelocity(s: seq<Body>)
    ensures SumVel(DriftAll(s)) == SumVel(s)
  {
    if s != [] {
      DriftAllKeepsVelocity(s[1..]);
      assert DriftAll(s)[1..] == DriftAll(s[1..]);
    }
  }

  /** One `Particles.update()` on the bodies: every ordered pair collides
      on the positions the swarm had at the start, then every particle
      moves by its velocity after all collisions; the total velocity is
      what it was. */
  lemma SwarmStep(s: seq<Body>)
    ensures var t := DriftAll(AllPairs(s, Nudge));
      && |t| == |s|
      && SumVel(t) == SumVel(s)
      && forall k :: 0 <= k < |s| ==>
           t[k].pos == s[k].pos.Plus(AllPairs(s, Nudge)[k].vel) && t[k].vel == AllPairs(s, Nudge)[k].vel
  {
    AllPairsConserves(s, Nudge);
    DriftAllKeepsVelocity(AllPairs(s, Nudge));
  }

  /** `Particles(list)`. */
  class Particles {
    var items: seq<Particle>

    /** No particle is in the list twice. */
    ghost predicate Valid()
      reads this
    {
      Distinct(items)
    }

    ghost function Bodies(): (bs: seq<Body>)
      reads this, items
      ensures |bs| == |items|
      ensures forall k :: 0 <= k < |items| ==> bs[k] == items[k].AsBody()
    {
      seq(|items|, k requires 0 <= k < |items| reads this, items => items[k].AsBody())
    }

    /** `update()`: the `permutations(self, 2)` collisions, then every
        particle's `update()`. */
    method Update()
      requires Valid()
      modifies items
      ensures Bodies() == DriftAll(AllPairs(old(Bodies()), Nudge))
    {
      CollidePairs();
      MoveAll();
    }

    method CollidePairs()
      requires Valid()
      modifies items
      ensures Bodies() == AllPairs(old(Bodies()), Nudge)
    {
      var n := |items|;
      ghost var goal := AllPairs(Bodies(), Nudge);
      var i := 0;
      while i < n
        invariant 0 <= i <= n
        invariant PairsFrom(Bodies(), i, 0, Nudge) == goal
      {
        CollideRow(i);
        i := i + 1;
      }
    }

    /** Particle `i` collides with every other particle in turn. */
    method CollideRow(i: nat)
      requires Valid() && i < |items|
      modifies items
      ensures PairsFrom(Bodies(), i + 1, 0, Nudge) == PairsFrom(old(Bodies()), i, 0, Nudge)
    {
      var n := |items|;
      var j := 0;
      while j < n
        invariant 0 <= j <= n
        invariant PairsFrom(Bodies(), i, j, Nudge) == PairsFrom(old(Bodies()), i, 0, Nudge)
      {
        if i != j {
          CollidePair(i, j);
        }
        j := j + 1;
      }
    }

    /** `particle_0.collide(particle_1)` for two different indices. */
    method CollidePair(i: nat, j: nat)
      requires Valid() && i < |items| && j < |items| && i != j
      modifies items[i], items[j]
      ensures Bodies() == CollideAt(old(Bodies()), i, j, Nudge)
    {
      DistinctAt(items, i);
      DistinctAt(items, j);
      items[i].Collide(items[j]);
    }

    /** The move loop of `update()`. */
    method MoveAll()
      requires Valid()
      modifies items
      ensures Bodies() == DriftAll(old(Bodies()))
    {
      var n := |items|;
      var k := 0;
      while k < n
        invariant 0 <= k <= n
        invariant forall m :: 0 <= m < k ==> items[m].AsBody() == Drifted(old(items[m].AsBody()))
        invariant forall m :: k <= m < n ==> items[m].AsBody() == old(items[m].AsBody())
      {
        DistinctAt(items, k);
        items[k].Update();
        k := k + 1;
      }
    }
  }

  // The player

  /** The player's state in this version: `run` is a flag. */
  datatype Pose = Pose(rect: Rect, state: int, run: bool, frame: int)

  predicate ValidPose(p: Pose)
  {
    ValidState(p.state) && 0 <= p.frame < 4
  }

  /** One `Player.update()`, given the keys held. */
  function Step(p: Pose, keys: Keys): (q: Pose)
    ensures q.frame == NextFrame(p.frame)
    ensures q.rect.w == p.rect.w && q.rect.h == p.rect.h
    ensures !keys.Any() ==> q.rect == p.rect
  {
    var q :=
      if keys.Any() then
        var run := keys.leftShift || p.run;
        var step := PLAYER_SPEED * (if run then 2 else 1);
        var level := if run then 4 else 0;
        if keys.arrowRight || keys.d then
          p.(run := run, rect := p.rect.(x := p.rect.x + step), state := RIGHT_WALKING + level)
        else if keys.arrowLeft || keys.a then
          p.(run := run, rect := p.rect.(x := p.rect.x - step), state := LEFT_WALKING + level)
        else if keys.arrowDown || keys.s then
          p.(run := run, rect := p.rect.(y := p.rect.y + step), state := DOWN_WALKING + level)
        else if keys.arrowUp || keys.w then
          p.(run := run, rect := p.rect.(y := p.rect.y - step), state := UP_WALKING + level)
        else
          p.(run := false, state := Max(0, p.state - 4))
      else if p.state >= 8 then p.(run := false, state := Max(0, p.state - 8))
      else if p.state >= 4 then p.(state := Max(0, p.state - 4))
      else p;
    q.(frame := NextFrame(q.frame))
  }

  /** With a direction key held the player steps toward the direction that
      wins the right, left, down, up precedence, twice as far when running,
      and faces it; shift sets the running flag for good. */
  lemma StepSteers(p: Pose, keys: Keys, d: Direction)
    requires Steer(keys) == Some(d)
    ensures var q := Step(p, keys);
      var run := keys.leftShift || p.run;
      var step := PLAYER_SPEED * (if run then 2 else 1);
      && q.run == run
      && q.rect == p.rect.Moved(step * Heading(d).0, step * Heading(d).1)
      && q.state == WalkingState(d) + (if run then 4 else 0)
      && FacingDirection(q.state) == d
  {
  }

  /** Keys held but no direction: running stops and the state drops one
      level, so a runner walks on the spot facing the same way. */
  lemma StepStops(p: Pose, keys: Keys)
    requires ValidPose(p) && keys.Any() && Steer(keys) == None
    ensures var q := Step(p, keys);
      && !q.run && q.rect == p.rect
      && (p.state >= RIGHT_WALKING ==> q.state == p.state - 4 && Facing(q.state) == Facing(p.state))
      && (p.state < RIGHT_WALKING ==> q.state == RIGHT_IDLE)
  {
    var k := p.state / 4;
    assert p.state == 4 * k + Facing(p.state);
    assert p.state - 4 == 4 * (k - 1) + Facing(p.state);
  }

  /** The clamp at 0 turns an idle player that faces left, down or up to
      the right: holding shift alone while facing left is an instance. */
  lemma FacingLostWhenIdle()
    ensures var p := Pose(Rect(0, 0, TILE_SIZE, TILE_SIZE), LEFT_IDLE, false, 0);
      var q := Step(p, Keys(false, false, false, false, false, false, false, false, true, false));
      FacingDirection(p.state) == Left && FacingDirection(q.state) == Right
  {
  }

  /** With no key held the player stands still and drops to the idle state
      of its facing; running stops when it was running. */
  lemma StepRests(p: Pose, keys: Keys)
    requires ValidPose(p) && !keys.Any()
    ensures var q := Step(p, keys);
      && q.rect == p.rect && q.state == Facing(p.state)
      && (p.state >= RIGHT_RUNNING ==> !q.run)
      && (p.state < RIGHT_RUNNING ==> q.run == p.run)
  {
    var k := p.state / 4;
    assert p.state == 4 * k + Facing(p.state);
  }

  /** The state stays one of the twelve constants and the frame cycles
      through 0..3. */
  lemma StepStaysValid(p: Pose, keys: Keys)
    requires ValidPose(p)
    ensures ValidPose(Step(p, keys)) && Step(p, keys).frame == (p.frame + 1) % 4
  {
  }

  /** The player sprite of __main__.py. */
  class Player {
    var rect: Rect
    var state: int
    var run: bool
    var currentFrame: int
    const frameSize: nat

    function Snap(): Pose
      reads this
    {
      Pose(rect, state, run, currentFrame)
    }

    /** `Player(image_path, frame_size)`: the rect is the first frame's,
        at the origin. */
    constructor (frameSize: nat)
      ensures Snap() == Pose(Rect(0, 0, frameSize, frameSize), RIGHT_IDLE, false, 0)
      ensures this.frameSize == frameSize
    {
      currentFrame := 0;
      state := RIGHT_IDLE;
      run := false;
      this.frameSize := frameSize;
      rect := Rect(0, 0, frameSize, frameSize);
    }

    /** `update()`, with `key.get_pressed()` read as `keys`. */
    method Update(keys: Keys)
      modifies this
      ensures Snap() == Step(old(Snap()), keys)
    {
      if keys.Any() {
        if keys.leftShift {
          run := true;
        }
        if keys.arrowRight || keys.d {
          rect := rect.(x := rect.x + PLAYER_SPEED * (if run then 2 else 1));
          state := RIGHT_WALKING + (if run then 4 else 0);
        } else if keys.arrowLeft || keys.a {
          rect := rect.(x := rect.x - PLAYER_SPEED * (if run then 2 else 1));
          state := LEFT_WALKING + (if run then 4 else 0);
        } else if keys.arrowDown || keys.s {
          rect := rect.(y := rect.y + PLAYER_SPEED * (if run then 2 else 1));
          state := DOWN_WALKING + (if run then 4 else 0);
        } else if keys.arrowUp || keys.w {
          rect := rect.(y := rect.y - PLAYER_SPEED * (if run then 2 else 1));
          state := UP_WALKING + (if run then 4 else 0);
        } else {
          run := false;
          state := Max(0, state - 4);
        }
      } else if state >= 8 {
        run := false;
        state := Max(0, state - 8);
      } else if state >= 4 {
        state := Max(0, state - 4);
      }
      currentFrame := (currentFrame + 1) % 4;
    }
  }
}
