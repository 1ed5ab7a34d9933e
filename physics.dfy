/** Point-mass physics shared by both versions of the particle engine
    (particles.py and the older copy in __main__.py): 2D vectors, a body
    with inner and outer collision radii, the pairwise velocity response
    and the pass over all ordered pairs of a swarm.

    Distances are never square-rooted: `hypot(dx, dy) < R` is stated as
    `Within(dx*dx + dy*dy, R)`, and the impulse `-h * sin` as
    `-(d . dv) * dx / (d . d)`; the lemmas WithinIsDistanceBelow and
    ImpulseIsTrigForm justify both against the source's formulas. */
module Physics {

  datatype Vec = Vec(x: real, y: real) {
    function Plus(o: Vec): Vec { Vec(x + o.x, y + o.y) }
    function Minus(o: Vec): Vec { Vec(x - o.x, y - o.y) }
    function Dot(o: Vec): real { x * o.x + y * o.y }
    // z-component of the 2D cross product
    function Cross(o: Vec): real { x * o.y - y * o.x }
  }

  const Zero: Vec := Vec(0.0, 0.0)

  /** A particle as the collision code sees it. */
  datatype Body = Body(pos: Vec, vel: Vec, inner: real, outer: real)

  /** Squared distance between the two bodies' positions; it is zero
      exactly where the source's `hypot` is. */
  function Dist2(a: Body, b: Body): (d2: real)
    ensures d2 >= 0.0
  {
    var d := a.pos.Minus(b.pos);
    SquareNonNegative(d.x);
    SquareNonNegative(d.y);
    d.Dot(d)
  }

  lemma SquareNonNegative(x: real)
    ensures x * x >= 0.0
  {
    if x < 0.0 { assert x * x == (-x) * (-x); }
  }

  // Products are passed in as named values: the solver handles a chain of
  // inequalities between products reliably only in that form.
  lemma MulLe(a: real, b: real, c: real, ac: real, bc: real)
    requires 0.0 <= c && a <= b && ac == a * c && bc == b * c
    ensures ac <= bc
  {
    assert bc - ac == (b - a) * c;
  }

  lemma MulLt(a: real, b: real, c: real, ac: real, bc: real)
    requires 0.0 < c && a < b && ac == a * c && bc == b * c
    ensures ac < bc
  {
    assert bc - ac == (b - a) * c;
  }

  lemma LessSquares(a: real, b: real)
    requires 0.0 <= a < b
    ensures a * a < b * b
  {
    MulLe(a, b, a, a * a, b * a);
    MulLt(a, b, b, a * b, b * b);
    assert a * b == b * a;
  }

  lemma LeSquares(a: real, b: real)
    requires 0.0 <= a <= b
    ensures a * a <= b * b
  {
    MulLe(a, b, a, a * a, b * a);
    MulLe(a, b, b, a * b, b * b);
    assert a * b == b * a;
  }

  /** `sqrt(d2) < r`, for the squared distance d2. */
  predicate Within(d2: real, r: real)
  {
    0.0 < r && d2 < r * r
  }

  /** The square-root-free test agrees with the source's `delta < r`
      for every non-negative distance `delta`. */
  lemma WithinIsDistanceBelow(delta: real, r: real)
    requires delta >= 0.0
    ensures Within(delta * delta, r) <==> delta < r
  {
    if delta < r {
      LessSquares(delta, r);
    } else if 0.0 < r {
      LeSquares(r, delta);
    }
  }

  /** The velocity change `(-h*sin, -h*cos)` of one `collide` call, with
      `degenerate` standing in for it when the two positions coincide. */
  function Impulse(a: Body, b: Body, degenerate: Vec): (r: Vec)
    ensures a.pos == b.pos ==> r == degenerate
  {
    var d := a.pos.Minus(b.pos);
    var d2 := d.Dot(d);
    if d2 > 0.0 then
      var k := d.Dot(a.vel.Minus(b.vel)) / d2;
      Vec(-k * d.x, -k * d.y)
    else
      degenerate
  }

  /** Away from the degenerate case the impulse lies along the line of
      centres: it is parallel to the displacement from `b` to `a`. */
  lemma ImpulseAlongCentres(a: Body, b: Body, degenerate: Vec)
    requires Dist2(a, b) > 0.0
    ensures var r := Impulse(a, b, degenerate);
      var d := a.pos.Minus(b.pos);
      r.x * d.y == r.y * d.x
  {
    var d := a.pos.Minus(b.pos);
    var k := d.Dot(a.vel.Minus(b.vel)) / d.Dot(d);
    assert Impulse(a, b, degenerate) == Vec(-k * d.x, -k * d.y);
    assert (-k * d.x) * d.y == (-k * d.y) * d.x;
  }

  /** With `delta = hypot(dx, dy) > 0`, the source computes
      `-((dx*dvx + dy*dvy) / delta) * (dx / delta)` (and likewise with dy);
      Impulse is that same value. */
  lemma ImpulseIsTrigForm(a: Body, b: Body, degenerate: Vec, delta: real)
    requires delta > 0.0
    requires delta * delta == Dist2(a, b)
    ensures var d := a.pos.Minus(b.pos);
            var h := d.Dot(a.vel.Minus(b.vel)) / delta;
            Impulse(a, b, degenerate) == Vec(-h * (d.x / delta), -h * (d.y / delta))
  {
    var d := a.pos.Minus(b.pos);
    LessSquares(0.0, delta);
    assert d.Dot(d) > 0.0;
    TrigScaled(d, d.Dot(a.vel.Minus(b.vel)), delta);
  }

  /** `-(dot / |d|^2) d` written with `delta = |d|`. */
  lemma TrigScaled(d: Vec, dot: real, delta: real)
    requires delta > 0.0 && d.Dot(d) == delta * delta && d.Dot(d) > 0.0
    ensures var k := dot / d.Dot(d);
      Vec(-k * d.x, -k * d.y) == Vec(-(dot / delta) * (d.x / delta), -(dot / delta) * (d.y / delta))
  {
    var d2 := d.Dot(d);
    NegQuotientProduct(dot, d.x, d2, delta);
    NegQuotientProduct(dot, d.y, d2, delta);
  }

  lemma NegQuotientProduct(u: real, v: real, t2: real, t: real)
    requires t != 0.0 && t2 != 0.0 && t2 == t * t
    ensures -(u / t2) * v == -(u / t) * (v / t)
  {
    QuotientProduct(u, v, t);
  }

  lemma QuotientProduct(u: real, v: real, t: real)
    requires t != 0.0
    ensures (u / t) * (v / t) == (u / (t * t)) * v
  {
    assert t * t != 0.0 by {
      if t < 0.0 { LessSquares(0.0, -t); } else { LessSquares(0.0, t); }
      assert (-t) * (-t) == t * t;
    }
    assert (u / t) * t == u;
    assert (v / t) * t == v;
    assert (u / (t * t)) * (t * t) == u;
    assert ((u / t) * (v / t)) * (t * t) == ((u / t) * t) * ((v / t) * t);
    assert ((u / (t * t)) * v) * (t * t) == ((u / (t * t)) * (t * t)) * v;
    assert ((u / t) * (v / t)) * (t * t) == ((u / (t * t)) * v) * (t * t);
  }

  /** New velocities of `a` and `b` after `a.collide(b)`: nothing happens
      beyond the outer radii; inside the inner radii the impulse is taken
      from `a` and given to `b`, in the band between them the other way
      round. Either way the pair's total velocity is conserved. */
  function Response(a: Body, b: Body, degenerate: Vec): (r: (Vec, Vec))
    ensures r.0.Plus(r.1) == a.vel.Plus(b.vel)
    ensures !Within(Dist2(a, b), a.outer + b.outer) ==> r == (a.vel, b.vel)
  {
    var d2 := Dist2(a, b);
    if !Within(d2, a.outer + b.outer) then (a.vel, b.vel)
    else
      var n := Impulse(a, b, degenerate);
      if Within(d2, a.inner + b.inner) then (a.vel.Minus(n), b.vel.Plus(n))
      else (a.vel.Plus(n), b.vel.Minus(n))
  }

  /** The relative velocity of `a` with respect to `b`. */
  function RelVel(a: Body, b: Body): Vec { a.vel.Minus(b.vel) }

  /** Coincident bodies (with a zero fallback) and bodies without relative
      motion along the line between them receive no impulse. */
  lemma NoNormalMotionNoChange(a: Body, b: Body)
    requires Dist2(a, b) == 0.0 || a.pos.Minus(b.pos).Dot(RelVel(a, b)) == 0.0
    ensures Response(a, b, Zero) == (a.vel, b.vel)
  {
    var d := a.pos.Minus(b.pos);
    var d2 := d.Dot(d);
    assert d2 == Dist2(a, b);
    if d2 > 0.0 {
      var k := d.Dot(RelVel(a, b)) / d2;
      assert k == 0.0;
      assert Impulse(a, b, Zero) == Vec(-k * d.x, -k * d.y);
    } else {
      assert Impulse(a, b, Zero) == Zero;
    }
    assert Impulse(a, b, Zero) == Zero;
  }

  lemma ScaledDist(k: real, dot: real, d2: real)
    requires d2 > 0.0 && k == dot / d2
    ensures k * d2 == dot
  {
  }

  /** In the band between the inner and the outer radii the response is
      the equal-mass elastic collision: the component of the relative
      velocity along the line of centres is reversed, the component across
      it is kept, and kinetic energy is conserved. */
  lemma OuterBandIsElastic(a: Body, b: Body, degenerate: Vec)
    requires Dist2(a, b) > 0.0
    requires Within(Dist2(a, b), a.outer + b.outer)
    requires !Within(Dist2(a, b), a.inner + b.inner)
    ensures var r := Response(a, b, degenerate);
            var d := a.pos.Minus(b.pos);
            && r.0.Minus(r.1).Dot(d) == -RelVel(a, b).Dot(d)
            && r.0.Minus(r.1).Cross(d) == RelVel(a, b).Cross(d)
            && r.0.Dot(r.0) + r.1.Dot(r.1) == a.vel.Dot(a.vel) + b.vel.Dot(b.vel)
  {
    var d := a.pos.Minus(b.pos);
    var d2 := d.Dot(d);
    var dot := d.Dot(RelVel(a, b));
    var k := dot / d2;
    ScaledDist(k, dot, d2);
    var n := Vec(-k * d.x, -k * d.y);
    assert Impulse(a, b, degenerate) == n;
    var r0, r1 := a.vel.Plus(n), b.vel.Minus(n);
    assert Response(a, b, degenerate) == (r0, r1);
    KickApart(a.vel, b.vel, n, d);
    ScaledDot(k, d, d);
    ScaledDot(k, d, RelVel(a, b));
    ScaledDot(k, d, n);
    ScaledCross(k, d);
    var kd := k * dot;
    assert n.Dot(n) == kd by {
      assert d.Dot(n) == n.Dot(d);
      assert n.Dot(n) == -k * (-k * d2);
      assert k * (k * d2) == k * dot;
    }
    assert n.Dot(RelVel(a, b)) == -kd;
  }

  /** Adding `n` to one velocity and taking it from the other adds `2 n`
      to the relative velocity and changes the sum of squared speeds by
      `2 (n . (u - v)) + 2 (n . n)`. */
  lemma KickApart(u: Vec, v: Vec, n: Vec, d: Vec)
    ensures u.Plus(n).Minus(v.Minus(n)).Dot(d) == u.Minus(v).Dot(d) + 2.0 * n.Dot(d)
    ensures u.Plus(n).Minus(v.Minus(n)).Cross(d) == u.Minus(v).Cross(d) + 2.0 * n.Cross(d)
    ensures u.Plus(n).Dot(u.Plus(n)) + v.Minus(n).Dot(v.Minus(n))
         == u.Dot(u) + v.Dot(v) + 2.0 * n.Dot(u.Minus(v)) + 2.0 * n.Dot(n)
  {
  }

  /** The impulse `-k d` projects onto any `w` as `-k (d . w)`. */
  lemma ScaledDot(k: real, d: Vec, w: Vec)
    ensures Vec(-k * d.x, -k * d.y).Dot(w) == -k * d.Dot(w)
  {
  }

  /** The impulse `-k d` has no component across `d`. */
  lemma ScaledCross(k: real, d: Vec)
    ensures Vec(-k * d.x, -k * d.y).Cross(d) == 0.0
  {
  }

  /** Inside the inner radii the component of the relative velocity along
      the line of centres is tripled (its direction kept), and the
      component across it is kept. */
  lemma InnerOverlapTriplesApproach(a: Body, b: Body, degenerate: Vec)
    requires Dist2(a, b) > 0.0
    requires Within(Dist2(a, b), a.outer + b.outer)
    requires Within(Dist2(a, b), a.inner + b.inner)
    ensures var r := Response(a, b, degenerate);
            var d := a.pos.Minus(b.pos);
            && r.0.Minus(r.1).Dot(d) == 3.0 * RelVel(a, b).Dot(d)
            && r.0.Minus(r.1).Cross(d) == RelVel(a, b).Cross(d)
  {
    var d := a.pos.Minus(b.pos);
    var d2 := d.Dot(d);
    var dot := d.Dot(RelVel(a, b));
    var k := dot / d2;
    ScaledDist(k, dot, d2);
    var n := Vec(-k * d.x, -k * d.y);
    assert Impulse(a, b, degenerate) == n;
    var r0, r1 := a.vel.Minus(n), b.vel.Plus(n);
    assert Response(a, b, degenerate) == (r0, r1);
    assert r0.Minus(r1).Dot(d) == dot + 2.0 * k * d2;
  }

  /** `a.collide(b)` followed by `b.collide(a)`, as the ordered-pair pass
      does for an isolated pair, undoes an outer-band collision: both
      velocities are back where they started. */
  lemma OuterBandPairUndone(a: Body, b: Body, degenerate: Vec)
    requires Dist2(a, b) > 0.0
    requires Within(Dist2(a, b), a.outer + b.outer)
    requires !Within(Dist2(a, b), a.inner + b.inner)
    ensures var r := Response(a, b, degenerate);
            Response(b.(vel := r.1), a.(vel := r.0), degenerate) == (b.vel, a.vel)
  {
    var d := a.pos.Minus(b.pos);
    var d2 := d.Dot(d);
    var dot := d.Dot(RelVel(a, b));
    var k := dot / d2;
    ScaledDist(k, dot, d2);
    var n := Vec(-k * d.x, -k * d.y);
    assert Impulse(a, b, degenerate) == n;
    var a1, b1 := a.(vel := a.vel.Plus(n)), b.(vel := b.vel.Minus(n));
    assert Response(a, b, degenerate) == (a1.vel, b1.vel);
    var e := b1.pos.Minus(a1.pos);
    assert e == Vec(-d.x, -d.y);
    assert Dist2(b1, a1) == d2;
    var dot1 := e.Dot(RelVel(b1, a1));
    assert dot1 == dot - 2.0 * k * d2;
    var k1 := dot1 / d2;
    assert k1 == -k by {
      assert dot1 == -dot;
      assert dot1 / d2 == -(dot / d2);
    }
    var n1 := Vec(-k1 * e.x, -k1 * e.y);
    assert Impulse(b1, a1, degenerate) == n1;
    assert n1 == Vec(-k * d.x, -k * d.y);
  }

  // ---------------------------------------------------------------------
  // The swarm pass over all ordered pairs

  /** Applies `s[i].collide(s[j])` to the swarm's bodies. */
  function CollideAt(s: seq<Body>, i: nat, j: nat, degenerate: Vec): (t: seq<Body>)
    requires i < |s| && j < |s| && i != j
    ensures |t| == |s|
  {
    var r := Response(s[i], s[j], degenerate);
    s[i := s[i].(vel := r.0)][j := s[j].(vel := r.1)]
  }

  /** The rest of the pass `for a, b in permutations(s, 2): a.collide(b)`
      starting at the pair (i, j): pairs are visited in the order
      (0,1), (0,2), ..., (1,0), (1,2), ..., each on the bodies as the
      earlier pairs left them. */
  function PairsFrom(s: seq<Body>, i: nat, j: nat, degenerate: Vec): (t: seq<Body>)
    requires j <= |s|
    ensures |t| == |s|
    decreases |s| - i, |s| - j
  {
    if i >= |s| then s
    else if j == |s| then PairsFrom(s, i + 1, 0, degenerate)
    else if i == j then PairsFrom(s, i, j + 1, degenerate)
    else PairsFrom(CollideAt(s, i, j, degenerate), i, j + 1, degenerate)
  }

  /** The whole ordered-pair pass. */
  function AllPairs(s: seq<Body>, degenerate: Vec): (t: seq<Body>)
    ensures |t| == |s|
  {
    PairsFrom(s, 0, 0, degenerate)
  }

  /** Same positions and radii, element by element. */
  ghost predicate SamePlaces(s: seq<Body>, t: seq<Body>)
  {
    |s| == |t| &&
    forall k :: 0 <= k < |s| ==>
      t[k].pos == s[k].pos && t[k].inner == s[k].inner && t[k].outer == s[k].outer
  }

  /** Total velocity of a swarm. */
  function SumVel(s: seq<Body>): Vec
  {
    if s == [] then Zero else s[0].vel.Plus(SumVel(s[1..]))
  }

  lemma {:induction false} SumVelUpdate(s: seq<Body>, i: nat, v: Vec)
    requires i < |s|
    ensures SumVel(s[i := s[i].(vel := v)]) == SumVel(s).Minus(s[i].vel).Plus(v)
  {
    var t := s[i := s[i].(vel := v)];
    if i == 0 {
      assert t[1..] == s[1..];
    } else {
      assert t[1..] == s[1..][i - 1 := s[i].(vel := v)];
      SumVelUpdate(s[1..], i - 1, v);
    }
  }

  /** Replacing two velocities by two others with the same sum keeps the
      swarm's total velocity. */
  lemma SumVelSwap(s: seq<Body>, i: nat, j: nat, u: Vec, v: Vec)
    requires i < |s| && j < |s| && i != j
    requires u.Plus(v) == s[i].vel.Plus(s[j].vel)
    ensures SumVel(s[i := s[i].(vel := u)][j := s[j].(vel := v)]) == SumVel(s)
  {
    var s1 := s[i := s[i].(vel := u)];
    assert s1[j] == s[j];
    SumVelUpdate(s, i, u);
    SumVelUpdate(s1, j, v);
  }

  /** One ordered-pair collision conserves the swarm's total velocity. */
  lemma CollideAtConserves(s: seq<Body>, i: nat, j: nat, degenerate: Vec)
    requires i < |s| && j < |s| && i != j
    ensures SumVel(CollideAt(s, i, j, degenerate)) == SumVel(s)
    ensures SamePlaces(s, CollideAt(s, i, j, degenerate))
  {
    var r := Response(s[i], s[j], degenerate);
    SumVelSwap(s, i, j, r.0, r.1);
  }

  /** The ordered-pair pass conserves the swarm's total velocity and never
      moves a body or changes its radii. */
  lemma {:induction false} PairsFromConserves(s: seq<Body>, i: nat, j: nat, degenerate: Vec)
    requires j <= |s|
    ensures SumVel(PairsFrom(s, i, j, degenerate)) == SumVel(s)
    ensures SamePlaces(s, PairsFrom(s, i, j, degenerate))
    decreases |s| - i, |s| - j
  {
    if i >= |s| {
    } else if j == |s| {
      PairsFromConserves(s, i + 1, 0, degenerate);
    } else if i == j {
      PairsFromConserves(s, i, j + 1, degenerate);
    } else {
      var s1 := CollideAt(s, i, j, degenerate);
      CollideAtConserves(s, i, j, degenerate);
      PairsFromConserves(s1, i, j + 1, degenerate);
    }
  }

  /** The full pass over all ordered pairs conserves total velocity. */
  lemma AllPairsConserves(s: seq<Body>, degenerate: Vec)
    ensures SumVel(AllPairs(s, degenerate)) == SumVel(s)
    ensures SamePlaces(s, AllPairs(s, degenerate))
  {
    PairsFromConserves(s, 0, 0, degenerate);
  }

  /** For an isolated pair whose outer shells, but not cores, overlap, the
      whole ordered-pair pass changes nothing: (a, b) bounces them and
      (b, a) bounces them back. */
  lemma TwoBodyOuterPassIsIdentity(a: Body, b: Body, degenerate: Vec)
    requires Dist2(a, b) > 0.0
    requires Within(Dist2(a, b), a.outer + b.outer)
    requires !Within(Dist2(a, b), a.inner + b.inner)
    ensures AllPairs([a, b], degenerate) == [a, b]
  {
    var s := [a, b];
    var r := Response(a, b, degenerate);
    var s1 := CollideAt(s, 0, 1, degenerate);
    assert s1 == [a.(vel := r.0), b.(vel := r.1)];
    OuterBandPairUndone(a, b, degenerate);
    var s2 := CollideAt(s1, 1, 0, degenerate);
    assert s2 == [a, b];
    calc {
      AllPairs(s, degenerate);
      PairsFrom(s, 0, 1, degenerate);
      PairsFrom(s1, 0, 2, degenerate);
      PairsFrom(s1, 1, 0, degenerate);
      PairsFrom(s2, 1, 1, degenerate);
      PairsFrom(s2, 1, 2, degenerate);
      PairsFrom(s2, 2, 0, degenerate);
    }
  }
}
