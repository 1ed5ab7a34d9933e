/** The particle engine of particles.py: `clamp`, one particle's
    integration, bounce against a rectangle, the smell test against the
    player's cone and the particle-particle collision, and the swarm's two
    passes, `collisions` and `update`. */
module ParticleEngine {
  import opened Physics
  import opened Rects
  import opened Lists

  /** Python's `max(a, b)` and `min(a, b)`. */
  function Max(a: real, b: real): real { if b > a then b else a }
  function Min(a: real, b: real): real { if b < a then b else a }

  /** `clamp(lower, x, upper) = min(max(x, lower), upper)`. */
  function Clamp(lower: real, x: real, upper: real): (r: real)
    ensures lower <= upper ==> lower <= r <= upper
    ensures lower <= x <= upper ==> r == x
    ensures x < lower && lower <= upper ==> r == lower
    ensures upper < x ==> r == upper
  {
    Min(Max(x, lower), upper)
  }

  const MAX_SPEED: real := 2.0

  /** The body after `Particle.update`. */
  function Integrate(b: Body): (r: Body)
    ensures r.inner == b.inner && r.outer == b.outer
    ensures r.pos == b.pos.Plus(r.vel)
  {
    var v := Vec(Clamp(-MAX_SPEED, b.vel.x, MAX_SPEED), Clamp(-MAX_SPEED, b.vel.y, MAX_SPEED));
    b.(pos := b.pos.Plus(v), vel := v)
  }

  /** `Particle.update` caps each velocity component at `MAX_SPEED` in
      magnitude, leaves a component already within the cap alone, and then
      advances the position by exactly the capped velocity. */
  lemma IntegrateBounds(b: Body)
    ensures var r := Integrate(b);
      && -MAX_SPEED <= r.vel.x <= MAX_SPEED && -MAX_SPEED <= r.vel.y <= MAX_SPEED
      && r.pos == b.pos.Plus(r.vel)
      && (-MAX_SPEED <= b.vel.x <= MAX_SPEED ==> r.vel.x == b.vel.x)
      && (-MAX_SPEED <= b.vel.y <= MAX_SPEED ==> r.vel.y == b.vel.y)
      && r.inner == b.inner && r.outer == b.outer
  {
  }

  predicate OutsideY(p: Vec, area: Rect)
  {
    area.Top() as real > p.y || p.y > area.Bottom() as real
  }

  predicate OutsideX(p: Vec, area: Rect)
  {
    area.Left() as real > p.x || p.x > area.Right() as real
  }

  predicate Inside(p: Vec, area: Rect)
  {
    area.Left() as real <= p.x <= area.Right() as real &&
    area.Top() as real <= p.y <= area.Bottom() as real
  }

  /** The body after `Particle.collide(rect)`: the vertical velocity is
      negated exactly when the particle was above or below the rect, the
      horizontal one exactly when it was left or right of it (two
      independent tests), and the position is then clamped into the rect. */
  function Bounce(b: Body, area: Rect): (r: Body)
    ensures Inside(r.pos, area)
    ensures Inside(b.pos, area) ==> r.pos == b.pos
    ensures r.vel.y == if OutsideY(b.pos, area) then -b.vel.y else b.vel.y
    ensures r.vel.x == if OutsideX(b.pos, area) then -b.vel.x else b.vel.x
    ensures r.inner == b.inner && r.outer == b.outer
  {
    var vy := if OutsideY(b.pos, area) then -b.vel.y else b.vel.y;
    var vx := if OutsideX(b.pos, area) then -b.vel.x else b.vel.x;
    var px := Clamp(area.Left() as real, b.pos.x, area.Right() as real);
    var py := Clamp(area.Top() as real, b.pos.y, area.Bottom() as real);
    Body(Vec(px, py), Vec(vx, vy), b.inner, b.outer)
  }

  /** `smell_range`: the particle lies in the cone, bounds included. */
  predicate Smelt(p: Vec, cone: Rect)
  {
    cone.Top() as real <= p.y <= cone.Bottom() as real &&
    cone.Left() as real <= p.x <= cone.Right() as real
  }

  /** The boundary part of `collisions`, on every body in turn: afterwards
      every body lies inside the area, a body already inside has not moved,
      and no radius changes. */
  function BoundaryPass(s: seq<Body>, area: Rect): (t: seq<Body>)
    ensures |t| == |s|
    ensures forall k :: 0 <= k < |t| ==> t[k] == Bounce(s[k], area)
    ensures forall k :: 0 <= k < |t| ==> Inside(t[k].pos, area)
    ensures forall k :: 0 <= k < |t| && Inside(s[k].pos, area) ==> t[k].pos == s[k].pos
    ensures forall k :: 0 <= k < |t| ==> t[k].inner == s[k].inner && t[k].outer == s[k].outer
  {
    seq(|s|, k requires 0 <= k < |s| => Bounce(s[k], area))
  }

  // ---------------------------------------------------------------------
  // What happens to each list element in `Particles.update`

  /** Removed: dropped from the list (its `update` still runs).
      Stepped: kept and updated. Skipped: kept and not visited at all. */
  datatype Fate = Stepped | Removed | Skipped

  /** The fates `for p in self: if p.decay == 0: self.remove(p); p.update()`
      hands out, given the decays in list order: removing the visited
      element shifts the next one into its slot, and the loop's index then
      moves past it. */
  function VisitFates(ds: seq<int>): (fs: seq<Fate>)
    ensures |fs| == |ds|
  {
    if ds == [] then []
    else if ds[0] == 0 then
      if |ds| == 1 then [Removed] else [Removed, Skipped] + VisitFates(ds[2..])
    else [Stepped] + VisitFates(ds[1..])
  }

  /** The fates a pass that visits every element once hands out: exactly
      the elements whose decay is 0 are removed, all others are updated. */
  function IntendedFates(ds: seq<int>): (fs: seq<Fate>)
    ensures |fs| == |ds|
    ensures forall k :: 0 <= k < |ds| ==> (fs[k] == Removed <==> ds[k] == 0)
    ensures forall k :: 0 <= k < |ds| ==> fs[k] != Skipped
  {
    seq(|ds|, k requires 0 <= k < |ds| => if ds[k] == 0 then Removed else Stepped)
  }

  /** The elements not removed, in their original order. */
  function Kept<T>(xs: seq<T>, fs: seq<Fate>): (ys: seq<T>)
    requires |xs| == |fs|
    ensures |ys| <= |xs|
    ensures forall y :: y in ys ==> y in xs
  {
    if xs == [] then []
    else if fs[0] == Removed then Kept(xs[1..], fs[1..])
    else [xs[0]] + Kept(xs[1..], fs[1..])
  }

  lemma {:induction false} KeptAppend<T>(xs: seq<T>, fs: seq<Fate>, ys: seq<T>, gs: seq<Fate>)
    requires |xs| == |fs| && |ys| == |gs|
    ensures Kept(xs + ys, fs + gs) == Kept(xs, fs) + Kept(ys, gs)
  {
    if xs != [] {
      assert (xs + ys)[1..] == xs[1..] + ys;
      assert (fs + gs)[1..] == fs[1..] + gs;
      KeptAppend(xs[1..], fs[1..], ys, gs);
    } else {
      assert xs + ys == ys && fs + gs == gs;
    }
  }

  lemma {:induction false} KeptDistinct<T>(xs: seq<T>, fs: seq<Fate>)
    requires |xs| == |fs| && Distinct(xs)
    ensures Distinct(Kept(xs, fs))
  {
    if xs != [] {
      KeptDistinct(xs[1..], fs[1..]);
      if fs[0] != Removed {
        var rest := Kept(xs[1..], fs[1..]);
        assert ([xs[0]] + rest)[1..] == rest;
        assert xs[0] !in rest by {
          if |xs| == 1 {
            assert rest == [];
          }
        }
      }
    }
  }

  /** `VisitFates` of the decays from position `k` on, counted by index. */
  function VisitFatesFrom(ds: seq<int>, k: nat): (fs: seq<Fate>)
    requires k <= |ds|
    ensures |fs| == |ds| - k
    decreases |ds| - k
  {
    if k == |ds| then []
    else if ds[k] == 0 then
      if k + 1 == |ds| then [Removed] else [Removed, Skipped] + VisitFatesFrom(ds, k + 2)
    else [Stepped] + VisitFatesFrom(ds, k + 1)
  }

  lemma {:induction false} VisitFatesFromSuffix(ds: seq<int>, k: nat)
    requires k <= |ds|
    ensures VisitFatesFrom(ds, k) == VisitFates(ds[k..])
    decreases |ds| - k
  {
    if k < |ds| {
      var rest := ds[k..];
      if ds[k] == 0 && k + 1 < |ds| {
        assert rest[2..] == ds[k + 2..];
        VisitFatesFromSuffix(ds, k + 2);
      } else if ds[k] != 0 {
        assert rest[1..] == ds[k + 1..];
        VisitFatesFromSuffix(ds, k + 1);
      }
    }
  }

  /** The fates one visit of the as-written loop settles at position `k`:
      the visited element's and, when it is removed, that of the element
      which slides past. */
  function VisitChunk(ds: seq<int>, k: nat): seq<Fate>
    requires k < |ds|
  {
    if ds[k] != 0 then [Stepped]
    else if k + 1 < |ds| then [Removed, Skipped]
    else [Removed]
  }

  /** The fates from position `k` on start with the chunk settled at `k`. */
  lemma VisitFatesUnfold(ds: seq<int>, k: nat)
    requires k < |ds|
    ensures k + |VisitChunk(ds, k)| <= |ds|
    ensures VisitFatesFrom(ds, k) == VisitChunk(ds, k) + VisitFatesFrom(ds, k + |VisitChunk(ds, k)|)
  {
    if ds[k] == 0 && k + 1 == |ds| {
      assert VisitFatesFrom(ds, k + 1) == [];
    }
  }

  /** One visit of the as-written loop settles the next chunk of fates. */
  lemma VisitFatesStep(ds: seq<int>, all: seq<Fate>, pf: seq<Fate>, k: nat)
    requires k < |ds| && |pf| == k
    requires all == pf + VisitFatesFrom(ds, k)
    ensures k + |VisitChunk(ds, k)| <= |ds|
    ensures all == (pf + VisitChunk(ds, k)) + VisitFatesFrom(ds, k + |VisitChunk(ds, k)|)
  {
    VisitFatesUnfold(ds, k);
    var c := VisitChunk(ds, k);
    var rest := VisitFatesFrom(ds, k + |c|);
    assert pf + (c + rest) == (pf + c) + rest;
  }

  /** One visit of the as-written loop grows the kept prefix by the element
      that stays in the list: the visited one when it survives, the one that
      slid past when it is removed. */
  lemma VisitKeptStep<T>(xs: seq<T>, ds: seq<int>, pf: seq<Fate>, k: nat)
    requires |xs| == |ds| && k < |ds| && |pf| == k
    ensures var k' := k + |VisitChunk(ds, k)|;
      Kept(xs[..k'], pf + VisitChunk(ds, k)) ==
      Kept(xs[..k], pf) + (if ds[k] == 0 then xs[k + 1..k'] else [xs[k]])
  {
    var chunk := VisitChunk(ds, k);
    var k' := k + |chunk|;
    assert xs[..k'] == xs[..k] + xs[k..k'];
    KeptAppend(xs[..k], pf, xs[k..k'], chunk);
    if ds[k] == 0 && k + 1 < |ds| {
      assert Kept(xs[k..k'], chunk) == [xs[k + 1]];
    }
  }

  /** The list the as-written loop iterates over is the kept prefix followed
      by the unvisited elements, with the index at the first unvisited one;
      the removal and the index step keep that layout. */
  lemma VisitItemsStep<T>(xs: seq<T>, k: nat, k': nat, kept: seq<T>, kept': seq<T>,
                          items: seq<T>, i: nat, removed: bool)
    requires k < k' <= |xs| && k' <= k + 2 && i == |kept|
    requires items == kept + xs[k..]
    requires !removed ==> k' == k + 1 && kept' == kept + [xs[k]]
    requires removed ==> kept' == kept + xs[k + 1..k'] && (k' == k + 2 || k' == |xs|)
    ensures i < |items| && items[i] == xs[k]
    ensures var after := if removed then items[..i] + items[i + 1..] else items;
      after == kept' + xs[k'..]
    ensures i + 1 == |kept'| || (k' == |xs| && i + 1 == |kept'| + 1)
  {
    assert items == kept + [xs[k]] + xs[k + 1..];
    if removed {
      assert items[..i] == kept;
      assert items[i + 1..] == xs[k + 1..];
      assert xs[k + 1..] == xs[k + 1..k'] + xs[k'..];
    }
  }

  /** One visit of the as-written loop, on the ghost state that tracks it:
      the fates settled so far, the kept prefix and the list's layout. */
  lemma VisitNext<T>(xs: seq<T>, ds: seq<int>, all: seq<Fate>, pf: seq<Fate>, k: nat,
                     kept: seq<T>, items: seq<T>, i: nat)
    returns (k': nat, pf': seq<Fate>, kept': seq<T>)
    requires |xs| == |ds| && k < |ds| && |pf| == k
    requires all == pf + VisitFatesFrom(ds, k)
    requires kept == Kept(xs[..k], pf)
    requires items == kept + xs[k..]
    requires i == |kept|
    ensures i < |items| && items[i] == xs[k]
    ensures pf' == pf + VisitChunk(ds, k)
    ensures k' == |pf'| && k < k' <= |xs| && k' <= k + 2
    ensures pf'[k] == if ds[k] == 0 then Removed else Stepped
    ensures k' == k + 2 ==> pf'[k + 1] == Skipped
    ensures all == pf' + VisitFatesFrom(ds, k')
    ensures kept' == Kept(xs[..k'], pf')
    ensures var after := if ds[k] == 0 then items[..i] + items[i + 1..] else items;
      after == kept' + xs[k'..]
    ensures i + 1 == |kept'| || (k' == |xs| && i + 1 == |kept'| + 1)
  {
    VisitFatesStep(ds, all, pf, k);
    VisitKeptStep(xs, ds, pf, k);
    pf' := pf + VisitChunk(ds, k);
    k' := k + |VisitChunk(ds, k)|;
    kept' := Kept(xs[..k'], pf');
    VisitItemsStep(xs, k, k', kept, kept', items, i, ds[k] == 0);
  }

  /** In a list without repetitions, an element survives exactly when its
      own fate is not removal. */
  lemma {:induction false} KeptMembers<T>(xs: seq<T>, fs: seq<Fate>, k: nat)
    requires |xs| == |fs| && Distinct(xs) && k < |xs|
    ensures xs[k] in Kept(xs, fs) <==> fs[k] != Removed
  {
    var rest := Kept(xs[1..], fs[1..]);
    if k == 0 {
      if fs[0] == Removed {
        assert xs[0] !in xs[1..];
      }
    } else {
      KeptMembers(xs[1..], fs[1..], k - 1);
      assert xs[1..][k - 1] == xs[k] && fs[1..][k - 1] == fs[k];
      DistinctAt(xs, k);
      assert xs[0] != xs[k];
    }
  }

  /** One pass of the corrected update keeps a particle exactly when it
      survives one pass: when its decay is not 0. */
  lemma UpdateMembership<T>(xs: seq<T>, ds: seq<int>, k: nat)
    requires |xs| == |ds| && Distinct(xs) && k < |xs|
    ensures xs[k] in Kept(xs, IntendedFates(ds)) <==> Survives(ds[k], 1)
  {
    KeptMembers(xs, IntendedFates(ds), k);
  }

  /** `a` is `b` with some elements left out, the rest in order. */
  ghost predicate Subsequence<T>(a: seq<T>, b: seq<T>)
    decreases |b|
  {
    if b == [] then a == []
    else (a != [] && a[0] == b[0] && Subsequence(a[1..], b[1..])) || Subsequence(a, b[1..])
  }

  lemma {:induction false} KeptIsSubsequence<T>(xs: seq<T>, fs: seq<Fate>)
    requires |xs| == |fs|
    ensures Subsequence(Kept(xs, fs), xs)
  {
    if xs != [] {
      KeptIsSubsequence(xs[1..], fs[1..]);
      if fs[0] != Removed {
        assert Kept(xs, fs)[1..] == Kept(xs[1..], fs[1..]);
      }
    }
  }

  /** Only elements whose decay is 0 when the loop reaches them are ever
      removed; so an element with a negative decay is never removed. */
  lemma {:induction false} OnlyZeroDecayRemoved(ds: seq<int>, k: nat)
    requires k < |ds|
    ensures VisitFates(ds)[k] == Removed ==> ds[k] == 0
    ensures ds[k] < 0 ==> VisitFates(ds)[k] != Removed
  {
    if ds[0] == 0 {
      if |ds| > 1 && k >= 2 {
        OnlyZeroDecayRemoved(ds[2..], k - 2);
      }
    } else if k >= 1 {
      OnlyZeroDecayRemoved(ds[1..], k - 1);
    }
  }

  /** An element is skipped exactly when the element before it was
      removed. */
  lemma {:induction false} SkippedAfterRemoved(ds: seq<int>, k: nat)
    requires k < |ds|
    ensures VisitFates(ds)[k] == Skipped <==> k > 0 && VisitFates(ds)[k - 1] == Removed
  {
    if ds[0] == 0 {
      if |ds| > 1 && k >= 2 {
        SkippedAfterRemoved(ds[2..], k - 2);
        if k == 2 {
          FirstNotSkipped(ds[2..]);
        }
      }
    } else if k >= 1 {
      SkippedAfterRemoved(ds[1..], k - 1);
      if k == 1 {
        FirstNotSkipped(ds[1..]);
      }
    }
  }

  lemma FirstNotSkipped(ds: seq<int>)
    requires ds != []
    ensures VisitFates(ds)[0] != Skipped
  {
  }

  /** The pass as written gives every element the fate a once-per-element
      pass would exactly when no decay but possibly the last one is 0. */
  lemma {:induction false} AsWrittenMatchesIntended(ds: seq<int>)
    ensures VisitFates(ds) == IntendedFates(ds) <==>
            forall k :: 0 <= k < |ds| - 1 ==> ds[k] != 0
  {
    if ds == [] {
    } else if ds[0] == 0 {
      if |ds| == 1 {
        assert VisitFates(ds) == [Removed] == IntendedFates(ds);
      } else {
        assert VisitFates(ds)[1] == Skipped;
      }
    } else {
      AsWrittenMatchesIntended(ds[1..]);
      assert IntendedFates(ds) == [Stepped] + IntendedFates(ds[1..]);
      if VisitFates(ds) == IntendedFates(ds) {
        assert VisitFates(ds[1..]) == IntendedFates(ds[1..]);
        forall k | 0 <= k < |ds| - 1 ensures ds[k] != 0 {
          if k > 0 { assert ds[1..][k - 1] == ds[k]; }
        }
      } else {
        assert VisitFates(ds[1..]) != IntendedFates(ds[1..]);
        var k :| 0 <= k < |ds[1..]| - 1 && ds[1..][k] == 0;
        assert ds[k + 1] == 0;
      }
    }
  }

  /** Two particles, the first expiring: as written the second is neither
      moved nor aged on this pass; visiting every element once would
      update it. */
  lemma SkipCounterexample()
    ensures VisitFates([0, 5]) == [Removed, Skipped]
    ensures IntendedFates([0, 5]) == [Removed, Stepped]
  {
    assert [0, 5][2..] == [];
  }

  /** A particle survives `t` passes of the intended update: each pass
      removes it if its decay is 0 and otherwise decrements the decay. */
  function Survives(decay: int, t: nat): bool
    decreases t
  {
    t == 0 || (decay != 0 && Survives(decay - 1, t - 1))
  }

  /** A particle with decay k >= 0 is still present after k passes and gone
      after k + 1; one with negative decay is never removed. */
  lemma {:induction false} Lifetime(decay: int, t: nat)
    ensures decay >= 0 ==> (Survives(decay, t) <==> t <= decay)
    ensures decay < 0 ==> Survives(decay, t)
    decreases t
  {
    if t > 0 {
      Lifetime(decay - 1, t - 1);
    }
  }

  // ---------------------------------------------------------------------

  /** What one particle looks like at some moment. */
  datatype Snapshot = Snapshot(body: Body, decay: int, visible: bool)

  /** A particle's state after the as-written loop dealt it fate `f`: a
      visited particle is updated whether or not it was removed. */
  function AfterVisit(f: Fate, s: Snapshot): Snapshot
  {
    if f == Skipped then s else s.(body := Integrate(s.body), decay := s.decay - 1)
  }

  /** A particle's state after the boundary loop visited it: bounced back
      into `area`, and visible exactly when its new position is smelt. */
  function Sniff(s: Snapshot, area: Rect, cone: Rect): (r: Snapshot)
    ensures r.body == Bounce(s.body, area) && Inside(r.body.pos, area)
    ensures (r.visible <==> Smelt(r.body.pos, cone)) && r.decay == s.decay
  {
    var b := Bounce(s.body, area);
    Snapshot(b, s.decay, Smelt(b.pos, cone))
  }

  /** The states `ss` after the boundary loop visited the first `k`. */
  ghost function Sniffed(ss: seq<Snapshot>, k: nat, area: Rect, cone: Rect): seq<Snapshot>
  {
    seq(|ss|, m requires 0 <= m < |ss| => if m < k then Sniff(ss[m], area, cone) else ss[m])
  }

  lemma SniffedStep(ss: seq<Snapshot>, k: nat, area: Rect, cone: Rect)
    requires k < |ss|
    ensures Sniffed(ss, k + 1, area, cone) == Sniffed(ss, k, area, cone)[k := Sniff(ss[k], area, cone)]
  {
  }

  /** The states `ss` after the first `|fs|` of them were dealt the fates
      `fs`; the rest are as they were. */
  ghost function Settle(fs: seq<Fate>, ss: seq<Snapshot>): seq<Snapshot>
    requires |fs| <= |ss|
  {
    seq(|ss|, m requires 0 <= m < |ss| => if m < |fs| then AfterVisit(fs[m], ss[m]) else ss[m])
  }

  /** Dealing the next chunk of fates changes the state at the visited index
      only: a particle that slid past is left as it was. */
  lemma SettleStep(fs: seq<Fate>, chunk: seq<Fate>, ss: seq<Snapshot>)
    requires 1 <= |chunk| <= 2 && |fs| + |chunk| <= |ss|
    requires chunk[0] != Skipped && (|chunk| == 2 ==> chunk[1] == Skipped)
    ensures Settle(fs + chunk, ss) == Settle(fs, ss)[|fs| := AfterVisit(chunk[0], ss[|fs|])]
  {
  }

  class Particle {
    var pos: Vec
    var vector: Vec
    const inner: real
    const outer: real
    var visible: bool
    const color: string
    var decay: int

    /** `Particle(position, vector, radius, color, decay=-1)`; the velocity
        `randint(-vector[0], vector[0]), randint(-vector[1], vector[1])`
        is drawn by the caller and passed in as `vx, vy`. */
    constructor (position: Vec, spread: (int, int), radius: (real, real), color: string,
                 vx: int, vy: int, decay: int := -1)
      requires -spread.0 <= vx <= spread.0 && -spread.1 <= vy <= spread.1
      ensures pos == position && vector == Vec(vx as real, vy as real)
      ensures inner == radius.0 && outer == radius.1
      ensures !visible && this.color == color && this.decay == decay
    {
      pos := position;
      vector := Vec(vx as real, vy as real);
      inner, outer := radius.0, radius.1;
      visible := false;
      this.color := color;
      this.decay := decay;
    }

    function AsBody(): Body
      reads this
    {
      Body(pos, vector, inner, outer)
    }

    function Snap(): (s: Snapshot)
      reads this
    {
      Snapshot(AsBody(), decay, visible)
    }

    /** `update`: clamp the speed, move, count the decay down. */
    method Update()
      modifies this
      ensures AsBody() == Integrate(old(AsBody()))
      ensures decay == old(decay) - 1
      ensures visible == old(visible)
    {
      vector := vector.(x := Clamp(-MAX_SPEED, vector.x, MAX_SPEED));
      vector := vector.(y := Clamp(-MAX_SPEED, vector.y, MAX_SPEED));
      pos := pos.(x := pos.x + vector.x);
      pos := pos.(y := pos.y + vector.y);
      decay := decay - 1;
    }

    /** `smell_range(player)`, given the player's cone. */
    method SmellRange(cone: Rect)
      modifies this
      ensures visible <==> Smelt(pos, cone)
      ensures AsBody() == old(AsBody()) && decay == old(decay)
    {
      if cone.Top() as real > pos.y || pos.y > cone.Bottom() as real {
        visible := false;
      } else if cone.Left() as real > pos.x || pos.x > cone.Right() as real {
        visible := false;
      } else {
        visible := true;
      }
    }

    /** `collide(body)` for a body that is not a particle (a rect). */
    method CollideRect(body: Rect)
      modifies this
      ensures AsBody() == Bounce(old(AsBody()), body)
      ensures visible == old(visible) && decay == old(decay)
    {
      if body.Top() as real > pos.y || pos.y > body.Bottom() as real {
        vector := vector.(y := -vector.y);
      }
      if body.Left() as real > pos.x || pos.x > body.Right() as real {
        vector := vector.(x := -vector.x);
      }
      pos := pos.(x := Clamp(body.Left() as real, pos.x, body.Right() as real));
      pos := pos.(y := Clamp(body.Top() as real, pos.y, body.Bottom() as real));
    }

    /** `collide(body)` for another particle: only the two velocities
        change, as Response says; a particle colliding with itself is at
        distance 0 and is left alone. */
    method Collide(body: Particle)
      modifies this, body
      ensures pos == old(pos) && body.pos == old(body.pos)
      ensures this != body ==>
                (vector, body.vector) == Response(old(AsBody()), old(body.AsBody()), Zero)
      ensures this == body ==> vector == old(vector)
      ensures visible == old(visible) && decay == old(decay)
      ensures body.visible == old(body.visible) && body.decay == old(body.decay)
    {
      var dx, dy := pos.x - body.pos.x, pos.y - body.pos.y;
      var d2 := dx * dx + dy * dy;
      assert d2 == Dist2(AsBody(), body.AsBody());
      if Within(d2, outer + body.outer) {
        var nx, ny := Kick(body, dx, dy, d2);
        if Within(d2, inner + body.inner) {
          vector := Vec(vector.x - nx, vector.y - ny);
          body.vector := Vec(body.vector.x + nx, body.vector.y + ny);
        } else {
          vector := Vec(vector.x + nx, vector.y + ny);
          body.vector := Vec(body.vector.x - nx, body.vector.y - ny);
        }
      }
    }

    /** The `(-magnitude * sin, -magnitude * cos)` part of `collide`. */
    method Kick(body: Particle, dx: real, dy: real, d2: real) returns (nx: real, ny: real)
      requires dx == pos.x - body.pos.x && dy == pos.y - body.pos.y && d2 == dx * dx + dy * dy
      ensures Vec(nx, ny) == Impulse(AsBody(), body.AsBody(), Zero)
    {
      var dvx, dvy := vector.x - body.vector.x, vector.y - body.vector.y;
      var sin, cos, magnitude;
      if d2 > 0.0 {
        // (sin, cos) and magnitude carry the common factor 1/delta each
        sin, cos := dx, dy;
        magnitude := (dx * dvx + dy * dvy) / d2;
      } else {
        sin, cos, magnitude := 0.0, 0.0, 0.0;
      }
      nx, ny := -magnitude * sin, -magnitude * cos;
    }
  }

  /** The states of the particles in `ps`, in list order. */
  ghost function Snaps(ps: seq<Particle>): (ss: seq<Snapshot>)
    reads ps
  {
    seq(|ps|, m requires 0 <= m < |ps| reads ps => ps[m].Snap())
  }

  /** The list of live particles. */
  class Particles {
    var items: seq<Particle>

    /** No particle is in the list twice. */
    ghost predicate Valid()
      reads this
    {
      Distinct(items)
    }

    ghost function Bodies(): (bs: seq<Body>)
      reads this, items
      ensures |bs| == |items|
      ensures forall k :: 0 <= k < |items| ==> bs[k] == items[k].AsBody()
    {
      seq(|items|, k requires 0 <= k < |items| reads this, items => items[k].AsBody())
    }

    ghost function Decays(): (ds: seq<int>)
      reads this, items
      ensures |ds| == |items|
      ensures forall k :: 0 <= k < |items| ==> ds[k] == items[k].decay
    {
      seq(|items|, k requires 0 <= k < |items| reads this, items => items[k].decay)
    }

    /** `collisions(surface, player)`: every ordered pair collides, in the
        order of `permutations(self, 2)`; then each particle bounces off the
        surface rect and is checked against the player's cone. */
    method Collisions(surface: Rect, cone: Rect)
      requires Valid()
      modifies items
      ensures Bodies() == BoundaryPass(AllPairs(old(Bodies()), Zero), surface)
      ensures forall k :: 0 <= k < |items| ==> Inside(items[k].pos, surface)
      ensures forall k :: 0 <= k < |items| ==> (items[k].visible <==> Smelt(items[k].pos, cone))
      ensures forall k :: 0 <= k < |items| ==> items[k].decay == old(items[k].decay)
    {
      CollidePairs();
      CollideSurface(surface, cone);
    }

    /** The pair loop of `collisions`. */
    method CollidePairs()
      requires Valid()
      modifies items
      ensures Bodies() == AllPairs(old(Bodies()), Zero)
      ensures forall k :: 0 <= k < |items| ==> items[k].decay == old(items[k].decay)
      ensures forall k :: 0 <= k < |items| ==> items[k].visible == old(items[k].visible)
    {
      var n := |items|;
      ghost var goal := AllPairs(Bodies(), Zero);
      var i := 0;
      while i < n
        invariant 0 <= i <= n
        invariant PairsFrom(Bodies(), i, 0, Zero) == goal
        invariant forall k :: 0 <= k < n ==> items[k].decay == old(items[k].decay)
        invariant forall k :: 0 <= k < n ==> items[k].visible == old(items[k].visible)
      {
        CollideRow(i);
        i := i + 1;
      }
    }

    /** Particle `i` collides with every other particle in turn. */
    method CollideRow(i: nat)
      requires Valid() && i < |items|
      modifies items
      ensures PairsFrom(Bodies(), i + 1, 0, Zero) == PairsFrom(old(Bodies()), i, 0, Zero)
      ensures forall k :: 0 <= k < |items| ==> items[k].decay == old(items[k].decay)
      ensures forall k :: 0 <= k < |items| ==> items[k].visible == old(items[k].visible)
    {
      var n := |items|;
      var j := 0;
      while j < n
        invariant 0 <= j <= n
        invariant PairsFrom(Bodies(), i, j, Zero) == PairsFrom(old(Bodies()), i, 0, Zero)
        invariant forall k :: 0 <= k < n ==> items[k].decay == old(items[k].decay)
        invariant forall k :: 0 <= k < n ==> items[k].visible == old(items[k].visible)
      {
        if i != j {
          CollidePair(i, j);
        }
        j := j + 1;
      }
    }

    /** `items[i].collide(items[j])` for two different indices. */
    method CollidePair(i: nat, j: nat)
      requires Valid() && i < |items| && j < |items| && i != j
      modifies items[i], items[j]
      ensures Bodies() == CollideAt(old(Bodies()), i, j, Zero)
      ensures forall k :: 0 <= k < |items| ==> items[k].decay == old(items[k].decay)
      ensures forall k :: 0 <= k < |items| ==> items[k].visible == old(items[k].visible)
    {
      DistinctAt(items, i);
      DistinctAt(items, j);
      items[i].Collide(items[j]);
    }

    /** The boundary loop of `collisions`. */
    method CollideSurface(surface: Rect, cone: Rect)
      requires Valid()
      modifies items
      ensures Bodies() == BoundaryPass(old(Bodies()), surface)
      ensures forall k :: 0 <= k < |items| ==> Inside(items[k].pos, surface)
      ensures forall k :: 0 <= k < |items| ==> (items[k].visible <==> Smelt(items[k].pos, cone))
      ensures forall k :: 0 <= k < |items| ==> items[k].decay == old(items[k].decay)
    {
      ghost var snap0 := Snaps(items);
      var n := |items|;
      var k := 0;
      while k < n
        invariant 0 <= k <= n
        invariant Snaps(items) == Sniffed(snap0, k, surface, cone)
      {
        ghost var now := Snaps(items);
        assert now[k] == items[k].Snap() && now[k] == snap0[k];
        BoundaryAt(items[k], items, k, surface, cone);
        SniffedStep(snap0, k, surface, cone);
        k := k + 1;
      }
      ghost var now := Snaps(items);
      assert forall m :: 0 <= m < n ==> now[m] == items[m].Snap();
    }

    /** One iteration of the boundary loop, `p.collide(surface)` and then
        `p.smell_range(player.cone)`, on the particle at index `k` of a
        list without duplicates. */
    static method BoundaryAt(p: Particle, ghost ps: seq<Particle>, ghost k: nat, surface: Rect, cone: Rect)
      requires Distinct(ps) && k < |ps| && p == ps[k]
      modifies p
      ensures Snaps(ps) == old(Snaps(ps))[k := Sniff(old(p.Snap()), surface, cone)]
    {
      DistinctAt(ps, k);
      ghost var before := Snaps(ps);
      p.CollideRect(surface);
      p.SmellRange(cone);
      assert forall m :: 0 <= m < |ps| && m != k ==> ps[m].Snap() == before[m];
    }

    /** `update()` as written: the loop removes the expiring particle from
        the list it is iterating over, so the particle after it slides into
        the visited slot and is passed over; every visited particle, the
        removed one included, is updated. */
    method UpdateAsWritten()
      requires Valid()
      modifies this, items
      ensures Valid()
      ensures items == Kept(old(items), VisitFates(old(Decays())))
      ensures Snaps(old(items)) == Settle(VisitFates(old(Decays())), old(Snaps(items)))
    {
      ghost var orig := items;
      ghost var ds := Decays();
      ghost var snap0 := Snaps(orig);
      ghost var all := VisitFatesFrom(ds, 0);
      ghost var n := |orig|;
      ghost var k := 0;
      ghost var pf: seq<Fate> := [];
      ghost var kept: seq<Particle> := [];
      var i := 0;
      assert Settle(pf, snap0) == snap0;
      while i < |items|
        invariant 0 <= k <= n && |pf| == k
        invariant all == pf + VisitFatesFrom(ds, k)
        invariant kept == Kept(orig[..k], pf)
        invariant items == kept + orig[k..]
        invariant i == |kept| || (k == n && i == |kept| + 1)
        invariant Snaps(orig) == Settle(pf, snap0)
        decreases |items| - i
      {
        ghost var now := Snaps(orig);
        assert now[k] == orig[k].Snap() && now[k] == snap0[k];
        ghost var chunk := VisitChunk(ds, k);
        assert 1 <= |chunk| <= 2 && chunk[0] != Skipped && (|chunk| == 2 ==> chunk[1] == Skipped);
        ghost var k', pf', kept' := Visit(i, orig, ds, all, pf, k, kept);
        SettleStep(pf, chunk, snap0);
        assert AfterVisit(chunk[0], snap0[k]) == AfterVisit(Stepped, snap0[k]);
        assert Snaps(orig) == Settle(pf', snap0);
        i := i + 1;
        k, pf, kept := k', pf', kept';
      }
      assert orig[..n] == orig && orig[n..] == [] && ds[0..] == ds;
      VisitFatesFromSuffix(ds, 0);
      assert all == pf;
      assert items == Kept(orig, pf);
      KeptDistinct(orig, pf);
    }

    /** One iteration of the as-written `update()` loop, at index `i`: the
        particle there is removed from the list when its decay is 0, and
        updated either way. The ghost parameters track the pass: the kept
        prefix `kept` of the first `k` original particles, with fates `pf`. */
    method Visit(i: nat, ghost orig: seq<Particle>, ghost ds: seq<int>, ghost all: seq<Fate>,
                 ghost pf: seq<Fate>, ghost k: nat, ghost kept: seq<Particle>)
      returns (ghost k': nat, ghost pf': seq<Fate>, ghost kept': seq<Particle>)
      requires Distinct(orig) && |orig| == |ds| && k < |ds| && |pf| == k
      requires orig[k].decay == ds[k]
      requires all == pf + VisitFatesFrom(ds, k)
      requires kept == Kept(orig[..k], pf)
      requires items == kept + orig[k..]
      requires i == |kept|
      modifies this, orig[k]
      ensures pf' == pf + VisitChunk(ds, k)
      ensures k' == |pf'| && k < k' <= |orig| && k' <= k + 2
      ensures all == pf' + VisitFatesFrom(ds, k')
      ensures kept' == Kept(orig[..k'], pf')
      ensures items == kept' + orig[k'..]
      ensures i + 1 == |kept'| || (k' == |orig| && i + 1 == |kept'| + 1)
      ensures Snaps(orig) == old(Snaps(orig))[k := AfterVisit(Stepped, old(orig[k].Snap()))]
    {
      k', pf', kept' := VisitNext(orig, ds, all, pf, k, kept, items, i);
      RemoveAndUpdate(i, orig, k);
    }

    /** The loop body proper: `if p.decay == 0: self.remove(p)`, then
        `p.update()`, for the particle `p` at index `i` of the list, which
        is the one at index `k` of the original list `orig`. */
    method RemoveAndUpdate(i: nat, ghost orig: seq<Particle>, ghost k: nat)
      requires Distinct(orig) && k < |orig| && i < |items| && items[i] == orig[k]
      modifies this, orig[k]
      ensures items == if old(orig[k].decay) == 0 then old(items[..i] + items[i + 1..]) else old(items)
      ensures Snaps(orig) == old(Snaps(orig))[k := AfterVisit(Stepped, old(orig[k].Snap()))]
    {
      var p := items[i];
      if p.decay == 0 {
        items := items[..i] + items[i + 1..];
      }
      UpdateAt(p, orig, k);
    }

    /** `p.update()` on the particle at index `k` of a list without
        duplicates: the other particles of the list are untouched. */
    static method UpdateAt(p: Particle, ghost ps: seq<Particle>, ghost k: nat)
      requires Distinct(ps) && k < |ps| && p == ps[k]
      modifies p
      ensures Snaps(ps) == old(Snaps(ps))[k := AfterVisit(Stepped, old(p.Snap()))]
    {
      DistinctAt(ps, k);
      ghost var before := Snaps(ps);
      p.Update();
      assert forall m :: 0 <= m < |ps| && m != k ==> ps[m].Snap() == before[m];
    }

    /** The update pass visiting every particle exactly once: particles
        whose decay is 0 are dropped, every particle is updated, and the
        survivors keep their order. */
    method Update()
      requires Valid()
      modifies this, items
      ensures Valid()
      ensures items == Kept(old(items), IntendedFates(old(Decays())))
      ensures Snaps(old(items)) == Settle(IntendedFates(old(Decays())), old(Snaps(items)))
      ensures forall k :: 0 <= k < |old(items)| ==>
                (old(items)[k] in items <==> Survives(old(Decays())[k], 1))
    {
      ghost var orig := items;
      ghost var ds := Decays();
      ghost var fates := IntendedFates(ds);
      ghost var snap0 := Snaps(orig);
      var survivors: seq<Particle> := [];
      var i := 0;
      assert Settle(fates[..0], snap0) == snap0;
      while i < |items|
        invariant items == orig && 0 <= i <= |orig|
        invariant survivors == Kept(orig[..i], fates[..i])
        invariant Snaps(orig) == Settle(fates[..i], snap0)
      {
        survivors := VisitOnce(i, orig, fates, snap0, survivors);
        i := i + 1;
      }
      assert orig[..i] == orig && fates[..i] == fates;
      KeptDistinct(orig, fates);
      items := survivors;
      forall k | 0 <= k < |orig|
        ensures orig[k] in items <==> Survives(ds[k], 1)
      {
        UpdateMembership(orig, ds, k);
      }
    }

    /** One iteration of the corrected pass, at index `i`: the particle
        there is kept when its decay is not 0, and updated either way. */
    method VisitOnce(i: nat, ghost orig: seq<Particle>, ghost fates: seq<Fate>,
                     ghost snap0: seq<Snapshot>, survivors: seq<Particle>)
      returns (survivors': seq<Particle>)
      requires Distinct(orig) && items == orig && i < |orig|
      requires |fates| == |snap0| == |orig|
      requires fates[i] != Skipped && (fates[i] == Removed <==> snap0[i].decay == 0)
      requires survivors == Kept(orig[..i], fates[..i])
      requires Snaps(orig) == Settle(fates[..i], snap0)
      modifies orig[i]
      ensures survivors' == Kept(orig[..i + 1], fates[..i + 1])
      ensures Snaps(orig) == Settle(fates[..i + 1], snap0)
    {
      var p := items[i];
      ghost var now := Snaps(orig);
      assert now[i] == p.Snap() && now[i] == snap0[i];
      assert orig[..i + 1] == orig[..i] + [p];
      assert fates[..i + 1] == fates[..i] + [fates[i]];
      KeptAppend(orig[..i], fates[..i], [p], [fates[i]]);
      survivors' := survivors;
      if p.decay != 0 {
        survivors' := survivors + [p];
      }
      UpdateAt(p, orig, i);
      SettleStep(fates[..i], [fates[i]], snap0);
    }
  }

  /** In the corrected pass every particle, kept or dropped, is updated
      exactly once. */
  lemma IntendedUpdatesEach(ds: seq<int>, ss: seq<Snapshot>)
    requires |ds| == |ss|
    ensures forall k :: 0 <= k < |ss| ==>
              Settle(IntendedFates(ds), ss)[k] == AfterVisit(Stepped, ss[k])
  {
  }
}
