/**
 * Geometry helpers of the current rule set (utils/gameLogic.ts).
 *
 * `getDistance` takes a square root; the model works with the squared
 * distance, and every comparison `getDistance(a, b) < R` with R >= 0 of the
 * source becomes `DistSq(a, b) < R * R`, which is the same test.
 */
module GameLogic {
  import opened Types

  /**
   * A game object as `checkCollision` sees it: only its centre and size, and
   * which keys it has. The source classifies an object as a bullet when it
   * has a `damage` key and as a wall when it has a `type` key, so items
   * (which carry `type` too) are scaled like walls.
   */
  datatype Body = Body(pos: Vec, size: real, hasDamage: bool, hasType: bool)

  function TankBody(t: Tank): Body { Body(t.pos, t.size, false, false) }
  function WallBody(w: Wall): Body { Body(w.pos, w.size, false, true) }
  function ItemBody(it: Item): Body { Body(it.pos, it.size, false, true) }
  function BulletBody(b: Bullet): Body { Body(b.pos, b.size, true, false) }
  /** A bare `{ id, pos, size }` probe, as built by spawnSafe and the steering code. */
  function Probe(p: Vec, size: real): Body { Body(p, size, false, false) }

  function Sq(a: real): (r: real)
    ensures r >= 0.0
  {
    a * a
  }

  /** The square of `getDistance(a, b)`. */
  function DistSq(a: Vec, b: Vec): (d: real)
    ensures d >= 0.0
  {
    Sq(b.x - a.x) + Sq(b.y - a.y)
  }

  lemma DistSqSymmetric(a: Vec, b: Vec)
    ensures DistSq(a, b) == DistSq(b, a)
  {
    assert Sq(b.x - a.x) == Sq(a.x - b.x) by {
      assert b.x - a.x == -(a.x - b.x);
    }
    assert Sq(b.y - a.y) == Sq(a.y - b.y) by {
      assert b.y - a.y == -(a.y - b.y);
    }
  }

  /** The size multiplier `checkCollision` applies to both objects. */
  function Scale(a: Body, b: Body): real {
    if a.hasDamage || b.hasDamage then 1.6
    else if a.hasType || b.hasType then 1.25
    else 1.3
  }

  /** `checkCollision(a, b)`. */
  predicate Collides(a: Body, b: Body) {
    var s1 := a.size * Scale(a, b);
    var s2 := b.size * Scale(a, b);
    var radiusSum := s1 / 2.0 + s2 / 2.0;
    DistSq(a.pos, b.pos) < radiusSum * radiusSum
  }

  /** The collision radius sum written without the per-object halves. */
  function ReachSq(a: Body, b: Body): real {
    Sq(Scale(a, b) * (a.size + b.size) / 2.0)
  }

  /**
   * The collision test is a strict circle-overlap test on the scaled sizes,
   * with the scale chosen by the kinds of the two objects.
   */
  lemma CollidesIff(a: Body, b: Body)
    ensures Collides(a, b) <==> DistSq(a.pos, b.pos) < ReachSq(a, b)
    ensures (a.hasDamage || b.hasDamage) ==> Scale(a, b) == 1.6
    ensures !(a.hasDamage || b.hasDamage) && (a.hasType || b.hasType) ==> Scale(a, b) == 1.25
    ensures !(a.hasDamage || b.hasDamage || a.hasType || b.hasType) ==> Scale(a, b) == 1.3
  {
    var k := Scale(a, b);
    assert a.size * k / 2.0 + b.size * k / 2.0 == k * (a.size + b.size) / 2.0;
  }

  lemma CollidesSymmetric(a: Body, b: Body)
    ensures Collides(a, b) == Collides(b, a)
  {
    DistSqSymmetric(a.pos, b.pos);
    assert Scale(a, b) == Scale(b, a);
    var k := Scale(a, b);
    assert a.size * k / 2.0 + b.size * k / 2.0 == b.size * k / 2.0 + a.size * k / 2.0;
  }

  /** Circles that exactly touch do not collide. */
  lemma TouchingDoesNotCollide(a: Body, b: Body)
    requires DistSq(a.pos, b.pos) == ReachSq(a, b)
    ensures !Collides(a, b)
  {
    CollidesIff(a, b);
  }

  /** Items get the wall scale 1.25 against a tank, because they carry a `type` key. */
  lemma ItemScaledLikeWall(t: Tank, it: Item, w: Wall)
    ensures Scale(TankBody(t), ItemBody(it)) == Scale(TankBody(t), WallBody(w)) == 1.25
    ensures Scale(BulletBody(Bullet(PlayerId, Ally, it.pos, 0.0, 0.0, 0.0, 0.0)), ItemBody(it)) == 1.6
  {
  }

  /** `isOutOfBounds(pos, size, width, height)`. */
  predicate IsOutOfBounds(p: Vec, size: real, width: real, height: real) {
    p.x < size / 2.0 || p.x > width - size / 2.0 || p.y < size / 2.0 || p.y > height - size / 2.0
  }

  /** A position is inside the world exactly when both coordinates keep half a size clear of the edges. */
  lemma InBoundsIff(p: Vec, size: real, width: real, height: real)
    ensures !IsOutOfBounds(p, size, width, height) <==>
      (size / 2.0 <= p.x <= width - size / 2.0 && size / 2.0 <= p.y <= height - size / 2.0)
  {
  }

  /** A value of `Math.random()`. */
  predicate IsDraw(r: real) { 0.0 <= r < 1.0 }

  /** One coordinate `r * span + size` of a random position. */
  function Spread(r: real, span: real, size: real): real { r * span + size }

  /** `getRandomPos(size, width, height)` for the two draws `rx`, `ry`. */
  function RandomPos(size: real, rx: real, ry: real, width: real, height: real): Vec {
    Vec(Spread(rx, width - size * 2.0, size), Spread(ry, height - size * 2.0, size))
  }

  lemma ProductPositive(a: real, b: real)
    requires a > 0.0 && b > 0.0
    ensures a * b > 0.0
  {
  }

  lemma ProductNonNegative(a: real, b: real)
    requires a >= 0.0 && b >= 0.0
    ensures a * b >= 0.0
  {
  }

  /** Two numbers of the same sign have a product that is not negative. */
  lemma SameSignProduct(a: real, b: real)
    ensures (a >= 0.0 && b >= 0.0) || (a <= 0.0 && b <= 0.0) ==> a * b >= 0.0
  {
    if a >= 0.0 && b >= 0.0 {
      ProductNonNegative(a, b);
    } else if a <= 0.0 && b <= 0.0 {
      ProductNonNegative(-a, -b);
      assert (-a) * (-b) == a * b;
    }
  }

  /** A draw in [0, 1) scales a positive span to a part of it. */
  lemma ScaledDraw(r: real, e: real)
    requires IsDraw(r) && e > 0.0
    ensures 0.0 <= r * e < e
  {
    ProductPositive(1.0 - r, e);
    ProductNonNegative(r, e);
  }

  /** One coordinate of a random position stays in [size, size + span). */
  lemma SpreadRange(r: real, span: real, size: real)
    requires IsDraw(r) && span > 0.0
    ensures size <= Spread(r, span, size) < span + size
  {
    ScaledDraw(r, span);
  }

  /** Random positions keep a full size away from the edges, so they are never out of bounds. */
  lemma RandomPosRange(size: real, rx: real, ry: real, width: real, height: real)
    requires IsDraw(rx) && IsDraw(ry)
    requires size >= 0.0 && width > 2.0 * size && height > 2.0 * size
    ensures var p := RandomPos(size, rx, ry, width, height);
      size <= p.x < width - size && size <= p.y < height - size
    ensures !IsOutOfBounds(RandomPos(size, rx, ry, width, height), size, width, height)
  {
    SpreadRange(rx, width - size * 2.0, size);
    SpreadRange(ry, height - size * 2.0, size);
  }

  /** Whether a probe of `size` at `p` collides with any of `existing`. */
  predicate Occupied(p: Vec, size: real, existing: seq<Body>) {
    exists j :: 0 <= j < |existing| && Collides(Probe(p, size), existing[j])
  }

  /** The `k`-th position `spawnSafe` draws. */
  function Candidate(size: real, draws: seq<(real, real)>, k: nat, width: real, height: real): Vec
    requires k < |draws|
  {
    RandomPos(size, draws[k].0, draws[k].1, width, height)
  }

  /**
   * Candidate `k` is where spawnSafe stops: every earlier candidate is
   * occupied, and `k` is either free or the 51st, unchecked one.
   */
  predicate FirstFreeAt(size: real, existing: seq<Body>, draws: seq<(real, real)>, k: nat, width: real, height: real)
    requires k < |draws|
  {
    && (forall j :: 0 <= j < k ==> Occupied(Candidate(size, draws, j, width, height), size, existing))
    && (k < 50 ==> !Occupied(Candidate(size, draws, k, width, height), size, existing))
  }

  /**
   * `spawnSafe(size, existing, width, height)` for the 51 pairs of random
   * draws it can consume: the first of the first 50 candidates that collides
   * with nothing, otherwise the 51st candidate, which is never checked.
   */
  method SpawnSafe(size: real, existing: seq<Body>, draws: seq<(real, real)>, width: real, height: real)
    returns (pos: Vec)
    requires |draws| == 51
    ensures exists k :: 0 <= k <= 50 && FirstFreeAt(size, existing, draws, k, width, height) &&
                        pos == Candidate(size, draws, k, width, height)
    ensures (forall k :: 0 <= k < 51 ==> IsDraw(draws[k].0) && IsDraw(draws[k].1))
      && size >= 0.0 && width > 2.0 * size && height > 2.0 * size
      ==> size <= pos.x < width - size && size <= pos.y < height - size
  {
    pos := Candidate(size, draws, 0, width, height);
    var attempts := 0;
    while attempts < 50
      invariant 0 <= attempts <= 50
      invariant pos == Candidate(size, draws, attempts, width, height)
      invariant forall j :: 0 <= j < attempts ==> Occupied(Candidate(size, draws, j, width, height), size, existing)
    {
      var colliding := false;
      var j := 0;
      while j < |existing|
        invariant 0 <= j <= |existing|
        invariant colliding <==> exists m :: 0 <= m < j && Collides(Probe(pos, size), existing[m])
      {
        colliding := colliding || Collides(Probe(pos, size), existing[j]);
        j := j + 1;
      }
      if !colliding {
        assert FirstFreeAt(size, existing, draws, attempts, width, height);
        RangeOfCandidate(size, draws, attempts, width, height);
        return;
      }
      attempts := attempts + 1;
      pos := Candidate(size, draws, attempts, width, height);
    }
    assert FirstFreeAt(size, existing, draws, 50, width, height);
    RangeOfCandidate(size, draws, 50, width, height);
  }

  lemma RangeOfCandidate(size: real, draws: seq<(real, real)>, k: nat, width: real, height: real)
    requires k < |draws|
    ensures (forall m :: 0 <= m < |draws| ==> IsDraw(draws[m].0) && IsDraw(draws[m].1))
      && size >= 0.0 && width > 2.0 * size && height > 2.0 * size
      ==> var p := Candidate(size, draws, k, width, height);
        size <= p.x < width - size && size <= p.y < height - size
  {
    if (forall m :: 0 <= m < |draws| ==> IsDraw(draws[m].0) && IsDraw(draws[m].1))
      && size >= 0.0 && width > 2.0 * size && height > 2.0 * size {
      RandomPosRange(size, draws[k].0, draws[k].1, width, height);
    }
  }
}
