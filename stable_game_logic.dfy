/**
 * Geometry helpers of the older rule set (_backup_stable/utils/gameLogic.ts):
 * no size scaling in the collision test and a fixed 4000 x 4000 world.
 */
module StableGameLogic {
  import opened Types
  import GameLogic

  /**
   * `checkCollision(a, b)`: `sqrt(dx² + dy²) < a.size / 2 + b.size / 2`.
   * A square root is never negative, so the test fails outright when the
   * half-size sum is not positive; otherwise it is the squared comparison.
   */
  predicate Collides(a: GameLogic.Body, b: GameLogic.Body) {
    var reach := a.size / 2.0 + b.size / 2.0;
    reach > 0.0 && GameLogic.DistSq(a.pos, b.pos) < reach * reach
  }

  /** Collision holds exactly when the centres are closer than the mean of the sizes. */
  lemma CollidesIff(a: GameLogic.Body, b: GameLogic.Body)
    requires a.size >= 0.0 && b.size >= 0.0
    ensures Collides(a, b) <==>
      a.size + b.size > 0.0 && GameLogic.DistSq(a.pos, b.pos) < GameLogic.Sq((a.size + b.size) / 2.0)
  {
    assert a.size / 2.0 + b.size / 2.0 == (a.size + b.size) / 2.0;
  }

  lemma CollidesSymmetric(a: GameLogic.Body, b: GameLogic.Body)
    ensures Collides(a, b) == Collides(b, a)
  {
    GameLogic.DistSqSymmetric(a.pos, b.pos);
  }

  /**
   * Every collision of the older rule set is still a collision under the
   * current scaled test: every scale factor is at least 1.25.
   */
  lemma ScaledTestIsLooser(a: GameLogic.Body, b: GameLogic.Body)
    requires a.size >= 0.0 && b.size >= 0.0
    ensures Collides(a, b) ==> GameLogic.Collides(a, b)
  {
    var k := GameLogic.Scale(a, b);
    var reach := a.size / 2.0 + b.size / 2.0;
    var scaled := a.size * k / 2.0 + b.size * k / 2.0;
    assert scaled == k * reach;
    if Collides(a, b) {
      assert k >= 1.0;
      GameLogic.ProductNonNegative(k - 1.0, reach);
      assert scaled >= reach;
      GameLogic.ProductNonNegative(scaled - reach, scaled + reach);
      assert scaled * scaled - reach * reach == (scaled - reach) * (scaled + reach);
    }
  }

  /** `isOutOfBounds(pos, size)` against the fixed world size. */
  predicate IsOutOfBounds(p: Vec, size: real) {
    p.x < size / 2.0 || p.x > WorldWidth - size / 2.0 || p.y < size / 2.0 || p.y > WorldHeight - size / 2.0
  }

  lemma InBoundsIff(p: Vec, size: real)
    ensures !IsOutOfBounds(p, size) <==>
      (size / 2.0 <= p.x <= 4000.0 - size / 2.0 && size / 2.0 <= p.y <= 4000.0 - size / 2.0)
  {
  }

  /** `getRandomPos(size)` for the two draws `rx`, `ry`. */
  function RandomPos(size: real, rx: real, ry: real): Vec {
    Vec(GameLogic.Spread(rx, WorldWidth - size * 2.0, size), GameLogic.Spread(ry, WorldHeight - size * 2.0, size))
  }

  lemma RandomPosRange(size: real, rx: real, ry: real)
    requires GameLogic.IsDraw(rx) && GameLogic.IsDraw(ry)
    requires 0.0 <= size < 2000.0
    ensures var p := RandomPos(size, rx, ry);
      size <= p.x < 4000.0 - size && size <= p.y < 4000.0 - size
    ensures !IsOutOfBounds(RandomPos(size, rx, ry), size)
  {
    GameLogic.SpreadRange(rx, WorldWidth - size * 2.0, size);
    GameLogic.SpreadRange(ry, WorldHeight - size * 2.0, size);
  }

  predicate Occupied(p: Vec, size: real, existing: seq<GameLogic.Body>) {
    exists j :: 0 <= j < |existing| && Collides(GameLogic.Probe(p, size), existing[j])
  }

  function Candidate(size: real, draws: seq<(real, real)>, k: nat): Vec
    requires k < |draws|
  {
    RandomPos(size, draws[k].0, draws[k].1)
  }

  /** Candidate `k` is where spawnSafe stops (see GameLogic.FirstFreeAt). */
  predicate FirstFreeAt(size: real, existing: seq<GameLogic.Body>, draws: seq<(real, real)>, k: nat)
    requires k < |draws|
  {
    && (forall j :: 0 <= j < k ==> Occupied(Candidate(size, draws, j), size, existing))
    && (k < 50 ==> !Occupied(Candidate(size, draws, k), size, existing))
  }

  /** `spawnSafe(size, existing)` for the 51 pairs of draws it can consume. */
  method SpawnSafe(size: real, existing: seq<GameLogic.Body>, draws: seq<(real, real)>) returns (pos: Vec)
    requires |draws| == 51
    ensures exists k :: 0 <= k <= 50 && FirstFreeAt(size, existing, draws, k) && pos == Candidate(size, draws, k)
    ensures (forall k :: 0 <= k < 51 ==> GameLogic.IsDraw(draws[k].0) && GameLogic.IsDraw(draws[k].1))
      && 0.0 <= size < 2000.0
      ==> size <= pos.x < 4000.0 - size && size <= pos.y < 4000.0 - size
  {
    pos := Candidate(size, draws, 0);
    var attempts := 0;
    while attempts < 50
      invariant 0 <= attempts <= 50
      invariant pos == Candidate(size, draws, attempts)
      invariant forall j :: 0 <= j < attempts ==> Occupied(Candidate(size, draws, j), size, existing)
    {
      var colliding := false;
      var j := 0;
      while j < |existing|
        invariant 0 <= j <= |existing|
        invariant colliding <==> exists m :: 0 <= m < j && Collides(GameLogic.Probe(pos, size), existing[m])
      {
        colliding := colliding || Collides(GameLogic.Probe(pos, size), existing[j]);
        j := j + 1;
      }
      if !colliding {
        assert FirstFreeAt(size, existing, draws, attempts);
        RangeOfCandidate(size, draws, attempts);
        return;
      }
      attempts := attempts + 1;
      pos := Candidate(size, draws, attempts);
    }
    assert FirstFreeAt(size, existing, draws, 50);
    RangeOfCandidate(size, draws, 50);
  }

  lemma RangeOfCandidate(size: real, draws: seq<(real, real)>, k: nat)
    requires k < |draws|
    ensures (forall m :: 0 <= m < |draws| ==> GameLogic.IsDraw(draws[m].0) && GameLogic.IsDraw(draws[m].1))
      && 0.0 <= size < 2000.0
      ==> var p := Candidate(size, draws, k);
        size <= p.x < 4000.0 - size && size <= p.y < 4000.0 - size
  {
    if (forall m :: 0 <= m < |draws| ==> GameLogic.IsDraw(draws[m].0) && GameLogic.IsDraw(draws[m].1))
      && 0.0 <= size < 2000.0 {
      RandomPosRange(size, draws[k].0, draws[k].1);
    }
  }
}
