/** The `AsteroidDodger` component of src/AsteroidDodger.jsx as a class: the fields of
    `gameStateRef.current`, the `keys` ref and the React state, updated in place by
    the component's callbacks. Each method is proved to leave the state that the
    reference functions of `DodgerTick` and `DodgerInput` compute. */
module DodgerComponent {
  import opened DodgerState
  import opened DodgerInput
  import opened DodgerTick

  class AsteroidDodger {
    // gameStateRef.current (the scene, renderer, camera and frame id are left out)
    var ship: Pose
    var asteroids: seq<Asteroid>
    var powerUps: seq<PowerUp>
    var playerAlive: bool
    var gameSpeed: real
    var shieldActive: bool
    var speedBoost: bool
    var frameCount: nat
    // keys.current
    var keys: Keys
    // React state
    var score: int
    var gameOver: bool
    var isPlaying: bool

    function Snapshot(): Sim
      reads this
    {
      Sim(ship, asteroids, powerUps, playerAlive, gameSpeed, shieldActive, speedBoost,
          frameCount, keys, score, gameOver, isPlaying)
    }

    /** The component after mounting: initial record and refs, ship placed by the scene setup. */
    constructor Mount()
      ensures Snapshot() == Mounted()
    {
      ship := Pose(Vec3(0.0, -5.0, 0.0), Pi);
      asteroids := [];
      powerUps := [];
      playerAlive := true;
      gameSpeed := InitialSpeed;
      shieldActive := false;
      speedBoost := false;
      frameCount := 0;
      keys := Keys(false, false);
      score := 0;
      gameOver := false;
      isPlaying := false;
    }

    /** `createAsteroid`: push one new asteroid. */
    method CreateAsteroid(d: SpawnDraws)
      modifies this`asteroids
      ensures Snapshot() == old(Snapshot()).(asteroids := old(asteroids) + [NewAsteroid(d)])
    {
      asteroids := asteroids + [NewAsteroid(d)];
    }

    /** `createPowerUp`: push one new power-up. */
    method CreatePowerUp(d: SpawnDraws)
      modifies this`powerUps
      ensures Snapshot() == old(Snapshot()).(powerUps := old(powerUps) + [NewPowerUp(d)])
    {
      powerUps := powerUps + [NewPowerUp(d)];
    }

    /** One call of `animate` (without the render); `scheduled` says whether it requested the next frame. */
    method Animate(d: SpawnDraws, overlap: Overlap) returns (scheduled: bool)
      modifies this
      ensures Snapshot() == Tick(old(Snapshot()), d, overlap)
      ensures scheduled == Reschedules(old(Snapshot()), d, overlap)
    {
      if !playerAlive {
        gameOver := true;
        isPlaying := false;
        return false;
      }
      SteerShip();
      SpawnOnSchedule(d);
      MoveAsteroids(overlap);
      frameCount := frameCount + 1;
      scheduled := playerAlive;
    }

    /** The steering step of `animate`: the ship moves one step left or right while the
        matching key is held and it has not passed the edge of the lane. */
    method SteerShip()
      modifies this`ship
      ensures Snapshot() == SteerPhase(old(Snapshot()))
    {
      var moveSpeed := if speedBoost then BoostStep else NormalStep;
      if keys.left && ship.position.x > -LaneLimit {
        ship := ship.(position := ship.position.(x := ship.position.x - moveSpeed));
      }
      if keys.right && ship.position.x < LaneLimit {
        ship := ship.(position := ship.position.(x := ship.position.x + moveSpeed));
      }
    }

    /** The spawn step of `animate`: every 60th frame, an asteroid, a power-up with
        probability 0.1, ten points and a faster game. */
    method SpawnOnSchedule(d: SpawnDraws)
      modifies this`asteroids, this`powerUps, this`score, this`gameSpeed
      ensures Snapshot() == SpawnPhase(old(Snapshot()), d)
    {
      if frameCount % SpawnPeriod == 0 {
        CreateAsteroid(d);
        if d.powerUpChance < PowerUpChance {
          CreatePowerUp(d);
        }
        score := score + SpawnReward;
        gameSpeed := gameSpeed + SpeedIncrement;
      }
    }

    /** The asteroid step of `animate`: the `forEach` pass, whose collisions end the game. */
    method MoveAsteroids(overlap: Overlap)
      modifies this`asteroids, this`playerAlive, this`gameOver, this`isPlaying
      ensures Snapshot() == PassPhase(old(Snapshot()), overlap)
    {
      var remaining, collided := ForEachAsteroid(asteroids, gameSpeed, ship, shieldActive, overlap);
      asteroids := remaining;
      if collided {
        playerAlive := false;
        gameOver := true;
        isPlaying := false;
      }
    }

    /** `startGame` (without the frame scheduling and the scene bookkeeping). */
    method StartGame()
      modifies this
      ensures Snapshot() == Start(old(Snapshot()))
    {
      asteroids := [];
      powerUps := [];
      ship := Pose(Vec3(0.0, -5.0, 0.0), 0.0);
      playerAlive := true;
      gameSpeed := InitialSpeed;
      shieldActive := false;
      speedBoost := false;
      frameCount := 0;
      score := 0;
      gameOver := false;
      isPlaying := true;
    }

    /** `handleKeyDown` for the event's `key`. */
    method HandleKeyDown(key: string)
      modifies this
      ensures Snapshot() == old(Snapshot()).(keys := KeyDown(old(keys), key))
    {
      if key == "ArrowLeft" || ToLower(key) == "a" {
        keys := keys.(left := true);
      }
      if key == "ArrowRight" || ToLower(key) == "d" {
        keys := keys.(right := true);
      }
    }

    /** `handleKeyUp` for the event's `key`. */
    method HandleKeyUp(key: string)
      modifies this
      ensures Snapshot() == old(Snapshot()).(keys := KeyUp(old(keys), key))
    {
      if key == "ArrowLeft" || ToLower(key) == "a" {
        keys := keys.(left := false);
      }
      if key == "ArrowRight" || ToLower(key) == "d" {
        keys := keys.(right := false);
      }
    }
  }

  /** The `forEach` pass of `animate` over the asteroid list: each visited asteroid drops and
      spins, is spliced out when below the floor, and is then tested against the ship, even
      when it was just spliced out. The pass runs for the length the list had when it began;
      an index the shrunken list no longer has is passed over, and the successor of a
      spliced-out asteroid, which slides into the visited index, is never visited. A
      collision ends only that callback, so `collided` records it and the pass goes on. */
  method ForEachAsteroid(asteroids: seq<Asteroid>, gameSpeed: real, ship: Pose, shieldActive: bool, overlap: Overlap)
    returns (remaining: seq<Asteroid>, collided: bool)
    ensures remaining == Survivors(asteroids, gameSpeed)
    ensures collided == FatalAmong(asteroids, gameSpeed, ship, shieldActive, overlap, |asteroids|)
  {
    ghost var j: nat := 0;  // index in `asteroids` of the asteroid the next visit sees
    remaining, collided := asteroids, false;
    PassBegins(asteroids, gameSpeed, ship, shieldActive, overlap);
    var n := |remaining|;
    var index := 0;
    while index < n
      invariant n == |asteroids|
      invariant PassAt(asteroids, gameSpeed, ship, shieldActive, overlap, j, index, remaining, collided)
    {
      if index < |remaining| {
        PassVisits(asteroids, gameSpeed, ship, shieldActive, overlap, j, index, remaining, collided);
        var fatal;
        remaining, fatal := VisitAsteroid(remaining, index, gameSpeed, ship, shieldActive, overlap);
        collided := collided || fatal;
        j := NextVisit(asteroids, gameSpeed, j);
      } else {
        PassPassesHole(asteroids, gameSpeed, ship, shieldActive, overlap, j, index, remaining, collided);
      }
      index := index + 1;
    }
    PassEnds(asteroids, gameSpeed, ship, shieldActive, overlap, j, remaining, collided);
  }

  /** The `forEach` callback on the asteroid at `index` of the live list `asteroids`: drop
      and spin it, splice it out when it has fallen below the floor, and report whether it
      meets the unshielded ship. `AfterVisit` is the same step written as a function; what
      gives it meaning is `PassVisits`, which ties it to the rule `FateAt` states on the
      original list. */
  method VisitAsteroid(asteroids: seq<Asteroid>, index: nat, gameSpeed: real, ship: Pose, shieldActive: bool, overlap: Overlap)
    returns (after: seq<Asteroid>, fatal: bool)
    requires index < |asteroids|
    ensures after == AfterVisit(asteroids, index, Drift(asteroids[index], gameSpeed))
    ensures fatal == (!shieldActive && overlap(ship, Drift(asteroids[index], gameSpeed)))
  {
    var asteroid := Drift(asteroids[index], gameSpeed);
    after := asteroids[index := asteroid];
    if asteroid.position.y < FloorY {
      after := after[..index] + after[index + 1..];
    }
    fatal := false;
    if !shieldActive && overlap(ship, asteroid) {
      fatal := true;
    }
  }
}
