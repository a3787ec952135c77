/** What the simulation of src/AsteroidDodger.jsx guarantees over one tick and over a
    whole session: spawn scheduling, the frame counter, the speed ramp, the lane the
    ship stays in, the asteroid pass and its collision rule, and `startGame`. */
module DodgerProperties {
  import opened DodgerState
  import opened DodgerInput
  import opened DodgerTick

  /** Spawn frames among the first f frames of a session, counted one frame at a time. */
  function SpawnTicks(f: nat): nat {
    if f == 0 then 0 else SpawnTicks(f - 1) + (if (f - 1) % SpawnPeriod == 0 then 1 else 0)
  }

  /** The count in closed form: frames 0, 60, 120, ... spawn, so f frames hold ceil(f / 60) spawns. */
  lemma {:induction false} SpawnTicksClosedForm(f: nat)
    ensures SpawnTicks(f) == (f + SpawnPeriod - 1) / SpawnPeriod
  {
    if f > 0 {
      SpawnTicksClosedForm(f - 1);
      var q, r := (f - 1) / SpawnPeriod, (f - 1) % SpawnPeriod;
      assert f - 1 == SpawnPeriod * q + r && 0 <= r < SpawnPeriod;
      assert f + SpawnPeriod - 1 == SpawnPeriod * (q + 1) + r;
      assert (f + SpawnPeriod - 1) / SpawnPeriod == q + 1;
      if r == 0 {
        assert (f - 1 + SpawnPeriod - 1) / SpawnPeriod == q;
      } else {
        assert f - 1 + SpawnPeriod - 1 == SpawnPeriod * (q + 1) + (r - 1);
        assert (f - 1 + SpawnPeriod - 1) / SpawnPeriod == q + 1;
      }
    }
  }

  /** Every asteroid is at or above the floor. */
  predicate AboveFloor(asteroids: seq<Asteroid>) {
    forall i :: 0 <= i < |asteroids| ==> asteroids[i].position.y >= FloorY
  }

  /** Every power-up is where `createPowerUp` put it: height 15, depth 0. */
  predicate PowerUpsParked(powerUps: seq<PowerUp>) {
    forall i :: 0 <= i < |powerUps| ==> powerUps[i].position.y == PowerUpSpawnY && powerUps[i].position.z == 0.0
  }

  /** What holds throughout a session begun by `startGame`: speed and score follow the
      spawn count, neither effect flag is ever set, the ship stays on its line and inside
      (-10.5, 10.5), no asteroid lies below the floor, the power-ups stay where they were
      created, and the two React flags mirror `playerAlive`. */
  predicate SessionInvariant(s: Sim) {
    && s.gameSpeed == InitialSpeed + SpeedIncrement * (SpawnTicks(s.frameCount) as real)
    && s.score == SpawnReward * SpawnTicks(s.frameCount)
    && !s.shieldActive && !s.speedBoost
    && -LaneLimit - BoostStep < s.ship.position.x < LaneLimit + BoostStep
    && s.ship.position.y == -5.0 && s.ship.position.z == 0.0 && s.ship.rotationZ == 0.0
    && AboveFloor(s.asteroids)
    && PowerUpsParked(s.powerUps)
    && s.gameOver == !s.playerAlive
    && s.isPlaying == s.playerAlive
  }

  /** `startGame` resets the session; calling it again changes nothing. */
  lemma StartIdempotent(s: Sim)
    ensures Start(Start(s)) == Start(s)
    ensures Start(s).keys == s.keys
  {
  }

  /** `startGame` begins a session: the ship back at the origin of its line, both lists
      empty, counters and speed reset, the player alive and playing, the keys untouched. */
  lemma StartEstablishes(s: Sim)
    ensures SessionInvariant(Start(s))
    ensures Start(s).ship == Pose(Vec3(0.0, -5.0, 0.0), 0.0)
    ensures Start(s).keys == s.keys
    ensures Start(s).asteroids == [] && Start(s).powerUps == []
    ensures Start(s).frameCount == 0 && Start(s).score == 0 && Start(s).gameSpeed == InitialSpeed
    ensures Start(s).playerAlive && Start(s).isPlaying && !Start(s).gameOver
  {
  }

  /** Steering moves the ship left only when the left key is held and x > -10, right only
      when the right key is held and x < 10, by at most one step of 0.3 (0.5 boosted) each way, and
      keeps a ship that is inside (-10.5, 10.5) inside it. */
  lemma SteerGuarded(ship: Pose, keys: Keys, speedBoost: bool)
    ensures var x, x' := ship.position.x, Steer(ship, keys, speedBoost).position.x;
      var step := if speedBoost then BoostStep else NormalStep;
      && (x' < x ==> keys.left && x > -LaneLimit && x' == x - step)
      && (x' > x ==> keys.right && x < LaneLimit && x' == x + step)
      && (!keys.left && !keys.right ==> x' == x)
      && (-LaneLimit - BoostStep < x < LaneLimit + BoostStep ==> -LaneLimit - BoostStep < x' < LaneLimit + BoostStep)
    ensures Steer(ship, keys, speedBoost).position.y == ship.position.y
    ensures Steer(ship, keys, speedBoost).position.z == ship.position.z
    ensures Steer(ship, keys, speedBoost).rotationZ == ship.rotationZ
  {
  }

  /** The pass never leaves an asteroid below the floor: a visited one that drops below
      it is removed, and an unvisited one keeps its old height. */
  lemma {:induction false} SurvivorsAboveFloor(src: seq<Asteroid>, speed: real, n: nat)
    requires n <= |src| && AboveFloor(src)
    ensures AboveFloor(SurvivorsUpTo(src, speed, n))
  {
    if n > 0 {
      SurvivorsAboveFloor(src, speed, n - 1);
      var done := SurvivorsUpTo(src, speed, n - 1);
      var out := Outcome(src, speed, n - 1);
      assert AboveFloor(out);
      assert SurvivorsUpTo(src, speed, n) == done + out;
    }
  }

  /** When no asteroid would drop below the floor, every asteroid is visited and moved, in order. */
  lemma {:induction false} NoEscapeMovesAll(src: seq<Asteroid>, speed: real, n: nat)
    requires n <= |src|
    requires forall i :: 0 <= i < |src| ==> !Escapes(Drift(src[i], speed))
    ensures SurvivorsUpTo(src, speed, n) == seq(n, i requires 0 <= i < n => Drift(src[i], speed))
  {
    if n > 0 {
      NoEscapeMovesAll(src, speed, n - 1);
      assert n - 1 > 0 ==> FateAt(src, speed, n - 2) != Escaped;
      assert FateAt(src, speed, n - 1) == Moved;
    }
  }

  /** The asteroid right after one that is removed is neither moved nor tested, and stays
      in the list unchanged. */
  lemma EscapeSkipsSuccessor(src: seq<Asteroid>, speed: real, ship: Pose, shield: bool, overlap: Overlap, i: nat)
    requires i + 1 < |src| && FateAt(src, speed, i) == Escaped
    ensures FateAt(src, speed, i + 1) == Skipped
    ensures SurvivorsUpTo(src, speed, i + 2) == SurvivorsUpTo(src, speed, i) + [src[i + 1]]
    ensures !FatalAt(src, speed, ship, shield, overlap, i + 1)
  {
    assert SurvivorsUpTo(src, speed, i + 1) == SurvivorsUpTo(src, speed, i);
  }

  /** Two asteroids about to leave the field: the first is removed and still tested, and the
      second, which slides into its index, is left in the list untouched and untested. */
  lemma SkipExample(ship: Pose, overlap: Overlap)
    ensures var a := Asteroid(1.0, Vec3(0.0, -9.95, 0.0), 0.0, 0.0);
      var b := Asteroid(1.0, Vec3(3.0, -9.95, 0.0), 0.0, 0.0);
      && Survivors([a, b], 0.1) == [b]
      && FatalAmong([a, b], 0.1, ship, false, overlap, 2) == overlap(ship, Drift(a, 0.1))
  {
    var a := Asteroid(1.0, Vec3(0.0, -9.95, 0.0), 0.0, 0.0);
    var b := Asteroid(1.0, Vec3(3.0, -9.95, 0.0), 0.0, 0.0);
    assert FateAt([a, b], 0.1, 0) == Escaped;
    assert FateAt([a, b], 0.1, 1) == Skipped;
    assert SurvivorsUpTo([a, b], 0.1, 1) == [];
    assert FatalAt([a, b], 0.1, ship, false, overlap, 0) == overlap(ship, Drift(a, 0.1));
    assert !FatalAt([a, b], 0.1, ship, false, overlap, 1);
    assert FatalAmong([a, b], 0.1, ship, false, overlap, 1) == overlap(ship, Drift(a, 0.1));
  }

  /** The pass kills the ship exactly when some visited asteroid meets it unshielded: the
      callback's `return` ends only that visit, so every asteroid is still considered. */
  lemma {:induction false} FatalAmongExists(src: seq<Asteroid>, speed: real, ship: Pose, shield: bool, overlap: Overlap, n: nat)
    requires n <= |src|
    ensures FatalAmong(src, speed, ship, shield, overlap, n)
        <==> exists i :: 0 <= i < n && FatalAt(src, speed, ship, shield, overlap, i)
  {
    if n > 0 {
      FatalAmongExists(src, speed, ship, shield, overlap, n - 1);
      if FatalAmong(src, speed, ship, shield, overlap, n - 1) {
        var i :| 0 <= i < n - 1 && FatalAt(src, speed, ship, shield, overlap, i);
        assert 0 <= i < n;
      }
    }
  }

  /** Under an active shield nothing is fatal. */
  lemma {:induction false} ShieldProtects(src: seq<Asteroid>, speed: real, ship: Pose, overlap: Overlap, n: nat)
    requires n <= |src|
    ensures !FatalAmong(src, speed, ship, true, overlap, n)
  {
    if n > 0 {
      ShieldProtects(src, speed, ship, overlap, n - 1);
    }
  }

  /** One live tick: it spawns exactly when the frame count is a multiple of 60 (one
      asteroid always, a power-up when the chance draw is below 0.1), runs the pass over
      the list with the new asteroid at gameSpeed after the spawn, and leaves the
      power-ups otherwise as they were. The player survives, and the next frame is
      requested, exactly when no visited asteroid was fatal; the frame counts either way. */
  lemma TickLive(s: Sim, d: SpawnDraws, overlap: Overlap)
    requires s.playerAlive
    ensures var due := s.frameCount % SpawnPeriod == 0;
      var ship := Steer(s.ship, s.keys, s.speedBoost);
      var field := s.asteroids + (if due then [NewAsteroid(d)] else []);
      var speed := s.gameSpeed + (if due then SpeedIncrement else 0.0);
      var hit := FatalAmong(field, speed, ship, s.shieldActive, overlap, |field|);
      var r := Tick(s, d, overlap);
      && r.ship == ship
      && r.asteroids == Survivors(field, speed)
      && r.powerUps == s.powerUps + (if due && d.powerUpChance < PowerUpChance then [NewPowerUp(d)] else [])
      && r.playerAlive == !hit
      && (hit ==> r.gameOver && !r.isPlaying)
      && (!hit ==> r.gameOver == s.gameOver && r.isPlaying == s.isPlaying)
      && r.frameCount == s.frameCount + 1
      && (Reschedules(s, d, overlap) <==> !hit)
  {
    if s.frameCount % SpawnPeriod != 0 {
      assert s.asteroids + [] == s.asteroids;
      assert s.powerUps + [] == s.powerUps;
    }
  }

  /** A tick that begins with the player dead only raises the game-over flags and requests no frame. */
  lemma TickDead(s: Sim, d: SpawnDraws, overlap: Overlap)
    requires !s.playerAlive
    ensures Tick(s, d, overlap) == s.(gameOver := true, isPlaying := false)
    ensures !Reschedules(s, d, overlap)
  {
  }

  /** The first tick after `startGame` spawns: one asteroid, moved once, ten points, speed 0.101. */
  lemma FirstTickSpawns(s: Sim, d: SpawnDraws, overlap: Overlap)
    ensures var r := Tick(Start(s), d, overlap);
      && r.asteroids == [Drift(NewAsteroid(d), InitialSpeed + SpeedIncrement)]
      && r.powerUps == (if d.powerUpChance < PowerUpChance then [NewPowerUp(d)] else [])
      && r.score == SpawnReward && r.gameSpeed == InitialSpeed + SpeedIncrement && r.frameCount == 1
      && r.playerAlive == !overlap(r.ship, Drift(NewAsteroid(d), InitialSpeed + SpeedIncrement))
  {
    var speed := InitialSpeed + SpeedIncrement;
    var a := NewAsteroid(d);
    assert !Escapes(Drift(a, speed));
    var start := Start(s);
    TickLive(start, d, overlap);
    assert start.asteroids + [a] == [a];
    assert SurvivorsUpTo([a], speed, 1) == [Drift(a, speed)];
    assert FateAt([a], speed, 0) == Moved;
    assert FatalAmong([a], speed, Tick(start, d, overlap).ship, false, overlap, 1)
        == overlap(Tick(start, d, overlap).ship, Drift(a, speed));
  }

  /** Every tick keeps the session invariant. */
  lemma TickPreserves(s: Sim, d: SpawnDraws, overlap: Overlap)
    requires SessionInvariant(s)
    ensures SessionInvariant(Tick(s, d, overlap))
  {
    if s.playerAlive {
      TickLive(s, d, overlap);
      var due := s.frameCount % SpawnPeriod == 0;
      var field := s.asteroids + (if due then [NewAsteroid(d)] else []);
      var speed := s.gameSpeed + (if due then SpeedIncrement else 0.0);
      assert AboveFloor(field);
      SurvivorsAboveFloor(field, speed, |field|);
      SteerGuarded(s.ship, s.keys, s.speedBoost);
      var r := Tick(s, d, overlap);
      assert PowerUpsParked(r.powerUps);
      assert SpawnTicks(r.frameCount) == SpawnTicks(s.frameCount) + (if due then 1 else 0);
    }
  }

  /** What reaches the component: an animation frame with its draws and collision
      relation, a key press, a key release, or a click on start. */
  datatype Event =
    | Frame(draws: SpawnDraws, overlap: Overlap)
    | Press(key: string)
    | Release(key: string)
    | Restart

  function Apply(s: Sim, e: Event): Sim {
    match e
    case Frame(d, overlap) => Tick(s, d, overlap)
    case Press(key) => s.(keys := KeyDown(s.keys, key))
    case Release(key) => s.(keys := KeyUp(s.keys, key))
    case Restart => Start(s)
  }

  function Replay(s: Sim, events: seq<Event>): Sim
    decreases |events|
  {
    if events == [] then s else Replay(Apply(s, events[0]), events[1..])
  }

  /** Once a session has been started, any sequence of events keeps the invariant. */
  lemma {:induction false} ReplayPreserves(s: Sim, events: seq<Event>)
    requires SessionInvariant(s)
    ensures SessionInvariant(Replay(s, events))
    decreases |events|
  {
    if events != [] {
      match events[0] {
        case Frame(d, overlap) => TickPreserves(s, d, overlap);
        case Press(_) =>
        case Release(_) =>
        case Restart => StartEstablishes(s);
      }
      ReplayPreserves(Apply(s, events[0]), events[1..]);
    }
  }

  /** Events that do not restart the session. */
  predicate SameSession(events: seq<Event>) {
    forall i :: 0 <= i < |events| ==> !events[i].Restart?
  }

  /** Within a session the speed never drops, the frame count never goes back, the
      player never revives and the effect flags never change. */
  lemma {:induction false} SessionMonotone(s: Sim, events: seq<Event>)
    requires SameSession(events)
    ensures var r := Replay(s, events);
      && r.gameSpeed >= s.gameSpeed
      && r.frameCount >= s.frameCount
      && (r.playerAlive ==> s.playerAlive)
      && r.shieldActive == s.shieldActive && r.speedBoost == s.speedBoost
    decreases |events|
  {
    if events != [] {
      assert SameSession(events[1..]) by {
        forall i | 0 <= i < |events[1..]| ensures !events[1..][i].Restart? {
          assert events[1..][i] == events[i + 1];
        }
      }
      SessionMonotone(Apply(s, events[0]), events[1..]);
    }
  }
}
