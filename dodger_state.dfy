/** Entities and spawners of the dodging game in src/AsteroidDodger.jsx.

    Positions are `real` rather than IEEE doubles. Every `Math.random()` draw a
    spawn makes is an input (a `SpawnDraws` record), and the three.js meshes are
    reduced to the fields the simulation reads or writes. */
module DodgerState {

  /** `Math.PI`, written out to the precision of the double the source uses. */
  const Pi: real := 3.141592653589793

  /** Frames between two asteroid spawns. */
  const SpawnPeriod: nat := 60
  /** Score added on every spawn frame. */
  const SpawnReward: int := 10
  /** `gameSpeed` at the start of a session, and what each spawn frame adds to it. */
  const InitialSpeed: real := 0.1
  const SpeedIncrement: real := 0.001
  /** Probability that a spawn frame also creates a power-up. */
  const PowerUpChance: real := 0.1
  /** Ship steering: the guard on x, and the step per frame without and with a speed boost. */
  const LaneLimit: real := 10.0
  const NormalStep: real := 0.3
  const BoostStep: real := 0.5
  /** An asteroid whose y drops below this is removed. */
  const FloorY: real := -10.0
  /** Heights at which asteroids and power-ups appear. */
  const AsteroidSpawnY: real := 20.0
  const PowerUpSpawnY: real := 15.0
  /** Cosmetic spin added to an asteroid's x and y rotation each frame it is moved. */
  const Spin: real := 0.01

  datatype Vec3 = Vec3(x: real, y: real, z: real)

  /** The part of the ship's transform that the game changes: its position and rotation about z.
      (Its rotation about x and y and its scale are set once at mount and never changed.) */
  datatype Pose = Pose(position: Vec3, rotationZ: real)

  /** An asteroid mesh: its dodecahedron radius, position and the two rotations it tumbles on. */
  datatype Asteroid = Asteroid(size: real, position: Vec3, rotationX: real, rotationY: real)

  /** The `type` tag a power-up mesh carries. */
  datatype PowerUpKind = Shield | Speed

  datatype PowerUp = PowerUp(position: Vec3, kind: PowerUpKind)

  /** The steering flags held in the `keys` ref. */
  datatype Keys = Keys(left: bool, right: bool)

  /** The `Math.random()` values one spawn frame consumes, in the order the code draws them:
      five for the asteroid, one for the power-up chance, and two for the power-up. */
  datatype SpawnDraws = SpawnDraws(
    size: real, x: real, z: real, rotationX: real, rotationY: real,
    powerUpChance: real,
    powerUpX: real, powerUpKind: real)

  /** What `Math.random()` guarantees of a value: it lies in [0, 1). */
  predicate UnitDraw(r: real) {
    0.0 <= r < 1.0
  }

  predicate ValidDraws(d: SpawnDraws) {
    && UnitDraw(d.size) && UnitDraw(d.x) && UnitDraw(d.z)
    && UnitDraw(d.rotationX) && UnitDraw(d.rotationY)
    && UnitDraw(d.powerUpChance) && UnitDraw(d.powerUpX) && UnitDraw(d.powerUpKind)
  }

  /** The asteroid `createAsteroid` builds from its draws. It appears at the top of the
      play-field; with genuine draws its radius lies in [0.5, 1.3), its x in the lane
      [-10, 10), its depth in [-1, 1) and both rotations in [0, PI). */
  function NewAsteroid(d: SpawnDraws): (a: Asteroid)
    ensures a.position.y == AsteroidSpawnY
    ensures ValidDraws(d) ==>
      && 0.5 <= a.size < 1.3
      && -LaneLimit <= a.position.x < LaneLimit
      && -1.0 <= a.position.z < 1.0
      && 0.0 <= a.rotationX < Pi && 0.0 <= a.rotationY < Pi
  {
    Asteroid(
      d.size * 0.8 + 0.5,
      Vec3(d.x * 20.0 - 10.0, AsteroidSpawnY, d.z * 2.0 - 1.0),
      d.rotationX * Pi,
      d.rotationY * Pi)
  }

  /** The power-up `createPowerUp` builds: at height 15 and depth 0, in the lane [-10, 10)
      with genuine draws, a shield for a kind draw below 0.5 and a speed boost otherwise. */
  function NewPowerUp(d: SpawnDraws): (p: PowerUp)
    ensures p.position.y == PowerUpSpawnY && p.position.z == 0.0
    ensures ValidDraws(d) ==> -LaneLimit <= p.position.x < LaneLimit
    ensures p.kind == Shield <==> d.powerUpKind < 0.5
  {
    PowerUp(
      Vec3(d.powerUpX * 20.0 - 10.0, PowerUpSpawnY, 0.0),
      if d.powerUpKind < 0.5 then Shield else Speed)
  }
}
