/** The simulation of one `animate` call and of `startGame` in src/AsteroidDodger.jsx,
    as functions on a snapshot of the component's state.

    The asteroid pass is `forEach` with `splice` inside it. `forEach` fixes the
    number of iterations at the start and visits index k on iteration k, so
    after the asteroid at index k is spliced out its successor slides into index
    k and is never visited. `FateAt` states that rule on the ORIGINAL list: an
    asteroid is skipped exactly when the asteroid before it was visited and
    removed. The component's loop is proved to agree with it. */
module DodgerTick {
  import opened DodgerState

  /** Whether the ship's bounding box meets the asteroid's (three.js `Box3.intersectsBox`
      of the two `setFromObject` boxes), as an uninterpreted relation. */
  type Overlap = (Pose, Asteroid) -> bool

  /** Everything the simulation reads or writes: the `gameStateRef` record, the `keys` ref
      and the three React state variables, which are plain fields here. */
  datatype Sim = Sim(
    ship: Pose,
    asteroids: seq<Asteroid>,
    powerUps: seq<PowerUp>,
    playerAlive: bool,
    gameSpeed: real,
    shieldActive: bool,
    speedBoost: bool,
    frameCount: nat,
    keys: Keys,
    score: int,
    gameOver: bool,
    isPlaying: bool)

  /** The state when the component has mounted: the record's initial values, no keys held,
      React state at zero, and the ship placed at (0, -5, 0) with rotation.z = PI. */
  function Mounted(): Sim {
    Sim(Pose(Vec3(0.0, -5.0, 0.0), Pi), [], [], true, InitialSpeed, false, false, 0,
        Keys(false, false), 0, false, false)
  }

  /** `startGame`: empty both lists, put the ship back at (0, -5, 0) with rotation.z = 0,
      reset the record and the React state. The keys are not touched. */
  function Start(s: Sim): Sim {
    s.(ship := Pose(Vec3(0.0, -5.0, 0.0), 0.0),
       asteroids := [], powerUps := [],
       playerAlive := true, gameSpeed := InitialSpeed,
       shieldActive := false, speedBoost := false, frameCount := 0,
       score := 0, gameOver := false, isPlaying := true)
  }

  /** Ship steering. Each direction is GUARDED, not clamped: the ship moves left only
      from x > -10 and right only from x < 10, and the right test sees the x the left
      step produced. */
  function Steer(ship: Pose, keys: Keys, speedBoost: bool): Pose {
    var step := if speedBoost then BoostStep else NormalStep;
    var x1 := if keys.left && ship.position.x > -LaneLimit then ship.position.x - step else ship.position.x;
    var x2 := if keys.right && x1 < LaneLimit then x1 + step else x1;
    ship.(position := ship.position.(x := x2))
  }

  /** A spawn frame: one asteroid pushed, a power-up pushed when the chance draw is below
      0.1, ten points, and 0.001 more speed. */
  function Spawn(s: Sim, d: SpawnDraws): Sim {
    s.(asteroids := s.asteroids + [NewAsteroid(d)],
       powerUps := if d.powerUpChance < PowerUpChance then s.powerUps + [NewPowerUp(d)] else s.powerUps,
       score := s.score + SpawnReward,
       gameSpeed := s.gameSpeed + SpeedIncrement)
  }

  /** One visit of the `forEach` callback to an asteroid: it drops by `speed` and spins. */
  function Drift(a: Asteroid, speed: real): Asteroid {
    a.(position := a.position.(y := a.position.y - speed),
       rotationX := a.rotationX + Spin, rotationY := a.rotationY + Spin)
  }

  predicate Escapes(a: Asteroid) {
    a.position.y < FloorY
  }

  /** What the asteroid pass does to an asteroid of the list it starts from. */
  datatype Fate =
    | Moved    // visited, dropped, still in the list
    | Escaped  // visited, dropped below the floor and spliced out
    | Skipped  // not visited: its predecessor was spliced out, so it slid into a visited index

  function FateAt(src: seq<Asteroid>, speed: real, i: nat): Fate
    requires i < |src|
  {
    if i > 0 && FateAt(src, speed, i - 1) == Escaped then Skipped
    else if Escapes(Drift(src[i], speed)) then Escaped
    else Moved
  }

  /** What asteroid i leaves in the list after the pass. */
  function Outcome(src: seq<Asteroid>, speed: real, i: nat): (r: seq<Asteroid>)
    requires i < |src|
    ensures |r| <= 1
  {
    match FateAt(src, speed, i)
    case Moved => [Drift(src[i], speed)]
    case Skipped => [src[i]]
    case Escaped => []
  }

  /** The list left by the pass over the first n asteroids of `src`; never longer than n. */
  function SurvivorsUpTo(src: seq<Asteroid>, speed: real, n: nat): (r: seq<Asteroid>)
    requires n <= |src|
    ensures |r| <= n
  {
    if n == 0 then [] else SurvivorsUpTo(src, speed, n - 1) + Outcome(src, speed, n - 1)
  }

  function Survivors(src: seq<Asteroid>, speed: real): seq<Asteroid> {
    SurvivorsUpTo(src, speed, |src|)
  }

  /** Asteroid i kills an unshielded ship: it was visited (moved or removed, both are
      tested) and its dropped box meets the ship's. */
  predicate FatalAt(src: seq<Asteroid>, speed: real, ship: Pose, shield: bool, overlap: Overlap, i: nat)
    requires i < |src|
  {
    !shield && FateAt(src, speed, i) != Skipped && overlap(ship, Drift(src[i], speed))
  }

  /** Some asteroid among the first n is fatal. */
  predicate FatalAmong(src: seq<Asteroid>, speed: real, ship: Pose, shield: bool, overlap: Overlap, n: nat)
    requires n <= |src|
  {
    n > 0 && (FatalAmong(src, speed, ship, shield, overlap, n - 1) || FatalAt(src, speed, ship, shield, overlap, n - 1))
  }

  /** Where the visit after the one at index j of `src` lands: past the successor when the
      asteroid at j is spliced out, since the successor slides into the visited index. */
  function NextVisit(src: seq<Asteroid>, speed: real, j: nat): nat
    requires j < |src|
  {
    if Escapes(Drift(src[j], speed)) && j + 1 < |src| then j + 2 else j + 1
  }

  /** Index j of `src` is one the pass visits next: it is not the successor of a spliced-out asteroid. */
  predicate VisitPoint(src: seq<Asteroid>, speed: real, j: nat) {
    j == 0 || j >= |src| || FateAt(src, speed, j - 1) != Escaped
  }

  /** The step from one visit point of the pass to the next: what the list looks like after
      visiting j, and that the fatal test gains exactly the visited asteroid. */
  lemma VisitAdvances(src: seq<Asteroid>, speed: real, ship: Pose, shield: bool, overlap: Overlap, j: nat)
    requires j < |src| && VisitPoint(src, speed, j)
    ensures var a := Drift(src[j], speed);
      var next := NextVisit(src, speed, j);
      var done := SurvivorsUpTo(src, speed, j);
      && next <= |src|
      && VisitPoint(src, speed, next)
      && (next < |src| ==> |SurvivorsUpTo(src, speed, next)| == |done| + 1)
      && |SurvivorsUpTo(src, speed, next)| <= |done| + 1
      && SurvivorsUpTo(src, speed, next) + src[next..]
         == (if Escapes(a) then done + src[j + 1..] else done + [a] + src[j + 1..])
      && FatalAmong(src, speed, ship, shield, overlap, next)
         == (FatalAmong(src, speed, ship, shield, overlap, j) || (!shield && overlap(ship, a)))
  {
    var a := Drift(src[j], speed);
    var done := SurvivorsUpTo(src, speed, j);
    assert FateAt(src, speed, j) != Skipped;
    if Escapes(a) {
      assert SurvivorsUpTo(src, speed, j + 1) == done;
      if j + 1 < |src| {
        assert FateAt(src, speed, j + 1) == Skipped;
        assert SurvivorsUpTo(src, speed, j + 2) == done + [src[j + 1]];
        assert src[j + 1..] == [src[j + 1]] + src[j + 2..];
      }
    } else {
      assert SurvivorsUpTo(src, speed, j + 1) == done + [a];
    }
  }

  /** In a list `done + src[j..]`, replacing the element after `done` with `y`, and then
      splicing that element out. */
  lemma ReplaceAndSplice<T>(list: seq<T>, done: seq<T>, src: seq<T>, j: nat, y: T)
    requires j < |src| && list == done + src[j..]
    ensures |done| < |list| && list[|done|] == src[j]
    ensures list[|done| := y] == done + [y] + src[j + 1..]
    ensures list[|done| := y][..|done|] + list[|done| := y][|done| + 1..] == done + src[j + 1..]
  {
    var k := |done|;
    assert src[j..] == [src[j]] + src[j + 1..];
    var u := list[k := y];
    assert u == done + [y] + src[j + 1..];
    assert u[..k] == done;
    assert u[k + 1..] == src[j + 1..];
  }

  /** The list a visit at index k leaves: the asteroid there replaced by its drifted self,
      which is spliced out when it has fallen below the floor. */
  function AfterVisit(list: seq<Asteroid>, k: nat, a: Asteroid): seq<Asteroid>
    requires k < |list|
  {
    var replaced := list[k := a];
    if a.position.y < FloorY then replaced[..k] + replaced[k + 1..] else replaced
  }

  /** The state of the `forEach` pass over `src` at iteration k: the visits so far have
      covered the asteroids of `src` before index j, `list` is what the splices left, and
      `hit` says whether one of the visited asteroids was fatal. */
  predicate PassAt(src: seq<Asteroid>, speed: real, ship: Pose, shield: bool, overlap: Overlap,
                   j: nat, k: nat, list: seq<Asteroid>, hit: bool)
  {
    && j <= |src| && k <= |src|
    && VisitPoint(src, speed, j)
    && list == SurvivorsUpTo(src, speed, j) + src[j..]
    && (j < |src| ==> |SurvivorsUpTo(src, speed, j)| == k)
    && (j == |src| ==> |SurvivorsUpTo(src, speed, j)| <= k)
    && hit == FatalAmong(src, speed, ship, shield, overlap, j)
  }

  lemma PassBegins(src: seq<Asteroid>, speed: real, ship: Pose, shield: bool, overlap: Overlap)
    ensures PassAt(src, speed, ship, shield, overlap, 0, 0, src, false)
  {
  }

  /** Iteration k finds an asteroid at index k: it is asteroid j of `src`, and after the
      callback the pass is at the next visit point. */
  lemma PassVisits(src: seq<Asteroid>, speed: real, ship: Pose, shield: bool, overlap: Overlap,
                   j: nat, k: nat, list: seq<Asteroid>, hit: bool)
    requires PassAt(src, speed, ship, shield, overlap, j, k, list, hit) && k < |list|
    ensures j < |src| && list[k] == src[j]
    ensures var a := Drift(list[k], speed);
      PassAt(src, speed, ship, shield, overlap, NextVisit(src, speed, j), k + 1,
             AfterVisit(list, k, a), hit || (!shield && overlap(ship, a)))
  {
    VisitAdvances(src, speed, ship, shield, overlap, j);
    ReplaceAndSplice(list, SurvivorsUpTo(src, speed, j), src, j, Drift(src[j], speed));
  }

  /** Iteration k finds no asteroid at index k (the list has shrunk): nothing happens. */
  lemma PassPassesHole(src: seq<Asteroid>, speed: real, ship: Pose, shield: bool, overlap: Overlap,
                       j: nat, k: nat, list: seq<Asteroid>, hit: bool)
    requires PassAt(src, speed, ship, shield, overlap, j, k, list, hit) && |list| <= k < |src|
    ensures PassAt(src, speed, ship, shield, overlap, j, k + 1, list, hit)
  {
  }

  /** After as many iterations as `src` had asteroids, the pass has left the survivors and
      has tested exactly the visited asteroids. */
  lemma PassEnds(src: seq<Asteroid>, speed: real, ship: Pose, shield: bool, overlap: Overlap,
                 j: nat, list: seq<Asteroid>, hit: bool)
    requires PassAt(src, speed, ship, shield, overlap, j, |src|, list, hit)
    ensures list == Survivors(src, speed)
    ensures hit == FatalAmong(src, speed, ship, shield, overlap, |src|)
  {
  }

  /** Steering phase of `animate`. */
  function SteerPhase(s: Sim): Sim {
    s.(ship := Steer(s.ship, s.keys, s.speedBoost))
  }

  /** Spawn phase of `animate`: a spawn exactly on frames whose count is a multiple of 60. */
  function SpawnPhase(s: Sim, d: SpawnDraws): Sim {
    if s.frameCount % SpawnPeriod == 0 then Spawn(s, d) else s
  }

  /** Asteroid phase of `animate`: the `forEach` pass; a fatal asteroid kills the player and
      raises the game-over flags. */
  function PassPhase(s: Sim, overlap: Overlap): Sim {
    var src := s.asteroids;
    var hit := FatalAmong(src, s.gameSpeed, s.ship, s.shieldActive, overlap, |src|);
    s.(asteroids := Survivors(src, s.gameSpeed),
       playerAlive := s.playerAlive && !hit,
       gameOver := s.gameOver || hit,
       isPlaying := s.isPlaying && !hit)
  }

  /** One call of `animate` with the asteroid and power-up draws `d` and the collision relation
      `overlap`. A frame that starts with the player dead only raises the game-over flags;
      any other frame steers, spawns, runs the asteroid pass and counts itself. */
  function Tick(s: Sim, d: SpawnDraws, overlap: Overlap): (r: Sim)
    ensures r.frameCount == s.frameCount + (if s.playerAlive then 1 else 0)
    ensures s.playerAlive ==> r.score == s.score + (if s.frameCount % SpawnPeriod == 0 then SpawnReward else 0)
    ensures s.playerAlive ==> r.gameSpeed == s.gameSpeed + (if s.frameCount % SpawnPeriod == 0 then SpeedIncrement else 0.0)
    ensures !s.playerAlive ==> r == s.(gameOver := true, isPlaying := false)
    ensures r.playerAlive ==> s.playerAlive
    ensures r.keys == s.keys && r.shieldActive == s.shieldActive && r.speedBoost == s.speedBoost
    ensures r.ship.position.y == s.ship.position.y && r.ship.position.z == s.ship.position.z
    ensures r.ship.rotationZ == s.ship.rotationZ
  {
    if !s.playerAlive then s.(gameOver := true, isPlaying := false)
    else
      var passed := PassPhase(SpawnPhase(SteerPhase(s), d), overlap);
      passed.(frameCount := passed.frameCount + 1)
  }

  /** Whether `animate` requests the next frame: only when the frame began and ended with the player alive. */
  predicate Reschedules(s: Sim, d: SpawnDraws, overlap: Overlap) {
    s.playerAlive && Tick(s, d, overlap).playerAlive
  }
}
