/** Tunables of the game server (GAME_CONFIG and the literals of the game rules). */
module Config {

  const MapRadius: int := 2000
  const TickRate: int := 60
  const NetworkRate: int := 20
  const FoodCount: nat := 300
  const InitialLength: nat := 10
  const SnakeSpeed: int := 3
  const BoostSpeed: int := 6
  const SegmentDistance: int := 15
  const FoodValue: int := 1
  const ViewDistance: int := 800

  const Palette: seq<string> := [
    "#e74c3c", "#3498db", "#2ecc71", "#9b59b6", "#f39c12",
    "#1abc9c", "#e91e63", "#00bcd4", "#ff5722", "#795548"
  ]

  /** Simulation ticks per snapshot: TICK_RATE / NETWORK_RATE, exactly 3. */
  const TicksPerSnapshot: nat := TickRate / NetworkRate

  /** Radii of the collision tests in the tick. */
  const EatRadius: int := 20
  const BodyRadius: int := 15
  const SelfRadius: int := 10
  /** Own segments before this index never kill their owner. */
  const SelfSkip: nat := 10

  /** Entries kept on the leaderboard. */
  const LeaderboardSize: nat := 10

  /** Probability per tick that boosting sheds a segment. */
  const BoostDropChance: real := 0.1
  /** Fraction of the wrapped heading difference applied per tick. */
  const TurnFactor: real := 0.1
  /** Dropped food lands within [-JitterHalf, JitterHalf) of its segment on each axis. */
  const JitterHalf: real := 10.0
  /** Food spawns strictly inside this radius ((MAP_RADIUS - 100) times a draw in [0, 1)). */
  const FoodSpawnRadius: int := MapRadius - 100
  /** Players spawn strictly inside this radius (MAP_RADIUS / 2 times a draw in [0, 1)). */
  const PlayerSpawnRadius: int := MapRadius / 2

  /** Math.PI and -Math.PI / 2 as the nearest doubles print. */
  const Pi: real := 3.141592653589793
  const StartAngle: real := -1.5707963267948966
}
