/** The values the game rules pass around: points, food, leaderboard rows and snapshots. */
module Entities {
  import opened Config

  datatype Option<T> = None | Some(value: T)

  function Min(a: int, b: int): (r: int)
  {
    if a < b then a else b
  }

  function Max(a: int, b: int): (r: int)
  {
    if a < b then b else a
  }

  /** `n` copies of `x`. */
  function Repeat<T>(x: T, n: nat): (r: seq<T>)
  {
    seq(n, _ => x)
  }

  predicate Distinct<T(==)>(s: seq<T>)
  {
    forall i, j :: 0 <= i < j < |s| ==> s[i] != s[j]
  }

  /** Socket ids key the player table. */
  type Id = string

  /** A point (or a displacement) in world space. */
  datatype Point = Point(x: real, y: real)

  function Dist2(a: Point, b: Point): (d: real)
  {
    (a.x - b.x) * (a.x - b.x) + (a.y - b.y) * (a.y - b.y)
  }

  /** Squared distance from the centre of the arena. */
  function Norm2(a: Point): (d: real)
  {
    a.x * a.x + a.y * a.y
  }

  /** `sqrt(Dist2(a, b)) < r`, stated without the square root. */
  predicate Within(a: Point, b: Point, r: int)
  {
    Dist2(a, b) < (r * r) as real
  }

  datatype Food = Food(id: int, pos: Point, color: string)

  /** A food item dropped by `dropFood` at `at`: its id and its jittered position. */
  predicate DroppedAt(f: Food, id: int, at: Point)
  {
    && f.id == id
    && at.x - JitterHalf <= f.pos.x < at.x + JitterHalf
    && at.y - JitterHalf <= f.pos.y < at.y + JitterHalf
    && f.color in Palette
  }

  /** `added` is one dropped item per target, with ids counting up from `base`. */
  predicate DropsAt(added: seq<Food>, base: int, targets: seq<Point>)
  {
    && |added| == |targets|
    && forall j :: 0 <= j < |added| ==> DroppedAt(added[j], base + j, targets[j])
  }

  /** `after` is `before` followed by the drops for `targets`. */
  predicate Appended(before: seq<Food>, after: seq<Food>, targets: seq<Point>)
  {
    && |before| <= |after|
    && after[..|before|] == before
    && DropsAt(after[|before|..], |before|, targets)
  }

  /** Two rounds of appending drops are one round over the joined targets. */
  lemma AppendedTrans(a: seq<Food>, b: seq<Food>, c: seq<Food>, t1: seq<Point>, t2: seq<Point>)
    requires Appended(a, b, t1) && Appended(b, c, t2)
    ensures Appended(a, c, t1 + t2)
  {
    assert c[..|a|] == b[..|b|][..|a|];
    forall j | 0 <= j < |c| - |a|
      ensures DroppedAt(c[|a|..][j], |a| + j, (t1 + t2)[j])
    {
      if j < |t1| {
        assert c[|a|..][j] == b[|a|..][j];
      } else {
        assert c[|a|..][j] == c[|b|..][j - |t1|];
      }
    }
  }

  /** A food item made by `createFood`: anywhere strictly inside the spawn disc. */
  predicate Spawned(f: Food)
  {
    Norm2(f.pos) < (FoodSpawnRadius * FoodSpawnRadius) as real && f.color in Palette
  }

  /** A leaderboard row. */
  datatype Entry = Entry(name: string, score: int, length: nat)

  /** The copy of a player that goes into every snapshot. */
  datatype PlayerView = PlayerView(id: Id, name: string, color: string, segments: seq<Point>, score: int, alive: bool)

  /** The `gameState` message built for one viewer. */
  datatype Snapshot = Snapshot(players: seq<PlayerView>, food: seq<Food>, leaderboard: seq<Entry>, mapRadius: int)

  datatype Outgoing = Outgoing(to: Id, state: Snapshot)

  /** A scheduled respawn callback: what the closure captured of the dead player. */
  datatype Respawn = Respawn(id: Id, name: string)
}
