/** Snakes: the player record, its creation (`createPlayer`) and the geometry of one move. */
module Snakes {
  import opened Config
  import opened Entities
  import opened Chance

  /**
   * `name || \`Player ${id.substring(0, 4)}\``. An absent name (undefined,
   * null) is None; the empty string is the other falsy name.
   */
  function DisplayName(id: Id, name: Option<string>): (r: string)
    ensures |r| > 0
    ensures name.Some? && name.value != "" ==> r == name.value
    ensures name.None? || name.value == "" ==> r == "Player " + id[..Min(4, |id|)]
  {
    if name.Some? && name.value != "" then name.value else "Player " + id[..Min(4, |id|)]
  }

  /** A body as `createPlayer` lays it out: INITIAL_SNAKE_LENGTH points spaced SEGMENT_DISTANCE apart along +y. */
  predicate FreshBody(segs: seq<Point>, start: Point)
  {
    && |segs| == InitialLength
    && forall i :: 0 <= i < |segs| ==> segs[i] == Point(start.x, start.y + (i * SegmentDistance) as real)
  }

  /** The segment loop of `createPlayer`. */
  method InitialSegments(start: Point) returns (segs: seq<Point>)
    ensures FreshBody(segs, start)
  {
    segs := [];
    var i := 0;
    while i < InitialLength
      invariant 0 <= i <= InitialLength && |segs| == i
      invariant forall j :: 0 <= j < i ==> segs[j] == Point(start.x, start.y + (j * SegmentDistance) as real)
    {
      segs := segs + [Point(start.x, start.y + (i * SegmentDistance) as real)];
      i := i + 1;
    }
  }

  /** A player record; the game rules update its body, heading, boost flag, score and liveness in place. */
  class Player {
    const id: Id
    const name: string
    const color: string
    const speed: int
    var segments: seq<Point>
    var angle: real
    var targetAngle: real
    var boosting: bool
    var score: int
    var alive: bool

    /** What every rule keeps: a body never shorter than the starting length, a score never below zero. */
    ghost predicate Valid()
      reads this
    {
      |segments| >= InitialLength && score >= 0 && |name| > 0
    }

    constructor (id: Id, name: string, color: string, segments: seq<Point>)
      requires |segments| >= InitialLength && |name| > 0
      ensures Valid()
      ensures this.id == id && this.name == name && this.color == color && this.segments == segments
      ensures speed == SnakeSpeed && angle == StartAngle && targetAngle == StartAngle
      ensures !boosting && score == 0 && alive
    {
      this.id := id;
      this.name := name;
      this.color := color;
      this.segments := segments;
      this.speed := SnakeSpeed;
      this.angle := StartAngle;
      this.targetAngle := StartAngle;
      this.boosting := false;
      this.score := 0;
      this.alive := true;
    }
  }

  /** The copy of a player's public fields that a snapshot carries. */
  function View(p: Player): (v: PlayerView)
    reads p
  {
    PlayerView(p.id, p.name, p.color, p.segments, p.score, p.alive)
  }

  /** `p` is as `createPlayer(id, ...)` leaves a player that ends up named `name`. */
  ghost predicate Newborn(p: Player, id: Id, name: string)
    reads p
  {
    && p.Valid()
    && p.id == id && p.name == name && p.color in Palette
    && FreshBody(p.segments, p.segments[0])
    && Norm2(p.segments[0]) < (PlayerSpawnRadius * PlayerSpawnRadius) as real
    && p.speed == SnakeSpeed && p.angle == StartAngle && p.targetAngle == StartAngle
    && !p.boosting && p.score == 0 && p.alive
  }

  /** `createPlayer(id, name)`: a fresh, living, straight snake somewhere in the inner half of the arena. */
  method CreatePlayer(id: Id, name: Option<string>) returns (p: Player)
    ensures fresh(p) && Newborn(p, id, DisplayName(id, name))
  {
    var start := RandomPointInDisc(PlayerSpawnRadius);
    var color := RandomColor();
    var segs := InitialSegments(start);
    assert segs[0] == start;
    p := new Player(id, DisplayName(id, name), color, segs);
  }

  /** The displacement of one tick: the heading `dir = (cos, sin)` scaled by `speed`. */
  function Velocity(dir: Point, speed: int): (v: Point)
  {
    Point(dir.x * speed as real, dir.y * speed as real)
  }

  /** The head position one tick ahead: `head + v`. */
  function Step(head: Point, v: Point): (r: Point)
  {
    Point(head.x + v.x, head.y + v.y)
  }

  /** A step along a unit heading scaled by `speed` moves the head exactly `speed` units. */
  lemma StepLength(head: Point, dir: Point, speed: int)
    requires IsUnit(dir)
    ensures Dist2(Step(head, Velocity(dir, speed)), head) == (speed * speed) as real
  {
    var s := speed as real;
    calc {
      Dist2(Step(head, Velocity(dir, speed)), head);
      (dir.x * s) * (dir.x * s) + (dir.y * s) * (dir.y * s);
      s * s * Norm2(dir);
    }
  }

  /** Some segment of `segs` from index `from` on lies within `r` of `head`. */
  predicate Touches(head: Point, segs: seq<Point>, r: int, from: nat)
  {
    exists i :: from <= i < |segs| && Within(segs[i], head, r)
  }

  /** The segment scans of `checkCollisions`: another body from index 0, the own body from index 10. */
  method ScanBody(head: Point, segs: seq<Point>, r: int, from: nat) returns (hit: bool)
    ensures hit <==> Touches(head, segs, r, from)
  {
    var i := from;
    while i < |segs|
      invariant from <= i
      invariant forall j :: from <= j < i && j < |segs| ==> !Within(segs[j], head, r)
    {
      if Within(segs[i], head, r) {
        return true;
      }
      i := i + 1;
    }
    return false;
  }

  /** The move: `unshift(newHead)` then `pop()`. */
  function Advance(segs: seq<Point>, newHead: Point): (r: seq<Point>)
    requires |segs| > 0
    ensures |r| == |segs| && r[0] == newHead
    ensures forall i :: 0 < i < |r| ==> r[i] == segs[i - 1]
  {
    [newHead] + segs[..|segs| - 1]
  }
}
