/**
 * One tick of a snake's motion (`updatePlayer` after steering): the boost
 * cost, the step of the head, and death at the arena boundary, as a value
 * computed from the snake's body and score.
 */
module Movement {
  import opened Config
  import opened Entities
  import opened Chance
  import opened Feeding
  import opened Snakes

  /** A snake's body, score and life after one tick, and the points where it left food. */
  datatype Motion = Motion(segments: seq<Point>, score: int, alive: bool, drops: seq<Point>)

  function Speed(boosting: bool): (r: int)
  {
    if boosting then BoostSpeed else SnakeSpeed
  }

  /** Whether boosting sheds a segment this tick (`roll` is the `Math.random()` draw). */
  predicate BoostSheds(boosting: bool, length: nat, roll: real)
  {
    boosting && length > InitialLength && roll < BoostDropChance
  }

  /** The new head is strictly outside the arena. */
  predicate OutOfArena(head: Point)
  {
    Norm2(head) > (MapRadius * MapRadius) as real
  }

  /** What `atan2(sin d, cos d)` is known to be for the heading difference `d = target - angle`. */
  predicate Steering(angle: real, target: real, steer: real)
  {
    -Pi <= steer <= Pi && (target == angle ==> steer == 0.0)
  }

  /** The boost cost: a boosting snake longer than INITIAL_LENGTH may turn its tail into food and lose a point. */
  function Shed(segs: seq<Point>, score: int, boosting: bool, roll: real): (m: Motion)
    requires |segs| > 0
    ensures m.alive && |m.segments| > 0 && m.segments[0] == segs[0]
    ensures m.segments + m.drops == segs
    ensures m.drops == if BoostSheds(boosting, |segs|, roll) then [segs[|segs| - 1]] else []
    ensures m.score == if m.drops == [] then score else Max(0, score - 1)
  {
    if BoostSheds(boosting, |segs|, roll) then
      assert segs[..|segs| - 1] + [segs[|segs| - 1]] == segs;
      Motion(segs[..|segs| - 1], Max(0, score - 1), true, [segs[|segs| - 1]])
    else
      assert segs + [] == segs;
      Motion(segs, score, true, [])
  }

  /**
   * `updatePlayer` for a living snake, after steering: pay the boost cost,
   * step the head along the unit heading `dir`, and either die outside the
   * arena (dropping food on every other segment) or advance the body.
   */
  function Slither(segs: seq<Point>, score: int, boosting: bool, roll: real, v: Point): (m: Motion)
    requires |segs| > 0
    ensures m.alive <==> !OutOfArena(Step(segs[0], v))
    ensures |m.segments| > 0
    ensures |segs| >= InitialLength ==> |m.segments| >= InitialLength
    ensures score >= 0 ==> 0 <= m.score <= score
    ensures m.alive ==> !OutOfArena(m.segments[0])
  {
    var s := Shed(segs, score, boosting, roll);
    var head := Step(segs[0], v);
    if OutOfArena(head) then
      Motion(s.segments, s.score, false, s.drops + Strided(s.segments, 2))
    else
      Motion(Advance(s.segments, head), s.score, true, s.drops)
  }

  /**
   * Nothing of the body is lost: a surviving snake's body follows its old
   * head and its shed tail became food; a dead snake keeps its body and
   * drops its shed tail, then food on every other segment.
   */
  lemma SlitherBody(segs: seq<Point>, score: int, boosting: bool, roll: real, v: Point)
    requires |segs| > 0
    ensures var m := Slither(segs, score, boosting, roll, v);
      && (m.alive ==> |m.segments| + |m.drops| == |segs|)
      && (m.alive ==> forall i :: 0 < i < |m.segments| ==> m.segments[i] == segs[i - 1])
      && (!m.alive ==>
            var trail := Strided(m.segments, 2);
            && |trail| <= |m.drops|
            && m.drops[|m.drops| - |trail|..] == trail
            && m.segments + m.drops[..|m.drops| - |trail|] == segs)
  {
    var s := Shed(segs, score, boosting, roll);
    var m := Slither(segs, score, boosting, roll, v);
    if m.alive {
      assert |s.segments + s.drops| == |segs|;
    } else {
      var trail := Strided(s.segments, 2);
      assert m.drops == s.drops + trail;
      assert m.drops[|s.drops|..] == trail && m.drops[..|s.drops|] == s.drops;
    }
  }

  /** A surviving snake's head moves exactly its speed along a unit heading. */
  lemma SlitherStep(segs: seq<Point>, score: int, boosting: bool, roll: real, dir: Point)
    requires |segs| > 0 && IsUnit(dir)
    ensures var m := Slither(segs, score, boosting, roll, Velocity(dir, Speed(boosting)));
      m.alive ==> Dist2(m.segments[0], segs[0]) == (Speed(boosting) * Speed(boosting)) as real
  {
    StepLength(segs[0], dir, Speed(boosting));
  }

  /** `Math.atan2(Math.sin(d), Math.cos(d))` for `d = target - angle`, known only through Steering. */
  method Turn(angle: real, target: real) returns (steer: real)
    ensures Steering(angle, target, steer)
  {
    assert Steering(angle, target, 0.0);
    steer :| Steering(angle, target, steer);
  }

  /** `(Math.cos(a), Math.sin(a))`, known only to be a unit vector. */
  method Heading(a: real) returns (dir: Point)
    ensures IsUnit(dir)
  {
    assert IsUnit(Point(1.0, 0.0));
    dir :| IsUnit(dir);
  }
}
