/**
 * The game's sources of chance and time. Each draw is a nondeterministic
 * choice limited to the range the runtime guarantees.
 */
module Chance {
  import opened Config
  import opened Entities

  predicate UnitInterval(r: real)
  {
    0.0 <= r < 1.0
  }

  predicate IsUnit(d: Point)
  {
    Norm2(d) == 1.0
  }

  /** `Math.random()`. */
  method Random() returns (r: real)
    ensures 0.0 <= r < 1.0
  {
    assert UnitInterval(0.0);
    r :| UnitInterval(r);
    assert UnitInterval(r);
  }

  /** `(Math.cos(a), Math.sin(a))` for a random angle `a`. */
  method RandomDirection() returns (d: Point)
    ensures IsUnit(d)
  {
    assert IsUnit(Point(1.0, 0.0));
    d :| IsUnit(d);
  }

  /** `SNAKE_COLORS[Math.floor(Math.random() * SNAKE_COLORS.length)]`. */
  method RandomColor() returns (c: string)
    ensures c in Palette
  {
    var r := Random();
    var k := (r * |Palette| as real).Floor;
    c := Palette[k];
  }

  /** `(Math.random() - 0.5) * 20`: the jitter of a dropped food item along one axis. */
  method Jitter() returns (d: real)
    ensures -JitterHalf <= d < JitterHalf
  {
    var r := Random();
    d := (r - 0.5) * (2.0 * JitterHalf);
  }

  /**
   * `(Math.cos(a) * radius, Math.sin(a) * radius)` with a random angle `a`
   * and `radius = Math.random() * bound`: a point strictly inside the disc.
   */
  method RandomPointInDisc(bound: nat) returns (pt: Point)
    requires bound > 0
    ensures Norm2(pt) < (bound * bound) as real
  {
    var dir := RandomDirection();
    var u := Random();
    var radius := u * bound as real;
    pt := Point(dir.x * radius, dir.y * radius);
    calc {
      Norm2(pt);
      (dir.x * radius) * (dir.x * radius) + (dir.y * radius) * (dir.y * radius);
      radius * radius * Norm2(dir);
      radius * radius;
    }
    var b := bound as real;
    assert u * u <= u < 1.0;
    assert radius * radius == (u * u) * (b * b);
    assert b * b > 0.0;
    assert (u * u) * (b * b) < 1.0 * (b * b);
    assert b * b == (bound * bound) as real;
  }

  /** `Date.now()`, in milliseconds. */
  method Clock() returns (ms: int)
    ensures ms >= 0
  {
    ms :| ms >= 0;
  }
}
