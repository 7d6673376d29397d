/**
 * Food: the distance filters over the food array (`getNearbyFood` and the
 * eating scan), the trail of food a dying or leaving snake leaves behind,
 * and the creation of fresh food.
 */
module Feeding {
  import opened Config
  import opened Entities
  import opened Chance

  /** The items of `food`, in order, whose distance from `c` is below `r` (`near`) or not (`!near`). */
  function Select(food: seq<Food>, c: Point, r: int, near: bool): (s: seq<Food>)
    ensures |s| <= |food|
  {
    if food == [] then []
    else (if Within(food[0].pos, c, r) == near then [food[0]] else []) + Select(food[1..], c, r, near)
  }

  /** Select keeps each item on the chosen side of the radius as often as it occurs, and no other. */
  lemma {:induction false} SelectCount(food: seq<Food>, c: Point, r: int, near: bool, f: Food)
    ensures multiset(Select(food, c, r, near))[f] == if Within(f.pos, c, r) == near then multiset(food)[f] else 0
  {
    if food != [] {
      var head := if Within(food[0].pos, c, r) == near then [food[0]] else [];
      var rest := Select(food[1..], c, r, near);
      SelectCount(food[1..], c, r, near, f);
      assert Select(food, c, r, near) == head + rest;
      assert multiset(head + rest) == multiset(head) + multiset(rest);
      assert food == [food[0]] + food[1..];
      assert multiset(food) == multiset{food[0]} + multiset(food[1..]);
    }
  }

  /** Select keeps exactly the items on the chosen side of the radius, each as often as it occurs. */
  lemma SelectExact(food: seq<Food>, c: Point, r: int, near: bool, f: Food)
    ensures multiset(Select(food, c, r, near))[f] == if Within(f.pos, c, r) == near then multiset(food)[f] else 0
    ensures f in Select(food, c, r, near) <==> f in food && Within(f.pos, c, r) == near
  {
    SelectCount(food, c, r, near, f);
    assert f in Select(food, c, r, near) <==> multiset(Select(food, c, r, near))[f] > 0;
    assert f in food <==> multiset(food)[f] > 0;
  }

  /** Select keeps the original order: filtering a concatenation filters each part. */
  lemma {:induction false} SelectAppend(a: seq<Food>, b: seq<Food>, c: Point, r: int, near: bool)
    ensures Select(a + b, c, r, near) == Select(a, c, r, near) + Select(b, c, r, near)
  {
    if a == [] {
      assert a + b == b;
    } else {
      var head := if Within(a[0].pos, c, r) == near then [a[0]] else [];
      calc {
        Select(a + b, c, r, near);
        { assert (a + b)[0] == a[0]; assert (a + b)[1..] == a[1..] + b; }
        head + Select(a[1..] + b, c, r, near);
        { SelectAppend(a[1..], b, c, r, near); }
        head + (Select(a[1..], c, r, near) + Select(b, c, r, near));
        (head + Select(a[1..], c, r, near)) + Select(b, c, r, near);
      }
    }
  }

  /** Every item is on exactly one side of the radius. */
  lemma {:induction false} SelectSplit(food: seq<Food>, c: Point, r: int)
    ensures |Select(food, c, r, true)| + |Select(food, c, r, false)| == |food|
  {
    if food != [] {
      SelectSplit(food[1..], c, r);
    }
  }

  /** `getNearbyFood`: the world food a viewer at `viewer` is sent. */
  function NearbyFood(food: seq<Food>, viewer: Point): (r: seq<Food>)
    ensures forall f :: f in r <==> f in food && Within(f.pos, viewer, ViewDistance)
    ensures forall f :: multiset(r)[f] == if Within(f.pos, viewer, ViewDistance) then multiset(food)[f] else 0
  {
    var r := Select(food, viewer, ViewDistance, true);
    forall f ensures (f in r <==> f in food && Within(f.pos, viewer, ViewDistance))
      && multiset(r)[f] == (if Within(f.pos, viewer, ViewDistance) then multiset(food)[f] else 0)
    {
      SelectExact(food, viewer, ViewDistance, true, f);
    }
    r
  }

  /** The elements at indices 0, k, 2k, ... of `s`. */
  function Strided<T>(s: seq<T>, k: nat): (r: seq<T>)
    requires k > 0
    decreases |s|
  {
    if s == [] then [] else [s[0]] + (if |s| <= k then [] else Strided(s[k..], k))
  }

  /** A stride-k pass over a non-empty sequence visits ceil(|s| / k) elements. */
  lemma {:induction false} StridedLength<T>(s: seq<T>, k: nat)
    requires k > 0 && s != []
    ensures (|Strided(s, k)| - 1) * k < |s| <= |Strided(s, k)| * k
  {
    if |s| > k {
      var rest := s[k..];
      StridedLength(rest, k);
      var m := |Strided(rest, k)|;
      assert |Strided(s, k)| == m + 1;
      assert (m - 1) * k + k == m * k;
      assert m * k + k == (m + 1) * k;
    }
  }

  /** Distributing the product: one more stride of k after j - 1 strides is j strides. */
  lemma MulStep(j: int, k: int)
    ensures (j - 1) * k + k == j * k
  {
  }

  /** The j-th element a stride-k pass visits is s[j * k]. */
  lemma {:induction false} StridedAt<T>(s: seq<T>, k: nat, j: nat)
    requires k > 0 && j < |Strided(s, k)|
    ensures j * k < |s| && Strided(s, k)[j] == s[j * k]
    decreases |s|
  {
    if j == 0 {
      assert j * k == 0;
      assert s != [];
    } else {
      assert |s| > k;
      var rest := s[k..];
      assert Strided(s, k)[j] == Strided(rest, k)[j - 1];
      StridedAt(rest, k, j - 1);
      var p := (j - 1) * k;
      assert p + k == j * k by { MulStep(j, k); }
      assert rest[p] == s[p + k];
    }
  }

  /** One more step of a stride-k pass: the visited prefix grows by the next element. */
  lemma StridedStep<T>(s: seq<T>, visited: seq<T>, rest: seq<T>, k: nat)
    requires k > 0 && rest != []
    requires Strided(s, k) == visited + Strided(rest, k)
    ensures Strided(s, k) == (visited + [rest[0]]) + Strided(if |rest| <= k then [] else rest[k..], k)
  {
  }

  /** `killPlayer` visits ceil(n / 2) segments of n: the even indices. */
  lemma EveryOther<T>(s: seq<T>)
    ensures |Strided(s, 2)| == (|s| + 1) / 2
    ensures forall j :: 0 <= j < |Strided(s, 2)| ==> Strided(s, 2)[j] == s[2 * j]
  {
    if s != [] { StridedLength(s, 2); }
    forall j | 0 <= j < |Strided(s, 2)| ensures Strided(s, 2)[j] == s[2 * j] {
      StridedAt(s, 2, j);
    }
  }

  /** A disconnect visits ceil(n / 3) segments of n: every third index. */
  lemma EveryThird<T>(s: seq<T>)
    ensures |Strided(s, 3)| == (|s| + 2) / 3
    ensures forall j :: 0 <= j < |Strided(s, 3)| ==> Strided(s, 3)[j] == s[3 * j]
  {
    if s != [] { StridedLength(s, 3); }
    forall j | 0 <= j < |Strided(s, 3)| ensures Strided(s, 3)[j] == s[3 * j] {
      StridedAt(s, 3, j);
    }
  }

  /** How many items a head at `head` eats from `food`. */
  function Eaten(food: seq<Food>, head: Point): (n: nat)
  {
    |Select(food, head, EatRadius, true)|
  }

  /** One step of the downward eating scan at index `i`: splicing out an eaten item, or keeping one out of reach. */
  lemma ScanStep(food0: seq<Food>, i: nat, head: Point, refills: seq<Food>)
    requires i < |food0|
    ensures var cur := food0[..i + 1] + Select(food0[i + 1..], head, EatRadius, false) + refills;
      var kept := Select(food0[i..], head, EatRadius, false);
      var near := Select(food0[i..], head, EatRadius, true);
      && cur[i] == food0[i]
      && (Within(food0[i].pos, head, EatRadius) ==>
            cur[..i] + cur[i + 1..] == food0[..i] + kept + refills
            && |near| == |Select(food0[i + 1..], head, EatRadius, true)| + 1)
      && (!Within(food0[i].pos, head, EatRadius) ==>
            cur == food0[..i] + kept + refills
            && |near| == |Select(food0[i + 1..], head, EatRadius, true)|)
  {
    assert food0[i..][1..] == food0[i + 1..];
    assert food0[..i + 1] == food0[..i] + [food0[i]];
  }

  /**
   * The food array after the eating scan: the items out of reach, in their
   * old order, followed by one freshly spawned item per item eaten.
   */
  predicate Refilled(before: seq<Food>, after: seq<Food>, head: Point)
  {
    var kept := Select(before, head, EatRadius, false);
    && |after| == |before|
    && after[..|kept|] == kept
    && forall j :: |kept| <= j < |after| ==> Spawned(after[j])
  }

  /** `createFood(id)`: a fresh item with the given id somewhere inside the spawn disc. */
  method CreateFood(id: int) returns (f: Food)
    ensures f.id == id && Spawned(f)
  {
    var pos := RandomPointInDisc(FoodSpawnRadius);
    var color := RandomColor();
    f := Food(id, pos, color);
  }

  /** `generateFood`: the initial FOOD_COUNT items, with ids 0 .. FOOD_COUNT - 1. */
  method GenerateFood() returns (food: seq<Food>)
    ensures |food| == FoodCount
    ensures forall i :: 0 <= i < |food| ==> food[i].id == i && Spawned(food[i])
  {
    food := [];
    var i := 0;
    while i < FoodCount
      invariant 0 <= i <= FoodCount && |food| == i
      invariant forall j :: 0 <= j < i ==> food[j].id == j && Spawned(food[j])
    {
      var f := CreateFood(i);
      food := food + [f];
      i := i + 1;
    }
  }
}
