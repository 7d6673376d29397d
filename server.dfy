/**
 * The authoritative world of the game server: the player table, the food
 * array, the leaderboard and the network-tick counter, advanced one game-loop
 * pass at a time, and the connection handlers that add, steer and remove
 * players.
 */
module Server {
  import opened Config
  import opened Entities
  import opened Chance
  import opened Feeding
  import opened Snakes
  import opened Ranking
  import opened Cadence
  import opened Movement
  import opened Broadcast

  /** `order` with `id` taken out (`delete players[id]` on the key order). */
  function Without(order: seq<Id>, id: Id): (r: seq<Id>)
    ensures forall x :: x in r <==> x in order && x != id
    ensures Distinct(order) ==> Distinct(r)
  {
    if order == [] then []
    else
      var rest := Without(order[1..], id);
      var first := if order[0] == id then [] else [order[0]];
      assert Distinct(order) ==> Distinct(order[1..]) && order[0] !in rest;
      assert Distinct(order) ==> forall i, j :: 0 <= i < j < |first + rest| ==> (first + rest)[i] != (first + rest)[j] by {
        if Distinct(order) && first != [] {
          forall i, j | 0 <= i < j < |first + rest| ensures (first + rest)[i] != (first + rest)[j] {
            if i > 0 {
              assert (first + rest)[i] == rest[i - 1] && (first + rest)[j] == rest[j - 1];
            } else {
              assert (first + rest)[j] in rest;
            }
          }
        }
      }
      first + rest
  }

  /** Deleting an absent key leaves the key order as it was. */
  lemma {:induction false} WithoutAbsent(order: seq<Id>, id: Id)
    requires id !in order
    ensures Without(order, id) == order
  {
    if order != [] {
      WithoutAbsent(order[1..], id);
    }
  }

  /** Deletion works piecewise, so the remaining keys keep their relative order. */
  lemma {:induction false} WithoutAppend(a: seq<Id>, b: seq<Id>, id: Id)
    ensures Without(a + b, id) == Without(a, id) + Without(b, id)
  {
    if a == [] {
      assert a + b == b;
    } else {
      assert (a + b)[0] == a[0];
      assert (a + b)[1..] == a[1..] + b;
      WithoutAppend(a[1..], b, id);
    }
  }

  /** In a duplicate-free key order, deleting the key at position `i` closes the gap and moves nothing else. */
  lemma WithoutAt(order: seq<Id>, id: Id, i: int)
    requires Distinct(order) && 0 <= i < |order| && order[i] == id
    ensures Without(order, id) == order[..i] + order[i + 1..]
  {
    var pre := order[..i];
    var post := order[i + 1..];
    assert order == pre + [id] + post;
    assert id !in pre by {
      forall j | 0 <= j < |pre| ensures pre[j] != id {
        assert pre[j] == order[j];
      }
    }
    assert id !in post by {
      forall j | 0 <= j < |post| ensures post[j] != id {
        assert post[j] == order[i + 1 + j];
      }
    }
    calc {
      Without(order, id);
      Without((pre + [id]) + post, id);
      { WithoutAppend(pre + [id], post, id); }
      Without(pre + [id], id) + Without(post, id);
      { WithoutAppend(pre, [id], id); }
      Without(pre, id) + Without([id], id) + Without(post, id);
      { WithoutAbsent(pre, id); WithoutAbsent(post, id); assert Without([id], id) == []; }
      pre + [] + post;
      pre + post;
    }
  }

  class World {
    /** `gameState.players`, and the order in which `for ... in` visits its keys. */
    var players: map<Id, Player>
    var order: seq<Id>
    var food: seq<Food>
    var leaderboard: seq<Entry>
    var networkTick: int
    /** Respawn callbacks scheduled by `killPlayer` and not yet fired. */
    var pending: seq<Respawn>

    ghost predicate Valid()
      reads this`players, this`order, this`pending, this`networkTick, players.Values
    {
      && Distinct(order)
      && (forall id :: id in order <==> id in players)
      && (forall id :: id in players ==> players[id].id == id && players[id].Valid())
      && (forall r :: r in pending ==> |r.name| > 0)
      && 0 <= networkTick < TicksPerSnapshot
    }

    /** Server start: no players, FOOD_COUNT fresh food items. */
    constructor ()
      ensures Valid()
      ensures players == map[] && order == [] && leaderboard == [] && networkTick == 0 && pending == []
      ensures |food| == FoodCount && forall i :: 0 <= i < |food| ==> food[i].id == i && Spawned(food[i])
    {
      players := map[];
      order := [];
      leaderboard := [];
      networkTick := 0;
      pending := [];
      var initial := GenerateFood();
      food := initial;
    }

    /** `dropFood(x, y)`: one jittered item whose id is the food count before the push. */
    method DropFood(at: Point)
      modifies this`food
      ensures Appended(old(food), food, [at])
    {
      var id := |food|;
      var jx := Jitter();
      var jy := Jitter();
      var color := RandomColor();
      food := food + [Food(id, Point(at.x + jx, at.y + jy), color)];
    }

    /** The drop loops of `killPlayer` (stride 2) and of the disconnect handler (stride 3). */
    method DropTrail(segs: seq<Point>, stride: nat)
      requires stride > 0
      modifies this`food
      ensures Appended(old(food), food, Strided(segs, stride))
    {
      ghost var rest := segs;
      ghost var targets: seq<Point> := [];
      var i := 0;
      while i < |segs|
        invariant 0 <= i
        invariant i < |segs| ==> rest == segs[i..]
        invariant i >= |segs| ==> rest == []
        invariant Strided(segs, stride) == targets + Strided(rest, stride)
        invariant Appended(old(food), food, targets)
        decreases |segs| - i
      {
        ghost var before := food;
        DropFood(segs[i]);
        AppendedTrans(old(food), before, food, targets, [segs[i]]);
        StridedStep(segs, targets, rest, stride);
        rest := if |rest| <= stride then [] else rest[stride..];
        targets := targets + [segs[i]];
        i := i + stride;
      }
      assert Strided(rest, stride) == [];
    }

    /** `killPlayer` without the `died` emit: mark dead, drop every other segment, schedule the respawn. */
    method KillPlayer(p: Player)
      requires Valid() && p in players.Values
      modifies this`food, this`pending, p`alive
      ensures Valid()
      ensures !p.alive
      ensures Appended(old(food), food, Strided(p.segments, 2))
      ensures pending == old(pending) + [Respawn(p.id, p.name)]
    {
      p.alive := false;
      DropTrail(p.segments, 2);
      pending := pending + [Respawn(p.id, p.name)];
    }

    /** The boost cost of `updatePlayer`: maybe drop the tail as food and lose one point. */
    method PayBoost(p: Player, roll: real)
      requires Valid() && p in players.Values && p.alive
      modifies this`food, p`segments, p`score
      ensures Valid() && p.alive
      ensures var s := Shed(old(p.segments), old(p.score), p.boosting, roll);
        p.segments == s.segments && p.score == s.score && Appended(old(food), food, s.drops)
    {
      if BoostSheds(p.boosting, |p.segments|, roll) {
        var tail := p.segments[|p.segments| - 1];
        DropFood(tail);
        p.segments := p.segments[..|p.segments| - 1];
        p.score := Max(0, p.score - 1);
        return;
      }
      assert food == old(food) + [];
    }

    /**
     * `updatePlayer`: steer, then move as Slither says. `steer` is the
     * wrapped heading difference, `dir` the unit heading after steering,
     * `roll` the boost-cost draw.
     */
    method UpdatePlayer(p: Player, steer: real, dir: Point, roll: real)
      requires Valid() && p in players.Values
      requires Steering(p.angle, p.targetAngle, steer) && 0.0 <= roll < 1.0
      modifies this`food, this`pending, p`angle, p`segments, p`score, p`alive
      ensures Valid()
      ensures !old(p.alive) ==> unchanged(this) && unchanged(p)
      ensures old(p.alive) ==> p.angle == old(p.angle) + steer * TurnFactor
      ensures old(p.alive) ==>
        var m := Slither(old(p.segments), old(p.score), old(p.boosting), roll, Velocity(dir, Speed(old(p.boosting))));
        && p.segments == m.segments && p.score == m.score && p.alive == m.alive
        && Appended(old(food), food, m.drops)
        && pending == old(pending) + (if m.alive then [] else [Respawn(p.id, p.name)])
    {
      if !p.alive {
        return;
      }
      p.angle := p.angle + steer * TurnFactor;
      Move(p, Velocity(dir, Speed(p.boosting)), roll);
    }

    /** `updatePlayer` after steering: pay the boost cost, then move the head by `v` or die at the boundary. */
    method Move(p: Player, v: Point, roll: real)
      requires Valid() && p in players.Values && p.alive
      modifies this`food, this`pending, p`segments, p`score, p`alive
      ensures Valid()
      ensures var m := Slither(old(p.segments), old(p.score), p.boosting, roll, v);
        && p.segments == m.segments && p.score == m.score && p.alive == m.alive
        && Appended(old(food), food, m.drops)
        && pending == old(pending) + (if m.alive then [] else [Respawn(p.id, p.name)])
    {
      ghost var s := Shed(p.segments, p.score, p.boosting, roll);
      PayBoost(p, roll);
      ghost var afterBoost := food;
      Travel(p, v);
      if p.alive {
        AppendedTrans(old(food), afterBoost, food, s.drops, []);
        assert s.drops + [] == s.drops;
      } else {
        AppendedTrans(old(food), afterBoost, food, s.drops, Strided(s.segments, 2));
      }
    }

    /** The step of `updatePlayer`: the head moves by `v`, or the snake dies outside the arena. */
    method Travel(p: Player, v: Point)
      requires Valid() && p in players.Values && p.alive
      modifies this`food, this`pending, p`segments, p`alive
      ensures Valid()
      ensures var head := Step(old(p.segments)[0], v);
        var dies := OutOfArena(head);
        && p.alive == !dies
        && p.segments == (if dies then old(p.segments) else Advance(old(p.segments), head))
        && Appended(old(food), food, if dies then Strided(old(p.segments), 2) else [])
        && pending == old(pending) + (if dies then [Respawn(p.id, p.name)] else [])
    {
      var newHead := Step(p.segments[0], v);
      if OutOfArena(newHead) {
        KillPlayer(p);
        return;
      }
      p.segments := Advance(p.segments, newHead);
      assert food == old(food) + [];
    }

    /**
     * The eating scan of `checkCollisions`, from the last item down: each
     * item within EAT_RADIUS is spliced out, scores FOOD_VALUE, grows the
     * snake by a copy of its tail and is replaced by a fresh item pushed at
     * the end (whose id is the clock reading plus the index).
     */
    method EatFood(p: Player, head: Point)
      requires |p.segments| > 0
      modifies this`food, p`segments, p`score
      ensures Refilled(old(food), food, head)
      ensures p.score == old(p.score) + Eaten(old(food), head) * FoodValue
      ensures p.segments == old(p.segments) + Repeat(old(p.segments)[|old(p.segments)| - 1], Eaten(old(food), head))
    {
      ghost var food0 := food;
      ghost var tail := p.segments[|p.segments| - 1];
      ghost var refills: seq<Food> := [];
      var i := |food| - 1;
      while i >= 0
        invariant -1 <= i < |food0|
        invariant food == food0[..i + 1] + Select(food0[i + 1..], head, EatRadius, false) + refills
        invariant |refills| == |Select(food0[i + 1..], head, EatRadius, true)|
        invariant forall j :: 0 <= j < |refills| ==> Spawned(refills[j])
        invariant p.score == old(p.score) + |refills| * FoodValue
        invariant p.segments == old(p.segments) + Repeat(tail, |refills|)
        decreases i
      {
        ScanStep(food0, i, head, refills);
        if Within(food[i].pos, head, EatRadius) {
          food := food[..i] + food[i + 1..];
          p.score := p.score + FoodValue;
          var last := p.segments[|p.segments| - 1];
          p.segments := p.segments + [Point(last.x, last.y)];
          assert Repeat(tail, |refills|) + [tail] == Repeat(tail, |refills| + 1);
          var now := Clock();
          var item := CreateFood(now + i);
          food := food + [item];
          refills := refills + [item];
        }
        i := i - 1;
      }
      assert food0[..0] == [] && food0[0..] == food0;
      SelectSplit(food0, head, EatRadius);
      assert food[..|Select(food0, head, EatRadius, false)|] == Select(food0, head, EatRadius, false);
    }

    /** The player under `id` is a living rival whose body (any segment) is within BODY_RADIUS of `head`. */
    ghost predicate Kills(id: Id, self: Id, head: Point)
      reads this`players, players.Values
    {
      id != self && id in players && players[id].alive && Touches(head, players[id].segments, BodyRadius, 0)
    }

    /** The first key of `ids` whose player kills a head at `head`, if any. */
    ghost function FirstKiller(ids: seq<Id>, self: Id, head: Point): (k: Option<Id>)
      reads this`players, players.Values
    {
      if ids == [] then None
      else if Kills(ids[0], self, head) then Some(ids[0])
      else FirstKiller(ids[1..], self, head)
    }

    /** FirstKiller finds a killer exactly when there is one, and no earlier key kills. */
    lemma {:induction false} FirstKillerSpec(ids: seq<Id>, self: Id, head: Point)
      ensures var k := FirstKiller(ids, self, head);
        && (k.Some? ==> exists j :: (0 <= j < |ids| && ids[j] == k.value && Kills(ids[j], self, head)
              && forall i :: 0 <= i < j ==> !Kills(ids[i], self, head)))
        && (k.None? <==> forall i :: 0 <= i < |ids| ==> !Kills(ids[i], self, head))
    {
      if ids != [] && !Kills(ids[0], self, head) {
        FirstKillerSpec(ids[1..], self, head);
        var k := FirstKiller(ids, self, head);
        if k.Some? {
          var j :| 0 <= j < |ids[1..]| && ids[1..][j] == k.value && Kills(ids[1..][j], self, head)
            && forall i :: 0 <= i < j ==> !Kills(ids[1..][i], self, head);
          assert forall i :: 0 < i <= j ==> ids[i] == ids[1..][i - 1];
          assert ids[j + 1] == k.value;
        } else {
          assert forall i :: 0 < i < |ids| ==> ids[i] == ids[1..][i - 1];
        }
      }
    }

    /** The rival scan of `checkCollisions`, in table order. */
    method FindKiller(self: Id, head: Point) returns (killer: Option<Id>)
      requires Valid()
      ensures killer == FirstKiller(order, self, head)
      ensures killer.Some? ==> Kills(killer.value, self, head)
    {
      var j := 0;
      while j < |order|
        invariant 0 <= j <= |order|
        invariant forall i :: 0 <= i < j ==> !Kills(order[i], self, head)
      {
        var id := order[j];
        if id != self {
          var other := players[id];
          if other.alive {
            var hit := ScanBody(head, other.segments, BodyRadius, 0);
            if hit {
              assert Kills(order[j], self, head);
              FirstKillerSpec(order, self, head);
              return Some(id);
            }
          }
        }
        j := j + 1;
      }
      FirstKillerSpec(order, self, head);
      return None;
    }

    /** `p` dies on the body of the rival `other`, who scores half of `p`'s score, rounded down. */
    method Slain(p: Player, other: Player)
      requires Valid() && p in players.Values && other in players.Values && other != p
      modifies this`food, this`pending, p`alive, other`score
      ensures Valid() && !p.alive
      ensures Appended(old(food), food, Strided(p.segments, 2))
      ensures pending == old(pending) + [Respawn(p.id, p.name)]
      ensures other.score == old(other.score) + p.score / 2
    {
      KillPlayer(p);
      other.score := other.score + p.score / 2;
    }

    /** `p` dies when its head is within SELF_RADIUS of its own segment SELF_SKIP or later. */
    method SelfCollide(p: Player, head: Point)
      requires Valid() && p in players.Values
      modifies this`food, this`pending, p`alive
      ensures Valid()
      ensures var dies := Touches(head, p.segments, SelfRadius, SelfSkip);
        && p.alive == (old(p.alive) && !dies)
        && Appended(old(food), food, if dies then Strided(p.segments, 2) else [])
        && pending == old(pending) + (if dies then [Respawn(p.id, p.name)] else [])
    {
      var selfHit := ScanBody(head, p.segments, SelfRadius, SelfSkip);
      if selfHit {
        KillPlayer(p);
        return;
      }
      assert food == old(food) + [];
    }

    /**
     * The collision half of `checkCollisions`, after eating: die on the first
     * living rival's body (which scores half the victim's score, rounded
     * down) or, failing that, on the snake's own body from segment SELF_SKIP on.
     */
    method ResolveHit(p: Player, head: Point, killer: Option<Id>)
      requires Valid() && p in players.Values && p.alive
      requires killer.Some? ==> killer.value in players && killer.value != p.id
      modifies this`food, this`pending, p`alive, players.Values`score
      ensures Valid()
      ensures var dies := killer.Some? || Touches(head, p.segments, SelfRadius, SelfSkip);
        && p.alive == !dies
        && Appended(old(food), food, if dies then Strided(p.segments, 2) else [])
        && pending == old(pending) + (if dies then [Respawn(p.id, p.name)] else [])
      ensures forall id :: id in players ==>
        players[id].score == old(players[id].score) + (if killer == Some(id) then p.score / 2 else 0)
    {
      if killer.Some? {
        Slain(p, players[killer.value]);
        return;
      }
      SelfCollide(p, head);
    }

    /**
     * `checkCollisions`: a living snake eats, then collides. `fed` is the
     * food after eating and `killer` the rival it ran into, if any.
     */
    method CheckCollisions(p: Player) returns (ghost fed: seq<Food>, ghost killer: Option<Id>)
      requires Valid() && p in players.Values
      modifies this`food, this`pending, p`segments, p`alive, players.Values`score
      ensures Valid()
      ensures !old(p.alive) ==> (unchanged(this) && unchanged(players.Values) && killer.None?)
      ensures old(p.alive) ==>
        var head := old(p.segments)[0];
        var ate := Eaten(old(food), head);
        var grown := old(p.segments) + Repeat(old(p.segments)[|old(p.segments)| - 1], ate);
        var score := old(p.score) + ate * FoodValue;
        var dies := killer.Some? || Touches(head, grown, SelfRadius, SelfSkip);
        && Refilled(old(food), fed, head)
        && killer == old(FirstKiller(order, p.id, head))
        && p.segments == grown
        && p.alive == !dies
        && Appended(fed, food, if dies then Strided(grown, 2) else [])
        && pending == old(pending) + (if dies then [Respawn(p.id, p.name)] else [])
        && (forall id :: id in players ==>
              players[id].score == if id == p.id then score else old(players[id].score) + (if killer == Some(id) then score / 2 else 0))
    {
      if !p.alive {
        fed := food;
        killer := None;
        return;
      }
      var head := p.segments[0];
      var found := EatAndScan(p, head);
      killer := found;
      fed := food;
      ResolveHit(p, head, found);
    }

    /**
     * The two scans of `checkCollisions` that precede any death: the rival
     * scan (which reads only other players' bodies and the table, none of
     * which eating touches) and the eating scan.
     */
    method EatAndScan(p: Player, head: Point) returns (killer: Option<Id>)
      requires Valid() && p in players.Values && p.alive && head == p.segments[0]
      modifies this`food, p`segments, p`score
      ensures Valid() && p.alive
      ensures killer == old(FirstKiller(order, p.id, head))
      ensures killer.Some? ==> killer.value in players && killer.value != p.id
      ensures Refilled(old(food), food, head)
      ensures p.segments == old(p.segments) + Repeat(old(p.segments)[|old(p.segments)| - 1], Eaten(old(food), head))
      ensures p.score == old(p.score) + Eaten(old(food), head) * FoodValue
    {
      killer := FindKiller(p.id, head);
      EatFood(p, head);
    }

    /** The public view of each player of `ids`, in that order (the `state.players` object). */
    ghost function ViewsOf(ids: seq<Id>): (vs: seq<PlayerView>)
      requires forall id :: id in ids ==> id in players
      reads this`players, players.Values
      ensures |vs| == |ids|
    {
      if ids == [] then []
      else ViewsOf(ids[..|ids| - 1]) + [View(players[ids[|ids| - 1]])]
    }

    /** The view at position `i` is the view of the player named at position `i`. */
    lemma {:induction false} ViewsOfAt(ids: seq<Id>, i: int)
      requires forall id :: id in ids ==> id in players
      requires 0 <= i < |ids|
      ensures ViewsOf(ids)[i] == View(players[ids[i]])
    {
      var init := ids[..|ids| - 1];
      if i < |init| {
        assert ids[i] == init[i];
        ViewsOfAt(init, i);
      }
    }

    /** The inner loop of the broadcast: every player's public fields, in table order. */
    method AssembleViews() returns (vs: seq<PlayerView>)
      requires Valid()
      ensures vs == ViewsOf(order)
    {
      vs := [];
      var i := 0;
      while i < |order|
        invariant 0 <= i <= |order|
        invariant vs == ViewsOf(order[..i])
      {
        var p := players[order[i]];
        vs := vs + [View(p)];
        assert order[..i + 1][..i] == order[..i];
        i := i + 1;
      }
      assert order[..i] == order;
    }

    /** `updateLeaderboard`: collect the living players' rows, sort them, keep ten. */
    method UpdateLeaderboard()
      requires Valid()
      modifies this`leaderboard
      ensures Valid()
      ensures leaderboard == Leaderboard(ViewsOf(order))
    {
      var views := AssembleViews();
      var rows := CollectRows(views);
      leaderboard := TopScores(rows);
    }

    /** What the broadcast of `gameLoop` sends in the current state. */
    ghost function Messages(): (r: seq<Outgoing>)
      requires forall id :: id in order ==> id in players
      reads this, players.Values
    {
      var views := ViewsOf(order);
      Outbox(views, views, food, leaderboard)
    }

    /** In a valid world every player receives exactly one snapshot, in table order, with the food near its head. */
    lemma MessagesAll()
      requires Valid()
      ensures |Messages()| == |order|
      ensures forall i :: 0 <= i < |order| ==>
        Messages()[i] == Outgoing(order[i], SnapshotAt(ViewsOf(order), food, leaderboard, players[order[i]].segments[0]))
    {
      var views := ViewsOf(order);
      forall i | 0 <= i < |order|
        ensures views[i] == View(players[order[i]])
      {
        ViewsOfAt(order, i);
      }
      OutboxAll(views, views, food, leaderboard);
    }

    /**
     * `gameLoop`: move and collide every player in table order, rebuild the
     * leaderboard, and on every third tick send each player a snapshot.
     */
    method GameLoop() returns (sent: seq<Outgoing>)
      requires Valid()
      modifies this, players.Values
      ensures Valid()
      ensures players == old(players) && order == old(order)
      ensures |food| >= |old(food)|
      ensures leaderboard == Leaderboard(ViewsOf(order))
      ensures networkTick == NextTick(old(networkTick))
      ensures sent == if Emits(old(networkTick)) then Messages() else []
    {
      Simulate();
      UpdateLeaderboard();
      sent := Transmit();
    }

    /** The tail of `gameLoop`: count the tick, and on every third one broadcast the snapshots. */
    method Transmit() returns (sent: seq<Outgoing>)
      requires Valid()
      modifies this`networkTick
      ensures Valid()
      ensures networkTick == NextTick(old(networkTick))
      ensures sent == if Emits(old(networkTick)) then Messages() else []
    {
      if networkTick + 1 < TicksPerSnapshot {
        networkTick := networkTick + 1;
        sent := [];
        return;
      }
      networkTick := 0;
      var views := AssembleViews();
      sent := BuildSnapshots(views, food, leaderboard);
    }

    /** The player loop of `gameLoop`: `updatePlayer` then `checkCollisions` for each player in table order. */
    method Simulate()
      requires Valid()
      modifies this`food, this`pending, players.Values
      ensures Valid()
      ensures players == old(players) && order == old(order) && networkTick == old(networkTick)
      ensures |food| >= |old(food)|
    {
      var i := 0;
      while i < |order|
        invariant 0 <= i <= |order|
        invariant Valid() && players == old(players) && order == old(order)
        invariant networkTick == old(networkTick)
        invariant |food| >= |old(food)|
      {
        var p := players[order[i]];
        var steer := Turn(p.angle, p.targetAngle);
        var dir := Heading(p.angle + steer * TurnFactor);
        var roll := Random();
        UpdatePlayer(p, steer, dir, roll);
        var _, _ := CheckCollisions(p);
        i := i + 1;
      }
    }

    /** The `join` handler: a new player under the socket's id, replacing any player already there. */
    method Join(id: Id, name: Option<string>)
      requires Valid()
      modifies this`players, this`order
      ensures Valid()
      ensures id in players && fresh(players[id]) && Newborn(players[id], id, DisplayName(id, name))
      ensures players == old(players)[id := players[id]]
      ensures order == if id in old(order) then old(order) else old(order) + [id]
    {
      var p := CreatePlayer(id, name);
      players := players[id := p];
      if id !in order {
        order := order + [id];
      }
    }

    /** The `input` handler: a living player's target heading and boost, each only when sent. */
    method Input(id: Id, angle: Option<real>, boosting: Option<bool>)
      requires Valid()
      modifies players.Values`targetAngle, players.Values`boosting
      ensures Valid()
      ensures forall k :: k in players && (k != id || !players[k].alive) ==>
        players[k].targetAngle == old(players[k].targetAngle) && players[k].boosting == old(players[k].boosting)
      ensures id in players && players[id].alive ==>
        && players[id].targetAngle == (if angle.Some? then angle.value else old(players[id].targetAngle))
        && players[id].boosting == (if boosting.Some? then boosting.value else old(players[id].boosting))
    {
      if id in players {
        var p := players[id];
        if p.alive {
          if angle.Some? {
            p.targetAngle := angle.value;
          }
          if boosting.Some? {
            p.boosting := boosting.value;
          }
        }
      }
    }

    /** The `disconnect` handler: a leaving player leaves food on every third segment and is removed. */
    method Disconnect(id: Id)
      requires Valid()
      modifies this`players, this`order, this`food
      ensures Valid()
      ensures players == old(players) - {id} && order == Without(old(order), id)
      ensures Appended(old(food), food, if id in old(players) then Strided(old(players[id].segments), 3) else [])
    {
      if id in players {
        DropTrail(players[id].segments, 3);
      } else {
        assert food == food + [];
      }
      players := players - {id};
      order := Without(order, id);
    }

    /**
     * The respawn timer set by `killPlayer`, firing for the oldest pending
     * death: if the id is still in the table, a new player under the same
     * id and name takes its place.
     */
    method FireRespawn()
      requires Valid() && pending != []
      modifies this`players, this`pending
      ensures Valid()
      ensures pending == old(pending)[1..] && order == old(order)
      ensures var r := old(pending)[0];
        if r.id in old(players) then
          && players == old(players)[r.id := players[r.id]]
          && fresh(players[r.id]) && Newborn(players[r.id], r.id, r.name)
        else players == old(players)
    {
      var r := pending[0];
      pending := pending[1..];
      if r.id in players {
        var p := CreatePlayer(r.id, Some(r.name));
        players := players[r.id := p];
      }
    }
  }
}
