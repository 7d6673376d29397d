# Multiplayer snake server, modelled in Dafny

This project models the authoritative game server of a multiplayer
slither-style game (`server.js`). The server owns the whole world:
- the table of players, keyed by socket id;
- the array of food items;
- the leaderboard;
- a network-tick counter.

It advances the world sixty times a second. Each game-loop pass:
- moves every snake one step along its steered heading;
- lets a boosting snake shed its tail as food;
- kills snakes that leave the circular arena;
- lets snakes eat nearby food, which grows them and respawns the food;
- kills a snake whose head touches a living rival's body (the rival scores
  half the victim's score) or its own body from the eleventh segment on;
- rebuilds the top-ten leaderboard.

On every third pass the server sends each player a snapshot. The snapshot
holds every player's public fields, the food within view distance of that
player's head, and the leaderboard. Three connection handlers change the
table:
- `join` creates a player;
- `input` sets a living player's target heading and boost flag;
- `disconnect` turns every third segment into food and removes the player.

A killed snake leaves food on every other segment. Three seconds later it
is replaced by a fresh snake, if its owner is still connected.

The modules follow the parts of the program:
- `Config`: the tunables and the literal radii of the rules.
- `Entities`: points, food, leaderboard rows, snapshots, and the "food was
  appended" relation.
- `Chance`: `Math.random`, `Date.now` and the random geometry, as
  nondeterministic choices within their guaranteed ranges.
- `Feeding`: the distance filters, the food trails, and food creation.
- `Snakes`: the `Player` class, `createPlayer`, and the step geometry.
- `Movement`: one tick of motion as a value.
- `Cadence`: the network-tick counter.
- `Ranking`: the leaderboard.
- `Broadcast`: the snapshots.
- `Server`: the `World` class with the game loop and the handlers.

`Player` and `World` are classes, because the server updates players and
the game state in place. The table is a `map` plus `order`, the sequence
of its keys in insertion order. `for ... in` visits keys in insertion
order when no key is an array index (a decimal below 2^32 - 1). Socket ids
are 20-character strings, so they never are. Timers scheduled by `killPlayer` are the
queue `pending`, and `FireRespawn` fires its oldest entry.

Each imperative operation is proved against a specification function:
- the motion of a tick against `Movement.Slither`;
- eating against `Feeding.Refilled` and `Feeding.Eaten`;
- the rival scan against `World.FirstKiller`;
- the leaderboard against `Ranking.Leaderboard`;
- the broadcast against `Broadcast.Outbox`.

Lemmas then prove what those functions mean.

The checks of `checkCollisions` run in this order in the model:
1. the rival scan (`FindKiller`);
2. eating;
3. the collision outcome.

This order gives the same result as the source's order (eating first).
Eating writes only the food array and the eater's body and score. The
rival scan reads only the table and the other players' bodies and life.

## Model

| member | source | states |
|---|---|---|
| `Chance.Random` | server.js:100 | a `Math.random()` draw lies in [0, 1) |
| `Chance.RandomDirection` | server.js:62-65 | the cosine and sine of a random angle form a unit vector |
| `Chance.RandomColor` | server.js:66 | a random colour is one of the ten palette entries |
| `Chance.Jitter` | server.js:128-129 | the jitter of a dropped item lies in [-10, 10) on each axis |
| `Chance.RandomPointInDisc` | server.js:51-56 | a point at a random angle and radius `random() * bound` lies strictly inside the disc of that bound |
| `Chance.Clock` | server.js:171 | `Date.now()` is a non-negative millisecond count |
| `Feeding.Select` | server.js:225-229 | a distance filter keeps no more items than it is given |
| `Feeding.SelectCount` | server.js:225-229 | a filter keeps each item on the chosen side of the radius exactly as often as it occurs, and no item on the other side |
| `Feeding.SelectExact` | server.js:225-229 | an item survives the filter if and only if it is in the input and on the chosen side of the radius, with its multiplicity kept |
| `Feeding.SelectAppend` | server.js:225-229 | filtering keeps the order of the items: filtering `a + b` is filtering `a`, then `b` |
| `Feeding.SelectSplit` | server.js:158-173 | every item falls on exactly one side of the radius, so the near and far items together number the whole array |
| `Feeding.NearbyFood` | server.js:223-230 | a viewer is sent exactly the food items whose squared distance from its head is below 800², each as often as it occurs |
| `Feeding.StridedLength` | server.js:137 | a stride-k pass over n > 0 elements visits ceil(n / k) of them |
| `Feeding.StridedAt` | server.js:137-140 | the j-th element a stride-k pass visits is the element at index j·k |
| `Feeding.StridedStep` | server.js:137-140 | one step of a stride-k loop appends the current element to the visited prefix and resumes k elements later |
| `Feeding.EveryOther` | server.js:137-140 | `killPlayer` drops food on the ceil(n / 2) even-indexed segments, in order |
| `Feeding.EveryThird` | server.js:309-312 | a disconnect drops food on the ceil(n / 3) segments at indices divisible by three, in order |
| `Feeding.ScanStep` | server.js:158-173 | one step of the downward eating scan: an eaten item at index i is spliced out and counted, an item out of reach is kept in place |
| `Feeding.CreateFood` | server.js:50-59 | a fresh item carries the given id, lies strictly inside radius 1900 and has a palette colour |
| `Feeding.GenerateFood` | server.js:42-48 | the initial food is 300 fresh items whose ids are their indices 0..299 |
| `Snakes.DisplayName` | server.js:78 | the display name is never empty: it is the given name when that is a non-empty string, and "Player " plus the id's first four characters otherwise |
| `Snakes.InitialSegments` | server.js:68-74 | a new body has 10 segments, spaced 15 apart along +y from the start point |
| `Snakes.Player.constructor` | server.js:76-87 | a new player record built from a body of at least 10 segments and a non-empty name satisfies the player invariant, and heads at -π/2 with speed 3, no boost, score 0, and alive |
| `Snakes.CreatePlayer` | server.js:61-88 | `createPlayer` yields a fresh, living, straight 10-segment snake with the display name, a palette colour and the start heading, whose head lies strictly inside radius 1000 |
| `Snakes.StepLength` | server.js:108-112 | a step along a unit heading moves the head exactly `speed` (squared distance speed²) |
| `Snakes.ScanBody` | server.js:180-191 | a segment scan from index `from` reports a hit exactly when some segment from there on lies within the radius of the head |
| `Snakes.Advance` | server.js:120-121 | `unshift` then `pop` keeps the length, puts the new head first and shifts every old segment but the tail back by one |
| `Movement.Shed` | server.js:99-106 | when boosting, longer than 10 and the roll is below 0.1, exactly the last segment is popped and dropped as the one food item, and the score drops by one, floored at 0; otherwise nothing is dropped and body and score are kept |
| `Movement.Slither` | server.js:90-122 | after boost and step the snake is alive exactly when the new head is inside the arena; a body of at least 10 keeps at least 10; a non-negative score stays in [0, old score]; a living head is inside the arena |
| `Movement.SlitherBody` | server.js:99-121 | a survivor's body follows its old head, and with the shed tail it has the old length; a dead snake keeps its body and drops its shed tail, then every other segment |
| `Movement.SlitherStep` | server.js:97-112 | a surviving snake's head moves exactly 3 (6 when boosting) from its old head |
| `Movement.Turn` | server.js:93-94 | the wrapped heading difference lies in [-π, π] and is zero when the target is the current heading |
| `Movement.Heading` | server.js:110-111 | the cosine and sine of the new heading form a unit vector |
| `Cadence.NextTick` | server.js:241-245 | the counter stays in [0, 3) |
| `Cadence.CounterAfterIsMod` | server.js:241-245 | after n passes from server start the counter is n mod 3 |
| `Cadence.EmitsEveryThird` | server.js:241-245 | pass number n + 1 sends snapshots if and only if n + 1 is a multiple of 3 |
| `Ranking.AliveEntriesExact` | server.js:208-218 | a row is collected if and only if it is the (name, score, length) row of some living player |
| `Ranking.AliveEntriesCount` | server.js:208-218 | exactly one row is collected per living player |
| `Ranking.CollectRows` | server.js:208-218 | the collection loop yields the rows of the living players, in table order |
| `Ranking.InsertKeeps` | server.js:219 | inserting a row adds exactly that row |
| `Ranking.InsertSorted` | server.js:219 | inserting into rows sorted by descending score keeps them sorted |
| `Ranking.SortByScoreCorrect` | server.js:219 | the score sort orders rows highest score first and is a permutation of its input |
| `Ranking.LeaderboardShape` | server.js:207-221 | the leaderboard has min(10, collected rows) rows (one row per living player, by `AliveEntriesCount`), sorted highest score first, all of them collected rows |
| `Ranking.LeaderboardAlive` | server.js:207-221 | every leaderboard row belongs to a living player |
| `Ranking.LeaderboardTop` | server.js:219-220 | no living player's row left off the leaderboard outscores any row on it: when the board holds fewer copies of a row than were collected, every row on the board scores at least as much |
| `Broadcast.Outbox` | server.js:247-274 | no more messages are sent than there are players |
| `Broadcast.OutboxAddressees` | server.js:247-274 | the k-th message goes to the k-th player that has a body, so the messages follow table order and skip bodiless players |
| `Broadcast.AddresseesDistinct` | server.js:247-249 | players with distinct ids are addressed at most once each |
| `Broadcast.OutboxOnce` | server.js:247-274 | when the players' ids are distinct, no player receives two messages |
| `Broadcast.OutboxAll` | server.js:247-274 | when every player has a body, each receives exactly one message, in table order, with all views, the food near its own head, the leaderboard and map radius 2000 |
| `Broadcast.OutboxSound` | server.js:247-274 | every message goes to a player with a body and carries the food near that player's head |
| `Broadcast.BuildSnapshots` | server.js:247-274 | the per-recipient loop sends exactly the specified messages |
| `Server.Without` | server.js:314 | deleting a key removes it, and only it, from the key order, which stays duplicate-free |
| `Server.WithoutAbsent` | server.js:314 | deleting an absent key leaves the key order as it was |
| `Server.WithoutAppend` | server.js:314 | deletion works piecewise on the key order, so the remaining keys keep their relative order |
| `Server.WithoutAt` | server.js:314 | in a duplicate-free key order, deleting the key at position i yields the keys before it followed by the keys after it |
| `Server.World.constructor` | server.js:36-40 | the server starts with no players, an empty leaderboard, counter 0, no timers and 300 fresh food items with ids 0..299 |
| `Server.World.DropFood` | server.js:124-132 | `dropFood` appends one item whose id is the old food count, jittered within 10 of the point on each axis |
| `Server.World.DropTrail` | server.js:137-140 | a stride-k drop loop appends exactly one dropped item per visited segment, in order |
| `Server.World.KillPlayer` | server.js:134-151 | `killPlayer` marks the snake dead, appends food on every other segment and schedules one respawn under its id and name |
| `Server.World.PayBoost` | server.js:99-106 | the boost cost changes the body, score and food as `Shed` says |
| `Server.World.UpdatePlayer` | server.js:90-122 | a dead snake is untouched; a living one turns by a tenth of the wrapped difference, and its body, score, life, food drops and scheduled respawn are those of `Slither` |
| `Server.World.Move` | server.js:97-121 | after steering, the boost cost and then the step change the world as `Slither` says |
| `Server.World.Travel` | server.js:108-121 | the head moves by the velocity; outside the arena the snake dies instead, keeps its body and drops every other segment |
| `Server.World.EatFood` | server.js:158-173 | the eating scan leaves the far items in order, followed by one fresh item per item eaten; the score grows by one per item eaten; the body grows by that many copies of its tail |
| `Server.World.FirstKillerSpec` | server.js:175-192 | the first killer found is a living rival touching the head with no killer before it in table order, and none is found exactly when no rival kills |
| `Server.World.FindKiller` | server.js:175-192 | the rival scan returns the first living rival, in table order, whose body touches the head within 15 |
| `Server.World.Slain` | server.js:186-189 | a snake slain by a rival dies as `killPlayer` says, and the rival gains half the victim's score, rounded down |
| `Server.World.SelfCollide` | server.js:194-204 | a snake dies exactly when its head is within 10 of its own segment 10 or later |
| `Server.World.ResolveHit` | server.js:175-204 | the snake dies exactly when a rival was found or it touches itself; only the rival's score changes, by half the victim's score |
| `Server.World.EatAndScan` | server.js:156-192 | the eating and rival scans leave the snake alive, with its food, body and score as `EatFood` says and the killer as `FirstKiller` says |
| `Server.World.CheckCollisions` | server.js:153-205 | a dead snake changes nothing; a living one eats as `Refilled` says, then dies exactly on the first living rival or its own body; every score changes as eating and the kill reward say |
| `Server.World.ViewsOf` | server.js:261-271 | the snapshot has one view per player |
| `Server.World.ViewsOfAt` | server.js:261-271 | the view at position i copies the public fields of the i-th player in table order |
| `Server.World.AssembleViews` | server.js:261-271 | the view loop yields the views of all players, in table order |
| `Server.World.UpdateLeaderboard` | server.js:207-221 | the stored leaderboard is the top ten of the living players' rows by score |
| `Server.World.MessagesAll` | server.js:247-274 | in a valid world every player receives exactly one snapshot, in table order, with the food near its own head |
| `Server.World.GameLoop` | server.js:232-275 | a pass keeps the table and the world invariant, never shrinks the food, stores the specified leaderboard, advances the counter, and sends the specified snapshots exactly on every third pass |
| `Server.World.Transmit` | server.js:241-274 | the counter advances mod 3, and snapshots go out exactly when it wraps |
| `Server.World.Simulate` | server.js:233-237 | the player loop keeps the table, its order and the world invariant, and never shrinks the food |
| `Server.World.Join` | server.js:280-291 | `join` stores a fresh player under the socket id, replacing any old one and keeping the rest of the table; a new id goes last in the key order |
| `Server.World.Input` | server.js:293-303 | only the sender's living player changes; each of its target heading and boost flag is set only when sent |
| `Server.World.Disconnect` | server.js:305-315 | the player is removed from the table and the key order, and food is appended on every third segment of a player that was present |
| `Server.World.FireRespawn` | server.js:144-150 | the oldest timer fires: a player still connected is replaced by a fresh one with the same id and name, otherwise the table is unchanged |

## Left out

- Sockets, `emit` calls, logging, the HTTP server and `setInterval` are not modelled. The `joined`, `died` and `respawned` messages are not modelled. The snapshots are returned as `Outgoing` values.
- The respawn `setTimeout` is modelled as the FIFO queue `pending`, fired by `FireRespawn`. Every death is scheduled for the same three seconds, so the timers fire in the order they were set. The wall-clock delay is not modelled.
- Numbers are exact reals, not IEEE doubles. Distances are compared squared, without `Math.sqrt`.
- `Math.sin`, `Math.cos` and `Math.atan2` are not computed. `Movement.Turn` only knows that the wrapped difference lies in [-π, π] and is zero when the target equals the heading. `Movement.Heading` only knows that the heading is a unit vector.
- `Math.random()` and `Date.now()` are nondeterministic choices within their guaranteed ranges.
- The boost roll is drawn on every tick, not only when the snake is boosting and long enough. Its value matters only in the branch where the source draws it.
- `Server.World.EatFood`: it does not state the ids of refilled items (clock reading plus index). The ids of food items are not proved unique; the source does not keep them unique either.
- `Ranking.SortByScoreCorrect`: it does not prove stability. `Array.prototype.sort` is stable, so rows with equal scores keep table order in the source; the model's result has the same contents and score order.
- A name sent with `join` is `Option<string>`: an absent name is `None`, and the empty string is the other falsy case. Other JavaScript values (numbers, objects) are not modelled; neither are the untyped `angle` and `boosting` fields of `input`.
- The `input` fields are `Option`s: `None` stands for `undefined`.
- A `join` event without a payload, or an `input` event without one from a sender whose player is alive, makes the source handler throw a TypeError (`data.name`, `data.angle`). The model's handlers always receive a payload.
- The snapshot's `players` object is a sequence of views in table order, not an object keyed by id.
- The view list is built once per broadcast and shared by every recipient. The source rebuilds it per recipient, from state that does not change during the broadcast.
- The velocity of a tick is computed from the heading and speed before the boost cost. The cost changes neither.
- `Server.World.GameLoop`: the effect of the player loop is stated as preserved invariants, not as a fold of the per-player effects.
- `Server.World.Simulate`: the effect of the player loop is stated as preserved invariants, not as a fold of the per-player effects.
- Keys that are array indices, which `for ... in` visits first in numeric order, are not modelled. `order` is plain insertion order for every id.
- Scores, lengths and ids are unbounded integers rather than doubles, so precision loss past 2^53 is not modelled.
- The static file server and the client directory are not part of this model.
