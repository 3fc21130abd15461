# Space invaders world bookkeeping, in Dafny

This project models the deterministic bookkeeping of the `Game` world of a
browser space-invaders game (`lib/game.js`). It covers:

- construction: 40 stars, the player's ship ("defender") and the first enemy formation;
- the 5 x 11 formation spawner;
- the round transition, which refills the formation and grants a life;
- removal of an entity from its collection;
- the out-of-bounds test;
- the two composed object lists (everything that moves; everything that collides);
- the all-ordered-pairs collision pass;
- the whole-formation updates (reverse, speed up) and the move pass.

The world is an immutable value, `Game.World`. Every operation returns the
world after it. Positions are exact `real`s, so the constants 0.3 and 0.52
are exact decimals.

Layout:

- `entities.dfy` (`Entities`): vectors, sides, ship variants, the entity kinds.
- `arrays.dfy` (`JsArray`): the JavaScript array operations the world relies
  on, with their language semantics: `indexOf`, `splice(start, 1)` with a
  negative start counted from the end, and `forEach` as an element-wise map.
- `spawner.dfy` (`Spawner`): the formation and the player's ship.
- `game.dfy` (`Game`): the world, construction, round transition, removal,
  bounds, the object lists and the whole-collection updates.
- `collisions.dfy` (`Collisions`): the collision pass as a nested `while`
  loop over a snapshot.

Randomness, and the behaviour of other modules whose code is not part of this
model, enter as parameters:

- Star placement takes a sequence of draws. Each draw is two numbers in
  [0, 1) and an arbitrary velocity standing for the random-vector helper.
- The collision pass takes the eligibility rule, the overlap test and the
  resolution as uninterpreted functions. The eligibility rule and the
  resolution also see the current world.
- The move pass takes an object's move as an uninterpreted function from
  the current world and the object to the world after the move, so a move
  may change, or remove from, any collection.
- The formation-wide updates take the per-ship operation as an
  uninterpreted function on one ship.
- The shield pieces a new world starts with come from the shield code, which
  is not part of this model. They enter `Game.NewGame` as a parameter.

Entities are values, so JavaScript object identity becomes value equality:
`indexOf` finds the first equal value. This agrees with identity when the
value searched for is the entity's current value and the collection's
entries are pairwise distinct. It does not agree when the entity was
updated after the value was taken: the old value is then absent (see
"Left out"). The spawner's 55 ships are pairwise distinct
(`Spawner.FormationDistinct`).

Three facts about the code that the model keeps:

- `remove` on an entity that is not in its collection deletes the last
  element of that collection. It runs `splice(indexOf(o), 1)`, `indexOf`
  answers -1, and `splice(-1, 1)` deletes the last element. So
  `remove(defender)` deletes the last enemy ship (see Findings).
- The collision pass iterates a snapshot taken once, at its start. So it
  still offers entities that an earlier resolution in the same pass removed.
  Whether they are accepted is up to the eligibility rule, which is not part
  of this model.
- `addShields` builds and draws five shields, but its push into the world's
  `shields` list is commented out. Nothing in `lib/game.js` adds to
  `shieldPieces`; any shield piece comes from the shield code.

## Model

| member | source | states |
|---|---|---|
| JsArray.IndexOf | lib/game.js:241-245 | `indexOf` is -1 iff the element is absent; otherwise it gives a position holding the element with no earlier occurrence |
| JsArray.SpliceOne | lib/game.js:241-245 | `splice(start, 1)` deletes one element at the clamped start, where a negative start counts from the end. An empty array, or a start at the end, is left unchanged |
| JsArray.RemoveFromPresent | lib/game.js:239-247 | `splice(indexOf(o), 1)` on a present `o` deletes exactly its first occurrence: the rest keeps its order, and the multiset loses one copy of `o` |
| JsArray.RemoveFromAbsent | lib/game.js:241-245 | `splice(indexOf(o), 1)` on an absent `o` deletes the last element, and leaves an empty array empty |
| JsArray.RemoveFromKeeps | lib/game.js:239-247 | deleting an element keeps any property that every element had |
| JsArray.MapSeq | lib/game.js:138-142 | `forEach` of a per-object update: same length, and entry i is the update of entry i |
| Spawner.SpawnColumns | lib/game.js:69-83 | the inner loop pushes one ship per column x = 1..11, at (50x, y), with the row's variant, velocity (0.3, 0) and the invader side |
| Spawner.SpawnRows | lib/game.js:55-85 | the outer loop's running height y = 80 + 40*row yields, for each index k, the ship of row `row + k/11`, column `k%11 + 1` |
| Spawner.StackRows | lib/game.js:57-85 | one row followed by the later rows is the formation from that row on |
| Spawner.Formation | lib/game.js:52-87 | one call of the spawner yields exactly 55 ships in row-major order. Entry k is at row k/11, column k%11+1, with the variant, position, velocity and side that cell prescribes |
| Spawner.FormationCell | lib/game.js:57-84 | the ship for grid cell (row 0..4, column 1..11) is at index 11*row + col - 1. Its variant is "invader" in row 0, "soldier" in rows 1-2 and "grunt" in rows 3-4. It sits at (col*50, 80+40*row) |
| Spawner.FormationAreInvaders | lib/game.js:79-80 | every spawned ship is an enemy ship |
| Spawner.FormationDistinct | lib/game.js:69-84 | no two spawned ships are equal |
| Spawner.SpawnDefender | lib/game.js:107-120 | the player's ship has the defender variant and side, zero velocity, and sits at x = 0.52*dimX - 15.6, y = dimY - 70 |
| Game.IsOutOfBounds | lib/game.js:180-183 | a point is out of bounds iff it lies outside the closed rectangle [0, dimX] x [0, dimY], so edge points are in bounds |
| Game.CornersInBounds | lib/game.js:180-183 | all four corners of the arena are in bounds |
| Game.RandomPosition | lib/game.js:33-38 | a random point scaled from draws in [0, 1) lies in [0, dimX) x [0, dimY) when the arena is non-degenerate |
| Game.StarsFrom | lib/game.js:40-50 | the star loop from iteration i makes one star per draw, with ids i, i+1, ..., the drawn velocity, and a position inside the arena |
| Game.AddStars | lib/game.js:40-50 | stars are only appended; the new ones have ids 0.. in order and lie inside a non-degenerate arena; nothing else changes |
| Game.AddInvaderShips | lib/game.js:52-87 | the spawner only appends. The old ships stay as a prefix, 55 formation ships follow in row-major order, and nothing else in the world changes |
| Game.NewGame | lib/game.js:8-28 | a new world keeps the arena size, has 2 lives and score 0, and holds 40 stars. The player's ship is at ((dimX-30)*0.52, dimY-70), standing still. 55 enemy ships are present, there are no bullets, and the shield pieces are those the shield code contributed |
| Game.NewGameStarList | lib/game.js:24-25 | the stars of a new world are exactly those the star loop makes from the draws, starting from an empty list |
| Game.NewGameStars | lib/game.js:40-50 | the stars of a new world have ids 0..39 in order and carry their drawn velocities |
| Game.NewGameStarsInBounds | lib/game.js:33-50 | in a non-degenerate arena every star of a new world starts in bounds |
| Game.NewGameFormation | lib/game.js:24-26 | the enemy ships of a new world are the spawner's formation: entry k is the ship of row k/11, column k%11+1 |
| Game.NewGameWellFormed | lib/game.js:8-28 | a new world is well formed when the shield code contributed only shield pieces: the stars are stars, the player's ship is the defender, and the enemy ships are enemy ships |
| Game.ArenaScenario | lib/game.js:107-120 | in a 200 x 300 arena the player's ship starts in bounds at (88.4, 230). The first ship of the formation is an "invader" at (50, 80); the last is a "grunt" at (550, 240) |
| Game.DefenderSpawnsInBounds | lib/game.js:113-116 | the player's ship spawns in bounds iff the arena is at least 30 wide and 70 high |
| Game.WinRound | lib/game.js:173-178 | with no enemy ships left: afterwards exactly the 55-ship formation is present, lives rise by exactly one, and nothing else changes. With enemy ships left, the world is unchanged |
| Game.WinRoundLeavesInvaders | lib/game.js:173-178 | after the round check there is always at least one enemy ship |
| Game.WinRoundIdempotent | lib/game.js:173-178 | a second round check right after the first changes nothing |
| Game.WinRoundPreservesWellFormed | lib/game.js:173-178 | the round check keeps every collection holding only its own kind |
| Game.ClearedWaveScenario | lib/game.js:173-178 | removing all enemy ships and running the round check gives 55 ships and exactly one more life; the score, bullets and stars are kept |
| Game.Remove | lib/game.js:239-247 | removal changes only the collection chosen by the entity's kind: bullets for a bullet, enemy ships for any ship, shield pieces for a shield piece. A star changes nothing. A non-empty chosen collection shrinks by exactly one |
| Game.RemovePresent | lib/game.js:239-247 | removing a present entity deletes its first occurrence from its own collection and keeps the other elements in order |
| Game.RemoveAbsent | lib/game.js:241-245 | removing an absent entity deletes the last element of its collection |
| Game.RemoveDefenderDropsLastInvader | lib/game.js:242-243 | removing the player's ship deletes the last enemy ship and changes nothing else |
| Game.RemovePreservesWellFormed | lib/game.js:239-247 | removal keeps every collection holding only its own kind |
| Game.RemoveIfPresent | lib/game.js:239-247 | guarded removal: the chosen collection loses exactly one copy of the entity if present, and only that collection changes. An absent entity leaves the world unchanged |
| Game.RemoveIfPresentAgrees | lib/game.js:239-247 | on a present entity, guarded removal and removal agree |
| Game.GetAllObjects | lib/game.js:123-130 | the moving objects are the shield pieces, then the bullets, then the enemy ships, then the stars, each block unchanged |
| Game.DefenderNotInAllObjects | lib/game.js:123-130 | the player's ship is not among the moving objects |
| Game.CollisionObjects | lib/game.js:185-192 | the collision snapshot has one entry per bullet, enemy ship and shield piece plus one for the player's ship, which sits right after the enemy ships |
| Game.CollisionObjectsOrder | lib/game.js:185-192 | the collision snapshot is the bullets, then the enemy ships, then the player's ship, then the shield pieces, each block unchanged |
| Game.CollisionObjectsShape | lib/game.js:185-192 | in a well-formed world the collision snapshot holds no star and holds the player's ship exactly once |
| Game.CollisionObjectsVersusAll | lib/game.js:185-192 | the collision snapshot plus the stars equals, as a multiset, the moving objects plus the player's ship |
| Game.MoveObjects | lib/game.js:132-136 | the move pass works on the list of all objects taken at its start; a world with nothing to move is left unchanged |
| Game.MovePassSplit | lib/game.js:133-135 | moving the objects of one list and then those of another is moving the objects of their concatenation |
| Game.MoveObjectsByBlocks | lib/game.js:123-136 | the move pass moves the shield pieces first, then the bullets, then the enemy ships, then the stars, each block as the world held it when the pass began |
| Game.MovePassKeeps | lib/game.js:132-136 | a world property that every move of a listed object keeps holds after the whole move pass |
| Game.MapInvaders | lib/game.js:138-142 | a formation-wide update replaces ship i by its update and changes nothing else |
| Game.ReverseAllInvaders | lib/game.js:138-142 | reversal applies each ship's own reversal to every enemy ship and changes nothing else |
| Game.IncreaseInvadersSpeed | lib/game.js:206-210 | the speed-up applies each ship's own speed-up to every enemy ship and changes nothing else |
| Game.ReverseTwiceRestores | lib/game.js:138-142 | when a ship's reversal undoes itself, reversing the formation twice restores the world |
| Game.MapInvadersCompose | lib/game.js:206-210 | two formation-wide updates in a row are one update by their composition |
| Game.MapInvadersPreservesWellFormed | lib/game.js:206-210 | an update that keeps enemy ships enemy ships keeps the world well formed |
| Collisions.RowPartEntry | lib/game.js:215-218 | the inner loop's j-th pair in row i is (i, j) |
| Collisions.RowsEntry | lib/game.js:214-218 | entry k of the first i rows is a pair (a, b) with a < i, b < n and k = a*n + b |
| Collisions.RowsCover | lib/game.js:214-218 | every pair (a, b) with a < i, b < n sits at index a*n + b of the first i rows |
| Collisions.RowMajorCoversEachPairOnce | lib/game.js:214-218 | every ordered pair (i, j) below n, i = j included, occurs in the pass order exactly once, at i*n + j |
| Collisions.RowMajorInRange | lib/game.js:214-215 | the pass order has n*n pairs, all indexing into the snapshot |
| Collisions.RowMajorWithin | lib/game.js:213-218 | every pair of the pass order indexes into the snapshot |
| Collisions.ResolvePairsSnoc | lib/game.js:217-233 | offering one more pair resolves it against the world the earlier pairs left |
| Collisions.CheckPairs | lib/game.js:214-236 | the nested loop over a fixed list offers every ordered pair (i, j) in row-major order, and its world is the pair-by-pair resolution of the eligible overlapping pairs |
| Collisions.CheckRow | lib/game.js:215-235 | the inner loop for row i offers (i, 0), ..., (i, n-1) after the earlier rows, and resolves each eligible overlapping pair against the world the earlier pairs left |
| Collisions.CheckCollisions | lib/game.js:212-237 | the pass offers the pairs of the snapshot taken once at its start, in row-major order. The resulting world is, pair by pair, the resolution of each eligible overlapping pair of that fixed snapshot |
| Collisions.NoContactNoChange | lib/game.js:228-233 | if no pair of the snapshot is both eligible and overlapping, resolving any sequence of its pairs leaves the world unchanged |
| Collisions.ResolvePairsKeeps | lib/game.js:212-237 | take any world property that every resolution of two snapshot objects keeps; it still holds after the whole pass |
| Collisions.QuietPass | lib/game.js:212-237 | a pass over a world where nothing eligible touches leaves the world unchanged |
| Collisions.PassNeverOffersStars | lib/game.js:185-192 | in a well-formed world no pair offered by the pass involves a star |

## Left out

- Rendering (`draw`, `BG_COLOR`, the canvas painting in `lose`, `shield.draw`): screen output with no world state.
- `lose` and the view's `stop()`: a lifecycle signal to the external view collaborator.
- Image lookup by element id: a DOM call. A ship's variant alone names its image.
- `addShields`: it builds and draws five shields, and its push into the `shields` list is commented out, so that list is always empty and is not modelled. What the shield constructor and `shield.draw` do with the world they receive is shield code, which is not part of this model.
- Game.NewGame: the shield pieces are a parameter. The model assumes the shield code adds those pieces to `shieldPieces` and changes nothing else in the world; their layout is not modelled.
- `wrap`: it delegates to the utility module's scalar wrap, which is not part of this model.
- `enemyFire`: a per-ship random draw, the ship's own `fireBullet`, and its `currentBullet` flag, all in ship code that is not part of this model.
- `step`: it composes the move pass, the collision pass, `enemyFire` and the round check, and is driven by the external clock. `enemyFire` is left out.
- Ship behaviour (`move`, `reverse`, `increaseSpeed`, `fireBullet`) and the collision rule (`validCollision`, `isCollidedWith`, `collideWith`): their code is not part of this model. They are uninterpreted parameters, and no property of their own effects is asserted. This includes speed-up monotonicity and the single-bullet rule.
- Game.ReverseAllInvaders, Game.IncreaseInvadersSpeed: each ship's `reverse` and `increaseSpeed` is a function of that ship alone. The model assumes they change only that ship and never touch the world it belongs to.
- Game.MoveObjects: each move receives the value the object had when the list of all objects was taken. An object that an earlier move in the same pass updated is offered with its old value, whereas the program's list holds references and sees the update.
- Collisions.CheckCollisions: each pair receives the values its objects had when the snapshot was taken. An object that an earlier resolution in the same pass updated (a ship sped up when another dies, say) is offered with its old value, whereas the program's snapshot holds references and sees the update. A removal by that old value then misses the object, and `remove` deletes the last element of the collection instead. The eligibility rule sees the current world, so it can still test whether a value is in its collection.
- `randomPosition` and the random velocity of a star: the draws are a parameter. `Game.NewGame` requires exactly 40 draws in [0, 1), one per star.
- The drawing context, the view handle and the canvas-size array are configuration. The arena size enters as two reals.
- The state before `addDefenderShip` runs, when the player's ship is `null`: no caller can observe it. The model places the player's ship when the world is built.
- Object identity: entities are compared by value, not by reference (see above, and the Game.MoveObjects and Collisions.CheckCollisions lines).
- Score changes and life loss: they happen inside the collision resolution, which is an uninterpreted parameter.

## Findings

| source | as written | input that shows it | evidently intended | confidence | as-written member | corrected member |
|---|---|---|---|---|---|---|
| lib/game.js:239-247 | `splice(indexOf(o), 1)` with no presence check; for an absent `o` this is `splice(-1, 1)` | a world with at least one enemy ship, and `o` = the player's ship (a Ship, so dispatched to the enemy ships, where it never occurs) | removing an entity that is not in its collection leaves the world unchanged | not executed; medium: whether any caller passes an absent entity depends on ship and bullet code that is not part of this model | Game.RemoveDefenderDropsLastInvader | Game.RemoveIfPresent |

`Game.Remove` remains the literal model of `remove`. No other member of this
model calls removal, because the collision resolution is a parameter.
`Game.RemoveIfPresent` states the intended behaviour: the chosen collection
loses exactly one copy of the entity, which is no copy when the entity is
absent.
