/**
  The game world: the arena, the entity collections the world owns, the
  player's ship, the score and the remaining lives, and the bookkeeping
  operations on them. The world is an immutable value; every operation
  returns the world after it.
 */
module Game {
  import opened Entities
  import opened JsArray
  import opened Spawner

  /** The number of stars the world scatters at construction. */
  const NUM_STARS: nat := 40

  /**
    The random draws behind one star: two numbers in [0, 1) scaled by the
    arena to place it, and the velocity the random-vector helper picked.
   */
  datatype StarDraw = StarDraw(fx: real, fy: real, vel: Vec)

  predicate IsUnitDraw(d: StarDraw)
  {
    0.0 <= d.fx < 1.0 && 0.0 <= d.fy < 1.0
  }

  /**
    The world. The player's ship is held apart from the removable
    collections; an entity exists iff it is in its collection.
   */
  datatype World = World(
    dimX: real,
    dimY: real,
    stars: seq<Entity>,
    defender: Entity,
    defenderLives: int,
    score: int,
    invaderShips: seq<Entity>,
    bullets: seq<Entity>,
    shieldPieces: seq<Entity>)

  /** Every collection holds only its own kind, and the player's ship is the defender. */
  predicate WellFormed(w: World)
  {
    && IsDefenderShip(w.defender)
    && (forall i :: 0 <= i < |w.stars| ==> w.stars[i].Star?)
    && (forall i :: 0 <= i < |w.invaderShips| ==> IsInvaderShip(w.invaderShips[i]))
    && (forall i :: 0 <= i < |w.bullets| ==> w.bullets[i].Bullet?)
    && (forall i :: 0 <= i < |w.shieldPieces| ==> w.shieldPieces[i].ShieldPiece?)
  }

  // ---------------------------------------------------------------------
  // Arena bounds

  /** The closed arena rectangle [0, dimX] x [0, dimY]. */
  ghost predicate InArena(w: World, p: Vec)
  {
    0.0 <= p.x <= w.dimX && 0.0 <= p.y <= w.dimY
  }

  /**
    A position is out of bounds iff it lies outside the closed arena: a point
    on an edge (a coordinate equal to 0 or to the arena size) is in bounds.
   */
  function IsOutOfBounds(w: World, p: Vec): (r: bool)
    ensures r <==> !InArena(w, p)
  {
    p.x < 0.0 || p.y < 0.0 || p.x > w.dimX || p.y > w.dimY
  }

  /** The four corners of the arena are all in bounds. */
  lemma CornersInBounds(w: World)
    requires 0.0 <= w.dimX && 0.0 <= w.dimY
    ensures !IsOutOfBounds(w, Vec(0.0, 0.0))
    ensures !IsOutOfBounds(w, Vec(w.dimX, 0.0))
    ensures !IsOutOfBounds(w, Vec(0.0, w.dimY))
    ensures !IsOutOfBounds(w, Vec(w.dimX, w.dimY))
  {
  }

  // ---------------------------------------------------------------------
  // Construction

  /** A uniformly drawn point of the arena: each coordinate scaled by its draw. */
  function RandomPosition(dimX: real, dimY: real, d: StarDraw): (p: Vec)
    requires IsUnitDraw(d)
    ensures 0.0 < dimX ==> 0.0 <= p.x < dimX
    ensures 0.0 < dimY ==> 0.0 <= p.y < dimY
  {
    assert 0.0 < dimX ==> 0.0 <= dimX * d.fx < dimX by {
      if 0.0 < dimX { ScaleBelow(dimX, d.fx); }
    }
    assert 0.0 < dimY ==> 0.0 <= dimY * d.fy < dimY by {
      if 0.0 < dimY { ScaleBelow(dimY, d.fy); }
    }
    Vec(dimX * d.fx, dimY * d.fy)
  }

  /** Scaling a positive size by a fraction in [0, 1) stays within [0, size). */
  lemma ScaleBelow(size: real, f: real)
    requires 0.0 < size && 0.0 <= f < 1.0
    ensures 0.0 <= size * f < size
  {
    assert size - size * f == size * (1.0 - f);
    assert 0.0 < size * (1.0 - f);
  }

  /** The stars the star loop creates from iteration `i` on, one per draw. */
  function StarsFrom(dimX: real, dimY: real, draws: seq<StarDraw>, i: nat): (r: seq<Entity>)
    requires i <= |draws|
    requires forall k :: 0 <= k < |draws| ==> IsUnitDraw(draws[k])
    decreases |draws| - i
    ensures |r| == |draws| - i
    ensures forall k :: 0 <= k < |r| ==> r[k].Star? && r[k].id == i + k && r[k].vel == draws[i + k].vel
    ensures 0.0 < dimX && 0.0 < dimY ==>
      forall k :: 0 <= k < |r| ==> 0.0 <= r[k].pos.x < dimX && 0.0 <= r[k].pos.y < dimY
  {
    if i < |draws| then
      [Star(i, RandomPosition(dimX, dimY, draws[i]), draws[i].vel)] + StarsFrom(dimX, dimY, draws, i + 1)
    else
      []
  }

  /**
    The star loop: appends one star per draw, numbered from 0, each placed
    inside the arena when the arena is non-degenerate.
   */
  function AddStars(w: World, draws: seq<StarDraw>): (r: World)
    requires forall k :: 0 <= k < |draws| ==> IsUnitDraw(draws[k])
    ensures |r.stars| == |w.stars| + |draws|
    ensures r.stars[..|w.stars|] == w.stars
    ensures forall k :: |w.stars| <= k < |r.stars| ==>
      r.stars[k].Star? && r.stars[k].id == k - |w.stars| && r.stars[k].vel == draws[k - |w.stars|].vel
    ensures 0.0 < w.dimX && 0.0 < w.dimY ==>
      forall k :: |w.stars| <= k < |r.stars| ==> !IsOutOfBounds(w, r.stars[k].pos)
    ensures r == w.(stars := r.stars)
  {
    var added := StarsFrom(w.dimX, w.dimY, draws, 0);
    var r := w.(stars := w.stars + added);
    assert forall k :: |w.stars| <= k < |r.stars| ==> r.stars[k] == added[k - |w.stars|];
    r
  }

  /**
    The formation spawner: appends the 55 ships of a fresh formation after
    the ships already present and changes nothing else.
   */
  function AddInvaderShips(w: World): (r: World)
    ensures |r.invaderShips| == |w.invaderShips| + FORMATION_SIZE
    ensures r.invaderShips[..|w.invaderShips|] == w.invaderShips
    ensures forall k :: |w.invaderShips| <= k < |r.invaderShips| ==>
      IsFormationShip(r.invaderShips[k], (k - |w.invaderShips|) / COLUMNS, (k - |w.invaderShips|) % COLUMNS + 1)
    ensures r == w.(invaderShips := r.invaderShips)
  {
    var added := Formation();
    var r := w.(invaderShips := w.invaderShips + added);
    assert forall k :: |w.invaderShips| <= k < |r.invaderShips| ==>
      r.invaderShips[k] == added[k - |w.invaderShips|];
    r
  }

  /**
    A new game in an arena of `dimX` by `dimY`, with `draws` standing for
    the random numbers the stars are made from and `pieces` for the shield
    pieces the five shields contribute: 2 lives, score 0, 40 stars, the
    player's ship standing at ((dimX - 30) * 0.52, dimY - 70), a full
    formation, and no bullets.
   */
  function NewGame(dimX: real, dimY: real, draws: seq<StarDraw>, pieces: seq<Entity>): (w: World)
    requires |draws| == NUM_STARS
    requires forall k :: 0 <= k < |draws| ==> IsUnitDraw(draws[k])
    ensures w.dimX == dimX && w.dimY == dimY
    ensures w.defenderLives == 2 && w.score == 0
    ensures |w.stars| == NUM_STARS
    ensures IsDefenderShip(w.defender)
    ensures w.defender.pos == Vec((dimX - 30.0) * 0.52, dimY - 70.0)
    ensures w.defender.vel == Vec(0.0, 0.0)
    ensures |w.invaderShips| == FORMATION_SIZE
    ensures w.bullets == [] && w.shieldPieces == pieces
  {
    var empty := World(dimX, dimY, [], SpawnDefender(dimX, dimY), 2, 0, [], [], []);
    AddInvaderShips(AddStars(empty, draws)).(shieldPieces := pieces)
  }

  /** The stars of a new game are numbered 0 to 39 in order and carry their drawn velocities. */
  lemma NewGameStars(dimX: real, dimY: real, draws: seq<StarDraw>, pieces: seq<Entity>)
    requires |draws| == NUM_STARS
    requires forall k :: 0 <= k < |draws| ==> IsUnitDraw(draws[k])
    ensures var w := NewGame(dimX, dimY, draws, pieces);
      forall i :: 0 <= i < |w.stars| ==> w.stars[i].Star? && w.stars[i].id == i && w.stars[i].vel == draws[i].vel
  {
    NewGameStarList(dimX, dimY, draws, pieces);
    var s := StarsFrom(dimX, dimY, draws, 0);
    forall i | 0 <= i < |s|
      ensures s[i].Star? && s[i].id == i && s[i].vel == draws[i].vel
    {
      assert s[i].id == 0 + i;
    }
  }

  /** In a non-degenerate arena every star of a new game starts in bounds. */
  lemma NewGameStarsInBounds(dimX: real, dimY: real, draws: seq<StarDraw>, pieces: seq<Entity>)
    requires |draws| == NUM_STARS
    requires forall k :: 0 <= k < |draws| ==> IsUnitDraw(draws[k])
    requires 0.0 < dimX && 0.0 < dimY
    ensures var w := NewGame(dimX, dimY, draws, pieces);
      forall i :: 0 <= i < |w.stars| ==> !IsOutOfBounds(w, w.stars[i].pos)
  {
    NewGameStarList(dimX, dimY, draws, pieces);
  }

  /** The stars of a new game are those the star loop makes from the draws. */
  lemma NewGameStarList(dimX: real, dimY: real, draws: seq<StarDraw>, pieces: seq<Entity>)
    requires |draws| == NUM_STARS
    requires forall k :: 0 <= k < |draws| ==> IsUnitDraw(draws[k])
    ensures NewGame(dimX, dimY, draws, pieces).stars == StarsFrom(dimX, dimY, draws, 0)
    ensures NewGame(dimX, dimY, draws, pieces).dimX == dimX && NewGame(dimX, dimY, draws, pieces).dimY == dimY
  {
    assert NewGame(dimX, dimY, draws, pieces).stars == [] + StarsFrom(dimX, dimY, draws, 0);
  }

  /** The enemy ships of a new game are exactly the formation, in row-major order. */
  lemma NewGameFormation(dimX: real, dimY: real, draws: seq<StarDraw>, pieces: seq<Entity>)
    requires |draws| == NUM_STARS
    requires forall k :: 0 <= k < |draws| ==> IsUnitDraw(draws[k])
    ensures var w := NewGame(dimX, dimY, draws, pieces);
      forall k :: 0 <= k < |w.invaderShips| ==> IsFormationShip(w.invaderShips[k], k / COLUMNS, k % COLUMNS + 1)
  {
  }

  /** A new game is well formed: every collection holds only its own kind. */
  lemma NewGameWellFormed(dimX: real, dimY: real, draws: seq<StarDraw>, pieces: seq<Entity>)
    requires |draws| == NUM_STARS
    requires forall k :: 0 <= k < |draws| ==> IsUnitDraw(draws[k])
    requires forall k :: 0 <= k < |pieces| ==> pieces[k].ShieldPiece?
    ensures WellFormed(NewGame(dimX, dimY, draws, pieces))
  {
    var w := NewGame(dimX, dimY, draws, pieces);
    NewGameStars(dimX, dimY, draws, pieces);
    assert w.invaderShips == [] + Formation();
    FormationAreInvaders();
  }

  /**
    In a 200 x 300 arena the player's ship starts at (88.4, 230), the first
    ship of the formation is an "invader" at (50, 80) and the last a "grunt"
    at (550, 240).
   */
  lemma ArenaScenario(draws: seq<StarDraw>, pieces: seq<Entity>)
    requires |draws| == NUM_STARS
    requires forall k :: 0 <= k < |draws| ==> IsUnitDraw(draws[k])
    ensures var w := NewGame(200.0, 300.0, draws, pieces);
      && w.defender.pos == Vec(88.4, 230.0)
      && !IsOutOfBounds(w, w.defender.pos)
      && w.invaderShips[0] == Ship(InvaderName, Vec(50.0, 80.0), Vec(0.3, 0.0), InvaderSide)
      && w.invaderShips[54] == Ship(GruntName, Vec(550.0, 240.0), Vec(0.3, 0.0), InvaderSide)
  {
    var w := NewGame(200.0, 300.0, draws, pieces);
    NewGameFormation(200.0, 300.0, draws, pieces);
    assert IsFormationShip(w.invaderShips[0], 0, 1);
    assert IsFormationShip(w.invaderShips[54], 4, 11);
  }

  /**
    The player's ship spawns inside the arena exactly when the arena is at
    least 30 wide and 70 high.
   */
  lemma DefenderSpawnsInBounds(dimX: real, dimY: real, draws: seq<StarDraw>, pieces: seq<Entity>)
    requires |draws| == NUM_STARS
    requires forall k :: 0 <= k < |draws| ==> IsUnitDraw(draws[k])
    ensures var w := NewGame(dimX, dimY, draws, pieces);
      !IsOutOfBounds(w, w.defender.pos) <==> 30.0 <= dimX && 70.0 <= dimY
  {
  }

  // ---------------------------------------------------------------------
  // Round transition

  /**
    The round check: when no enemy ship is left, a fresh formation is
    spawned and the player gains one life; otherwise nothing changes.
   */
  function WinRound(w: World): (r: World)
    ensures |w.invaderShips| == 0 ==>
      && |r.invaderShips| == FORMATION_SIZE
      && (forall k :: 0 <= k < |r.invaderShips| ==> IsFormationShip(r.invaderShips[k], k / COLUMNS, k % COLUMNS + 1))
      && r.defenderLives == w.defenderLives + 1
      && r == w.(invaderShips := r.invaderShips, defenderLives := r.defenderLives)
    ensures |w.invaderShips| > 0 ==> r == w
  {
    if |w.invaderShips| == 0 then
      var spawned := AddInvaderShips(w);
      spawned.(defenderLives := spawned.defenderLives + 1)
    else
      w
  }

  /** After the round check there is always a formation to fight. */
  lemma WinRoundLeavesInvaders(w: World)
    ensures |WinRound(w).invaderShips| > 0
  {
  }

  /** A second round check in a row changes nothing: one wave, one extra life. */
  lemma WinRoundIdempotent(w: World)
    ensures WinRound(WinRound(w)) == WinRound(w)
  {
    WinRoundLeavesInvaders(w);
  }

  /** The round check keeps every collection holding only its own kind. */
  lemma WinRoundPreservesWellFormed(w: World)
    requires WellFormed(w)
    ensures WellFormed(WinRound(w))
  {
    if |w.invaderShips| == 0 {
      assert WinRound(w).invaderShips == Formation();
      FormationAreInvaders();
    }
  }

  /**
    Clearing every enemy ship and running the round check yields 55 ships
    and exactly one more life than before.
   */
  lemma ClearedWaveScenario(w: World)
    ensures var r := WinRound(w.(invaderShips := []));
      && |r.invaderShips| == 55
      && r.defenderLives == w.defenderLives + 1
      && r.score == w.score && r.bullets == w.bullets && r.stars == w.stars
  {
  }

  // ---------------------------------------------------------------------
  // Removal

  /** The collection removal dispatches a non-star entity to, by its kind. */
  function Home(w: World, o: Entity): seq<Entity>
    requires !o.Star?
  {
    match o
    case Bullet(_, _, _) => w.bullets
    case Ship(_, _, _, _) => w.invaderShips
    case ShieldPiece(_) => w.shieldPieces
  }

  /**
    Removal: a bullet is deleted from the bullets, any ship (the player's
    included) from the enemy ships, a shield piece from the shield pieces,
    each by deleting the element at the position `indexOf` reports. A star
    matches no branch. Only the chosen collection changes.
   */
  function Remove(w: World, o: Entity): (r: World)
    ensures o.Bullet? ==> r == w.(bullets := r.bullets)
    ensures o.Ship? ==> r == w.(invaderShips := r.invaderShips)
    ensures o.ShieldPiece? ==> r == w.(shieldPieces := r.shieldPieces)
    ensures o.Star? ==> r == w
    ensures !o.Star? ==> |Home(w, o)| > 0 ==> |Home(r, o)| == |Home(w, o)| - 1
    ensures !o.Star? ==> |Home(w, o)| == 0 ==> Home(r, o) == []
  {
    match o
    case Bullet(_, _, _) => w.(bullets := RemoveFrom(w.bullets, o))
    case Ship(_, _, _, _) => w.(invaderShips := RemoveFrom(w.invaderShips, o))
    case ShieldPiece(_) => w.(shieldPieces := RemoveFrom(w.shieldPieces, o))
    case Star(_, _, _) => w
  }

  /**
    Removing a present entity deletes exactly its first occurrence from its
    collection and keeps the remaining elements in their order.
   */
  lemma RemovePresent(w: World, o: Entity)
    requires !o.Star? && o in Home(w, o)
    ensures var s := Home(w, o); var i := IndexOf(s, o);
      && 0 <= i < |s| && s[i] == o
      && Home(Remove(w, o), o) == s[..i] + s[i + 1..]
      && multiset(Home(Remove(w, o), o)) == multiset(s) - multiset{o}
  {
    RemoveFromPresent(Home(w, o), o);
  }

  /**
    Removing an absent entity is not a no-op: `indexOf` answers -1, and
    `splice(-1, 1)` deletes the last element of the collection.
   */
  lemma RemoveAbsent(w: World, o: Entity)
    requires !o.Star? && o !in Home(w, o) && |Home(w, o)| > 0
    ensures Home(Remove(w, o), o) == Home(w, o)[..|Home(w, o)| - 1]
  {
    RemoveFromAbsent(Home(w, o), o);
  }

  /**
    In particular, removing the player's ship, which is never among the
    enemy ships, deletes the last enemy ship.
   */
  lemma RemoveDefenderDropsLastInvader(w: World)
    requires WellFormed(w) && |w.invaderShips| > 0
    ensures Remove(w, w.defender) == w.(invaderShips := w.invaderShips[..|w.invaderShips| - 1])
  {
    assert w.defender !in w.invaderShips;
    RemoveAbsent(w, w.defender);
  }

  /** Removal keeps every collection holding only its own kind. */
  lemma RemovePreservesWellFormed(w: World, o: Entity)
    requires WellFormed(w)
    ensures WellFormed(Remove(w, o))
  {
    match o
    case Bullet(_, _, _) => RemoveFromKeeps(w.bullets, o, (e: Entity) => e.Bullet?);
    case Ship(_, _, _, _) => RemoveFromKeeps(w.invaderShips, o, IsInvaderShip);
    case ShieldPiece(_) => RemoveFromKeeps(w.shieldPieces, o, (e: Entity) => e.ShieldPiece?);
    case Star(_, _, _) =>
  }

  /**
    Removal that leaves the world alone when the entity is not in its
    collection: the guarded form of `Remove`.
   */
  function RemoveIfPresent(w: World, o: Entity): (r: World)
    ensures !o.Star? ==> multiset(Home(r, o)) == multiset(Home(w, o)) - multiset{o}
    ensures o.Bullet? ==> r == w.(bullets := r.bullets)
    ensures o.Ship? ==> r == w.(invaderShips := r.invaderShips)
    ensures o.ShieldPiece? ==> r == w.(shieldPieces := r.shieldPieces)
    ensures o.Star? ==> r == w
    ensures !o.Star? && o !in Home(w, o) ==> r == w
  {
    if !o.Star? && o in Home(w, o) then
      RemovePresent(w, o);
      Remove(w, o)
    else
      assert !o.Star? ==> multiset(Home(w, o))[o] == 0;
      w
  }

  /** On a present entity the guarded removal is the removal itself. */
  lemma RemoveIfPresentAgrees(w: World, o: Entity)
    requires !o.Star? && o in Home(w, o)
    ensures RemoveIfPresent(w, o) == Remove(w, o)
  {
  }

  // ---------------------------------------------------------------------
  // Collection views

  /** Everything that moves and is drawn: shield pieces, bullets, enemy ships, stars. */
  function GetAllObjects(w: World): (r: seq<Entity>)
    ensures |r| == |w.shieldPieces| + |w.bullets| + |w.invaderShips| + |w.stars|
    ensures r[..|w.shieldPieces|] == w.shieldPieces
    ensures r[|w.shieldPieces|..|w.shieldPieces| + |w.bullets|] == w.bullets
    ensures r[|w.shieldPieces| + |w.bullets|..|r| - |w.stars|] == w.invaderShips
    ensures r[|r| - |w.stars|..] == w.stars
  {
    w.shieldPieces + w.bullets + w.invaderShips + w.stars
  }

  /** The player's ship is not among the objects that move with the world. */
  lemma DefenderNotInAllObjects(w: World)
    requires WellFormed(w)
    ensures w.defender !in GetAllObjects(w)
  {
    var all := GetAllObjects(w);
    forall i | 0 <= i < |all|
      ensures all[i] != w.defender
    {
      if i < |w.shieldPieces| {
        assert all[i] == w.shieldPieces[i];
      } else if i < |w.shieldPieces| + |w.bullets| {
        assert all[i] == w.bullets[i - |w.shieldPieces|];
      } else if i < |all| - |w.stars| {
        assert all[i] == w.invaderShips[i - |w.shieldPieces| - |w.bullets|];
      } else {
        assert all[i] == w.stars[i - (|all| - |w.stars|)];
      }
    }
  }

  /**
    The snapshot the collision pass works on: one entry per bullet, enemy
    ship and shield piece, plus the player's ship between the enemy ships
    and the shield pieces.
   */
  function CollisionObjects(w: World): (r: seq<Entity>)
    ensures |r| == |w.bullets| + |w.invaderShips| + 1 + |w.shieldPieces|
    ensures r[|w.bullets| + |w.invaderShips|] == w.defender
  {
    w.bullets + w.invaderShips + [w.defender] + w.shieldPieces
  }

  /**
    The snapshot's order: the bullets, then the enemy ships, then the
    player's ship, then the shield pieces, each block as it is in the world.
   */
  lemma CollisionObjectsOrder(w: World)
    ensures var r := CollisionObjects(w);
      && r[..|w.bullets|] == w.bullets
      && r[|w.bullets|..|w.bullets| + |w.invaderShips|] == w.invaderShips
      && r[|w.bullets| + |w.invaderShips| + 1..] == w.shieldPieces
  {
  }

  /**
    In a well-formed world the collision snapshot holds no star and the
    player's ship exactly once.
   */
  lemma CollisionObjectsShape(w: World)
    requires WellFormed(w)
    ensures forall k :: 0 <= k < |CollisionObjects(w)| ==> !CollisionObjects(w)[k].Star?
    ensures multiset(CollisionObjects(w))[w.defender] == 1
  {
    var r := CollisionObjects(w);
    forall k | 0 <= k < |r|
      ensures !r[k].Star?
    {
      if k < |w.bullets| {
        assert r[k] == w.bullets[k];
      } else if k < |w.bullets| + |w.invaderShips| {
        assert r[k] == w.invaderShips[k - |w.bullets|];
      } else if k > |w.bullets| + |w.invaderShips| {
        assert r[k] == w.shieldPieces[k - |w.bullets| - |w.invaderShips| - 1];
      }
    }
    assert w.defender !in w.bullets;
    assert w.defender !in w.invaderShips;
    assert w.defender !in w.shieldPieces;
    assert r == w.bullets + w.invaderShips + [w.defender] + w.shieldPieces;
  }

  /**
    The collision snapshot is the moving objects without the stars, plus
    the player's ship.
   */
  lemma CollisionObjectsVersusAll(w: World)
    ensures multiset(CollisionObjects(w)) + multiset(w.stars)
         == multiset(GetAllObjects(w)) + multiset{w.defender}
  {
    assert CollisionObjects(w) == w.bullets + w.invaderShips + [w.defender] + w.shieldPieces;
    assert GetAllObjects(w) == w.shieldPieces + w.bullets + w.invaderShips + w.stars;
  }

  // ---------------------------------------------------------------------
  // Whole-collection updates

  /**
    The moves of a fixed list of objects, in order. `move(v, e)` is the
    world after object `e` moves in world `v`: an object's own move may
    change anything in the world it belongs to, its own removal included.
   */
  function MovePass(w: World, objects: seq<Entity>, move: (World, Entity) -> World): World
    decreases |objects|
  {
    if |objects| == 0 then w
    else move(MovePass(w, objects[..|objects| - 1], move), objects[|objects| - 1])
  }

  /**
    The move pass: the list of all objects is taken once, at the start, and
    every object of it moves in turn, whatever earlier moves did to the
    world's collections.
   */
  function MoveObjects(w: World, move: (World, Entity) -> World): (r: World)
    ensures GetAllObjects(w) == [] ==> r == w
  {
    MovePass(w, GetAllObjects(w), move)
  }

  /** Moving the objects of `a` and then those of `b` is moving those of `a + b`. */
  lemma {:induction false} MovePassSplit(w: World, a: seq<Entity>, b: seq<Entity>, move: (World, Entity) -> World)
    ensures MovePass(w, a + b, move) == MovePass(MovePass(w, a, move), b, move)
    decreases |b|
  {
    if |b| == 0 {
      assert a + b == a;
    } else {
      var b' := b[..|b| - 1];
      MovePassSplit(w, a, b', move);
      assert (a + b)[..|a + b| - 1] == a + b';
      assert (a + b)[|a + b| - 1] == b[|b| - 1];
    }
  }

  /**
    The move pass moves the shield pieces first, then the bullets, then the
    enemy ships, then the stars, each block as the world held it when the
    pass began.
   */
  lemma MoveObjectsByBlocks(w: World, move: (World, Entity) -> World)
    ensures MoveObjects(w, move)
         == MovePass(MovePass(MovePass(MovePass(w, w.shieldPieces, move), w.bullets, move), w.invaderShips, move), w.stars, move)
  {
    MovePassSplit(w, w.shieldPieces + w.bullets + w.invaderShips, w.stars, move);
    MovePassSplit(w, w.shieldPieces + w.bullets, w.invaderShips, move);
    MovePassSplit(w, w.shieldPieces, w.bullets, move);
  }

  /**
    A world property that every move of a listed object keeps holds after
    the whole pass over the list.
   */
  lemma {:induction false} MovePassKeeps(w: World, objects: seq<Entity>, move: (World, Entity) -> World, Inv: World -> bool)
    requires Inv(w)
    requires forall v, e :: Inv(v) && e in objects ==> Inv(move(v, e))
    ensures Inv(MovePass(w, objects, move))
    decreases |objects|
  {
    if |objects| > 0 {
      MovePassKeeps(w, objects[..|objects| - 1], move, Inv);
      assert objects[|objects| - 1] in objects;
    }
  }

  /** Applies a per-ship operation to every enemy ship, in order, and nothing else. */
  function MapInvaders(w: World, op: Entity -> Entity): (r: World)
    ensures |r.invaderShips| == |w.invaderShips|
    ensures forall i :: 0 <= i < |w.invaderShips| ==> r.invaderShips[i] == op(w.invaderShips[i])
    ensures r == w.(invaderShips := r.invaderShips)
  {
    w.(invaderShips := MapSeq(w.invaderShips, op))
  }

  /** Turns every enemy ship around (`reverse` is each ship's own operation). */
  function ReverseAllInvaders(w: World, reverse: Entity -> Entity): (r: World)
    ensures |r.invaderShips| == |w.invaderShips|
    ensures forall i :: 0 <= i < |w.invaderShips| ==> r.invaderShips[i] == reverse(w.invaderShips[i])
    ensures r == w.(invaderShips := r.invaderShips)
  {
    MapInvaders(w, reverse)
  }

  /**
    Speeds up every enemy ship (`increaseSpeed` is each ship's own
    operation). Like the reversal, it is `MapInvaders` with another per-ship
    operation.
   */
  function IncreaseInvadersSpeed(w: World, increaseSpeed: Entity -> Entity): (r: World)
    ensures |r.invaderShips| == |w.invaderShips|
    ensures forall i :: 0 <= i < |w.invaderShips| ==> r.invaderShips[i] == increaseSpeed(w.invaderShips[i])
    ensures r == w.(invaderShips := r.invaderShips)
  {
    MapInvaders(w, increaseSpeed)
  }

  /** When a ship's own reversal undoes itself, reversing the whole formation twice restores the world. */
  lemma ReverseTwiceRestores(w: World, reverse: Entity -> Entity)
    requires forall e :: reverse(reverse(e)) == e
    ensures ReverseAllInvaders(ReverseAllInvaders(w, reverse), reverse) == w
  {
    var r := ReverseAllInvaders(ReverseAllInvaders(w, reverse), reverse);
    assert r.invaderShips == w.invaderShips;
  }

  /** Two formation-wide updates in a row are one update by their composition. */
  lemma MapInvadersCompose(w: World, f: Entity -> Entity, g: Entity -> Entity)
    ensures MapInvaders(MapInvaders(w, f), g) == MapInvaders(w, e => g(f(e)))
  {
    assert MapInvaders(MapInvaders(w, f), g).invaderShips == MapInvaders(w, e => g(f(e))).invaderShips;
  }

  /** A per-ship operation that keeps enemy ships enemy ships keeps the world well formed. */
  lemma MapInvadersPreservesWellFormed(w: World, op: Entity -> Entity)
    requires WellFormed(w)
    requires forall e :: IsInvaderShip(e) ==> IsInvaderShip(op(e))
    ensures WellFormed(MapInvaders(w, op))
  {
  }
}
