/**
  The collision pass: every ordered pair of the snapshot of collidable
  objects, taken once at the start of the pass, is offered to the
  eligibility rule, then to the overlap test, then to the resolution. The
  three are supplied by the entity kinds and left uninterpreted here.
 */
module Collisions {
  import opened Entities
  import opened Game

  /** The pairs (i, 0), (i, 1), ..., (i, j - 1): the first `j` pairs of row `i`. */
  function RowPart(i: nat, j: nat): (r: seq<(nat, nat)>)
    ensures |r| == j
  {
    if j == 0 then [] else RowPart(i, j - 1) + [(i, j - 1)]
  }

  /** The first `i` full rows of a square of side `n`, each row left to right. */
  function Rows(n: nat, i: nat): (r: seq<(nat, nat)>)
    ensures |r| == i * n
  {
    if i == 0 then [] else Rows(n, i - 1) + RowPart(i - 1, n)
  }

  /** Every ordered pair of indices below `n`, row by row: (0, 0), (0, 1), ..., (n - 1, n - 1). */
  function RowMajor(n: nat): seq<(nat, nat)>
  {
    Rows(n, n)
  }

  /** Entry `c` of a row part is column `c` of that row. */
  lemma {:induction false} RowPartEntry(i: nat, j: nat, c: nat)
    requires c < j
    ensures RowPart(i, j)[c] == (i, c)
    decreases j
  {
    if c < j - 1 {
      RowPartEntry(i, j - 1, c);
    }
  }

  /**
    Entry `k` of the first `i` rows is a pair (a, b) with a < i and b < n,
    and sits exactly at index a * n + b.
   */
  lemma {:induction false} RowsEntry(n: nat, i: nat, k: nat)
    requires k < |Rows(n, i)|
    ensures Rows(n, i)[k].0 < i && Rows(n, i)[k].1 < n
    ensures k == Rows(n, i)[k].0 * n + Rows(n, i)[k].1
    decreases i
  {
    var before := Rows(n, i - 1);
    if k < |before| {
      RowsEntry(n, i - 1, k);
    } else {
      var c := k - |before|;
      RowPartEntry(i - 1, n, c);
    }
  }

  /** The pair (a, b) with a < i and b < n sits at index a * n + b of the first `i` rows. */
  lemma {:induction false} RowsCover(n: nat, i: nat, a: nat, b: nat)
    requires a < i && b < n
    ensures a * n + b < |Rows(n, i)| && Rows(n, i)[a * n + b] == (a, b)
    decreases i
  {
    var before := Rows(n, i - 1);
    if a < i - 1 {
      RowsCover(n, i - 1, a, b);
    } else {
      RowPartEntry(i - 1, n, b);
    }
  }

  /**
    Pair coverage: each ordered pair (i, j) of indices below `n`, including
    i == j, occurs in the row-major order exactly once, at `i * n + j`, and
    nothing else occurs in it.
   */
  lemma RowMajorCoversEachPairOnce(n: nat, i: nat, j: nat)
    requires i < n && j < n
    ensures i * n + j < |RowMajor(n)| && RowMajor(n)[i * n + j] == (i, j)
    ensures forall k :: 0 <= k < |RowMajor(n)| && RowMajor(n)[k] == (i, j) ==> k == i * n + j
  {
    RowsCover(n, n, i, j);
    forall k | 0 <= k < |RowMajor(n)| && RowMajor(n)[k] == (i, j)
      ensures k == i * n + j
    {
      RowsEntry(n, n, k);
    }
  }

  /** The row-major order has exactly n * n pairs, all below `n`. */
  lemma RowMajorInRange(n: nat, k: nat)
    requires k < |RowMajor(n)|
    ensures |RowMajor(n)| == n * n
    ensures RowMajor(n)[k].0 < n && RowMajor(n)[k].1 < n
  {
    RowsEntry(n, n, k);
  }

  /** Every pair of `pairs` indexes into `objects`. */
  predicate PairsWithin(pairs: seq<(nat, nat)>, objects: seq<Entity>)
  {
    forall k :: 0 <= k < |pairs| ==> pairs[k].0 < |objects| && pairs[k].1 < |objects|
  }

  /**
    One step of the pass: the pair (i, j) of the snapshot is resolved when
    it is eligible in the current world and the two overlap. A pair outside
    the snapshot changes nothing (the pass never offers one).
   */
  function ResolveStep(
    w: World, objects: seq<Entity>, pair: (nat, nat),
    valid: (World, Entity, Entity) -> bool, hit: (Entity, Entity) -> bool,
    collide: (World, Entity, Entity) -> World): World
  {
    if pair.0 < |objects| && pair.1 < |objects|
       && valid(w, objects[pair.0], objects[pair.1]) && hit(objects[pair.0], objects[pair.1])
    then collide(w, objects[pair.0], objects[pair.1])
    else w
  }

  /**
    The reference meaning of the pass: starting from `w`, each pair of
    `pairs` in order is taken through one step. The pair's objects are
    always read from the fixed `objects` snapshot.
   */
  function ResolvePairs(
    w: World, objects: seq<Entity>, pairs: seq<(nat, nat)>,
    valid: (World, Entity, Entity) -> bool, hit: (Entity, Entity) -> bool,
    collide: (World, Entity, Entity) -> World): World
    decreases |pairs|
  {
    if |pairs| == 0 then w
    else
      var before := ResolvePairs(w, objects, pairs[..|pairs| - 1], valid, hit, collide);
      ResolveStep(before, objects, pairs[|pairs| - 1], valid, hit, collide)
  }

  /** Taking one more pair through the pass is one more step. */
  lemma ResolvePairsSnoc(
    w: World, objects: seq<Entity>, pairs: seq<(nat, nat)>, pair: (nat, nat),
    valid: (World, Entity, Entity) -> bool, hit: (Entity, Entity) -> bool,
    collide: (World, Entity, Entity) -> World)
    ensures ResolvePairs(w, objects, pairs + [pair], valid, hit, collide)
         == ResolveStep(ResolvePairs(w, objects, pairs, valid, hit, collide), objects, pair, valid, hit, collide)
  {
    assert (pairs + [pair])[..|pairs|] == pairs;
  }

  /** Row-major pairs of a square of side `n` index into any snapshot of `n` objects. */
  lemma RowMajorWithin(n: nat, objects: seq<Entity>)
    requires |objects| == n
    ensures PairsWithin(RowMajor(n), objects)
  {
    forall k | 0 <= k < |RowMajor(n)|
      ensures RowMajor(n)[k].0 < n && RowMajor(n)[k].1 < n
    {
      RowMajorInRange(n, k);
    }
  }

  /** One more pair of row `i` extends the pairs offered so far by exactly that pair. */
  lemma ExtendRow(done: seq<(nat, nat)>, i: nat, j: nat)
    ensures done + RowPart(i, j + 1) == done + RowPart(i, j) + [(i, j)]
  {
  }

  /**
    The nested loop of the collision pass over a fixed snapshot `objects`:
    for every row `i` it runs the inner loop `CheckRow`. `visited` records
    the index pairs in the order they were offered.
   */
  method CheckPairs(
    w: World, objects: seq<Entity>,
    valid: (World, Entity, Entity) -> bool, hit: (Entity, Entity) -> bool,
    collide: (World, Entity, Entity) -> World)
    returns (r: World, visited: seq<(nat, nat)>)
    ensures visited == RowMajor(|objects|)
    ensures r == ResolvePairs(w, objects, visited, valid, hit, collide)
  {
    var n := |objects|;
    r := w;
    visited := [];
    var i := 0;
    while i < n
      invariant 0 <= i <= n
      invariant visited == Rows(n, i)
      invariant r == ResolvePairs(w, objects, visited, valid, hit, collide)
    {
      r, visited := CheckRow(w, objects, i, r, visited, valid, hit, collide);
      i := i + 1;
    }
  }

  /**
    The inner loop for row `i`: for every column `j` it offers
    (objects[i], objects[j]) to `valid` (which also sees the current world),
    then to `hit`, and resolves it with `collide` when both accept.
   */
  method CheckRow(
    w: World, objects: seq<Entity>, i: nat, r0: World, visited0: seq<(nat, nat)>,
    valid: (World, Entity, Entity) -> bool, hit: (Entity, Entity) -> bool,
    collide: (World, Entity, Entity) -> World)
    returns (r: World, visited: seq<(nat, nat)>)
    requires i < |objects|
    requires visited0 == Rows(|objects|, i)
    requires r0 == ResolvePairs(w, objects, visited0, valid, hit, collide)
    ensures visited == Rows(|objects|, i + 1)
    ensures r == ResolvePairs(w, objects, visited, valid, hit, collide)
  {
    var n := |objects|;
    r, visited := r0, visited0;
    var j := 0;
    while j < n
      invariant 0 <= j <= n
      invariant visited == visited0 + RowPart(i, j)
      invariant r == ResolvePairs(w, objects, visited, valid, hit, collide)
    {
      ghost var before := r;
      var a := objects[i];
      var b := objects[j];
      if valid(r, a, b) {
        if hit(a, b) {
          r := collide(r, a, b);
        }
      }
      assert r == ResolveStep(before, objects, (i, j), valid, hit, collide);
      ResolvePairsSnoc(w, objects, visited, (i, j), valid, hit, collide);
      ExtendRow(visited0, i, j);
      visited := visited + [(i, j)];
      j := j + 1;
    }
    assert Rows(n, i + 1) == visited0 + RowPart(i, n);
  }

  /**
    The collision pass. It takes the snapshot of collidable objects once,
    then runs the pair loop over it. Resolutions change the world, never the
    snapshot, so an object removed by an earlier resolution is still offered
    in later pairs.
   */
  method CheckCollisions(
    w: World,
    valid: (World, Entity, Entity) -> bool, hit: (Entity, Entity) -> bool,
    collide: (World, Entity, Entity) -> World)
    returns (r: World, visited: seq<(nat, nat)>)
    ensures |visited| == |CollisionObjects(w)| * |CollisionObjects(w)|
    ensures visited == RowMajor(|CollisionObjects(w)|)
    ensures PairsWithin(visited, CollisionObjects(w))
    ensures r == ResolvePairs(w, CollisionObjects(w), visited, valid, hit, collide)
  {
    var objects := CollisionObjects(w);
    r, visited := CheckPairs(w, objects, valid, hit, collide);
    RowMajorWithin(|objects|, objects);
  }

  /**
    When no pair of the snapshot is both eligible and overlapping, the pass
    leaves the world as it was.
   */
  lemma {:induction false} NoContactNoChange(
    w: World, objects: seq<Entity>, pairs: seq<(nat, nat)>,
    valid: (World, Entity, Entity) -> bool, hit: (Entity, Entity) -> bool,
    collide: (World, Entity, Entity) -> World)
    requires forall a, b :: a in objects && b in objects ==> !(valid(w, a, b) && hit(a, b))
    ensures ResolvePairs(w, objects, pairs, valid, hit, collide) == w
    decreases |pairs|
  {
    if |pairs| > 0 {
      NoContactNoChange(w, objects, pairs[..|pairs| - 1], valid, hit, collide);
      var p := pairs[|pairs| - 1];
      if p.0 < |objects| && p.1 < |objects| {
        assert objects[p.0] in objects && objects[p.1] in objects;
      }
    }
  }

  /**
    Every resolution the pass performs is on a pair drawn from the
    snapshot: a world-invariant that each resolution of snapshot objects
    keeps holds after the whole pass.
   */
  lemma {:induction false} ResolvePairsKeeps(
    w: World, objects: seq<Entity>, pairs: seq<(nat, nat)>,
    valid: (World, Entity, Entity) -> bool, hit: (Entity, Entity) -> bool,
    collide: (World, Entity, Entity) -> World, Inv: World -> bool)
    requires Inv(w)
    requires forall v, a, b :: Inv(v) && a in objects && b in objects && valid(v, a, b) && hit(a, b) ==> Inv(collide(v, a, b))
    ensures Inv(ResolvePairs(w, objects, pairs, valid, hit, collide))
    decreases |pairs|
  {
    if |pairs| > 0 {
      ResolvePairsKeeps(w, objects, pairs[..|pairs| - 1], valid, hit, collide, Inv);
      var p := pairs[|pairs| - 1];
      if p.0 < |objects| && p.1 < |objects| {
        assert objects[p.0] in objects && objects[p.1] in objects;
      }
    }
  }

  /** A pass over a world where nothing touches leaves the world unchanged. */
  lemma QuietPass(
    w: World, valid: (World, Entity, Entity) -> bool, hit: (Entity, Entity) -> bool,
    collide: (World, Entity, Entity) -> World)
    requires forall a, b :: a in CollisionObjects(w) && b in CollisionObjects(w) ==> !(valid(w, a, b) && hit(a, b))
    ensures ResolvePairs(w, CollisionObjects(w), RowMajor(|CollisionObjects(w)|), valid, hit, collide) == w
  {
    var objects := CollisionObjects(w);
    NoContactNoChange(w, objects, RowMajor(|objects|), valid, hit, collide);
  }

  /**
    In a well-formed world no pair the pass offers involves a star: stars
    never take part in collisions.
   */
  lemma PassNeverOffersStars(w: World)
    requires WellFormed(w)
    ensures var objects := CollisionObjects(w); var pairs := RowMajor(|objects|);
      forall k :: 0 <= k < |pairs| ==>
        && pairs[k].0 < |objects| && pairs[k].1 < |objects|
        && !objects[pairs[k].0].Star? && !objects[pairs[k].1].Star?
  {
    var objects := CollisionObjects(w);
    RowMajorWithin(|objects|, objects);
    CollisionObjectsShape(w);
  }
}
