/**
  The formation spawner: the 5 x 11 grid of enemy ships the world adds at
  construction and again each time a wave is cleared, and the player's ship.
 */
module Spawner {
  import opened Entities

  const ROWS: nat := 5
  const COLUMNS: nat := 11
  /** The number of ships one formation adds. */
  const FORMATION_SIZE: nat := 55

  /** Every enemy ship starts drifting right at 0.3 per tick. */
  const INVADER_VEL: Vec := Vec(0.3, 0.0)

  /**
    The reference description of the ship at grid cell (`row`, `col`), with
    rows 0..4 and columns 1..11: row 0 holds "invader" ships, rows 1 and 2
    "soldier" ships and rows 3 and 4 "grunt" ships; column `col` sits at
    x = 50 * col and row `row` at y = 80 + 40 * row.
   */
  ghost predicate IsFormationShip(e: Entity, row: int, col: int)
  {
    && 0 <= row < ROWS && 1 <= col <= COLUMNS
    && e.Ship?
    && e.side == InvaderSide
    && e.vel == INVADER_VEL
    && e.pos == Vec(col as real * 50.0, 80.0 + 40.0 * row as real)
    && (row == 0 ==> e.name == InvaderName)
    && (row == 1 || row == 2 ==> e.name == SoldierName)
    && (row == 3 || row == 4 ==> e.name == GruntName)
  }

  /**
    The variant of the ships of row `row`, by the spawner's chain of tests
    `row < 1`, `row < 3`, `row > 2` (the last holds whenever it is reached).
   */
  function RowName(row: nat): ShipName
  {
    if row < 1 then InvaderName
    else if row < 3 then SoldierName
    else GruntName
  }

  /**
    The ships the inner loop pushes for one row, for columns `x` up to 11,
    all with variant `name` at height `y`.
   */
  function SpawnColumns(name: ShipName, y: real, x: nat): (r: seq<Entity>)
    requires x <= COLUMNS + 1
    decreases COLUMNS + 1 - x
    ensures |r| == COLUMNS + 1 - x
    ensures forall k :: 0 <= k < |r| ==>
      && r[k].Ship? && r[k].name == name && r[k].side == InvaderSide
      && r[k].vel == INVADER_VEL && r[k].pos == Vec((x + k) as real * 50.0, y)
  {
    if x < COLUMNS + 1 then
      [Ship(name, Vec(x as real * 50.0, y), INVADER_VEL, InvaderSide)] + SpawnColumns(name, y, x + 1)
    else
      []
  }

  /**
    The ships the outer loop pushes for rows `row` up to 4, where `y` is the
    running height, which the loop raises by 40 after each row.
   */
  function SpawnRows(row: nat, y: real): (r: seq<Entity>)
    requires row <= ROWS
    requires y == 80.0 + 40.0 * row as real
    decreases ROWS - row
    ensures |r| == COLUMNS * (ROWS - row)
    ensures forall k :: 0 <= k < |r| ==> IsFormationShip(r[k], row + k / COLUMNS, k % COLUMNS + 1)
  {
    if row < ROWS then
      var here := SpawnColumns(RowName(row), y, 1);
      var rest := SpawnRows(row + 1, y + 40.0);
      StackRows(row, here, rest);
      here + rest
    else
      []
  }

  /**
    One row of eleven cells followed by the formation's later rows is the
    formation from that row on: cell indices of the later rows shift by 11.
   */
  lemma StackRows(row: nat, here: seq<Entity>, rest: seq<Entity>)
    requires row < ROWS
    requires here == SpawnColumns(RowName(row), 80.0 + 40.0 * row as real, 1)
    requires forall k :: 0 <= k < |rest| ==> IsFormationShip(rest[k], row + 1 + k / COLUMNS, k % COLUMNS + 1)
    ensures forall k :: 0 <= k < |here + rest| ==> IsFormationShip((here + rest)[k], row + k / COLUMNS, k % COLUMNS + 1)
  {
    var s := here + rest;
    forall k | 0 <= k < |s|
      ensures IsFormationShip(s[k], row + k / COLUMNS, k % COLUMNS + 1)
    {
      if k < 11 {
        assert k / 11 == 0 && k % 11 == k;
        assert s[k] == here[k];
      } else {
        assert (k - 11) / 11 == k / 11 - 1 && (k - 11) % 11 == k % 11;
        assert s[k] == rest[k - 11];
      }
    }
  }

  /**
    The 55 ships one call of the spawner appends, in the order it pushes
    them: row by row from the top, and left to right within a row.
   */
  function Formation(): (r: seq<Entity>)
    ensures |r| == FORMATION_SIZE
    ensures forall k :: 0 <= k < |r| ==> IsFormationShip(r[k], k / COLUMNS, k % COLUMNS + 1)
  {
    SpawnRows(0, 80.0)
  }

  /** The ship at grid cell (`row`, `col`) is entry `11 * row + col - 1`. */
  lemma FormationCell(row: nat, col: nat)
    requires row < ROWS && 1 <= col <= COLUMNS
    ensures COLUMNS * row + col - 1 < |Formation()|
    ensures IsFormationShip(Formation()[COLUMNS * row + col - 1], row, col)
  {
    var k := COLUMNS * row + col - 1;
    assert k / COLUMNS == row && k % COLUMNS == col - 1;
  }

  /** Every ship of the formation is an enemy ship. */
  lemma FormationAreInvaders()
    ensures forall k :: 0 <= k < |Formation()| ==> IsInvaderShip(Formation()[k])
  {
  }

  /**
    No two entries of the formation are equal (they occupy distinct cells),
    so deleting "the" ship by value is unambiguous.
   */
  lemma FormationDistinct(i: nat, j: nat)
    requires i < j < |Formation()|
    ensures Formation()[i] != Formation()[j]
  {
    var f := Formation();
    DistinctCells(i, j);
    if i % 11 != j % 11 {
      assert f[i].pos.x != f[j].pos.x;
    } else {
      assert f[i].pos.y != f[j].pos.y;
    }
  }

  /** Distinct indices fall in distinct (row, column) cells. */
  lemma DistinctCells(i: nat, j: nat)
    requires i != j
    ensures i / 11 != j / 11 || i % 11 != j % 11
  {
    assert i == 11 * (i / 11) + i % 11;
    assert j == 11 * (j / 11) + j % 11;
  }

  /**
    The player's ship as the world spawns it in an arena of `dimX` by
    `dimY`: at ((dimX - 30) * 0.52, dimY - 70), standing still.
   */
  function SpawnDefender(dimX: real, dimY: real): (d: Entity)
    ensures IsDefenderShip(d)
    ensures d.vel == Vec(0.0, 0.0)
    ensures d.pos.x == 0.52 * dimX - 15.6 && d.pos.y + 70.0 == dimY
  {
    Ship(DefenderName, Vec((dimX - 30.0) * 0.52, dimY - 70.0), Vec(0.0, 0.0), DefenderSide)
  }
}
