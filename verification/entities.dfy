/**
  The entities that live in the game world: stars, bullets, ships and shield
  pieces. Positions and velocities are exact reals, so the decimal constants
  of the game (0.3, 0.52) are represented without rounding.
 */
module Entities {

  /** A 2D vector `[x, y]`, used for positions and velocities. */
  datatype Vec = Vec(x: real, y: real)

  /** The affiliation of a ship or bullet. */
  datatype Side = DefenderSide | InvaderSide

  /** The visual/behaviour variant of a ship. */
  datatype ShipName = InvaderName | SoldierName | GruntName | DefenderName

  /**
    The closed set of entity kinds. Only the fields the world itself sets or
    reads are kept; the rest of each kind's state belongs to its own module.
   */
  datatype Entity =
    | Star(id: int, pos: Vec, vel: Vec)
    | Bullet(pos: Vec, vel: Vec, side: Side)
    | Ship(name: ShipName, pos: Vec, vel: Vec, side: Side)
    | ShieldPiece(pos: Vec)

  /** True of an enemy ship of the formation. */
  predicate IsInvaderShip(e: Entity)
  {
    e.Ship? && e.side == InvaderSide && e.name != DefenderName
  }

  /** True of the player's ship. */
  predicate IsDefenderShip(e: Entity)
  {
    e.Ship? && e.side == DefenderSide && e.name == DefenderName
  }
}
