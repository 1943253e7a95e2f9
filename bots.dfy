/** Model of the bot side of the game (bots/bots.py): the decision-source
    interface every bot offers to the game manager, and the one concrete
    strategy, the random attacker.

    The interface class is abstract in the source, so the random attacker is
    the only kind of bot that is ever created; this model therefore declares
    the interface's state and members directly on `RandomAttacker`. */
module Bots {
  import opened Wrappers

  /** A point of the playfield (pixels). */
  datatype Point = Point(x: int, y: int)

  /** One entry of the list of tanks handed to a bot: the owning bot's name,
      the tank's position with y measured upwards, and its health. */
  datatype TankSummary = TankSummary(name: string, position: Point, health: int)

  /** The random attacker's default name and preferred colour. */
  const DefaultName: string := "Randomer"
  const DefaultPreferredColor: string := "green"

  class RandomAttacker {
    /** Name and preferred colour are fixed at construction: no member of the
        source ever assigns them again. */
    const name: string
    const preferredColor: string
    /** Where this bot's last shot landed; `None` until the game reports one
        (the source leaves the attribute unset until then). */
    var lastHit: Option<Point>

    constructor (name: string := DefaultName, preferredColor: string := DefaultPreferredColor)
      ensures this.name == name && this.preferredColor == preferredColor
      ensures lastHit == None
    {
      this.name := name;
      this.preferredColor := preferredColor;
      lastHit := None;
    }

    method GetName() returns (n: string)
      ensures n == name
    {
      n := name;
    }

    method GetPreferredColor() returns (c: string)
      ensures c == preferredColor
    {
      c := preferredColor;
    }

    /** Records where this bot's last shot landed. */
    method UpdateLastHit(position: Point)
      modifies this
      ensures lastHit == Some(position)
    {
      lastHit := Some(position);
    }

    /** Chooses an attack: an angle in degrees from the half-open range
        [-90, 90) and a power from [0, 100), independently of the other
        tanks. The random draw is modelled as an arbitrary choice within
        those ranges; no field of the bot changes. */
    method Attack(otherBots: seq<TankSummary>) returns (angle: int, power: int)
      ensures -90 <= angle < 90
      ensures 0 <= power < 100
    {
      angle :| -90 <= angle < 90;
      power :| 0 <= power < 100;
    }
  }
}
