/** The two kinds of objects the scheduler and the world model point at.
    Only the state that the core reads or writes is kept. */
module Entities {

  /** A creature: its identity, the time of its next turn, and the flags the
      world step loop reads. */
  class Creature {
    /** Unique among all creatures; breaks ties between equal local times. */
    const uniqueId: int
    /** The time of the creature's next turn. */
    var localTime: real
    var dead: bool
    /** Whether the player currently controls (possesses) this creature. */
    var isPlayer: bool
    /** The level the creature stands on, null when it is not placed. */
    var level: Level?

    constructor (id: int, time: real, onLevel: Level?)
      ensures uniqueId == id && localTime == time && level == onLevel
      ensures !dead && !isPlayer
    {
      uniqueId := id;
      localTime := time;
      level := onLevel;
      dead := false;
      isPlayer := false;
    }
  }

  /** A level: only the marker of the player standing on it matters to the core. */
  class Level {
    const name: string
    var player: Creature?

    constructor (levelName: string)
      ensures name == levelName && player == null
    {
      name := levelName;
      player := null;
    }
  }
}
