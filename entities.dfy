/** The simulator's records: players, teams and the pitch. */
module Entities {
  import opened Geometry

  /** `position_role`: the roles `create_sample_team` uses. */
  datatype Role = GK | DEF | MF | FWD

  /** A player record; the simulator replaces its `position` when it repositions players. */
  datatype Player = Player(name: string, position: Vec, role: Role, interceptionStat: real)

  /** Default of `Player.interception_stat`. */
  const DEFAULT_INTERCEPTION_STAT: real := 0.5

  /** Pitch length and width, in metres. */
  const PITCH_LENGTH: real := 105.0
  const PITCH_WIDTH: real := 68.0

  /** The default position of a new `Ball`: the centre spot. */
  const KICKOFF: Vec := Vec(52.5, 34.0)

  predicate InPitch(v: Vec) {
    0.0 <= v.x <= PITCH_LENGTH && 0.0 <= v.y <= PITCH_WIDTH
  }

  /** A team: a name and an ordered roster whose players' positions change in place. */
  class Team {
    var name: string
    var players: seq<Player>

    constructor (name: string, players: seq<Player>)
      ensures this.name == name && this.players == players
    {
      this.name := name;
      this.players := players;
    }

    /** Dataclass equality: two teams are `==` when their names and rosters are equal. */
    predicate SameAs(other: Team)
      reads this, other
    {
      name == other.name && players == other.players
    }
  }
}
