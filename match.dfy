/** MatchSimulator: one action per step, the boundary check after it, and a log of events that
    becomes training data. Also the sample-team factory used to populate a match. */
module Match {
  import opened Wrappers
  import opened Text
  import opened Geometry
  import opened Entities
  import opened Physics
  import opened SetPieces

  /** The `result` an event records for a handled action. */
  datatype StepResult = Intercepted | Success | Shot | Dribble

  /** One logged step. Keys the source only sometimes sets (`result`, `interceptor`,
      `set_piece`) are options; `gameState` is the state before the step. */
  datatype Event = Event(
    action: string,
    ballBefore: Vec,
    possessionBefore: string,
    gameState: GameState,
    result: Option<StepResult>,
    interceptor: Option<string>,
    setPiece: Option<GameState>,
    ballAfter: Vec,
    possessionAfter: string)

  /** The random draws one step may consume: the goal-line coin of `check_boundaries`, the
      corner-side coin, and one box position per roster slot of each side. */
  datatype Dice = Dice(
    boundary: UnitDraw,
    side: UnitDraw,
    attack: seq<(UnitDraw, UnitDraw)>,
    defend: seq<(UnitDraw, UnitDraw)>)

  /** What the action itself does, before the boundary check. */
  datatype Outcome = Outcome(ball: Vec, turnover: bool, result: Option<StepResult>, interceptor: Option<string>)

  /** The intercepting defender, if any, is the first in roster order within the radius of the
      lane from the ball to the target. */
  predicate FirstInLane(ball: Vec, target: Vec, defenders: seq<Player>, i: int) {
    0 <= i < |defenders| && InLane(defenders[i].position, ball, target, INTERCEPTION_RADIUS) &&
    forall j :: 0 <= j < i ==> !InLane(defenders[j].position, ball, target, INTERCEPTION_RADIUS)
  }

  /** The action branch of `simulate_step`. A pass is checked against the defenders; an
      interception hands the ball, at the defender's position, to the defending team. Shots
      and dribbles move the ball straight to the target. Any other action, or a missing
      target, changes nothing and records no result. */
  function ActionOutcome(action: string, target: Option<Vec>, ball: Vec, defenders: seq<Player>): (o: Outcome)
    ensures o.result.None? <==> !(target.Some? && action in {"PASS", "SHOOT", "DRIBBLE"})
    ensures o.result.None? ==> o.ball == ball && !o.turnover && o.interceptor.None?
    ensures o.turnover <==> o.result == Some(Intercepted)
    ensures o.interceptor.Some? <==> o.turnover
    ensures o.result.Some? && !o.turnover ==> o.ball == target.value
    ensures action == "PASS" && target.Some? ==>
              (o.turnover <==> exists j :: 0 <= j < |defenders| &&
                                 InLane(defenders[j].position, ball, target.value, INTERCEPTION_RADIUS))
    ensures o.turnover ==>
              && action == "PASS" && target.Some?
              && exists i :: FirstInLane(ball, target.value, defenders, i) &&
                             o.ball == defenders[i].position && o.interceptor == Some(defenders[i].name)
    ensures action == "PASS" && target.Some? && !o.turnover ==> o.result == Some(Success)
    ensures action == "SHOOT" && target.Some? ==> o.result == Some(Shot)
    ensures action == "DRIBBLE" && target.Some? ==> o.result == Some(Dribble)
  {
    if action == "PASS" && target.Some? then
      var r := Interception(ball, target.value, defenders, INTERCEPTION_RADIUS);
      if r.0 then Outcome(r.1.value.position, true, Some(Intercepted), Some(r.1.value.name))
      else Outcome(target.value, false, Some(Success), None)
    else if action == "SHOOT" && target.Some? then Outcome(target.value, false, Some(Shot), None)
    else if action == "DRIBBLE" && target.Some? then Outcome(target.value, false, Some(Dribble), None)
    else Outcome(ball, false, None, None)
  }

  /** An intercepted pass leaves the ball within the interception radius of the passing lane. */
  lemma InterceptedBallNearLane(action: string, target: Option<Vec>, ball: Vec, defenders: seq<Player>)
    requires ActionOutcome(action, target, ball, defenders).turnover
    ensures target.Some? &&
            InLane(ActionOutcome(action, target, ball, defenders).ball, ball, target.value, INTERCEPTION_RADIUS)
  {
    var o := ActionOutcome(action, target, ball, defenders);
    var i :| FirstInLane(ball, target.value, defenders, i) && o.ball == defenders[i].position;
  }

  /** Where the ball ends a step: at its post-action position while play stays open, otherwise
      at the set-piece spot for the new state. */
  function BallAfter(o: Outcome, state: GameState, sideDraw: UnitDraw): Vec {
    if state == OpenPlay then o.ball else SetPieceSpot(state, sideDraw)
  }

  /** Whatever the action, the ball ends every step on the pitch. */
  lemma BallSettlesOnPitch(o: Outcome, boundaryDraw: UnitDraw, sideDraw: UnitDraw)
    ensures InPitch(BallAfter(o, CheckBoundaries(o.ball.x, o.ball.y, boundaryDraw), sideDraw))
  {
    SpotOnPitch(CheckBoundaries(o.ball.x, o.ball.y, boundaryDraw), sideDraw);
  }

  class MatchSimulator {
    const home: Team
    const away: Team
    /** `ball.position`. */
    var ball: Vec
    /** `possession_team`: always one of the two teams, by identity. */
    var possession: Team
    /** `set_piece_manager.game_state`. */
    var gameState: GameState
    /** The training-data log. */
    var events: seq<Event>

    predicate Valid()
      reads this
    {
      possession == home || possession == away
    }

    /** A new match: ball on the centre spot, home in possession, open play, no events. */
    constructor (home: Team, away: Team)
      ensures this.home == home && this.away == away
      ensures ball == KICKOFF && possession == home && gameState == OpenPlay && events == []
      ensures Valid()
    {
      this.home := home;
      this.away := away;
      ball := KICKOFF;
      possession := home;
      gameState := OpenPlay;
      events := [];
    }

    /** The defending team: the away team when the possessing team equals the home team as a
        record, the home team otherwise. */
    function Defending(): Team
      reads this, possession, home, away
    {
      if possession.SameAs(home) then away else home
    }

    /** With two teams that differ as records, the defending team is the one not in
        possession. Two equal records always leave the away team defending. */
    lemma DefendingIsOpponent()
      requires Valid()
      ensures Defending() == home || Defending() == away
      ensures !home.SameAs(away) ==> Defending() != possession
      ensures home.SameAs(away) ==> Defending() == away
    {
    }

    /** `simulate_step`: the action, then the boundary check, then one event appended to the
        log and returned. At a set piece the possessing team (after any turnover) attacks and
        the team chosen as defending before the action defends; after an interception these
        are the same team. */
    method SimulateStep(action: string, target: Option<Vec>, dice: Dice) returns (ev: Event)
      requires Valid()
      requires |dice.attack| >= |home.players| && |dice.attack| >= |away.players|
      requires |dice.defend| >= |home.players| && |dice.defend| >= |away.players|
      modifies this, home, away
      ensures Valid()
      ensures events == old(events) + [ev]
      ensures ev.action == action && ev.ballBefore == old(ball)
      ensures ev.possessionBefore == old(possession.name) && ev.gameState == old(gameState)
      ensures var o := ActionOutcome(action, target, old(ball), old(Defending().players));
              var s := CheckBoundaries(o.ball.x, o.ball.y, dice.boundary);
              && ev.result == o.result && ev.interceptor == o.interceptor
              && possession == (if o.turnover then old(Defending()) else old(possession))
              && gameState == s
              && ev.setPiece == (if s == OpenPlay then None else Some(s))
              && ball == BallAfter(o, s, dice.side)
      ensures InPitch(ball)
      ensures ev.ballAfter == ball && ev.possessionAfter == possession.name
      ensures home.name == old(home.name) && away.name == old(away.name)
      ensures gameState != Corner ==> home.players == old(home.players) && away.players == old(away.players)
      ensures var d := old(Defending());
              gameState == Corner && possession != d ==>
                possession.players == ScrambleAttackers(old(possession.players), dice.attack) &&
                d.players == SetUpDefenders(old(d.players), dice.defend)
      ensures var d := old(Defending());
              gameState == Corner && possession == d ==>
                d.players == SetUpDefenders(ScrambleAttackers(old(d.players), dice.attack), dice.defend) &&
                (home != d ==> home.players == old(home.players)) &&
                (away != d ==> away.players == old(away.players))
    {
      var ballBefore, possessionBefore, stateBefore := ball, possession.name, gameState;
      var defending, result, interceptor := PlayAction(action, target);
      var setPiece := StopPlay(defending, dice);
      ev := Event(action, ballBefore, possessionBefore, stateBefore, result, interceptor, setPiece, ball, possession.name);
      events := events + [ev];
    }

    /** The action branch of `simulate_step`, as `ActionOutcome` describes it, against the team
        defending before the action. Only the ball and possession change. */
    method PlayAction(action: string, target: Option<Vec>)
      returns (defending: Team, result: Option<StepResult>, interceptor: Option<string>)
      requires Valid()
      modifies this
      ensures Valid() && defending == old(Defending()) && (defending == home || defending == away)
      ensures var o := ActionOutcome(action, target, old(ball), defending.players);
              && ball == o.ball && result == o.result && interceptor == o.interceptor
              && possession == (if o.turnover then defending else old(possession))
      ensures gameState == old(gameState) && events == old(events)
    {
      defending := if possession.SameAs(home) then away else home;
      result, interceptor := None, None;
      if action == "PASS" && target.Some? {
        var intercepted, defender := CheckInterception(ball, target.value, defending.players, INTERCEPTION_RADIUS);
        if intercepted {
          possession := defending;
          ball := defender.value.position;
          result, interceptor := Some(Intercepted), Some(defender.value.name);
        } else {
          ball := target.value;
          result := Some(Success);
        }
      } else if action == "SHOOT" && target.Some? {
        ball := target.value;
        result := Some(Shot);
      } else if action == "DRIBBLE" && target.Some? {
        ball := target.value;
        result := Some(Dribble);
      }
    }

    /** The boundary branch of `simulate_step`: a ball off the pitch starts a set piece, with
        the possessing team attacking and `defending` defending. */
    method StopPlay(defending: Team, dice: Dice) returns (setPiece: Option<GameState>)
      requires Valid() && (defending == home || defending == away)
      requires |dice.attack| >= |home.players| && |dice.attack| >= |away.players|
      requires |dice.defend| >= |home.players| && |dice.defend| >= |away.players|
      modifies this, home, away
      ensures var s := CheckBoundaries(old(ball).x, old(ball).y, dice.boundary);
              && gameState == s
              && setPiece == (if s == OpenPlay then None else Some(s))
              && ball == (if s == OpenPlay then old(ball) else SetPieceSpot(s, dice.side))
      ensures InPitch(ball)
      ensures possession == old(possession) && events == old(events) && Valid()
      ensures home.name == old(home.name) && away.name == old(away.name)
      ensures gameState != Corner ==> home.players == old(home.players) && away.players == old(away.players)
      ensures gameState == Corner && possession != defending ==>
                possession.players == ScrambleAttackers(old(possession.players), dice.attack) &&
                defending.players == SetUpDefenders(old(defending.players), dice.defend)
      ensures gameState == Corner && possession == defending ==>
                defending.players == SetUpDefenders(ScrambleAttackers(old(defending.players), dice.attack), dice.defend) &&
                (home != defending ==> home.players == old(home.players)) &&
                (away != defending ==> away.players == old(away.players))
    {
      var newState := CheckBoundaries(ball.x, ball.y, dice.boundary);
      setPiece := None;
      if newState != OpenPlay {
        SpotOnPitch(newState, dice.side);
        ball := ResolveSetPiece(newState, possession, defending, dice.side, dice.attack, dice.defend);
        gameState := newState;
        setPiece := Some(newState);
      } else {
        gameState := OpenPlay;
      }
    }

    /** `get_training_data`: the event log, oldest first, unfiltered. The result is a value, so
        later steps do not change it. */
    method GetTrainingData() returns (log: seq<Event>)
      ensures log == events
    {
      log := events;
    }

    /** `reset`: back to kick-off with home in possession and an empty log. Player positions
        are not restored. */
    method Reset()
      modifies this
      ensures ball == KICKOFF && possession == home && gameState == OpenPlay && events == []
      ensures Valid()
    {
      ball := KICKOFF;
      possession := home;
      gameState := OpenPlay;
      events := [];
    }
  }

  // ---------------------------------------------------------------------------------------
  // create_sample_team
  // ---------------------------------------------------------------------------------------

  /** The random draws of one field player: the `x` coordinate, the `y` coordinate and the
      interception skill, in the order the source draws them. */
  type PlayerDraws = (UnitDraw, UnitDraw, UnitDraw)

  /** The role of field player `i` (counting from 0): four defenders, three midfielders, then
      forwards. */
  function FieldRole(i: nat): (r: Role)
    ensures r != GK
    ensures r == DEF <==> i < 4
    ensures r == MF <==> 4 <= i < 7
  {
    if i < 4 then DEF else if i < 7 then MF else FWD
  }

  /** The interval a field player's `x` is drawn from; only a team named exactly "Home" plays
      towards the far goal. */
  function XRange(name: string, role: Role): (r: (real, real))
    ensures 0.0 < r.0 < r.1 < PITCH_LENGTH
  {
    var isHome := name == "Home";
    match role
    case DEF => if isHome then (15.0, 30.0) else (75.0, 90.0)
    case MF => if isHome then (35.0, 50.0) else (55.0, 70.0)
    case _ => if isHome then (55.0, 70.0) else (35.0, 50.0)
  }

  /** The goalkeeper: first in the roster, on the goal line of its half, default skill. */
  function Goalkeeper(name: string): (p: Player)
    ensures p.role == GK && p.name == name + "_GK" && p.interceptionStat == DEFAULT_INTERCEPTION_STAT
    ensures p.position == Vec(if name == "Home" then 5.0 else 100.0, 34.0)
  {
    Player(name + "_GK", Vec(if name == "Home" then 5.0 else 100.0, 34.0), GK, DEFAULT_INTERCEPTION_STAT)
  }

  /** Field player `i` (from 0), named with its 1-based number. */
  function FieldPlayer(name: string, i: nat, d: PlayerDraws): (p: Player)
    ensures p.name == name + "_P" + NatToDecimal(i + 1) && p.role == FieldRole(i)
    ensures XRange(name, p.role).0 <= p.position.x < XRange(name, p.role).1
    ensures 10.0 <= p.position.y < 58.0
    ensures 0.3 <= p.interceptionStat < 0.8
  {
    var role := FieldRole(i);
    var range := XRange(name, role);
    Player(name + "_P" + NatToDecimal(i + 1),
           Vec(Uniform(range.0, range.1, d.0), Uniform(10.0, 58.0, d.1)),
           role,
           Uniform(0.3, 0.8, d.2))
  }

  /** The number of field players: `num_players - 1`, and none when that is not positive. */
  function FieldCount(numPlayers: int): nat {
    if numPlayers <= 1 then 0 else numPlayers - 1
  }

  /** The roster `create_sample_team` builds: the goalkeeper, then the field players. */
  function SampleRoster(name: string, numPlayers: int, draws: seq<PlayerDraws>): seq<Player>
    requires |draws| >= FieldCount(numPlayers)
  {
    [Goalkeeper(name)] + seq(FieldCount(numPlayers), i requires 0 <= i < FieldCount(numPlayers) =>
                               FieldPlayer(name, i, draws[i]))
  }

  /** `create_sample_team`. */
  method CreateSampleTeam(name: string, numPlayers: int, draws: seq<PlayerDraws>) returns (team: Team)
    requires |draws| >= FieldCount(numPlayers)
    ensures fresh(team)
    ensures team.name == name && team.players == SampleRoster(name, numPlayers, draws)
  {
    var players := [Goalkeeper(name)];
    var i := 0;
    while i < numPlayers - 1
      invariant 0 <= i <= FieldCount(numPlayers)
      invariant players == SampleRoster(name, i + 1, draws)
    {
      players := players + [FieldPlayer(name, i, draws[i])];
      i := i + 1;
    }
    team := new Team(name, players);
  }

  /** The roster has `num_players` players, or one when fewer are asked for; the goalkeeper
      comes first and is the only one; roles follow the 4-3-rest pattern by position in the
      roster. */
  lemma SampleRosterShape(name: string, numPlayers: int, draws: seq<PlayerDraws>)
    requires |draws| >= FieldCount(numPlayers)
    ensures var r := SampleRoster(name, numPlayers, draws);
            && |r| == (if numPlayers < 1 then 1 else numPlayers)
            && r[0] == Goalkeeper(name)
            && (forall i :: 1 <= i < |r| ==> r[i].role == FieldRole(i - 1))
            && (forall i :: 0 <= i < |r| ==> (r[i].role == GK <==> i == 0))
  {
  }

  /** Every sampled player stands on the pitch, with a skill in `[0.3, 0.8)` or the default. */
  lemma SampleRosterOnPitch(name: string, numPlayers: int, draws: seq<PlayerDraws>)
    requires |draws| >= FieldCount(numPlayers)
    ensures forall p :: p in SampleRoster(name, numPlayers, draws) ==>
              InPitch(p.position) && 0.3 <= p.interceptionStat < 0.8
  {
  }

  /** The goalkeeper's name differs from every field player's. */
  lemma GoalkeeperNameDiffers(name: string, k: nat)
    ensures name + "_GK" != name + "_P" + NatToDecimal(k)
  {
    assert (name + "_GK")[|name| + 1] == 'G';
    assert (name + "_P" + NatToDecimal(k))[|name| + 1] == 'P';
  }

  /** Two field players with the same name have the same number. */
  lemma FieldNamesDiffer(name: string, m: nat, n: nat)
    requires name + "_P" + NatToDecimal(m) == name + "_P" + NatToDecimal(n)
    ensures m == n
  {
    var prefix := |name| + 2;
    assert (name + "_P" + NatToDecimal(m))[prefix..] == NatToDecimal(m);
    assert (name + "_P" + NatToDecimal(n))[prefix..] == NatToDecimal(n);
    DecimalInjective(m, n);
  }

  /** All players of a sampled roster have distinct names. */
  lemma SampleRosterNamesDistinct(name: string, numPlayers: int, draws: seq<PlayerDraws>)
    requires |draws| >= FieldCount(numPlayers)
    ensures var r := SampleRoster(name, numPlayers, draws);
            forall i, j :: 0 <= i < j < |r| ==> r[i].name != r[j].name
  {
    var r := SampleRoster(name, numPlayers, draws);
    forall i, j | 0 <= i < j < |r|
      ensures r[i].name != r[j].name
    {
      if i == 0 {
        GoalkeeperNameDiffers(name, j);
      } else if r[i].name == r[j].name {
        FieldNamesDiffer(name, i, j);
      }
    }
  }
}
