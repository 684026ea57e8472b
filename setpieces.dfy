/** SetPieceManager: where the ball left the pitch, and how a stop in play repositions the ball
    and the players. The manager's `game_state` lives in the simulator (module Match). */
module SetPieces {
  import opened Geometry
  import opened Entities

  /** `game_state`: "OPEN_PLAY", "CORNER", "GOAL_KICK" or "THROW_IN". */
  datatype GameState = OpenPlay | Corner | GoalKick | ThrowIn

  /** A draw of `np.random.random()`: a real in `[0, 1)`. */
  type UnitDraw = u: real | 0.0 <= u < 1.0

  /** `check_boundaries`. `draw` is the `np.random.random()` consulted only for a ball beyond
      the far goal line. The pitch test has inclusive bounds, and the `x` tests come before
      the side-line case. */
  function CheckBoundaries(x: real, y: real, draw: UnitDraw): (s: GameState)
    ensures s == OpenPlay <==> InPitch(Vec(x, y))
    ensures s == ThrowIn <==> 0.0 <= x <= PITCH_LENGTH && (y < 0.0 || y > PITCH_WIDTH)
    ensures s == GoalKick <==> x > PITCH_LENGTH && draw <= 0.5
    ensures s == Corner <==> x < 0.0 || (x > PITCH_LENGTH && draw > 0.5)
  {
    if 0.0 <= x <= 105.0 && 0.0 <= y <= 68.0 then OpenPlay
    else if x > 105.0 then (if draw > 0.5 then Corner else GoalKick)
    else if x < 0.0 then Corner
    else ThrowIn
  }

  /** `np.random.uniform(lo, hi)` for the unit draw `u`. */
  function Uniform(lo: real, hi: real, u: UnitDraw): (r: real)
    requires lo < hi
    ensures lo <= r < hi
  {
    ProductNonNeg(hi - lo, u);
    MulPos(hi - lo, 1.0 - u);
    lo + (hi - lo) * u
  }

  /** Penalty-box area that a corner scrambles players into: `[95, 104] x [20, 48]`. */
  predicate InBox(v: Vec) {
    95.0 <= v.x <= 104.0 && 20.0 <= v.y <= 48.0
  }

  /** A position drawn uniformly in the box. */
  function BoxPosition(draws: (UnitDraw, UnitDraw)): (v: Vec)
    ensures InBox(v) && InPitch(v)
  {
    Vec(Uniform(95.0, 104.0, draws.0), Uniform(20.0, 48.0, draws.1))
  }

  /** Where the defending goalkeeper stands at a corner. */
  const GOAL_LINE_SPOT: Vec := Vec(104.0, 34.0)

  /** The ball position `resolve_set_piece` returns. A corner goes to the flag on the side that
      `sideDraw < 0.5` picks, a goal kick to `[5, 34]`. Any other state, a throw-in included,
      goes to `[0, 0]`, since the method only has branches for corners and goal kicks. */
  function SetPieceSpot(state: GameState, sideDraw: UnitDraw): Vec {
    match state
    case Corner => Vec(105.0, if sideDraw < 0.5 then 0.0 else 68.0)
    case GoalKick => Vec(5.0, 34.0)
    case _ => Vec(0.0, 0.0)
  }

  /** Every set-piece spot is on the pitch; corners are at a flag, goal kicks at `[5, 34]`. */
  lemma SpotOnPitch(state: GameState, sideDraw: UnitDraw)
    ensures InPitch(SetPieceSpot(state, sideDraw))
    ensures state == Corner ==> SetPieceSpot(state, sideDraw) in {Vec(105.0, 0.0), Vec(105.0, 68.0)}
    ensures state == GoalKick ==> SetPieceSpot(state, sideDraw) == Vec(5.0, 34.0)
    ensures state !in {Corner, GoalKick} ==> SetPieceSpot(state, sideDraw) == Vec(0.0, 0.0)
  {
  }

  /** The attacking side at a corner: every outfield player is drawn into the box with the
      draws of its roster slot; goalkeepers stay where they are. */
  function ScrambleAttackers(players: seq<Player>, draws: seq<(UnitDraw, UnitDraw)>): (r: seq<Player>)
    requires |draws| >= |players|
    ensures |r| == |players|
  {
    seq(|players|, i requires 0 <= i < |players| =>
      if players[i].role != GK then players[i].(position := BoxPosition(draws[i])) else players[i])
  }

  /** The defending side at a corner: goalkeepers go to the goal line, everyone else into the box. */
  function SetUpDefenders(players: seq<Player>, draws: seq<(UnitDraw, UnitDraw)>): (r: seq<Player>)
    requires |draws| >= |players|
    ensures |r| == |players|
  {
    seq(|players|, i requires 0 <= i < |players| =>
      players[i].(position := if players[i].role == GK then GOAL_LINE_SPOT else BoxPosition(draws[i])))
  }

  /** Repositioning only changes positions: names, roles and interception skills stay. */
  predicate SameSquad(ps: seq<Player>, qs: seq<Player>) {
    |ps| == |qs| &&
    forall i :: 0 <= i < |ps| ==>
      ps[i].name == qs[i].name && ps[i].role == qs[i].role && ps[i].interceptionStat == qs[i].interceptionStat
  }

  lemma ScrambleAttackersEffect(players: seq<Player>, draws: seq<(UnitDraw, UnitDraw)>)
    requires |draws| >= |players|
    ensures SameSquad(players, ScrambleAttackers(players, draws))
    ensures forall i :: 0 <= i < |players| && players[i].role == GK ==>
              ScrambleAttackers(players, draws)[i] == players[i]
    ensures forall i :: 0 <= i < |players| && players[i].role != GK ==>
              InBox(ScrambleAttackers(players, draws)[i].position)
  {
  }

  lemma SetUpDefendersEffect(players: seq<Player>, draws: seq<(UnitDraw, UnitDraw)>)
    requires |draws| >= |players|
    ensures SameSquad(players, SetUpDefenders(players, draws))
    ensures forall i :: 0 <= i < |players| ==>
              var q := SetUpDefenders(players, draws)[i];
              (players[i].role == GK ==> q.position == GOAL_LINE_SPOT) &&
              (players[i].role != GK ==> InBox(q.position)) &&
              InPitch(q.position)
  {
  }

  /** When one team is both attacker and defender, the defenders' pass overwrites every
      position the attackers' pass drew: only the defending draws matter. */
  lemma {:induction false} DefendersOverwriteAttackers(players: seq<Player>, d1: seq<(UnitDraw, UnitDraw)>, d2: seq<(UnitDraw, UnitDraw)>)
    requires |d1| >= |players| && |d2| >= |players|
    ensures SetUpDefenders(ScrambleAttackers(players, d1), d2) == SetUpDefenders(players, d2)
  {
    var s := ScrambleAttackers(players, d1);
    assert forall i :: 0 <= i < |players| ==> s[i].role == players[i].role;
    assert forall i :: 0 <= i < |players| ==> s[i].(position := Vec(0.0, 0.0)) == players[i].(position := Vec(0.0, 0.0));
  }

  /** One step of a loop that rewrites a sequence slot by slot towards `target`: slot `i`
      still holds the original element, and writing the target's element there extends the
      rewritten prefix by one. */
  lemma PrefixStep<T>(target: seq<T>, orig: seq<T>, i: int)
    requires |target| == |orig| && 0 <= i < |orig|
    ensures (target[..i] + orig[i..])[i] == orig[i]
    ensures (target[..i] + orig[i..])[i := target[i]] == target[..i + 1] + orig[i + 1..]
    ensures target[i] == orig[i] ==> target[..i] + orig[i..] == target[..i + 1] + orig[i + 1..]
  {
    var cur := target[..i] + orig[i..];
    assert cur[i := target[i]] == target[..i + 1] + orig[i + 1..];
  }

  /** The attacking loop of a corner: each outfield player of the roster, in order, is moved
      into the box. */
  method ScrambleRoster(team: Team, draws: seq<(UnitDraw, UnitDraw)>)
    requires |draws| >= |team.players|
    modifies team
    ensures team.players == ScrambleAttackers(old(team.players), draws)
    ensures team.name == old(team.name)
  {
    var i := 0;
    while i < |team.players|
      invariant 0 <= i <= |team.players| == |old(team.players)|
      invariant team.players == ScrambleAttackers(old(team.players), draws)[..i] + old(team.players)[i..]
      invariant team.name == old(team.name)
    {
      ghost var target := ScrambleAttackers(old(team.players), draws);
      PrefixStep(target, old(team.players), i);
      var p := team.players[i];
      if p.role != GK {
        team.players := team.players[i := p.(position := BoxPosition(draws[i]))];
      }
      i := i + 1;
    }
  }

  /** The defending loop of a corner: goalkeepers to the goal line, the others into the box. */
  method SetUpRoster(team: Team, draws: seq<(UnitDraw, UnitDraw)>)
    requires |draws| >= |team.players|
    modifies team
    ensures team.players == SetUpDefenders(old(team.players), draws)
    ensures team.name == old(team.name)
  {
    var i := 0;
    while i < |team.players|
      invariant 0 <= i <= |team.players| == |old(team.players)|
      invariant team.players == SetUpDefenders(old(team.players), draws)[..i] + old(team.players)[i..]
      invariant team.name == old(team.name)
    {
      ghost var target := SetUpDefenders(old(team.players), draws);
      PrefixStep(target, old(team.players), i);
      var p := team.players[i];
      if p.role == GK {
        team.players := team.players[i := p.(position := GOAL_LINE_SPOT)];
      } else {
        team.players := team.players[i := p.(position := BoxPosition(draws[i]))];
      }
      i := i + 1;
    }
  }

  /** `resolve_set_piece`. For a corner, the attacking roster is scrambled and then the
      defending roster is set up, in that order; if both arguments are the same team, the
      second pass sees the first pass's positions. No other state moves a player. */
  method ResolveSetPiece(state: GameState, attacking: Team, defending: Team, sideDraw: UnitDraw,
                         attackDraws: seq<(UnitDraw, UnitDraw)>, defendDraws: seq<(UnitDraw, UnitDraw)>)
    returns (ball: Vec)
    requires |attackDraws| >= |attacking.players| && |defendDraws| >= |defending.players|
    modifies attacking, defending
    ensures ball == SetPieceSpot(state, sideDraw)
    ensures attacking.name == old(attacking.name) && defending.name == old(defending.name)
    ensures state != Corner ==> attacking.players == old(attacking.players) && defending.players == old(defending.players)
    ensures state == Corner && attacking != defending ==>
              attacking.players == ScrambleAttackers(old(attacking.players), attackDraws) &&
              defending.players == SetUpDefenders(old(defending.players), defendDraws)
    ensures state == Corner && attacking == defending ==>
              attacking.players == SetUpDefenders(ScrambleAttackers(old(attacking.players), attackDraws), defendDraws)
  {
    ball := Vec(0.0, 0.0);
    if state == Corner {
      ball := Vec(105.0, if sideDraw < 0.5 then 0.0 else 68.0);
      ScrambleRoster(attacking, attackDraws);
      SetUpRoster(defending, defendDraws);
    } else if state == GoalKick {
      ball := Vec(5.0, 34.0);
    }
  }
}
