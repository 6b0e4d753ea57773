/**
 * The player page (PlayerDetail.tsx): the settled matches the player took
 * part in, latest session first, and for each of them the result label and
 * the points it was worth, recomputed from the stored match.
 */
module PlayerDetail {
  import opened Types
  import opened Seqs
  import opened Sorting
  import opened Constants
  import App
  import History

  /** Settled matches in which the player is listed in team A or team B, as a filter condition. */
  function PlayedBy(playerId: string): Match -> bool {
    (m: Match) => m.isCompleted && (OptionIncludes(m.teamA, playerId) || OptionIncludes(m.teamB, playerId))
  }

  /** `matches.filter(...).sort((a, b) => b.sessionNumber - a.sessionNumber)`. */
  function PlayerMatches(playerId: string, matches: seq<Match>): seq<Match> {
    SortBy(History.LaterSession, Filter(PlayedBy(playerId), matches))
  }

  /** The player's matches are exactly the settled matches with the player on a team, each as often as it occurs. */
  lemma PlayerMatchesExactly(playerId: string, matches: seq<Match>)
    ensures forall m :: m in PlayerMatches(playerId, matches) <==>
      m in matches && m.isCompleted && (OptionIncludes(m.teamA, playerId) || OptionIncludes(m.teamB, playerId))
    ensures forall m :: multiset(PlayerMatches(playerId, matches))[m] == if PlayedBy(playerId)(m) then multiset(matches)[m] else 0
  {
    var kept := Filter(PlayedBy(playerId), matches);
    FilterMembers(PlayedBy(playerId), matches);
    FilterMultiset(PlayedBy(playerId), matches);
    var r := PlayerMatches(playerId, matches);
    forall m ensures m in r <==> m in kept {
      assert m in r <==> m in multiset(r);
      assert m in kept <==> m in multiset(kept);
    }
  }

  /** The player's matches are listed latest session first. */
  lemma PlayerMatchesLatestFirst(playerId: string, matches: seq<Match>)
    ensures var r := PlayerMatches(playerId, matches);
      forall i, j :: 0 <= i < j < |r| ==> r[i].sessionNumber >= r[j].sessionNumber
  {
    History.LaterSessionIsConsistent();
    SortBySorted(History.LaterSession, Filter(PlayedBy(playerId), matches));
  }

  /** `match.score?.teamA` and `match.score?.teamB`: absent when the match has no score. */
  function ScoreA(m: Match): Option<nat> {
    if m.score.Some? then Some(m.score.value.teamA) else None
  }

  function ScoreB(m: Match): Option<nat> {
    if m.score.Some? then Some(m.score.value.teamB) else None
  }

  /** `x || 0`: an absent score counts as zero. */
  function OrZero(x: Option<nat>): nat {
    if x.Some? then x.value else 0
  }

  /** The player's side of the score: team A's when the player is listed in team A, team B's otherwise. */
  function MyScore(m: Match, playerId: string): Option<nat> {
    if OptionIncludes(m.teamA, playerId) then ScoreA(m) else ScoreB(m)
  }

  function OpponentScore(m: Match, playerId: string): Option<nat> {
    if OptionIncludes(m.teamA, playerId) then ScoreB(m) else ScoreA(m)
  }

  /** `match.score?.teamA === match.score?.teamB`: a match without a score compares `undefined` with itself, a draw. */
  predicate IsDraw(m: Match) {
    ScoreA(m) == ScoreB(m)
  }

  /** The goal difference from the player's side, absent scores counting as zero. */
  function Diff(m: Match, playerId: string): int {
    OrZero(MyScore(m, playerId)) as int - OrZero(OpponentScore(m, playerId)) as int
  }

  /** The points shown on a match card: the settlement's result points, without any MVP bonus. */
  function PointsWon(m: Match, playerId: string): (points: nat)
    ensures points <= WIN_POINTS + CAPTAIN_WIN_BONUS
  {
    if IsDraw(m) then DRAW_POINTS
    else if Diff(m, playerId) > 0 then WIN_POINTS + (if OptionIncludes(m.captains, playerId) then CAPTAIN_WIN_BONUS else 0)
    else if Diff(m, playerId) >= -4 then CLOSE_LOSS_POINTS
    else 0
  }

  datatype Label = Draw | Win | Loss

  /** `isDraw ? 'DRAW' : diff > 0 ? 'WIN' : 'LOSS'`. */
  function ResultLabel(m: Match, playerId: string): Label {
    if IsDraw(m) then Draw else if Diff(m, playerId) > 0 then Win else Loss
  }

  /**
   * The label and the points agree: a draw is worth 2, a win 3 or 4 (4 for a
   * captain), a defeat at most 1, and 1 exactly for a defeat by at most four goals.
   */
  lemma LabelAgreesWithPoints(m: Match, playerId: string)
    ensures ResultLabel(m, playerId) == Draw <==> PointsWon(m, playerId) == DRAW_POINTS
    ensures ResultLabel(m, playerId) == Win <==> PointsWon(m, playerId) >= WIN_POINTS
    ensures ResultLabel(m, playerId) == Win ==>
      (PointsWon(m, playerId) == WIN_POINTS + CAPTAIN_WIN_BONUS <==> OptionIncludes(m.captains, playerId))
    ensures ResultLabel(m, playerId) == Loss <==> PointsWon(m, playerId) <= CLOSE_LOSS_POINTS
    ensures ResultLabel(m, playerId) == Loss ==> (PointsWon(m, playerId) == CLOSE_LOSS_POINTS <==> Diff(m, playerId) >= -4)
  {
  }

  /** A settled match with no score reads as a draw worth 2 points. */
  lemma MissingScoreIsDraw(m: Match, playerId: string)
    requires m.score.None?
    ensures ResultLabel(m, playerId) == Draw && PointsWon(m, playerId) == DRAW_POINTS && Diff(m, playerId) == 0
  {
  }

  /**
   * The card agrees with settlement: for a player on a team of the settled
   * match, settlement raised the player's points by the card's points plus
   * the MVP bonus, and the label names the same outcome settlement counted.
   */
  lemma PointsWonMatchesSettlement(m: Match, r: App.Report, p: Player)
    requires App.Participates(p.id, r)
    ensures var f := App.Finalise(m, r);
      var q := App.SettlePlayer(p, r);
      && q.totalPoints == p.totalPoints + PointsWon(f, p.id) + App.MvpBonus(p, r)
      && (ResultLabel(f, p.id) == Win <==> q.wins == p.wins + 1)
      && (ResultLabel(f, p.id) == Loss <==> q.losses == p.losses + 1)
  {
    var f := App.Finalise(m, r);
    assert OptionIncludes(f.teamA, p.id) <==> p.id in r.teamAIds;
    assert OptionIncludes(f.captains, p.id) <==> p.id in r.captains;
    assert ScoreA(f) == Some(r.teamAScore) && ScoreB(f) == Some(r.teamBScore);
    App.SettleOutcome(p, r);
  }

  /** What the page shows for a known player: the player and the player's matches. */
  datatype Profile = Profile(player: Player, matches: seq<Match>)

  /** `if (!player) return null`: an unknown id renders nothing. */
  function PlayerPage(playerId: string, players: seq<Player>, matches: seq<Match>): (page: Option<Profile>)
    ensures page.None? <==> forall i :: 0 <= i < |players| ==> players[i].id != playerId
    ensures page.Some? ==> page.value.player in players && page.value.player.id == playerId
  {
    match FindPlayer(players, playerId)
    case None => None
    case Some(p) => Some(Profile(p, PlayerMatches(playerId, matches)))
  }
}
