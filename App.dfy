/**
 * The tournament state of App.tsx: the `players` and `matches` collections,
 * the current-match query, registration and cancellation, settlement of a
 * match (per-player scoring, finalising the match, opening the next
 * session) and the player roster edits.
 */
module App {
  import opened Types
  import opened Seqs
  import Text
  import opened Constants

  // ---------------------------------------------------------------------------
  // Queries on the match list

  /** `matches.find(m => !m.isCompleted)`, as an index. */
  function FirstOpen(ms: seq<Match>): (r: Option<nat>)
    ensures r.Some? ==> r.value < |ms| && !ms[r.value].isCompleted
    ensures r.Some? ==> forall j :: 0 <= j < r.value ==> ms[j].isCompleted
    ensures r.None? <==> forall j :: 0 <= j < |ms| ==> ms[j].isCompleted
  {
    if ms == [] then None
    else if !ms[0].isCompleted then Some(0)
    else match FirstOpen(ms[1..])
      case None => None
      case Some(k) => Some(k + 1)
  }

  /** Where the current match sits: the first open match, or else the last match. */
  function CurrentIndex(ms: seq<Match>): (k: nat)
    requires |ms| > 0
    ensures k < |ms|
    ensures !ms[k].isCompleted ==> forall j :: 0 <= j < k ==> ms[j].isCompleted
    ensures ms[k].isCompleted ==> k == |ms| - 1 && forall j :: 0 <= j < |ms| ==> ms[j].isCompleted
  {
    match FirstOpen(ms)
    case Some(k) => k
    case None => |ms| - 1
  }

  function CurrentMatch(ms: seq<Match>): Match
    requires |ms| > 0
  {
    ms[CurrentIndex(ms)]
  }

  /** `matches.findIndex(m => m.id === id)`. */
  function FindMatchIndex(ms: seq<Match>, id: string): (r: Option<nat>)
    ensures r.Some? ==> r.value < |ms| && ms[r.value].id == id
    ensures r.Some? ==> forall j :: 0 <= j < r.value ==> ms[j].id != id
    ensures r.None? <==> forall j :: 0 <= j < |ms| ==> ms[j].id != id
  {
    if ms == [] then None
    else if ms[0].id == id then Some(0)
    else match FindMatchIndex(ms[1..], id)
      case None => None
      case Some(k) => Some(k + 1)
  }

  // ---------------------------------------------------------------------------
  // Well-formed match lists

  /** Every optional result field is absent on an open match and present on a settled one. */
  predicate ResultsMatchStatus(m: Match) {
    if m.isCompleted then
      m.score.Some? && m.teamA.Some? && m.teamB.Some? && m.captains.Some? && m.mvps.Some?
    else
      m.score.None? && m.teamA.None? && m.teamB.None? && m.captains.None? && m.mvps.None?
  }

  /**
   * What every reachable match list satisfies: it is never empty, the match at
   * position `i` has id `i + 1`, sessions are numbered 1 to 12, nobody is
   * registered twice for a match, and results are present exactly on settled
   * matches.
   */
  predicate LedgerWellFormed(ms: seq<Match>) {
    && |ms| > 0
    && (forall i :: 0 <= i < |ms| ==> ms[i].id == Text.NatToString(i + 1))
    && (forall i :: 0 <= i < |ms| ==> 1 <= ms[i].sessionNumber <= TOTAL_SESSIONS)
    && (forall i :: 0 <= i < |ms| ==> DistinctPlayers(ms[i].registrations))
    && (forall i :: 0 <= i < |ms| ==> ResultsMatchStatus(ms[i]))
  }

  /**
   * The shape the app keeps when every match is settled through the current
   * match: session numbers follow positions and only the last match may be
   * open.
   */
  predicate Orderly(ms: seq<Match>) {
    && (forall i :: 0 <= i < |ms| ==> ms[i].sessionNumber == i + 1)
    && (forall i :: 0 <= i < |ms| - 1 ==> ms[i].isCompleted)
  }

  /** Match ids are distinct, so looking up the current match's id finds the current match itself. */
  lemma FindCurrentMatch(ms: seq<Match>)
    requires LedgerWellFormed(ms)
    ensures FindMatchIndex(ms, CurrentMatch(ms).id) == Some(CurrentIndex(ms))
  {
    var k := CurrentIndex(ms);
    var r := FindMatchIndex(ms, ms[k].id);
    assert r.Some?;
    if r.value != k {
      Text.NatToStringInjective(r.value + 1, k + 1);
    }
  }

  /** The current match of an orderly list is its last one, and its session is the list's length. */
  lemma {:induction false} OrderlyCurrentIsLast(ms: seq<Match>)
    requires |ms| > 0
    requires Orderly(ms)
    ensures CurrentIndex(ms) == |ms| - 1
    ensures CurrentMatch(ms).sessionNumber == |ms|
  {
    assert ms[|ms| - 1].sessionNumber == |ms|;
  }

  /** A well-formed orderly list holds at most twelve sessions. */
  lemma {:induction false} OrderlyAtMostTwelve(ms: seq<Match>)
    requires LedgerWellFormed(ms)
    requires Orderly(ms)
    ensures |ms| <= TOTAL_SESSIONS
  {
    assert ms[|ms| - 1].sessionNumber == |ms|;
  }

  // ---------------------------------------------------------------------------
  // Registration ledger

  /** The filter condition of a cancellation: keep every registration of someone else. */
  function NotFor(playerId: string): Registration -> bool {
    (r: Registration) => r.playerId != playerId
  }

  /** Appending a registration appends its player id. */
  lemma {:induction false} RegisteredIdsAppend(regs: seq<Registration>, reg: Registration)
    ensures RegisteredIds(regs + [reg]) == RegisteredIds(regs) + [reg.playerId]
  {
    assert RegisteredIds(regs + [reg]) == RegisteredIds(regs) + [reg.playerId];
  }

  /** Filtering registrations by player filters their ids the same way. */
  lemma {:induction false} RegisteredIdsFilter(regs: seq<Registration>, playerId: string)
    ensures RegisteredIds(Filter(NotFor(playerId), regs)) == Filter(id => id != playerId, RegisteredIds(regs))
  {
    if regs != [] {
      RegisteredIdsFilter(regs[1..], playerId);
      assert RegisteredIds(regs)[1..] == RegisteredIds(regs[1..]);
      var keep := NotFor(playerId);
      var rest := Filter(keep, regs[1..]);
      if keep(regs[0]) {
        assert RegisteredIds([regs[0]] + rest) == [regs[0].playerId] + RegisteredIds(rest);
      }
    }
  }

  /**
   * Registering a player who is not yet signed up makes the player signed up,
   * last, and keeps the sign-ups free of duplicates.
   */
  lemma RegisterAppendsOne(regs: seq<Registration>, playerId: string, timestamp: int)
    requires DistinctPlayers(regs)
    requires !IsRegistered(regs, playerId)
    ensures IsRegistered(regs + [Registration(playerId, timestamp)], playerId)
    ensures DistinctPlayers(regs + [Registration(playerId, timestamp)])
    ensures RegisteredIds(regs + [Registration(playerId, timestamp)]) == RegisteredIds(regs) + [playerId]
  {
    var ext := regs + [Registration(playerId, timestamp)];
    assert ext[|regs|].playerId == playerId;
    RegisteredIdsAppend(regs, Registration(playerId, timestamp));
  }

  /** Dropping sign-ups keeps the rest free of duplicates. */
  lemma {:induction false} FilterKeepsDistinct(keep: Registration -> bool, regs: seq<Registration>)
    requires DistinctPlayers(regs)
    ensures DistinctPlayers(Filter(keep, regs))
  {
    if regs != [] {
      var tail := regs[1..];
      var rest := Filter(keep, tail);
      FilterKeepsDistinct(keep, tail);
      FilterMembers(keep, tail);
      if keep(regs[0]) {
        var f := [regs[0]] + rest;
        forall a, b | 0 <= a < b < |f| ensures f[a].playerId != f[b].playerId {
          if a == 0 {
            assert f[b] in tail;
            var k :| 0 <= k < |tail| && tail[k] == f[b];
            assert regs[k + 1] == f[b];
          } else {
            assert f[a] == rest[a - 1] && f[b] == rest[b - 1];
          }
        }
      }
    }
  }

  /**
   * Cancelling removes every sign-up of the player, keeps everybody else's,
   * keeps the sign-ups free of duplicates, and changes nothing when the player
   * was not signed up.
   */
  lemma CancelRemovesPlayer(regs: seq<Registration>, playerId: string)
    ensures var after := Filter(NotFor(playerId), regs);
      && !IsRegistered(after, playerId)
      && (forall x :: x in after <==> x in regs && x.playerId != playerId)
      && (!IsRegistered(regs, playerId) ==> after == regs)
      && (DistinctPlayers(regs) ==> DistinctPlayers(after))
  {
    var after := Filter(NotFor(playerId), regs);
    FilterMembers(NotFor(playerId), regs);
    forall j | 0 <= j < |after| ensures after[j].playerId != playerId {
      assert after[j] in after;
    }
    if DistinctPlayers(regs) {
      FilterKeepsDistinct(NotFor(playerId), regs);
    }
  }

  /** Cutting one sign-up out cuts its id out of the id list. */
  lemma RegisteredIdsCut(regs: seq<Registration>, i: nat)
    requires i < |regs|
    ensures RegisteredIds(regs[..i] + regs[i + 1..]) == RegisteredIds(regs)[..i] + RegisteredIds(regs)[i + 1..]
  {
    var ids := RegisteredIds(regs);
    var a := RegisteredIds(regs[..i] + regs[i + 1..]);
    var b := ids[..i] + ids[i + 1..];
    assert |a| == |b|;
    forall j | 0 <= j < |a| ensures a[j] == b[j] {
      if j < i {
        assert a[j] == regs[j].playerId == b[j];
      } else {
        assert a[j] == regs[j + 1].playerId == b[j];
      }
    }
  }

  /** With no duplicates, the player signed up at position `i` is signed up nowhere else. */
  lemma OnlyAtPosition(regs: seq<Registration>, playerId: string, i: nat)
    requires DistinctPlayers(regs)
    requires i < |regs| && regs[i].playerId == playerId
    ensures forall j :: 0 <= j < |regs| && j != i ==> NotFor(playerId)(regs[j])
  {
    assert forall j :: 0 <= j < |regs| && j != i ==> regs[j].playerId != regs[i].playerId;
  }

  /** With no duplicates, cancelling the player at position `i` cuts exactly that sign-up out. */
  lemma CancelCutsPosition(regs: seq<Registration>, playerId: string, i: nat)
    requires DistinctPlayers(regs)
    requires i < |regs| && regs[i].playerId == playerId
    ensures Filter(NotFor(playerId), regs) == regs[..i] + regs[i + 1..]
    ensures RegisteredIds(Filter(NotFor(playerId), regs)) == RegisteredIds(regs)[..i] + RegisteredIds(regs)[i + 1..]
  {
    OnlyAtPosition(regs, playerId, i);
    FilterRemovesOne(NotFor(playerId), regs, i);
    RegisteredIdsCut(regs, i);
  }

  // ---------------------------------------------------------------------------
  // Settlement

  /** What the match form submits when a match is settled. */
  datatype Report = Report(
    teamAScore: nat,
    teamBScore: nat,
    mvpIds: seq<string>,
    teamAIds: seq<string>,
    teamBIds: seq<string>,
    captains: seq<string>)

  predicate Participates(id: string, r: Report) {
    id in r.teamAIds || id in r.teamBIds
  }

  /** The player's own score and the opponents' score; a player listed in both teams plays for team A. */
  function MyScore(id: string, r: Report): nat {
    if id in r.teamAIds then r.teamAScore else r.teamBScore
  }

  function OpponentScore(id: string, r: Report): nat {
    if id in r.teamAIds then r.teamBScore else r.teamAScore
  }

  /**
   * The per-player update of a settlement: a draw is worth 2 points, a win 3
   * (plus 1 and a captain win for a captain), a defeat by at most 4 goals 1
   * point, a heavier defeat nothing; an MVP award adds 1 point whenever the
   * award count reaches a multiple of 3. Players on neither team are returned
   * as they were.
   */
  function SettlePlayer(p: Player, r: Report): (q: Player)
    ensures q.id == p.id && q.name == p.name && q.icon == p.icon && q.isPastWinner == p.isPastWinner
    ensures !Participates(p.id, r) ==> q == p
    ensures Participates(p.id, r) ==> q.matchesPlayed == p.matchesPlayed + 1
    ensures Participates(p.id, r) ==>
      q.wins + q.losses == p.wins + p.losses + (if r.teamAScore == r.teamBScore then 0 else 1)
    ensures q.mvpPoints == p.mvpPoints + (if Participates(p.id, r) && p.id in r.mvpIds then 1 else 0)
  {
    var isInTeamA := p.id in r.teamAIds;
    var isInTeamB := p.id in r.teamBIds;
    var isCaptain := p.id in r.captains;
    if !isInTeamA && !isInTeamB then p
    else
      var played := p.(matchesPlayed := p.matchesPlayed + 1);
      var myScore: int := if isInTeamA then r.teamAScore else r.teamBScore;
      var opponentScore: int := if isInTeamA then r.teamBScore else r.teamAScore;
      var isDraw := r.teamAScore == r.teamBScore;
      var diff := myScore - opponentScore;
      var scored :=
        if isDraw then
          played.(totalPoints := played.totalPoints + DRAW_POINTS)
        else if diff > 0 then
          var won := played.(wins := played.wins + 1, totalPoints := played.totalPoints + WIN_POINTS);
          if isCaptain then
            won.(totalPoints := won.totalPoints + CAPTAIN_WIN_BONUS, captainWins := won.captainWins + 1)
          else won
        else if diff >= -4 then
          played.(totalPoints := played.totalPoints + CLOSE_LOSS_POINTS, losses := played.losses + 1)
        else
          played.(losses := played.losses + 1);
      if p.id in r.mvpIds then
        var awarded := scored.(mvpPoints := scored.mvpPoints + 1);
        if awarded.mvpPoints % MVP_THRESHOLD == 0 then
          awarded.(totalPoints := awarded.totalPoints + MVP_BONUS)
        else awarded
      else scored
  }

  /** The MVP bonus a participant gets from this settlement: 1 exactly when the new award count is a multiple of 3. */
  function MvpBonus(p: Player, r: Report): nat {
    if p.id in r.mvpIds && (p.mvpPoints + 1) % MVP_THRESHOLD == 0 then MVP_BONUS else 0
  }

  /** The outcome table of a settlement, case by case, for a participant. */
  lemma SettleOutcome(p: Player, r: Report)
    requires Participates(p.id, r)
    ensures var q := SettlePlayer(p, r);
      var my, opp := MyScore(p.id, r), OpponentScore(p.id, r);
      var captainBonus := if p.id in r.captains then 1 else 0;
      && (my == opp ==>
            q.totalPoints == p.totalPoints + 2 + MvpBonus(p, r) && q.wins == p.wins && q.losses == p.losses
            && q.captainWins == p.captainWins)
      && (my > opp ==>
            q.totalPoints == p.totalPoints + 3 + captainBonus + MvpBonus(p, r) && q.wins == p.wins + 1
            && q.losses == p.losses && q.captainWins == p.captainWins + captainBonus)
      && (opp - 4 <= my < opp ==>
            q.totalPoints == p.totalPoints + 1 + MvpBonus(p, r) && q.wins == p.wins && q.losses == p.losses + 1
            && q.captainWins == p.captainWins)
      && (my < opp - 4 ==>
            q.totalPoints == p.totalPoints + MvpBonus(p, r) && q.wins == p.wins && q.losses == p.losses + 1
            && q.captainWins == p.captainWins)
  {
  }

  /**
   * The record a player's statistics keep under settlement: the points are the
   * result points (3 per win, 1 more per captain win, 2 per draw, between 0 and
   * 1 per defeat) plus one bonus per three MVP awards.
   */
  predicate StatsConsistent(p: Player) {
    && p.wins + p.losses <= p.matchesPlayed
    && p.captainWins <= p.wins
    && p.mvpPoints <= p.matchesPlayed
    && var base := 3 * p.wins + p.captainWins + 2 * (p.matchesPlayed - p.wins - p.losses) + p.mvpPoints / MVP_THRESHOLD;
       base <= p.totalPoints <= base + p.losses
  }

  /** One more MVP award adds one bonus exactly when the new count is a multiple of 3. */
  lemma MvpBonusStep(m: nat)
    ensures (m + 1) / 3 == m / 3 + (if (m + 1) % 3 == 0 then 1 else 0)
  {
  }

  /** Settlement keeps a player's statistics consistent. */
  lemma SettleKeepsStatsConsistent(p: Player, r: Report)
    requires StatsConsistent(p)
    ensures StatsConsistent(SettlePlayer(p, r))
  {
    if Participates(p.id, r) {
      SettleOutcome(p, r);
      MvpBonusStep(p.mvpPoints);
    }
  }

  /** `prevPlayers.map(...)`: every player settled by the same report. */
  function SettleAll(ps: seq<Player>, r: Report): (qs: seq<Player>)
    ensures |qs| == |ps|
    ensures forall i :: 0 <= i < |ps| ==> qs[i] == SettlePlayer(ps[i], r)
  {
    if ps == [] then [] else [SettlePlayer(ps[0], r)] + SettleAll(ps[1..], r)
  }

  /** The settled match: the result fields are set and the match is closed; id, date, session and sign-ups stay. */
  function Finalise(m: Match, r: Report): (f: Match)
    ensures f.id == m.id && f.date == m.date && f.sessionNumber == m.sessionNumber
    ensures f.registrations == m.registrations
    ensures f.isCompleted && ResultsMatchStatus(f)
    ensures f.score == Some(Score(r.teamAScore, r.teamBScore))
    ensures f.teamA == Some(r.teamAIds) && f.teamB == Some(r.teamBIds)
    ensures f.captains == Some(r.captains) && f.mvps == Some(r.mvpIds)
  {
    m.(score := Some(Score(r.teamAScore, r.teamBScore)),
       mvps := Some(r.mvpIds),
       teamA := Some(r.teamAIds),
       teamB := Some(r.teamBIds),
       captains := Some(r.captains),
       isCompleted := true)
  }

  /** `prevMatches.map(...)`: the match with the given id is finalised, the others are kept. */
  function FinaliseAll(ms: seq<Match>, matchId: string, r: Report): (fs: seq<Match>)
    ensures |fs| == |ms|
    ensures forall i :: 0 <= i < |ms| ==> fs[i] == if ms[i].id == matchId then Finalise(ms[i], r) else ms[i]
  {
    if ms == [] then []
    else [if ms[0].id == matchId then Finalise(ms[0], r) else ms[0]] + FinaliseAll(ms[1..], matchId, r)
  }

  /** A fresh open session with no sign-ups and no result; its id is `n` written in decimal. */
  function NewSession(n: nat, sessionNumber: nat, date: string): (m: Match)
    ensures m.id == Text.NatToString(n) && m.sessionNumber == sessionNumber && m.registrations == []
    ensures !m.isCompleted && ResultsMatchStatus(m)
  {
    Match(Text.NatToString(n), date, sessionNumber, [], None, None, None, None, None, false)
  }

  // ---------------------------------------------------------------------------
  // Roster edits

  /** A new player starts with every statistic at zero; an empty icon becomes the ball. */
  function NewPlayer(id: string, name: string, icon: string, isPastWinner: bool): (p: Player)
    ensures p.id == id && p.name == name && p.isPastWinner == isPastWinner
    ensures p.icon != "" && (icon != "" ==> p.icon == icon)
    ensures p.totalPoints == 0 && p.mvpPoints == 0 && p.matchesPlayed == 0
    ensures p.wins == 0 && p.losses == 0 && p.captainWins == 0
    ensures StatsConsistent(p)
  {
    Player(id, name, if icon == "" then DEFAULT_ICON else icon, isPastWinner, 0, 0, 0, 0, 0, 0)
  }

  /** `prev.map(p => p.id === updated.id ? updated : p)`. */
  function ReplaceById(ps: seq<Player>, updated: Player): (qs: seq<Player>)
    ensures |qs| == |ps|
    ensures forall i :: 0 <= i < |ps| ==> qs[i] == if ps[i].id == updated.id then updated else ps[i]
  {
    if ps == [] then []
    else [if ps[0].id == updated.id then updated else ps[0]] + ReplaceById(ps[1..], updated)
  }

  /** The filter condition of a deletion. */
  function NotPlayer(playerId: string): Player -> bool {
    (p: Player) => p.id != playerId
  }

  /** After an update, looking up the edited id finds the new record (if the id existed) and every other lookup is unchanged. */
  lemma {:induction false} ReplaceByIdLookup(ps: seq<Player>, updated: Player, id: string)
    ensures id != updated.id ==> FindPlayer(ReplaceById(ps, updated), id) == FindPlayer(ps, id)
    ensures id == updated.id ==>
      FindPlayer(ReplaceById(ps, updated), id) == if FindPlayer(ps, id).Some? then Some(updated) else None
  {
    if ps != [] {
      ReplaceByIdLookup(ps[1..], updated, id);
      assert ReplaceById(ps, updated)[1..] == ReplaceById(ps[1..], updated);
    }
  }

  /** After a deletion the id is gone and every other lookup is unchanged. */
  lemma {:induction false} DeleteLookup(ps: seq<Player>, playerId: string, id: string)
    ensures FindPlayer(Filter(NotPlayer(playerId), ps), id) == if id == playerId then None else FindPlayer(ps, id)
  {
    if ps != [] {
      var keep := NotPlayer(playerId);
      var rest := Filter(keep, ps[1..]);
      DeleteLookup(ps[1..], playerId, id);
      if keep(ps[0]) {
        assert Filter(keep, ps) == [ps[0]] + rest;
        assert ([ps[0]] + rest)[1..] == rest;
      } else {
        assert Filter(keep, ps) == rest;
      }
    }
  }

  // ---------------------------------------------------------------------------
  // The application state

  class Tournament {
    var players: seq<Player>
    var matches: seq<Match>

    ghost predicate Valid()
      reads this
    {
      LedgerWellFormed(matches)
    }

    /** The state with nothing saved: the seed roster and an open first session. */
    constructor(today: string)
      ensures Valid() && Orderly(matches)
      ensures players == InitialPlayers()
      ensures matches == [NewSession(1, 1, today)]
    {
      players := InitialPlayers();
      matches := [NewSession(1, 1, today)];
    }

    /** The match the registration screens work on. */
    function Current(): (m: Match)
      reads this
      requires Valid()
      ensures m == matches[CurrentIndex(matches)] && m in matches
    {
      CurrentMatch(matches)
    }

    /**
     * Adds the player at the end of the current match's sign-ups, unless the
     * player is already signed up, in which case nothing changes.
     */
    method RegisterForMatch(playerId: string, timestamp: int)
      modifies this
      requires Valid()
      ensures Valid()
      ensures players == old(players)
      ensures var i := CurrentIndex(old(matches));
        var m := old(matches)[i];
        if IsRegistered(m.registrations, playerId) then matches == old(matches)
        else matches == old(matches)[i := m.(registrations := m.registrations + [Registration(playerId, timestamp)])]
    {
      FindCurrentMatch(matches);
      var matchIndex := FindMatchIndex(matches, CurrentMatch(matches).id).value;
      var m := matches[matchIndex];
      if IsRegistered(m.registrations, playerId) {
        return;
      }
      RegisterAppendsOne(m.registrations, playerId, timestamp);
      ReplaceSignUpsKeepsWellFormed(matches, matchIndex, m.registrations + [Registration(playerId, timestamp)]);
      matches := matches[matchIndex := m.(registrations := m.registrations + [Registration(playerId, timestamp)])];
    }

    /** Removes every sign-up of the player from the current match. */
    method CancelRegistration(playerId: string)
      modifies this
      requires Valid()
      ensures Valid()
      ensures players == old(players)
      ensures var i := CurrentIndex(old(matches));
        var m := old(matches)[i];
        matches == old(matches)[i := m.(registrations := Filter(NotFor(playerId), m.registrations))]
    {
      FindCurrentMatch(matches);
      var matchIndex := FindMatchIndex(matches, CurrentMatch(matches).id).value;
      var m := matches[matchIndex];
      var kept := Filter(NotFor(playerId), m.registrations);
      CancelRemovesPlayer(m.registrations, playerId);
      ReplaceSignUpsKeepsWellFormed(matches, matchIndex, kept);
      matches := matches[matchIndex := m.(registrations := kept)];
    }

    /**
     * Settles the match with the given id, scores every player, and opens the
     * next session unless the current one was the twelfth.
     */
    method CompleteMatch(matchId: string, r: Report, nextDate: string)
      modifies this
      requires Valid()
      ensures Valid()
      ensures players == SettleAll(old(players), r)
      ensures matches == AfterSettlement(old(matches), matchId, r, nextDate)
    {
      var ms := matches;
      var current := CurrentMatch(ms);
      AfterSettlementWellFormed(ms, matchId, r, nextDate);
      var settled := FinaliseAll(ms, matchId, r);
      if current.sessionNumber < TOTAL_SESSIONS {
        settled := settled + [NewSession(|ms| + 1, current.sessionNumber + 1, nextDate)];
      }
      assert settled == AfterSettlement(ms, matchId, r, nextDate);
      matches := settled;
      players := SettleAll(players, r);
    }

    /** Appends a new player with zero statistics. */
    method AddPlayer(freshId: string, name: string, icon: string, isPastWinner: bool)
      modifies this
      requires Valid()
      ensures Valid()
      ensures matches == old(matches)
      ensures players == old(players) + [NewPlayer(freshId, name, icon, isPastWinner)]
    {
      players := players + [NewPlayer(freshId, name, icon, isPastWinner)];
    }

    /** Replaces every player whose id is the edited player's id. */
    method UpdatePlayer(updated: Player)
      modifies this
      requires Valid()
      ensures Valid()
      ensures matches == old(matches)
      ensures players == ReplaceById(old(players), updated)
    {
      players := ReplaceById(players, updated);
    }

    /** Removes every player with the given id. */
    method DeletePlayer(playerId: string)
      modifies this
      requires Valid()
      ensures Valid()
      ensures matches == old(matches)
      ensures players == Filter(NotPlayer(playerId), old(players))
    {
      players := Filter(NotPlayer(playerId), players);
    }
  }

  /** Replacing one match's sign-ups by a duplicate-free list keeps the list well-formed. */
  lemma ReplaceSignUpsKeepsWellFormed(ms: seq<Match>, i: nat, regs: seq<Registration>)
    requires LedgerWellFormed(ms)
    requires i < |ms| && DistinctPlayers(regs)
    ensures LedgerWellFormed(ms[i := ms[i].(registrations := regs)])
  {
    var after := ms[i := ms[i].(registrations := regs)];
    forall j | 0 <= j < |after|
      ensures after[j].id == ms[j].id && after[j].sessionNumber == ms[j].sessionNumber
      ensures ResultsMatchStatus(after[j]) && DistinctPlayers(after[j].registrations)
    {
      if j != i {
        assert after[j] == ms[j];
      }
    }
  }

  /** Finalising matches keeps ids, sessions and sign-ups, and settled matches carry their results. */
  lemma FinaliseKeepsWellFormed(ms: seq<Match>, matchId: string, r: Report)
    requires LedgerWellFormed(ms)
    ensures LedgerWellFormed(FinaliseAll(ms, matchId, r))
  {
    var fs := FinaliseAll(ms, matchId, r);
    forall i | 0 <= i < |fs|
      ensures fs[i].id == ms[i].id && fs[i].sessionNumber == ms[i].sessionNumber
      ensures fs[i].registrations == ms[i].registrations && ResultsMatchStatus(fs[i])
    {
    }
  }

  /** Opening session `s` (1 to 12) under the next id keeps the list well-formed. */
  lemma AppendSessionKeepsWellFormed(ms: seq<Match>, s: nat, date: string)
    requires LedgerWellFormed(ms)
    requires 1 <= s <= TOTAL_SESSIONS
    ensures LedgerWellFormed(ms + [NewSession(|ms| + 1, s, date)])
  {
    var m := NewSession(|ms| + 1, s, date);
    var ext := ms + [m];
    forall i | 0 <= i < |ext|
      ensures ext[i].id == Text.NatToString(i + 1) && 1 <= ext[i].sessionNumber <= TOTAL_SESSIONS
      ensures DistinctPlayers(ext[i].registrations) && ResultsMatchStatus(ext[i])
    {
      if i < |ms| {
        assert ext[i] == ms[i];
      }
    }
  }

  /** Settling the last match of an orderly list leaves every match settled, with unchanged session numbers. */
  lemma {:induction false} FinaliseLastSettlesAll(ms: seq<Match>, r: Report)
    requires |ms| > 0
    requires Orderly(ms)
    ensures var fs := FinaliseAll(ms, ms[|ms| - 1].id, r);
      forall i :: 0 <= i < |fs| ==> fs[i].isCompleted && fs[i].sessionNumber == i + 1
  {
    var fs := FinaliseAll(ms, ms[|ms| - 1].id, r);
    forall i | 0 <= i < |fs| ensures fs[i].isCompleted && fs[i].sessionNumber == i + 1 {
      if i < |ms| - 1 {
        assert ms[i].isCompleted && ms[i].sessionNumber == i + 1;
      }
    }
  }

  /** Opening the next session after a fully settled list gives an orderly list. */
  lemma {:induction false} AppendNextKeepsOrderly(fs: seq<Match>, n: Match)
    requires forall i :: 0 <= i < |fs| ==> fs[i].isCompleted && fs[i].sessionNumber == i + 1
    requires n.sessionNumber == |fs| + 1
    ensures Orderly(fs + [n])
  {
    var after := fs + [n];
    forall i | 0 <= i < |after| ensures after[i].sessionNumber == i + 1 {
      if i < |fs| {
        assert after[i] == fs[i];
      }
    }
    forall i | 0 <= i < |after| - 1 ensures after[i].isCompleted {
      assert after[i] == fs[i];
    }
  }

  /**
   * The match list after a settlement: the match with the given id is
   * finalised and, unless the current match is the twelfth session, the next
   * session is opened under the next id.
   */
  function AfterSettlement(ms: seq<Match>, matchId: string, r: Report, nextDate: string): (after: seq<Match>)
    requires |ms| > 0
    ensures |after| == |ms| + (if CurrentMatch(ms).sessionNumber < TOTAL_SESSIONS then 1 else 0)
    ensures |after| > |ms| ==> after[|ms|] == NewSession(|ms| + 1, CurrentMatch(ms).sessionNumber + 1, nextDate)
  {
    var current := CurrentMatch(ms);
    FinaliseAll(ms, matchId, r)
      + (if current.sessionNumber < TOTAL_SESSIONS then [NewSession(|ms| + 1, current.sessionNumber + 1, nextDate)] else [])
  }

  /** Settlement keeps the list well-formed. */
  lemma AfterSettlementWellFormed(ms: seq<Match>, matchId: string, r: Report, nextDate: string)
    requires LedgerWellFormed(ms)
    ensures LedgerWellFormed(AfterSettlement(ms, matchId, r, nextDate))
  {
    var current := CurrentMatch(ms);
    FinaliseKeepsWellFormed(ms, matchId, r);
    if current.sessionNumber < TOTAL_SESSIONS {
      AppendSessionKeepsWellFormed(FinaliseAll(ms, matchId, r), current.sessionNumber + 1, nextDate);
    }
  }

  /**
   * Settling the current match of an orderly list keeps it orderly: the settled
   * match was the last one, and the new session (if any) is numbered after it.
   */
  lemma {:induction false} SettleCurrentKeepsOrderly(ms: seq<Match>, r: Report, nextDate: string)
    requires |ms| > 0
    requires Orderly(ms)
    ensures Orderly(AfterSettlement(ms, CurrentMatch(ms).id, r, nextDate))
  {
    OrderlyCurrentIsLast(ms);
    var last := |ms| - 1;
    assert CurrentMatch(ms) == ms[last];
    var fs := FinaliseAll(ms, ms[last].id, r);
    FinaliseLastSettlesAll(ms, r);
    var after := AfterSettlement(ms, ms[last].id, r, nextDate);
    if |ms| < TOTAL_SESSIONS {
      var n := NewSession(|ms| + 1, |ms| + 1, nextDate);
      assert after == fs + [n];
      AppendNextKeepsOrderly(fs, n);
    } else {
      assert after == fs;
    }
  }
}
