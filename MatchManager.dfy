/**
 * The match form of components/MatchManager.tsx: who is confirmed for the
 * match, the captain policy of each phase of the season, and the form state
 * (teams, MVPs, score) that is handed to settlement.
 */
module MatchManager {
  import opened Types
  import opened Seqs
  import opened Sorting
  import opened Constants
  import App

  // ---------------------------------------------------------------------------
  // Confirmed players

  /** Whether some player has the id, as a filter condition. */
  function Known(players: seq<Player>): string -> bool {
    (id: string) => FindPlayer(players, id).Some?
  }

  /** The players found for the given sign-ups, in sign-up order; unknown ids are skipped. */
  function KnownPlayers(regs: seq<Registration>, players: seq<Player>): (ps: seq<Player>)
    ensures |ps| <= |regs|
    ensures forall p :: p in ps ==> p in players
  {
    if regs == [] then []
    else
      (match FindPlayer(players, regs[0].playerId)
       case Some(p) => [p]
       case None => [])
      + KnownPlayers(regs[1..], players)
  }

  /** The players of the first twelve sign-ups that name a known player. */
  function ConfirmedPlayers(m: Match, players: seq<Player>): (ps: seq<Player>)
    ensures |ps| <= Min(MAX_PLAYERS_PER_MATCH, |m.registrations|)
    ensures forall p :: p in ps ==> p in players
  {
    KnownPlayers(m.registrations[..Min(MAX_PLAYERS_PER_MATCH, |m.registrations|)], players)
  }

  /** The ids of the found players are the known sign-up ids, in sign-up order. */
  lemma {:induction false} KnownPlayersIds(regs: seq<Registration>, players: seq<Player>)
    ensures Ids(KnownPlayers(regs, players)) == Filter(Known(players), RegisteredIds(regs))
  {
    if regs != [] {
      KnownPlayersIds(regs[1..], players);
      assert RegisteredIds(regs) == [regs[0].playerId] + RegisteredIds(regs[1..]);
      var rest := KnownPlayers(regs[1..], players);
      match FindPlayer(players, regs[0].playerId)
      case Some(p) =>
        assert KnownPlayers(regs, players) == [p] + rest;
        assert Ids([p] + rest) == [p.id] + Ids(rest);
      case None =>
        assert KnownPlayers(regs, players) == rest;
    }
  }

  /** Distinct sign-ups have distinct ids. */
  lemma DistinctPlayersIds(regs: seq<Registration>)
    requires DistinctPlayers(regs)
    ensures NoDuplicates(RegisteredIds(regs))
  {
    var ids := RegisteredIds(regs);
    forall a, b | 0 <= a < b < |ids| ensures ids[a] != ids[b] {
      assert ids[a] == regs[a].playerId && ids[b] == regs[b].playerId;
    }
  }

  /**
   * The confirmed players are the known players among the first twelve
   * sign-ups, in sign-up order: all of them when every id is known, and never
   * the same player twice when nobody signed up twice.
   */
  lemma ConfirmedPlayersOrder(m: Match, players: seq<Player>)
    ensures var k := Min(MAX_PLAYERS_PER_MATCH, |m.registrations|);
      Ids(ConfirmedPlayers(m, players)) == Filter(Known(players), RegisteredIds(m.registrations)[..k])
    ensures (forall i :: 0 <= i < |m.registrations| ==> Known(players)(m.registrations[i].playerId)) ==>
      Ids(ConfirmedPlayers(m, players)) == RegisteredIds(m.registrations)[..Min(MAX_PLAYERS_PER_MATCH, |m.registrations|)]
    ensures DistinctPlayers(m.registrations) ==> NoDuplicates(Ids(ConfirmedPlayers(m, players)))
  {
    var k := Min(MAX_PLAYERS_PER_MATCH, |m.registrations|);
    var first := m.registrations[..k];
    KnownPlayersIds(first, players);
    assert RegisteredIds(first) == RegisteredIds(m.registrations)[..k];
    if DistinctPlayers(m.registrations) {
      assert DistinctPlayers(first);
      DistinctPlayersIds(first);
      FilterNoDuplicates(Known(players), RegisteredIds(first));
    }
  }

  // ---------------------------------------------------------------------------
  // Captains

  /** `matches.flatMap(m => m.captains || [])`: every captain of every match, settled or not. */
  function PastCaptains(ms: seq<Match>): (ids: seq<string>)
    ensures forall id :: id in ids <==> exists i :: 0 <= i < |ms| && OptionIncludes(ms[i].captains, id)
  {
    if ms == [] then []
    else
      assert forall i :: 0 < i < |ms| ==> ms[i] == ms[1..][i - 1];
      (match ms[0].captains
       case Some(c) => c
       case None => [])
      + PastCaptains(ms[1..])
  }

  /** The players whose id is not in the list, as a filter condition. */
  function NotIn(ids: seq<string>): Player -> bool {
    (p: Player) => p.id !in ids
  }

  /** The id is no captain of any match. */
  predicate NeverCaptain(ms: seq<Match>, id: string) {
    forall i :: 0 <= i < |ms| ==> !OptionIncludes(ms[i].captains, id)
  }

  /** The comparator `(a, b) => b.totalPoints - a.totalPoints`: more points first. */
  predicate MorePoints(a: Player, b: Player) {
    (b.totalPoints as int) - (a.totalPoints as int) < 0
  }

  /** The comparator `(a, b) => a.totalPoints - b.totalPoints`: fewer points first. */
  predicate FewerPoints(a: Player, b: Player) {
    (a.totalPoints as int) - (b.totalPoints as int) < 0
  }

  lemma PointOrders()
    ensures StrictWeakOrder(MorePoints)
    ensures StrictWeakOrder(FewerPoints)
  {
  }

  /** `[s[0]?.id, s[1]?.id].filter(Boolean)`: the ids of the first two, dropping absent and empty ones. */
  function FirstTwoIds(s: seq<Player>): (ids: seq<string>)
    ensures |ids| <= 2
    ensures forall id :: id in ids ==> id != ""
  {
    var heads := (if |s| > 0 then [s[0].id] else []) + (if |s| > 1 then [s[1].id] else []);
    FilterMembers((id: string) => id != "", heads);
    Filter((id: string) => id != "", heads)
  }

  /**
   * The captains proposed for the current session: in the final session the
   * two players with the most points overall, in the two sessions before it
   * the two confirmed players with the fewest points, and otherwise the first
   * two confirmed players who have never been captain (or, failing two such,
   * the first two confirmed players).
   */
  function Captains(session: nat, confirmed: seq<Player>, players: seq<Player>, matches: seq<Match>): (c: seq<string>)
    ensures |c| <= 2
  {
    if session == TOTAL_SESSIONS then
      FirstTwoIds(SortBy(MorePoints, players))
    else if session > TOTAL_SESSIONS - 3 then
      FirstTwoIds(SortBy(FewerPoints, confirmed))
    else
      var pastCaptains := PastCaptains(matches);
      var availableCaptains := Filter(NotIn(pastCaptains), confirmed);
      if |availableCaptains| >= 2 then [availableCaptains[0].id, availableCaptains[1].id]
      else Ids(confirmed[..Min(2, |confirmed|)])
  }

  /** With at least two players, all with ids, the first two ids are both kept. */
  lemma FirstTwoIdsOfTwo(s: seq<Player>)
    requires |s| >= 2 && s[0].id != "" && s[1].id != ""
    ensures FirstTwoIds(s) == [s[0].id, s[1].id]
  {
    var heads := [s[0].id] + [s[1].id];
    assert heads == [s[0].id, s[1].id];
    assert forall i :: 0 <= i < |heads| ==> heads[i] != "";
  }

  /**
   * Final session: the captains are the two players with the most points in
   * the whole roster (confirmed or not): nobody has more points than the
   * first, and at most one player has more points than the second.
   */
  lemma FinalCaptainsLead(confirmed: seq<Player>, players: seq<Player>, matches: seq<Match>)
    requires |players| >= 2
    requires forall i :: 0 <= i < |players| ==> players[i].id != ""
    ensures var t := SortBy(MorePoints, players);
      && Captains(TOTAL_SESSIONS, confirmed, players, matches) == [t[0].id, t[1].id]
      && t[0] in players && t[1] in players
      && (forall p :: p in players ==> p.totalPoints <= t[0].totalPoints)
      && |Filter(Before(MorePoints, t[1]), players)| <= 1
  {
    PointOrders();
    var t := SortBy(MorePoints, players);
    SortByLeaders(MorePoints, players);
    FirstTwoIdsOfTwo(t);
  }

  /**
   * Sessions 10 and 11: the captains are the two confirmed players with the
   * fewest points: nobody confirmed has fewer points than the first, and at
   * most one has fewer than the second.
   */
  lemma LateCaptainsTrail(session: nat, confirmed: seq<Player>, players: seq<Player>, matches: seq<Match>)
    requires TOTAL_SESSIONS - 3 < session < TOTAL_SESSIONS
    requires |confirmed| >= 2
    requires forall i :: 0 <= i < |confirmed| ==> confirmed[i].id != ""
    ensures var t := SortBy(FewerPoints, confirmed);
      && Captains(session, confirmed, players, matches) == [t[0].id, t[1].id]
      && t[0] in confirmed && t[1] in confirmed
      && (forall p :: p in confirmed ==> t[0].totalPoints <= p.totalPoints)
      && |Filter(Before(FewerPoints, t[1]), confirmed)| <= 1
  {
    PointOrders();
    var t := SortBy(FewerPoints, confirmed);
    SortByLeaders(FewerPoints, confirmed);
    FirstTwoIdsOfTwo(t);
  }

  /**
   * Sessions 1 to 9: when two confirmed players have never been captain,
   * the captains are two such confirmed players; otherwise the first two
   * confirmed players, whoever they are.
   */
  lemma EarlyCaptainsRotate(session: nat, confirmed: seq<Player>, players: seq<Player>, matches: seq<Match>)
    requires session <= TOTAL_SESSIONS - 3
    ensures var eligible := Filter(NotIn(PastCaptains(matches)), confirmed);
      var c := Captains(session, confirmed, players, matches);
      && (|eligible| >= 2 ==>
            |c| == 2 && NeverCaptain(matches, c[0]) && NeverCaptain(matches, c[1])
            && c[0] in Ids(confirmed) && c[1] in Ids(confirmed))
      && (|eligible| < 2 ==> c == Ids(confirmed[..Min(2, |confirmed|)]))
  {
    var past := PastCaptains(matches);
    var eligible := Filter(NotIn(past), confirmed);
    var c := Captains(session, confirmed, players, matches);
    if |eligible| >= 2 {
      assert c == [eligible[0].id, eligible[1].id];
      FilterMembers(NotIn(past), confirmed);
      forall j | 0 <= j < 2 ensures NeverCaptain(matches, c[j]) && c[j] in Ids(confirmed) {
        var p := eligible[j];
        assert p in eligible;
        var i :| 0 <= i < |confirmed| && confirmed[i] == p;
        assert Ids(confirmed)[i] == c[j];
      }
    } else {
      assert c == Ids(confirmed[..Min(2, |confirmed|)]);
    }
  }

  /**
   * Sessions 1 to 9: the captains are the first two never-captained players
   * in sign-up order, so any prefix of the confirmed list that already holds
   * two of them decides the choice.
   */
  lemma EarlyCaptainsFirstEligible(session: nat, confirmed: seq<Player>, players: seq<Player>, matches: seq<Match>, k: nat)
    requires session <= TOTAL_SESSIONS - 3
    requires k <= |confirmed| && |Filter(NotIn(PastCaptains(matches)), confirmed[..k])| >= 2
    ensures Captains(session, confirmed, players, matches) == Ids(Filter(NotIn(PastCaptains(matches)), confirmed[..k])[..2])
  {
    var past := PastCaptains(matches);
    var eligible := Filter(NotIn(past), confirmed);
    var f := Filter(NotIn(past), confirmed[..k]);
    FilterPrefix(NotIn(past), confirmed, k);
    assert f[..2] == eligible[..2];
    assert Ids(f[..2]) == [f[0].id, f[1].id];
  }

  /** A list holds a player's id exactly when it holds a player with that id. */
  lemma IdsMembers(s: seq<Player>)
    ensures forall id :: id in Ids(s) <==> exists p :: p in s && p.id == id
  {
    forall id | id in Ids(s) ensures exists p :: p in s && p.id == id {
      var i :| 0 <= i < |s| && Ids(s)[i] == id;
      assert s[i] in s;
    }
    forall p | p in s ensures p.id in Ids(s) {
      var i :| 0 <= i < |s| && s[i] == p;
      assert Ids(s)[i] == p.id;
    }
  }

  /** The ids kept by `FirstTwoIds` belong to the first two players. */
  lemma FirstTwoIdsFrom(s: seq<Player>)
    ensures forall id :: id in FirstTwoIds(s) ==> exists j :: 0 <= j < |s| && j < 2 && s[j].id == id
  {
    var heads := (if |s| > 0 then [s[0].id] else []) + (if |s| > 1 then [s[1].id] else []);
    FilterMembers((id: string) => id != "", heads);
  }

  /** The first two ids of a sorted copy are ids of the list sorted. */
  lemma SortedCaptainsFrom(less: (Player, Player) -> bool, s: seq<Player>)
    ensures forall id :: id in FirstTwoIds(SortBy(less, s)) ==> id in Ids(s)
  {
    var t := SortBy(less, s);
    IdsMembers(s);
    FirstTwoIdsFrom(t);
    forall id | id in FirstTwoIds(t) ensures exists p :: p in s && p.id == id {
      var j :| 0 <= j < |t| && j < 2 && t[j].id == id;
      assert t[j] in multiset(s);
    }
  }

  /** In sessions 1 to 9 the captains are ids of confirmed players. */
  lemma RotationCaptainsFrom(session: nat, confirmed: seq<Player>, players: seq<Player>, matches: seq<Match>)
    requires session <= TOTAL_SESSIONS - 3
    ensures forall id :: id in Captains(session, confirmed, players, matches) ==> id in Ids(confirmed)
  {
    var c := Captains(session, confirmed, players, matches);
    var eligible := Filter(NotIn(PastCaptains(matches)), confirmed);
    IdsMembers(confirmed);
    FilterMembers(NotIn(PastCaptains(matches)), confirmed);
    if |eligible| >= 2 {
      assert eligible[0] in eligible && eligible[1] in eligible;
      assert c == [eligible[0].id, eligible[1].id];
    } else {
      var k := Min(2, |confirmed|);
      assert c == Ids(confirmed[..k]);
      forall id | id in c ensures exists p :: p in confirmed && p.id == id {
        var j :| 0 <= j < k && Ids(confirmed[..k])[j] == id;
        assert confirmed[j] in confirmed;
      }
    }
  }

  /** Every captain is the id of a candidate: a player of the roster in the final session, a confirmed player otherwise. */
  lemma CaptainsAreCandidates(session: nat, confirmed: seq<Player>, players: seq<Player>, matches: seq<Match>)
    ensures var candidates := if session == TOTAL_SESSIONS then players else confirmed;
      forall id :: id in Captains(session, confirmed, players, matches) ==> id in Ids(candidates)
  {
    if session == TOTAL_SESSIONS {
      SortedCaptainsFrom(MorePoints, players);
    } else if session > TOTAL_SESSIONS - 3 {
      SortedCaptainsFrom(FewerPoints, confirmed);
    } else {
      RotationCaptainsFrom(session, confirmed, players, matches);
    }
  }

  // ---------------------------------------------------------------------------
  // Team building

  /** Where a player is sent: team A, team B, or back to the unassigned players. */
  datatype Target = A | B | U

  datatype Side = SideA | SideB

  /** The ids other than `id`, as a filter condition. */
  function NotId(id: string): string -> bool {
    (x: string) => x != id
  }

  /** Players in neither team, as a filter condition. */
  function InNeither(teamAIds: seq<string>, teamBIds: seq<string>): Player -> bool {
    (p: Player) => p.id !in teamAIds && p.id !in teamBIds
  }

  /** The confirmed players in neither team. */
  function Unassigned(confirmed: seq<Player>, teamAIds: seq<string>, teamBIds: seq<string>): seq<Player> {
    Filter(InNeither(teamAIds, teamBIds), confirmed)
  }

  /** Both teams have players and together they are as many as the confirmed players. */
  predicate FormValid(teamAIds: seq<string>, teamBIds: seq<string>, confirmed: seq<Player>) {
    |teamAIds| > 0 && |teamBIds| > 0 && |teamAIds| + |teamBIds| == |confirmed|
  }

  predicate TeamsDisjoint(teamAIds: seq<string>, teamBIds: seq<string>) {
    forall id :: id in teamAIds ==> id !in teamBIds
  }

  /** A team list after a move: the player is taken out and, if the move targets this team, put at the end. */
  lemma MoveMembership(ids: seq<string>, playerId: string, join: bool)
    ensures var moved := Filter(NotId(playerId), ids) + (if join then [playerId] else []);
      && (playerId in moved <==> join)
      && (forall id :: id != playerId ==> (id in moved <==> id in ids))
      && (NoDuplicates(ids) ==> NoDuplicates(moved))
  {
    var kept := Filter(NotId(playerId), ids);
    var moved := kept + (if join then [playerId] else []);
    FilterMembers(NotId(playerId), ids);
    if NoDuplicates(ids) {
      FilterNoDuplicates(NotId(playerId), ids);
      forall i, j | 0 <= i < j < |moved| ensures moved[i] != moved[j] {
        if j < |kept| {
          assert moved[i] == kept[i] && moved[j] == kept[j];
        } else {
          assert moved[i] == kept[i] && kept[i] in kept;
        }
      }
    }
  }

  /** The MVP list after a toggle: the player is removed if listed and appended otherwise. */
  lemma ToggleMembership(ids: seq<string>, playerId: string)
    ensures var toggled := if playerId in ids then Filter(NotId(playerId), ids) else ids + [playerId];
      && (forall id :: id in toggled <==> if id == playerId then playerId !in ids else id in ids)
      && (NoDuplicates(ids) ==> NoDuplicates(toggled))
  {
    FilterMembers(NotId(playerId), ids);
    if NoDuplicates(ids) {
      FilterNoDuplicates(NotId(playerId), ids);
    }
  }

  /** Toggling an unlisted player twice gives back the list. */
  lemma ToggleTwiceAbsent(ids: seq<string>, playerId: string)
    requires playerId !in ids
    ensures Filter(NotId(playerId), ids + [playerId]) == ids
  {
    FilterConcat(NotId(playerId), ids, [playerId]);
    assert Filter(NotId(playerId), ids) == ids;
    assert [playerId][1..] == [];
  }

  /** A set of distinct list elements is as large as the list, so two disjoint duplicate-free lists fill as many ids as their lengths add up to. */
  lemma DisjointCardinality(xs: seq<string>, ys: seq<string>)
    requires NoDuplicates(xs) && NoDuplicates(ys) && TeamsDisjoint(xs, ys)
    ensures |(set id | id in xs) + (set id | id in ys)| == |xs| + |ys|
  {
    NoDuplicatesCardinality(xs);
    NoDuplicatesCardinality(ys);
    var sx, sy := set id | id in xs, set id | id in ys;
    assert sx * sy == {};
  }

  /** A subset as large as its superset is the whole superset. */
  lemma SubsetSameSize(s: set<string>, t: set<string>)
    requires s <= t && |s| == |t|
    ensures s == t
  {
    if s != t {
      var x :| x in t && x !in s;
      assert s <= t - {x};
      assert |s| <= |t - {x}| by {
        SubsetSize(s, t - {x});
      }
    }
  }

  lemma {:induction false} SubsetSize(s: set<string>, t: set<string>)
    requires s <= t
    ensures |s| <= |t|
  {
    assert t == s + (t - s);
  }

  /** The ids of both teams, and of the confirmed players, as sets. */
  function TeamSet(teamAIds: seq<string>, teamBIds: seq<string>): set<string> {
    (set id | id in teamAIds) + (set id | id in teamBIds)
  }

  function IdSet(confirmed: seq<Player>): set<string> {
    set id | id in Ids(confirmed)
  }

  /** With nobody left unassigned, the teams cover every confirmed id. */
  lemma NoneLeftCovers(confirmed: seq<Player>, teamAIds: seq<string>, teamBIds: seq<string>)
    requires Unassigned(confirmed, teamAIds, teamBIds) == []
    ensures IdSet(confirmed) <= TeamSet(teamAIds, teamBIds)
  {
    var ids := Ids(confirmed);
    FilterMembers(InNeither(teamAIds, teamBIds), confirmed);
    forall id | id in IdSet(confirmed) ensures id in TeamSet(teamAIds, teamBIds) {
      var i :| 0 <= i < |ids| && ids[i] == id;
      assert confirmed[i] in confirmed;
    }
  }

  /** When the teams cover every confirmed id, nobody is left unassigned. */
  lemma CoveredNoneLeft(confirmed: seq<Player>, teamAIds: seq<string>, teamBIds: seq<string>)
    requires IdSet(confirmed) <= TeamSet(teamAIds, teamBIds)
    ensures Unassigned(confirmed, teamAIds, teamBIds) == []
  {
    var ids := Ids(confirmed);
    forall i | 0 <= i < |confirmed| ensures !InNeither(teamAIds, teamBIds)(confirmed[i]) {
      assert ids[i] in IdSet(confirmed);
    }
    FilterNone(InNeither(teamAIds, teamBIds), confirmed);
  }

  /**
   * When the team lists are duplicate-free, disjoint and hold only confirmed
   * ids, the form is valid exactly when both teams have players and no
   * confirmed player is left unassigned.
   */
  lemma FormValidIffAllAssigned(confirmed: seq<Player>, teamAIds: seq<string>, teamBIds: seq<string>)
    requires NoDuplicates(Ids(confirmed))
    requires NoDuplicates(teamAIds) && NoDuplicates(teamBIds) && TeamsDisjoint(teamAIds, teamBIds)
    requires forall id :: id in teamAIds ==> id in Ids(confirmed)
    requires forall id :: id in teamBIds ==> id in Ids(confirmed)
    ensures FormValid(teamAIds, teamBIds, confirmed) <==>
      |teamAIds| > 0 && |teamBIds| > 0 && Unassigned(confirmed, teamAIds, teamBIds) == []
  {
    var teams, all := TeamSet(teamAIds, teamBIds), IdSet(confirmed);
    DisjointCardinality(teamAIds, teamBIds);
    NoDuplicatesCardinality(Ids(confirmed));
    assert teams <= all;
    if Unassigned(confirmed, teamAIds, teamBIds) == [] {
      NoneLeftCovers(confirmed, teamAIds, teamBIds);
      assert all == teams;
    }
    if |teamAIds| + |teamBIds| == |confirmed| {
      SubsetSameSize(teams, all);
      CoveredNoneLeft(confirmed, teamAIds, teamBIds);
    } else {
      SubsetSize(teams, all);
    }
  }

  /**
   * The form test compares lengths only. Two team members who are not
   * confirmed (as the session-12 captains may be, being drawn from the whole
   * roster) make up for two confirmed players left out of both teams.
   */
  lemma FormValidLeavesConfirmedOut()
    ensures var confirmed := [Rookie("a", "Ada", "", false), Rookie("b", "Bea", "", false),
                              Rookie("c", "Cal", "", false), Rookie("d", "Dan", "", false)];
      var teamAIds, teamBIds := ["x", "a"], ["y", "b"];
      && NoDuplicates(teamAIds) && NoDuplicates(teamBIds) && TeamsDisjoint(teamAIds, teamBIds)
      && FormValid(teamAIds, teamBIds, confirmed)
      && Unassigned(confirmed, teamAIds, teamBIds) == confirmed[2..]
      && !FormComplete(teamAIds, teamBIds, confirmed)
  {
    var confirmed := [Rookie("a", "Ada", "", false), Rookie("b", "Bea", "", false),
                      Rookie("c", "Cal", "", false), Rookie("d", "Dan", "", false)];
    var keep := InNeither(["x", "a"], ["y", "b"]);
    assert Filter(keep, confirmed[3..]) == confirmed[3..];
    assert Filter(keep, confirmed[2..]) == [confirmed[2]] + Filter(keep, confirmed[3..]);
    assert Filter(keep, confirmed[1..]) == Filter(keep, confirmed[2..]);
    assert "x" !in Ids(confirmed) by {
      assert Ids(confirmed) == ["a", "b", "c", "d"];
    }
  }

  /**
   * The form test as the page means it: both teams have players, every
   * confirmed player is in a team, and every team member is confirmed.
   */
  predicate FormComplete(teamAIds: seq<string>, teamBIds: seq<string>, confirmed: seq<Player>) {
    && |teamAIds| > 0 && |teamBIds| > 0
    && Unassigned(confirmed, teamAIds, teamBIds) == []
    && (forall id :: id in teamAIds ==> id in Ids(confirmed))
    && (forall id :: id in teamBIds ==> id in Ids(confirmed))
  }

  /**
   * For duplicate-free, disjoint teams, the complete form is exactly two
   * non-empty teams that together hold the confirmed ids and nothing else, and
   * a complete form also passes the length test.
   */
  lemma FormCompleteIsExact(confirmed: seq<Player>, teamAIds: seq<string>, teamBIds: seq<string>)
    requires NoDuplicates(Ids(confirmed))
    requires NoDuplicates(teamAIds) && NoDuplicates(teamBIds) && TeamsDisjoint(teamAIds, teamBIds)
    ensures FormComplete(teamAIds, teamBIds, confirmed) <==>
      |teamAIds| > 0 && |teamBIds| > 0 && TeamSet(teamAIds, teamBIds) == IdSet(confirmed)
    ensures FormComplete(teamAIds, teamBIds, confirmed) ==> FormValid(teamAIds, teamBIds, confirmed)
  {
    if FormComplete(teamAIds, teamBIds, confirmed) {
      NoneLeftCovers(confirmed, teamAIds, teamBIds);
      FormValidIffAllAssigned(confirmed, teamAIds, teamBIds);
    }
    if |teamAIds| > 0 && |teamBIds| > 0 && TeamSet(teamAIds, teamBIds) == IdSet(confirmed) {
      CoveredNoneLeft(confirmed, teamAIds, teamBIds);
      forall id | id in teamAIds ensures id in Ids(confirmed) {
        assert id in TeamSet(teamAIds, teamBIds);
      }
      forall id | id in teamBIds ensures id in Ids(confirmed) {
        assert id in TeamSet(teamAIds, teamBIds);
      }
    }
  }

  /** The form state of the match manager. */
  class MatchSheet {
    var teamAScore: nat
    var teamBScore: nat
    var mvpIds: seq<string>
    var teamAIds: seq<string>
    var teamBIds: seq<string>

    constructor()
      ensures teamAScore == 0 && teamBScore == 0
      ensures mvpIds == [] && teamAIds == [] && teamBIds == []
    {
      teamAScore, teamBScore := 0, 0;
      mvpIds, teamAIds, teamBIds := [], [], [];
    }

    /** What the submit button hands to settlement. */
    function Report(captains: seq<string>): (r: App.Report)
      reads this
      ensures r.teamAScore == teamAScore && r.teamBScore == teamBScore
      ensures r.mvpIds == mvpIds && r.teamAIds == teamAIds && r.teamBIds == teamBIds && r.captains == captains
    {
      App.Report(teamAScore, teamBScore, mvpIds, teamAIds, teamBIds, captains)
    }

    /**
     * The seeding effect: with both teams empty, two captains and somebody
     * confirmed, each captain starts a team; otherwise nothing changes.
     */
    method SeedTeams(captains: seq<string>, confirmedCount: nat)
      modifies this
      ensures teamAScore == old(teamAScore) && teamBScore == old(teamBScore) && mvpIds == old(mvpIds)
      ensures if |old(teamAIds)| == 0 && |old(teamBIds)| == 0 && |captains| >= 2 && confirmedCount > 0
              then teamAIds == [captains[0]] && teamBIds == [captains[1]]
              else teamAIds == old(teamAIds) && teamBIds == old(teamBIds)
    {
      if |teamAIds| == 0 && |teamBIds| == 0 && |captains| >= 2 && confirmedCount > 0 {
        teamAIds := [captains[0]];
        teamBIds := [captains[1]];
      }
    }

    /**
     * Takes the player out of both teams and, for target A or B, puts the
     * player at the end of that team.
     */
    method MoveToTeam(playerId: string, target: Target)
      modifies this
      ensures teamAScore == old(teamAScore) && teamBScore == old(teamBScore) && mvpIds == old(mvpIds)
      ensures teamAIds == Filter(NotId(playerId), old(teamAIds)) + (if target == A then [playerId] else [])
      ensures teamBIds == Filter(NotId(playerId), old(teamBIds)) + (if target == B then [playerId] else [])
      ensures (playerId in teamAIds <==> target == A) && (playerId in teamBIds <==> target == B)
      ensures forall id :: id != playerId ==>
        (id in teamAIds <==> id in old(teamAIds)) && (id in teamBIds <==> id in old(teamBIds))
      ensures old(TeamsDisjoint(teamAIds, teamBIds)) ==> TeamsDisjoint(teamAIds, teamBIds)
      ensures old(NoDuplicates(teamAIds)) ==> NoDuplicates(teamAIds)
      ensures old(NoDuplicates(teamBIds)) ==> NoDuplicates(teamBIds)
    {
      MoveMembership(teamAIds, playerId, target == A);
      MoveMembership(teamBIds, playerId, target == B);
      teamAIds := Filter(NotId(playerId), teamAIds) + (if target == A then [playerId] else []);
      teamBIds := Filter(NotId(playerId), teamBIds) + (if target == B then [playerId] else []);
    }

    /** Removes the player from the MVP list if listed, appends the player otherwise. */
    method ToggleMvp(playerId: string)
      modifies this
      ensures teamAScore == old(teamAScore) && teamBScore == old(teamBScore)
      ensures teamAIds == old(teamAIds) && teamBIds == old(teamBIds)
      ensures mvpIds == if playerId in old(mvpIds) then Filter(NotId(playerId), old(mvpIds)) else old(mvpIds) + [playerId]
      ensures forall id :: id in mvpIds <==> if id == playerId then playerId !in old(mvpIds) else id in old(mvpIds)
      ensures old(NoDuplicates(mvpIds)) ==> NoDuplicates(mvpIds)
    {
      ToggleMembership(mvpIds, playerId);
      mvpIds := if playerId in mvpIds then Filter(NotId(playerId), mvpIds) else mvpIds + [playerId];
    }

    /** The "+" button of a team. */
    method IncrementScore(side: Side)
      modifies this
      ensures mvpIds == old(mvpIds) && teamAIds == old(teamAIds) && teamBIds == old(teamBIds)
      ensures teamAScore == old(teamAScore) + (if side == SideA then 1 else 0)
      ensures teamBScore == old(teamBScore) + (if side == SideB then 1 else 0)
    {
      if side == SideA {
        teamAScore := teamAScore + 1;
      } else {
        teamBScore := teamBScore + 1;
      }
    }

    /** The "-" button of a team: one less, but never below zero. */
    method DecrementScore(side: Side)
      modifies this
      ensures mvpIds == old(mvpIds) && teamAIds == old(teamAIds) && teamBIds == old(teamBIds)
      ensures side == SideA ==> teamAScore == (if old(teamAScore) > 0 then old(teamAScore) - 1 else 0) && teamBScore == old(teamBScore)
      ensures side == SideB ==> teamBScore == (if old(teamBScore) > 0 then old(teamBScore) - 1 else 0) && teamAScore == old(teamAScore)
    {
      if side == SideA {
        teamAScore := if teamAScore > 0 then teamAScore - 1 else 0;
      } else {
        teamBScore := if teamBScore > 0 then teamBScore - 1 else 0;
      }
    }
  }
}
