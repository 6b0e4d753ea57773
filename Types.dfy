/**
 * The record shapes of the tournament (types.ts) and the id lookup that
 * every view uses (`players.find(p => p.id === id)`).
 */
module Types {

  /** JavaScript's `undefined`-or-value, for optional fields and failed lookups. */
  datatype Option<T> = None | Some(value: T)

  /** A player; the six statistics are non-negative counters. */
  datatype Player = Player(
    id: string,
    name: string,
    icon: string,
    isPastWinner: bool,
    totalPoints: nat,
    mvpPoints: nat,
    matchesPlayed: nat,
    wins: nat,
    losses: nat,
    captainWins: nat)

  /** One sign-up; the timestamp is an opaque clock reading. */
  datatype Registration = Registration(playerId: string, timestamp: int)

  datatype Score = Score(teamA: nat, teamB: nat)

  /**
   * One session. `score`, `teamA`, `teamB`, `captains` and `mvps` are absent
   * on an open match and are all set when the match is settled.
   */
  datatype Match = Match(
    id: string,
    date: string,
    sessionNumber: nat,
    registrations: seq<Registration>,
    score: Option<Score>,
    teamA: Option<seq<string>>,
    teamB: Option<seq<string>>,
    captains: Option<seq<string>>,
    mvps: Option<seq<string>>,
    isCompleted: bool)

  /** `players.find(p => p.id === id)`: the first player with that id, if any. */
  function FindPlayer(players: seq<Player>, id: string): (r: Option<Player>)
    ensures r.Some? ==> r.value in players && r.value.id == id
    ensures r.Some? ==> exists i :: 0 <= i < |players| && players[i] == r.value
                          && forall j :: 0 <= j < i ==> players[j].id != id
    ensures r.None? <==> forall i :: 0 <= i < |players| ==> players[i].id != id
  {
    if players == [] then None
    else if players[0].id == id then Some(players[0])
    else FindPlayer(players[1..], id)
  }

  /** `registrations.map(r => r.playerId)`: the registered ids in sign-up order. */
  function RegisteredIds(regs: seq<Registration>): (ids: seq<string>)
    ensures |ids| == |regs|
    ensures forall i :: 0 <= i < |regs| ==> ids[i] == regs[i].playerId
  {
    if regs == [] then [] else [regs[0].playerId] + RegisteredIds(regs[1..])
  }

  /** `players.map(p => p.id)`. */
  function Ids(ps: seq<Player>): (ids: seq<string>)
    ensures |ids| == |ps|
    ensures forall i :: 0 <= i < |ps| ==> ids[i] == ps[i].id
  {
    if ps == [] then [] else [ps[0].id] + Ids(ps[1..])
  }

  /** `registrations.some(r => r.playerId === id)`. */
  predicate IsRegistered(regs: seq<Registration>, id: string) {
    exists j :: 0 <= j < |regs| && regs[j].playerId == id
  }

  /** Nobody is signed up twice. */
  predicate DistinctPlayers(regs: seq<Registration>) {
    forall a, b :: 0 <= a < b < |regs| ==> regs[a].playerId != regs[b].playerId
  }

  /** `list.includes(id)` on an optional list: an absent list includes nothing. */
  predicate OptionIncludes(list: Option<seq<string>>, id: string) {
    list.Some? && id in list.value
  }
}
