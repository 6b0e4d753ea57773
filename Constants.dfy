/** The tournament's scoring and capacity constants and its seed roster (constants.ts). */
module Constants {
  import opened Types
  import Text

  const TOTAL_SESSIONS: nat := 12
  const MAX_PLAYERS_PER_MATCH: nat := 12
  const WIN_POINTS: nat := 3
  const DRAW_POINTS: nat := 2
  const CLOSE_LOSS_POINTS: nat := 1
  const CAPTAIN_WIN_BONUS: nat := 1
  const MVP_THRESHOLD: nat := 3
  const MVP_BONUS: nat := 1

  /** The ball, the icon shown for a player who has none. */
  const DEFAULT_ICON: string := "⚽"

  /** A roster entry with every statistic at zero. */
  function Rookie(id: string, name: string, icon: string, isPastWinner: bool): Player {
    Player(id, name, icon, isPastWinner, 0, 0, 0, 0, 0, 0)
  }

  /** The decimal spellings of the seed roster's ids. */
  lemma SeedIdsSpelled()
    ensures Text.NatToString(1) == "1" && Text.NatToString(2) == "2" && Text.NatToString(3) == "3"
    ensures Text.NatToString(4) == "4" && Text.NatToString(5) == "5" && Text.NatToString(6) == "6"
    ensures Text.NatToString(7) == "7" && Text.NatToString(8) == "8" && Text.NatToString(9) == "9"
    ensures Text.NatToString(10) == "10" && Text.NatToString(11) == "11" && Text.NatToString(12) == "12"
  {
    assert Text.NatToString(10) == Text.NatToString(1) + [Text.DigitChar(0)];
    assert Text.NatToString(11) == Text.NatToString(1) + [Text.DigitChar(1)];
    assert Text.NatToString(12) == Text.NatToString(1) + [Text.DigitChar(2)];
  }

  /** The seed roster's names and icons, in roster order. */
  const SEED_NAMES: seq<string> := ["Luca", "Marco", "Andrea", "Matteo", "Giovanni", "Davide",
    "Filippo", "Simone", "Stefano", "Paolo", "Federico", "Giacomo"]
  const SEED_ICONS: seq<string> := ["⚽", "🧤", "🏃", "⚡", "🔥", "🎯", "🦁", "🦅", "🐺", "🐻", "🦊", "🐼"]

  /**
   * The twelve players the app starts with when nothing is stored: ids "1"
   * to "12" in order, the second player (Marco) the only past winner.
   */
  function InitialPlayers(): (r: seq<Player>)
    ensures |r| == 12
    ensures forall i :: 0 <= i < |r| ==> r[i].id == Text.NatToString(i + 1)
    ensures forall i :: 0 <= i < |r| ==>
      r[i].totalPoints == 0 && r[i].mvpPoints == 0 && r[i].matchesPlayed == 0 &&
      r[i].wins == 0 && r[i].losses == 0 && r[i].captainWins == 0
    ensures forall i :: 0 <= i < |r| ==> (r[i].isPastWinner <==> r[i].id == "2")
  {
    SeedIdsSpelled();
    seq(12, i requires 0 <= i < 12 => Rookie(Text.NatToString(i + 1), SEED_NAMES[i], SEED_ICONS[i], i == 1))
  }

  /** The seed roster has twelve distinct ids and a single past winner. */
  lemma InitialPlayersDistinct()
    ensures forall i, j :: 0 <= i < j < |InitialPlayers()| ==> InitialPlayers()[i].id != InitialPlayers()[j].id
    ensures forall i :: 0 <= i < |InitialPlayers()| && InitialPlayers()[i].isPastWinner ==> i == 1
  {
    var r := InitialPlayers();
    forall i, j | 0 <= i < j < |r| ensures r[i].id != r[j].id {
      if r[i].id == r[j].id {
        Text.NatToStringInjective(i + 1, j + 1);
      }
    }
    forall i | 0 <= i < |r| && r[i].isPastWinner ensures i == 1 {
      assert r[i].id == Text.NatToString(i + 1) == "2" == Text.NatToString(2);
      Text.NatToStringInjective(i + 1, 2);
    }
  }

  /** The point scale: a win beats a draw, a draw beats a close loss, and a close loss still scores. */
  lemma PointScale()
    ensures WIN_POINTS > DRAW_POINTS > CLOSE_LOSS_POINTS > 0
    ensures CAPTAIN_WIN_BONUS == MVP_BONUS == 1 && MVP_THRESHOLD == 3
    ensures TOTAL_SESSIONS == 12 && MAX_PLAYERS_PER_MATCH == 12
  {
  }
}
