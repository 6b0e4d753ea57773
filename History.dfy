/**
 * The match history page (History.tsx): the settled matches, latest
 * session first, and the name and icon lookups with their fallbacks used
 * for the captains and MVPs of each match.
 */
module History {
  import opened Types
  import opened Seqs
  import opened Sorting
  import opened Constants
  import App

  /** `(a, b) => b.sessionNumber - a.sessionNumber`: a later session comes first. */
  predicate LaterSession(a: Match, b: Match) {
    (b.sessionNumber as int) - (a.sessionNumber as int) < 0
  }

  /** The comparator is consistent, and two matches tie exactly when they share a session number. */
  lemma LaterSessionIsConsistent()
    ensures StrictWeakOrder(LaterSession)
    ensures forall a: Match, b: Match :: Tied(LaterSession, a, b) <==> a.sessionNumber == b.sessionNumber
  {
  }

  /** Settled matches, as a filter condition. */
  function IsSettled(): Match -> bool {
    (m: Match) => m.isCompleted
  }

  /** `[...matches].filter(m => m.isCompleted).sort(...)`. */
  function CompletedMatches(matches: seq<Match>): seq<Match> {
    SortBy(LaterSession, Filter(IsSettled(), matches))
  }

  /** The history lists exactly the settled matches, each as often as it occurs in the match list. */
  lemma CompletedMatchesExactly(matches: seq<Match>)
    ensures forall m :: m in CompletedMatches(matches) <==> m in matches && m.isCompleted
    ensures forall m :: multiset(CompletedMatches(matches))[m] == if m.isCompleted then multiset(matches)[m] else 0
  {
    FilterMembers(IsSettled(), matches);
    FilterMultiset(IsSettled(), matches);
    var r := CompletedMatches(matches);
    assert multiset(r) == multiset(Filter(IsSettled(), matches));
    forall m ensures m in r <==> m in matches && m.isCompleted {
      assert m in r <==> m in multiset(r);
      assert m in Filter(IsSettled(), matches) <==> m in multiset(Filter(IsSettled(), matches));
    }
  }

  /**
   * The history shows later sessions first, and matches of the same session
   * in the order of the match list.
   */
  lemma CompletedMatchesLatestFirst(matches: seq<Match>, y: Match)
    ensures var r := CompletedMatches(matches);
      forall i, j :: 0 <= i < j < |r| ==> r[i].sessionNumber >= r[j].sessionNumber
    ensures Filter(TiedWith(LaterSession, y), CompletedMatches(matches))
         == Filter(TiedWith(LaterSession, y), Filter(IsSettled(), matches))
  {
    LaterSessionIsConsistent();
    SortBySorted(LaterSession, Filter(IsSettled(), matches));
    SortByStable(LaterSession, Filter(IsSettled(), matches), y);
  }

  /** `players.find(p => p.id === id)?.name || '???'`: an unknown id, or an empty name, shows three question marks. */
  function GetPlayerName(players: seq<Player>, id: string): (name: string)
    ensures name != ""
    ensures FindPlayer(players, id).Some? && FindPlayer(players, id).value.name != "" ==> name == FindPlayer(players, id).value.name
    ensures name == "???" <==> FindPlayer(players, id).None? || FindPlayer(players, id).value.name in {"", "???"}
  {
    match FindPlayer(players, id)
    case Some(p) => if p.name != "" then p.name else "???"
    case None => "???"
  }

  /** `players.find(p => p.id === id)?.icon || '⚽'`: an unknown id, or an empty icon, shows the ball. */
  function GetPlayerIcon(players: seq<Player>, id: string): (icon: string)
    ensures icon != ""
    ensures FindPlayer(players, id).Some? && FindPlayer(players, id).value.icon != "" ==> icon == FindPlayer(players, id).value.icon
    ensures icon == DEFAULT_ICON <==> FindPlayer(players, id).None? || FindPlayer(players, id).value.icon in {"", DEFAULT_ICON}
  {
    match FindPlayer(players, id)
    case Some(p) => if p.icon != "" then p.icon else DEFAULT_ICON
    case None => DEFAULT_ICON
  }

  /** One listed player of a match card: icon, then name. */
  datatype Entry = Entry(icon: string, name: string)

  function EntryFor(players: seq<Player>, id: string): Entry {
    Entry(GetPlayerIcon(players, id), GetPlayerName(players, id))
  }

  /** The entries for a list of ids, in list order. */
  function Entries(players: seq<Player>, ids: seq<string>): (es: seq<Entry>)
    ensures |es| == |ids|
  {
    seq(|ids|, i requires 0 <= i < |ids| => EntryFor(players, ids[i]))
  }

  /** The MVP panel of a match card: the MVPs, or "not assigned". */
  datatype MvpPanel = NotAssigned | Listed(entries: seq<Entry>)

  /** `match.mvps?.length ? match.mvps.map(...) : 'Non assegnato'`. */
  function MvpPanelOf(m: Match, players: seq<Player>): (panel: MvpPanel)
    ensures panel.NotAssigned? <==> m.mvps.None? || m.mvps.value == []
    ensures panel.Listed? ==> |panel.entries| == |m.mvps.value| > 0
  {
    if m.mvps.Some? && |m.mvps.value| > 0 then Listed(Entries(players, m.mvps.value)) else NotAssigned
  }

  /** `match.captains?.map(...)`: no entries when the match has no captains. */
  function CaptainEntries(m: Match, players: seq<Player>): (es: seq<Entry>)
    ensures m.captains.None? ==> es == []
    ensures m.captains.Some? ==> |es| == |m.captains.value|
  {
    if m.captains.Some? then Entries(players, m.captains.value) else []
  }

  /**
   * A settled match shows "not assigned" exactly when its settlement named no
   * MVP; otherwise it lists one entry per MVP in the order they were named,
   * with the captains likewise.
   */
  lemma SettledMatchPanels(m: Match, r: App.Report, players: seq<Player>)
    ensures var f := App.Finalise(m, r);
      && (MvpPanelOf(f, players).NotAssigned? <==> r.mvpIds == [])
      && (r.mvpIds != [] ==> MvpPanelOf(f, players) == Listed(Entries(players, r.mvpIds)))
      && CaptainEntries(f, players) == Entries(players, r.captains)
  {
    var f := App.Finalise(m, r);
    assert f.mvps == Some(r.mvpIds) && f.captains == Some(r.captains);
  }

  /** An unknown id shows the ball and three question marks. */
  lemma UnknownPlayerEntry(players: seq<Player>, id: string)
    requires forall i :: 0 <= i < |players| ==> players[i].id != id
    ensures EntryFor(players, id) == Entry(DEFAULT_ICON, "???")
  {
  }

  /**
   * Whatever the roster, the entry for an id is that of the first roster
   * player holding it, shown with that player's icon and name when both are set.
   */
  lemma FirstPlayerEntry(players: seq<Player>, i: nat)
    requires i < |players| && players[i].icon != "" && players[i].name != ""
    requires forall j :: 0 <= j < i ==> players[j].id != players[i].id
    ensures EntryFor(players, players[i].id) == Entry(players[i].icon, players[i].name)
  {
    var id := players[i].id;
    var q := FindPlayer(players, id).value;
    var k :| 0 <= k < |players| && players[k] == q && forall j :: 0 <= j < k ==> players[j].id != id;
    assert k == i;
  }

  /** With distinct roster ids, a player with an icon and a name is shown with them. */
  lemma KnownPlayerEntry(players: seq<Player>, p: Player)
    requires NoDuplicates(Ids(players))
    requires p in players && p.icon != "" && p.name != ""
    ensures EntryFor(players, p.id) == Entry(p.icon, p.name)
  {
    var q := FindPlayer(players, p.id).value;
    var i :| 0 <= i < |players| && players[i] == p;
    var j :| 0 <= j < |players| && players[j] == q;
    assert Ids(players)[i] == Ids(players)[j];
  }
}
