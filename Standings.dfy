/**
 * The league table of components/Standings.tsx: the ranking order and the
 * two exports (a plain-text message and a semicolon-separated file).
 */
module Standings {
  import opened Types
  import opened Seqs
  import opened Sorting
  import opened Text

  /**
   * The ranking comparator: more points first; on equal points the player
   * who has not won a past edition first; then more wins first.
   */
  function StandingsCompare(a: Player, b: Player): int {
    if b.totalPoints != a.totalPoints then (b.totalPoints as int) - (a.totalPoints as int)
    else if a.isPastWinner != b.isPastWinner then (if a.isPastWinner then 1 else -1)
    else (b.wins as int) - (a.wins as int)
  }

  /** `a` is ranked above `b`: the comparator is negative. */
  predicate RankedAbove(a: Player, b: Player) {
    StandingsCompare(a, b) < 0
  }

  /**
   * The comparator is consistent (so the sort is well defined), it is
   * antisymmetric, and it ties exactly the players with equal points, equal
   * past-winner flag and equal wins.
   */
  lemma RankingIsConsistent()
    ensures StrictWeakOrder(RankedAbove)
    ensures forall a, b :: StandingsCompare(a, b) == -StandingsCompare(b, a)
    ensures forall a, b :: Tied(RankedAbove, a, b) <==>
      a.totalPoints == b.totalPoints && a.isPastWinner == b.isPastWinner && a.wins == b.wins
  {
  }

  /** The table order: a stable sort of the roster with the ranking comparator. */
  function SortedPlayers(players: seq<Player>): (s: seq<Player>)
    ensures |s| == |players|
    ensures multiset(s) == multiset(players)
  {
    SortBy(RankedAbove, players)
  }

  /**
   * The table is a permutation of the roster ordered by points (highest
   * first); on equal points non-past-winners come before past winners; on
   * equal points and flag, more wins come first; players equal on all three
   * keep their roster order.
   */
  lemma SortedPlayersRanking(players: seq<Player>)
    ensures var s := SortedPlayers(players);
      && multiset(s) == multiset(players)
      && (forall i, j :: 0 <= i < j < |s| ==> s[i].totalPoints >= s[j].totalPoints)
      && (forall i, j :: 0 <= i < j < |s| && s[i].totalPoints == s[j].totalPoints ==>
            !s[i].isPastWinner || s[j].isPastWinner)
      && (forall i, j :: 0 <= i < j < |s| && s[i].totalPoints == s[j].totalPoints && s[i].isPastWinner == s[j].isPastWinner ==>
            s[i].wins >= s[j].wins)
      && (forall y :: Filter(TiedWith(RankedAbove, y), s) == Filter(TiedWith(RankedAbove, y), players))
  {
    RankingIsConsistent();
    SortBySorted(RankedAbove, players);
    var s := SortedPlayers(players);
    forall i, j | 0 <= i < j < |s| ensures !RankedAbove(s[j], s[i]) {
    }
    forall y ensures Filter(TiedWith(RankedAbove, y), s) == Filter(TiedWith(RankedAbove, y), players) {
      SortByStable(RankedAbove, players, y);
    }
  }

  /** The leader has at least as many points as anybody. */
  lemma LeaderHasMostPoints(players: seq<Player>)
    requires |players| > 0
    ensures forall p :: p in players ==> p.totalPoints <= SortedPlayers(players)[0].totalPoints
  {
    SortedPlayersRanking(players);
    var s := SortedPlayers(players);
    forall p | p in players ensures p.totalPoints <= s[0].totalPoints {
      assert p in multiset(s);
      var j :| 0 <= j < |s| && s[j] == p;
      if j > 0 {
        assert s[0].totalPoints >= s[j].totalPoints;
      }
    }
  }

  // ---------------------------------------------------------------------------
  // Exports

  /** The first line of the text export; a blank line follows it. */
  const TEXT_TITLE: string := "🏆 CLASSICA GISELLA'S CUP 🏆"

  /** The header line of the CSV export. */
  const CSV_HEADER: string := "Pos;Icon;Player;Matches;Points"

  /** Line `i` (from zero) of the text export, without its newline: `<pos>. <icon> <name> - <points> pts (<played> PG)`. */
  function TextRow(i: nat, p: Player): string {
    NatToString(i + 1) + ". " + p.icon + " " + p.name + " - " + NatToString(p.totalPoints) + " pts ("
      + NatToString(p.matchesPlayed) + " PG)"
  }

  /** The five fields of CSV line `i` (from zero): position, icon, name, matches played, points. */
  function CsvFields(i: nat, p: Player): (fields: seq<string>)
    ensures |fields| == 5
  {
    [NatToString(i + 1), p.icon, p.name, NatToString(p.matchesPlayed), NatToString(p.totalPoints)]
  }

  function TextRows(s: seq<Player>): (rows: seq<string>)
    ensures |rows| == |s|
  {
    seq(|s|, i requires 0 <= i < |s| => TextRow(i, s[i]))
  }

  function CsvRows(s: seq<Player>): (rows: seq<string>)
    ensures |rows| == |s|
  {
    seq(|s|, i requires 0 <= i < |s| => JoinFields(CsvFields(i, s[i]), ';'))
  }

  /** The whole text export: the title, a blank line, then one line per ranked player. */
  function StandingsText(players: seq<Player>): string {
    JoinLines([TEXT_TITLE, ""] + TextRows(SortedPlayers(players)))
  }

  /** The whole CSV export: the header, then one line per ranked player. */
  function StandingsCsv(players: seq<Player>): string {
    JoinLines([CSV_HEADER] + CsvRows(SortedPlayers(players)))
  }

  /** The text export's title and the blank line after it. */
  lemma TitleText()
    ensures JoinLines([TEXT_TITLE, ""]) == TEXT_TITLE + "\n" + "\n"
  {
    JoinLinesSnoc([], TEXT_TITLE);
    JoinLinesSnoc([TEXT_TITLE], "");
    assert [TEXT_TITLE] + [""] == [TEXT_TITLE, ""];
  }

  /** Builds the text export by appending one line per ranked player. */
  method ExportToText(players: seq<Player>) returns (text: string)
    ensures text == StandingsText(players)
  {
    var sortedPlayers := SortedPlayers(players);
    ghost var head := [TEXT_TITLE, ""];
    ghost var rows := TextRows(sortedPlayers);
    text := TEXT_TITLE + "\n" + "\n";
    TitleText();
    assert head + rows[..0] == head;
    for i := 0 to |sortedPlayers|
      invariant text == JoinLines(head + rows[..i])
    {
      var p := sortedPlayers[i];
      var line := NatToString(i + 1) + ". " + p.icon + " " + p.name + " - " + NatToString(p.totalPoints)
        + " pts (" + NatToString(p.matchesPlayed) + " PG)";
      assert line == rows[i];
      JoinLinesStep(head, rows, i);
      text := text + line + "\n";
    }
    assert rows[..|sortedPlayers|] == rows;
  }

  /** Builds the CSV export by appending one line per ranked player. */
  method ExportToCsv(players: seq<Player>) returns (csv: string)
    ensures csv == StandingsCsv(players)
  {
    var sortedPlayers := SortedPlayers(players);
    ghost var head := [CSV_HEADER];
    ghost var rows := CsvRows(sortedPlayers);
    csv := CSV_HEADER + "\n";
    JoinLinesSnoc([], CSV_HEADER);
    assert head + rows[..0] == head;
    for i := 0 to |sortedPlayers|
      invariant csv == JoinLines(head + rows[..i])
    {
      var p := sortedPlayers[i];
      var line := NatToString(i + 1) + ";" + p.icon + ";" + p.name + ";" + NatToString(p.matchesPlayed)
        + ";" + NatToString(p.totalPoints);
      assert line == rows[i] by {
        CsvRowSpelled(i, p);
      }
      JoinLinesStep(head, rows, i);
      csv := csv + line + "\n";
    }
    assert rows[..|sortedPlayers|] == rows;
  }

  /** A CSV line spelled out with its four semicolons. */
  lemma CsvRowSpelled(i: nat, p: Player)
    ensures JoinFields(CsvFields(i, p), ';')
         == NatToString(i + 1) + ";" + p.icon + ";" + p.name + ";" + NatToString(p.matchesPlayed) + ";" + NatToString(p.totalPoints)
  {
    var f := CsvFields(i, p);
    var a, b, c, d, e := f[0], f[1], f[2], f[3], f[4];
    assert f[4..] == [e];
    assert JoinFields(f[3..], ';') == d + ";" + e by {
      assert f[3..][1..] == f[4..];
    }
    assert JoinFields(f[2..], ';') == c + ";" + (d + ";" + e) by {
      assert f[2..][1..] == f[3..];
    }
    assert JoinFields(f[1..], ';') == b + ";" + (c + ";" + (d + ";" + e)) by {
      assert f[1..][1..] == f[2..];
    }
    assert JoinFields(f, ';') == a + ";" + (b + ";" + (c + ";" + (d + ";" + e)));
  }

  /** Names and icons that hold no line break (and, for the CSV, no semicolon). */
  predicate PlainText(players: seq<Player>, forbidden: set<char>) {
    forall i, c :: 0 <= i < |players| && c in forbidden ==> c !in players[i].icon && c !in players[i].name
  }

  /** What holds for every roster entry holds for every table entry. */
  lemma PlainTextSorted(players: seq<Player>, forbidden: set<char>)
    requires PlainText(players, forbidden)
    ensures PlainText(SortedPlayers(players), forbidden)
  {
    var s := SortedPlayers(players);
    forall i, c | 0 <= i < |s| && c in forbidden ensures c !in s[i].icon && c !in s[i].name {
      assert s[i] in multiset(players);
      var j :| 0 <= j < |players| && players[j] == s[i];
    }
  }

  /**
   * Reading the text export line by line gives the title, a blank line and
   * the table, one player per line with position, points and matches
   * printed at the fixed places of the line.
   */
  lemma StandingsTextLines(players: seq<Player>)
    requires PlainText(players, {'\n'})
    ensures var lines := Split(StandingsText(players), '\n');
      var s := SortedPlayers(players);
      && |lines| == |s| + 3
      && lines[0] == TEXT_TITLE && lines[1] == "" && lines[|s| + 2] == ""
      && (forall i :: 0 <= i < |s| ==> lines[i + 2] == TextRow(i, s[i]))
  {
    var s := SortedPlayers(players);
    var rows := [TEXT_TITLE, ""] + TextRows(s);
    PlainTextSorted(players, {'\n'});
    forall i | 0 <= i < |rows| ensures '\n' !in rows[i] {
      if i >= 2 {
        TextRowNoBreak(i - 2, s[i - 2]);
      }
    }
    SplitJoinLines(rows);
  }

  /** A text row holds a line break only if the player's icon or name does. */
  lemma TextRowNoBreak(i: nat, p: Player)
    requires '\n' !in p.icon && '\n' !in p.name
    ensures '\n' !in TextRow(i, p)
  {
    NatToStringHasNo(i + 1, '\n');
    NatToStringHasNo(p.totalPoints, '\n');
    NatToStringHasNo(p.matchesPlayed, '\n');
  }

  /**
   * The CSV export reads back: splitting it into lines and each line at the
   * semicolons gives the header and then, per ranked player, the position,
   * icon, name, matches played and points, the numbers parsing back to the
   * player's statistics.
   */
  lemma StandingsCsvReadsBack(players: seq<Player>)
    requires PlainText(players, {'\n', ';'})
    ensures var lines := Split(StandingsCsv(players), '\n');
      var s := SortedPlayers(players);
      && |lines| == |s| + 2
      && lines[0] == CSV_HEADER && lines[|s| + 1] == ""
      && (forall i :: 0 <= i < |s| ==> Split(lines[i + 1], ';') == CsvFields(i, s[i]))
      && (forall i :: 0 <= i < |s| ==>
            ParseNat(CsvFields(i, s[i])[0]) == i + 1
            && ParseNat(CsvFields(i, s[i])[3]) == s[i].matchesPlayed
            && ParseNat(CsvFields(i, s[i])[4]) == s[i].totalPoints)
  {
    var s := SortedPlayers(players);
    var rows := [CSV_HEADER] + CsvRows(s);
    PlainTextSorted(players, {'\n', ';'});
    forall i | 0 <= i < |s|
      ensures '\n' !in JoinFields(CsvFields(i, s[i]), ';')
      ensures Split(JoinFields(CsvFields(i, s[i]), ';'), ';') == CsvFields(i, s[i])
      ensures ParseNat(CsvFields(i, s[i])[0]) == i + 1
      ensures ParseNat(CsvFields(i, s[i])[3]) == s[i].matchesPlayed
      ensures ParseNat(CsvFields(i, s[i])[4]) == s[i].totalPoints
    {
      CsvRowReadsBack(i, s[i]);
    }
    forall i | 0 <= i < |rows| ensures '\n' !in rows[i] {
      if i >= 1 {
        assert rows[i] == JoinFields(CsvFields(i - 1, s[i - 1]), ';');
      }
    }
    SplitJoinLines(rows);
  }

  /** One CSV row, for a player whose icon and name hold no separator, splits back into its fields. */
  lemma CsvRowReadsBack(i: nat, p: Player)
    requires ';' !in p.icon && ';' !in p.name && '\n' !in p.icon && '\n' !in p.name
    ensures '\n' !in JoinFields(CsvFields(i, p), ';')
    ensures Split(JoinFields(CsvFields(i, p), ';'), ';') == CsvFields(i, p)
    ensures ParseNat(CsvFields(i, p)[0]) == i + 1
    ensures ParseNat(CsvFields(i, p)[3]) == p.matchesPlayed
    ensures ParseNat(CsvFields(i, p)[4]) == p.totalPoints
  {
    var f := CsvFields(i, p);
    NumbersHaveNo(i + 1, p.matchesPlayed, p.totalPoints);
    assert forall k :: 0 <= k < |f| ==> ';' !in f[k] && '\n' !in f[k];
    SplitJoinFields(f, ';');
    JoinFieldsHasNo(f, ';', '\n');
    ParseNatToString(i + 1);
    ParseNatToString(p.matchesPlayed);
    ParseNatToString(p.totalPoints);
  }

  /** No printed number holds a semicolon or a line break. */
  lemma NumbersHaveNo(a: nat, b: nat, c: nat)
    ensures forall x :: x in {';', '\n'} ==> x !in NatToString(a) && x !in NatToString(b) && x !in NatToString(c)
  {
    NatToStringHasNo(a, ';');
    NatToStringHasNo(b, ';');
    NatToStringHasNo(c, ';');
    NatToStringHasNo(a, '\n');
    NatToStringHasNo(b, '\n');
    NatToStringHasNo(c, '\n');
  }

  /** Joining fields with one separator adds no other character. */
  lemma {:induction false} JoinFieldsHasNo(fields: seq<string>, sep: char, c: char)
    requires |fields| > 0 && c != sep
    requires forall k :: 0 <= k < |fields| ==> c !in fields[k]
    ensures c !in JoinFields(fields, sep)
  {
    if |fields| > 1 {
      JoinFieldsHasNo(fields[1..], sep, c);
    }
  }
}
