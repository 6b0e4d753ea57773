/**
 * The sign-up page of Booking.tsx: the split of the registrations into the
 * twelve confirmed seats and the waiting list, the players still free to
 * sign up, the seat badge, and the share message listing the match.
 */
module Booking {
  import opened Types
  import opened Seqs
  import opened Text
  import opened Constants
  import App

  /** The first twelve registered ids, in sign-up order. */
  function ConfirmedIds(m: Match): seq<string> {
    var ids := RegisteredIds(m.registrations);
    ids[..Min(MAX_PLAYERS_PER_MATCH, |ids|)]
  }

  /** Every registered id after the first twelve, in sign-up order. */
  function WaitingListIds(m: Match): seq<string> {
    var ids := RegisteredIds(m.registrations);
    ids[Min(MAX_PLAYERS_PER_MATCH, |ids|)..]
  }

  /** The roster entries whose id is not registered, as a filter condition. */
  function Unregistered(m: Match): Player -> bool {
    (p: Player) => p.id !in RegisteredIds(m.registrations)
  }

  /** The players who can still sign up, in roster order. */
  function NonRegisteredPlayers(m: Match, players: seq<Player>): seq<Player> {
    Filter(Unregistered(m), players)
  }

  function SeatsTaken(m: Match): nat {
    |ConfirmedIds(m)|
  }

  /** The seat badge: sold out, or the number of free seats. */
  datatype Badge = SoldOut | Free(seats: nat)

  function SeatBadge(m: Match): Badge {
    if SeatsTaken(m) >= MAX_PLAYERS_PER_MATCH then SoldOut else Free(MAX_PLAYERS_PER_MATCH - SeatsTaken(m))
  }

  /**
   * The confirmed seats followed by the waiting list are exactly the
   * registrations; at most twelve seats are taken, and somebody waits only
   * when all twelve are.
   */
  lemma SeatsAndWaitingList(m: Match)
    ensures ConfirmedIds(m) + WaitingListIds(m) == RegisteredIds(m.registrations)
    ensures SeatsTaken(m) == Min(MAX_PLAYERS_PER_MATCH, |m.registrations|) && SeatsTaken(m) <= MAX_PLAYERS_PER_MATCH
    ensures |WaitingListIds(m)| > 0 ==> SeatsTaken(m) == MAX_PLAYERS_PER_MATCH
    ensures |WaitingListIds(m)| == |m.registrations| - SeatsTaken(m)
  {
    var ids := RegisteredIds(m.registrations);
    assert ids[..Min(MAX_PLAYERS_PER_MATCH, |ids|)] + ids[Min(MAX_PLAYERS_PER_MATCH, |ids|)..] == ids;
  }

  /** The players offered a sign-up are exactly the roster entries not registered, in roster order. */
  lemma NonRegisteredExactly(m: Match, players: seq<Player>)
    ensures forall p :: p in NonRegisteredPlayers(m, players) <==> p in players && !IsRegistered(m.registrations, p.id)
    ensures NoDuplicates(players) ==> NoDuplicates(NonRegisteredPlayers(m, players))
  {
    FilterMembers(Unregistered(m), players);
    var ids := RegisteredIds(m.registrations);
    forall p: Player ensures p.id in ids <==> IsRegistered(m.registrations, p.id) {
      if p.id in ids {
        var j :| 0 <= j < |ids| && ids[j] == p.id;
        assert m.registrations[j].playerId == p.id;
      }
      if IsRegistered(m.registrations, p.id) {
        var j :| 0 <= j < |m.registrations| && m.registrations[j].playerId == p.id;
        assert ids[j] == p.id;
      }
    }
    if NoDuplicates(players) {
      FilterNoDuplicates(Unregistered(m), players);
    }
  }

  /**
   * The offered players keep roster order: a single roster entry is offered
   * exactly when it is not registered, and the offer for two roster parts is
   * the offer for the first part followed by the offer for the second.
   */
  lemma NonRegisteredInRosterOrder(m: Match, p: Player, xs: seq<Player>, ys: seq<Player>)
    ensures NonRegisteredPlayers(m, [p]) == if IsRegistered(m.registrations, p.id) then [] else [p]
    ensures NonRegisteredPlayers(m, xs + ys) == NonRegisteredPlayers(m, xs) + NonRegisteredPlayers(m, ys)
  {
    NonRegisteredExactly(m, [p]);
    FilterConcat(Unregistered(m), xs, ys);
  }

  /** The badge reads sold out exactly when twelve seats are taken, and otherwise shows the free seats. */
  lemma BadgeSays(m: Match)
    ensures SeatBadge(m) == SoldOut <==> SeatsTaken(m) == MAX_PLAYERS_PER_MATCH
    ensures SeatBadge(m).Free? ==> SeatBadge(m).seats == MAX_PLAYERS_PER_MATCH - SeatsTaken(m) && SeatBadge(m).seats > 0
  {
    SeatsAndWaitingList(m);
  }

  /**
   * Cancelling a confirmed seat while people wait promotes the first of the
   * waiting list: the other confirmed players keep their order, the first
   * waiting player takes the last seat, and the rest keep waiting in order.
   */
  lemma CancelPromotesFirstWaiting(m: Match, playerId: string, i: nat)
    requires DistinctPlayers(m.registrations)
    requires i < MAX_PLAYERS_PER_MATCH < |m.registrations|
    requires m.registrations[i].playerId == playerId
    ensures var after := m.(registrations := Filter(App.NotFor(playerId), m.registrations));
      var before := RegisteredIds(m.registrations);
      && ConfirmedIds(after) == ConfirmedIds(m)[..i] + ConfirmedIds(m)[i + 1..] + [WaitingListIds(m)[0]]
      && WaitingListIds(after) == WaitingListIds(m)[1..]
  {
    var ids := RegisteredIds(m.registrations);
    App.CancelCutsPosition(m.registrations, playerId, i);
    CutAndReslice(ids, i, MAX_PLAYERS_PER_MATCH);
  }

  /** Removing position `i` before the cut at `k` moves the element at `k` to the end of the first part. */
  lemma CutAndReslice<T>(ids: seq<T>, i: nat, k: nat)
    requires i < k < |ids|
    ensures var cut := ids[..i] + ids[i + 1..];
      && cut[..k] == ids[..k][..i] + ids[..k][i + 1..] + [ids[k..][0]]
      && cut[k..] == ids[k..][1..]
  {
    var cut := ids[..i] + ids[i + 1..];
    assert |cut| == |ids| - 1;
    forall j | 0 <= j < k ensures cut[j] == (ids[..k][..i] + ids[..k][i + 1..] + [ids[k..][0]])[j] {
      if j < i {
        assert cut[j] == ids[j];
      } else {
        assert cut[j] == ids[j + 1];
      }
    }
    assert cut[k..] == ids[k + 1..];
  }

  // ---------------------------------------------------------------------------
  // The share message

  // The fixed openings of the message's lines.
  const TITLE_PREFIX: string := "⚽ *GISELLA'S CUP - PARTITA #"
  const DATE_PREFIX: string := "📅 *"
  const CONFIRMED_PREFIX: string := "✅ *CONFERMATI: "
  const WAITING_PREFIX: string := "⏳ *LISTA D'ATTESA ("
  const SEATS_PREFIX: string := "🏃 *POSTI RIMASTI: "
  const BULLET: string := "• "

  /** A template literal prints an absent player's field as the text `undefined`. */
  function IconOrUndefined(p: Option<Player>): string {
    if p.Some? then p.value.icon else "undefined"
  }

  function NameOrUndefined(p: Option<Player>): string {
    if p.Some? then p.value.name else "undefined"
  }

  function ConfirmedLine(i: nat, id: string, players: seq<Player>): string {
    var p := FindPlayer(players, id);
    NatToString(i + 1) + ". " + IconOrUndefined(p) + " " + NameOrUndefined(p)
  }

  function WaitingLine(id: string, players: seq<Player>): string {
    var p := FindPlayer(players, id);
    BULLET + IconOrUndefined(p) + " " + NameOrUndefined(p)
  }

  /** The title, the date (already rendered in capitals) and the seat count, with the blank line after the date. */
  function ShareHead(m: Match, dateUpper: string): seq<string> {
    [ TITLE_PREFIX + NatToString(m.sessionNumber) + "*",
      DATE_PREFIX + dateUpper + "*",
      "",
      CONFIRMED_PREFIX + NatToString(SeatsTaken(m)) + "/" + NatToString(MAX_PLAYERS_PER_MATCH) + "*" ]
  }

  /** One numbered line per confirmed id, counted from one. */
  function NumberedLines(ids: seq<string>, players: seq<Player>): (lines: seq<string>)
    ensures |lines| == |ids|
  {
    seq(|ids|, i requires 0 <= i < |ids| => ConfirmedLine(i, ids[i], players))
  }

  /** One bulleted line per waiting id. */
  function BulletLines(ids: seq<string>, players: seq<Player>): (lines: seq<string>)
    ensures |lines| == |ids|
  {
    seq(|ids|, i requires 0 <= i < |ids| => WaitingLine(ids[i], players))
  }

  /** The waiting-list section: a blank line, its heading with the count, one bullet per waiting player; nothing when nobody waits. */
  function WaitingSection(waiting: seq<string>, players: seq<Player>): seq<string> {
    if |waiting| > 0 then ["", WAITING_PREFIX + NatToString(|waiting|) + "):*"] + BulletLines(waiting, players) else []
  }

  /** The free-seats line (after a blank line) when seats are left, then the blank line before the link. */
  function SeatsSection(seatsTaken: nat): seq<string> {
    if seatsTaken < MAX_PLAYERS_PER_MATCH
    then ["", SEATS_PREFIX + NatToString(MAX_PLAYERS_PER_MATCH - seatsTaken) + "*", ""]
    else ["", ""]
  }

  /** Every line of the message before the final link line. */
  function ShareLines(m: Match, players: seq<Player>, dateUpper: string): seq<string> {
    ShareHead(m, dateUpper) + NumberedLines(ConfirmedIds(m), players)
      + WaitingSection(WaitingListIds(m), players) + SeatsSection(SeatsTaken(m))
  }

  /** The whole message: its lines, then the unterminated link line. */
  function ShareText(m: Match, players: seq<Player>, dateUpper: string, href: string): string {
    JoinLines(ShareLines(m, players, dateUpper)) + LinkLine(href)
  }

  /** The last line: the page address. */
  function LinkLine(href: string): string {
    "Link app: " + href
  }

  /** The `forEach` over the confirmed ids: appends one numbered line per confirmed player. */
  method AppendConfirmedLines(text0: string, ghost acc0: seq<string>, confirmedIds: seq<string>, players: seq<Player>)
    returns (text: string)
    requires text0 == JoinLines(acc0)
    ensures text == JoinLines(acc0 + NumberedLines(confirmedIds, players))
  {
    ghost var lines := NumberedLines(confirmedIds, players);
    text := text0;
    assert acc0 + lines[..0] == acc0;
    for i := 0 to |confirmedIds|
      invariant text == JoinLines(acc0 + lines[..i])
    {
      var p := FindPlayer(players, confirmedIds[i]);
      var line := NatToString(i + 1) + ". " + IconOrUndefined(p) + " " + NameOrUndefined(p);
      assert line == lines[i];
      JoinLinesStep(acc0, lines, i);
      text := text + line + "\n";
    }
    assert lines[..|confirmedIds|] == lines;
  }

  /** The waiting-list section: its heading, then the `forEach` appending one bulleted line per waiting player. */
  method AppendWaitingSection(text0: string, ghost acc0: seq<string>, waitingListIds: seq<string>, players: seq<Player>)
    returns (text: string)
    requires text0 == JoinLines(acc0)
    ensures text == JoinLines(acc0 + WaitingSection(waitingListIds, players))
  {
    text := text0;
    if |waitingListIds| > 0 {
      var heading := WAITING_PREFIX + NatToString(|waitingListIds|) + "):*";
      SectionText(acc0, heading);
      text := text + "\n" + heading + "\n";
      ghost var start := acc0 + ["", heading];
      ghost var lines := BulletLines(waitingListIds, players);
      assert start + lines[..0] == start;
      for i := 0 to |waitingListIds|
        invariant text == JoinLines(start + lines[..i])
      {
        var p := FindPlayer(players, waitingListIds[i]);
        var line := BULLET + IconOrUndefined(p) + " " + NameOrUndefined(p);
        assert line == lines[i];
        JoinLinesStep(start, lines, i);
        text := text + line + "\n";
      }
      assert start + lines[..|waitingListIds|] == acc0 + WaitingSection(waitingListIds, players);
    } else {
      assert acc0 + WaitingSection(waitingListIds, players) == acc0;
    }
  }

  /** The closing: the free-seats line when seats are left, then the link after a blank line. */
  method AppendClosing(text0: string, ghost acc0: seq<string>, seatsTaken: nat, href: string) returns (text: string)
    requires text0 == JoinLines(acc0)
    ensures text == JoinLines(acc0 + SeatsSection(seatsTaken)) + LinkLine(href)
  {
    text := text0;
    var link := LinkLine(href);
    if seatsTaken < MAX_PLAYERS_PER_MATCH {
      var seatsLine := SEATS_PREFIX + NatToString(MAX_PLAYERS_PER_MATCH - seatsTaken) + "*";
      ClosingWithSeats(acc0, seatsLine, link);
      text := text + "\n" + seatsLine;
    } else {
      ClosingFull(acc0, link);
    }
    text := text + "\n" + "\n" + link;
  }

  /** The first three appends: title, date and a blank line, seat count. */
  lemma HeadText(title: string, dateLine: string, seatsHeading: string)
    ensures JoinLines([title, dateLine, "", seatsHeading]) == title + "\n" + dateLine + "\n" + "\n" + seatsHeading + "\n"
  {
    JoinLinesSnoc([], title);
    JoinLinesSnoc([title], dateLine);
    JoinLinesSnoc([title, dateLine], "");
    JoinLinesSnoc([title, dateLine, ""], seatsHeading);
    assert [title] + [dateLine] == [title, dateLine];
    assert [title, dateLine] + [""] == [title, dateLine, ""];
    assert [title, dateLine, ""] + [seatsHeading] == [title, dateLine, "", seatsHeading];
  }

  /** Appending a section heading after a blank line. */
  lemma SectionText(acc: seq<string>, heading: string)
    ensures JoinLines(acc + ["", heading]) == JoinLines(acc) + "\n" + heading + "\n"
  {
    JoinLinesSnoc(acc, "");
    JoinLinesSnoc(acc + [""], heading);
    assert acc + [""] + [heading] == acc + ["", heading];
  }

  /** The closing appends when seats are left: the free-seats line, then the link after a blank line. */
  lemma ClosingWithSeats(acc: seq<string>, seatsLine: string, link: string)
    ensures JoinLines(acc + ["", seatsLine, ""]) + link == JoinLines(acc) + "\n" + seatsLine + "\n" + "\n" + link
  {
    JoinLinesSnoc(acc, "");
    JoinLinesSnoc(acc + [""], seatsLine);
    JoinLinesSnoc(acc + [""] + [seatsLine], "");
    assert acc + [""] + [seatsLine] + [""] == acc + ["", seatsLine, ""];
  }

  /** The closing append when the seats are full: the link after a blank line. */
  lemma ClosingFull(acc: seq<string>, link: string)
    ensures JoinLines(acc + ["", ""]) + link == JoinLines(acc) + "\n" + "\n" + link
  {
    JoinLinesSnoc(acc, "");
    JoinLinesSnoc(acc + [""], "");
    assert acc + [""] + [""] == acc + ["", ""];
  }

  /**
   * Builds the share message by appending to it section by section. The
   * date, already formatted in capitals, and the page address are given.
   */
  method ShareMessage(m: Match, players: seq<Player>, dateUpper: string, href: string) returns (text: string)
    ensures text == ShareText(m, players, dateUpper, href)
  {
    var confirmedIds := ConfirmedIds(m);
    var waitingListIds := WaitingListIds(m);
    var seatsTaken := |confirmedIds|;
    var title := TITLE_PREFIX + NatToString(m.sessionNumber) + "*";
    var dateLine := DATE_PREFIX + dateUpper + "*";
    var seatsHeading := CONFIRMED_PREFIX + NatToString(seatsTaken) + "/" + NatToString(MAX_PLAYERS_PER_MATCH) + "*";
    text := title + "\n";
    text := text + dateLine + "\n" + "\n";
    text := text + seatsHeading + "\n";
    ghost var head := [title, dateLine, "", seatsHeading];
    HeadText(title, dateLine, seatsHeading);
    assert head == ShareHead(m, dateUpper);
    text := AppendConfirmedLines(text, head, confirmedIds, players);
    ghost var pre := head + NumberedLines(confirmedIds, players);
    text := AppendWaitingSection(text, pre, waitingListIds, players);
    ghost var body := pre + WaitingSection(waitingListIds, players);
    text := AppendClosing(text, body, seatsTaken, href);
  }

  /** No line holds a line break. */
  predicate NoBreaks(lines: seq<string>) {
    forall i :: 0 <= i < |lines| ==> '\n' !in lines[i]
  }

  /** Roster names and icons free of line breaks. */
  predicate PlainRoster(players: seq<Player>) {
    forall p :: p in players ==> '\n' !in p.icon && '\n' !in p.name
  }

  lemma PlayerFieldsNoBreak(players: seq<Player>, id: string)
    requires PlainRoster(players)
    ensures '\n' !in IconOrUndefined(FindPlayer(players, id)) && '\n' !in NameOrUndefined(FindPlayer(players, id))
  {
  }

  lemma HeadNoBreaks(m: Match, dateUpper: string)
    requires '\n' !in dateUpper
    ensures NoBreaks(ShareHead(m, dateUpper))
  {
    NatToStringHasNo(m.sessionNumber, '\n');
    NatToStringHasNo(SeatsTaken(m), '\n');
    NatToStringHasNo(MAX_PLAYERS_PER_MATCH, '\n');
  }

  lemma PlayerLinesNoBreaks(confirmed: seq<string>, waiting: seq<string>, players: seq<Player>)
    requires PlainRoster(players)
    ensures NoBreaks(NumberedLines(confirmed, players)) && NoBreaks(WaitingSection(waiting, players))
  {
    var lines := NumberedLines(confirmed, players);
    forall i | 0 <= i < |lines| ensures '\n' !in lines[i] {
      NatToStringHasNo(i + 1, '\n');
      PlayerFieldsNoBreak(players, confirmed[i]);
    }
    var wl := BulletLines(waiting, players);
    forall i | 0 <= i < |wl| ensures '\n' !in wl[i] {
      PlayerFieldsNoBreak(players, waiting[i]);
    }
    NatToStringHasNo(|waiting|, '\n');
  }

  lemma SeatsNoBreaks(seatsTaken: nat)
    ensures NoBreaks(SeatsSection(seatsTaken))
  {
    if seatsTaken < MAX_PLAYERS_PER_MATCH {
      NatToStringHasNo(MAX_PLAYERS_PER_MATCH - seatsTaken, '\n');
    }
  }

  /** The message's shape when read back line by line (names, icons, date and address free of line breaks). */
  lemma ShareTextLines(m: Match, players: seq<Player>, dateUpper: string, href: string)
    requires PlainRoster(players)
    requires '\n' !in dateUpper && '\n' !in href
    ensures Split(ShareText(m, players, dateUpper, href), '\n') == ShareLines(m, players, dateUpper) + [LinkLine(href)]
  {
    var head, c, w, seats := ShareHead(m, dateUpper), NumberedLines(ConfirmedIds(m), players),
      WaitingSection(WaitingListIds(m), players), SeatsSection(SeatsTaken(m));
    HeadNoBreaks(m, dateUpper);
    PlayerLinesNoBreaks(ConfirmedIds(m), WaitingListIds(m), players);
    SeatsNoBreaks(SeatsTaken(m));
    var lines := head + c + w + seats;
    assert NoBreaks(lines) by {
      forall i | 0 <= i < |lines| ensures '\n' !in lines[i] {
        if i < |head| {
          assert lines[i] == head[i];
        } else if i < |head| + |c| {
          assert lines[i] == c[i - |head|];
        } else if i < |head| + |c| + |w| {
          assert lines[i] == w[i - |head| - |c|];
        } else {
          assert lines[i] == seats[i - |head| - |c| - |w|];
        }
      }
    }
    SplitJoinLinesThen(lines, LinkLine(href));
  }

  /** The message's lines split into its four parts: head, confirmed lines, waiting section, closing. */
  lemma ShareLinesParts(m: Match, players: seq<Player>, dateUpper: string)
    ensures var lines := ShareLines(m, players, dateUpper);
      var k := SeatsTaken(m);
      var w := WaitingListIds(m);
      && |lines| == 4 + k + |WaitingSection(w, players)| + |SeatsSection(k)|
      && lines[..4] == ShareHead(m, dateUpper)
      && lines[4..4 + k] == NumberedLines(ConfirmedIds(m), players)
      && lines[4 + k..4 + k + |WaitingSection(w, players)|] == WaitingSection(w, players)
      && lines[4 + k + |WaitingSection(w, players)|..] == SeatsSection(k)
  {
    var head, c := ShareHead(m, dateUpper), NumberedLines(ConfirmedIds(m), players);
    var ws, ss := WaitingSection(WaitingListIds(m), players), SeatsSection(SeatsTaken(m));
    var lines := head + c + ws + ss;
    assert lines[..4] == head;
    assert lines[4..4 + |c|] == c;
    assert lines[4 + |c|..4 + |c| + |ws|] == ws;
    assert lines[4 + |c| + |ws|..] == ss;
  }

  /** The confirmed players are listed right after the head, numbered in sign-up order. */
  lemma ShareListsConfirmed(m: Match, players: seq<Player>, dateUpper: string)
    ensures var lines := ShareLines(m, players, dateUpper);
      4 + SeatsTaken(m) <= |lines|
      && forall i :: 0 <= i < SeatsTaken(m) ==> lines[4 + i] == ConfirmedLine(i, ConfirmedIds(m)[i], players)
  {
    ShareLinesParts(m, players, dateUpper);
    var lines := ShareLines(m, players, dateUpper);
    var c := NumberedLines(ConfirmedIds(m), players);
    forall i | 0 <= i < SeatsTaken(m) ensures lines[4 + i] == ConfirmedLine(i, ConfirmedIds(m)[i], players) {
      assert lines[4 + i] == lines[4..4 + SeatsTaken(m)][i];
    }
  }

  /**
   * The waiting-list section appears exactly when somebody waits: then its
   * heading gives their number and one bulleted line per waiting player
   * follows in sign-up order; only a full match has a waiting list.
   */
  lemma ShareListsWaiting(m: Match, players: seq<Player>, dateUpper: string)
    ensures var lines := ShareLines(m, players, dateUpper);
      var k := SeatsTaken(m);
      var w := WaitingListIds(m);
      && |lines| == 4 + k + (if |w| > 0 then 2 + |w| else 0) + |SeatsSection(k)|
      && (|w| > 0 ==> k == MAX_PLAYERS_PER_MATCH && lines[5 + k] == WAITING_PREFIX + NatToString(|w|) + "):*")
      && (forall j :: 6 + k <= j < 6 + k + |w| ==> lines[j] == WaitingLine(w[j - 6 - k], players))
  {
    SeatsAndWaitingList(m);
    ShareLinesParts(m, players, dateUpper);
    var lines := ShareLines(m, players, dateUpper);
    var k := SeatsTaken(m);
    var w := WaitingListIds(m);
    var ws := WaitingSection(w, players);
    if |w| > 0 {
      assert lines[5 + k] == lines[4 + k..4 + k + |ws|][1];
      forall j | 6 + k <= j < 6 + k + |w| ensures lines[j] == WaitingLine(w[j - 6 - k], players) {
        assert lines[j] == lines[4 + k..4 + k + |ws|][j - 4 - k];
        assert ws[j - 4 - k] == BulletLines(w, players)[j - 6 - k];
      }
    }
  }

  /**
   * The closing: while seats are left, the second-to-last line gives twelve
   * minus the seats taken; a full match ends on two blank lines.
   */
  lemma ShareAnnouncesSeats(m: Match, players: seq<Player>, dateUpper: string)
    ensures var lines := ShareLines(m, players, dateUpper);
      var k := SeatsTaken(m);
      && |lines| >= 6
      && (k < MAX_PLAYERS_PER_MATCH ==> |WaitingListIds(m)| == 0 && lines[|lines| - 2] == SEATS_PREFIX + NatToString(MAX_PLAYERS_PER_MATCH - k) + "*")
      && (k == MAX_PLAYERS_PER_MATCH ==> lines[|lines| - 2] == "" && lines[|lines| - 1] == "")
  {
    SeatsAndWaitingList(m);
    ShareLinesParts(m, players, dateUpper);
    var lines := ShareLines(m, players, dateUpper);
    var ss := SeatsSection(SeatsTaken(m));
    var n := |lines| - |ss|;
    assert lines[|lines| - 2] == lines[n..][|ss| - 2];
    assert lines[|lines| - 1] == lines[n..][|ss| - 1];
  }

  /** Each confirmed line starts with its position, counted from one. */
  lemma ConfirmedLineNumbered(i: nat, id: string, players: seq<Player>)
    ensures var n := NatToString(i + 1);
      |n| <= |ConfirmedLine(i, id, players)| && ConfirmedLine(i, id, players)[..|n|] == n
  {
    var p := FindPlayer(players, id);
    var n := NatToString(i + 1);
    var rest := ". " + IconOrUndefined(p) + " " + NameOrUndefined(p);
    assert ConfirmedLine(i, id, players) == n + rest;
  }
}
