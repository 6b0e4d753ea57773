# Gisella's Cup manager — a Dafny model of the tournament engine

Gisella's Cup is a recurring amateur soccer tournament of twelve weekly
sessions. The app keeps two collections: the player roster with each player's
cumulative statistics, and the list of matches, one per session. It supports
the following:

- players sign up for the current match; the first twelve sign-ups are
  confirmed and the rest form a waiting list;
- the organiser picks two captains by a policy that depends on the phase of
  the tournament, builds the two teams, records the score and the MVPs, and
  settles the match;
- settlement scores every participant (2 points for a draw, 3 for a win plus 1
  for a winning captain, 1 for a defeat by at most four goals, an extra point
  for every third MVP award) and opens the next session unless the twelfth was
  just played;
- the standings rank players by points, then non-past-winners first, then
  wins, and can be exported as text or CSV;
- the booking page builds a shareable sign-up message, the history page lists
  settled matches newest first, and a player's page recomputes the points won
  in each match.

The project has one module per source file, plus three shared helper modules:

| file | models |
|---|---|
| `Types.dfy` | the record shapes `Player`, `Registration`, `Match` and the id lookup `players.find(p => p.id === id)` |
| `Constants.dfy` | the scoring and capacity constants and the twelve-player seed roster |
| `App.dfy` | the application state as the class `Tournament` (fields `players` and `matches`), the current-match query, sign-up, cancellation, settlement and roster edits |
| `MatchManager.dfy` | the confirmed players, the captain policy, the team-building form as the class `MatchSheet` and the form validity test |
| `Standings.dfy` | the ranking comparator, the sorted table and the text and CSV exports, built by loops |
| `Booking.dfy` | confirmed seats, waiting list, non-registered players, the seat badge and the share message, built by loops |
| `Dashboard.dfy` | the free-seat count and the progress-bar numerator |
| `History.dfy` | the settled-match list and the name and icon fallbacks |
| `PlayerDetail.dfy` | a player's matches and the per-match points and label |
| `Seqs.dfy`, `Sorting.dfy`, `Text.dfy` | `filter`, a stable sort by a comparator, decimal number printing and parsing, line joining and splitting |

Modelling decisions:

- **Sorting.** `Array.prototype.sort` is stable, so every sort is the stable
  insertion sort `Sorting.SortBy`. It orders by a strict weak order `less`,
  where `less(a, b)` means the comparator returns a negative number. For a
  consistent comparator any stable sort gives the same output, so the choice
  of algorithm is not observable.
- **Where state changes.** Operations that change the app's state are methods
  of `App.Tournament` or `MatchManager.MatchSheet`. The string exports are
  methods with loops that append one line per entry, each proved equal to a
  specification function on lines.
- **Settlement scoring.** The per-player scoring (`App.SettlePlayer`) is a pure
  function, as the source's `map` over the roster is.
- **JavaScript rendering quirks** are kept as they are:
  - an unknown player id in the share message is printed as `undefined`;
  - `[a?.id, b?.id].filter(Boolean)` also drops an empty id;
  - `name || '???'` and `icon || '⚽'` also replace an empty name or icon;
  - on a player's page, a match without a score compares `undefined` with
    `undefined` and so counts as a draw.
- **Integers.** Player statistics, scores and session numbers are naturals.
  Differences are computed in `int`, as the source subtracts numbers.
- **Next session.** `completeMatch` takes the session number of the *current*
  match, captured by the callback, not that of `matchId`. The model does the
  same (`App.AfterSettlement`). The statement that the settled list stays in
  order (one open match, at the end) is therefore proved for the only call
  the app makes, `matchId` equal to the current match's id.
- **Registering after the final session.** After the twelfth session the
  current match is the last, settled match. `registerForMatch` still appends
  to it, because the code does not check `isCompleted`. The model keeps this.
- **Sign-up order.** Confirmed and waiting players are decided by position in
  the sign-up list, not by timestamp comparison.

## Model

| member | source | states |
|---|---|---|
| Types.FindPlayer | History.tsx:13-14 | the result, when present, is the first roster player with the requested id (ids need not be unique); it is absent exactly when no roster player has that id |
| Types.RegisteredIds | Booking.tsx:15 | one id per sign-up, position by position |
| Types.Ids | components/MatchManager.tsx:48 | one id per player, position by position |
| Constants.InitialPlayers | constants.ts:11-24 | twelve players with ids "1" to "12" in order, every statistic zero, past winner exactly for id "2" |
| Constants.InitialPlayersDistinct | constants.ts:11-24 | the seed ids are pairwise distinct and only the second seed player is a past winner |
| Constants.SeedIdsSpelled | constants.ts:12-23 | the seed ids "1" to "12" are the decimal spellings of 1 to 12 |
| Constants.PointScale | constants.ts:2-9 | a win is worth more than a draw, a draw more than a close defeat, a close defeat more than nothing; both bonuses are 1, the MVP threshold is 3, there are 12 sessions of 12 seats |
| App.FirstOpen | App.tsx:51 | the index of an open match preceded only by settled matches; absent exactly when every match is settled |
| App.CurrentIndex | App.tsx:50-52 | the current match is the first open match, or the last match when all are settled |
| App.FindMatchIndex | App.tsx:56 | the first index holding the id; absent exactly when no match has that id |
| App.FindCurrentMatch | App.tsx:56-57 | in a well-formed match list, looking up the current match's id finds the current match, so the not-found branch is never taken |
| App.OrderlyCurrentIsLast | App.tsx:50-52 | when all matches but the last are settled and sessions are numbered 1, 2, …, the current match is the last one and its session number is the list length |
| App.OrderlyAtMostTwelve | App.tsx:131-139 | such a list never holds more than twelve matches |
| App.RegisteredIdsAppend | App.tsx:60 | appending a sign-up appends its id to the id list |
| App.RegisteredIdsFilter | App.tsx:73 | filtering out a player's sign-ups filters that id out of the id list |
| App.RegisterAppendsOne | App.tsx:59-60 | signing up a new player makes the player registered, keeps sign-ups free of duplicates, and adds exactly that id at the end |
| App.FilterKeepsDistinct | App.tsx:73 | filtering a duplicate-free sign-up list keeps it duplicate-free |
| App.CancelRemovesPlayer | App.tsx:73 | after cancelling, the player is not registered; the other sign-ups are kept; cancelling an absent player changes nothing; no duplicates appear |
| App.RegisteredIdsCut | App.tsx:73 | cutting one sign-up out of the list cuts its id out of the id list |
| App.CancelCutsPosition | App.tsx:73 | in a duplicate-free list, cancelling removes exactly the player's one position and keeps the order of the rest |
| App.SettlePlayer | App.tsx:99-129 | identity fields are never changed; a non-participant is returned unchanged, even when named MVP; a participant plays one more match, gets exactly one more win or loss unless the match is a draw, and gets one more MVP award exactly when named MVP |
| App.SettleOutcome | App.tsx:106-126 | the outcome table: a draw adds 2 points, a win 3 plus 1 and a captain win for a captain, a defeat by at most four goals 1 point and a loss, a heavier defeat only a loss; on top of that, 1 point when the new MVP count is a multiple of 3 |
| App.SettleKeepsStatsConsistent | App.tsx:99-129 | settlement preserves a bracket on the statistics: wins plus losses and MVP awards never exceed matches played, captain wins never exceed wins, and total points lie between the points counted with every defeat worth 0 and with every defeat worth 1 (3 per win, 1 per captain win, 2 per draw, 1 per three MVP awards); close defeats are not counted separately, so the points are bounded, not determined |
| App.SettleAll | App.tsx:99-129 | every roster entry is settled in place, and the roster keeps its length and order |
| App.Finalise | App.tsx:84-93 | the settled match keeps id, date, session and sign-ups; it is completed and carries the score, teams, captains and MVPs of the report |
| App.FinaliseAll | App.tsx:82-97 | only matches with the given id are finalised; all others are unchanged |
| App.NewSession | App.tsx:131-138 | the appended match is open, has the next id and the given session number, and has no sign-ups and no results |
| App.NewPlayer | App.tsx:143-155 | a new player has the given id, name and past-winner flag, all six statistics at zero, and the given icon or the ball when none is given |
| App.ReplaceById | App.tsx:159-161 | exactly the entries whose id matches are replaced; the roster keeps its length and order |
| App.ReplaceByIdLookup | App.tsx:159-161 | after an update, looking up any other id gives what it gave before |
| App.DeleteLookup | App.tsx:163-165 | after deleting, the deleted id is not found and every other id is found as before |
| App.Tournament.constructor | App.tsx:24-40 | the app starts with the seed roster and a single open match for session 1 |
| App.Tournament.Current | App.tsx:50-52 | the result is the match at `CurrentIndex`: the first open match, or the last match when all are settled |
| App.Tournament.RegisterForMatch | App.tsx:54-66 | a player already signed up changes nothing; otherwise exactly one sign-up is appended to the current match and no other match or player changes; the invariant is kept |
| App.Tournament.CancelRegistration | App.tsx:68-79 | only the current match's sign-ups change, losing exactly that player's entries; the invariant is kept |
| App.Tournament.CompleteMatch | App.tsx:81-141 | the players become the settled roster and the matches become the finalised list plus, before session 12, the next open session; the invariant is kept |
| App.Tournament.AddPlayer | App.tsx:143-157 | exactly one new zeroed player is appended; matches are unchanged |
| App.Tournament.UpdatePlayer | App.tsx:159-161 | the roster becomes the id-matched replacement; matches are unchanged |
| App.Tournament.DeletePlayer | App.tsx:163-165 | the roster loses exactly the players with that id; matches are unchanged |
| App.ReplaceSignUpsKeepsWellFormed | App.tsx:61-63 | replacing one match's sign-ups with a duplicate-free list keeps the match list well formed |
| App.FinaliseKeepsWellFormed | App.tsx:83-96 | finalising keeps ids, session numbers and sign-ups well formed, and every match's results agree with its completed flag |
| App.AppendSessionKeepsWellFormed | App.tsx:131-138 | appending the next session with id `length + 1` keeps the list well formed |
| App.FinaliseLastSettlesAll | App.tsx:83-96 | in an orderly list, finalising the current (last) match leaves every match settled |
| App.AppendNextKeepsOrderly | App.tsx:131-138 | appending the next open session to a fully settled list gives an orderly list again |
| App.AfterSettlement | App.tsx:82-139 | the match list grows by one exactly when the current session is before the twelfth, and the new last match is the next open session |
| App.AfterSettlementWellFormed | App.tsx:82-139 | settlement keeps the match list well formed |
| App.SettleCurrentKeepsOrderly | App.tsx:131-139 | settling the current match keeps the list orderly: sessions 1, 2, … in order, and at most the last match open |
| MatchManager.KnownPlayers | components/MatchManager.tsx:29-30 | the known players are roster players, at most one per sign-up |
| MatchManager.ConfirmedPlayers | components/MatchManager.tsx:26-31 | at most min(12, sign-ups) players, all from the roster |
| MatchManager.KnownPlayersIds | components/MatchManager.tsx:29-30 | their ids are the signed-up ids, in order, with unknown ids dropped |
| MatchManager.DistinctPlayersIds | components/MatchManager.tsx:27-28 | duplicate-free sign-ups give duplicate-free ids |
| MatchManager.ConfirmedPlayersOrder | components/MatchManager.tsx:26-31 | the confirmed players are the known ones among the first twelve sign-ups, in sign-up order; when all are known there are exactly min(12, sign-ups) of them; no duplicates |
| MatchManager.PastCaptains | components/MatchManager.tsx:43 | an id is a past captain exactly when some match lists it among its captains |
| MatchManager.PointOrders | components/MatchManager.tsx:36-40 | both point comparators are strict weak orders, so both sorts are well defined |
| MatchManager.FirstTwoIds | components/MatchManager.tsx:37 | at most two ids, none of them empty |
| MatchManager.Captains | components/MatchManager.tsx:33-49 | the captain list never has more than two ids |
| MatchManager.FirstTwoIdsOfTwo | components/MatchManager.tsx:37 | with two players whose ids are non-empty, both ids are kept in order |
| MatchManager.FinalCaptainsLead | components/MatchManager.tsx:35-38 | in session 12 the captains are the first two of the whole roster sorted by points, highest first: nobody has more points than the first, and at most one player ranks before the second |
| MatchManager.LateCaptainsTrail | components/MatchManager.tsx:39-42 | in sessions 10 and 11 the captains are the first two confirmed players sorted by points, lowest first: nobody confirmed has fewer points than the first, and at most one ranks before the second |
| MatchManager.EarlyCaptainsRotate | components/MatchManager.tsx:43-48 | in sessions 1 to 9, when two confirmed players have never captained, the captains are two such confirmed players; otherwise they are the first two confirmed players |
| MatchManager.EarlyCaptainsFirstEligible | components/MatchManager.tsx:44-46 | the two early captains are the first two never-captained confirmed players, in sign-up order |
| MatchManager.FirstTwoIdsFrom | components/MatchManager.tsx:37 | each picked id belongs to one of the first two entries |
| MatchManager.SortedCaptainsFrom | components/MatchManager.tsx:36-41 | the ids picked from a sorted list are ids of the list sorted |
| MatchManager.RotationCaptainsFrom | components/MatchManager.tsx:43-48 | early captains are confirmed players |
| MatchManager.CaptainsAreCandidates | components/MatchManager.tsx:33-49 | every captain is a roster player in the final session and a confirmed player otherwise |
| MatchManager.MoveMembership | components/MatchManager.tsx:62-67 | after a move the player is in a team list exactly when it is the target, and every other id keeps its membership |
| MatchManager.ToggleMembership | components/MatchManager.tsx:69-71 | toggling flips the player's membership and keeps every other id's |
| MatchManager.ToggleTwiceAbsent | components/MatchManager.tsx:70 | toggling an absent player twice restores the list |
| MatchManager.NoneLeftCovers | components/MatchManager.tsx:58-60 | when nobody is unassigned, every confirmed id is in a team |
| MatchManager.CoveredNoneLeft | components/MatchManager.tsx:58-60 | when every confirmed id is in a team, nobody is unassigned |
| MatchManager.FormValidIffAllAssigned | components/MatchManager.tsx:58-73 | for duplicate-free, disjoint teams of confirmed players, the form is valid exactly when both teams are non-empty and nobody is left unassigned |
| MatchManager.FormValidLeavesConfirmedOut | components/MatchManager.tsx:73 | the length test as written passes duplicate-free, disjoint teams [x, a] and [y, b] for confirmed players a, b, c, d, leaving c and d in neither team |
| MatchManager.FormCompleteIsExact | components/MatchManager.tsx:58-73 | the corrected test holds exactly when both teams are non-empty and together hold the confirmed ids and nothing else; it implies the length test |
| MatchManager.MatchSheet.constructor | components/MatchManager.tsx:20-24 | the sheet starts at 0–0 with no MVPs and empty teams |
| MatchManager.MatchSheet.Report | components/MatchManager.tsx:184 | the submitted report carries exactly the sheet's scores, MVPs and teams and the given captains |
| MatchManager.MatchSheet.SeedTeams | components/MatchManager.tsx:51-56 | when both teams are empty, two captains exist and somebody is confirmed, the captains start teams A and B; otherwise nothing changes |
| MatchManager.MatchSheet.MoveToTeam | components/MatchManager.tsx:62-67 | the player is removed from both teams and appended to the target; other ids keep their membership; disjointness and absence of duplicates are kept |
| MatchManager.MatchSheet.ToggleMvp | components/MatchManager.tsx:69-71 | the player's MVP membership flips and every other id's is kept; the MVP list stays duplicate-free |
| MatchManager.MatchSheet.IncrementScore | components/MatchManager.tsx:152-159 | exactly the chosen side's score rises by one |
| MatchManager.MatchSheet.DecrementScore | components/MatchManager.tsx:154-161 | the chosen side's score drops by one but never below zero; nothing else changes |
| Standings.RankingIsConsistent | components/Standings.tsx:11-15 | the comparator is a strict weak order and antisymmetric, and it ties exactly the players with equal points, equal past-winner flag and equal wins |
| Standings.SortedPlayers | components/Standings.tsx:11-15 | the table is a permutation of the roster |
| Standings.SortedPlayersRanking | components/Standings.tsx:11-15 | points never increase down the table; on equal points non-past-winners come first; on equal points and flag, wins never increase; tied players keep roster order |
| Standings.LeaderHasMostPoints | components/Standings.tsx:12 | nobody has more points than the table's first player |
| Standings.CsvFields | components/Standings.tsx:31 | a CSV line has five fields |
| Standings.TextRows | components/Standings.tsx:19-21 | one text line per ranked player |
| Standings.CsvRows | components/Standings.tsx:30-32 | one CSV line per ranked player |
| Standings.TitleText | components/Standings.tsx:18 | the text export opens with the title line and a blank line |
| Standings.ExportToText | components/Standings.tsx:17-21 | the loop builds exactly the title, a blank line, and one line per ranked player, each ending in a line break |
| Standings.ExportToCsv | components/Standings.tsx:28-32 | the loop builds exactly the header and one CSV line per ranked player, each ending in a line break |
| Standings.CsvRowSpelled | components/Standings.tsx:31 | a CSV line is position, icon, name, matches played and points, separated by semicolons |
| Standings.PlainTextSorted | components/Standings.tsx:11 | a character absent from every roster name and icon is absent from every table entry |
| Standings.StandingsTextLines | components/Standings.tsx:17-21 | read back line by line, the text export is the title, a blank line, line i for the player ranked i+1, and nothing after the last break |
| Standings.TextRowNoBreak | components/Standings.tsx:20 | a player's text line contains no line break when the name and icon contain none |
| Standings.StandingsCsvReadsBack | components/Standings.tsx:28-32 | read back, the CSV is the header and one line per ranked player whose fields parse back to the position 1, 2, …, the matches played and the points |
| Standings.CsvRowReadsBack | components/Standings.tsx:31 | one CSV line splits back into its five fields, and its numbers parse back |
| Booking.SeatsAndWaitingList | Booking.tsx:15-21 | confirmed ids followed by the waiting list are exactly the sign-ups; min(12, sign-ups) seats are taken; somebody waits only when all twelve seats are taken |
| Booking.NonRegisteredExactly | Booking.tsx:18 | the players who can still sign up are exactly the roster players not signed up, without duplicates when the roster has none |
| Booking.NonRegisteredInRosterOrder | Booking.tsx:18 | the offer keeps roster order: a single entry is offered exactly when not signed up, and the offer for a roster split in two parts is the first part's offer followed by the second's |
| Booking.BadgeSays | Booking.tsx:70-71 | the badge says sold out exactly when all seats are taken, and otherwise shows the positive number of free seats |
| Booking.CancelPromotesFirstWaiting | Booking.tsx:15-17 | when a confirmed player cancels with people waiting, that seat is freed, the first waiting player takes the last confirmed place, and the waiting list loses its head |
| Booking.CutAndReslice | Booking.tsx:16-17 | cutting an element before position k and re-slicing moves the first element after k into the prefix |
| Booking.NumberedLines | Booking.tsx:30-33 | one numbered line per confirmed id |
| Booking.BulletLines | Booking.tsx:37-40 | one bulleted line per waiting id |
| Booking.AppendConfirmedLines | Booking.tsx:30-33 | the loop appends exactly the numbered confirmed lines, each ending in a line break |
| Booking.AppendWaitingSection | Booking.tsx:35-41 | the waiting section (a blank line, the heading with the count, one bullet line per waiting player) is appended only when somebody waits |
| Booking.AppendClosing | Booking.tsx:43-47 | the free-seats line is appended only when seats are left, then a blank line and the link |
| Booking.HeadText | Booking.tsx:26-28 | the message opens with the title, the date, a blank line and the seats heading |
| Booking.SectionText | Booking.tsx:36 | a section starts with a blank line before its heading |
| Booking.ClosingWithSeats | Booking.tsx:43-47 | the closing with free seats is a blank line, the seats line, a blank line and the link |
| Booking.ClosingFull | Booking.tsx:47 | with all seats taken, the closing is two line breaks and the link |
| Booking.ShareMessage | Booking.tsx:24-47 | the built message is exactly the head, the confirmed lines, the waiting section and the closing |
| Booking.HeadNoBreaks | Booking.tsx:26-28 | the head lines contain no line breaks |
| Booking.PlayerLinesNoBreaks | Booking.tsx:30-41 | the player lines contain no line breaks when names and icons contain none |
| Booking.SeatsNoBreaks | Booking.tsx:43-45 | the closing lines contain no line breaks |
| Booking.ShareTextLines | Booking.tsx:24-47 | read back line by line, the message is exactly its lines followed by the link line |
| Booking.ShareLinesParts | Booking.tsx:26-47 | the message lines are four head lines, then one line per confirmed seat, then the waiting section, then the closing |
| Booking.ShareListsConfirmed | Booking.tsx:30-33 | line 4+i is the numbered line i+1 for the i-th confirmed player |
| Booking.ShareListsWaiting | Booking.tsx:35-41 | a waiting section appears only when all twelve seats are taken; it carries the count and one bullet line per waiting player, in order |
| Booking.ShareAnnouncesSeats | Booking.tsx:43-45 | with seats left, nobody waits and the seats line gives 12 minus the seats taken; with all seats taken, the message ends with blank lines |
| Booking.ConfirmedLineNumbered | Booking.tsx:32 | each confirmed line starts with its position number |
| Dashboard.SeatsRemainingBounds | components/Dashboard.tsx:15-16 | the free seats are at most 12, zero exactly when 12 or more players signed up, and otherwise 12 minus the sign-ups |
| Dashboard.SeatsAddUp | components/Dashboard.tsx:15-50 | the bar's numerator never exceeds 12, and free seats plus the numerator make 12 |
| Dashboard.DashboardAgreesWithBooking | components/Dashboard.tsx:15-16 | the bar shows the booking page's seats taken; free seats are zero exactly when the booking badge says sold out, and otherwise equal the badge's number |
| History.LaterSessionIsConsistent | History.tsx:11 | newest-first is a strict weak order that ties exactly the matches of the same session |
| History.CompletedMatchesExactly | History.tsx:11 | the history holds exactly the settled matches, each as often as in the match list |
| History.CompletedMatchesLatestFirst | History.tsx:11 | session numbers never increase down the history, and matches of one session keep their list order |
| History.GetPlayerName | History.tsx:13 | the player's name when the player is known and named, "???" otherwise; never empty |
| History.GetPlayerIcon | History.tsx:14 | the player's icon when the player is known and has one, the ball otherwise; never empty |
| History.Entries | History.tsx:57-72 | one entry per listed id |
| History.MvpPanelOf | History.tsx:68-75 | "not assigned" is shown exactly when the MVP list is absent or empty; otherwise one entry per MVP |
| History.CaptainEntries | History.tsx:57-62 | no captain entries without a captain list, and one entry per captain otherwise |
| History.SettledMatchPanels | History.tsx:57-75 | a settled match shows "not assigned" exactly when no MVP was named; otherwise it lists its MVPs, and it lists its captains, in report order |
| History.UnknownPlayerEntry | History.tsx:13-14 | an unknown id shows the ball and "???" |
| History.KnownPlayerEntry | History.tsx:13-14 | a known player with a name and an icon is shown with them |
| History.FirstPlayerEntry | History.tsx:13-14 | for any roster, an id is shown with the icon and name of the first roster player holding it, when both are set |
| PlayerDetail.PlayerMatchesExactly | PlayerDetail.tsx:15-17 | the page lists exactly the settled matches with the player on a team, each as often as in the list |
| PlayerDetail.PlayerMatchesLatestFirst | PlayerDetail.tsx:18 | session numbers never increase down the list |
| PlayerDetail.PointsWon | PlayerDetail.tsx:75-78 | at most 4 points per match |
| PlayerDetail.LabelAgreesWithPoints | PlayerDetail.tsx:70-95 | DRAW exactly when 2 points; WIN exactly when 3 or more, and 4 exactly for a captain; LOSS exactly when at most 1, and 1 exactly for a defeat by at most four goals |
| PlayerDetail.MissingScoreIsDraw | PlayerDetail.tsx:68-71 | a match without a score shows a draw worth 2 points with difference 0 |
| PlayerDetail.PointsWonMatchesSettlement | PlayerDetail.tsx:66-78 | for a settled match, the settlement added exactly the points shown plus the MVP bonus; WIN exactly when it added a win, LOSS exactly when it added a loss |
| PlayerDetail.PlayerPage | PlayerDetail.tsx:14-20 | nothing is rendered exactly when no roster player has the id; otherwise the page shows that player |
| Sorting.SortBySorted | components/Standings.tsx:11 | the stable sort's output is sorted by the comparator |
| Sorting.SortByStable | components/Standings.tsx:11 | the sort keeps the relative order of tied elements |
| Sorting.SortByLeaders | components/MatchManager.tsx:36-41 | nothing ranks before the first sorted element, and at most one element ranks before the second |
| Text.ParseNatToString | components/Standings.tsx:31 | a printed number parses back to itself |
| Text.NatToStringInjective | App.tsx:133 | different numbers print differently, so session ids `length + 1` never collide |
| Text.SplitJoinLines | components/Standings.tsx:17-21 | lines without breaks, each terminated by a break, split back into those lines and an empty tail |
| Text.SplitJoinFields | components/Standings.tsx:31 | fields without the separator, joined by it, split back into those fields |

## Left out

- Persistence is not modelled. The app loads and saves both collections in the browser's `localStorage` as JSON. The model starts from the seed roster and one open session-1 match, which is what the app does when nothing is stored. Stored data that breaks the class invariant (for instance a match list with a missing current id) is not modelled.
- The clock is not modelled. Sign-up timestamps (`Date.now()`), match dates (`new Date(...).toISOString()`), the capitalised Italian date on the share message and the new player's id (`Date.now().toString()`) are parameters. Nothing makes the new player's id unique, and the model does not assume it is.
- React rendering, hooks, tabs and navigation are not modelled.
- App.Tournament.CompleteMatch: the source's three state updates, which React applies in order, are one atomic transition.
- App.Tournament.RegisterForMatch: the `matchIndex === -1` branch is not a separate path. `App.FindCurrentMatch` proves it cannot be taken in any state the app reaches; the same holds for App.Tournament.CancelRegistration.
- Browser side effects are not modelled: `window.open`, `encodeURIComponent`, the clipboard, `alert` and the CSV download. Only the strings they receive are modelled, and `window.location.href` is a parameter.
- Percentages are not modelled. The booking progress bar (`progressPercent`) and the dashboard bar width are floating-point. Only the dashboard's numerator, `min(seatsTaken, 12)`, is modelled.
- The admin page and the rules page are not part of this model. They hold form state and static text.
- Booking.ShareTextLines: proved only for names, icons, date and address without line breaks. A line break inside a name splits that line when the message is read back; the message itself is still built exactly.
- Standings.StandingsTextLines: the same holds, for names and icons without line breaks.
- Standings.StandingsCsvReadsBack: the same holds, for names and icons without line breaks or semicolons.
- MatchManager.FormValidIffAllAssigned: the "valid iff all assigned" reading holds only when the teams hold distinct confirmed players and are disjoint. MatchManager.MatchSheet.MoveToTeam keeps the teams distinct and disjoint, but the page does not keep them confirmed: in session 12 the captains are drawn from the whole roster (components/MatchManager.tsx:35-38) and the seeding effect (components/MatchManager.tsx:51-55) puts them in the teams even when they are not confirmed. `isFormValid` only compares lengths and is modelled as written (`FormValid`); see Findings.
- PlayerDetail.PointsWon: the contract states only the bound. The full table is in PlayerDetail.LabelAgreesWithPoints and PlayerDetail.PointsWonMatchesSettlement.
- App.Tournament.Valid: the class invariant is ghost. It states that the match list is non-empty, match i has id i+1 and a session between 1 and 12, and no match has the same player signed up twice, and results are present exactly on settled matches.

## Findings

| source | as written | input that shows it | evidently intended | confidence | as-written member | corrected member |
|---|---|---|---|---|---|---|
| components/MatchManager.tsx:73 | `isFormValid` requires only non-empty teams whose lengths add up to the number of confirmed players | confirmed a, b, c, d; teams [x, a] and [y, b], where x and y are not confirmed (as session-12 captains seeded at components/MatchManager.tsx:51-55 may be); the form is valid while c and d play for neither team, and x and y are then settled as participants | the form is complete only when every confirmed player is in a team and every team member is confirmed (`FormComplete`) | medium, not executed | MatchManager.FormValidLeavesConfirmedOut | MatchManager.FormCompleteIsExact |
