# Tournament progression arithmetic, modelled in Dafny

This project models the part of the Clash Royale tournament manager that decides who plays whom and how results count:

- the twelve-player round-robin league and its standings ledger (`lib/tournament-utils.ts`);
- the quarter-final draw taken from the top eight of the table (`lib/tournament-utils.ts`);
- the knockout-bracket view, which ranks players, predicts the quarter-finals during the league, orders the stored ones for display and marks winners (`components/knockout-bracket.tsx`);
- the admin creation form, which edits the roster and rule lists, checks the form before it is submitted and builds the rows it inserts (`app/admin/create/page.tsx`).

The database is replaced by an in-memory copy of one tournament's tables, the `TournamentStore.Store` class. The functions of `lib/tournament-utils.ts` that write tables directly (`generateLeagueFixtures`, `updateStandingsSimple`, `generatePlayoffBracket`) become its methods:

- a query becomes a read of a field;
- an insert appends to a sequence;
- an `.update().eq('id', …)` replaces the row at that index.

A row's id is its position in its table.

`updateStandings` writes the standings only through the `update_player_standing` stored procedure, whose body is not part of this model. It becomes the function `League.UpdateStandings`, which returns the two procedure calls it makes and the new match table.

Modules, in dependency order:

| file | module | models |
|---|---|---|
| wrappers.dfy | `Wrappers` | `Option` and `Result` |
| sorting.dfy | `Sorting` | a stable sort by an integer-pair key, used for the database's `order by` and for `Array.prototype.sort` |
| records.dfy | `Records` | the rows of the players, league_matches, league_standings and playoff_matches tables |
| fixtures.dfy | `Fixtures` | `generateRoundRobinFixtures` |
| league.dfy | `League` | match numbering, initial standings, the result rule of `updateStandingsSimple` and `updateStandings` |
| playoffs.dfy | `Playoffs` | ranking and the quarter-final literal of `generatePlayoffBracket` |
| store.dfy | `TournamentStore` | the three database-writing functions as methods of `Store` |
| bracket.dfy | `Bracket` | rankMap, probable, predictedQuarters, the round lists, sortQuarterRowsForBracket, MatchBox winner flags |
| text.dfy | `JsText` | `String.prototype.trim` as used for blank checks |
| create_form.dfy | `CreateForm` | the creation form |

## Model

| member | source | states |
|---|---|---|
| Fixtures.GenerateRoundRobinFixtures | lib/tournament-utils.ts:9-20 | the nested loops return exactly the fixture list RoundRobin(players), of length n(n-1)/2 |
| Fixtures.IndexPairsLength | lib/tournament-utils.ts:13-17 | after the first i outer iterations, twice the number of pairs is i(2n-i-1) |
| Fixtures.IndexPairsShape | lib/tournament-utils.ts:13-17 | every generated position pair (i, j) has 0 <= i < j < n |
| Fixtures.IndexPairsIncreasing | lib/tournament-utils.ts:13-17 | the pairs come out in strictly increasing lexicographic order, so none repeats |
| Fixtures.IndexPairsComplete | lib/tournament-utils.ts:13-17 | every pair of positions a < b below n appears among the pairs |
| Fixtures.RowAppended | lib/tournament-utils.ts:13-17 | after the inner loop the fixtures are the players at every pair visited before the next row |
| Fixtures.RoundRobinPositions | lib/tournament-utils.ts:9-20 | fixture k pairs the players at the k-th position pair; count, order and completeness of the schedule |
| Fixtures.RoundRobinEachPairOnce | lib/tournament-utils.ts:9-20 | with distinct players, nobody meets themself, every two players meet, and no pair meets twice in either orientation |
| League.LeagueMatchRows | lib/tournament-utils.ts:39-45 | one pending, unscored match row per fixture, in fixture order, with the fixture's players |
| League.NumberRange | lib/tournament-utils.ts:41 | membership in 1..n |
| League.LeagueMatchNumbers | lib/tournament-utils.ts:39-45 | match numbers are exactly 1..|fixtures|, strictly increasing, all rows pending with no score |
| League.InitialStandings | lib/tournament-utils.ts:57-67 | one all-zero, consistent record per player, in player order |
| League.Credit | lib/tournament-utils.ts:159-166 | one record after a result: one more game; one more win for a won game, one more loss otherwise; 3 points for a win only; crowns for grow by the score made and crowns against by the score conceded; difference recomputed; consistency kept |
| League.ApplyResult | lib/tournament-utils.ts:140-181 | exactly one of the two players wins; player 1 wins iff score1 > score2, so a tie goes to player 2; 3 points in total; crowns for and against balance |
| League.CreditCommutes | lib/tournament-utils.ts:159-166 | two results credited to one record in either order give the same record |
| League.RowsFor | lib/tournament-utils.ts:143-149 | the number of rows the `.in` query returns, at most one per row of the table |
| League.RowsForExtremes | lib/tournament-utils.ts:143-149 | the query returns no row iff neither player has one, and the whole table iff every row is one of the two players' |
| League.FindRow | lib/tournament-utils.ts:153-154 | `find` returns the first row with the player id, or nothing when there is none |
| League.ApplySimple | lib/tournament-utils.ts:143-182 | fails with StandingsNotFound iff the query does not find exactly two rows or a player has none; otherwise only the two players' rows change, ids and length stay, consistency is kept |
| League.Updated | lib/tournament-utils.ts:163-178 | each row is what it receives from the two writes of one result, the second write landing last |
| League.RowUpdateCommutes | lib/tournament-utils.ts:156-182 | the writes of two results reach any one row in either order with the same effect |
| League.ApplySimpleRows | lib/tournament-utils.ts:153-182 | a successful update is the two writes landing on the rows the lookups found |
| League.UpdatedCommutes | lib/tournament-utils.ts:163-178 | the writes of two results can be applied in either order |
| League.ApplySimpleCommutes | lib/tournament-utils.ts:140-182 | two results that each succeed on a table also succeed one after the other, and applied in either order give the same table |
| League.SameIdsSameLookups | lib/tournament-utils.ts:143-154 | two tables with the same ids give the same row count and the same row lookups |
| League.CompleteMatch | lib/tournament-utils.ts:185-192 | the match row with the id becomes completed with both scores; other rows and the row's players and number stay; a missing id changes nothing |
| League.ResultCalls | lib/tournament-utils.ts:98-117 | the winner's call then the loser's: the winner is player 1 iff score1 > score2; crowns for and against are max and min, swapped for the loser, matching the simple variant |
| League.UpdateStandings | lib/tournament-utils.ts:81-128 | fails with MatchNotFound iff no match row has the id; otherwise the win call goes to player 1 iff its score is strictly higher and the loss call to the other player, the winner credited max and min of the scores and the loser min and max; the match row gets both scores and is completed, every other row stays |
| Playoffs.Ranked | lib/tournament-utils.ts:198-204 | a permutation of the standings, ordered by points, then crown difference, both descending |
| Playoffs.TopIds | lib/tournament-utils.ts:216-241 | the player ids of the first k ranked records, in order |
| Playoffs.QuarterFinals | lib/tournament-utils.ts:211-244 | four pending quarter-finals numbered 1-4; match k+1 pairs qualifier k+1 with qualifier 8-k |
| Playoffs.Seats | lib/tournament-utils.ts:211-244 | twice as many seats as matches: player 1 then player 2 of each match |
| Playoffs.QuarterFinalsSeatEveryQualifier | lib/tournament-utils.ts:210-244 | the eight seats, match by match, are qualifiers 1, 8, 2, 7, 3, 6, 4, 5, so each qualifier is seated once |
| Playoffs.SeatedHaveRecords | lib/tournament-utils.ts:196-244 | every seated player is the player of some standings record |
| Playoffs.PlayoffBracketOfTop | lib/tournament-utils.ts:196-244 | with eight or more records the draw succeeds with the quarter-finals of the first eight ranked players |
| Playoffs.PlayoffBracket | lib/tournament-utils.ts:196-244 | fails with NotEnoughQualified iff fewer than eight records; otherwise four pending quarter-finals, match k+1 seating ranked player k+1 against ranked player 8-k of the ranked standings; all seated players have records and the qualifiers outrank everyone else |
| TournamentStore.Store.constructor | app/admin/create/page.tsx:131-157 | a tournament in setup with its players and empty tables |
| TournamentStore.Store.GenerateLeagueFixtures | lib/tournament-utils.ts:23-78 | fails iff not exactly 12 players; otherwise appends the 66 match rows of the round robin and the initial standings, leaving the rest unchanged |
| TournamentStore.Store.UpdateStandingsSimple | lib/tournament-utils.ts:131-193 | the standings become ApplySimple's table and the match is completed; on failure nothing changes; consistency of the ledger is kept |
| TournamentStore.Store.GeneratePlayoffBracket | lib/tournament-utils.ts:196-262 | result is PlayoffBracket of the standings; on success the quarter-finals are appended and the tournament moves to playoffs, phase quarter |
| Sorting.Insert | lib/tournament-utils.ts:202-203 | one element longer, starting with the new element or the old head |
| Sorting.InsertPermutes | lib/tournament-utils.ts:202-203 | insertion adds exactly the new element |
| Sorting.InsertSorted | lib/tournament-utils.ts:202-203 | inserting into a sorted list keeps it sorted |
| Sorting.StrictlySorted | components/knockout-bracket.tsx:115-120 | keys rising strictly between neighbours rise strictly throughout, so the list is sorted with distinct keys |
| Sorting.SortBy | lib/tournament-utils.ts:202-203 | a permutation of the input, sorted by the key |
| Sorting.KeyRun | lib/tournament-utils.ts:202-203 | the elements with a given key, all of them from the list |
| Sorting.KeyRunAppend | lib/tournament-utils.ts:202-203 | the run of a concatenation is the runs of its parts |
| Sorting.KeyRunNone | lib/tournament-utils.ts:202-203 | a list with no element of the key has an empty run |
| Sorting.InsertStable | lib/tournament-utils.ts:202-203 | inserting into a sorted list places the new element after every element with its key |
| Sorting.SortByStable | lib/tournament-utils.ts:202-203 | the sort is stable: for every key, the elements with that key keep their relative order |
| Sorting.SortedPermutationUnique | components/knockout-bracket.tsx:116-121 | two sorted permutations of a list with distinct keys are equal, so the sort's result does not depend on how it is computed |
| Bracket.AtMostOnce | components/knockout-bracket.tsx:90 | a table with distinct player ids holds each record at most once |
| Bracket.SameIdSameRecord | components/knockout-bracket.tsx:90 | in such a table two records with one id are the same record |
| Bracket.PermutationKeepsIdsDistinct | lib/tournament-utils.ts:198-204 | reordering a table, as the ranking does, keeps its player ids distinct |
| Bracket.LastIndexOf | components/knockout-bracket.tsx:90 | the index of the last record of a player, or -1 when it has none |
| Bracket.RankMap | components/knockout-bracket.tsx:90 | keys are the standings' player ids; each maps to the 1-based position of its last record |
| Bracket.RankMapDistinct | components/knockout-bracket.tsx:90 | with one record per player, the player at index i has rank i+1 |
| Bracket.Probable | components/knockout-bracket.tsx:93-97 | the first min(8, n) records with ranks 1, 2, … |
| Bracket.ProbableRanksAgree | components/knockout-bracket.tsx:90-97 | the rank a probable slot shows is the one rankMap gives, when each player has one record |
| Bracket.PredictedQuarters | components/knockout-bracket.tsx:124-136 | nothing outside the league; during the league, the pairings PredictedUpTo(probable, 4) |
| Bracket.PredictedRanks | components/knockout-bracket.tsx:125-136 | every predicted pairing is rank k against rank 9-k, the better rank first |
| Bracket.PredictedFull | components/knockout-bracket.tsx:125-134 | with all eight slots filled the prediction is slots 1v8, 4v5, 2v7, 3v6, in that order |
| Bracket.PredictedFromStandings | components/knockout-bracket.tsx:125-136 | with 8 or more records the prediction is 1v8, 4v5, 2v7, 3v6 |
| Bracket.OfRound | components/knockout-bracket.tsx:100-102 | exactly the matches of one round, each as often as stored |
| Bracket.RoundMatches | components/knockout-bracket.tsx:100-102 | one round's matches, all of them, by ascending match number |
| Bracket.RoundMatchesStable | components/knockout-bracket.tsx:100-102 | matches of the round with the same match number keep their stored order |
| Bracket.IndexOf | components/knockout-bracket.tsx:112 | the first index of x, or -1 when absent |
| Bracket.SeedIndex | components/knockout-bracket.tsx:108-114 | the position of the row's lower rank in [1, 4, 2, 3], or MAX_SAFE_INTEGER when a rank is missing or not listed |
| Bracket.SortQuarterRowsForBracket | components/knockout-bracket.tsx:104-122 | a permutation of the rows, ordered by seed index, then match number |
| Bracket.BracketOrderIsPermutation | components/knockout-bracket.tsx:104-122 | the drawn order holds the same four matches |
| Bracket.RankMapRanksTop | components/knockout-bracket.tsx:90 | rankMap over a table with one record per player ranks its first eight 1 to 8 |
| Bracket.QuarterFinalRanks | components/knockout-bracket.tsx:140-142 | the stored match k+1 seats rank k+1 against rank 8-k |
| Bracket.SeedIndexOfRank | components/knockout-bracket.tsx:108-114 | a lower seed of 1, 2, 3, 4 sorts to place 0, 2, 3, 1 |
| Bracket.DrawnKeys | components/knockout-bracket.tsx:116-121 | the sort keys of the four stored quarter-finals, in drawn order |
| Bracket.DrawnOrderStrictlySorted | components/knockout-bracket.tsx:104-120 | the drawn order 1v8, 4v5, 2v7, 3v6 is sorted by seed index with no key shared |
| Bracket.QuarterFinalsDrawnInBracketOrder | components/knockout-bracket.tsx:104-122 | the stored 1v8, 2v7, 3v6, 4v5 are drawn as matches 1, 4, 2, 3 |
| Bracket.BracketOrderSeeds | components/knockout-bracket.tsx:105-106 | in drawn order the lower seeds are 1, 4, 2, 3 and each meets 9 minus itself |
| Bracket.PredictionMatchesBracket | components/knockout-bracket.tsx:125-136 | the pairing predicted during the league is the one later drawn from the generated quarter-finals |
| Bracket.DrawnIsPredicted | components/knockout-bracket.tsx:90-142 | for a table with distinct players, the view's drawn order of the quarter-finals of its first eight is its prediction, seat by seat |
| Bracket.ViewDrawsPrediction | components/knockout-bracket.tsx:90-142 | given the ranked table of distinct players, the draw succeeds, and the view draws the stored bracket exactly as it predicted it during the league |
| Bracket.WinnerFlags | components/knockout-bracket.tsx:63-65 | a player is marked only with both scores present and strictly higher; never both; a tie marks neither; different scores mark exactly one |
| JsText.TrimStart | app/admin/create/page.tsx:91 | a suffix of the string whose dropped characters are all white space and which starts with non-space |
| JsText.TrimEnd | app/admin/create/page.tsx:91 | a prefix of the string whose dropped characters are all white space and which ends with non-space |
| JsText.Trim | app/admin/create/page.tsx:91-152 | the trimmed string is a contiguous part of the string with only white space around it, and neither starts nor ends with white space |
| JsText.TrimEmptyIffBlank | app/admin/create/page.tsx:97 | trimming leaves nothing iff every character is white space, so IsBlank is what `!s.trim()` tests |
| CreateForm.InitialForm | app/admin/create/page.tsx:19-31 | the form opens solo with no name or description, one blank rule, one blank player, one blank team of 5 members, team size 5, 12 players and 8 teams wanted; the counts lie inside their input bounds and the team has the team size |
| CreateForm.Clamp | app/admin/create/page.tsx:366 | the result lies in [lo, hi], equals v when v is there, and is the nearer bound otherwise |
| CreateForm.Resize | app/admin/create/page.tsx:368-376 | length n; the first min(old, n) entries kept; the rest blank |
| CreateForm.ResizeUndo | app/admin/create/page.tsx:368-376 | growing a list and shrinking it back restores it |
| CreateForm.OnPlayerCountChange | app/admin/create/page.tsx:365-377 | the count is clamped into [4, 32] and the player list resized to it, keeping its prefix |
| CreateForm.OnTeamCountChange | app/admin/create/page.tsx:324-333 | the team count is clamped into [4, 32]; teams are kept or cut, new ones have the current team size, so every team keeps the team size |
| CreateForm.SetTeamSize | app/admin/create/page.tsx:347 | every team keeps its name and tag, has the new number of members, and keeps each member that existed |
| CreateForm.SetTeamSizeIsResize | app/admin/create/page.tsx:347 | the team-size change resizes each member list as the count input resizes a roster |
| CreateForm.OnTeamSizeChange | app/admin/create/page.tsx:344-348 | the size is clamped into [1, 10]; the teams are those of SetTeamSize at that size, so each gets that many members, keeps its name, tag and existing members |
| CreateForm.AddBounded | app/admin/create/page.tsx:34-38 | one blank entry is appended iff the list is below the desired count; the list never grows past it |
| CreateForm.AddPlayer | app/admin/create/page.tsx:34-38 | a blank player is appended iff the roster is below the desired count; otherwise the roster is unchanged |
| CreateForm.AddTeam | app/admin/create/page.tsx:64-68 | a blank team of the current size is appended iff the list is below the desired count, and every team keeps the team size |
| CreateForm.AddRule | app/admin/create/page.tsx:40-42 | a blank rule is always appended |
| CreateForm.RemoveAt | app/admin/create/page.tsx:44-46 | one entry fewer when the index is in range, none otherwise |
| CreateForm.RemoveAtDropsOne | app/admin/create/page.tsx:54-56 | removal drops exactly the entry at the index, keeping the others in order; any other index removes nothing |
| CreateForm.RemoveKeepsTeamsSized | app/admin/create/page.tsx:70-72 | removing a team leaves every other team at the team size |
| CreateForm.UpdateAt | app/admin/create/page.tsx:48-52 | the copy differs from the list at the index only, where it holds the new value |
| CreateForm.UpdateRule | app/admin/create/page.tsx:48-52 | only the rule at the index changes |
| CreateForm.UpdatePlayer | app/admin/create/page.tsx:58-62 | only the chosen field of the player at the index changes |
| CreateForm.UpdateTeamField | app/admin/create/page.tsx:74-78 | only the chosen field of the team at the index changes; its roster is untouched |
| CreateForm.UpdateMember | app/admin/create/page.tsx:80-88 | only the chosen field of one member of one team changes; every team keeps the team size |
| CreateForm.Filter | app/admin/create/page.tsx:97 | the kept entries, all accepted and all from the list |
| CreateForm.FilterAppend | app/admin/create/page.tsx:97 | filtering keeps order: a concatenation filters part by part |
| CreateForm.FilterCounts | app/admin/create/page.tsx:135 | an accepted entry is kept as often as it occurs; others are dropped |
| CreateForm.FilterKeepsAll | app/admin/create/page.tsx:118-119 | nothing is dropped iff every entry is accepted |
| CreateForm.FilterAllKept | app/admin/create/page.tsx:118-119 | when every entry is accepted the filter returns the list unchanged |
| CreateForm.FilterDropsRejected | app/admin/create/page.tsx:118-119 | one rejected entry makes the filtered list shorter than the list |
| CreateForm.FilterNoneKept | app/admin/create/page.tsx:97 | a list with no accepted entry filters to nothing |
| CreateForm.PaddingAddsNoPlayers | app/admin/create/page.tsx:371 | padding with blank players does not change the named players |
| CreateForm.ValidateSubmission | app/admin/create/page.tsx:90-124 | the checks, with the team loop and its early returns, report exactly SubmissionProblem(form) |
| CreateForm.TeamProblemNoneIffReady | app/admin/create/page.tsx:109-122 | a team passes its three checks iff it is named, has teamSize members and all are named |
| CreateForm.FirstTeamProblemNoneWhenEach | app/admin/create/page.tsx:108-123 | when each team passes its checks no problem is reported |
| CreateForm.FirstTeamProblemNoneAt | app/admin/create/page.tsx:108-123 | when no problem is reported, each team passed its checks |
| CreateForm.FirstTeamProblemNoneIffEach | app/admin/create/page.tsx:108-123 | no problem is reported iff every team passes its own checks |
| CreateForm.FirstTeamProblemNoneIff | app/admin/create/page.tsx:108-123 | no team reports a problem iff every team is ready |
| CreateForm.FirstTeamProblemIsFirst | app/admin/create/page.tsx:108-123 | the problem reported is that of the first team that is not ready, numbered from 1 |
| CreateForm.SoloSubmissionAccepted | app/admin/create/page.tsx:91-101 | a solo form passes iff it is named and its count of named players equals the desired count; with the list at that count, iff every player is named |
| CreateForm.TeamSubmissionAccepted | app/admin/create/page.tsx:91-123 | a team form passes iff it is named, has the desired number of teams and every team is ready |
| CreateForm.OrNull | app/admin/create/page.tsx:156 | the empty string becomes null, any other string stays |
| CreateForm.TournamentInsert | app/admin/create/page.tsx:130-142 | a setup tournament with no phase, the form's name, its description or null when empty, its competition type, and rules that are all non-blank rules of the form; team size 1 and the player count for solo forms |
| CreateForm.SavedRulesExact | app/admin/create/page.tsx:135 | exactly the non-blank rules are saved, each as often as entered |
| CreateForm.SoloInserts | app/admin/create/page.tsx:152-158 | one row per named player, in order, seeded 1, 2, …, k |
| CreateForm.SoloInsertsNamed | app/admin/create/page.tsx:152-158 | every inserted player is named, and every named entry is inserted as often as entered |
| CreateForm.AcceptedSoloSeeds | app/admin/create/page.tsx:96-158 | an accepted solo form inserts exactly the desired number of players, with distinct seeds |
| CreateForm.TeamInserts | app/admin/create/page.tsx:163-168 | one row per team, in order, seeded from 1 |
| CreateForm.TeamMemberRows | app/admin/create/page.tsx:179-187 | one row per member of the team, in order, with the team's id and no seed |
| CreateForm.TeamMemberInserts | app/admin/create/page.tsx:176-188 | the nested forEach builds exactly AllMemberRows over all teams |
| CreateForm.MemberRowsLength | app/admin/create/page.tsx:176-188 | with every team at teamSize members the first n teams give n times teamSize rows |
| CreateForm.MemberRowAt | app/admin/create/page.tsx:176-188 | with every team at teamSize members, row k*teamSize+j is member j of team k, with that team's returned id and no seed |

## Left out

- Supabase I/O: queries, inserts, updates and RPC calls are reads and writes of in-memory fields. Database errors are not modelled (`playersError`, `insertError` and the like), so each insert in the model succeeds, and a failure partway leaves no partial rows behind.
- The body of the `update_player_standing` stored procedure is not part of this model. `League.UpdateStandings` returns the two calls' arguments instead of a standings table.
- Playoff progression after the quarter-finals (semi-finals, the final, completion) is not implemented in the modelled files, so it is not modelled. The view's semi-final and final lists are modelled only as round filters.
- Concurrency, double submission and partial-failure recovery: the model is sequential.
- Authentication (`components/admin-auth.tsx`), React state, toasts, navigation, and the layout and SVG drawing of the bracket.
- Display names (`player_name`, `players?.player_name`): a `Bracket.PlayerSlot` carries only id and rank.
- `parseInt` of a non-numeric count input (NaN): an input is an integer.
- UpdateAt: the source's index always comes from a rendered row, so the model requires an index in range. JavaScript would create holes for an index past the end; that is not modelled.
- UpdatePlayer: the source assigns into the player object shared with the previous state (`updated[index][field] = value` on a shallow copy). The model builds a new value, so the aliasing is not captured. The same holds for UpdateTeamField.
- Playoffs.Ranked: the database orders only by points and crown difference. Records equal on both are kept in their stored order here; the database may return them in any order.
- League.ApplySimple: when the query returns two rows but one of the players has none (the other player has two), `find` yields undefined and reading its fields throws a TypeError; when only player 2 is missing, player 1's row has already been written. The model reports StandingsNotFound for both cases and writes nothing.
- TournamentStore.Store.UpdateStandingsSimple: the code does not check that the match is still pending before crediting a result, and the model follows the code. The match update is a no-op when no row has the id.
- SoloInserts: solo rows carry no team id column; the model writes `teamId == None`.
- TeamMemberInserts: the ids of the inserted teams are a parameter, and a missing one is None, as `insertedTeams?.[idx]?.id` is undefined.
- JsText.IsJsSpace: the white space set is the one of the current ECMAScript standard (Unicode space separators, tab, vertical tab, form feed, byte order mark, line terminators). A future Unicode version may add space separators.
- The view's badge counts (`teams.filter(t => t.name.trim()).length`) are presentation only and are not modelled.
