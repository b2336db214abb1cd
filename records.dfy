/**
 * The rows of the tournament schema (types/database.ts) that the progression
 * logic reads and writes.  All rows belong to one tournament; the tournament id
 * column is therefore left out.  A row's database id is modelled by its
 * position in its table.
 */
module Records {
  import opened Wrappers

  type PlayerId = string

  datatype TournamentStatus = Setup | League | Playoffs | Completed

  datatype Round = Quarter | Semi | Final

  /** The tournament's current_phase column, when not null. */
  datatype Phase = LeaguePhase | RoundPhase(round: Round)

  /** A match row's status column: 'pending' or 'completed'. */
  datatype MatchStatus = Pending | Done

  /** A row of league_matches; the scores are null until a result is entered. */
  datatype LeagueMatch = LeagueMatch(
    matchNumber: int,
    player1: PlayerId,
    player2: PlayerId,
    score1: Option<int>,
    score2: Option<int>,
    status: MatchStatus)

  /** A row of league_standings. */
  datatype Standing = Standing(
    playerId: PlayerId,
    wins: int,
    losses: int,
    points: int,
    gamesPlayed: int,
    crownsFor: int,
    crownsAgainst: int,
    crownDifference: int)

  /** A row of playoff_matches. */
  datatype PlayoffMatch = PlayoffMatch(
    round: Round,
    matchNumber: int,
    player1: PlayerId,
    player2: PlayerId,
    winner: Option<PlayerId>,
    score1: Option<int>,
    score2: Option<int>,
    status: MatchStatus)

  /** The errors the engine raises, one per `throw` in the source. */
  datatype EngineError =
    | IncorrectPlayerCount   // "Failed to fetch players or incorrect player count"
    | MatchNotFound          // "Match not found"
    | StandingsNotFound      // "Standings not found"
    | NotEnoughQualified     // "Not enough qualified players (need 8)"

  /** Math.max and Math.min on two integers. */
  function Max(a: int, b: int): int { if a >= b then a else b }
  function Min(a: int, b: int): int { if a <= b then a else b }

  /** The bookkeeping rules every standings record obeys. */
  predicate Consistent(s: Standing) {
    && s.points == 3 * s.wins
    && s.wins + s.losses == s.gamesPlayed
    && s.crownDifference == s.crownsFor - s.crownsAgainst
  }

  predicate AllConsistent(ledger: seq<Standing>) {
    forall k :: 0 <= k < |ledger| ==> Consistent(ledger[k])
  }
}
