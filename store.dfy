/**
 * The database writes of lib/tournament-utils.ts, over an in-memory copy of one
 * tournament's tables.  Each method is one exported async function; the
 * queries become reads of the fields and the inserts and updates become
 * assignments to them.
 */
module TournamentStore {
  import opened Wrappers
  import opened Records
  import opened Fixtures
  import opened League
  import opened Playoffs

  class Store {
    var status: TournamentStatus
    var phase: Option<Phase>
    /** The players table, in seed_position order (the order the fixtures query asks for). */
    var players: seq<PlayerId>
    var leagueMatches: seq<LeagueMatch>
    var standings: seq<Standing>
    var playoffMatches: seq<PlayoffMatch>

    /** Every standings record keeps the ledger's bookkeeping rules. */
    ghost predicate Valid()
      reads this
    {
      AllConsistent(standings)
    }

    /** A tournament as the creation form inserts it: in setup, with its players and nothing else. */
    constructor (players: seq<PlayerId>)
      ensures Valid()
      ensures this.players == players && status == Setup && phase == None
      ensures leagueMatches == [] && standings == [] && playoffMatches == []
    {
      this.players := players;
      status := Setup;
      phase := None;
      leagueMatches := [];
      standings := [];
      playoffMatches := [];
    }

    /**
     * generateLeagueFixtures: refuses unless exactly twelve players are found;
     * otherwise inserts one pending match per round-robin fixture, numbered from
     * 1, and one all-zero standings record per player.
     */
    method GenerateLeagueFixtures() returns (r: Result<seq<LeagueMatch>, EngineError>)
      requires Valid()
      modifies this
      ensures Valid()
      ensures r.Failure? <==> |players| != LeaguePlayers
      ensures r.Failure? ==> r.error == IncorrectPlayerCount && unchanged(this)
      ensures r.Success? ==>
                && r.value == LeagueMatchRows(RoundRobin(players))
                && |r.value| == 66
                && leagueMatches == old(leagueMatches) + r.value
                && standings == old(standings) + InitialStandings(players)
      ensures players == old(players) && status == old(status) && phase == old(phase)
      ensures playoffMatches == old(playoffMatches)
    {
      if |players| != LeaguePlayers {
        return Failure(IncorrectPlayerCount);
      }
      var fixtures := GenerateRoundRobinFixtures(players);
      var rows := LeagueMatchRows(fixtures);
      leagueMatches := leagueMatches + rows;
      standings := standings + InitialStandings(players);
      r := Success(rows);
    }

    /**
     * updateStandingsSimple: reads both players' records, writes player 1's and
     * then player 2's, then marks the match completed with the scores.  Nothing
     * is written when the records are not found.
     */
    method UpdateStandingsSimple(matchId: nat, player1: PlayerId, player2: PlayerId, score1: int, score2: int)
      returns (r: Result<(), EngineError>)
      requires Valid()
      modifies this
      ensures Valid()
      ensures r.Failure? <==> ApplySimple(old(standings), player1, player2, score1, score2).Failure?
      ensures r.Failure? ==> unchanged(this)
      ensures r.Success? ==>
                && standings == ApplySimple(old(standings), player1, player2, score1, score2).value
                && leagueMatches == CompleteMatch(old(leagueMatches), matchId, score1, score2)
      ensures players == old(players) && status == old(status) && phase == old(phase)
      ensures playoffMatches == old(playoffMatches)
    {
      var found := RowsFor(standings, player1, player2);
      var row1, row2 := FindRow(standings, player1), FindRow(standings, player2);
      if found != 2 || row1.None? || row2.None? {
        return Failure(StandingsNotFound);
      }
      var i1, i2 := row1.value, row2.value;
      var before1, before2 := standings[i1], standings[i2];
      var player1Won := score1 > score2;
      standings := standings[i1 := Credit(before1, player1Won, score1, score2)];
      standings := standings[i2 := Credit(before2, !player1Won, score2, score1)];
      leagueMatches := CompleteMatch(leagueMatches, matchId, score1, score2);
      r := Success(());
    }

    /**
     * generatePlayoffBracket: refuses unless eight ranked records exist;
     * otherwise inserts the four quarter-finals and moves the tournament to
     * playoffs, phase quarter.
     */
    method GeneratePlayoffBracket() returns (r: Result<seq<PlayoffMatch>, EngineError>)
      requires Valid()
      modifies this
      ensures Valid()
      ensures r == PlayoffBracket(old(standings))
      ensures r.Failure? ==> unchanged(this)
      ensures r.Success? ==>
                && playoffMatches == old(playoffMatches) + r.value
                && status == Playoffs && phase == Some(RoundPhase(Quarter))
      ensures standings == old(standings) && leagueMatches == old(leagueMatches) && players == old(players)
    {
      var ranked := Ranked(standings);
      if |ranked| < Qualifiers {
        return Failure(NotEnoughQualified);
      }
      var quarterFinals := QuarterFinals(TopIds(ranked, Qualifiers));
      playoffMatches := playoffMatches + quarterFinals;
      status := Playoffs;
      phase := Some(RoundPhase(Quarter));
      r := Success(quarterFinals);
    }
  }
}
