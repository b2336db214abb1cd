/**
 * The league half of lib/tournament-utils.ts: the rows generateLeagueFixtures
 * inserts, and the two ways a league result reaches the standings
 * (updateStandingsSimple, which rewrites both records itself, and
 * updateStandings, which hands per-player arguments to a stored procedure).
 */
module League {
  import opened Wrappers
  import opened Records

  /** The number of players generateLeagueFixtures accepts. */
  const LeaguePlayers := 12

  // ---------------------------------------------------------------------
  // Rows inserted by generateLeagueFixtures

  /** One pending match row per fixture, numbered by its place in the fixture list. */
  function LeagueMatchRows(fixtures: seq<(PlayerId, PlayerId)>): (rows: seq<LeagueMatch>)
    ensures |rows| == |fixtures|
    ensures forall k :: 0 <= k < |rows| ==>
              rows[k].player1 == fixtures[k].0 && rows[k].player2 == fixtures[k].1
  {
    seq(|fixtures|, k requires 0 <= k < |fixtures| =>
      LeagueMatch(k + 1, fixtures[k].0, fixtures[k].1, None, None, Pending))
  }

  /** The numbers 1..n. */
  function NumberRange(n: nat): (r: set<int>)
    ensures forall x :: x in r <==> 1 <= x <= n
  {
    if n == 0 then {} else NumberRange(n - 1) + {n}
  }

  /** Match numbers run 1..|fixtures| without gaps or repeats, and every row starts pending without scores. */
  lemma LeagueMatchNumbers(fixtures: seq<(PlayerId, PlayerId)>)
    ensures (set m | m in LeagueMatchRows(fixtures) :: m.matchNumber) == NumberRange(|fixtures|)
    ensures forall k1, k2 :: 0 <= k1 < k2 < |fixtures| ==>
              LeagueMatchRows(fixtures)[k1].matchNumber < LeagueMatchRows(fixtures)[k2].matchNumber
    ensures forall m :: m in LeagueMatchRows(fixtures) ==> m.status == Pending && m.score1 == None && m.score2 == None
  {
    var rows := LeagueMatchRows(fixtures);
    forall n | n in NumberRange(|fixtures|) ensures n in (set m | m in rows :: m.matchNumber) {
      assert rows[n - 1] in rows;
    }
  }

  function ZeroStanding(p: PlayerId): Standing {
    Standing(p, 0, 0, 0, 0, 0, 0, 0)
  }

  /** One all-zero standings record per player, in player order. */
  function InitialStandings(players: seq<PlayerId>): (ledger: seq<Standing>)
    ensures |ledger| == |players|
    ensures AllConsistent(ledger)
    ensures forall k :: 0 <= k < |ledger| ==>
              && ledger[k].playerId == players[k]
              && ledger[k].gamesPlayed == 0 && ledger[k].points == 0
              && ledger[k].crownsFor == 0 && ledger[k].crownsAgainst == 0
  {
    seq(|players|, k requires 0 <= k < |players| => ZeroStanding(players[k]))
  }

  // ---------------------------------------------------------------------
  // One result applied to two records

  /** Player 1 wins exactly when its score is strictly higher: a tie goes to player 2. */
  predicate Player1Won(score1: int, score2: int) {
    score1 > score2
  }

  /** The update one standings record receives for one match. */
  function Credit(s: Standing, won: bool, scored: int, conceded: int): (r: Standing)
    ensures r.playerId == s.playerId
    ensures r.gamesPlayed == s.gamesPlayed + 1
    ensures r.wins == s.wins + (if won then 1 else 0) && r.losses == s.losses + (if won then 0 else 1)
    ensures r.points == s.points + (if won then 3 else 0)
    ensures r.crownsFor == s.crownsFor + scored && r.crownsAgainst == s.crownsAgainst + conceded
    ensures r.crownDifference == r.crownsFor - r.crownsAgainst
    ensures Consistent(s) ==> Consistent(r)
  {
    s.(wins := s.wins + (if won then 1 else 0),
       losses := s.losses + (if won then 0 else 1),
       points := s.points + (if won then 3 else 0),
       gamesPlayed := s.gamesPlayed + 1,
       crownsFor := s.crownsFor + scored,
       crownsAgainst := s.crownsAgainst + conceded,
       crownDifference := (s.crownsFor + scored) - (s.crownsAgainst + conceded))
  }

  /** Both records' new values after a result with the given scores. */
  function ApplyResult(s1: Standing, s2: Standing, score1: int, score2: int): (r: (Standing, Standing))
    // exactly one of the two gets the win, and it is player 1 iff score1 > score2
    ensures (r.0.wins - s1.wins) + (r.1.wins - s2.wins) == 1
    ensures r.0.wins == s1.wins + 1 <==> score1 > score2
    ensures r.1.wins == s2.wins + 1 <==> score1 <= score2
    // only the winner's points rise, by exactly 3
    ensures (r.0.points - s1.points) + (r.1.points - s2.points) == 3
    ensures r.0.points == s1.points || r.1.points == s2.points
    // both played one more game
    ensures r.0.gamesPlayed == s1.gamesPlayed + 1 && r.1.gamesPlayed == s2.gamesPlayed + 1
    // crowns are conserved: what one scores the other concedes
    ensures (r.0.crownsFor - s1.crownsFor) + (r.1.crownsFor - s2.crownsFor) == score1 + score2
    ensures (r.0.crownsAgainst - s1.crownsAgainst) + (r.1.crownsAgainst - s2.crownsAgainst) == score1 + score2
    ensures r.0.crownsFor - s1.crownsFor == r.1.crownsAgainst - s2.crownsAgainst == score1
    ensures Consistent(s1) && Consistent(s2) ==> Consistent(r.0) && Consistent(r.1)
  {
    var won := Player1Won(score1, score2);
    (Credit(s1, won, score1, score2), Credit(s2, !won, score2, score1))
  }

  /** Two credits commute: a record's totals do not depend on the order results arrive in. */
  lemma CreditCommutes(s: Standing, w1: bool, f1: int, a1: int, w2: bool, f2: int, a2: int)
    ensures Credit(Credit(s, w1, f1, a1), w2, f2, a2) == Credit(Credit(s, w2, f2, a2), w1, f1, a1)
  {
  }

  // ---------------------------------------------------------------------
  // The standings table (updateStandingsSimple)

  /** How many rows the `player_id in [player1, player2]` query returns. */
  function RowsFor(ledger: seq<Standing>, p1: PlayerId, p2: PlayerId): (n: nat)
    ensures n <= |ledger|
  {
    if |ledger| == 0 then 0
    else RowsFor(ledger[..|ledger| - 1], p1, p2)
         + (if ledger[|ledger| - 1].playerId == p1 || ledger[|ledger| - 1].playerId == p2 then 1 else 0)
  }

  /**
   * The query returns nothing exactly when neither player has a row, and the whole
   * table exactly when every row belongs to one of the two players.
   */
  lemma {:induction false} RowsForExtremes(ledger: seq<Standing>, p1: PlayerId, p2: PlayerId)
    ensures RowsFor(ledger, p1, p2) == 0 <==>
              forall k :: 0 <= k < |ledger| ==> ledger[k].playerId != p1 && ledger[k].playerId != p2
    ensures RowsFor(ledger, p1, p2) == |ledger| <==>
              forall k :: 0 <= k < |ledger| ==> ledger[k].playerId == p1 || ledger[k].playerId == p2
  {
    if |ledger| > 0 {
      var init := ledger[..|ledger| - 1];
      RowsForExtremes(init, p1, p2);
      assert forall k :: 0 <= k < |init| ==> init[k] == ledger[k];
    }
  }

  /** The row `find` picks: the first with the given player id, if any. */
  function FindRow(ledger: seq<Standing>, p: PlayerId): (r: Option<nat>)
    ensures r.Some? ==> r.value < |ledger| && ledger[r.value].playerId == p
    ensures r.Some? ==> forall k :: 0 <= k < r.value ==> ledger[k].playerId != p
    ensures r.None? ==> forall k :: 0 <= k < |ledger| ==> ledger[k].playerId != p
  {
    if |ledger| == 0 then None
    else if ledger[0].playerId == p then Some(0)
    else match FindRow(ledger[1..], p)
      case None => None
      case Some(i) => Some(i + 1)
  }

  /**
   * The standings table after updateStandingsSimple: fails unless the query finds
   * exactly two rows and both players have one; otherwise player 1's record is
   * written, then player 2's, each computed from the records as read.
   */
  function ApplySimple(ledger: seq<Standing>, p1: PlayerId, p2: PlayerId, score1: int, score2: int)
    : (r: Result<seq<Standing>, EngineError>)
    ensures r.Failure? <==> RowsFor(ledger, p1, p2) != 2 || FindRow(ledger, p1).None? || FindRow(ledger, p2).None?
    ensures r.Failure? ==> r.error == StandingsNotFound
    ensures r.Success? ==> |r.value| == |ledger|
    ensures r.Success? ==> forall k :: 0 <= k < |ledger| ==> r.value[k].playerId == ledger[k].playerId
    ensures r.Success? ==> forall k :: 0 <= k < |ledger| && ledger[k].playerId != p1 && ledger[k].playerId != p2 ==>
              r.value[k] == ledger[k]
    ensures r.Success? && AllConsistent(ledger) ==> AllConsistent(r.value)
  {
    if RowsFor(ledger, p1, p2) != 2 then Failure(StandingsNotFound)
    else match (FindRow(ledger, p1), FindRow(ledger, p2))
      case (Some(i1), Some(i2)) =>
        var (n1, n2) := ApplyResult(ledger[i1], ledger[i2], score1, score2);
        Success(ledger[i1 := n1][i2 := n2])
      case _ => Failure(StandingsNotFound)
  }

  /** What one row receives from a result: player 2's write lands last when both lookups hit the same row. */
  function RowUpdate(s: Standing, isRow1: bool, isRow2: bool, won: bool, score1: int, score2: int): Standing {
    if isRow2 then Credit(s, !won, score2, score1)
    else if isRow1 then Credit(s, won, score1, score2)
    else s
  }

  lemma RowUpdateCommutes(s: Standing, x1: bool, x2: bool, wa: bool, a1: int, a2: int,
                          y1: bool, y2: bool, wb: bool, b1: int, b2: int)
    ensures RowUpdate(RowUpdate(s, x1, x2, wa, a1, a2), y1, y2, wb, b1, b2)
         == RowUpdate(RowUpdate(s, y1, y2, wb, b1, b2), x1, x2, wa, a1, a2)
  {
    var fa := if x2 then (!wa, a2, a1) else (wa, a1, a2);
    var fb := if y2 then (!wb, b2, b1) else (wb, b1, b2);
    if (x1 || x2) && (y1 || y2) {
      CreditCommutes(s, fa.0, fa.1, fa.2, fb.0, fb.1, fb.2);
    }
  }

  /** The table after the two writes of one result land on rows i1 and i2. */
  function Updated(ledger: seq<Standing>, i1: int, i2: int, score1: int, score2: int): (r: seq<Standing>)
    ensures |r| == |ledger|
    ensures forall k :: 0 <= k < |r| ==>
              r[k] == RowUpdate(ledger[k], k == i1, k == i2, Player1Won(score1, score2), score1, score2)
  {
    seq(|ledger|, k requires 0 <= k < |ledger| =>
      RowUpdate(ledger[k], k == i1, k == i2, Player1Won(score1, score2), score1, score2))
  }

  /** A successful update, row by row. */
  lemma ApplySimpleRows(ledger: seq<Standing>, p1: PlayerId, p2: PlayerId, score1: int, score2: int)
    requires ApplySimple(ledger, p1, p2, score1, score2).Success?
    ensures FindRow(ledger, p1).Some? && FindRow(ledger, p2).Some?
    ensures ApplySimple(ledger, p1, p2, score1, score2).value
         == Updated(ledger, FindRow(ledger, p1).value, FindRow(ledger, p2).value, score1, score2)
  {
  }

  /** Updates of rows in two different results commute. */
  lemma UpdatedCommutes(ledger: seq<Standing>, i1: int, i2: int, a1: int, a2: int, j1: int, j2: int, b1: int, b2: int)
    ensures Updated(Updated(ledger, i1, i2, a1, a2), j1, j2, b1, b2)
         == Updated(Updated(ledger, j1, j2, b1, b2), i1, i2, a1, a2)
  {
    var xy := Updated(Updated(ledger, i1, i2, a1, a2), j1, j2, b1, b2);
    var yx := Updated(Updated(ledger, j1, j2, b1, b2), i1, i2, a1, a2);
    forall k | 0 <= k < |ledger| ensures xy[k] == yx[k] {
      RowUpdateCommutes(ledger[k], k == i1, k == i2, Player1Won(a1, a2), a1, a2,
                        k == j1, k == j2, Player1Won(b1, b2), b1, b2);
    }
  }

  /** Applying two results in either order leaves the same standings table. */
  lemma ApplySimpleCommutes(
    ledger: seq<Standing>, p1: PlayerId, p2: PlayerId, a1: int, a2: int,
    q1: PlayerId, q2: PlayerId, b1: int, b2: int)
    requires ApplySimple(ledger, p1, p2, a1, a2).Success?
    requires ApplySimple(ledger, q1, q2, b1, b2).Success?
    ensures ApplySimple(ApplySimple(ledger, p1, p2, a1, a2).value, q1, q2, b1, b2).Success?
    ensures ApplySimple(ApplySimple(ledger, q1, q2, b1, b2).value, p1, p2, a1, a2).Success?
    ensures ApplySimple(ApplySimple(ledger, p1, p2, a1, a2).value, q1, q2, b1, b2)
         == ApplySimple(ApplySimple(ledger, q1, q2, b1, b2).value, p1, p2, a1, a2)
  {
    var x := ApplySimple(ledger, p1, p2, a1, a2).value;
    var y := ApplySimple(ledger, q1, q2, b1, b2).value;
    ApplySimpleRows(ledger, p1, p2, a1, a2);
    ApplySimpleRows(ledger, q1, q2, b1, b2);
    SameIdsSameLookups(ledger, x, q1, q2);
    SameIdsSameLookups(ledger, y, p1, p2);
    ApplySimpleRows(x, q1, q2, b1, b2);
    ApplySimpleRows(y, p1, p2, a1, a2);
    var i1, i2 := FindRow(ledger, p1).value, FindRow(ledger, p2).value;
    var j1, j2 := FindRow(ledger, q1).value, FindRow(ledger, q2).value;
    UpdatedCommutes(ledger, i1, i2, a1, a2, j1, j2, b1, b2);
  }

  /** Lookups depend on player ids only, which an update leaves alone. */
  lemma SameIdsSameLookups(a: seq<Standing>, b: seq<Standing>, p1: PlayerId, p2: PlayerId)
    requires |a| == |b|
    requires forall k :: 0 <= k < |a| ==> a[k].playerId == b[k].playerId
    ensures RowsFor(a, p1, p2) == RowsFor(b, p1, p2)
    ensures FindRow(a, p1) == FindRow(b, p1) && FindRow(a, p2) == FindRow(b, p2)
  {
    SameIdsSameCount(a, b, p1, p2);
    SameIdsSameFind(a, b, p1);
    SameIdsSameFind(a, b, p2);
  }

  lemma {:induction false} SameIdsSameCount(a: seq<Standing>, b: seq<Standing>, p1: PlayerId, p2: PlayerId)
    requires |a| == |b|
    requires forall k :: 0 <= k < |a| ==> a[k].playerId == b[k].playerId
    ensures RowsFor(a, p1, p2) == RowsFor(b, p1, p2)
    decreases |a|
  {
    if |a| > 0 {
      SameIdsSameCount(a[..|a| - 1], b[..|b| - 1], p1, p2);
    }
  }

  lemma {:induction false} SameIdsSameFind(a: seq<Standing>, b: seq<Standing>, p: PlayerId)
    requires |a| == |b|
    requires forall k :: 0 <= k < |a| ==> a[k].playerId == b[k].playerId
    ensures FindRow(a, p) == FindRow(b, p)
    decreases |a|
  {
    if |a| > 0 {
      SameIdsSameFind(a[1..], b[1..], p);
    }
  }

  /** Marks the match row with the given id completed with both scores; an id with no row changes nothing. */
  function CompleteMatch(matches: seq<LeagueMatch>, matchId: nat, score1: int, score2: int): (r: seq<LeagueMatch>)
    ensures |r| == |matches|
    ensures forall k :: 0 <= k < |r| && k != matchId ==> r[k] == matches[k]
    ensures matchId < |r| ==> r[matchId].status == Done && r[matchId].score1 == Some(score1) && r[matchId].score2 == Some(score2)
    ensures matchId < |r| ==>
              (r[matchId].matchNumber == matches[matchId].matchNumber
               && r[matchId].player1 == matches[matchId].player1 && r[matchId].player2 == matches[matchId].player2)
  {
    if matchId < |matches| then
      matches[matchId := matches[matchId].(score1 := Some(score1), score2 := Some(score2), status := Done)]
    else matches
  }

  // ---------------------------------------------------------------------
  // The stored-procedure variant (updateStandings)

  /** The arguments of one update_player_standing call. */
  datatype StandingCall = StandingCall(playerId: PlayerId, win: bool, crownsFor: int, crownsAgainst: int)

  /** The winner's call and then the loser's call that updateStandings issues for a match. */
  function ResultCalls(m: LeagueMatch, score1: int, score2: int): (r: (StandingCall, StandingCall))
    ensures r.0.win && !r.1.win
    ensures r.0.playerId == (if score1 > score2 then m.player1 else m.player2)
    ensures r.1.playerId == (if score1 > score2 then m.player2 else m.player1)
    ensures r.0.crownsFor == r.1.crownsAgainst >= r.1.crownsFor == r.0.crownsAgainst
    ensures r.0.crownsFor + r.1.crownsFor == score1 + score2
    // the players credited agree with what updateStandingsSimple credits each of them
    ensures score1 > score2 ==> r.0.crownsFor == score1 && r.0.crownsAgainst == score2
    ensures score1 < score2 ==> r.0.crownsFor == score2 && r.0.crownsAgainst == score1
    // a draw goes to player 2 and credits both players with the common score
    ensures score1 == score2 ==> r.0.playerId == m.player2 && r.0.crownsFor == r.0.crownsAgainst == score1
  {
    var p1Won := score1 > score2;
    var winner := if p1Won then m.player1 else m.player2;
    var loser := if p1Won then m.player2 else m.player1;
    (StandingCall(winner, true, Max(score1, score2), Min(score1, score2)),
     StandingCall(loser, false, Min(score1, score2), Max(score1, score2)))
  }

  /**
   * updateStandings: fails when no match row has the id; otherwise returns the two
   * stored-procedure calls it makes and the match table with the match completed.
   */
  function UpdateStandings(matches: seq<LeagueMatch>, matchId: nat, score1: int, score2: int)
    : (r: Result<((StandingCall, StandingCall), seq<LeagueMatch>), EngineError>)
    ensures r.Failure? <==> matchId >= |matches|
    ensures r.Failure? ==> r.error == MatchNotFound
    ensures r.Success? ==> r.value.0.0.win && !r.value.0.1.win
    // the win call goes to player 1 exactly when its score is strictly higher, the loss call to the other
    ensures r.Success? ==>
              && r.value.0.0.playerId == (if score1 > score2 then matches[matchId].player1 else matches[matchId].player2)
              && r.value.0.1.playerId == (if score1 > score2 then matches[matchId].player2 else matches[matchId].player1)
    // the winner is credited with the higher score, the loser with the lower one
    ensures r.Success? ==>
              && r.value.0.0.crownsFor == Max(score1, score2) && r.value.0.0.crownsAgainst == Min(score1, score2)
              && r.value.0.1.crownsFor == Min(score1, score2) && r.value.0.1.crownsAgainst == Max(score1, score2)
    // the match row gets both scores and is completed; every other row stays
    ensures r.Success? ==> |r.value.1| == |matches|
    ensures r.Success? ==> r.value.1[matchId] == matches[matchId].(score1 := Some(score1), score2 := Some(score2), status := Done)
    ensures r.Success? ==> forall k :: 0 <= k < |matches| && k != matchId ==> r.value.1[k] == matches[k]
  {
    if matchId >= |matches| then Failure(MatchNotFound)
    else Success((ResultCalls(matches[matchId], score1, score2), CompleteMatch(matches, matchId, score1, score2)))
  }
}
