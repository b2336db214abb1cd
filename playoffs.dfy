/**
 * Quarter-final seeding (lib/tournament-utils.ts, generatePlayoffBracket):
 * standings ranked by points, then crown difference, both descending; the top
 * eight enter four quarter-finals, match k pairing rank k with rank 9 - k.
 */
module Playoffs {
  import opened Wrappers
  import opened Sorting
  import opened Records

  /** The number of qualifiers the bracket takes. */
  const Qualifiers := 8

  /** Ascending order of this key is the ranking order. */
  function RankKey(s: Standing): (int, int) {
    (-s.points, -s.crownDifference)
  }

  /** a ranks at least as high as b. */
  predicate RanksAbove(a: Standing, b: Standing) {
    a.points > b.points || (a.points == b.points && a.crownDifference >= b.crownDifference)
  }

  /** The standings as the ranking query returns them; among equal keys the table's order stays. */
  function Ranked(standings: seq<Standing>): (r: seq<Standing>)
    ensures |r| == |standings| && multiset(r) == multiset(standings)
    ensures forall i, j :: 0 <= i < j < |r| ==> RanksAbove(r[i], r[j])
  {
    var r := SortBy(standings, RankKey);
    assert forall i, j :: 0 <= i < j < |r| ==> LexLe(RankKey(r[i]), RankKey(r[j]));
    r
  }

  /** The player ids of the first k ranked records. */
  function TopIds(ranked: seq<Standing>, k: nat): (ids: seq<PlayerId>)
    requires k <= |ranked|
    ensures |ids| == k
    ensures forall i :: 0 <= i < k ==> ids[i] == ranked[i].playerId
  {
    seq(k, i requires 0 <= i < k => ranked[i].playerId)
  }

  function QuarterMatch(number: int, p1: PlayerId, p2: PlayerId): PlayoffMatch {
    PlayoffMatch(Quarter, number, p1, p2, None, None, None, Pending)
  }

  /** Every seat of a list of matches: player 1 then player 2, match by match. */
  function Seats(ms: seq<PlayoffMatch>): (s: seq<PlayerId>)
    ensures |s| == 2 * |ms|
    ensures forall k :: 0 <= k < |ms| ==> s[2 * k] == ms[k].player1 && s[2 * k + 1] == ms[k].player2
  {
    if |ms| == 0 then [] else [ms[0].player1, ms[0].player2] + Seats(ms[1..])
  }

  /** The four quarter-finals, stored as 1v8, 2v7, 3v6, 4v5. */
  function QuarterFinals(top: seq<PlayerId>): (qs: seq<PlayoffMatch>)
    requires |top| == Qualifiers
    ensures |qs| == 4
    ensures forall k :: 0 <= k < 4 ==>
              && qs[k].round == Quarter && qs[k].status == Pending && qs[k].winner == None
              && qs[k].matchNumber == k + 1
              // 1-based: match k+1 pairs rank k+1 with rank 8-k = 9-(k+1)
              && qs[k].player1 == top[k] && qs[k].player2 == top[Qualifiers - 1 - k]
  {
    [QuarterMatch(1, top[0], top[7]), QuarterMatch(2, top[1], top[6]),
     QuarterMatch(3, top[2], top[5]), QuarterMatch(4, top[3], top[4])]
  }

  /**
   * The seats of the quarter-finals, match by match, are qualifiers 1, 8, 2, 7,
   * 3, 6, 4, 5: each of the eight qualifiers has exactly one seat.
   */
  lemma QuarterFinalsSeatEveryQualifier(top: seq<PlayerId>)
    requires |top| == Qualifiers
    ensures Seats(QuarterFinals(top)) == [top[0], top[7], top[1], top[6], top[2], top[5], top[3], top[4]]
  {
    var s := Seats(QuarterFinals(top));
    assert s[0] == top[0] && s[1] == top[7];
    assert s[2] == top[1] && s[3] == top[6];
    assert s[4] == top[2] && s[5] == top[5];
    assert s[6] == top[3] && s[7] == top[4];
  }

  /** Every player seated in the quarter-finals of the top eight has a standings record. */
  lemma SeatedHaveRecords(standings: seq<Standing>)
    requires |standings| >= Qualifiers
    ensures var ranked := Ranked(standings);
            forall p :: p in Seats(QuarterFinals(TopIds(ranked, Qualifiers))) ==> exists s :: s in standings && s.playerId == p
  {
    var ranked := Ranked(standings);
    var top := TopIds(ranked, Qualifiers);
    QuarterFinalsSeatEveryQualifier(top);
    forall p | p in Seats(QuarterFinals(top)) ensures exists s :: s in standings && s.playerId == p {
      var i :| 0 <= i < |top| && top[i] == p;
      assert ranked[i] in multiset(standings);
    }
  }

  /**
   * generatePlayoffBracket without the writes: fails unless eight records are
   * ranked; otherwise the four quarter-finals of the top eight.
   */
  function PlayoffBracket(standings: seq<Standing>): (r: Result<seq<PlayoffMatch>, EngineError>)
    ensures r.Failure? <==> |standings| < Qualifiers
    ensures r.Failure? ==> r.error == NotEnoughQualified
    ensures r.Success? ==> |r.value| == 4
    // match k + 1 is a pending quarter-final of ranked player k + 1 against ranked player 8 - k
    ensures r.Success? ==> forall k :: 0 <= k < 4 ==>
              && r.value[k].round == Quarter && r.value[k].status == Pending && r.value[k].matchNumber == k + 1
              && r.value[k].player1 == Ranked(standings)[k].playerId
              && r.value[k].player2 == Ranked(standings)[Qualifiers - 1 - k].playerId
    // the seated players are exactly eight of the standings' players, and nobody
    // left out of the first eight outranks anybody seated
    ensures r.Success? ==> forall p :: p in Seats(r.value) ==> exists s :: s in standings && s.playerId == p
    ensures r.Success? ==> forall k :: 0 <= k < 4 ==>
              forall j :: Qualifiers <= j < |standings| ==>
                RanksAbove(Ranked(standings)[k], Ranked(standings)[j])
                && RanksAbove(Ranked(standings)[Qualifiers - 1 - k], Ranked(standings)[j])
  {
    var ranked := Ranked(standings);
    if |ranked| < Qualifiers then Failure(NotEnoughQualified)
    else
      var top := TopIds(ranked, Qualifiers);
      var qs := QuarterFinals(top);
      SeatedHaveRecords(standings);
      Success(qs)
  }

  /** A successful draw is the quarter-finals of the first eight ranked players. */
  lemma PlayoffBracketOfTop(standings: seq<Standing>)
    requires |standings| >= Qualifiers
    ensures PlayoffBracket(standings) == Success(QuarterFinals(TopIds(Ranked(standings), Qualifiers)))
  {
  }
}
