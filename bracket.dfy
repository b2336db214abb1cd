/**
 * The derivations of the knockout bracket view (components/knockout-bracket.tsx)
 * that decide who is shown where: ranks taken from the standings order, the
 * predicted quarter-finals during the league, the per-round match lists, the
 * visual order of stored quarter-finals, and which player a match box marks
 * as winner.
 */
module Bracket {
  import opened Wrappers
  import opened Sorting
  import opened Records
  import opened Playoffs

  predicate IdsDistinct(standings: seq<Standing>) {
    forall i, j :: 0 <= i < j < |standings| ==> standings[i].playerId != standings[j].playerId
  }

  /** A table with distinct ids holds each record at most once. */
  lemma {:induction false} AtMostOnce(a: seq<Standing>, x: Standing)
    requires IdsDistinct(a)
    ensures multiset(a)[x] <= 1
  {
    if |a| > 0 {
      var rest := a[1..];
      assert IdsDistinct(rest) by {
        assert forall i :: 0 <= i < |rest| ==> rest[i] == a[i + 1];
      }
      AtMostOnce(rest, x);
      assert a == [a[0]] + rest;
      if a[0] == x {
        assert forall k :: 0 <= k < |rest| ==> rest[k].playerId != a[0].playerId by {
          assert forall k :: 0 <= k < |rest| ==> rest[k] == a[k + 1];
        }
        assert x !in rest;
      }
    }
  }

  /** In a table with distinct ids, two records with the same id are the same record. */
  lemma SameIdSameRecord(a: seq<Standing>, x: Standing, y: Standing)
    requires IdsDistinct(a) && x in a && y in a
    ensures x.playerId == y.playerId ==> x == y
  {
    var p :| 0 <= p < |a| && a[p] == x;
    var q :| 0 <= q < |a| && a[q] == y;
    assert p < q ==> a[p].playerId != a[q].playerId;
    assert q < p ==> a[q].playerId != a[p].playerId;
  }

  /** Two equal entries at different positions occur at least twice. */
  lemma Twice<T>(s: seq<T>, i: nat, j: nat)
    requires i < j < |s|
    ensures s[i] == s[j] ==> multiset(s)[s[i]] >= 2
  {
    assert s == s[..i] + [s[i]] + s[i + 1..j] + [s[j]] + s[j + 1..];
  }

  /** Reordering a table keeps its ids distinct. */
  lemma PermutationKeepsIdsDistinct(a: seq<Standing>, b: seq<Standing>)
    requires multiset(a) == multiset(b) && IdsDistinct(a)
    ensures IdsDistinct(b)
  {
    forall i, j | 0 <= i < j < |b| ensures b[i].playerId != b[j].playerId {
      Twice(b, i, j);
      AtMostOnce(a, b[i]);
      assert b[i] in multiset(a) && b[j] in multiset(a);
      SameIdSameRecord(a, b[i], b[j]);
    }
  }

  // ---------------------------------------------------------------------
  // rankMap

  /** The players that have a record. */
  function Ids(standings: seq<Standing>): set<PlayerId> {
    set i | 0 <= i < |standings| :: standings[i].playerId
  }

  /** The index of the last record of player p, or -1. */
  function LastIndexOf(standings: seq<Standing>, p: PlayerId): (i: int)
    ensures -1 <= i < |standings|
    ensures i >= 0 ==> standings[i].playerId == p && forall j :: i < j < |standings| ==> standings[j].playerId != p
    ensures i == -1 ==> forall j :: 0 <= j < |standings| ==> standings[j].playerId != p
  {
    if |standings| == 0 then -1
    else if standings[|standings| - 1].playerId == p then |standings| - 1
    else LastIndexOf(standings[..|standings| - 1], p)
  }

  /**
   * Player id to 1-based position in the standings list.  As with a JavaScript Map
   * built from entries, a later entry for the same id replaces an earlier one.
   */
  function RankMap(standings: seq<Standing>): (m: map<PlayerId, int>)
    ensures m.Keys == Ids(standings)
    ensures forall p :: p in m ==>
              && 1 <= m[p] <= |standings|
              && standings[m[p] - 1].playerId == p
              && forall j :: m[p] <= j < |standings| ==> standings[j].playerId != p
  {
    map p | p in Ids(standings) :: LastIndexOf(standings, p) + 1
  }

  /** With one record per player, the player at index i has rank i + 1. */
  lemma RankMapDistinct(standings: seq<Standing>)
    requires IdsDistinct(standings)
    ensures forall i :: 0 <= i < |standings| ==> RankMap(standings)[standings[i].playerId] == i + 1
  {
    var m := RankMap(standings);
    forall i | 0 <= i < |standings| ensures m[standings[i].playerId] == i + 1 {
      var p := standings[i].playerId;
      assert p in Ids(standings);
      var r := m[p] - 1;
      assert standings[r].playerId == p;
      assert i <= r;
      assert !(i < r);
    }
  }

  // ---------------------------------------------------------------------
  // probable

  /** A player as a match box shows them: id and rank (the display name is left out). */
  datatype PlayerSlot = PlayerSlot(id: PlayerId, rank: int)

  /** The first eight of the standings, each with its 1-based rank. */
  function Probable(standings: seq<Standing>): (r: seq<PlayerSlot>)
    ensures |r| <= Qualifiers
    ensures |r| == if |standings| < Qualifiers then |standings| else Qualifiers
    ensures forall i :: 0 <= i < |r| ==> r[i].id == standings[i].playerId && r[i].rank == i + 1
  {
    var n := if |standings| < Qualifiers then |standings| else Qualifiers;
    seq(n, i requires 0 <= i < n => PlayerSlot(standings[i].playerId, i + 1))
  }

  /** The rank a probable slot shows agrees with rankMap when each player has one record. */
  lemma ProbableRanksAgree(standings: seq<Standing>)
    requires IdsDistinct(standings)
    ensures var r := Probable(standings);
            forall i :: 0 <= i < |r| ==> r[i].id in RankMap(standings) && RankMap(standings)[r[i].id] == r[i].rank
  {
    RankMapDistinct(standings);
  }

  // ---------------------------------------------------------------------
  // predictedQuarters

  /** Slot order 1v8, 4v5, 2v7, 3v6, as 0-based indexes into probable. */
  const Slots: seq<int> := [0, 7, 3, 4, 1, 6, 2, 5]

  datatype Pairing = Pairing(player1: PlayerSlot, player2: PlayerSlot)

  /** The pairings from the first q slot pairs; a pair is kept only when both slots are filled. */
  function PredictedUpTo(probable: seq<PlayerSlot>, q: nat): seq<Pairing>
    requires q <= 4
  {
    if q == 0 then []
    else
      var a, b := Slots[2 * (q - 1)], Slots[2 * (q - 1) + 1];
      PredictedUpTo(probable, q - 1) + (if a < |probable| && b < |probable| then [Pairing(probable[a], probable[b])] else [])
  }

  /** The predicted quarter-finals shown while the league is running, and nothing otherwise. */
  method PredictedQuarters(status: TournamentStatus, probable: seq<PlayerSlot>) returns (r: seq<Pairing>)
    ensures status != League ==> r == []
    ensures status == League ==> r == PredictedUpTo(probable, 4)
  {
    r := [];
    if status == League {
      var i := 0;
      ghost var q := 0;
      while i < 8
        invariant 0 <= q <= 4 && i == 2 * q
        invariant r == PredictedUpTo(probable, q)
      {
        var a, b := Slots[i], Slots[i + 1];
        if a < |probable| && b < |probable| {
          r := r + [Pairing(probable[a], probable[b])];
        }
        i := i + 2;
        q := q + 1;
      }
    }
  }

  /** Slot pair k holds two slots that add up to 7, the lower one first. */
  lemma SlotPairsMirror(k: nat)
    requires k < 4
    ensures Slots[2 * k] + Slots[2 * k + 1] == 7 && Slots[2 * k] < Slots[2 * k + 1]
  {
    assert k == 0 || k == 1 || k == 2 || k == 3;
  }

  /** Every pairing predicted from the standings is rank k against rank 9 - k, the better rank first. */
  lemma {:induction false} PredictedRanks(standings: seq<Standing>, q: nat)
    requires q <= 4
    ensures forall x :: x in PredictedUpTo(Probable(standings), q) ==>
              x.player1.rank + x.player2.rank == 9 && x.player1.rank < x.player2.rank
  {
    if q > 0 {
      PredictedRanks(standings, q - 1);
      var pr := Probable(standings);
      var a, b := Slots[2 * (q - 1)], Slots[2 * (q - 1) + 1];
      SlotPairsMirror(q - 1);
      var added := if a < |pr| && b < |pr| then [Pairing(pr[a], pr[b])] else [];
      assert PredictedUpTo(pr, q) == PredictedUpTo(pr, q - 1) + added;
      forall x | x in added ensures x.player1.rank + x.player2.rank == 9 && x.player1.rank < x.player2.rank {
        assert x == Pairing(pr[a], pr[b]);
      }
    }
  }

  /** With eight or more players the prediction is 1v8, 4v5, 2v7, 3v6. */
  lemma PredictedFromStandings(standings: seq<Standing>)
    requires |standings| >= Qualifiers
    ensures var p := PredictedUpTo(Probable(standings), 4);
            |p| == 4 &&
            p[0].player1.rank == 1 && p[0].player2.rank == 8 &&
            p[1].player1.rank == 4 && p[1].player2.rank == 5 &&
            p[2].player1.rank == 2 && p[2].player2.rank == 7 &&
            p[3].player1.rank == 3 && p[3].player2.rank == 6
  {
    PredictedFull(Probable(standings));
  }

  /** With all eight slots filled every slot pair is kept, in slot order. */
  lemma PredictedFull(pr: seq<PlayerSlot>)
    requires |pr| == Qualifiers
    ensures PredictedUpTo(pr, 4) == [Pairing(pr[0], pr[7]), Pairing(pr[3], pr[4]), Pairing(pr[1], pr[6]), Pairing(pr[2], pr[5])]
  {
    assert PredictedUpTo(pr, 1) == [Pairing(pr[0], pr[7])];
    assert PredictedUpTo(pr, 2) == PredictedUpTo(pr, 1) + [Pairing(pr[3], pr[4])];
    assert PredictedUpTo(pr, 3) == PredictedUpTo(pr, 2) + [Pairing(pr[1], pr[6])];
  }

  // ---------------------------------------------------------------------
  // quarters / semis / finals

  /** The matches of one round, in their stored order. */
  function OfRound(ms: seq<PlayoffMatch>, round: Round): (r: seq<PlayoffMatch>)
    ensures forall m :: m in r ==> m.round == round
    ensures forall m :: multiset(r)[m] == if m.round == round then multiset(ms)[m] else 0
  {
    if |ms| == 0 then []
    else
      var last := ms[|ms| - 1];
      assert ms == ms[..|ms| - 1] + [last];
      OfRound(ms[..|ms| - 1], round) + (if last.round == round then [last] else [])
  }

  function ByMatchNumber(m: PlayoffMatch): (int, int) {
    (m.matchNumber, 0)
  }

  /** One round's list: only that round's matches, all of them, by ascending match number. */
  function RoundMatches(ms: seq<PlayoffMatch>, round: Round): (r: seq<PlayoffMatch>)
    ensures forall m :: m in r ==> m.round == round
    ensures forall m :: multiset(r)[m] == if m.round == round then multiset(ms)[m] else 0
    ensures forall i, j :: 0 <= i < j < |r| ==> r[i].matchNumber <= r[j].matchNumber
  {
    var r := SortBy(OfRound(ms, round), ByMatchNumber);
    assert forall i, j :: 0 <= i < j < |r| ==> LexLe(ByMatchNumber(r[i]), ByMatchNumber(r[j]));
    forall m | m in r ensures m.round == round {
      assert m in multiset(OfRound(ms, round));
    }
    r
  }

  /** Matches of the round with the same number keep their stored order. */
  lemma RoundMatchesStable(ms: seq<PlayoffMatch>, round: Round, kv: (int, int))
    ensures KeyRun(RoundMatches(ms, round), ByMatchNumber, kv) == KeyRun(OfRound(ms, round), ByMatchNumber, kv)
  {
    SortByStable(OfRound(ms, round), ByMatchNumber, kv);
  }

  // ---------------------------------------------------------------------
  // sortQuarterRowsForBracket

  /** Visual order of the lower seed of each quarter-final: 1v8, 4v5, 2v7, 3v6. */
  const DesiredSeedOrder: seq<int> := [1, 4, 2, 3]

  /** Number.MAX_SAFE_INTEGER, the index of a row that sorts last. */
  const MaxSafeInteger := 9007199254740991

  function IndexOf(s: seq<int>, x: int): (i: int)
    ensures -1 <= i < |s|
    ensures i >= 0 ==> s[i] == x && forall k :: 0 <= k < i ==> s[k] != x
    ensures i == -1 ==> x !in s
  {
    if |s| == 0 then -1
    else if s[0] == x then 0
    else var j := IndexOf(s[1..], x); if j == -1 then -1 else j + 1
  }

  /** The place of a row's lower rank in the desired order, or MaxSafeInteger when a rank is missing or not listed. */
  function SeedIndex(row: PlayoffMatch, ranks: map<PlayerId, int>): (r: int)
    ensures r == MaxSafeInteger || 0 <= r < |DesiredSeedOrder|
    ensures r != MaxSafeInteger <==>
              row.player1 in ranks && row.player2 in ranks && Min(ranks[row.player1], ranks[row.player2]) in DesiredSeedOrder
    ensures r != MaxSafeInteger ==> DesiredSeedOrder[r] == Min(ranks[row.player1], ranks[row.player2])
  {
    var idx := if row.player1 in ranks && row.player2 in ranks
               then IndexOf(DesiredSeedOrder, Min(ranks[row.player1], ranks[row.player2]))
               else -1;
    if idx == -1 then MaxSafeInteger else idx
  }

  /** The sort key of sortQuarterRowsForBracket's comparator. */
  function BracketKey(ranks: map<PlayerId, int>): PlayoffMatch -> (int, int) {
    m => (SeedIndex(m, ranks), m.matchNumber)
  }

  /**
   * A copy of the rows ordered by seed index, then by match number: a
   * permutation of the rows, with the unranked or unlisted ones last.
   */
  function SortQuarterRowsForBracket(rows: seq<PlayoffMatch>, ranks: map<PlayerId, int>): (r: seq<PlayoffMatch>)
    ensures multiset(r) == multiset(rows)
    ensures forall i, j :: 0 <= i < j < |r| ==>
              SeedIndex(r[i], ranks) < SeedIndex(r[j], ranks)
              || (SeedIndex(r[i], ranks) == SeedIndex(r[j], ranks) && r[i].matchNumber <= r[j].matchNumber)
  {
    var key := BracketKey(ranks);
    var r := SortBy(rows, key);
    assert forall i, j :: 0 <= i < j < |r| ==> LexLe(key(r[i]), key(r[j]));
    r
  }

  /** The order the view draws the four stored quarter-finals in. */
  function BracketOrder(qs: seq<PlayoffMatch>): seq<PlayoffMatch>
    requires |qs| == 4
  {
    [qs[0], qs[3], qs[1], qs[2]]
  }

  /** The drawn order and the stored order hold the same matches. */
  lemma BracketOrderIsPermutation(qs: seq<PlayoffMatch>)
    requires |qs| == 4
    ensures multiset(BracketOrder(qs)) == multiset(qs)
  {
    assert qs == [qs[0]] + [qs[1]] + [qs[2]] + [qs[3]];
    assert BracketOrder(qs) == [qs[0]] + [qs[3]] + [qs[1]] + [qs[2]];
  }

  /** ranks gives the eight qualifiers, in order, the ranks 1 to 8. */
  ghost predicate RanksInOrder(top: seq<PlayerId>, ranks: map<PlayerId, int>) {
    |top| == Qualifiers && forall i :: 0 <= i < Qualifiers ==> top[i] in ranks && ranks[top[i]] == i + 1
  }

  /** rankMap over a standings list with one record per player ranks its first eight in order. */
  lemma RankMapRanksTop(standings: seq<Standing>)
    requires |standings| >= Qualifiers && IdsDistinct(standings)
    ensures RanksInOrder(TopIds(standings, Qualifiers), RankMap(standings))
  {
    RankMapDistinct(standings);
  }

  /** The ranks the view gives the seats of the generated quarter-finals: match k+1 is rank k+1 against rank 8-k. */
  lemma QuarterFinalRanks(top: seq<PlayerId>, ranks: map<PlayerId, int>)
    requires RanksInOrder(top, ranks)
    ensures var qs := QuarterFinals(top);
            forall k :: 0 <= k < 4 ==>
              && qs[k].player1 in ranks && qs[k].player2 in ranks
              && ranks[qs[k].player1] == k + 1 && ranks[qs[k].player2] == Qualifiers - k
  {
  }

  /** A lower seed of 1, 2, 3 or 4 is drawn at place 0, 2, 3 or 1. */
  lemma SeedIndexOfRank(row: PlayoffMatch, ranks: map<PlayerId, int>, k: int)
    requires 0 <= k < 4
    requires row.player1 in ranks && row.player2 in ranks
    requires ranks[row.player1] == k + 1 && ranks[row.player2] == Qualifiers - k
    ensures SeedIndex(row, ranks) == [0, 2, 3, 1][k]
  {
    var r := SeedIndex(row, ranks);
    assert Min(ranks[row.player1], ranks[row.player2]) == k + 1;
    assert DesiredSeedOrder[[0, 2, 3, 1][k]] == k + 1;
    assert r != MaxSafeInteger;
    assert DesiredSeedOrder[r] == k + 1;
  }

  /** The bracket keys of the four generated quarter-finals, taken in drawn order: seed index 0 to 3, then match number. */
  lemma DrawnKeys(top: seq<PlayerId>, ranks: map<PlayerId, int>)
    requires RanksInOrder(top, ranks)
    ensures var want := BracketOrder(QuarterFinals(top));
            var key := BracketKey(ranks);
            key(want[0]) == (0, 1) && key(want[1]) == (1, 4) && key(want[2]) == (2, 2) && key(want[3]) == (3, 3)
  {
    var qs := QuarterFinals(top);
    QuarterFinalRanks(top, ranks);
    var key := BracketKey(ranks);
    forall k | 0 <= k < 4 ensures key(qs[k]) == ([0, 2, 3, 1][k], k + 1) {
      SeedIndexOfRank(qs[k], ranks, k);
    }
  }

  /** The drawn order is sorted by the view's key, and no two of its rows share a key. */
  lemma DrawnOrderStrictlySorted(top: seq<PlayerId>, ranks: map<PlayerId, int>)
    requires RanksInOrder(top, ranks)
    ensures SortedBy(BracketOrder(QuarterFinals(top)), BracketKey(ranks))
    ensures KeysDistinct(BracketOrder(QuarterFinals(top)), BracketKey(ranks))
  {
    var want, key := BracketOrder(QuarterFinals(top)), BracketKey(ranks);
    DrawnKeys(top, ranks);
    assert LexLt(key(want[0]), key(want[1])) && LexLt(key(want[1]), key(want[2])) && LexLt(key(want[2]), key(want[3]));
    StrictlySorted(want, key);
  }

  /**
   * The quarter-finals generatePlayoffBracket stores as 1v8, 2v7, 3v6, 4v5 are
   * drawn as 1v8, 4v5, 2v7, 3v6 when the view ranks the qualifiers in the same order.
   */
  lemma QuarterFinalsDrawnInBracketOrder(top: seq<PlayerId>, ranks: map<PlayerId, int>)
    requires RanksInOrder(top, ranks)
    ensures SortQuarterRowsForBracket(QuarterFinals(top), ranks) == BracketOrder(QuarterFinals(top))
  {
    var qs := QuarterFinals(top);
    var key := BracketKey(ranks);
    var want := BracketOrder(qs);
    DrawnOrderStrictlySorted(top, ranks);
    BracketOrderIsPermutation(qs);
    var sorted := SortBy(qs, key);
    SortedPermutationUnique(want, sorted, key);
    assert sorted == want;
  }

  /** In the drawn order the seeds are 1v8, 4v5, 2v7, 3v6. */
  lemma BracketOrderSeeds(top: seq<PlayerId>, ranks: map<PlayerId, int>)
    requires RanksInOrder(top, ranks)
    ensures var v := BracketOrder(QuarterFinals(top));
            forall k :: 0 <= k < 4 ==>
              && v[k].player1 in ranks && v[k].player2 in ranks
              && ranks[v[k].player1] == DesiredSeedOrder[k]
              && ranks[v[k].player2] == Qualifiers + 1 - DesiredSeedOrder[k]
  {
    var qs := QuarterFinals(top);
    QuarterFinalRanks(top, ranks);
    var v := BracketOrder(qs);
    assert v[0] == qs[0] && v[1] == qs[3] && v[2] == qs[1] && v[3] == qs[2];
  }

  /** The pairing predicted during the league is the one later drawn from the generated quarter-finals. */
  lemma PredictionMatchesBracket(standings: seq<Standing>)
    requires |standings| >= Qualifiers
    ensures var p := PredictedUpTo(Probable(standings), 4);
            var v := BracketOrder(QuarterFinals(TopIds(standings, Qualifiers)));
            |p| == |v| == 4 &&
            forall k :: 0 <= k < 4 ==> p[k].player1.id == v[k].player1 && p[k].player2.id == v[k].player2
  {
    var pr := Probable(standings);
    var top := TopIds(standings, Qualifiers);
    var qs := QuarterFinals(top);
    PredictedFull(pr);
    var v := BracketOrder(qs);
    assert v[0] == qs[0] && v[1] == qs[3] && v[2] == qs[1] && v[3] == qs[2];
  }

  /**
   * End to end: when the view is given the ranked table (distinct players), the
   * quarter-finals it predicts during the league are the ones it later draws from
   * the stored bracket, pairing by pairing and seat by seat.
   */
  lemma ViewDrawsPrediction(table: seq<Standing>)
    requires |table| >= Qualifiers && IdsDistinct(table)
    ensures PlayoffBracket(table).Success?
    ensures var ranked := Ranked(table);
            var p := PredictedUpTo(Probable(ranked), 4);
            var drawn := SortQuarterRowsForBracket(PlayoffBracket(table).value, RankMap(ranked));
            |p| == |drawn| == 4 &&
            forall k :: 0 <= k < 4 ==> p[k].player1.id == drawn[k].player1 && p[k].player2.id == drawn[k].player2
  {
    var ranked := Ranked(table);
    PlayoffBracketOfTop(table);
    PermutationKeepsIdsDistinct(table, ranked);
    DrawnIsPredicted(ranked);
  }

  /** For a table with distinct players, the drawn quarter-finals of its first eight are the predicted ones. */
  lemma DrawnIsPredicted(standings: seq<Standing>)
    requires |standings| >= Qualifiers && IdsDistinct(standings)
    ensures var p := PredictedUpTo(Probable(standings), 4);
            var drawn := SortQuarterRowsForBracket(QuarterFinals(TopIds(standings, Qualifiers)), RankMap(standings));
            |p| == |drawn| == 4 &&
            forall k :: 0 <= k < 4 ==> p[k].player1.id == drawn[k].player1 && p[k].player2.id == drawn[k].player2
  {
    var top := TopIds(standings, Qualifiers);
    RankMapRanksTop(standings);
    QuarterFinalsDrawnInBracketOrder(top, RankMap(standings));
    PredictionMatchesBracket(standings);
  }

  // ---------------------------------------------------------------------
  // MatchBox

  /**
   * Which of the two players a match box marks as winner: only with both scores
   * present, and only the strictly higher one.
   */
  function WinnerFlags(score1: Option<int>, score2: Option<int>): (r: (bool, bool))
    ensures r.0 <==> score1.Some? && score2.Some? && score1.value > score2.value
    ensures r.1 <==> score1.Some? && score2.Some? && score2.value > score1.value
    ensures !(r.0 && r.1)
    ensures score1 == score2 ==> !r.0 && !r.1
    ensures score1.Some? && score2.Some? && score1 != score2 ==> r.0 != r.1
  {
    var hasScores := score1.Some? && score2.Some?;
    (hasScores && score1.value > score2.value, hasScores && score2.value > score1.value)
  }
}
