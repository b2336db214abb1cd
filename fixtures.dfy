/**
 * Round-robin fixture generation (lib/tournament-utils.ts, generateRoundRobinFixtures).
 * Positions are 0-based indexes into the ordered player list; a fixture is the
 * pair of players at two positions i < j, produced by the outer loop over i and
 * the inner loop over j.
 */
module Fixtures {
  import opened Records

  /** Row i of the nested loop: the pairs (i, i+1), ..., (i, n-1). */
  function IndexRow(n: nat, i: nat): (r: seq<(int, int)>)
    requires i < n
  {
    seq(n - 1 - i, k => (i, i + 1 + k))
  }

  /** The pairs the loop has produced once the outer index reaches i. */
  function IndexPairsBefore(n: nat, i: nat): seq<(int, int)>
    requires i <= n
  {
    if i == 0 then [] else IndexPairsBefore(n, i - 1) + IndexRow(n, i - 1)
  }

  /** All position pairs the generator visits for n players, in visiting order. */
  function IndexPairs(n: nat): seq<(int, int)> {
    IndexPairsBefore(n, n)
  }

  predicate PositionsInRange(pairs: seq<(int, int)>, n: nat) {
    forall k :: 0 <= k < |pairs| ==> 0 <= pairs[k].0 < n && 0 <= pairs[k].1 < n
  }

  /** Some visited pair is (a, b). */
  predicate Visits(pairs: seq<(int, int)>, a: int, b: int) {
    exists k :: 0 <= k < |pairs| && pairs[k] == (a, b)
  }

  /** Some fixture meets x and y, in either orientation. */
  predicate Meets<T(==)>(f: seq<(T, T)>, x: T, y: T) {
    exists k :: 0 <= k < |f| && SameUnorderedPair(f[k], (x, y))
  }

  /** Strict lexicographic order on position pairs. */
  predicate PairLt(p: (int, int), q: (int, int)) {
    p.0 < q.0 || (p.0 == q.0 && p.1 < q.1)
  }

  /** The fixture list the generator returns: the players at each visited pair of positions. */
  function RoundRobin(players: seq<PlayerId>): (f: seq<(PlayerId, PlayerId)>)
  {
    var pairs := IndexPairs(|players|);
    IndexPairsShape(|players|, |players|);
    seq(|pairs|, k requires 0 <= k < |pairs| => (players[pairs[k].0], players[pairs[k].1]))
  }

  /** Two fixtures meet the same two players, in either orientation. */
  predicate SameUnorderedPair<T(==)>(p: (T, T), q: (T, T)) {
    p == q || p == (q.1, q.0)
  }

  predicate Distinct<T(==)>(s: seq<T>) {
    forall i, j :: 0 <= i < j < |s| ==> s[i] != s[j]
  }

  // ---------------------------------------------------------------------
  // The generator itself: a nested loop appending to a fixture list.

  method GenerateRoundRobinFixtures(players: seq<PlayerId>) returns (fixtures: seq<(PlayerId, PlayerId)>)
    ensures fixtures == RoundRobin(players)
    ensures 2 * |fixtures| == |players| * (|players| - 1)
  {
    fixtures := [];
    var n := |players|;
    var i := 0;
    while i < n
      invariant 0 <= i <= n
      invariant PositionsInRange(IndexPairsBefore(n, i), n)
      invariant |fixtures| == |IndexPairsBefore(n, i)|
      invariant forall k :: 0 <= k < |fixtures| ==>
                  fixtures[k] == (players[IndexPairsBefore(n, i)[k].0], players[IndexPairsBefore(n, i)[k].1])
    {
      ghost var done := IndexPairsBefore(n, i);
      var j := i + 1;
      while j < n
        invariant i + 1 <= j <= n
        invariant PositionsInRange(done, n)
        invariant |fixtures| == |done| + (j - i - 1)
        invariant forall k :: 0 <= k < |done| ==> fixtures[k] == (players[done[k].0], players[done[k].1])
        invariant forall k :: |done| <= k < |fixtures| ==> fixtures[k] == (players[i], players[i + 1 + k - |done|])
      {
        fixtures := fixtures + [(players[i], players[j])];
        j := j + 1;
      }
      RowAppended(players, i, fixtures);
      i := i + 1;
    }
    IndexPairsLength(n, n);
  }

  /** Once row i is appended, the fixtures are the players at the pairs visited before row i + 1. */
  lemma RowAppended(players: seq<PlayerId>, i: nat, fixtures: seq<(PlayerId, PlayerId)>)
    requires i < |players|
    requires PositionsInRange(IndexPairsBefore(|players|, i), |players|)
    requires |fixtures| == |IndexPairsBefore(|players|, i)| + (|players| - i - 1)
    requires forall k :: 0 <= k < |IndexPairsBefore(|players|, i)| ==>
               fixtures[k] == (players[IndexPairsBefore(|players|, i)[k].0], players[IndexPairsBefore(|players|, i)[k].1])
    requires forall k :: |IndexPairsBefore(|players|, i)| <= k < |fixtures| ==>
               fixtures[k] == (players[i], players[i + 1 + k - |IndexPairsBefore(|players|, i)|])
    ensures PositionsInRange(IndexPairsBefore(|players|, i + 1), |players|)
    ensures |fixtures| == |IndexPairsBefore(|players|, i + 1)|
    ensures forall k :: 0 <= k < |fixtures| ==>
              fixtures[k] == (players[IndexPairsBefore(|players|, i + 1)[k].0], players[IndexPairsBefore(|players|, i + 1)[k].1])
  {
    var n := |players|;
    var done, row := IndexPairsBefore(n, i), IndexRow(n, i);
    var next := IndexPairsBefore(n, i + 1);
    assert next == done + row;
    IndexPairsShape(n, i + 1);
    forall k | 0 <= k < |fixtures|
      ensures fixtures[k] == (players[next[k].0], players[next[k].1])
    {
      if k < |done| {
        assert next[k] == done[k];
      } else {
        assert next[k] == row[k - |done|] == (i, i + 1 + k - |done|);
      }
    }
  }

  // ---------------------------------------------------------------------
  // What the visiting order is.

  /** Half of twice the count: i rows of lengths n-1, n-2, ..., n-i. */
  lemma {:induction false} IndexPairsLength(n: nat, i: nat)
    requires i <= n
    ensures 2 * |IndexPairsBefore(n, i)| == i * (2 * n - i - 1)
  {
    if i > 0 {
      IndexPairsLength(n, i - 1);
      assert |IndexRow(n, i - 1)| == n - i;
      assert (i - 1) * (2 * n - (i - 1) - 1) + 2 * (n - i) == i * (2 * n - i - 1);
    }
  }

  /** Every visited pair (a, b) has a < b < n, and a is below the outer index reached. */
  lemma {:induction false} IndexPairsShape(n: nat, i: nat)
    requires i <= n
    ensures forall k :: 0 <= k < |IndexPairsBefore(n, i)| ==>
              0 <= IndexPairsBefore(n, i)[k].0 < i && IndexPairsBefore(n, i)[k].0 < IndexPairsBefore(n, i)[k].1 < n
  {
    if i > 0 {
      IndexPairsShape(n, i - 1);
    }
  }

  /** Pairs are visited in strictly increasing lexicographic order. */
  lemma {:induction false} IndexPairsIncreasing(n: nat, i: nat)
    requires i <= n
    ensures forall k1, k2 :: 0 <= k1 < k2 < |IndexPairsBefore(n, i)| ==>
              PairLt(IndexPairsBefore(n, i)[k1], IndexPairsBefore(n, i)[k2])
  {
    if i > 0 {
      IndexPairsIncreasing(n, i - 1);
      IndexPairsShape(n, i - 1);
      var prev, row := IndexPairsBefore(n, i - 1), IndexRow(n, i - 1);
      assert IndexPairsBefore(n, i) == prev + row;
      forall k1, k2 | 0 <= k1 < k2 < |prev + row| ensures PairLt((prev + row)[k1], (prev + row)[k2]) {
        if k2 < |prev| {
        } else if k1 < |prev| {
          assert (prev + row)[k1] == prev[k1];
        } else {
          assert (prev + row)[k1] == row[k1 - |prev|];
        }
      }
    }
  }

  /** Every pair of positions a < b < n is visited, at a known place. */
  lemma {:induction false} IndexPairsComplete(n: nat, i: nat, a: int, b: int)
    requires i <= n && 0 <= a < i && a < b < n
    ensures Visits(IndexPairsBefore(n, i), a, b)
  {
    var prev := IndexPairsBefore(n, i - 1);
    var row := IndexRow(n, i - 1);
    assert IndexPairsBefore(n, i) == prev + row;
    if a < i - 1 {
      IndexPairsComplete(n, i - 1, a, b);
      var k :| 0 <= k < |prev| && prev[k] == (a, b);
      assert (prev + row)[k] == (a, b);
    } else {
      var k := |prev| + (b - a - 1);
      assert (prev + row)[k] == row[b - a - 1] == (a, b);
    }
  }

  // ---------------------------------------------------------------------
  // What this means for the fixtures.

  /** n players give n(n-1)/2 fixtures, the first player always at the lower position,
      in lexicographic order of positions, and every pair of positions exactly once. */
  lemma RoundRobinPositions(players: seq<PlayerId>)
    ensures 2 * |RoundRobin(players)| == |players| * (|players| - 1)
    ensures |RoundRobin(players)| == |IndexPairs(|players|)|
    ensures forall k :: 0 <= k < |IndexPairs(|players|)| ==>
              0 <= IndexPairs(|players|)[k].0 < IndexPairs(|players|)[k].1 < |players|
    ensures forall k1, k2 :: 0 <= k1 < k2 < |IndexPairs(|players|)| ==>
              PairLt(IndexPairs(|players|)[k1], IndexPairs(|players|)[k2])
    ensures forall a, b :: 0 <= a < b < |players| ==> Visits(IndexPairs(|players|), a, b)
  {
    var n := |players|;
    IndexPairsLength(n, n);
    IndexPairsShape(n, n);
    IndexPairsIncreasing(n, n);
    forall a, b | 0 <= a < b < n ensures Visits(IndexPairs(n), a, b) {
      assert IndexPairs(n) == IndexPairsBefore(n, n);
      IndexPairsComplete(n, n, a, b);
    }
  }

  /** With distinct players: nobody meets themself, no two fixtures meet the same
      two players (in either orientation), and every two players meet. */
  lemma RoundRobinEachPairOnce(players: seq<PlayerId>)
    requires Distinct(players)
    ensures forall k :: 0 <= k < |RoundRobin(players)| ==> RoundRobin(players)[k].0 != RoundRobin(players)[k].1
    ensures forall k1, k2 :: 0 <= k1 < k2 < |RoundRobin(players)| ==>
              !SameUnorderedPair(RoundRobin(players)[k1], RoundRobin(players)[k2])
    ensures forall a, b :: 0 <= a < |players| && 0 <= b < |players| && a != b ==>
              Meets(RoundRobin(players), players[a], players[b])
  {
    var n := |players|;
    var f, pairs := RoundRobin(players), IndexPairs(n);
    RoundRobinPositions(players);
    forall k1, k2 | 0 <= k1 < k2 < |f| ensures !SameUnorderedPair(f[k1], f[k2]) {
      assert PairLt(pairs[k1], pairs[k2]);
    }
    forall a, b | 0 <= a < n && 0 <= b < n && a != b ensures Meets(f, players[a], players[b]) {
      var lo, hi := if a < b then a else b, if a < b then b else a;
      assert Visits(pairs, lo, hi);
      var k :| 0 <= k < |pairs| && pairs[k] == (lo, hi);
      assert SameUnorderedPair(f[k], (players[a], players[b]));
    }
  }
}
