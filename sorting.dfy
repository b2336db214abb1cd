/**
 * A stable insertion sort by an integer-pair key compared lexicographically.
 * It stands for the three orderings the system relies on: the store's
 * `order by points desc, crown_difference desc`, the bracket view's sort by
 * match number and its sort by seed position.  JavaScript's Array.prototype.sort
 * is stable, and so is this one.
 */
module Sorting {

  /** Lexicographic order on integer pairs. */
  predicate LexLe(a: (int, int), b: (int, int)) {
    a.0 < b.0 || (a.0 == b.0 && a.1 <= b.1)
  }

  predicate LexLt(a: (int, int), b: (int, int)) {
    a.0 < b.0 || (a.0 == b.0 && a.1 < b.1)
  }

  predicate SortedBy<T>(s: seq<T>, key: T -> (int, int)) {
    forall i, j :: 0 <= i < j < |s| ==> LexLe(key(s[i]), key(s[j]))
  }

  /** Places `x` after every leading element whose key is not larger, so equal keys keep their order. */
  function Insert<T>(x: T, s: seq<T>, key: T -> (int, int)): (r: seq<T>)
    ensures |r| == |s| + 1
    ensures r[0] == x || (|s| > 0 && r[0] == s[0])
  {
    if |s| == 0 then [x]
    else if LexLt(key(x), key(s[0])) then [x] + s
    else [s[0]] + Insert(x, s[1..], key)
  }

  /** Insertion adds exactly x. */
  lemma {:induction false} InsertPermutes<T>(x: T, s: seq<T>, key: T -> (int, int))
    ensures multiset(Insert(x, s, key)) == multiset(s) + multiset{x}
  {
    if |s| > 0 && !LexLt(key(x), key(s[0])) {
      InsertPermutes(x, s[1..], key);
      assert s == [s[0]] + s[1..];
    }
  }

  /** Inserting into a sorted sequence keeps it sorted. */
  lemma {:induction false} InsertSorted<T>(x: T, s: seq<T>, key: T -> (int, int))
    requires SortedBy(s, key)
    ensures SortedBy(Insert(x, s, key), key)
  {
    if |s| > 0 && !LexLt(key(x), key(s[0])) {
      var t := Insert(x, s[1..], key);
      InsertSorted(x, s[1..], key);
      assert |s| > 1 ==> LexLe(key(s[0]), key(s[1]));
      assert LexLe(key(s[0]), key(t[0]));
    }
  }

  /** Sorts `s` ascending by `key`; the result is a permutation of `s`. */
  function SortBy<T>(s: seq<T>, key: T -> (int, int)): (r: seq<T>)
    ensures |r| == |s|
    ensures multiset(r) == multiset(s)
    ensures SortedBy(r, key)
  {
    if |s| == 0 then []
    else
      var init, last := s[..|s| - 1], s[|s| - 1];
      assert s == init + [last];
      var sorted := SortBy(init, key);
      InsertPermutes(last, sorted, key);
      InsertSorted(last, sorted, key);
      Insert(last, sorted, key)
  }

  // ---------------------------------------------------------------------
  // stability

  /** The elements of s whose key is kv, in their order in s. */
  function KeyRun<T>(s: seq<T>, key: T -> (int, int), kv: (int, int)): (r: seq<T>)
    ensures |r| <= |s|
    ensures forall x :: x in r ==> x in s && key(x) == kv
  {
    if |s| == 0 then []
    else (if key(s[0]) == kv then [s[0]] else []) + KeyRun(s[1..], key, kv)
  }

  lemma {:induction false} KeyRunAppend<T>(a: seq<T>, b: seq<T>, key: T -> (int, int), kv: (int, int))
    ensures KeyRun(a + b, key, kv) == KeyRun(a, key, kv) + KeyRun(b, key, kv)
  {
    if |a| > 0 {
      assert (a + b)[1..] == a[1..] + b;
      KeyRunAppend(a[1..], b, key, kv);
    } else {
      assert a + b == b;
    }
  }

  /** No element has key kv: the run is empty. */
  lemma {:induction false} KeyRunNone<T>(s: seq<T>, key: T -> (int, int), kv: (int, int))
    requires forall i :: 0 <= i < |s| ==> key(s[i]) != kv
    ensures KeyRun(s, key, kv) == []
  {
    if |s| > 0 {
      assert forall i :: 0 <= i < |s| - 1 ==> s[1..][i] == s[i + 1];
      KeyRunNone(s[1..], key, kv);
    }
  }

  /** Inserting x into a sorted sequence puts x after every element with its key. */
  lemma {:induction false} InsertStable<T>(x: T, t: seq<T>, key: T -> (int, int), kv: (int, int))
    requires SortedBy(t, key)
    ensures KeyRun(Insert(x, t, key), key, kv) == KeyRun(t, key, kv) + (if key(x) == kv then [x] else [])
  {
    var tail := if key(x) == kv then [x] else [];
    if |t| == 0 {
      assert KeyRun([x], key, kv) == tail + KeyRun([x][1..], key, kv);
    } else if LexLt(key(x), key(t[0])) {
      assert Insert(x, t, key) == [x] + t;
      assert ([x] + t)[1..] == t;
      if key(x) == kv {
        assert forall i :: 0 <= i < |t| ==> LexLe(key(t[0]), key(t[i]));
        KeyRunNone(t, key, kv);
      }
    } else {
      var rest := t[1..];
      assert SortedBy(rest, key) by {
        assert forall i :: 0 <= i < |rest| ==> rest[i] == t[i + 1];
      }
      InsertStable(x, rest, key, kv);
      var ins := Insert(x, t, key);
      assert ins == [t[0]] + Insert(x, rest, key);
      assert ins[1..] == Insert(x, rest, key);
    }
  }

  /** The run of a one-element list. */
  lemma KeyRunSingle<T>(x: T, key: T -> (int, int), kv: (int, int))
    ensures KeyRun([x], key, kv) == if key(x) == kv then [x] else []
  {
    assert KeyRun([x], key, kv) == (if key(x) == kv then [x] else []) + KeyRun([x][1..], key, kv);
  }

  /** SortBy is stable: for every key, the elements with that key keep their relative order. */
  lemma {:induction false} SortByStable<T>(s: seq<T>, key: T -> (int, int), kv: (int, int))
    ensures KeyRun(SortBy(s, key), key, kv) == KeyRun(s, key, kv)
  {
    if |s| > 0 {
      var init, last := s[..|s| - 1], s[|s| - 1];
      var sorted := SortBy(init, key);
      var single := if key(last) == kv then [last] else [];
      calc {
        KeyRun(SortBy(s, key), key, kv);
        { SortByLast(s, key); }
        KeyRun(Insert(last, sorted, key), key, kv);
        { InsertStable(last, sorted, key, kv); }
        KeyRun(sorted, key, kv) + single;
        { SortByStable(init, key, kv); KeyRunSingle(last, key, kv); }
        KeyRun(init, key, kv) + KeyRun([last], key, kv);
        { KeyRunAppend(init, [last], key, kv); }
        KeyRun(init + [last], key, kv);
        { assert s == init + [last]; }
        KeyRun(s, key, kv);
      }
    }
  }

  /** SortBy inserts the last element into the sorted rest. */
  lemma SortByLast<T>(s: seq<T>, key: T -> (int, int))
    requires |s| > 0
    ensures SortBy(s, key) == Insert(s[|s| - 1], SortBy(s[..|s| - 1], key), key)
  {
  }

  /** The head of a sorted sequence has the least key of all its elements. */
  lemma HeadLeast<T>(s: seq<T>, key: T -> (int, int), y: T)
    requires SortedBy(s, key) && |s| > 0 && y in s
    ensures LexLe(key(s[0]), key(y))
  {
    var k :| 0 <= k < |s| && s[k] == y;
    if k > 0 { assert LexLe(key(s[0]), key(s[k])); }
  }

  ghost predicate KeysDistinct<T>(s: seq<T>, key: T -> (int, int)) {
    forall i, j :: 0 <= i < |s| && 0 <= j < |s| && s[i] != s[j] ==> key(s[i]) != key(s[j])
  }

  /** Keys that rise strictly from each element to the next rise strictly across the whole list. */
  lemma {:induction false} StrictlySorted<T>(s: seq<T>, key: T -> (int, int))
    requires forall i :: 0 <= i < |s| - 1 ==> LexLt(key(s[i]), key(s[i + 1]))
    ensures forall i, j :: 0 <= i < j < |s| ==> LexLt(key(s[i]), key(s[j]))
    ensures SortedBy(s, key) && KeysDistinct(s, key)
  {
    if |s| > 1 {
      var t := s[1..];
      forall i | 0 <= i < |t| - 1 ensures LexLt(key(t[i]), key(t[i + 1])) {
        assert t[i] == s[i + 1] && t[i + 1] == s[i + 2];
      }
      StrictlySorted(t, key);
      forall i, j | 0 <= i < j < |s| ensures LexLt(key(s[i]), key(s[j])) {
        if i > 0 {
          assert s[i] == t[i - 1] && s[j] == t[j - 1];
        } else if j > 1 {
          assert s[1] == t[0] && s[j] == t[j - 1];
        }
      }
    }
  }

  /** Equal multisets with equal heads have equal tails. */
  lemma MultisetTail<T>(a: seq<T>, b: seq<T>)
    requires |a| > 0 && |b| > 0 && a[0] == b[0] && multiset(a) == multiset(b)
    ensures multiset(a[1..]) == multiset(b[1..])
  {
    assert a == [a[0]] + a[1..];
    assert b == [b[0]] + b[1..];
    assert multiset(a[1..]) == multiset(a) - multiset{a[0]};
    assert multiset(b[1..]) == multiset(b) - multiset{b[0]};
  }

  /** A sorted permutation is unique when distinct elements have distinct
      keys: the sorted order is then forced. */
  lemma {:induction false} SortedPermutationUnique<T>(a: seq<T>, b: seq<T>, key: T -> (int, int))
    requires multiset(a) == multiset(b)
    requires SortedBy(a, key) && SortedBy(b, key)
    requires KeysDistinct(a, key)
    ensures a == b
    decreases |a|
  {
    assert |a| == |multiset(a)| == |b|;
    if |a| > 0 {
      assert b[0] in multiset(a);
      assert a[0] in multiset(b);
      HeadLeast(b, key, a[0]);
      HeadLeast(a, key, b[0]);
      var j :| 0 <= j < |a| && a[j] == b[0];
      assert key(a[0]) == key(a[j]);
      MultisetTail(a, b);
      var a', b' := a[1..], b[1..];
      assert KeysDistinct(a', key) by {
        forall i, k | 0 <= i < |a'| && 0 <= k < |a'| && a'[i] != a'[k] ensures key(a'[i]) != key(a'[k]) {
          assert a'[i] == a[i + 1] && a'[k] == a[k + 1];
        }
      }
      SortedPermutationUnique(a', b', key);
      assert a == [a[0]] + a';
      assert b == [b[0]] + b';
    }
  }
}
