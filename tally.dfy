/**
 * Counting ingredient occurrences.
 *
 * Every part of the order-rules engine turns a list of ingredient ids, where
 * repetition means quantity, into a dictionary id -> number of occurrences
 * (`counts[id] = (counts[id] || 0) + 1` inside a `forEach`), and then walks the
 * keys of that dictionary.  JavaScript enumerates the array-index keys of a
 * plain object (integers below 2^32 - 1) in ascending numeric order, so the
 * distinct ids are modelled as the strictly increasing sequence
 * `SortedDistinct(ids)`; larger ids would follow in insertion order.
 */
module Tally {

  /** Number of occurrences of `x` in `s`. */
  function Count(s: seq<nat>, x: nat): (n: nat)
    ensures n <= |s|
    ensures n > 0 <==> x in s
  {
    if s == [] then 0
    else
      var init := s[..|s| - 1];
      assert s == init + [s[|s| - 1]];
      Count(init, x) + (if s[|s| - 1] == x then 1 else 0)
  }

  lemma CountAppend(s: seq<nat>, y: nat, x: nat)
    ensures Count(s + [y], x) == Count(s, x) + (if y == x then 1 else 0)
  {
    assert (s + [y])[..|s|] == s;
  }

  /** Strictly increasing: sorted and free of duplicates. */
  predicate Increasing(s: seq<nat>)
  {
    forall i, j :: 0 <= i < j < |s| ==> s[i] < s[j]
  }

  /** Inserts `x` into a strictly increasing sequence unless it is already there. */
  function Insert(s: seq<nat>, x: nat): (r: seq<nat>)
    requires Increasing(s)
    ensures Increasing(r)
    ensures forall y :: y in r <==> y in s || y == x
  {
    if s == [] then [x]
    else if x < s[0] then [x] + s
    else if x == s[0] then s
    else
      var rest := Insert(s[1..], x);
      WithLeast(s[0], rest);
      [s[0]] + rest
  }

  /** A value below every element of a strictly increasing sequence can head it. */
  lemma WithLeast(h: nat, r: seq<nat>)
    requires Increasing(r) && forall y :: y in r ==> h < y
    ensures Increasing([h] + r)
  {
    var hr := [h] + r;
    forall i, j | 0 <= i < j < |hr|
      ensures hr[i] < hr[j]
    {
      assert hr[j] == r[j - 1];
      if i > 0 {
        assert hr[i] == r[i - 1];
      } else {
        assert r[j - 1] in r;
      }
    }
  }

  /** The distinct elements of `s` in ascending order: the keys of the counts dictionary. */
  function SortedDistinct(s: seq<nat>): (r: seq<nat>)
    ensures Increasing(r)
    ensures forall y :: y in r <==> y in s
  {
    if s == [] then []
    else
      var init := s[..|s| - 1];
      assert s == init + [s[|s| - 1]];
      Insert(SortedDistinct(init), s[|s| - 1])
  }

  /** The head of a strictly increasing sequence is its least element. */
  lemma HeadIsLeast(a: seq<nat>, y: nat)
    requires Increasing(a) && y in a
    ensures a[0] <= y
  {
    var k :| 0 <= k < |a| && a[k] == y;
    if k > 0 {
      assert a[0] < a[k];
    }
  }

  lemma EmptyTogether(a: seq<nat>, b: seq<nat>)
    requires forall y :: y in a <==> y in b
    ensures a == [] <==> b == []
  {
    if a != [] {
      assert a[0] in a;
    }
    if b != [] {
      assert b[0] in b;
    }
  }

  /** Two strictly increasing sequences with the same elements are equal. */
  lemma {:induction false} IncreasingUnique(a: seq<nat>, b: seq<nat>)
    requires Increasing(a) && Increasing(b)
    requires forall y :: y in a <==> y in b
    ensures a == b
  {
    EmptyTogether(a, b);
    if a != [] {
      HeadIsLeast(b, a[0]);
      HeadIsLeast(a, b[0]);
      assert a == [a[0]] + a[1..];
      assert b == [b[0]] + b[1..];
      forall y
        ensures y in a[1..] <==> y in b[1..]
      {
        if y in a[1..] {
          var j :| 0 <= j < |a| - 1 && a[1..][j] == y;
          assert a[0] < a[j + 1];
          assert y in b && y != b[0];
        }
        if y in b[1..] {
          var j :| 0 <= j < |b| - 1 && b[1..][j] == y;
          assert b[0] < b[j + 1];
          assert y in a && y != a[0];
        }
      }
      IncreasingUnique(a[1..], b[1..]);
    }
  }

  /** The keys depend only on which ids occur, not on their order or repetition. */
  lemma {:induction false} SortedDistinctBySet(s: seq<nat>, s': seq<nat>)
    requires forall y :: y in s <==> y in s'
    ensures SortedDistinct(s) == SortedDistinct(s')
  {
    IncreasingUnique(SortedDistinct(s), SortedDistinct(s'));
  }

  /**
   * The `forEach` that builds the counts dictionary (the same loop appears at
   * every place that groups ingredient ids).
   */
  method CountIngredients(ids: seq<nat>) returns (counts: map<nat, nat>)
    ensures forall x :: x in counts <==> x in ids
    ensures forall x :: x in counts ==> counts[x] == Count(ids, x) && counts[x] >= 1
  {
    counts := map[];
    for i := 0 to |ids|
      invariant forall x :: x in counts <==> x in ids[..i]
      invariant forall x :: x in counts ==> counts[x] == Count(ids[..i], x)
    {
      var id := ids[i];
      assert ids[..i + 1] == ids[..i] + [id];
      forall x
        ensures Count(ids[..i + 1], x) == Count(ids[..i], x) + (if id == x then 1 else 0)
      {
        CountAppend(ids[..i], id, x);
      }
      counts := counts[id := (if id in counts then counts[id] else 0) + 1];
    }
    assert ids[..|ids|] == ids;
  }

  /** Sum of `f` over the elements of `s`, one term per occurrence. */
  function SumBy(s: seq<nat>, f: nat -> nat): nat
  {
    if s == [] then 0 else SumBy(s[..|s| - 1], f) + f(s[|s| - 1])
  }

  /** Sum over the keys `keys` of `f(k)` times the number of occurrences of `k` in `s`. */
  function Weighted(keys: seq<nat>, s: seq<nat>, f: nat -> nat): nat
  {
    if keys == [] then 0
    else Weighted(keys[..|keys| - 1], s, f) + Term(f, keys[|keys| - 1], s)
  }

  function One(x: nat): nat { 1 }

  lemma {:induction false} WeightedOfEmpty(keys: seq<nat>, f: nat -> nat)
    ensures Weighted(keys, [], f) == 0
  {
    if keys != [] {
      WeightedOfEmpty(keys[..|keys| - 1], f);
    }
  }

  /** The contribution of key `k`: its weight times its number of occurrences. */
  function Term(f: nat -> nat, k: nat, s: seq<nat>): nat
  {
    f(k) * Count(s, k)
  }

  lemma TermStep(f: nat -> nat, k: nat, s: seq<nat>, y: nat)
    ensures Term(f, k, s + [y]) == Term(f, k, s) + (if y == k then f(k) else 0)
  {
    CountAppend(s, y, k);
    ScaleStep(f(k), Count(s, k), Count(s + [y], k), y == k);
  }

  /** Multiplying by one more adds one more copy. */
  lemma ScaleStep(w: nat, c: nat, c': nat, bump: bool)
    requires c' == c + (if bump then 1 else 0)
    ensures w * c' == w * c + (if bump then w else 0)
  {
    if bump {
      assert w * (c + 1) == w * c + w;
    }
  }

  lemma {:induction false} WeightedStep(keys: seq<nat>, s: seq<nat>, y: nat, f: nat -> nat)
    requires Increasing(keys)
    ensures Weighted(keys, s + [y], f) == Weighted(keys, s, f) + (if y in keys then f(y) else 0)
  {
    if keys != [] {
      var init, last := keys[..|keys| - 1], keys[|keys| - 1];
      assert keys == init + [last];
      WeightedStep(init, s, y, f);
      TermStep(f, last, s, y);
    }
  }

  /**
   * Grouping by id does not change a per-occurrence sum: summing `f(k) * count(k)`
   * over the distinct keys equals summing `f` over every occurrence, as long as
   * every element with a nonzero weight is among the keys.
   */
  lemma {:induction false} Regroup(keys: seq<nat>, s: seq<nat>, f: nat -> nat)
    requires Increasing(keys)
    requires forall x :: x in s ==> x in keys || f(x) == 0
    ensures Weighted(keys, s, f) == SumBy(s, f)
  {
    if s == [] {
      WeightedOfEmpty(keys, f);
    } else {
      var init, last := s[..|s| - 1], s[|s| - 1];
      assert s == init + [last];
      Regroup(keys, init, f);
      WeightedStep(keys, init, last, f);
    }
  }

  lemma {:induction false} SumOfOnes(s: seq<nat>)
    ensures SumBy(s, One) == |s|
  {
    if s != [] {
      SumOfOnes(s[..|s| - 1]);
    }
  }

  /** The occurrence counts of the distinct ids sum to the length of the list. */
  lemma CountsSumToLength(ids: seq<nat>)
    ensures Weighted(SortedDistinct(ids), ids, One) == |ids|
  {
    Regroup(SortedDistinct(ids), ids, One);
    SumOfOnes(ids);
  }
}
