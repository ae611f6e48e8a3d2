/** Counting facts about the pairs the samplers of `src/rand_indices.rs` return:
    how many valid pairs there are, and which they are in the scenarios the
    source's tests describe. */
module PairCounting {
  import opened RandIndices

  /** Every ordered pair `(i, j)` with `i < j < n`: the 2-subsets of `0..n`. */
  ghost function AllPairs(n: nat): set<(nat, nat)> {
    set i: nat, j: nat | i < j < n :: (i, j)
  }

  /** The pairs `(i, m)` with `i < k`. */
  ghost function Column(k: nat, m: nat): set<(nat, nat)> {
    set i: nat | i < k :: (i, m)
  }

  lemma {:induction false} ColumnCount(k: nat, m: nat)
    ensures |Column(k, m)| == k
  {
    if k > 0 {
      ColumnCount(k - 1, m);
      assert Column(k, m) == Column(k - 1, m) + {(k - 1, m)};
      assert (k - 1, m) !in Column(k - 1, m);
    } else {
      assert Column(k, m) == {};
    }
  }

  /** There are `n * (n - 1) / 2` two-element subsets of `0..n`. */
  lemma {:induction false} AllPairsCount(n: nat)
    ensures |AllPairs(n)| == n * (n - 1) / 2
  {
    if n == 0 {
      assert AllPairs(n) == {};
    } else {
      AllPairsCount(n - 1);
      ColumnCount(n - 1, n - 1);
      assert AllPairs(n) == AllPairs(n - 1) + Column(n - 1, n - 1);
      assert AllPairs(n - 1) * Column(n - 1, n - 1) == {};
      assert n * (n - 1) == (n - 1) * (n - 2) + 2 * (n - 1);
    }
  }

  /** The valid pairs are all 2-subsets but the denied one. */
  lemma ValidPairsAreAllButDenied(len: nat, deny: (nat, nat))
    requires InputsValid(len, deny)
    ensures Ordered(deny.0, deny.1) in AllPairs(len)
    ensures ValidPairs(len, deny) == AllPairs(len) - {Ordered(deny.0, deny.1)}
  {
  }

  /** Either sampler has `len * (len - 1) / 2 - 1` possible results. */
  lemma ValidPairsCount(len: nat, deny: (nat, nat))
    requires InputsValid(len, deny)
    ensures |ValidPairs(len, deny)| == len * (len - 1) / 2 - 1
    ensures |GoodSupport(len, deny)| == |ValidPairs(len, deny)| == |FastSupport(len, deny)|
  {
    ValidPairsAreAllButDenied(len, deny);
    AllPairsCount(len);
    GoodSupportIsValidPairs(len, deny);
    FastSupportIsValidPairs(len, deny);
  }

  /** The valid pairs in the scenarios of the source's tests. */
  lemma ScenarioPairs()
    ensures ValidPairs(3, (0, 2)) == {(0, 1), (1, 2)}
    ensures ValidPairs(4, (0, 3)) == {(0, 1), (0, 2), (1, 2), (1, 3), (2, 3)}
    ensures ValidPairs(4, (0, 2)) == {(0, 1), (0, 3), (1, 2), (1, 3), (2, 3)}
    ensures ValidPairs(5, (1, 2)) ==
            {(0, 1), (0, 2), (0, 3), (0, 4), (1, 3), (1, 4), (2, 3), (2, 4), (3, 4)}
  {
  }

  /** The sets of results the source's tests expect of both samplers: three
      indices with both ends denied, four with both ends denied, four with two
      non-adjacent indices denied, five with two adjacent indices denied. */
  lemma TestScenarios()
    ensures GoodSupport(3, (0, 2)) == FastSupport(3, (0, 2)) == {(0, 1), (1, 2)}
    ensures GoodSupport(4, (0, 3)) == FastSupport(4, (0, 3)) ==
            {(0, 1), (0, 2), (1, 2), (1, 3), (2, 3)}
    ensures GoodSupport(4, (0, 2)) == FastSupport(4, (0, 2)) ==
            {(0, 1), (0, 3), (1, 2), (1, 3), (2, 3)}
    ensures GoodSupport(5, (1, 2)) == FastSupport(5, (1, 2)) ==
            {(0, 1), (0, 2), (0, 3), (0, 4), (1, 3), (1, 4), (2, 3), (2, 4), (3, 4)}
  {
    ScenarioPairs();
    SamplersReturn(3, (0, 2), {(0, 1), (1, 2)});
    SamplersReturn(4, (0, 3), {(0, 1), (0, 2), (1, 2), (1, 3), (2, 3)});
    SamplersReturn(4, (0, 2), {(0, 1), (0, 3), (1, 2), (1, 3), (2, 3)});
    SamplersReturn(5, (1, 2), {(0, 1), (0, 2), (0, 3), (0, 4), (1, 3), (1, 4), (2, 3), (2, 4), (3, 4)});
  }

  /** Once the valid pairs are known, so are the possible results of both samplers. */
  lemma SamplersReturn(len: nat, deny: (nat, nat), expected: set<(nat, nat)>)
    requires InputsValid(len, deny) && ValidPairs(len, deny) == expected
    ensures GoodSupport(len, deny) == FastSupport(len, deny) == expected
  {
    GoodSupportIsValidPairs(len, deny);
    FastSupportIsValidPairs(len, deny);
  }
}
