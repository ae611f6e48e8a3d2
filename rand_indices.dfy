/** A model of the pair sampler of `src/rand_indices.rs`.

    Both samplers draw two distinct indices from `0..len` and return them as an
    ordered pair `(lo, hi)`, never returning the denied pair `deny` in either
    order. The random number generator is not modelled: every value it would
    produce is a parameter of the sampler, constrained to the range the generator
    guarantees. Indices are `usize` in the source; every arithmetic step there
    (`len - 1`, `deny_a + 1`) happens after validation, where it can neither
    underflow nor overflow, so `nat` models it exactly.
 */
module RandIndices {

  /** Why `validate_inputs` panics. Both out-of-range checks panic with the same message. */
  datatype Abort = NotEnoughIndices | DenyNotDistinct | DenyNotContained

  datatype Validation = Pass | Fail(reason: Abort)

  /** What one call of a sampler ends in. `DrawsExhausted` only arises in the
      retrying sampler, when every supplied draw was rejected. */
  datatype Outcome = Sampled(pair: (nat, nat)) | Panicked(reason: Abort) | DrawsExhausted

  /** The inputs `validate_inputs` lets through. */
  predicate InputsValid(len: nat, deny: (nat, nat)) {
    3 <= len && deny.0 != deny.1 && deny.0 < len && deny.1 < len
  }

  /** The guard chain of `validate_inputs`: the checks run in source order, and the
      first that fails decides the panic. */
  function ValidateInputs(len: nat, deny: (nat, nat)): (v: Validation)
    ensures v.Pass? <==> InputsValid(len, deny)
    ensures v == Fail(NotEnoughIndices) <==> len < 3
    ensures v == Fail(DenyNotDistinct) <==> 3 <= len && deny.0 == deny.1
    ensures v == Fail(DenyNotContained) <==>
              3 <= len && deny.0 != deny.1 && (len <= deny.0 || len <= deny.1)
  {
    var (denyA, denyB) := deny;
    if len < 3 then Fail(NotEnoughIndices)
    else if denyA == denyB then Fail(DenyNotDistinct)
    else if denyA >= len then Fail(DenyNotContained)
    else if denyB >= len then Fail(DenyNotContained)
    else Pass
  }

  /** The index range `0..n` as a set. */
  function Indices(n: nat): (s: set<nat>)
    ensures forall x: nat :: x in s <==> x < n
    ensures |s| == n
  {
    if n == 0 then {} else Indices(n - 1) + {n - 1}
  }

  /** A pair either sampler may return: ordered, in range, and not the denied pair
      read as a set. */
  predicate ValidPair(len: nat, deny: (nat, nat), p: (nat, nat)) {
    p.0 < p.1 < len && {p.0, p.1} != {deny.0, deny.1}
  }

  /** Every pair either sampler may return. */
  ghost function ValidPairs(len: nat, deny: (nat, nat)): set<(nat, nat)> {
    set i: nat, j: nat | i < j < len && {i, j} != {deny.0, deny.1} :: (i, j)
  }

  lemma ValidPairsMembers(len: nat, deny: (nat, nat), p: (nat, nat))
    ensures p in ValidPairs(len, deny) <==> ValidPair(len, deny, p)
  {
  }

  /** The conditional swap that ends both samplers (`if a > b { mem::swap(..) }`). */
  function Ordered(a: nat, b: nat): (p: (nat, nat))
    ensures p.0 <= p.1
    ensures {p.0, p.1} == {a, b}
    ensures a != b ==> p.0 < p.1
  {
    if a > b then (b, a) else (a, b)
  }

  // ---------------------------------------------------------------------------
  // The retrying sampler, `random_distinct_index_tuple_ordered_except_good`
  // ---------------------------------------------------------------------------

  /** What `rand::seq::index::sample(rng, len, 2)` guarantees of its two indices. */
  predicate DistinctDraw(len: nat, d: (nat, nat)) {
    d.0 < len && d.1 < len && d.0 != d.1
  }

  /** The acceptance test of the retry loop: some drawn index lies outside the
      denied pair. */
  predicate Accepts(deny: (nat, nat), d: (nat, nat)) {
    (d.0 != deny.0 && d.0 != deny.1) || (d.1 != deny.0 && d.1 != deny.1)
  }

  /** For a distinct draw and a distinct deny pair, the acceptance test rejects
      exactly the draws that reproduce the denied pair as a set. */
  lemma AcceptsIffNotDenied(deny: (nat, nat), d: (nat, nat))
    requires d.0 != d.1 && deny.0 != deny.1
    ensures Accepts(deny, d) <==> {d.0, d.1} != {deny.0, deny.1}
  {
  }

  /** The draw the loop stops at: the `k`-th is accepted and every earlier one is not. */
  predicate FirstAccepted(deny: (nat, nat), draws: seq<(nat, nat)>, k: nat) {
    k < |draws| && Accepts(deny, draws[k]) &&
    forall j :: 0 <= j < k ==> !Accepts(deny, draws[j])
  }

  /** The retrying sampler. `draws` are the successive results of `sample`; the
      source's unbounded `loop` becomes a loop over them, and running out of them
      stands for a loop that has not stopped yet. */
  method SampleGood(len: nat, deny: (nat, nat), draws: seq<(nat, nat)>) returns (r: Outcome)
    requires InputsValid(len, deny) ==> forall k :: 0 <= k < |draws| ==> DistinctDraw(len, draws[k])
    ensures r.Panicked? <==> !InputsValid(len, deny)
    ensures r.Panicked? ==> ValidateInputs(len, deny) == Fail(r.reason)
    ensures r.DrawsExhausted? <==>
              InputsValid(len, deny) && forall k :: 0 <= k < |draws| ==> !Accepts(deny, draws[k])
    ensures r.Sampled? ==> ValidPair(len, deny, r.pair)
    ensures r.Sampled? ==> r.pair != deny && r.pair != (deny.1, deny.0)
    ensures r.Sampled? ==>
              exists k: nat :: FirstAccepted(deny, draws, k) && r.pair == Ordered(draws[k].0, draws[k].1)
  {
    var v := ValidateInputs(len, deny);
    if v.Fail? {
      return Panicked(v.reason);
    }
    var (denyA, denyB) := deny;
    var a, b := 0, 0;
    var found := false;
    var i := 0;
    while i < |draws|
      invariant 0 <= i <= |draws|
      invariant forall j :: 0 <= j < i ==> !Accepts(deny, draws[j])
    {
      var (x, y) := draws[i];
      if (x != denyA && x != denyB) || (y != denyA && y != denyB) {
        a, b := x, y;
        found := true;
        break;
      }
      i := i + 1;
    }
    if !found {
      return DrawsExhausted;
    }
    ghost var k := i;
    assert FirstAccepted(deny, draws, k);
    assert (a, b) == draws[k];
    AcceptsIffNotDenied(deny, (a, b));
    if a > b {
      a, b := b, a;
    }
    r := Sampled((a, b));
    assert r.pair == Ordered(draws[k].0, draws[k].1);
  }

  /** Every pair the accepting draws of `sample` lead to. */
  ghost function GoodSupport(len: nat, deny: (nat, nat)): set<(nat, nat)> {
    set a: nat, b: nat | a < len && b < len && a != b && Accepts(deny, (a, b)) :: Ordered(a, b)
  }

  /** The retrying sampler can return exactly the valid pairs: every accepted draw
      gives a valid pair, and every valid pair comes from an accepted draw. */
  lemma GoodSupportIsValidPairs(len: nat, deny: (nat, nat))
    requires InputsValid(len, deny)
    ensures GoodSupport(len, deny) == ValidPairs(len, deny)
  {
  }

  /** Each valid pair is reached by exactly two accepted draws of `sample` (its two
      orders), so every valid pair has the same share of the accepted draws: the
      counting fact behind the uniformity the source promises for this sampler. */
  lemma GoodPreimageIsBothOrders(len: nat, deny: (nat, nat), p: (nat, nat))
    requires InputsValid(len, deny) && ValidPair(len, deny, p)
    ensures (set a: nat, b: nat | a < len && b < len && a != b && Accepts(deny, (a, b)) && Ordered(a, b) == p :: (a, b))
            == {(p.0, p.1), (p.1, p.0)}
    ensures |{(p.0, p.1), (p.1, p.0)}| == 2
  {
  }

  // ---------------------------------------------------------------------------
  // The single-pass sampler, `random_distinct_index_tuple_ordered_except_fast`
  // ---------------------------------------------------------------------------

  /** The "shift the colliding draw to the top" trick: `raw` is drawn from
      `0..len-1`, and the one value equal to `a` is moved to `len-1`. */
  function ShiftDraw(len: nat, a: nat, raw: nat): (b: nat)
    requires 0 < len
    ensures a < len && raw < len - 1 ==> b < len && b != a
  {
    if a == raw then len - 1 else raw
  }

  /** The shift trick is a bijection from `0..len-1` onto `0..len` without `a`. */
  lemma ShiftDrawIsBijection(len: nat, a: nat)
    requires a < len
    ensures forall r1: nat, r2: nat :: r1 < len - 1 && r2 < len - 1 && r1 != r2 ==> ShiftDraw(len, a, r1) != ShiftDraw(len, a, r2)
    ensures (set r: nat | r < len - 1 :: ShiftDraw(len, a, r)) == Indices(len) - {a}
  {
    var image := set r: nat | r < len - 1 :: ShiftDraw(len, a, r);
    forall x: nat | x < len && x != a ensures x in image {
      if x < len - 1 {
        assert ShiftDraw(len, a, x) == x;
      } else {
        assert ShiftDraw(len, a, a) == x;
      }
    }
  }

  /** A Rust half-open range `start..end`. */
  datatype Span = Span(start: nat, end: nat) {
    /** `Range::len`: zero when the range is empty. */
    function Len(): nat {
      if start < end then end - start else 0
    }

    predicate Contains(x: nat) {
      start <= x < end
    }
  }

  /** The three ranges around the sorted denied indices `lo < hi`: they are
      pairwise disjoint, together cover `0..len` without `lo` and `hi`, and their
      lengths sum to `len - 2`, which is at least one. */
  function DenyRanges(lo: nat, hi: nat, len: nat): (rs: seq<Span>)
    requires lo < hi < len
    ensures |rs| == 3
    ensures forall i, j, x :: 0 <= i < j < 3 && rs[i].Contains(x) ==> !rs[j].Contains(x)
    ensures forall x: nat :: (x < len && x != lo && x != hi) <==>
                             (rs[0].Contains(x) || rs[1].Contains(x) || rs[2].Contains(x))
    ensures rs[0].Len() + rs[1].Len() + rs[2].Len() == len - 2
    ensures forall i, x :: 0 <= i < 3 && rs[i].Contains(x) ==> rs[i].Len() > 0
  {
    [Span(0, lo), Span(lo + 1, hi), Span(hi + 1, len)]
  }

  /** Some range around the denied indices has positive weight, so
      `sample_weighted` always has a range to return. */
  lemma DenyRangesNotAllEmpty(lo: nat, hi: nat, len: nat)
    requires lo < hi < len && 3 <= len
    ensures exists i :: 0 <= i < 3 && DenyRanges(lo, hi, len)[i].Len() > 0
  {
    var rs := DenyRanges(lo, hi, len);
    assert rs[0].Len() + rs[1].Len() + rs[2].Len() >= 1;
  }

  /** What the generator guarantees when `a` is a denied index: `sample_weighted`
      returns an index `idx` of positive weight, and `gen_range(ranges[idx])`
      returns `b` inside that range. */
  predicate DeniedDrawsOk(len: nat, deny: (nat, nat), idx: nat, b: nat)
    requires InputsValid(len, deny)
  {
    var (lo, hi) := Ordered(deny.0, deny.1);
    var rs := DenyRanges(lo, hi, len);
    // `rs[idx].Len() > 0` is what `sample_weighted` promises of the index it
    // returns; `rs[idx].Contains(b)` is what `gen_range(rs[idx])` promises.
    idx < 3 && rs[idx].Len() > 0 && rs[idx].Contains(b)
  }

  /** What the generator guarantees of the single-pass sampler's draws: `a` from
      `0..len`; then, if `a` is denied, `idx` and `b` as in DeniedDrawsOk, and
      otherwise the raw `b` from `0..len-1` (`idx` is not drawn then). */
  predicate FastDrawsOk(len: nat, deny: (nat, nat), a: nat, idx: nat, b: nat)
    requires InputsValid(len, deny)
  {
    a < len &&
    (a == deny.0 || a == deny.1 ==> DeniedDrawsOk(len, deny, idx, b)) &&
    (a != deny.0 && a != deny.1 ==> b < len - 1)
  }

  /** The single-pass sampler's second index: the value drawn from a range away
      from the denied indices when `a` is denied, the shifted raw draw otherwise.
      It differs from `a`, lies in range and does not complete the denied pair. */
  function FastSecond(len: nat, deny: (nat, nat), a: nat, idx: nat, b: nat): (second: nat)
    requires InputsValid(len, deny) && FastDrawsOk(len, deny, a, idx, b)
    ensures second < len && second != a
    ensures {a, second} != {deny.0, deny.1}
  {
    if a == deny.0 || a == deny.1 then
      var (lo, hi) := Ordered(deny.0, deny.1);
      var rs := DenyRanges(lo, hi, len);
      assert rs[idx].Contains(b);
      assert b != deny.0 && b != deny.1;
      b
    else
      ShiftDraw(len, a, b)
  }

  /** The single-pass sampler. `a` is what `gen_range(0..len)` returns; `idx` is
      what `sample_weighted` returns (used only when `a` is denied); `b` is what
      the second `gen_range` returns, from the chosen range or from `0..len-1`. */
  method SampleFast(len: nat, deny: (nat, nat), a: nat, idx: nat, b: nat) returns (r: Outcome)
    requires InputsValid(len, deny) ==> FastDrawsOk(len, deny, a, idx, b)
    ensures r.Panicked? <==> !InputsValid(len, deny)
    ensures r.Panicked? ==> ValidateInputs(len, deny) == Fail(r.reason)
    ensures InputsValid(len, deny) ==> r.Sampled?
    ensures r.Sampled? ==> ValidPair(len, deny, r.pair)
    ensures r.Sampled? ==> r.pair != deny && r.pair != (deny.1, deny.0)
    ensures r.Sampled? ==> r.pair == Ordered(a, FastSecond(len, deny, a, idx, b))
  {
    var v := ValidateInputs(len, deny);
    if v.Fail? {
      return Panicked(v.reason);
    }
    var (denyA, denyB) := deny;
    var x := a;
    var y: nat;
    if x == denyA || x == denyB {
      if denyA > denyB {
        denyA, denyB := denyB, denyA;
      }
      var ranges := DenyRanges(denyA, denyB, len);
      assert ranges[idx].Len() > 0 && ranges[idx].Contains(b);
      y := b;
      assert y != denyA && y != denyB;
    } else {
      var raw := b;
      y := if x == raw then len - 1 else raw;
    }
    assert y == FastSecond(len, deny, a, idx, b);
    if x > y {
      x, y := y, x;
    }
    r := Sampled((x, y));
  }

  /** Every pair some admissible draws of the single-pass sampler lead to. */
  ghost function FastSupport(len: nat, deny: (nat, nat)): set<(nat, nat)>
    requires InputsValid(len, deny)
  {
    set a: nat, idx: nat, b: nat | a < len && idx < 3 && b < len && FastDrawsOk(len, deny, a, idx, b)
      :: Ordered(a, FastSecond(len, deny, a, idx, b))
  }

  /** Every valid pair is produced by some admissible draws of the single-pass
      sampler: `a` is an endpoint of the pair (the denied one, if any), and `b`
      the draw that leads to the other endpoint. */
  lemma FastReachable(len: nat, deny: (nat, nat), p: (nat, nat))
    requires InputsValid(len, deny) && ValidPair(len, deny, p)
    ensures exists a: nat, idx: nat, b: nat ::
              a < len && idx < 3 && b < len && FastDrawsOk(len, deny, a, idx, b) &&
              Ordered(a, FastSecond(len, deny, a, idx, b)) == p
  {
    var (i, j) := p;
    var (lo, hi) := Ordered(deny.0, deny.1);
    var rs := DenyRanges(lo, hi, len);
    if i == deny.0 || i == deny.1 || j == deny.0 || j == deny.1 {
      // Exactly one endpoint is denied: start from it and draw the other from its range.
      var a: nat := if i == deny.0 || i == deny.1 then i else j;
      var other: nat := if i == deny.0 || i == deny.1 then j else i;
      assert other != deny.0 && other != deny.1;
      var idx: nat := if rs[0].Contains(other) then 0 else if rs[1].Contains(other) then 1 else 2;
      assert rs[idx].Contains(other);
      assert FastDrawsOk(len, deny, a, idx, other);
      assert Ordered(a, FastSecond(len, deny, a, idx, other)) == p;
    } else {
      // Neither endpoint is denied: start from `i`; the raw draw is `j`, or `i`
      // itself when `j` is the top index the shift trick produces.
      var raw: nat := if j == len - 1 then i else j;
      assert FastDrawsOk(len, deny, i, 0, raw);
      assert Ordered(i, FastSecond(len, deny, i, 0, raw)) == p;
    }
  }

  /** The single-pass sampler can return exactly the valid pairs. */
  lemma FastSupportIsValidPairs(len: nat, deny: (nat, nat))
    requires InputsValid(len, deny)
    ensures FastSupport(len, deny) == ValidPairs(len, deny)
  {
    forall p | p in FastSupport(len, deny) ensures p in ValidPairs(len, deny) {
      var a: nat, idx: nat, b: nat :| a < len && idx < 3 && b < len && FastDrawsOk(len, deny, a, idx, b)
                                      && p == Ordered(a, FastSecond(len, deny, a, idx, b));
      ValidPairsMembers(len, deny, p);
    }
    forall p | p in ValidPairs(len, deny) ensures p in FastSupport(len, deny) {
      ValidPairsMembers(len, deny, p);
      FastReachable(len, deny, p);
    }
  }
}
