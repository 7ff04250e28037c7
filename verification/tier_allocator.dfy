/**
 * Routing of an exact-input amount across the tiers of a pool.
 *
 * For every tier the allocator knows lsg = L / sqrt_gamma and res = the
 * tier's virtual reserve of the sold token divided by gamma.  On an active
 * set (a mask) the Lagrange split gives every active tier
 *
 *     lsg * (amount + Σ res) / Σ lsg - res  =  level * lsg - res,
 *
 * which sums to `amount` over the mask.  Tiers that would receive a negative
 * amount are dropped and the split is recomputed, until every active amount
 * is non-negative.  The result is the water-filling allocation
 * max(0, level * lsg - res) that sums to `amount`; that allocation is
 * unique, although for a zero amount many levels give it.
 */
module TierAllocator {
  import opened RealArith
  import opened Sums
  import opened PriceMath
  import opened PoolState

  /** Per-tier input amounts and the final active set. */
  datatype Allocation = Allocation(amts: seq<real>, mask: seq<bool>)

  predicate Aligned(lsg: seq<real>, res: seq<real>, mask: seq<bool>, amts: seq<real>)
  {
    |res| == |lsg| && |mask| == |lsg| && |amts| == |lsg|
  }

  predicate PositiveWeights(lsg: seq<real>)
  {
    forall i :: 0 <= i < |lsg| ==> lsg[i] > 0.0
  }

  /** The common level (amount + Σ res) / Σ lsg of the active tiers. */
  function Level(lsg: seq<real>, res: seq<real>, amount: real, mask: seq<bool>): (level: real)
    requires |res| == |lsg| && |mask| == |lsg| && MaskedSum(lsg, mask) != 0.0
  {
    (amount + MaskedSum(res, mask)) / MaskedSum(lsg, mask)
  }

  /** Every active tier sits at the given level: amts = level * lsg - res. */
  predicate AtLevel(amts: seq<real>, lsg: seq<real>, res: seq<real>, mask: seq<bool>, level: real)
    requires |amts| == |lsg| && |res| == |lsg| && |mask| == |lsg|
  {
    forall i :: 0 <= i < |lsg| && mask[i] ==> amts[i] == level * lsg[i] - res[i]
  }

  /** A tier is active exactly when it is not dearer than the level: res <= level * lsg. */
  predicate ActiveExactlyBelow(lsg: seq<real>, res: seq<real>, level: real, mask: seq<bool>)
    requires |res| == |lsg| && |mask| == |lsg|
  {
    forall i :: 0 <= i < |lsg| ==> (mask[i] <==> res[i] <= level * lsg[i])
  }

  /** Every tier outside the mask is dearer than the level: res > level * lsg. */
  predicate ExcludedAbove(lsg: seq<real>, res: seq<real>, level: real, mask: seq<bool>)
    requires |res| == |lsg| && |mask| == |lsg|
  {
    forall i :: 0 <= i < |mask| && !mask[i] ==> res[i] > level * lsg[i]
  }

  /**
   * One pass of the loop body: active entries get the Lagrange
   * amount lsg * (amount + Σ res) / Σ lsg - res, written here as
   * level * lsg - res (the same real number, see SplitPassAsCoded); the
   * others keep whatever the previous pass left there.  The active amounts
   * add up to the request.
   */
  function SplitPass(lsg: seq<real>, res: seq<real>, amount: real, mask: seq<bool>, amts: seq<real>): (next: seq<real>)
    requires Aligned(lsg, res, mask, amts) && MaskedSum(lsg, mask) != 0.0
    ensures |next| == |lsg|
    ensures AtLevel(next, lsg, res, mask, Level(lsg, res, amount, mask))
    ensures forall i :: 0 <= i < |lsg| && !mask[i] ==> next[i] == amts[i]
    ensures MaskedSum(next, mask) == amount
  {
    var next := seq(|lsg|, i requires 0 <= i < |lsg| =>
                  if mask[i] then Level(lsg, res, amount, mask) * lsg[i] - res[i] else amts[i]);
    MeanTimesWeight(amount + MaskedSum(res, mask), MaskedSum(lsg, mask), Level(lsg, res, amount, mask));
    LevelSum(lsg, res, amount, mask, next, Level(lsg, res, amount, mask));
    next
  }

  /**
   * The regrouped pass computes the coded Lagrange expression: an active entry
   * is lsg * (amount + Σ res) / Σ lsg - res, stated here multiplied out by
   * the non-zero Σ lsg.
   */
  lemma {:induction false} SplitPassAsCoded(lsg: seq<real>, res: seq<real>, amount: real, mask: seq<bool>, amts: seq<real>, i: int)
    requires Aligned(lsg, res, mask, amts) && MaskedSum(lsg, mask) != 0.0
    requires 0 <= i < |lsg| && mask[i]
    ensures (SplitPass(lsg, res, amount, mask, amts)[i] + res[i]) * MaskedSum(lsg, mask)
              == lsg[i] * (amount + MaskedSum(res, mask))
  {
    assert AtLevel(SplitPass(lsg, res, amount, mask, amts), lsg, res, mask, Level(lsg, res, amount, mask));
    MeanTimesWeight(amount + MaskedSum(res, mask), MaskedSum(lsg, mask), Level(lsg, res, amount, mask));
    Rescale(SplitPass(lsg, res, amount, mask, amts)[i], lsg[i], res[i],
            amount + MaskedSum(res, mask), MaskedSum(lsg, mask), Level(lsg, res, amount, mask));
  }

  /** Amounts at a common level whose weights balance the request add up to the request. */
  lemma {:induction false} LevelSum(lsg: seq<real>, res: seq<real>, amount: real, mask: seq<bool>, next: seq<real>, level: real)
    requires |res| == |lsg| && |mask| == |lsg| && |next| == |lsg|
    requires level * MaskedSum(lsg, mask) == amount + MaskedSum(res, mask)
    requires AtLevel(next, lsg, res, mask, level)
    ensures MaskedSum(next, mask) == amount
  {
    MaskedSumAffine(next, lsg, res, mask, level);
  }

  /** The loop's exit test: every active amount is non-negative. */
  predicate ActiveNonNegative(next: seq<real>, mask: seq<bool>)
    requires |next| == |mask|
  {
    forall i :: 0 <= i < |mask| && mask[i] ==> next[i] >= 0.0
  }

  /**
   * Narrowing the mask after a failed pass: a tier stays active only while
   * its amount is non-negative.  The kept tiers are active ones that pass the exit test,
   * and every active tier that is dropped had a negative amount.
   */
  function Keep(mask: seq<bool>, next: seq<real>): (kept: seq<bool>)
    requires |next| == |mask|
    ensures |kept| == |mask|
    ensures forall i :: 0 <= i < |mask| && kept[i] ==> mask[i]
    ensures ActiveNonNegative(next, kept)
    ensures forall i :: 0 <= i < |mask| && mask[i] && !kept[i] ==> next[i] < 0.0
  {
    seq(|mask|, i requires 0 <= i < |mask| => mask[i] && next[i] >= 0.0)
  }

  /**
   * The exit step of the loop: the last pass zeroes the inactive entries and keeps
   * the active ones, so the plain sum of the result is the masked sum of
   * the pass.
   */
  function ZeroInactive(next: seq<real>, mask: seq<bool>): (amts: seq<real>)
    requires |next| == |mask|
    ensures |amts| == |mask|
    ensures forall i :: 0 <= i < |mask| && mask[i] ==> amts[i] == next[i]
    ensures forall i :: 0 <= i < |mask| && !mask[i] ==> amts[i] == 0.0
    ensures Sum(amts) == MaskedSum(next, mask)
  {
    var amts := seq(|mask|, i requires 0 <= i < |mask| => if mask[i] then next[i] else 0.0);
    MaskedSumFrame(amts, next, mask);
    SumOfMasked(amts, mask);
    amts
  }

  /**
   * A pass that fails the exit test drops at least one tier but never all
   * of them: the active amounts add up to a non-negative request, so they
   * cannot all be negative.
   */
  lemma {:induction false} DropShrinks(next: seq<real>, mask: seq<bool>, amount: real)
    requires |next| == |mask| && Count(mask) > 0
    requires MaskedSum(next, mask) == amount && amount >= 0.0
    requires !ActiveNonNegative(next, mask)
    ensures 0 < Count(Keep(mask, next)) < Count(mask)
  {
    var kept := Keep(mask, next);
    var i :| 0 <= i < |mask| && mask[i] && next[i] < 0.0;
    assert mask[i] && !kept[i];
    CountSubset(kept, mask);
    if Count(kept) == 0 {
      forall j | 0 <= j < |mask| && mask[j]
        ensures next[j] < 0.0
      {
        if next[j] >= 0.0 {
          assert kept[j];
          CountPositive(kept, j);
        }
      }
      MaskedSumOfNegatives(next, mask);
      assert false;
    }
  }

  /**
   * The allocator's loop, one recursive call per pass; the active count
   * strictly decreases, so the loop terminates, and the active set never
   * empties, so the divisor Σ lsg stays positive.  The result keeps only
   * tiers of the initial mask, gives every active tier a non-negative
   * amount at the common level, gives the others exactly 0, and sums to
   * the request.
   */
  function Allocate(lsg: seq<real>, res: seq<real>, amount: real, mask: seq<bool>, amts: seq<real>): (r: Allocation)
    requires Aligned(lsg, res, mask, amts) && PositiveWeights(lsg)
    requires Count(mask) > 0 && amount >= 0.0
    ensures |r.amts| == |lsg| && |r.mask| == |lsg|
    ensures forall i :: 0 <= i < |lsg| && r.mask[i] ==> mask[i]
    ensures Count(r.mask) > 0 && MaskedSum(lsg, r.mask) > 0.0
    ensures AtLevel(r.amts, lsg, res, r.mask, Level(lsg, res, amount, r.mask))
    ensures forall i :: 0 <= i < |lsg| ==> r.amts[i] >= 0.0
    ensures forall i :: 0 <= i < |lsg| && !r.mask[i] ==> r.amts[i] == 0.0
    ensures Sum(r.amts) == amount
    decreases Count(mask)
  {
    MaskedSumOfPositives(lsg, mask);
    var next := SplitPass(lsg, res, amount, mask, amts);
    if ActiveNonNegative(next, mask) then
      FinalPass(lsg, res, amount, mask, next);
      Allocation(ZeroInactive(next, mask), mask)
    else
      DropShrinks(next, mask, amount);
      Allocate(lsg, res, amount, Keep(mask, next), next)
  }

  /** The last pass: zeroing the inactive entries keeps the active amounts and their sum. */
  lemma {:induction false} FinalPass(lsg: seq<real>, res: seq<real>, amount: real, mask: seq<bool>, next: seq<real>)
    requires |res| == |lsg| && |mask| == |lsg| && |next| == |lsg| && MaskedSum(lsg, mask) != 0.0
    requires AtLevel(next, lsg, res, mask, Level(lsg, res, amount, mask))
    requires MaskedSum(next, mask) == amount && ActiveNonNegative(next, mask)
    ensures AtLevel(ZeroInactive(next, mask), lsg, res, mask, Level(lsg, res, amount, mask))
    ensures forall i :: 0 <= i < |lsg| ==> ZeroInactive(next, mask)[i] >= 0.0
    ensures forall i :: 0 <= i < |lsg| && !mask[i] ==> ZeroInactive(next, mask)[i] == 0.0
    ensures Sum(ZeroInactive(next, mask)) == amount
  {
    var final := ZeroInactive(next, mask);
    assert AtLevel(final, lsg, res, mask, Level(lsg, res, amount, mask));
  }

  /** The number of passes the loop makes: at least one, at most one per initially active tier. */
  function Passes(lsg: seq<real>, res: seq<real>, amount: real, mask: seq<bool>, amts: seq<real>): (k: nat)
    requires Aligned(lsg, res, mask, amts) && PositiveWeights(lsg)
    requires Count(mask) > 0 && amount >= 0.0
    ensures 1 <= k <= Count(mask)
    decreases Count(mask)
  {
    MaskedSumOfPositives(lsg, mask);
    var next := SplitPass(lsg, res, amount, mask, amts);
    if ActiveNonNegative(next, mask) then 1
    else
      DropShrinks(next, mask, amount);
      1 + Passes(lsg, res, amount, Keep(mask, next), next)
  }

  /**
   * Dropping the tiers with a negative amount lowers the level: the kept
   * tiers alone received more than the request, so the request is spread
   * over them at a lower level.
   */
  lemma {:induction false} LevelDrops(lsg: seq<real>, res: seq<real>, amount: real, mask: seq<bool>, next: seq<real>, kept: seq<bool>)
    requires |res| == |lsg| && |mask| == |lsg| && |next| == |lsg| && PositiveWeights(lsg)
    requires MaskedSum(lsg, mask) != 0.0 && MaskedSum(next, mask) == amount
    requires AtLevel(next, lsg, res, mask, Level(lsg, res, amount, mask))
    requires kept == Keep(mask, next) && Count(kept) > 0 && !ActiveNonNegative(next, mask)
    ensures MaskedSum(lsg, kept) > 0.0
    ensures Level(lsg, res, amount, kept) < Level(lsg, res, amount, mask)
  {
    KeptReceiveMore(next, mask, kept, amount);
    MaskedSumOfPositives(lsg, kept);
    AtLevelOnSubset(next, lsg, res, mask, kept, Level(lsg, res, amount, mask));
    KeptLevelBelow(lsg, res, next, kept, amount, Level(lsg, res, amount, mask));
  }

  lemma {:induction false} AtLevelOnSubset(amts: seq<real>, lsg: seq<real>, res: seq<real>, mask: seq<bool>, sub: seq<bool>, level: real)
    requires |amts| == |lsg| && |res| == |lsg| && |mask| == |lsg| && |sub| == |lsg|
    requires AtLevel(amts, lsg, res, mask, level)
    requires forall i :: 0 <= i < |lsg| && sub[i] ==> mask[i]
    ensures AtLevel(amts, lsg, res, sub, level)
  {}

  /** The kept tiers alone received more than the request: the dropped ones had negative amounts. */
  lemma {:induction false} KeptReceiveMore(next: seq<real>, mask: seq<bool>, kept: seq<bool>, amount: real)
    requires |next| == |mask| && MaskedSum(next, mask) == amount
    requires kept == Keep(mask, next) && !ActiveNonNegative(next, mask)
    ensures MaskedSum(next, kept) > amount
  {
    var dropped := seq(|mask|, i requires 0 <= i < |mask| => mask[i] && next[i] < 0.0);
    MaskedSumSplit(next, mask, kept, dropped);
    var j :| 0 <= j < |mask| && mask[j] && next[j] < 0.0;
    assert dropped[j];
    CountPositive(dropped, j);
    MaskedSumOfNegatives(next, dropped);
  }

  /** Tiers at a common level that received more than the request balance it at a lower level. */
  lemma {:induction false} KeptLevelBelow(lsg: seq<real>, res: seq<real>, next: seq<real>, kept: seq<bool>, amount: real, level: real)
    requires |res| == |lsg| && |kept| == |lsg| && |next| == |lsg|
    requires AtLevel(next, lsg, res, kept, level)
    requires MaskedSum(next, kept) > amount && MaskedSum(lsg, kept) > 0.0
    ensures Level(lsg, res, amount, kept) < level
  {
    MaskedSumAffine(next, lsg, res, kept, level);
    DivBelow(amount + MaskedSum(res, kept), MaskedSum(lsg, kept), level);
  }

  /**
   * Invariant of the loop: a tier outside the active set is dearer than
   * the current level.  Since the level only drops, tiers dropped at an
   * earlier pass stay dearer than the final level.
   */
  lemma {:induction false} AllocateExcludes(lsg: seq<real>, res: seq<real>, amount: real, mask: seq<bool>, amts: seq<real>)
    requires Aligned(lsg, res, mask, amts) && PositiveWeights(lsg)
    requires Count(mask) > 0 && amount >= 0.0
    requires MaskedSum(lsg, mask) > 0.0
    requires ExcludedAbove(lsg, res, Level(lsg, res, amount, mask), mask)
    ensures var r := Allocate(lsg, res, amount, mask, amts);
            ExcludedAbove(lsg, res, Level(lsg, res, amount, r.mask), r.mask)
    decreases Count(mask)
  {
    var next := SplitPass(lsg, res, amount, mask, amts);
    if !ActiveNonNegative(next, mask) {
      var kept := Keep(mask, next);
      DropShrinks(next, mask, amount);
      LevelDrops(lsg, res, amount, mask, next, kept);
      ExcludedStaysAbove(lsg, res, mask, next, kept, Level(lsg, res, amount, kept), Level(lsg, res, amount, mask));
      AllocateExcludes(lsg, res, amount, kept, next);
    }
  }

  /**
   * A tier dropped at this pass had a negative amount, so it is dearer than
   * the current level; tiers dearer than a level are dearer than any lower one.
   */
  lemma {:induction false} ExcludedStaysAbove(lsg: seq<real>, res: seq<real>, mask: seq<bool>, next: seq<real>, kept: seq<bool>,
                                              lower: real, upper: real)
    requires |res| == |lsg| && |mask| == |lsg| && |next| == |lsg| && PositiveWeights(lsg)
    requires lower < upper && kept == Keep(mask, next)
    requires AtLevel(next, lsg, res, mask, upper) && ExcludedAbove(lsg, res, upper, mask)
    ensures ExcludedAbove(lsg, res, lower, kept)
  {
    forall i | 0 <= i < |lsg| && !kept[i]
      ensures res[i] > lower * lsg[i]
    {
      assert res[i] > upper * lsg[i];
      AboveLowerLevel(res[i], lsg[i], lower, upper);
    }
  }

  lemma AboveLowerLevel(r: real, l: real, lower: real, upper: real)
    requires l > 0.0 && lower < upper && r > upper * l
    ensures r > lower * l
  {
    ScaleBelow(lower, upper, l);
  }

  /** The water-filling allocation at a given level: max(0, level * lsg - res) per tier. */
  function FillTo(lsg: seq<real>, res: seq<real>, level: real): (fill: seq<real>)
    requires |res| == |lsg|
    ensures |fill| == |lsg|
    ensures forall i :: 0 <= i < |lsg| ==> fill[i] == if level * lsg[i] > res[i] then level * lsg[i] - res[i] else 0.0
  {
    seq(|lsg|, i requires 0 <= i < |lsg| => if level * lsg[i] > res[i] then level * lsg[i] - res[i] else 0.0)
  }

  /**
   * The loop's result is the water-filling allocation at the final level,
   * and a tier is active exactly when it is not dearer than that level.
   */
  lemma {:induction false} AllocationIsFill(lsg: seq<real>, res: seq<real>, level: real, r: Allocation)
    requires |res| == |lsg| && |r.amts| == |lsg| && |r.mask| == |lsg|
    requires AtLevel(r.amts, lsg, res, r.mask, level)
    requires forall i :: 0 <= i < |lsg| ==> r.amts[i] >= 0.0
    requires forall i :: 0 <= i < |lsg| && !r.mask[i] ==> r.amts[i] == 0.0
    requires ExcludedAbove(lsg, res, level, r.mask)
    ensures r.amts == FillTo(lsg, res, level)
    ensures ActiveExactlyBelow(lsg, res, level, r.mask)
  {
    var fill := FillTo(lsg, res, level);
    forall i | 0 <= i < |lsg|
      ensures r.amts[i] == fill[i]
      ensures r.mask[i] <==> res[i] <= level * lsg[i]
    {}
  }

  /** Raising the level never lowers any tier's fill. */
  lemma {:induction false} FillMonotone(lsg: seq<real>, res: seq<real>, low: real, high: real)
    requires |res| == |lsg| && PositiveWeights(lsg) && low < high
    ensures forall i :: 0 <= i < |lsg| ==> FillTo(lsg, res, low)[i] <= FillTo(lsg, res, high)[i]
  {
    forall i | 0 <= i < |lsg|
      ensures FillTo(lsg, res, low)[i] <= FillTo(lsg, res, high)[i]
    {
      FillStep(low, high, lsg[i], res[i]);
    }
  }

  /** One tier's fill max(0, level * l - r) grows with the level. */
  lemma FillStep(low: real, high: real, l: real, r: real)
    requires l > 0.0 && low < high
    ensures (if low * l > r then low * l - r else 0.0) <= (if high * l > r then high * l - r else 0.0)
  {
    ScaleBelow(low, high, l);
  }

  /**
   * Two levels whose fills carry the same total give the same fill: the
   * water-filling allocation of an amount is unique.
   */
  lemma {:induction false} FillDeterminedBySum(lsg: seq<real>, res: seq<real>, l1: real, l2: real)
    requires |res| == |lsg| && PositiveWeights(lsg)
    requires Sum(FillTo(lsg, res, l1)) == Sum(FillTo(lsg, res, l2))
    ensures FillTo(lsg, res, l1) == FillTo(lsg, res, l2)
  {
    if l1 < l2 {
      FillOrderedSums(lsg, res, l1, l2);
    } else if l2 < l1 {
      FillOrderedSums(lsg, res, l2, l1);
    }
  }

  lemma {:induction false} FillOrderedSums(lsg: seq<real>, res: seq<real>, low: real, high: real)
    requires |res| == |lsg| && PositiveWeights(lsg) && low < high
    requires Sum(FillTo(lsg, res, low)) == Sum(FillTo(lsg, res, high))
    ensures FillTo(lsg, res, low) == FillTo(lsg, res, high)
  {
    var f1, f2 := FillTo(lsg, res, low), FillTo(lsg, res, high);
    FillMonotone(lsg, res, low, high);
    // The factor 1.0 puts each difference in SumAffine's form ys[i] - c * ws[i].
    var ds := seq(|lsg|, i requires 0 <= i < |lsg| => f2[i] - 1.0 * f1[i]);
    SumAffine(ds, f2, f1, 1.0);
    SumZeroOfNonNegatives(ds);
    forall i | 0 <= i < |lsg|
      ensures f1[i] == f2[i]
    {
      assert ds[i] == 0.0;
    }
  }

  /** lsg = L / sqrt_gamma per tier. */
  function Lsg(p: Pool): (lsg: seq<real>)
    requires Valid(p)
    ensures |lsg| == Size(p) && PositiveWeights(lsg)
  {
    var lsg := seq(Size(p), i requires 0 <= i < Size(p) => p.liquidity[i] / p.sqrtGamma[i]);
    LsgPositive(p, lsg);
    lsg
  }

  lemma {:induction false} LsgPositive(p: Pool, lsg: seq<real>)
    requires Valid(p) && |lsg| == Size(p)
    requires forall i :: 0 <= i < Size(p) ==> lsg[i] == p.liquidity[i] / p.sqrtGamma[i]
    ensures PositiveWeights(lsg)
  {
    forall i | 0 <= i < Size(p)
      ensures lsg[i] > 0.0
    {
      QuotientPositive(p.liquidity[i], p.sqrtGamma[i]);
    }
  }

  /**
   * res per tier: the tier's virtual reserve of the sold
   * token grossed up by the fee, so that res * gamma is the reserve itself.
   */
  function Res(p: Pool, isToken0: bool): (res: seq<real>)
    requires Valid(p)
    ensures |res| == Size(p)
    ensures forall i :: 0 <= i < Size(p) ==>
              res[i] > 0.0 && res[i] * Gamma(p)[i] == VirtualReserve(isToken0, p.sqrtP[i], p.liquidity[i])
  {
    var gamma := Gamma(p);
    var res := seq(Size(p), i requires 0 <= i < Size(p) =>
                 if isToken0 then (p.liquidity[i] / p.sqrtP[i]) / gamma[i]
                 else (p.liquidity[i] * p.sqrtP[i]) / gamma[i]);
    ResIsGrossReserve(p, isToken0, gamma, res);
    res
  }

  lemma {:induction false} ResIsGrossReserve(p: Pool, isToken0: bool, gamma: seq<real>, res: seq<real>)
    requires Valid(p) && gamma == Gamma(p) && |res| == Size(p)
    requires forall i :: 0 <= i < Size(p) ==>
               res[i] == if isToken0 then (p.liquidity[i] / p.sqrtP[i]) / gamma[i]
                         else (p.liquidity[i] * p.sqrtP[i]) / gamma[i]
    ensures forall i :: 0 <= i < Size(p) ==>
              res[i] > 0.0 && res[i] * gamma[i] == VirtualReserve(isToken0, p.sqrtP[i], p.liquidity[i])
  {
    forall i | 0 <= i < Size(p)
      ensures res[i] > 0.0 && res[i] * gamma[i] == VirtualReserve(isToken0, p.sqrtP[i], p.liquidity[i])
    {
      var reserve := VirtualReserve(isToken0, p.sqrtP[i], p.liquidity[i]);
      if isToken0 {
        QuotientPositive(p.liquidity[i], p.sqrtP[i]);
      } else {
        ProductPositive(p.liquidity[i], p.sqrtP[i]);
      }
      MeanTimesWeight(reserve, gamma[i], res[i]);
      QuotientPositive(reserve, gamma[i]);
    }
  }

  /** The all-active mask and the zero amounts the loop starts from. */
  function AllActive(n: nat): (mask: seq<bool>)
    ensures |mask| == n && Count(mask) == n
  {
    var mask := seq(n, _ => true);
    CountAll(mask);
    mask
  }

  /**
   * The loop started from every tier active and zero amounts returns the
   * water-filling allocation at its final level.
   */
  lemma {:induction false} AllocateFromAllActive(lsg: seq<real>, res: seq<real>, amount: real)
    requires |res| == |lsg| && |lsg| > 0 && PositiveWeights(lsg) && amount >= 0.0
    ensures var r := Allocate(lsg, res, amount, AllActive(|lsg|), seq(|lsg|, _ => 0.0));
            && r.amts == FillTo(lsg, res, Level(lsg, res, amount, r.mask))
            && ActiveExactlyBelow(lsg, res, Level(lsg, res, amount, r.mask), r.mask)
  {
    var mask, amts := AllActive(|lsg|), seq(|lsg|, _ => 0.0);
    MaskedSumOfPositives(lsg, mask);
    var r := Allocate(lsg, res, amount, mask, amts);
    AllocateExcludes(lsg, res, amount, mask, amts);
    AllocationIsFill(lsg, res, Level(lsg, res, amount, r.mask), r);
  }

  /**
   * _calc_tier_amts_in for a non-negative amount.  The split is the
   * water-filling allocation of `amount` over the tiers: every amount is
   * non-negative, the amounts sum to the request, the active tiers are
   * exactly those not dearer than the final level, and inactive tiers get 0.
   */
  function TierSplit(p: Pool, isToken0: bool, amount: real): (r: Allocation)
    requires Valid(p) && amount >= 0.0
    ensures |r.amts| == Size(p) && |r.mask| == Size(p)
    ensures Count(r.mask) > 0 && MaskedSum(Lsg(p), r.mask) > 0.0
    ensures Sum(r.amts) == amount
    ensures forall i :: 0 <= i < Size(p) ==> r.amts[i] >= 0.0
    ensures forall i :: 0 <= i < Size(p) && !r.mask[i] ==> r.amts[i] == 0.0
    ensures r.amts == FillTo(Lsg(p), Res(p, isToken0), Level(Lsg(p), Res(p, isToken0), amount, r.mask))
    ensures ActiveExactlyBelow(Lsg(p), Res(p, isToken0), Level(Lsg(p), Res(p, isToken0), amount, r.mask), r.mask)
  {
    AllocateFromAllActive(Lsg(p), Res(p, isToken0), amount);
    Allocate(Lsg(p), Res(p, isToken0), amount, AllActive(Size(p)), seq(Size(p), _ => 0.0))
  }

  /**
   * The split is the only water-filling allocation of the amount: any level
   * whose fill adds up to `amount` yields exactly the allocator's amounts.
   */
  lemma {:induction false} TierSplitUnique(p: Pool, isToken0: bool, amount: real, level: real)
    requires Valid(p) && amount >= 0.0
    requires Sum(FillTo(Lsg(p), Res(p, isToken0), level)) == amount
    ensures TierSplit(p, isToken0, amount).amts == FillTo(Lsg(p), Res(p, isToken0), level)
  {
    var r := TierSplit(p, isToken0, amount);
    FillDeterminedBySum(Lsg(p), Res(p, isToken0), Level(Lsg(p), Res(p, isToken0), amount, r.mask), level);
  }

  /** _calc_tier_amts_in: a negative amount fails its exact-input assertion. */
  function CalcTierAmtsIn(p: Pool, isToken0: bool, amount: real): (r: Result<Allocation>)
    requires Valid(p)
    ensures r.Err? <==> amount < 0.0
    ensures r.Ok? ==> |r.value.amts| == Size(p) && Sum(r.value.amts) == amount
    ensures r.Ok? ==> forall i :: 0 <= i < Size(p) ==> r.value.amts[i] >= 0.0
  {
    if amount >= 0.0 then Ok(TierSplit(p, isToken0, amount)) else Err(ExactInputOnly)
  }
}
