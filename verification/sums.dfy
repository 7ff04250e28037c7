/**
 * Sums over sequences of reals, plain and restricted to a boolean mask.
 * They stand for numpy's sum of a whole array and its sum over a boolean
 * mask, which the pool uses for the allocator's weights and for the swap's
 * aggregate result.
 */
module Sums {
  import opened RealArith

  /** Sum of every entry. */
  function Sum(xs: seq<real>): (total: real)
  {
    if |xs| == 0 then 0.0 else xs[0] + Sum(xs[1..])
  }

  /** Sum of the entries at the positions where the mask holds. */
  function MaskedSum(xs: seq<real>, mask: seq<bool>): (total: real)
    requires |xs| == |mask|
  {
    if |xs| == 0 then 0.0
    else (if mask[0] then xs[0] else 0.0) + MaskedSum(xs[1..], mask[1..])
  }

  /** Number of positions where the mask holds. */
  function Count(mask: seq<bool>): (k: nat)
    ensures k <= |mask|
  {
    if |mask| == 0 then 0 else (if mask[0] then 1 else 0) + Count(mask[1..])
  }

  lemma {:induction false} CountPositive(mask: seq<bool>, i: int)
    requires 0 <= i < |mask| && mask[i]
    ensures Count(mask) > 0
  {
    if !mask[0] {
      CountPositive(mask[1..], i - 1);
    }
  }

  lemma {:induction false} CountAll(mask: seq<bool>)
    requires forall i :: 0 <= i < |mask| ==> mask[i]
    ensures Count(mask) == |mask|
  {
    if |mask| > 0 {
      CountAll(mask[1..]);
    }
  }

  /** A pointwise smaller mask counts no more, and strictly less when it drops a position. */
  lemma {:induction false} CountSubset(sub: seq<bool>, sup: seq<bool>)
    requires |sub| == |sup|
    requires forall i :: 0 <= i < |sub| && sub[i] ==> sup[i]
    ensures Count(sub) <= Count(sup)
    ensures (exists i :: 0 <= i < |sub| && sup[i] && !sub[i]) ==> Count(sub) < Count(sup)
  {
    if |sub| > 0 {
      assert forall i :: 0 <= i < |sub[1..]| && sub[1..][i] ==> sup[1..][i];
      CountSubset(sub[1..], sup[1..]);
      if exists i :: 0 <= i < |sub| && sup[i] && !sub[i] {
        var i :| 0 <= i < |sub| && sup[i] && !sub[i];
        if i > 0 {
          assert sup[1..][i - 1] && !sub[1..][i - 1];
        }
      }
    }
  }

  /** A masked sum depends only on the masked entries. */
  lemma {:induction false} MaskedSumFrame(xs: seq<real>, ys: seq<real>, mask: seq<bool>)
    requires |xs| == |ys| == |mask|
    requires forall i :: 0 <= i < |mask| && mask[i] ==> xs[i] == ys[i]
    ensures MaskedSum(xs, mask) == MaskedSum(ys, mask)
  {
    if |mask| > 0 {
      assert forall i :: 0 <= i < |mask| - 1 && mask[1..][i] ==> xs[1..][i] == ys[1..][i];
      MaskedSumFrame(xs[1..], ys[1..], mask[1..]);
    }
  }

  /** A sum of positive entries is non-negative, and positive when there is at least one entry. */
  lemma {:induction false} SumOfPositives(xs: seq<real>)
    requires forall i :: 0 <= i < |xs| ==> xs[i] > 0.0
    ensures Sum(xs) >= 0.0
    ensures |xs| > 0 ==> Sum(xs) > 0.0
  {
    if |xs| > 0 {
      var xs' := xs[1..];
      forall i | 0 <= i < |xs'|
        ensures xs'[i] > 0.0
      {
        assert xs'[i] == xs[i + 1];
      }
      SumOfPositives(xs');
    }
  }

  /** When every unmasked entry is zero, the plain sum equals the masked sum. */
  lemma {:induction false} SumOfMasked(xs: seq<real>, mask: seq<bool>)
    requires |xs| == |mask|
    requires forall i :: 0 <= i < |xs| && !mask[i] ==> xs[i] == 0.0
    ensures Sum(xs) == MaskedSum(xs, mask)
  {
    if |xs| > 0 {
      assert forall i :: 0 <= i < |xs| - 1 && !mask[1..][i] ==> xs[1..][i] == 0.0;
      SumOfMasked(xs[1..], mask[1..]);
    }
  }

  /** Masked sums are linear: summing `c * x - z` gives `c * Σx - Σz`. */
  lemma {:induction false} MaskedSumAffine(ys: seq<real>, xs: seq<real>, zs: seq<real>, mask: seq<bool>, c: real)
    requires |ys| == |xs| == |zs| == |mask|
    requires forall i :: 0 <= i < |mask| && mask[i] ==> ys[i] == c * xs[i] - zs[i]
    ensures MaskedSum(ys, mask) == c * MaskedSum(xs, mask) - MaskedSum(zs, mask)
  {
    if |mask| > 0 {
      var ys', xs', zs', mask' := ys[1..], xs[1..], zs[1..], mask[1..];
      forall i | 0 <= i < |mask'| && mask'[i]
        ensures ys'[i] == c * xs'[i] - zs'[i]
      {
        assert mask[i + 1];
      }
      MaskedSumAffine(ys', xs', zs', mask', c);
      var x0, xRest := if mask[0] then xs[0] else 0.0, MaskedSum(xs', mask');
      var y0, yRest := if mask[0] then ys[0] else 0.0, MaskedSum(ys', mask');
      var z0, zRest := if mask[0] then zs[0] else 0.0, MaskedSum(zs', mask');
      assert y0 == c * x0 - z0;
      Distribute(c, x0, xRest);
      assert MaskedSum(xs, mask) == x0 + xRest;
      assert MaskedSum(ys, mask) == y0 + yRest;
      assert MaskedSum(zs, mask) == z0 + zRest;
    }
  }

  /** A masked sum of positive entries is non-negative, and positive when the mask is not empty. */
  lemma {:induction false} MaskedSumOfPositives(xs: seq<real>, mask: seq<bool>)
    requires |xs| == |mask|
    requires forall i :: 0 <= i < |xs| && mask[i] ==> xs[i] > 0.0
    ensures MaskedSum(xs, mask) >= 0.0
    ensures Count(mask) > 0 ==> MaskedSum(xs, mask) > 0.0
  {
    if |xs| > 0 {
      var xs', mask' := xs[1..], mask[1..];
      forall i | 0 <= i < |mask'| && mask'[i]
        ensures xs'[i] > 0.0
      {
        assert mask[i + 1];
      }
      MaskedSumOfPositives(xs', mask');
    }
  }

  /** A masked sum of negative entries is non-positive, and negative when the mask is not empty. */
  lemma {:induction false} MaskedSumOfNegatives(xs: seq<real>, mask: seq<bool>)
    requires |xs| == |mask|
    requires forall i :: 0 <= i < |xs| && mask[i] ==> xs[i] < 0.0
    ensures MaskedSum(xs, mask) <= 0.0
    ensures Count(mask) > 0 ==> MaskedSum(xs, mask) < 0.0
  {
    if |xs| > 0 {
      var xs', mask' := xs[1..], mask[1..];
      forall i | 0 <= i < |mask'| && mask'[i]
        ensures xs'[i] < 0.0
      {
        assert mask[i + 1];
      }
      MaskedSumOfNegatives(xs', mask');
    }
  }

  /** One weighted term: a value above `c` with positive weight contributes more than `c` times the weight. */
  lemma TermAbove(w: real, v: real, c: real, y: real)
    requires w >= 0.0 && y == v * w
    requires w > 0.0 ==> v > c
    ensures y >= c * w
    ensures w > 0.0 ==> y > c * w
  {
    if w > 0.0 {
      var d := v - c;
      assert d * w > 0.0;
      assert d * w == v * w - c * w;
    } else {
      assert w == 0.0;
    }
  }

  /** Mirror of TermAbove for a value below `c`. */
  lemma TermBelow(w: real, v: real, c: real, y: real)
    requires w >= 0.0 && y == v * w
    requires w > 0.0 ==> v < c
    ensures y <= c * w
    ensures w > 0.0 ==> y < c * w
  {
    if w > 0.0 {
      var d := c - v;
      assert d * w > 0.0;
      assert d * w == c * w - v * w;
    } else {
      assert w == 0.0;
    }
  }

  /** Plain sums are linear: summing `y - c * w` gives `Σy - c * Σw`. */
  lemma {:induction false} SumAffine(ds: seq<real>, ys: seq<real>, ws: seq<real>, c: real)
    requires |ds| == |ys| == |ws|
    requires forall i :: 0 <= i < |ds| ==> ds[i] == ys[i] - c * ws[i]
    ensures Sum(ds) == Sum(ys) - c * Sum(ws)
  {
    if |ds| > 0 {
      var ds', ys', ws' := ds[1..], ys[1..], ws[1..];
      forall i | 0 <= i < |ds'|
        ensures ds'[i] == ys'[i] - c * ws'[i]
      {
        assert ds'[i] == ds[i + 1] && ys'[i] == ys[i + 1] && ws'[i] == ws[i + 1];
      }
      SumAffine(ds', ys', ws', c);
      var w0, wRest := ws[0], Sum(ws');
      Distribute(c, w0, wRest);
      assert Sum(ws) == w0 + wRest;
      assert Sum(ys) == ys[0] + Sum(ys');
      assert Sum(ds) == ds[0] + Sum(ds');
    }
  }

  /**
   * A sum of non-negative terms is non-negative, and positive when some weight
   * is positive and every term with positive weight is positive.
   */
  lemma {:induction false} SumOfNonNegatives(ds: seq<real>, ws: seq<real>)
    requires |ds| == |ws|
    requires forall i :: 0 <= i < |ds| ==> ds[i] >= 0.0 && ws[i] >= 0.0
    requires forall i :: 0 <= i < |ds| && ws[i] > 0.0 ==> ds[i] > 0.0
    ensures Sum(ds) >= 0.0 && Sum(ws) >= 0.0
    ensures Sum(ws) > 0.0 ==> Sum(ds) > 0.0
  {
    if |ds| > 0 {
      var ds', ws' := ds[1..], ws[1..];
      forall i | 0 <= i < |ds'|
        ensures ds'[i] >= 0.0 && ws'[i] >= 0.0
        ensures ws'[i] > 0.0 ==> ds'[i] > 0.0
      {
        assert ds'[i] == ds[i + 1] && ws'[i] == ws[i + 1];
      }
      SumOfNonNegatives(ds', ws');
    }
  }

  /** Mirror of SumOfNonNegatives. */
  lemma {:induction false} SumOfNonPositives(ds: seq<real>, ws: seq<real>)
    requires |ds| == |ws|
    requires forall i :: 0 <= i < |ds| ==> ds[i] <= 0.0 && ws[i] >= 0.0
    requires forall i :: 0 <= i < |ds| && ws[i] > 0.0 ==> ds[i] < 0.0
    ensures Sum(ds) <= 0.0 && Sum(ws) >= 0.0
    ensures Sum(ws) > 0.0 ==> Sum(ds) < 0.0
  {
    if |ds| > 0 {
      var ds', ws' := ds[1..], ws[1..];
      forall i | 0 <= i < |ds'|
        ensures ds'[i] <= 0.0 && ws'[i] >= 0.0
        ensures ws'[i] > 0.0 ==> ds'[i] < 0.0
      {
        assert ds'[i] == ds[i + 1] && ws'[i] == ws[i + 1];
      }
      SumOfNonPositives(ds', ws');
    }
  }

  /** The pointwise differences `y - c * w`. */
  function Diffs(ys: seq<real>, ws: seq<real>, c: real): (ds: seq<real>)
    requires |ys| == |ws|
    ensures |ds| == |ys|
    ensures forall i :: 0 <= i < |ds| ==> ds[i] == ys[i] - c * ws[i]
  {
    seq(|ys|, i requires 0 <= i < |ys| => ys[i] - c * ws[i])
  }

  lemma {:induction false} DiffsAbove(ys: seq<real>, ws: seq<real>, vs: seq<real>, c: real)
    requires |ys| == |ws| == |vs|
    requires forall i :: 0 <= i < |ws| ==> ws[i] >= 0.0 && ys[i] == vs[i] * ws[i]
    requires forall i :: 0 <= i < |ws| && ws[i] > 0.0 ==> vs[i] > c
    ensures forall i :: 0 <= i < |ws| ==> Diffs(ys, ws, c)[i] >= 0.0
    ensures forall i :: 0 <= i < |ws| && ws[i] > 0.0 ==> Diffs(ys, ws, c)[i] > 0.0
  {
    forall i | 0 <= i < |ws|
      ensures ys[i] >= c * ws[i] && (ws[i] > 0.0 ==> ys[i] > c * ws[i])
    {
      TermAbove(ws[i], vs[i], c, ys[i]);
    }
  }

  lemma {:induction false} DiffsBelow(ys: seq<real>, ws: seq<real>, vs: seq<real>, c: real)
    requires |ys| == |ws| == |vs|
    requires forall i :: 0 <= i < |ws| ==> ws[i] >= 0.0 && ys[i] == vs[i] * ws[i]
    requires forall i :: 0 <= i < |ws| && ws[i] > 0.0 ==> vs[i] < c
    ensures forall i :: 0 <= i < |ws| ==> Diffs(ys, ws, c)[i] <= 0.0
    ensures forall i :: 0 <= i < |ws| && ws[i] > 0.0 ==> Diffs(ys, ws, c)[i] < 0.0
  {
    forall i | 0 <= i < |ws|
      ensures ys[i] <= c * ws[i] && (ws[i] > 0.0 ==> ys[i] < c * ws[i])
    {
      TermBelow(ws[i], vs[i], c, ys[i]);
    }
  }

  /**
   * Weighted sums with non-negative weights: if every value carrying positive
   * weight exceeds `c`, then `Σ v*w >= c * Σ w`, strictly when some weight is positive.
   */
  lemma {:induction false} WeightedSumAbove(ys: seq<real>, ws: seq<real>, vs: seq<real>, c: real)
    requires |ys| == |ws| == |vs|
    requires forall i :: 0 <= i < |ws| ==> ws[i] >= 0.0 && ys[i] == vs[i] * ws[i]
    requires forall i :: 0 <= i < |ws| && ws[i] > 0.0 ==> vs[i] > c
    ensures Sum(ws) >= 0.0
    ensures Sum(ys) >= c * Sum(ws)
    ensures Sum(ws) > 0.0 ==> Sum(ys) > c * Sum(ws)
  {
    var ds := Diffs(ys, ws, c);
    DiffsAbove(ys, ws, vs, c);
    SumAffine(ds, ys, ws, c);
    SumOfNonNegatives(ds, ws);
  }

  /** Mirror of WeightedSumAbove for values below `c`. */
  lemma {:induction false} WeightedSumBelow(ys: seq<real>, ws: seq<real>, vs: seq<real>, c: real)
    requires |ys| == |ws| == |vs|
    requires forall i :: 0 <= i < |ws| ==> ws[i] >= 0.0 && ys[i] == vs[i] * ws[i]
    requires forall i :: 0 <= i < |ws| && ws[i] > 0.0 ==> vs[i] < c
    ensures Sum(ws) >= 0.0
    ensures Sum(ys) <= c * Sum(ws)
    ensures Sum(ws) > 0.0 ==> Sum(ys) < c * Sum(ws)
  {
    var ds := Diffs(ys, ws, c);
    DiffsBelow(ys, ws, vs, c);
    SumAffine(ds, ys, ws, c);
    SumOfNonPositives(ds, ws);
  }

  /** Some value with positive weight is at most `c` when `Σ v*w <= c * Σ w`. */
  lemma {:induction false} SomeValueAtMost(ys: seq<real>, ws: seq<real>, vs: seq<real>, c: real, total: real, weight: real)
    requires |ys| == |ws| == |vs|
    requires forall i :: 0 <= i < |ws| ==> ws[i] >= 0.0 && ys[i] == vs[i] * ws[i]
    requires total == Sum(ys) && weight == Sum(ws)
    requires weight > 0.0 && total <= c * weight
    ensures exists i :: 0 <= i < |ws| && ws[i] > 0.0 && vs[i] <= c
  {
    if !exists i :: 0 <= i < |ws| && ws[i] > 0.0 && vs[i] <= c {
      WeightedSumAbove(ys, ws, vs, c);
      assert false;
    }
  }

  /** Some value with positive weight is at least `c` when `Σ v*w >= c * Σ w`. */
  lemma {:induction false} SomeValueAtLeast(ys: seq<real>, ws: seq<real>, vs: seq<real>, c: real, total: real, weight: real)
    requires |ys| == |ws| == |vs|
    requires forall i :: 0 <= i < |ws| ==> ws[i] >= 0.0 && ys[i] == vs[i] * ws[i]
    requires total == Sum(ys) && weight == Sum(ws)
    requires weight > 0.0 && total >= c * weight
    ensures exists i :: 0 <= i < |ws| && ws[i] > 0.0 && vs[i] >= c
  {
    if !exists i :: 0 <= i < |ws| && ws[i] > 0.0 && vs[i] >= c {
      WeightedSumBelow(ys, ws, vs, c);
      assert false;
    }
  }

  /**
   * The weighted mean `Σ v*w / Σ w` lies between the smallest and the largest
   * value that carries positive weight: both bounds are attained by some position.
   */
  lemma {:induction false} WeightedMeanBetween(ys: seq<real>, ws: seq<real>, vs: seq<real>)
    requires |ys| == |ws| == |vs|
    requires forall i :: 0 <= i < |ws| ==> ws[i] >= 0.0 && ys[i] == vs[i] * ws[i]
    requires Sum(ws) > 0.0
    ensures exists i :: 0 <= i < |ws| && ws[i] > 0.0 && vs[i] <= Sum(ys) / Sum(ws)
    ensures exists j :: 0 <= j < |ws| && ws[j] > 0.0 && Sum(ys) / Sum(ws) <= vs[j]
  {
    var total, weight := Sum(ys), Sum(ws);
    var mean := total / weight;
    MeanTimesWeight(total, weight, mean);
    SomeValueAtMost(ys, ws, vs, mean, total, weight);
    SomeValueAtLeast(ys, ws, vs, mean, total, weight);
  }

  /** A masked sum splits over a partition of its mask into two disjoint masks. */
  lemma {:induction false} MaskedSumSplit(xs: seq<real>, mask: seq<bool>, a: seq<bool>, b: seq<bool>)
    requires |xs| == |mask| == |a| == |b|
    requires forall i :: 0 <= i < |mask| ==> mask[i] == (a[i] || b[i]) && !(a[i] && b[i])
    ensures MaskedSum(xs, mask) == MaskedSum(xs, a) + MaskedSum(xs, b)
  {
    if |xs| > 0 {
      assert forall i :: 0 <= i < |mask| - 1 ==>
        mask[1..][i] == (a[1..][i] || b[1..][i]) && !(a[1..][i] && b[1..][i]);
      MaskedSumSplit(xs[1..], mask[1..], a[1..], b[1..]);
    }
  }

  /** Non-negative entries summing to zero are all zero. */
  lemma {:induction false} SumZeroOfNonNegatives(ds: seq<real>)
    requires forall i :: 0 <= i < |ds| ==> ds[i] >= 0.0
    requires Sum(ds) == 0.0
    ensures forall i :: 0 <= i < |ds| ==> ds[i] == 0.0
  {
    if |ds| > 0 {
      var ds' := ds[1..];
      forall i | 0 <= i < |ds'|
        ensures ds'[i] >= 0.0
      {
        assert ds'[i] == ds[i + 1];
      }
      SumOfNonNegatives(ds', ds');
      SumZeroOfNonNegatives(ds');
      forall i | 0 < i < |ds|
        ensures ds[i] == 0.0
      {
        assert ds[i] == ds'[i - 1];
      }
    }
  }

  /** A positive sum has a positive entry. */
  lemma {:induction false} PositiveSumHasPositive(xs: seq<real>)
    requires Sum(xs) > 0.0
    ensures exists k :: 0 <= k < |xs| && xs[k] > 0.0
  {
    if xs[0] <= 0.0 {
      PositiveSumHasPositive(xs[1..]);
      var k :| 0 <= k < |xs[1..]| && xs[1..][k] > 0.0;
      assert xs[k + 1] > 0.0;
    }
  }

  /** Entrywise at most, and below at one position: the sum is strictly below. */
  lemma {:induction false} SumStrictlyBelow(xs: seq<real>, ys: seq<real>, k: int)
    requires |xs| == |ys| && 0 <= k < |xs|
    requires forall i :: 0 <= i < |xs| ==> xs[i] <= ys[i]
    requires xs[k] < ys[k]
    ensures Sum(xs) < Sum(ys)
  {
    var xs', ys' := xs[1..], ys[1..];
    forall i | 0 <= i < |xs'|
      ensures xs'[i] <= ys'[i]
    {
      assert xs'[i] == xs[i + 1] && ys'[i] == ys[i + 1];
    }
    if k == 0 {
      SumBelow(xs', ys');
    } else {
      assert xs'[k - 1] == xs[k] && ys'[k - 1] == ys[k];
      SumStrictlyBelow(xs', ys', k - 1);
    }
  }

  /** Entrywise at most: the sum is at most. */
  lemma {:induction false} SumBelow(xs: seq<real>, ys: seq<real>)
    requires |xs| == |ys|
    requires forall i :: 0 <= i < |xs| ==> xs[i] <= ys[i]
    ensures Sum(xs) <= Sum(ys)
  {
    if |xs| > 0 {
      var xs', ys' := xs[1..], ys[1..];
      forall i | 0 <= i < |xs'|
        ensures xs'[i] <= ys'[i]
      {
        assert xs'[i] == xs[i + 1] && ys'[i] == ys[i + 1];
      }
      SumBelow(xs', ys');
    }
  }
}
