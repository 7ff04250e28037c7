/**
 * Closed-form price algebra of one full-range tier.
 *
 * A tier with liquidity L at square-root price √P holds the virtual reserves
 * x = L / √P of token0 and y = L * √P of token1, so that x * y = L².  Adding
 * an amount of one token moves √P along that curve; the amount of a token
 * implied by a move of √P is the change of its virtual reserve.
 */
module PriceMath {
  import opened RealArith

  /** Virtual reserve of token0 (`isToken0`) or of token1 held by a tier. */
  function VirtualReserve(isToken0: bool, sqrtP: real, liquidity: real): (reserve: real)
    requires isToken0 ==> sqrtP != 0.0
  {
    if isToken0 then liquidity / sqrtP else liquidity * sqrtP
  }

  /**
   * calc_sqrt_p_from_amt: the square-root price after `amt` of the sold token
   * (token0 when `isToken0`) enters a tier.  The requires clause is exactly
   * the condition under which the division is defined.
   */
  function CalcSqrtPFromAmt(isToken0: bool, sqrtP0: real, liquidity: real, amt: real): (sqrtP1: real)
    requires if isToken0 then liquidity + amt * sqrtP0 != 0.0 else liquidity != 0.0
    ensures liquidity > 0.0 && sqrtP0 > 0.0 && amt >= 0.0 ==> sqrtP1 > 0.0
    ensures liquidity > 0.0 && sqrtP0 > 0.0 && amt > 0.0 ==>
              if isToken0 then sqrtP1 < sqrtP0 else sqrtP1 > sqrtP0
    ensures amt == 0.0 ==> sqrtP1 == sqrtP0
  {
    if isToken0 then
      var sqrtP1 := (liquidity * sqrtP0) / (liquidity + (amt * sqrtP0));
      Token0PriceMove(liquidity, sqrtP0, amt, sqrtP1);
      sqrtP1
    else
      var sqrtP1 := sqrtP0 + (amt / liquidity);
      Token1PriceMove(liquidity, sqrtP0, amt, sqrtP1);
      sqrtP1
  }

  /**
   * calc_amt_from_sqrt_p, as coded: the signed change of the tier's virtual
   * reserve of the given token when √P moves from `sqrtP0` to `sqrtP1`.
   * Positive means the token flows into the tier, negative means it flows out.
   */
  function CalcAmtFromSqrtP(isToken0: bool, sqrtP0: real, sqrtP1: real, liquidity: real): (amt: real)
    requires isToken0 ==> sqrtP0 * sqrtP1 != 0.0
    ensures isToken0 ==> sqrtP0 != 0.0 && sqrtP1 != 0.0
    ensures amt == VirtualReserve(isToken0, sqrtP1, liquidity) - VirtualReserve(isToken0, sqrtP0, liquidity)
    ensures liquidity > 0.0 && sqrtP0 > 0.0 && sqrtP1 > 0.0 ==>
              (amt < 0.0 <==> if isToken0 then sqrtP1 > sqrtP0 else sqrtP1 < sqrtP0)
    ensures liquidity > 0.0 && sqrtP0 > 0.0 && sqrtP1 > 0.0 ==> (amt == 0.0 <==> sqrtP1 == sqrtP0)
  {
    if isToken0 then
      var amt := liquidity * (sqrtP0 - sqrtP1) / (sqrtP0 * sqrtP1);
      Token0AmountIsReserveChange(liquidity, sqrtP0, sqrtP1, amt);
      amt
    else
      var amt := liquidity * (sqrtP1 - sqrtP0);
      Token1AmountSign(liquidity, sqrtP0, sqrtP1, amt);
      amt
  }

  lemma Token0PriceMove(liquidity: real, sqrtP0: real, amt: real, sqrtP1: real)
    requires liquidity + amt * sqrtP0 != 0.0
    requires sqrtP1 == (liquidity * sqrtP0) / (liquidity + (amt * sqrtP0))
    ensures liquidity > 0.0 && sqrtP0 > 0.0 && amt >= 0.0 ==> sqrtP1 > 0.0
    ensures liquidity > 0.0 && sqrtP0 > 0.0 && amt > 0.0 ==> sqrtP1 < sqrtP0
    ensures amt == 0.0 ==> sqrtP1 == sqrtP0
  {
    var d := liquidity + amt * sqrtP0;
    assert sqrtP1 * d == liquidity * sqrtP0;
    if liquidity > 0.0 && sqrtP0 > 0.0 && amt >= 0.0 {
      ProductNonNegative(amt, sqrtP0);
      assert d > 0.0;
      assert liquidity * sqrtP0 > 0.0;
      if amt > 0.0 {
        var u := amt * sqrtP0;
        var gap := u * sqrtP0;
        assert u > 0.0;
        assert gap > 0.0;
        assert sqrtP0 * d == liquidity * sqrtP0 + gap;
        assert (sqrtP0 - sqrtP1) * d == sqrtP0 * d - sqrtP1 * d;
        PositiveFactor(sqrtP0 - sqrtP1, d);
      }
    }
  }

  lemma Token1PriceMove(liquidity: real, sqrtP0: real, amt: real, sqrtP1: real)
    requires liquidity != 0.0
    requires sqrtP1 == sqrtP0 + (amt / liquidity)
    ensures liquidity > 0.0 && sqrtP0 > 0.0 && amt >= 0.0 ==> sqrtP1 > 0.0
    ensures liquidity > 0.0 && sqrtP0 > 0.0 && amt > 0.0 ==> sqrtP1 > sqrtP0
    ensures amt == 0.0 ==> sqrtP1 == sqrtP0
  {
    if liquidity > 0.0 && amt >= 0.0 {
      assert amt / liquidity >= 0.0;
      if amt > 0.0 {
        assert amt / liquidity > 0.0;
      }
    }
  }

  lemma Token0AmountIsReserveChange(liquidity: real, sqrtP0: real, sqrtP1: real, amt: real)
    requires sqrtP0 * sqrtP1 != 0.0
    requires amt == liquidity * (sqrtP0 - sqrtP1) / (sqrtP0 * sqrtP1)
    ensures sqrtP0 != 0.0 && sqrtP1 != 0.0
    ensures amt == liquidity / sqrtP1 - liquidity / sqrtP0
    ensures liquidity > 0.0 && sqrtP0 > 0.0 && sqrtP1 > 0.0 ==> (amt < 0.0 <==> sqrtP1 > sqrtP0)
    ensures liquidity > 0.0 && sqrtP0 > 0.0 && sqrtP1 > 0.0 ==> (amt == 0.0 <==> sqrtP1 == sqrtP0)
  {
    var p := sqrtP0 * sqrtP1;
    assert sqrtP0 != 0.0 && sqrtP1 != 0.0;
    var a, b := liquidity / sqrtP1, liquidity / sqrtP0;
    assert a * sqrtP1 == liquidity && b * sqrtP0 == liquidity;
    assert (a - b) * p == a * sqrtP1 * sqrtP0 - b * sqrtP0 * sqrtP1;
    assert (a - b) * p == liquidity * (sqrtP0 - sqrtP1);
    assert amt * p == liquidity * (sqrtP0 - sqrtP1);
    if liquidity > 0.0 && sqrtP0 > 0.0 && sqrtP1 > 0.0 {
      assert p > 0.0;
      if sqrtP1 > sqrtP0 {
        assert liquidity * (sqrtP0 - sqrtP1) < 0.0;
      } else if sqrtP1 < sqrtP0 {
        assert liquidity * (sqrtP0 - sqrtP1) > 0.0;
      }
    }
  }

  lemma Token1AmountSign(liquidity: real, sqrtP0: real, sqrtP1: real, amt: real)
    requires amt == liquidity * (sqrtP1 - sqrtP0)
    ensures amt == liquidity * sqrtP1 - liquidity * sqrtP0
    ensures liquidity > 0.0 ==> (amt < 0.0 <==> sqrtP1 < sqrtP0)
    ensures liquidity > 0.0 ==> (amt == 0.0 <==> sqrtP1 == sqrtP0)
  {
    if liquidity > 0.0 {
      if sqrtP1 < sqrtP0 {
        assert liquidity * (sqrtP0 - sqrtP1) > 0.0;
      } else if sqrtP1 > sqrtP0 {
        assert liquidity * (sqrtP1 - sqrtP0) > 0.0;
      }
    }
  }

  /**
   * Round trip: the amount implied by the price move that an input of `amt`
   * causes is `amt` again, for either token.
   */
  lemma RoundTrip(isToken0: bool, sqrtP0: real, liquidity: real, amt: real)
    requires liquidity > 0.0 && sqrtP0 > 0.0 && amt >= 0.0
    ensures CalcSqrtPFromAmt(isToken0, sqrtP0, liquidity, amt) > 0.0
    ensures CalcAmtFromSqrtP(isToken0, sqrtP0, CalcSqrtPFromAmt(isToken0, sqrtP0, liquidity, amt), liquidity) == amt
  {
    ProductNonNegative(amt, sqrtP0);
    var sqrtP1 := CalcSqrtPFromAmt(isToken0, sqrtP0, liquidity, amt);
    assert sqrtP0 * sqrtP1 > 0.0;
    if isToken0 {
      Token0ReserveAfterInput(liquidity, sqrtP0, amt, sqrtP1);
    } else {
      Token1ReserveAfterInput(liquidity, sqrtP0, amt, sqrtP1);
    }
  }

  lemma Token0ReserveAfterInput(liquidity: real, sqrtP0: real, amt: real, sqrtP1: real)
    requires liquidity > 0.0 && sqrtP0 > 0.0 && amt >= 0.0
    requires sqrtP1 == (liquidity * sqrtP0) / (liquidity + (amt * sqrtP0))
    ensures sqrtP1 > 0.0
    ensures liquidity / sqrtP1 == liquidity / sqrtP0 + amt
  {
    var d := liquidity + amt * sqrtP0;
    ProductNonNegative(amt, sqrtP0);
    assert d > 0.0;
    assert sqrtP1 * d == liquidity * sqrtP0;
    assert sqrtP1 > 0.0;
    var x1 := liquidity / sqrtP1;
    assert x1 * sqrtP1 == liquidity;
    // x1 = L / √P1 = (L + amt √P0) / √P0
    assert x1 * sqrtP1 * d == liquidity * d;
    assert x1 * liquidity * sqrtP0 == liquidity * d;
    assert x1 * sqrtP0 == d;
    assert (liquidity / sqrtP0) * sqrtP0 == liquidity;
    assert (liquidity / sqrtP0 + amt) * sqrtP0 == d;
  }

  lemma Token1ReserveAfterInput(liquidity: real, sqrtP0: real, amt: real, sqrtP1: real)
    requires liquidity > 0.0
    requires sqrtP1 == sqrtP0 + (amt / liquidity)
    ensures liquidity * sqrtP1 == liquidity * sqrtP0 + amt
  {
    assert liquidity * (amt / liquidity) == amt;
  }

  /** The virtual reserves of a tier multiply to L², whatever its price. */
  lemma ReserveProduct(sqrtP: real, liquidity: real)
    requires sqrtP != 0.0
    ensures VirtualReserve(true, sqrtP, liquidity) * VirtualReserve(false, sqrtP, liquidity) == liquidity * liquidity
  {
    var x := liquidity / sqrtP;
    assert x * sqrtP == liquidity;
    assert x * (liquidity * sqrtP) == (x * sqrtP) * liquidity;
  }

  /**
   * A trade stays on the tier's curve: after `amt` of the sold token enters and
   * the other token changes by the amount calc_amt_from_sqrt_p reports for the
   * opposite token, the virtual reserves still multiply to L².
   */
  lemma TradeStaysOnCurve(isToken0: bool, sqrtP0: real, liquidity: real, amt: real)
    requires liquidity > 0.0 && sqrtP0 > 0.0 && amt >= 0.0
    ensures CalcSqrtPFromAmt(isToken0, sqrtP0, liquidity, amt) > 0.0
    ensures
      var sqrtP1 := CalcSqrtPFromAmt(isToken0, sqrtP0, liquidity, amt);
      var other := CalcAmtFromSqrtP(!isToken0, sqrtP0, sqrtP1, liquidity);
      (VirtualReserve(isToken0, sqrtP0, liquidity) + amt) * (VirtualReserve(!isToken0, sqrtP0, liquidity) + other)
        == liquidity * liquidity
  {
    RoundTrip(isToken0, sqrtP0, liquidity, amt);
    var sqrtP1 := CalcSqrtPFromAmt(isToken0, sqrtP0, liquidity, amt);
    assert sqrtP0 * sqrtP1 > 0.0;
    ReserveProduct(sqrtP1, liquidity);
  }
}
