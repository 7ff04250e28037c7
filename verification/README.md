# Muffin full-range multi-tier pool, modelled in Dafny

`muffin_fullrange.py` prototypes a constant-product pool for two tokens that
is split into fee tiers. Each tier has its own liquidity `L`, square-root
price `√P` and fee factor `sqrt_gamma`. Its virtual reserves are
`x = L/√P` of token0 and `y = L·√P` of token1, so `x·y = L²`.

An exact-input order is routed across the tiers by a Lagrange split that is
recomputed until no tier gets a negative amount. Each tier keeps
`gamma = sqrt_gamma²` of its input. The after-fee part moves the tier's price
along its curve. The fee, divided by `L`, is added to the fee growth of the
token that was sold.

This project models that engine over exact `real` arithmetic:

- `RealArith` holds small facts about ordered fields.
- `Sums` models `np.sum`, boolean-mask sums and mask counts.
- `PriceMath` covers `calc_sqrt_p_from_amt` and `calc_amt_from_sqrt_p`.
- `PoolState` covers the `Pool` record, its validity invariant, the
  constructor and the `prices` and `price` views.
- `TierAllocator` covers `_calc_tier_amts_in`.
- `SwapEngine` covers `swap`, plus runs of several orders.
- `Scenarios` covers the constructor's default pool.

The allocator loop is a recursive function. Its measure is the number of
active tiers. The model proves the following about it:

- The loop stops after at most one pass per tier.
- The active set never empties, so the divisor `Σ lsg` is always positive.
- The result is non-negative and sums to the request.
- The result is the water-filling allocation `max(0, level·lsg − res)` that
  adds up to the request, and that allocation is unique (for a zero request
  many levels give it). The final mask is exactly the set of tiers with
  `res ≤ level·lsg`.

The swap model proves the following:

- Every tier is settled as `SwapEngine.Settled` states.
- The pool stays valid.
- The fee rate of the order lies between the fee rates of the tiers that
  took part.
- The combined price moves against the seller.
- The split equalizes marginal prices: every tier that receives input ends
  at the allocator's final level, and every tier left out was already priced
  beyond it.

### Where the model follows the code rather than its comments

- `calc_amt_from_sqrt_p(False, …)` computes `L·(√P1 − √P0)` at line 115,
  although the comment at line 114 says `L·(√P0 − √P1)`. Both branches
  therefore return the signed change of the tier's virtual reserve.
  `swap` passes `not is_token0`, so every per-tier output `amts_out[i]` is ≤ 0.
  The output is a pool outflow with a negative sign, and the model keeps
  that sign.
- The constructor (lines 12-18) checks nothing. `PoolState.Valid` is the
  invariant that callers must establish. `PoolState.NewPoolValid` states
  exactly which arguments produce a valid pool.
- The fee rate is `1 − sqrt_gamma²` (line 40). For the default tiers (0.9985
  and 0.9997) that is 29.9775 and 5.9991 basis points. See
  `Scenarios.DefaultFeeRates`.
- The fee-growth selector `is_token0 == is_exact_in` (line 60) is modelled
  literally. After the check at line 34, `is_exact_in` always holds.
  `Settled` therefore credits the fees to the sold token's array, which is
  `fee0` exactly when `is_token0`.
- `SplitPass` writes the Lagrange amount of line 92 as `level·lsg − res`,
  with `level = (amount + Σ res)/Σ lsg`. `SplitPassAsCoded` shows that this
  is the expression of line 92, multiplied out by `Σ lsg`.

## Model

| member | source | states |
|---|---|---|
| PriceMath.CalcSqrtPFromAmt | muffin_fullrange.py:100-106 | for positive L and √P0 and a non-negative amount the new √P is positive; a positive amount of token0 strictly lowers √P, of token1 strictly raises it; a zero amount leaves it |
| PriceMath.CalcAmtFromSqrtP | muffin_fullrange.py:109-115 | the result is the change of the tier's virtual reserve (L/√P for token0, L·√P for token1); it is negative exactly when that reserve shrinks and zero exactly when the price is unchanged |
| PriceMath.RoundTrip | muffin_fullrange.py:100-115 | the amount implied by the price move that an input causes is that input again, for either token |
| PriceMath.ReserveProduct | muffin_fullrange.py:100-115 | the two virtual reserves of a tier multiply to L² at every price |
| PriceMath.TradeStaysOnCurve | muffin_fullrange.py:100-115 | after an input and the matching change of the other token, the reserves still multiply to L² |
| PoolState.NewPool | muffin_fullrange.py:12-18 | the pool has one tier per liquidity entry, keeps the liquidity and fee-factor lists as given, starts every tier at the given √P and every fee-growth entry at zero; NewPoolValid and PriceOfNewPool are its partners |
| PoolState.NewPoolValid | muffin_fullrange.py:12-18 | a freshly built pool is valid if and only if there is a tier, the fee factors match the liquidity list in length and lie in (0, 1], liquidity is positive and the starting √P is positive |
| PoolState.Gamma | muffin_fullrange.py:40 | every tier keeps a fraction in (0, 1] of its input |
| PoolState.FeeFactorInRange | muffin_fullrange.py:79 | squaring a fee factor in (0, 1] gives a retained fraction in (0, sqrt_gamma] |
| PoolState.Prices | muffin_fullrange.py:20-22 | one price per tier, never negative, and positive wherever √P is non-zero; PricesOrdered relates it to the √P order |
| PoolState.PricesOrdered | muffin_fullrange.py:20-22 | tier prices are positive, and squaring preserves the strict order and equality of the √P values |
| PoolState.Price | muffin_fullrange.py:24-29 | the combined price of a valid pool lies between the cheapest and the dearest tier price |
| PoolState.PriceOfNewPool | muffin_fullrange.py:16-29 | right after construction the combined price is the starting √P squared |
| PoolState.PriceMonotone | muffin_fullrange.py:24-29 | with the same liquidity, tiers that are all at most as dear and one strictly cheaper give a strictly lower combined price |
| TierAllocator.SplitPass | muffin_fullrange.py:92 | one pass puts every active tier at the common level, keeps the inactive entries, and the active amounts add up to the request |
| TierAllocator.SplitPassAsCoded | muffin_fullrange.py:92 | an active entry of the pass is lsg·(amount + Σres)/Σlsg − res |
| TierAllocator.DropShrinks | muffin_fullrange.py:93-96 | a pass that fails the exit test drops at least one active tier and never all of them |
| TierAllocator.Allocate | muffin_fullrange.py:91-97 | the loop terminates with a non-empty subset of the initial mask; amounts are non-negative, zero outside the mask, at the common level inside it, and sum to the request |
| TierAllocator.Passes | muffin_fullrange.py:91-97 | the loop makes at least one pass and at most one per initially active tier |
| TierAllocator.ZeroInactive | muffin_fullrange.py:94 | active entries keep the pass's amount, inactive ones become zero, and the plain sum of the result equals the masked sum of the pass |
| TierAllocator.Keep | muffin_fullrange.py:96 | a tier stays active exactly when it was active and its amount is non-negative: kept tiers are active and non-negative, and every dropped active tier had a negative amount |
| TierAllocator.LevelDrops | muffin_fullrange.py:96 | dropping the tiers with negative amounts strictly lowers the common level |
| TierAllocator.AllocateExcludes | muffin_fullrange.py:91-97 | every tier the loop drops is dearer than the final level |
| TierAllocator.AllocationIsFill | muffin_fullrange.py:93-94 | a final allocation is the water-filling max(0, level·lsg − res), and a tier is active exactly when res ≤ level·lsg |
| TierAllocator.FillMonotone | muffin_fullrange.py:92 | raising the level never lowers any tier's water-filling amount |
| TierAllocator.FillDeterminedBySum | muffin_fullrange.py:91-97 | two levels whose water-fillings carry the same total give the same allocation |
| TierAllocator.Lsg | muffin_fullrange.py:80 | every tier weight L/sqrt_gamma is positive |
| TierAllocator.Res | muffin_fullrange.py:81-82 | res is the tier's virtual reserve of the sold token grossed up by the fee: res·gamma equals the reserve, and it is positive |
| TierAllocator.AllActive | muffin_fullrange.py:86 | the starting mask has every tier active |
| TierAllocator.AllocateFromAllActive | muffin_fullrange.py:86-97 | started from all tiers and zero amounts, the loop returns the water-filling allocation at its final level, with the active set exactly the tiers below that level |
| TierAllocator.TierSplit | muffin_fullrange.py:73-97 | for a non-negative request: amounts are non-negative, sum to the request, are zero off the final mask, and form the water-filling allocation at the final level |
| TierAllocator.TierSplitUnique | muffin_fullrange.py:73-97 | any level whose water-filling adds up to the request yields exactly the allocator's amounts |
| TierAllocator.CalcTierAmtsIn | muffin_fullrange.py:73-74 | fails exactly on a negative amount; otherwise the amounts are non-negative and sum to it |
| SwapEngine.Trade | muffin_fullrange.py:39-54 | one tier's trade satisfies the predicate Traded: the fee is (1−gamma) of the input; the sold reserve grows by the rest; the other reserve changes by a non-positive output that is non-zero exactly when the input is; the price moves against the sold token |
| SwapEngine.FeeSplit | muffin_fullrange.py:41-54 | the after-fee input lies between 0 and the input, is positive exactly for a positive input, and the fee is input·(1−gamma) |
| SwapEngine.Leg | muffin_fullrange.py:41-54 | tiers of the mask trade their input and the others do nothing, and either way the tier satisfies Traded for its input |
| SwapEngine.Settle | muffin_fullrange.py:56-61 | the pool keeps its size, liquidity and fee factors; masked tiers take their leg's √P and add fee/L to the selected fee-growth array; other tiers and the other array are unchanged; validity is stated by SettleKeepsPool |
| SwapEngine.SettleKeepsPool | muffin_fullrange.py:56-61 | the updated pool is valid; liquidity and fee factors are unchanged; each tier takes its leg's price; the sold token's fee growth rises by fee/L; the other token's fee growth is untouched |
| SwapEngine.AllSettled | muffin_fullrange.py:39-61 | every tier of the updated pool and of the report satisfies the per-tier settlement contract |
| SwapEngine.Report | muffin_fullrange.py:63-71 | given legs that trade nothing outside the mask, the per-tier arrays are the allocation and the legs' outputs and fees; each total is both the masked sum of lines 64-66 and the plain sum of its array, and fee_bps is the total fee over the total input times 10000 |
| SwapEngine.ReportTotals | muffin_fullrange.py:63-66 | the reported totals over the mask equal the plain sums of the per-tier arrays |
| SwapEngine.SettledCharges | muffin_fullrange.py:52-54 | every tier's fee is its input times its fee rate 1 − gamma |
| SwapEngine.FeeBpsBetween | muffin_fullrange.py:67 | fee_bps lies between the fee rates, in basis points, of two tiers that received input |
| SwapEngine.Execute | muffin_fullrange.py:36-71 | the pool stays valid with the same liquidity and fee factors; the input is the whole order as routed by the allocator; every tier is settled; the totals are the per-tier sums; fee_bps lies between participating tier rates |
| SwapEngine.Swap | muffin_fullrange.py:31-71 | fails exactly when the order is not exact-input; otherwise the pool only moves forward, amt_in is the requested amount and every tier is settled |
| SwapEngine.SettledGrowth | muffin_fullrange.py:59-61 | a swap never lowers any fee-growth entry of either token |
| SwapEngine.Run | muffin_fullrange.py:31-71 | a run of orders fails exactly when some order is not exact-input; otherwise the pool stays valid with the same liquidity and fee factors and no fee growth lowered |
| SwapEngine.SettledPrices | muffin_fullrange.py:44-57 | every tier's √P moves against the seller or stays, strictly for a tier that received input |
| SwapEngine.TiersEqualized | muffin_fullrange.py:37-57 | for a positive order, with level the allocator's final level: every tier of the final mask ends at √P = level·sqrt_gamma (token1 sold) or level·sqrt_gamma·√P = 1 (token0 sold); every other tier started beyond that level |
| SwapEngine.PriceMovesAgainstSeller | muffin_fullrange.py:24-57 | selling token0 strictly lowers the combined price; selling token1 strictly raises it |
| Scenarios.DefaultPoolValid | muffin_fullrange.py:12-18 | the default pool is valid, has two tiers and a combined price of 1 |
| Scenarios.DefaultFeeRates | muffin_fullrange.py:12 | the default tiers charge 29.9775 and 5.9991 basis points |

## Left out

- Floating point is not modelled. The model uses exact reals: there is no
  `np.float_` rounding, no overflow and no tolerance. Every identity above
  holds exactly, and may hold only approximately in the program.
- numpy's vectorisation is not modelled. Boolean-mask indexing and `np.sum`
  become sequences, masks and recursive sums.
- Exact-output orders are not modelled, because the code does not implement
  them. Such orders fail the assertion at line 34, modelled as
  `Err(ExactInputOnly)`. A Python `AssertionError` becomes that result.
- SwapEngine.Run stops at the first failing order and returns only the
  error. In Python, the orders before it have already changed the pool when
  the exception is raised.
- `swap` calls the allocator only after its own check, so the model calls
  `TierSplit` (amount ≥ 0) directly. The allocator's own assertion (line 74)
  is modelled separately by `CalcTierAmtsIn`.
- Inputs that break `PoolState.Valid` are outside the model. numpy turns a
  division by zero into an infinity or NaN rather than raising. In the code:
  - a zero fee factor divides by zero at lines 80-82;
  - a tier with zero liquidity stays active with amount 0 (line 92); its new
    √P is 0/0 at line 103 (token0 sold) or line 106 (token1 sold), and line
    57 stores that NaN in the pool. If every tier has zero liquidity, line
    92 divides by Σlsg = 0;
  - a zero price divides by zero at line 81 when token0 is sold, and at
    line 112 (denominator √P0·√P1) when token1 is sold;
  - a fee factor above 1 runs: line 54 gives negative fee amounts and line
    61 lowers the fee growth;
  - negative liquidity or price gives meaningless numbers and can divide by
    zero: line 103's denominator `L + Δx·√P0`, line 92's `Σlsg` or line
    29's `ΣL` can be 0;
  - fee-factor and liquidity lists of different lengths, neither of length
    1, raise a numpy broadcast error at line 80. A liquidity list of length
    1 broadcasts there and fails with an IndexError at `lsg[mask]` (line
    92). A fee-factor list of length 1 fails with an IndexError at
    `gamma[mask]` (line 42).
- Whether the higher-fee tier receives the smaller amount is not stated.
  For tiers of equal liquidity and price this holds only while the request
  is below a threshold. Above it, the higher-fee tier receives the larger
  gross amount.
- Persistence, token transfers, concurrency and any host layer are not part
  of the code and are not modelled.
