/** How a block's revenue is split between the pool and the miners of its round
    (payouts/unlocker.go). `big.Rat` values are exact, so they are reals here. */
module Rewards {
  import opened FiniteSums
  import opened Wrappers

  /** `Rat.FloatString(0)` read back as an integer: nearest, halves away from zero. */
  function RoundHalfAway(x: real): int {
    if x >= 0.0 then (x + 0.5).Floor else -(0.5 - x).Floor
  }

  lemma RoundingError(x: real)
    ensures -0.5 <= RoundHalfAway(x) as real - x <= 0.5
    ensures RoundHalfAway(-x) == -RoundHalfAway(x)
  {
  }

  /** The nearest whole number to a half is the one farther from zero. */
  lemma HalvesGoAway(k: int)
    ensures RoundHalfAway(k as real + 0.5) == if k >= 0 then k + 1 else k
  {
  }

  lemma RoundingMonotone(x: real, y: real)
    requires x <= y
    ensures RoundHalfAway(x) <= RoundHalfAway(y)
  {
  }

  /** Deducts the pool fee, a fraction of the value; returns what is left and the fee. */
  function ChargeFee(value: real, fee: real): (r: (real, real))
    ensures r.0 + r.1 == value
    ensures 0.0 <= fee <= 1.0 && value >= 0.0 ==> 0.0 <= r.0 <= value
  {
    (value - value * fee, value * fee)
  }

  /** One miner's part of the reward. `total` is the divisor of `big.NewRat`, which panics on zero. */
  function Portion(reward: real, n: int, total: int): real
    requires total != 0
  {
    reward * (n as real / total as real)
  }

  /** The reward map as a function of the round, with no order of iteration in it. */
  function ShareOut(shares: map<string, int>, total: int, reward: real): map<string, int>
    requires total != 0
  {
    map login | login in shares :: RoundHalfAway(Portion(reward, shares[login], total))
  }

  /** The source's loop: it visits the round's miners in whatever order the map yields them. */
  method CalculateRewardsForShares(shares: map<string, int>, total: int, reward: real)
    returns (rewards: map<string, int>)
    requires total != 0
    ensures rewards == ShareOut(shares, total, reward)
  {
    rewards := map[];
    var todo := shares.Keys;
    while todo != {}
      invariant todo <= shares.Keys
      invariant rewards == ShareOut(Restrict(shares, shares.Keys - todo), total, reward)
      decreases todo
    {
      var login :| login in todo;
      var n := shares[login];
      var value := RoundHalfAway(Portion(reward, n, total));
      rewards := IncrBy(rewards, login, value);
      todo := todo - {login};
    }
    assert Restrict(shares, shares.Keys - todo) == shares;
  }

  /** The settings of the unlocker that decide amounts. `poolFee` is the fraction `PoolFee / 100`. */
  datatype FeeConfig = FeeConfig(poolFee: real, poolFeeAddress: string, keepTxFees: bool)

  function LowerChar(c: char): char {
    if 'A' <= c <= 'Z' then c - 'A' + 'a' else c
  }

  /** `strings.ToLower` on ASCII text. */
  function ToLower(s: string): string {
    seq(|s|, i requires 0 <= i < |s| => LowerChar(s[i]))
  }

  /** What `handleBlock` sets on a block the chain confirms. */
  function HandledReward(cfg: FeeConfig, coinBaseValue: int, blkTotalFee: int): int {
    if cfg.keepTxFees then coinBaseValue else coinBaseValue + blkTotalFee
  }

  function HandledExtra(cfg: FeeConfig, blkTotalFee: int): Option<int> {
    if cfg.keepTxFees then Some(blkTotalFee) else None
  }

  function PoolProfit(cfg: FeeConfig, reward: int, extra: Option<int>): real {
    ChargeFee(reward as real, cfg.poolFee).1 + if extra.Some? then extra.value as real else 0.0
  }

  /** Everything credited for one block: the miners' portions, and the pool's own if it has an address. */
  function BlockCredits(cfg: FeeConfig, reward: int, extra: Option<int>, shares: map<string, int>,
                        total: int): map<string, int>
    requires total != 0
  {
    var base := ShareOut(shares, total, ChargeFee(reward as real, cfg.poolFee).0);
    if cfg.poolFeeAddress == "" then base
    else IncrBy(base, ToLower(cfg.poolFeeAddress), RoundHalfAway(PoolProfit(cfg, reward, extra)))
  }

  /** Only the 26 capital letters change, each to its small letter, which is 32 characters on. */
  lemma SmallLetters(s: string, i: nat)
    requires i < |s|
    ensures |ToLower(s)| == |s|
    ensures ToLower(s)[i] as int == if 'A' <= s[i] <= 'Z' then s[i] as int + 32 else s[i] as int
  {
  }

  predicate HasNoCapital(s: string) {
    forall i :: 0 <= i < |s| ==> !('A' <= s[i] <= 'Z')
  }

  lemma LowerKeepsIff(s: string)
    ensures ToLower(s) == s <==> HasNoCapital(s)
  {
    if HasNoCapital(s) {
      assert forall i :: 0 <= i < |s| ==> ToLower(s)[i] == s[i];
    } else {
      var i :| 0 <= i < |s| && 'A' <= s[i] <= 'Z';
      assert ToLower(s)[i] != s[i];
    }
  }

  /** The pool's own part goes to the address in lower case, so the configured address gets it exactly
      if it has no capital letter, or the part rounds to nothing. */
  lemma FeeReachesItsAddressIff(cfg: FeeConfig, reward: int, extra: Option<int>, shares: map<string, int>, total: int)
    requires total != 0 && cfg.poolFeeAddress != ""
    ensures var credits, base := BlockCredits(cfg, reward, extra, shares, total),
      ShareOut(shares, total, ChargeFee(reward as real, cfg.poolFee).0);
      var address, fee := cfg.poolFeeAddress, RoundHalfAway(PoolProfit(cfg, reward, extra));
      && Get(credits, ToLower(address)) == Get(base, ToLower(address)) + fee
      && (Get(credits, address) == Get(base, address) + fee <==> HasNoCapital(address) || fee == 0)
  {
    LowerKeepsIff(cfg.poolFeeAddress);
  }

  // ---------- who gets what ----------

  /** A whole amount within one half of an exact one. */
  predicate Near(n: int, exact: real) { -0.5 <= n as real - exact <= 0.5 }

  /** A miner's part of a block: its part of the shares of what the pool's fee leaves of the revenue. */
  function MinersPart(fees: FeeConfig, revenue: int, n: int, total: int): real
    requires total != 0
  {
    (1.0 - fees.poolFee) * revenue as real * n as real / total as real
  }

  /** The amount is the fee, to the nearest, on top of the address's own part, if it has one. */
  ghost predicate OnTop(amount: int, exactFee: real, own: Option<real>) {
    exists fee: int :: Near(fee, exactFee) && if own.Some? then Near(amount - fee, own.value) else amount == fee
  }

  /** The pool's part: its fee, and the transactions' fees if it keeps them. */
  function PoolsPart(fees: FeeConfig, revenue: int, kept: int): real {
    fees.poolFee * revenue as real + kept as real
  }

  function OwnPart(fees: FeeConfig, revenue: int, shares: map<string, int>, total: int, login: string): Option<real>
    requires total != 0
  {
    if login in shares then Some(MinersPart(fees, revenue, shares[login], total)) else None
  }

  /** Everyone gets its part: each miner of the round its own, and the fee address, in lower case and on
      top of what it has as a miner, the pool's. */
  ghost predicate Divided(credits: map<string, int>, fees: FeeConfig, revenue: int, kept: int,
                          shares: map<string, int>, total: int)
    requires total != 0
  {
    var feeLogins := if fees.poolFeeAddress == "" then {} else {ToLower(fees.poolFeeAddress)};
    && credits.Keys == shares.Keys + feeLogins
    && (forall login <- shares.Keys - feeLogins ::
          Near(credits[login], MinersPart(fees, revenue, shares[login], total)))
    && (forall login <- feeLogins ::
          OnTop(credits[login], PoolsPart(fees, revenue, kept), OwnPart(fees, revenue, shares, total, login)))
  }

  /** What may be credited for a block of these amounts. The transactions' fees are part of what is
      divided, or else the pool keeps them. */
  ghost predicate PaidOut(credits: map<string, int>, fees: FeeConfig, coinBaseValue: int, blkTotalFee: int,
                          shares: map<string, int>, total: int)
    requires total != 0
  {
    if fees.keepTxFees then Divided(credits, fees, coinBaseValue, blkTotalFee, shares, total)
    else Divided(credits, fees, coinBaseValue + blkTotalFee, 0, shares, total)
  }

  lemma PortionIsPart(fees: FeeConfig, revenue: int, n: int, total: int)
    requires total != 0
    ensures Portion(ChargeFee(revenue as real, fees.poolFee).0, n, total) == MinersPart(fees, revenue, n, total)
  {
    var r, f, x, t := revenue as real, fees.poolFee, n as real, total as real;
    assert r - r * f == (1.0 - f) * r;
    var a := (1.0 - f) * r;
    assert a * (x / t) == a * x / t;
  }

  lemma MinerIsNear(fees: FeeConfig, revenue: int, n: int, total: int)
    requires total != 0
    ensures Near(RoundHalfAway(Portion(ChargeFee(revenue as real, fees.poolFee).0, n, total)),
                 MinersPart(fees, revenue, n, total))
  {
    PortionIsPart(fees, revenue, n, total);
    RoundingError(Portion(ChargeFee(revenue as real, fees.poolFee).0, n, total));
  }

  lemma CreditsAreDivided(fees: FeeConfig, revenue: int, extra: Option<int>, shares: map<string, int>, total: int)
    requires total != 0
    ensures Divided(BlockCredits(fees, revenue, extra, shares, total), fees, revenue,
                    if extra.Some? then extra.value else 0, shares, total)
  {
    var kept := if extra.Some? then extra.value else 0;
    var base := ShareOut(shares, total, ChargeFee(revenue as real, fees.poolFee).0);
    forall login <- shares ensures Near(base[login], MinersPart(fees, revenue, shares[login], total)) {
      MinerIsNear(fees, revenue, shares[login], total);
    }
    if fees.poolFeeAddress != "" {
      var address := ToLower(fees.poolFeeAddress);
      var fee := RoundHalfAway(PoolProfit(fees, revenue, extra));
      RoundingError(PoolProfit(fees, revenue, extra));
      FeeIsPart(fees, revenue, extra);
      IsOnTop(Get(base, address), fee, PoolsPart(fees, revenue, kept), OwnPart(fees, revenue, shares, total, address));
    }
  }

  /** What the unlocker computes is what may be credited. */
  lemma CreditsArePaidOut(fees: FeeConfig, coinBaseValue: int, blkTotalFee: int, shares: map<string, int>, total: int)
    requires total != 0
    ensures PaidOut(BlockCredits(fees, HandledReward(fees, coinBaseValue, blkTotalFee), HandledExtra(fees, blkTotalFee),
                                 shares, total),
                    fees, coinBaseValue, blkTotalFee, shares, total)
  {
    CreditsAreDivided(fees, HandledReward(fees, coinBaseValue, blkTotalFee), HandledExtra(fees, blkTotalFee), shares,
                      total);
  }

  lemma IsOnTop(own: int, fee: int, exactFee: real, exactOwn: Option<real>)
    requires Near(fee, exactFee) && if exactOwn.Some? then Near(own, exactOwn.value) else own == 0
    ensures OnTop(own + fee, exactFee, exactOwn)
  {
    assert Near(fee, exactFee) && own + fee - fee == own;
  }

  lemma FeeIsPart(fees: FeeConfig, revenue: int, extra: Option<int>)
    ensures PoolProfit(fees, revenue, extra) == PoolsPart(fees, revenue, if extra.Some? then extra.value else 0)
  {
    var r, f := revenue as real, fees.poolFee;
    assert r * f == f * r;
  }

  lemma PortionAdds(reward: real, a: int, b: int, total: int)
    requires total != 0
    ensures Portion(reward, a + b, total) == Portion(reward, a, total) + Portion(reward, b, total)
  {
    var t := total as real;
    assert (a + b) as real / t == a as real / t + b as real / t;
  }

  lemma {:induction false} PortionsNearTheirSum(s: set<string>, shares: map<string, int>, total: int, reward: real)
    requires total != 0
    requires s <= shares.Keys
    ensures -(|s| as real) <= 2.0 * (Total(s, ShareOut(shares, total, reward)) as real
                                     - Portion(reward, Total(s, shares), total)) <= |s| as real
  {
    if s != {} {
      var k :| k in s;
      TotalTakeOut(s, shares, k);
      TotalTakeOut(s, ShareOut(shares, total, reward), k);
      PortionsNearTheirSum(s - {k}, shares, total, reward);
      PortionAdds(reward, shares[k], Total(s - {k}, shares), total);
      RoundingError(Portion(reward, shares[k], total));
    }
  }

  /** The rounded rewards of a round of `n` miners miss the miners' profit by at most `n/2`. */
  lemma RewardsNearProfit(shares: map<string, int>, total: int, reward: real)
    requires total != 0
    requires Sum(shares) == total
    ensures -(|shares| as real) <= 2.0 * (Sum(ShareOut(shares, total, reward)) as real - reward) <= |shares| as real
  {
    PortionsNearTheirSum(shares.Keys, shares, total, reward);
    PortionOfAll(reward, total);
    assert ShareOut(shares, total, reward).Keys == shares.Keys;
  }

  lemma PortionOfAll(reward: real, total: int)
    requires total != 0
    ensures Portion(reward, total, total) == reward
  {
    assert total as real / total as real == 1.0;
  }

  /** Two miners with one share each of a profit of one satoshi: the bound is reached. */
  lemma ProfitBoundIsReached()
    ensures var shares := map["a" := 1, "b" := 1];
      Sum(shares) == 2 && 2.0 * (Sum(ShareOut(shares, 2, 1.0)) as real - 1.0) == |shares| as real
  {
    var shares := map["a" := 1, "b" := 1];
    SumSingle("a", 1);
    SumPut(map["a" := 1], "b", 1);
    assert map["a" := 1]["b" := 1] == shares;
    assert "a" != "b";
    assert ShareOut(shares, 2, 1.0) == shares;
  }

  /** With a fee address, everything credited for a block of `n` miners misses the block's revenue,
      as the code counts it, by at most `(n+1)/2`, whether or not the pool keeps the fees. */
  lemma CreditsNearRevenue(cfg: FeeConfig, coinBaseValue: int, blkTotalFee: int, shares: map<string, int>, total: int)
    requires total != 0
    requires Sum(shares) == total
    requires cfg.poolFeeAddress != ""
    ensures var credits := BlockCredits(cfg, HandledReward(cfg, coinBaseValue, blkTotalFee),
                                        HandledExtra(cfg, blkTotalFee), shares, total);
      -((|shares| + 1) as real) <= 2.0 * (Sum(credits) - (coinBaseValue + blkTotalFee)) as real
        <= (|shares| + 1) as real
  {
    var reward, extra := HandledReward(cfg, coinBaseValue, blkTotalFee), HandledExtra(cfg, blkTotalFee);
    var profit := ChargeFee(reward as real, cfg.poolFee).0;
    var base := ShareOut(shares, total, profit);
    var address := ToLower(cfg.poolFeeAddress);
    var fee := PoolProfit(cfg, reward, extra);
    RewardsNearProfit(shares, total, profit);
    RoundingError(fee);
    SumPut(base, address, Get(base, address) + RoundHalfAway(fee));
    assert profit + fee == (coinBaseValue + blkTotalFee) as real;
  }

  /** More shares never earn less. */
  lemma MoreSharesEarnNoLess(shares: map<string, int>, total: int, reward: real, a: string, b: string)
    requires total > 0 && reward >= 0.0
    requires a in shares && b in shares && shares[a] <= shares[b]
    ensures ShareOut(shares, total, reward)[a] <= ShareOut(shares, total, reward)[b]
  {
    var t := total as real;
    assert shares[a] as real / t <= shares[b] as real / t;
    assert Portion(reward, shares[a], total) <= Portion(reward, shares[b], total);
    RoundingMonotone(Portion(reward, shares[a], total), Portion(reward, shares[b], total));
  }
}
