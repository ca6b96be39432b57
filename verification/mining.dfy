/**
 * The mining section: the block subsidy schedule, the number of bitcoin
 * mined so far, the next halving and a hashrate estimate from the tip's
 * difficulty.
 */
module Mining {

  import opened Arith
  import opened Chain

  const InitialReward: real := 50.0
  const MaxSupply: real := 21000000.0

  /** The number of halvings that have happened by height h. */
  function Halvings(h: nat): nat {
    h / HalvingInterval
  }

  /** The subsidy of the block at height h: 50 BTC halved once per completed era. */
  function Subsidy(h: nat): (r: real)
    ensures r > 0.0
  {
    InitialReward / Pow2(Halvings(h)) as real
  }

  /** Doubling the subsidy once per halving so far gives back the initial 50 BTC. */
  lemma SubsidyTimesHalvings(h: nat)
    ensures Subsidy(h) * Pow2(Halvings(h)) as real == InitialReward
  {
  }

  /** The subsidy in era k, whatever the height inside it. */
  lemma SubsidyInEra(h: nat, k: nat)
    requires k * HalvingInterval <= h < (k + 1) * HalvingInterval
    ensures Subsidy(h) == InitialReward / Pow2(k) as real
  {
    DivModUnique(h, HalvingInterval, k, h - k * HalvingInterval);
  }

  /** One era later the subsidy is half as large. */
  lemma SubsidyHalves(h: nat)
    ensures Subsidy(h + HalvingInterval) * 2.0 == Subsidy(h)
  {
    var k := Halvings(h);
    SubsidyInEra(h + HalvingInterval, k + 1);
    assert Pow2(k + 1) as real == 2.0 * Pow2(k) as real;
  }

  /** Blocks left, the tip included, before the next halving height. */
  function BlocksUntilHalving(h: nat): (b: nat)
    ensures 1 <= b <= HalvingInterval
    ensures (h + b) % HalvingInterval == 0
    ensures Halvings(h + b) == Halvings(h) + 1
  {
    var b := HalvingInterval - h % HalvingInterval;
    DivModUnique(h + b, HalvingInterval, Halvings(h) + 1, 0);
    b
  }

  /** No halving height lies strictly between h and h + BlocksUntilHalving(h). */
  lemma NoHalvingBefore(h: nat, k: nat)
    requires k < BlocksUntilHalving(h)
    ensures Halvings(h + k) == Halvings(h)
    ensures Subsidy(h + k) == Subsidy(h)
  {
    var q := Halvings(h);
    DivModUnique(h + k, HalvingInterval, q, h % HalvingInterval + k);
  }

  /**
   * What the loop of calculateMinedBitcoin adds up: the remaining blocks in
   * whole eras of HalvingInterval blocks, the reward halving from era to era.
   */
  function Supply(remaining: int, reward: real): real
    decreases remaining
  {
    if remaining <= 0 then 0.0
    else Min(HalvingInterval, remaining) as real * reward + Supply(remaining - HalvingInterval, reward / 2.0)
  }

  /** The supply of the first `height` blocks, less the unspendable genesis reward. */
  function MinedBitcoin(height: int): real {
    Supply(height, InitialReward) - (if height > 0 then InitialReward else 0.0)
  }

  method CalculateMinedBitcoin(blockHeight: int) returns (totalBitcoinMined: real)
    ensures totalBitcoinMined == MinedBitcoin(blockHeight)
  {
    var initialReward := InitialReward;
    var halvingInterval := HalvingInterval;
    totalBitcoinMined := 0.0;

    var currentReward := initialReward;
    var remainingBlocks := blockHeight;
    while remainingBlocks > 0
      invariant totalBitcoinMined + Supply(remainingBlocks, currentReward) == Supply(blockHeight, initialReward)
      decreases remainingBlocks
    {
      var blocksInCurrentPeriod := Min(halvingInterval, remainingBlocks);
      totalBitcoinMined := totalBitcoinMined + blocksInCurrentPeriod as real * currentReward;
      currentReward := currentReward / 2.0;
      remainingBlocks := remainingBlocks - halvingInterval;
    }

    if blockHeight > 0 {
      totalBitcoinMined := totalBitcoinMined - 50.0;
    }
  }

  /** f(lo) + ... + f(hi - 1): with f = Subsidy, the subsidies of the blocks at heights lo .. hi - 1. */
  function Total(f: nat -> real, lo: nat, hi: nat): real
    decreases hi
  {
    if hi <= lo then 0.0 else Total(f, lo, hi - 1) + f(hi - 1)
  }

  lemma {:induction false} TotalSplit(f: nat -> real, a: nat, b: nat, c: nat)
    requires a <= b <= c
    ensures Total(f, a, c) == Total(f, a, b) + Total(f, b, c)
    decreases c
  {
    if b < c {
      TotalSplit(f, a, b, c - 1);
    }
  }

  lemma {:induction false} TotalNonNegative(f: nat -> real, a: nat, b: nat)
    requires forall i :: f(i) >= 0.0
    ensures Total(f, a, b) >= 0.0
    decreases b
  {
    if a < b {
      TotalNonNegative(f, a, b - 1);
    }
  }

  /** A run of m terms that all equal w adds up to m * w. */
  lemma {:induction false} ConstantTotal(f: nat -> real, a: nat, m: nat, w: real)
    requires forall i :: a <= i < a + m ==> f(i) == w
    ensures Total(f, a, a + m) == m as real * w
    decreases m
  {
    if m > 0 {
      ConstantTotal(f, a, m - 1, w);
      var before := Total(f, a, a + m - 1);
      assert before == (m - 1) as real * w;
      assert Total(f, a, a + m) == before + f(a + m - 1);
      assert f(a + m - 1) == w;
      AddOneMore(m, w);
    }
  }

  /** The first m blocks of era k each earn 50 / 2^k. */
  lemma EraSum(k: nat, m: nat)
    requires m <= HalvingInterval
    ensures Total(Subsidy, k * HalvingInterval, k * HalvingInterval + m) == m as real * EraReward(k)
  {
    var a := k * HalvingInterval;
    assert (k + 1) * HalvingInterval == a + HalvingInterval;
    forall i | a <= i < a + m
      ensures Subsidy(i) == EraReward(k)
    {
      SubsidyInEra(i, k);
    }
    ConstantTotal(Subsidy, a, m, EraReward(k));
  }

  /** Blocks that all fall inside era k. */
  lemma LastEra(k: nat, r: nat)
    requires 0 < r <= HalvingInterval
    ensures Supply(r, EraReward(k)) == Total(Subsidy, k * HalvingInterval, k * HalvingInterval + r)
  {
    var w := EraReward(k);
    EraSum(k, r);
    assert Supply(r - HalvingInterval, w / 2.0) == 0.0;
    assert Min(HalvingInterval, r) == r;
    assert Supply(r, w) == r as real * w + Supply(r - HalvingInterval, w / 2.0);
  }

  /** The era-by-era sum from era k on adds up the subsidies of the blocks it covers. */
  lemma {:induction false} SupplyIsTotalSubsidy(k: nat, r: nat)
    ensures Supply(r, EraReward(k)) == Total(Subsidy, k * HalvingInterval, k * HalvingInterval + r)
    decreases r
  {
    if 0 < r <= HalvingInterval {
      LastEra(k, r);
    } else if r > HalvingInterval {
      SupplyIsTotalSubsidy(k + 1, r - HalvingInterval);
      NextEra(k, r);
    }
  }

  /** The reward in era k: 50 / 2^k. */
  function EraReward(k: nat): (w: real)
    ensures w > 0.0
  {
    InitialReward / Pow2(k) as real
  }

  lemma HalfReward(k: nat)
    ensures EraReward(k) / 2.0 == EraReward(k + 1)
  {
    assert Pow2(k + 1) as real == 2.0 * Pow2(k) as real;
  }

  /** A full era of era k followed by the blocks after it. */
  lemma NextEra(k: nat, r: nat)
    requires r > HalvingInterval
    requires Supply(r - HalvingInterval, EraReward(k + 1))
          == Total(Subsidy, (k + 1) * HalvingInterval, (k + 1) * HalvingInterval + (r - HalvingInterval))
    ensures Supply(r, EraReward(k)) == Total(Subsidy, k * HalvingInterval, k * HalvingInterval + r)
  {
    var a := k * HalvingInterval;
    var next := a + HalvingInterval;
    var w := EraReward(k);
    assert (k + 1) * HalvingInterval == next;
    HalfReward(k);
    var later := Supply(r - HalvingInterval, w / 2.0);
    assert later == Total(Subsidy, next, a + r);
    EraSum(k, HalvingInterval);
    var first := Total(Subsidy, a, next);
    assert first == HalvingInterval as real * w;
    assert Supply(r, w) == HalvingInterval as real * w + later;
    TotalSplit(Subsidy, a, next, a + r);
  }

  /** calculateMinedBitcoin(h) is the total subsidy of the blocks at heights 1 .. h - 1. */
  lemma MinedIsTotalSubsidy(h: nat)
    ensures MinedBitcoin(h) == Total(Subsidy, 1, h)
  {
    SupplyIsTotalSubsidy(0, h);
    assert EraReward(0) == InitialReward;
    if h > 0 {
      TotalSplit(Subsidy, 0, 1, h);
    }
  }

  /** In the first era every block after genesis adds 50 BTC. */
  lemma MinedInFirstEra(h: nat)
    requires 0 < h <= HalvingInterval
    ensures MinedBitcoin(h) == 50.0 * (h - 1) as real
  {
    assert Supply(h - HalvingInterval, InitialReward / 2.0) == 0.0;
  }

  /** More blocks never mean fewer coins. */
  lemma MinedMonotone(h1: nat, h2: nat)
    requires h1 <= h2
    ensures MinedBitcoin(h1) <= MinedBitcoin(h2)
  {
    MinedIsTotalSubsidy(h1);
    MinedIsTotalSubsidy(h2);
    if h1 >= 1 {
      TotalSplit(Subsidy, 1, h1, h2);
      TotalNonNegative(Subsidy, h1, h2);
    } else {
      TotalNonNegative(Subsidy, 1, h2);
    }
  }

  /** The era sum from a reward w stays below twice an era's worth of w. */
  lemma {:induction false} SupplyBelowTwoEras(r: int, w: real)
    requires w > 0.0
    ensures 0.0 <= Supply(r, w) < 420000.0 * w
    decreases r
  {
    if r > 0 {
      SupplyBelowTwoEras(r - HalvingInterval, w / 2.0);
      SupplyStep(r, w);
    }
  }

  /** One more era in front of a bounded remainder stays within the bound. */
  lemma SupplyStep(r: int, w: real)
    requires r > 0 && w > 0.0
    requires 0.0 <= Supply(r - HalvingInterval, w / 2.0) < 420000.0 * (w / 2.0)
    ensures 0.0 <= Supply(r, w) < 420000.0 * w
  {
    var m := Min(HalvingInterval, r);
    EraBound(m, w);
    TwoEraBound(m as real * w, Supply(r - HalvingInterval, w / 2.0), w);
  }

  lemma TwoEraBound(era: real, rest: real, w: real)
    requires 0.0 <= era <= 210000.0 * w
    requires 0.0 <= rest < 420000.0 * (w / 2.0)
    ensures 0.0 <= era + rest < 420000.0 * w
  {
  }

  lemma EraBound(m: int, w: real)
    requires 0 <= m <= HalvingInterval && w > 0.0
    ensures 0.0 <= m as real * w <= 210000.0 * w
  {
  }

  lemma AddOneMore(m: int, w: real)
    ensures (m - 1) as real * w + w == m as real * w
  {
  }

  /** The mined amount never reaches the 21 million cap and is never negative. */
  lemma MinedBounds(h: int)
    ensures 0.0 <= MinedBitcoin(h) < MaxSupply
  {
    SupplyBelowTwoEras(h, InitialReward);
    if h > 0 {
      MinedIsTotalSubsidy(h);
      TotalNonNegative(Subsidy, 1, h);
    }
  }

  /** The share of the 21 million cap mined by height h, in percent. */
  function CoinPercent(h: int): (p: real)
    ensures p * MaxSupply == MinedBitcoin(h) * 100.0
    ensures 0.0 <= p < 100.0
  {
    MinedBounds(h);
    MinedBitcoin(h) / MaxSupply * 100.0
  }

  /** Hashes per second that find one block of this difficulty (2^32 hashes each) every 600 seconds. */
  function EstimatedHashrate(difficulty: real): (hashrate: real)
    ensures hashrate * 600.0 == difficulty * 4294967296.0
  {
    difficulty * 4294967296.0 / 600.0
  }

  /** H/s as EH/s. */
  function ConvertHtoEH(hashRateH: real): (eh: real)
    ensures eh * 1000000000000000000.0 == hashRateH
  {
    hashRateH / 1000000000000000000.0
  }

  /** When the next halving is expected, in milliseconds since the epoch. */
  function HalvingEstimate(tipTime: int, h: nat): (ms: int)
    ensures ms == 1000 * tipTime + 1000 * SecondsPerBlock * BlocksUntilHalving(h)
    ensures 1000 * tipTime + 600000 <= ms <= 1000 * tipTime + 1000 * SecondsPerBlock * HalvingInterval
  {
    (tipTime + BlocksUntilHalving(h) * SecondsPerBlock) * 1000
  }

  /** The numbers getMiningData hands to toMiningData, before they are rendered as text. */
  datatype MiningData = MiningData(
    coins: int,
    coinPercent: real,
    blockSubsidy: real,
    blocksUntilHalving: nat,
    halvingEstimate: int,
    networkHashRate: real)

  function GetMiningData(chain: Blocks): (m: MiningData)
    ensures m.blockSubsidy == Subsidy(BlockCount(chain))
    ensures m.blockSubsidy * Pow2(BlockCount(chain) / HalvingInterval) as real == InitialReward
    ensures (BlockCount(chain) + m.blocksUntilHalving) % HalvingInterval == 0
    ensures 1 <= m.blocksUntilHalving <= HalvingInterval
    ensures m.halvingEstimate == 1000 * (chain[BlockCount(chain)].time + SecondsPerBlock * m.blocksUntilHalving)
    ensures MinedBitcoin(BlockCount(chain)) - 0.5 < m.coins as real <= MinedBitcoin(BlockCount(chain)) + 0.5
    ensures m.coinPercent * MaxSupply == MinedBitcoin(BlockCount(chain)) * 100.0
    ensures 0.0 <= m.coinPercent < 100.0
    ensures m.networkHashRate * 1000000000000000000.0 * 600.0 == chain[BlockCount(chain)].difficulty * 4294967296.0
  {
    var blockCount := BlockCount(chain);
    var tip := chain[blockCount];
    var blocksUntilHalving := BlocksUntilHalving(blockCount);
    SubsidyTimesHalvings(blockCount);
    MiningData(
      Round(MinedBitcoin(blockCount)),
      CoinPercent(blockCount),
      Subsidy(blockCount),
      blocksUntilHalving,
      HalvingEstimate(tip.time, blockCount),
      ConvertHtoEH(EstimatedHashrate(tip.difficulty)))
  }
}
