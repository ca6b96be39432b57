/**
 * The mempool section: how many blocks of recent average weight it would
 * take to clear the mempool, with its transaction count and minimum fee.
 */
module Mempool {

  import opened Wrappers
  import opened Text
  import opened Arith
  import opened Chain
  import opened Fees

  /** The fields of a `getmempoolinfo` answer that the dashboard uses. */
  datatype MempoolInfo = MempoolInfo(size: nat, bytes: nat, mempoolminfee: real)

  /** The mempool section as the dashboard shows it. */
  datatype MempoolView = MempoolView(numberOfTxs: nat, minimumFee: string, blocksToClear: string)

  const NumberOfBlocksToCheck := 10

  /** The total weight of the k blocks just below the tip, at heights n - 1 down to n - k. */
  function SampledWeight(chain: Blocks, k: nat): (w: int)
    requires k <= BlockCount(chain)
    ensures w >= k
  {
    if k == 0 then 0 else SampledWeight(chain, k - 1) + chain[BlockCount(chain) - k].weight
  }

  /** The sample reads only heights n - k .. n - 1: chains that agree on those weights give the same sum. */
  lemma {:induction false} SampledWeightFrame(chain: Blocks, other: Blocks, k: nat)
    requires BlockCount(other) == BlockCount(chain) && k <= BlockCount(chain)
    requires forall h :: BlockCount(chain) - k <= h < BlockCount(chain) ==> other[h].weight == chain[h].weight
    ensures SampledWeight(other, k) == SampledWeight(chain, k)
  {
    if k > 0 {
      SampledWeightFrame(chain, other, k - 1);
    }
  }

  /** The tip itself is never sampled: its weight does not matter. */
  lemma {:induction false} SampledWeightIgnoresTip(chain: Blocks, tip: Block, k: nat)
    requires k <= BlockCount(chain)
    ensures SampledWeight(chain[BlockCount(chain) := tip], k) == SampledWeight(chain, k)
  {
    if k > 0 {
      SampledWeightIgnoresTip(chain, tip, k - 1);
    }
  }

  /**
   * The number of blocks of the sampled average weight that hold the
   * mempool's weight (four weight units per byte): the least n with
   * n * average >= 4 * bytes.
   */
  function EstimatedBlocks(bytes: nat, totalBlockWeight: int): (n: int)
    requires totalBlockWeight > 0
    ensures var average := totalBlockWeight as real / NumberOfBlocksToCheck as real;
      && n as real * average >= (4 * bytes) as real
      && (n - 1) as real * average < (4 * bytes) as real
  {
    var average := totalBlockWeight as real / NumberOfBlocksToCheck as real;
    var x := (bytes * 4) as real / average;
    var n := Ceil(x);
    CeilTimes(x, average, (4 * bytes) as real, n);
    n
  }

  lemma CeilTimes(x: real, average: real, weight: real, n: int)
    requires average > 0.0 && x == weight / average
    requires x <= n as real < x + 1.0
    ensures n as real * average >= weight
    ensures (n - 1) as real * average < weight
  {
    assert x * average == weight;
    assert x * average <= n as real * average;
    assert (n - 1) as real < x;
    assert (n - 1) as real * average < x * average;
  }

  /** An empty mempool needs no blocks; any transaction needs at least one. */
  lemma EstimatedBlocksZero(bytes: nat, totalBlockWeight: int)
    requires totalBlockWeight > 0
    ensures EstimatedBlocks(bytes, totalBlockWeight) >= 0
    ensures EstimatedBlocks(bytes, totalBlockWeight) == 0 <==> bytes == 0
  {
    var n := EstimatedBlocks(bytes, totalBlockWeight);
    var average := totalBlockWeight as real / NumberOfBlocksToCheck as real;
    if n < 0 {
      IntTimesMonotone(n, -1, average);
    } else if bytes == 0 && n > 0 {
      IntTimesMonotone(0, n - 1, average);
    }
  }

  /** A fuller mempool never needs fewer blocks. */
  lemma EstimatedBlocksMonotone(b1: nat, b2: nat, totalBlockWeight: int)
    requires b1 <= b2 && totalBlockWeight > 0
    ensures EstimatedBlocks(b1, totalBlockWeight) <= EstimatedBlocks(b2, totalBlockWeight)
  {
    var average := totalBlockWeight as real / NumberOfBlocksToCheck as real;
    LeastMultipleMonotone(EstimatedBlocks(b1, totalBlockWeight), EstimatedBlocks(b2, totalBlockWeight),
                          average, (4 * b1) as real, (4 * b2) as real);
  }

  lemma LeastMultipleMonotone(n1: int, n2: int, a: real, w1: real, w2: real)
    requires a > 0.0
    requires (n1 - 1) as real * a < w1 <= w2 <= n2 as real * a
    ensures n1 <= n2
  {
    if n1 > n2 {
      IntTimesMonotone(n2, n1 - 1, a);
    }
  }

  lemma IntTimesMonotone(p: int, q: int, a: real)
    requires p <= q && a > 0.0
    ensures p as real * a <= q as real * a
  {
    assert (q - p) as real * a >= 0.0;
    assert q as real * a - p as real * a == (q - p) as real * a;
  }

  function ToMempool(mempool: MempoolInfo, estimatedBlocks: int): (v: MempoolView)
    ensures v.numberOfTxs == mempool.size
    ensures v.minimumFee == SatText(mempool.mempoolminfee)
    ensures ParseInt(v.blocksToClear) == Some(estimatedBlocks)
  {
    ParseIntToString(estimatedBlocks);
    MempoolView(mempool.size, SatText(mempool.mempoolminfee), IntToString(estimatedBlocks))
  }

  /**
   * getMempoolData: sums the weights of the ten blocks below the tip and
   * estimates the blocks needed. A height below 0 makes `getblockhash`
   * throw, so a tip below height ten gives None.
   */
  method GetMempoolData(mempoolInfo: MempoolInfo, chain: Blocks) returns (r: Option<MempoolView>)
    ensures r.None? <==> BlockCount(chain) < NumberOfBlocksToCheck
    ensures r.Some? ==> r.value == ToMempool(mempoolInfo, EstimatedBlocks(mempoolInfo.bytes, SampledWeight(chain, NumberOfBlocksToCheck)))
  {
    var mempoolSizeBytes := mempoolInfo.bytes;
    var effectiveMempoolWeight := mempoolSizeBytes * 4;

    var totalBlockWeight := 0;
    var numberOfBlocksToCheck := NumberOfBlocksToCheck;
    for i := 1 to numberOfBlocksToCheck + 1
      invariant i - 1 <= BlockCount(chain)
      invariant totalBlockWeight == SampledWeight(chain, i - 1)
    {
      var block := BlockAt(chain, BlockCount(chain) - i);
      if block.None? {
        return None;
      }
      totalBlockWeight := totalBlockWeight + block.value.weight;
    }
    var averageBlockWeight := totalBlockWeight as real / numberOfBlocksToCheck as real;

    var estimatedBlocks := Ceil(effectiveMempoolWeight as real / averageBlockWeight);
    r := Some(ToMempool(mempoolInfo, estimatedBlocks));
  }
}
