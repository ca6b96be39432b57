/**
 * The slice of the Bitcoin node the dashboard reads over RPC: a chain of
 * blocks indexed by height, with the tip at `getblockcount`. Each RPC
 * answer the calculators use is a field of a block of this chain.
 */
module Chain {

  import opened Wrappers

  /** A valid block always has positive weight (its header alone weighs 320 WU). */
  type Weight = w: int | w >= 1 witness 1

  /**
   * A difficulty is positive; test networks such as signet and regtest run
   * well below 1, so no larger bound is assumed.
   */
  type Difficulty = d: real | d > 0.0 witness 1.0

  /** The fields of a `getblock` answer that the dashboard uses. */
  datatype Block = Block(time: int, difficulty: Difficulty, weight: Weight)

  /** Heights 0 .. |c| - 1; the genesis block is always present. */
  type Blocks = c: seq<Block> | |c| > 0 witness [Block(0, 1.0, 1)]

  /** `getblockcount`: the height of the tip. */
  function BlockCount(chain: Blocks): (n: nat)
    ensures n < |chain|
    ensures n + 1 == |chain|
  {
    |chain| - 1
  }

  /** `getblock(getblockhash(h))`, which throws for a height outside the chain. */
  function BlockAt(chain: Blocks, h: int): (b: Option<Block>)
    ensures b.Some? <==> 0 <= h < |chain|
    ensures b.Some? ==> b.value == chain[h]
  {
    if 0 <= h < |chain| then Some(chain[h]) else None
  }

  const SecondsPerBlock := 600
  const HalvingInterval := 210000
  const BlocksPerRetarget := 2016
  const ExpectedAdjustmentTime := 1209600
  const MaxAdjustmentFactor := 4
}
