/**
 * The difficulty section: where the chain is in the current retarget
 * period, when the next retarget is due, an estimate of the coming
 * adjustment, and the superscript exponent used to print the difficulty.
 */
module Difficulty {

  import opened Wrappers
  import opened Text
  import opened Chain

  function RealMin(a: real, b: real): real {
    if a <= b then a else b
  }

  function RealMax(a: real, b: real): real {
    if a >= b then a else b
  }

  /** The time since the last retarget over the two weeks a period should last. */
  function TimeRatio(actualReadjustmentTime: int): real {
    actualReadjustmentTime as real / ExpectedAdjustmentTime as real
  }

  /** The ratio clamped into [1/4, 4], the most one retarget may move the difficulty. */
  function AdjustmentFactor(actualReadjustmentTime: int): (f: real)
    ensures 0.25 <= f <= 4.0
    ensures 0.25 <= TimeRatio(actualReadjustmentTime) <= 4.0 ==> f == TimeRatio(actualReadjustmentTime)
    ensures TimeRatio(actualReadjustmentTime) >= 4.0 ==> f == 4.0
    ensures TimeRatio(actualReadjustmentTime) <= 0.25 ==> f == 0.25
  {
    RealMin(MaxAdjustmentFactor as real, RealMax(1.0 / MaxAdjustmentFactor as real, TimeRatio(actualReadjustmentTime)))
  }

  /** A longer period never gives a smaller factor. */
  lemma AdjustmentFactorMonotone(t1: int, t2: int)
    requires t1 <= t2
    ensures AdjustmentFactor(t1) <= AdjustmentFactor(t2)
  {
    assert TimeRatio(t1) <= TimeRatio(t2);
  }

  /** Eight weeks and more saturate at 4; three and a half days and less at 1/4. */
  lemma AdjustmentFactorSaturates()
    ensures AdjustmentFactor(4 * ExpectedAdjustmentTime) == 4.0
    ensures AdjustmentFactor(100 * ExpectedAdjustmentTime) == 4.0
    ensures AdjustmentFactor(ExpectedAdjustmentTime / 4) == 0.25
    ensures AdjustmentFactor(0) == 0.25
    ensures AdjustmentFactor(ExpectedAdjustmentTime) == 1.0
  {
  }

  /** The height of the block that opened the current retarget period. */
  function LastRetargetHeight(blockCount: nat): (r: nat)
    ensures r % BlocksPerRetarget == 0
    ensures r <= blockCount < r + BlocksPerRetarget
  {
    blockCount - blockCount % BlocksPerRetarget
  }

  /** Blocks still to come, the tip included, before the next retarget height. */
  function BlocksToRetarget(blockCount: nat): (b: nat)
    ensures 1 <= b <= BlocksPerRetarget
    ensures blockCount + b == LastRetargetHeight(blockCount) + BlocksPerRetarget
    ensures (blockCount + b) % BlocksPerRetarget == 0
  {
    BlocksPerRetarget - blockCount % BlocksPerRetarget
  }

  /** No retarget height lies strictly between the tip and the next retarget. */
  lemma BlocksToRetargetIsNext(blockCount: nat, k: nat)
    requires 0 < k < BlocksToRetarget(blockCount)
    ensures (blockCount + k) % BlocksPerRetarget != 0
  {
  }

  /** `(newDifficulty - old) / (old * 100)`, as the dashboard computes it. */
  function PercentageChange(newDifficulty: real, oldDifficulty: Difficulty): real {
    (newDifficulty - oldDifficulty) / (oldDifficulty * 100.0)
  }

  /**
   * The estimate depends on the factor alone: it is the fractional change
   * divided by 100, so it lies between -0.0075 and 0.03.
   */
  lemma PercentageChangeOfFactor(oldDifficulty: Difficulty, factor: real)
    ensures PercentageChange(oldDifficulty * factor, oldDifficulty) == (factor - 1.0) / 100.0
  {
    var o: real := oldDifficulty;
    var change := o * factor - o;
    assert change == o * (factor - 1.0);
    assert PercentageChange(o * factor, oldDifficulty) == change / (o * 100.0);
    CancelCommonFactor(change, factor - 1.0, o, 100.0);
  }

  lemma CancelCommonFactor(n: real, a: real, o: real, c: real)
    requires o != 0.0 && c != 0.0 && n == o * a
    ensures n / (o * c) == a / c
  {
    var q := a / c;
    assert q * c == a;
    assert n == q * (o * c);
  }

  lemma EstimateFacts(oldDifficulty: Difficulty, factor: real)
    requires 0.25 <= factor <= 4.0
    ensures var pc := PercentageChange(oldDifficulty * factor, oldDifficulty);
      pc == (factor - 1.0) / 100.0 && -0.0075 <= pc <= 0.03
  {
    PercentageChangeOfFactor(oldDifficulty, factor);
  }

  /** The timestamp (seconds) of the next retarget, one block per 600 seconds. */
  function RetargetTimestamp(tipTime: int, blockCount: nat): (t: int)
    ensures t == tipTime + SecondsPerBlock * BlocksToRetarget(blockCount)
    ensures tipTime + SecondsPerBlock <= t <= tipTime + ExpectedAdjustmentTime
  {
    tipTime + BlocksToRetarget(blockCount) * SecondsPerBlock
  }

  /** What toDifficultyData receives, before it is rendered as text. */
  datatype DifficultyData = DifficultyData(
    difficulty: real,
    blocksToRetarget: nat,
    retargetDateMillis: int,
    estimatedAdjustment: real)

  /**
   * The estimate getDifficultyData reports: the difficulty of the last
   * retarget block scaled by the clamped factor, as a PercentageChange.
   */
  function EstimatedAdjustment(lastRetargetBlock: Block, currentBlock: Block): real {
    var adjustmentFactor := AdjustmentFactor(currentBlock.time - lastRetargetBlock.time);
    var newDifficulty := lastRetargetBlock.difficulty * adjustmentFactor;
    PercentageChange(newDifficulty, lastRetargetBlock.difficulty)
  }

  /** The estimate is the clamped factor's fractional change over 100, within [-0.0075, 0.03]. */
  lemma EstimatedAdjustmentSpec(lastRetargetBlock: Block, currentBlock: Block)
    ensures var pc := EstimatedAdjustment(lastRetargetBlock, currentBlock);
      && pc == (AdjustmentFactor(currentBlock.time - lastRetargetBlock.time) - 1.0) / 100.0
      && -0.0075 <= pc <= 0.03
  {
    var factor := AdjustmentFactor(currentBlock.time - lastRetargetBlock.time);
    var o := lastRetargetBlock.difficulty;
    assert EstimatedAdjustment(lastRetargetBlock, currentBlock) == PercentageChange(o * factor, o);
    EstimateFacts(o, factor);
  }

  /** getDifficultyData, with `getdifficulty` answering the tip's difficulty. */
  function GetDifficultyData(chain: Blocks): (dd: DifficultyData)
    ensures var n := BlockCount(chain);
      && dd.difficulty == chain[n].difficulty
      && dd.blocksToRetarget == BlocksToRetarget(n)
      && dd.retargetDateMillis == 1000 * RetargetTimestamp(chain[n].time, n)
      && dd.estimatedAdjustment == EstimatedAdjustment(chain[LastRetargetHeight(n)], chain[n])
  {
    var blockCount := BlockCount(chain);
    var currentBlock := chain[blockCount];
    var lastRetargetBlock := chain[LastRetargetHeight(blockCount)];
    DifficultyData(
      currentBlock.difficulty,
      BlocksToRetarget(blockCount),
      RetargetTimestamp(currentBlock.time, blockCount) * 1000,
      EstimatedAdjustment(lastRetargetBlock, currentBlock))
  }

  // Superscript exponents

  /** The superscript form of a decimal digit; any other character is kept. */
  function SuperscriptChar(c: char): char {
    match c
    case '0' => '\U{2070}'
    case '1' => '\U{B9}'
    case '2' => '\U{B2}'
    case '3' => '\U{B3}'
    case '4' => '\U{2074}'
    case '5' => '\U{2075}'
    case '6' => '\U{2076}'
    case '7' => '\U{2077}'
    case '8' => '\U{2078}'
    case '9' => '\U{2079}'
    case _ => c
  }

  predicate IsSuperscriptDigit(c: char) {
    c == '\U{2070}' || c == '\U{B9}' || c == '\U{B2}' || c == '\U{B3}' || '\U{2074}' <= c <= '\U{2079}'
  }

  /** The digit a superscript digit stands for; any other character is kept. */
  function PlainChar(c: char): char {
    match c
    case '\U{2070}' => '0'
    case '\U{B9}' => '1'
    case '\U{B2}' => '2'
    case '\U{B3}' => '3'
    case '\U{2074}' => '4'
    case '\U{2075}' => '5'
    case '\U{2076}' => '6'
    case '\U{2077}' => '7'
    case '\U{2078}' => '8'
    case '\U{2079}' => '9'
    case _ => c
  }

  /** Digits become superscript digits and nothing else changes. */
  lemma SuperscriptCharSpec(c: char)
    ensures IsDigit(c) ==> IsSuperscriptDigit(SuperscriptChar(c)) && PlainChar(SuperscriptChar(c)) == c
    ensures !IsDigit(c) ==> SuperscriptChar(c) == c
  {
  }

  /** The `split('').map(...).join('')` of the exponent's digits. */
  function Superscript(s: string): (r: string)
    ensures |r| == |s|
    ensures forall i :: 0 <= i < |s| ==> r[i] == SuperscriptChar(s[i])
  {
    seq(|s|, i requires 0 <= i < |s| => SuperscriptChar(s[i]))
  }

  function Plain(s: string): (r: string)
    ensures |r| == |s|
    ensures forall i :: 0 <= i < |s| ==> r[i] == PlainChar(s[i])
  {
    seq(|s|, i requires 0 <= i < |s| => PlainChar(s[i]))
  }

  /** A numeral in superscript reads back as the same numeral. */
  lemma PlainSuperscript(s: string)
    requires AllDigits(s)
    ensures Plain(Superscript(s)) == s
    ensures forall i :: 0 <= i < |s| ==> IsSuperscriptDigit(Superscript(s)[i])
  {
    forall i | 0 <= i < |s|
      ensures Plain(Superscript(s))[i] == s[i] && IsSuperscriptDigit(Superscript(s)[i])
    {
      SuperscriptCharSpec(s[i]);
    }
  }

  /** The text after the coefficient: "×10", a '-' for a negative exponent, the superscript digits. */
  function ExponentText(exponent: int): (t: string)
    ensures |t| >= 4 && t[..3] == "\U{D7}10"
  {
    var sign := if exponent < 0 then "-" else "";
    var absExponent := if exponent < 0 then -exponent else exponent;
    "\U{D7}10" + sign + Superscript(NatToString(absExponent))
  }

  predicate AllSuperscriptDigits(s: string) {
    forall i :: 0 <= i < |s| ==> IsSuperscriptDigit(s[i])
  }

  /** Reads superscript digits back into a number. */
  function ReadSuperscript(s: string): Option<int> {
    if |s| > 0 && AllSuperscriptDigits(s) && AllDigits(Plain(s)) then Some(ParseNat(Plain(s))) else None
  }

  /** Reads an exponent back from the text ExponentText writes. */
  function ReadExponent(t: string): Option<int> {
    if |t| < 4 || t[..3] != "\U{D7}10" then None
    else if t[3] == '-' then
      match ReadSuperscript(t[4..])
      case Some(n) => Some(-n)
      case None => None
    else ReadSuperscript(t[3..])
  }

  /** Superscript digits of a number read back as that number. */
  lemma ReadSuperscriptDigits(n: nat)
    ensures ReadSuperscript(Superscript(NatToString(n))) == Some(n)
  {
    var digits := NatToString(n);
    PlainSuperscript(digits);
    ParseNatToString(n);
  }

  /** The printed exponent determines the exponent: it reads back unchanged. */
  lemma ReadExponentText(exponent: int)
    ensures ReadExponent(ExponentText(exponent)) == Some(exponent)
  {
    var absExponent := if exponent < 0 then -exponent else exponent;
    var sup := Superscript(NatToString(absExponent));
    ReadSuperscriptDigits(absExponent);
    var t := ExponentText(exponent);
    if exponent < 0 {
      assert t == "\U{D7}10-" + sup;
      assert t[4..] == sup;
    } else {
      assert t == "\U{D7}10" + sup;
      assert t[3..] == sup;
      assert IsSuperscriptDigit(sup[0]);
    }
  }
}
