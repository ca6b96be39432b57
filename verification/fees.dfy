/**
 * The fee section of the dashboard: `estimatesmartfee` answers, in BTC per
 * kilobyte, turned into whole satoshis per virtual byte for four horizons.
 */
module Fees {

  import opened Wrappers
  import opened Text
  import opened Arith

  const SatoshisPerBitcoin := 100000000
  const BytesPerKilobyte := 1024

  /** The confirmation targets asked for: next block, an hour, a day, a week. */
  const Targets: seq<nat> := [1, 6, 144, 1008]

  /** A fee rate in BTC/kB as satoshis per byte, rounded up to a whole satoshi. */
  function ConvertToSatPerByte(feeRate: real): (sat: int)
    ensures sat as real * BytesPerKilobyte as real >= feeRate * SatoshisPerBitcoin as real
    ensures (sat - 1) as real * BytesPerKilobyte as real < feeRate * SatoshisPerBitcoin as real
  {
    Ceil(feeRate * SatoshisPerBitcoin as real / BytesPerKilobyte as real)
  }

  /** A higher fee rate never shows as fewer satoshis per byte. */
  lemma ConvertMonotone(f: real, g: real)
    requires f <= g
    ensures ConvertToSatPerByte(f) <= ConvertToSatPerByte(g)
  {
  }

  /** A rate that is an exact number of satoshis per byte is shown unchanged. */
  lemma ConvertExact(n: int)
    ensures ConvertToSatPerByte(n as real * 1024.0 / 100000000.0) == n
  {
  }

  /** The smallest positive rates all show as one satoshi per byte. */
  lemma ConvertSmallRate(f: real)
    requires 0.0 < f <= 0.00001024
    ensures ConvertToSatPerByte(f) == 1
  {
  }

  /** The text for a rate: its whole satoshis per byte, then " sat/vB". */
  function SatText(feeRate: real): (s: string)
    ensures |s| > 7 && s[|s| - 7..] == " sat/vB"
    ensures ParseInt(s[..|s| - 7]) == Some(ConvertToSatPerByte(feeRate))
  {
    var digits := IntToString(ConvertToSatPerByte(feeRate));
    ParseIntToString(ConvertToSatPerByte(feeRate));
    assert (digits + " sat/vB")[..|digits|] == digits;
    digits + " sat/vB"
  }

  /** One field of the fee section: an absent or zero (falsy) rate gives "--". */
  function FeeField(feeRate: Option<real>): string {
    if feeRate.None? || feeRate.value == 0.0 then "--" else SatText(feeRate.value)
  }

  /** A field reads "--" exactly when the rate is absent or zero; otherwise it is a rate. */
  lemma FeeFieldBlank(feeRate: Option<real>)
    ensures FeeField(feeRate) == "--" <==> feeRate.None? || feeRate.value == 0.0
    ensures FeeField(feeRate) != "--" ==> FeeField(feeRate) == SatText(feeRate.value)
  {
    if feeRate.Some? && feeRate.value != 0.0 {
      var s := SatText(feeRate.value);
      assert |s| > 7;
      assert s != "--";
    }
  }

  datatype FeeData = FeeData(immediate: string, hour: string, day: string, week: string)

  /** The horizons in order: immediate, hour, day, week. */
  function Fields(fd: FeeData): seq<string> {
    [fd.immediate, fd.hour, fd.day, fd.week]
  }

  /** Reading `fees[i]`: an index past the end is undefined. */
  function At(fees: seq<Option<real>>, i: nat): Option<real> {
    if i < |fees| then fees[i] else None
  }

  function ToFeeData(fees: seq<Option<real>>): FeeData {
    FeeData(FeeField(At(fees, 0)), FeeField(At(fees, 1)), FeeField(At(fees, 2)), FeeField(At(fees, 3)))
  }

  /** Horizon i shows the rate at index i, and nothing else. */
  lemma ToFeeDataFields(fees: seq<Option<real>>)
    ensures forall i :: 0 <= i < 4 ==> Fields(ToFeeData(fees))[i] == FeeField(At(fees, i))
  {
    var fs := Fields(ToFeeData(fees));
    assert fs == [FeeField(At(fees, 0)), FeeField(At(fees, 1)), FeeField(At(fees, 2)), FeeField(At(fees, 3))];
  }

  /** Changing one horizon's rate leaves the other three horizons as they were. */
  lemma ToFeeDataIndependent(fees: seq<Option<real>>, i: nat, rate: Option<real>)
    requires i < |fees| && i < 4
    ensures forall j :: 0 <= j < 4 && j != i ==> Fields(ToFeeData(fees[i := rate]))[j] == Fields(ToFeeData(fees))[j]
    ensures Fields(ToFeeData(fees[i := rate]))[i] == FeeField(rate)
  {
    var after := fees[i := rate];
    ToFeeDataFields(fees);
    ToFeeDataFields(after);
    forall j | 0 <= j < 4 && j != i
      ensures At(after, j) == At(fees, j)
    {
    }
  }

  /**
   * `getFeeData`, with `estimate` standing for `estimatesmartfee`: its
   * `feerate`, or None when the node has no estimate for the target.
   */
  function GetFeeData(estimate: nat -> Option<real>): (fd: FeeData)
    ensures forall i :: 0 <= i < 4 ==> Fields(fd)[i] == FeeField(estimate(Targets[i]))
  {
    var fees := [estimate(1), estimate(6), estimate(144), estimate(1008)];
    ToFeeDataFields(fees);
    assert forall i :: 0 <= i < 4 ==> At(fees, i) == estimate(Targets[i]);
    ToFeeData(fees)
  }
}
