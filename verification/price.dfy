/**
 * The market-cap abbreviation of the price section: a large amount is shown
 * in trillions, billions, millions or thousands, whichever is the largest
 * unit the amount reaches.
 */
module Price {

  /** A number as formatLargeNumber shows it: scaled with a unit letter, or as it is. */
  datatype LargeNumber = Abbreviated(value: real, suffix: char) | AsIs(number: real)

  function Abs(x: real): real {
    if x < 0.0 then -x else x
  }

  /** The amount one unit letter stands for. */
  function Scale(suffix: char): real {
    match suffix
    case 'T' => 1000000000000.0
    case 'B' => 1000000000.0
    case 'M' => 1000000.0
    case 'K' => 1000.0
    case _ => 1.0
  }

  function FormatLargeNumber(number: real): (r: LargeNumber)
    ensures r.AsIs? <==> Abs(number) < 1000.0
    ensures r.AsIs? ==> r.number == number
    ensures r.Abbreviated? ==> r.suffix in {'T', 'B', 'M', 'K'}
    ensures r.Abbreviated? ==> r.value * Scale(r.suffix) == number
    ensures r.Abbreviated? ==> Abs(number) >= Scale(r.suffix) && Abs(r.value) >= 1.0
    ensures r.Abbreviated? && r.suffix != 'T' ==> Abs(r.value) < 1000.0
  {
    var absNumber := Abs(number);
    if absNumber >= 1000000000000.0 then
      Abbreviated(number / 1000000000000.0, 'T')
    else if absNumber >= 1000000000.0 then
      Abbreviated(number / 1000000000.0, 'B')
    else if absNumber >= 1000000.0 then
      Abbreviated(number / 1000000.0, 'M')
    else if absNumber >= 1000.0 then
      Abbreviated(number / 1000.0, 'K')
    else
      AsIs(number)
  }

  /** The unit letter is the same for a number and its negation, and the values are opposite. */
  lemma FormatLargeNumberSymmetric(number: real)
    ensures FormatLargeNumber(-number).AsIs? == FormatLargeNumber(number).AsIs?
    ensures FormatLargeNumber(number).Abbreviated? ==>
      FormatLargeNumber(-number) == Abbreviated(-FormatLargeNumber(number).value, FormatLargeNumber(number).suffix)
  {
  }

  /** A larger amount never gets a smaller unit. */
  lemma FormatLargeNumberMonotone(x: real, y: real)
    requires 1000.0 <= Abs(x) <= Abs(y)
    ensures FormatLargeNumber(x).Abbreviated? && FormatLargeNumber(y).Abbreviated?
    ensures Scale(FormatLargeNumber(x).suffix) <= Scale(FormatLargeNumber(y).suffix)
  {
  }

  lemma FormatLargeNumberExamples()
    ensures FormatLargeNumber(1500000.0) == Abbreviated(1.5, 'M')
    ensures FormatLargeNumber(999.0) == AsIs(999.0)
    ensures FormatLargeNumber(1000.0) == Abbreviated(1.0, 'K')
    ensures FormatLargeNumber(-2500000000000.0) == Abbreviated(-2.5, 'T')
  {
  }
}
