/**
 * The helpers of src/util/index.ts: the verbose uptime text
 * ("2 days, 1 hour, 5 seconds") and the Celsius-to-Fahrenheit conversion.
 * The split of a number of seconds into days, hours, minutes and seconds is
 * defined here once and shared with the dashboard's compact variant.
 */
module Util {
  import opened Text
  import opened Arith

  const SecondsPerMinute := 60
  const SecondsPerHour := 3600
  const SecondsPerDay := 86400

  /** A whole number of seconds split into calendar-free units. */
  datatype Duration = Duration(days: int, hours: nat, minutes: nat, seconds: nat)

  function TotalSeconds(d: Duration): int {
    d.days * SecondsPerDay + d.hours * SecondsPerHour + d.minutes * SecondsPerMinute + d.seconds
  }

  predicate Normal(d: Duration) {
    d.hours < 24 && d.minutes < 60 && d.seconds < 60
  }

  /**
   * The split secondsToTime computes with Math.floor divisions; Dafny's `/` and
   * `%` by a positive divisor are floor division and its remainder, so this
   * is exact for negative totals as well.
   */
  function Decompose(total: int): (d: Duration)
    ensures Normal(d) && TotalSeconds(d) == total
  {
    Recombine(total);
    Duration(total / SecondsPerDay, (total % SecondsPerDay) / SecondsPerHour,
             (total % SecondsPerHour) / SecondsPerMinute, total % SecondsPerMinute)
  }

  /** The quotients and remainders of Decompose add back up to the total. */
  lemma Recombine(t: int)
    ensures var d := Duration(t / SecondsPerDay, (t % SecondsPerDay) / SecondsPerHour,
                              (t % SecondsPerHour) / SecondsPerMinute, t % SecondsPerMinute);
      Normal(d) && TotalSeconds(d) == t
  {
    var q := t / SecondsPerDay;
    var r := t % SecondsPerDay;
    var h := r / SecondsPerHour;
    var r2 := r % SecondsPerHour;
    var m := r2 / SecondsPerMinute;
    var s := r2 % SecondsPerMinute;
    assert r == h * SecondsPerHour + r2;
    assert r2 == m * SecondsPerMinute + s;
    DivModUnique(t, SecondsPerHour, q * 24 + h, r2);
    DivModUnique(t, SecondsPerMinute, (q * 24 + h) * 60 + m, s);
  }

  /** The split is the only normal one: recombining determines the units. */
  lemma DecomposeUnique(d: Duration)
    requires Normal(d)
    ensures Decompose(TotalSeconds(d)) == d
  {
    var t := TotalSeconds(d);
    var rest := d.hours * SecondsPerHour + d.minutes * SecondsPerMinute + d.seconds;
    DivModUnique(t, SecondsPerDay, d.days, rest);
    DivModUnique(rest, SecondsPerHour, d.hours, d.minutes * SecondsPerMinute + d.seconds);
    DivModUnique(t, SecondsPerHour, d.days * 24 + d.hours, d.minutes * SecondsPerMinute + d.seconds);
    DivModUnique(d.minutes * SecondsPerMinute + d.seconds, SecondsPerMinute, d.minutes, d.seconds);
    DivModUnique(t, SecondsPerMinute, (d.days * 24 + d.hours) * 60 + d.minutes, d.seconds);
  }

  /**
   * Subtracting the whole days, then the whole hours, then the whole minutes,
   * as secondsToTime does, leaves the same units as Decompose.
   */
  lemma PeelingMatchesDecompose(t: int)
    ensures var days := t / (3600 * 24);
            var s1 := t - days * 3600 * 24;
            var hours := s1 / 3600;
            var s2 := s1 - hours * 3600;
            var minutes := s2 / 60;
            var s3 := s2 - minutes * 60;
            Decompose(t) == Duration(days, hours, minutes, s3)
  {
    var days := t / (3600 * 24);
    var s1 := t - days * 3600 * 24;
    assert s1 == t % SecondsPerDay;
    var hours := s1 / 3600;
    var s2 := s1 - hours * 3600;
    assert 0 <= s2 < 3600;
    DivModUnique(t, SecondsPerHour, days * 24 + hours, s2);
    var minutes := s2 / 60;
    var s3 := s2 - minutes * 60;
    DivModUnique(t, SecondsPerMinute, (days * 24 + hours) * 60 + minutes, s3);
  }

  /**
   * The arithmetic shared by both secondsToTime variants: Math.floor of the
   * input divided by a day, subtracted; then the same for hours and minutes.
   */
  method PeelUnits(total: int) returns (days: int, hours: nat, minutes: nat, remainingSeconds: nat)
    ensures Duration(days, hours, minutes, remainingSeconds) == Decompose(total)
  {
    var seconds := total;
    PeelingMatchesDecompose(seconds);
    days := seconds / (3600 * 24);
    seconds := seconds - days * 3600 * 24;
    hours := seconds / 3600;
    seconds := seconds - hours * 3600;
    minutes := seconds / 60;
    seconds := seconds - minutes * 60;
    remainingSeconds := seconds;
  }

  /** The units the texts can list, in the order they list them. */
  datatype Unit = Day | Hour | Minute | Second

  function Rank(u: Unit): nat {
    match u
    case Day => 0
    case Hour => 1
    case Minute => 2
    case Second => 3
  }

  function Amount(d: Duration, u: Unit): int {
    match u
    case Day => d.days
    case Hour => d.hours
    case Minute => d.minutes
    case Second => d.seconds
  }

  /**
   * The units a text lists: every unit with a positive amount, and the
   * seconds also when no other unit is listed; in the order days, hours,
   * minutes, seconds.
   */
  function Shown(d: Duration): (us: seq<Unit>)
    ensures |us| >= 1
    ensures forall i, j :: 0 <= i < j < |us| ==> Rank(us[i]) < Rank(us[j])
    ensures forall u :: u in us <==> Amount(d, u) > 0 || (u == Second && d.days <= 0 && d.hours == 0 && d.minutes == 0)
  {
    Front(d) + (if d.seconds > 0 || Front(d) == [] then [Second] else [])
  }

  /** The listed units other than the seconds. */
  function Front(d: Duration): seq<Unit> {
    (if d.days > 0 then [Day] else []) +
    (if d.hours > 0 then [Hour] else []) +
    (if d.minutes > 0 then [Minute] else [])
  }

  function UnitWord(u: Unit): string {
    match u
    case Day => "day"
    case Hour => "hour"
    case Minute => "minute"
    case Second => "second"
  }

  /** "n unit", with the plural "s" exactly when n is not 1. */
  function Counted(n: int, u: Unit): (s: string)
    ensures |s| > 0 && 'a' <= s[|s| - 1] <= 'z'
  {
    IntToString(n) + " " + UnitWord(u) + (if n == 1 then "" else "s")
  }

  /** The verbose rendering of each listed unit, in order. */
  function VerboseParts(d: Duration, us: seq<Unit>): (ps: seq<string>)
    ensures |ps| == |us|
    decreases |us|
  {
    if us == [] then []
    else
      var u := us[|us| - 1];
      VerboseParts(d, us[..|us| - 1]) + [Counted(Amount(d, u), u)]
  }

  /** The verbose text: the listed units, rendered, separated by ", ". */
  function VerboseText(d: Duration): string {
    Join(VerboseParts(d, Shown(d)), ", ")
  }

  lemma VerbosePartsSnoc(d: Duration, us: seq<Unit>, u: Unit)
    ensures VerboseParts(d, us + [u]) == VerboseParts(d, us) + [Counted(Amount(d, u), u)]
  {
    assert (us + [u])[..|us|] == us;
  }

  /** JavaScript's `\s`: the white-space and line-terminator characters. */
  predicate IsSpace(c: char) {
    c == ' ' || c == '\t' || c == '\n' || c == '\r' || c == '\U{B}' || c == '\U{C}' ||
    c == '\U{A0}' || c == '\U{1680}' || ('\U{2000}' <= c <= '\U{200A}') ||
    c == '\U{2028}' || c == '\U{2029}' || c == '\U{202F}' || c == '\U{205F}' ||
    c == '\U{3000}' || c == '\U{FEFF}'
  }

  /** Where the run of white space that ends `s` begins. */
  function TrailingSpaceStart(s: string): (k: nat)
    ensures k <= |s|
    ensures forall i :: k <= i < |s| ==> IsSpace(s[i])
    ensures k == 0 || !IsSpace(s[k - 1])
    decreases |s|
  {
    if |s| > 0 && IsSpace(s[|s| - 1]) then TrailingSpaceStart(s[..|s| - 1]) else |s|
  }

  /**
   * `s.replace(/,\s*$/, '')`: drops the comma that is followed only by white
   * space up to the end, together with that white space; otherwise `s` stays.
   */
  function TrimTrailingComma(s: string): (r: string)
    ensures r <= s
    ensures r != s ==> s[|r|] == ',' && forall i :: |r| < i < |s| ==> IsSpace(s[i])
    ensures r == s ==> var k := TrailingSpaceStart(s); k == 0 || s[k - 1] != ','
  {
    var k := TrailingSpaceStart(s);
    if k > 0 && s[k - 1] == ',' then s[..k - 1] else s
  }

  lemma TrimCommaSpace(s: string)
    requires |s| > 0 && !IsSpace(s[|s| - 1])
    ensures TrimTrailingComma(s + ", ") == s
  {
    var t := s + ", ";
    assert t[..|t| - 1] == s + ",";
    assert TrailingSpaceStart(s + ",") == |s| + 1;
    assert TrailingSpaceStart(t) == |s| + 1;
    assert t[..|s|] == s;
  }

  lemma TrimLetter(s: string)
    requires |s| > 0 && 'a' <= s[|s| - 1] <= 'z'
    ensures TrimTrailingComma(s) == s
  {
  }

  // Each unit's step of secondsToTime appends Piece(d, unit) to the text built so far.

  lemma AppendDays(d: Duration, before: string, piece: string)
    requires d.days > 0 && piece == NatToString(d.days) + " day" + (if d.days > 1 then "s" else "") + ", "
    ensures before + piece == before + Piece(d, Day)
  {
  }

  lemma AppendHours(d: Duration, before: string, piece: string)
    requires d.hours > 0 && piece == NatToString(d.hours) + " hour" + (if d.hours > 1 then "s" else "") + ", "
    ensures before + piece == before + Piece(d, Hour)
  {
  }

  lemma AppendMinutes(d: Duration, before: string, piece: string)
    requires d.minutes > 0 && piece == NatToString(d.minutes) + " minute" + (if d.minutes > 1 then "s" else "") + ", "
    ensures before + piece == before + Piece(d, Minute)
  {
  }

  lemma SecondsPiece(d: Duration, piece: string)
    requires piece == NatToString(d.seconds) + " second" + (if d.seconds != 1 then "s" else "")
    ensures piece == Counted(d.seconds, Second)
  {
  }

  /**
   * secondsToTime of src/util/index.ts: floors the input, peels off days,
   * hours and minutes by subtraction, appends "N unit(s), " per positive unit
   * and then the seconds, and strips a trailing comma.
   */
  method SecondsToTime(seconds: real) returns (text: string)
    ensures text == VerboseText(Decompose(seconds.Floor))
  {
    var days, hours, minutes, remainingSeconds := PeelUnits(seconds.Floor);
    ghost var d := Duration(days, hours, minutes, remainingSeconds);

    var timeString := "";
    if days > 0 {
      var piece := NatToString(days) + " day" + (if days > 1 then "s" else "") + ", ";
      AppendDays(d, timeString, piece);
      timeString := timeString + piece;
    }
    assert timeString == Piece(d, Day);
    if hours > 0 {
      var piece := NatToString(hours) + " hour" + (if hours > 1 then "s" else "") + ", ";
      AppendHours(d, timeString, piece);
      timeString := timeString + piece;
    }
    assert timeString == Piece(d, Day) + Piece(d, Hour);
    if minutes > 0 {
      var piece := NatToString(minutes) + " minute" + (if minutes > 1 then "s" else "") + ", ";
      AppendMinutes(d, timeString, piece);
      timeString := timeString + piece;
    }
    assert timeString == Piece(d, Day) + Piece(d, Hour) + Piece(d, Minute);
    if remainingSeconds > 0 || timeString == "" {
      var piece := NatToString(remainingSeconds) + " second" + (if remainingSeconds != 1 then "s" else "");
      SecondsPiece(d, piece);
      LastPiece(d, timeString, piece);
      timeString := timeString + piece;
      NoTrailingSeparator(d);
    } else {
      TrailingPiece(d, timeString);
      TrimCommaSpace(VerboseText(d));
    }
    text := TrimTrailingComma(timeString);
  }

  /** What secondsToTime appends for a unit other than the seconds. */
  function Piece(d: Duration, u: Unit): string {
    if Amount(d, u) > 0 then Counted(Amount(d, u), u) + ", " else ""
  }

  function Listed(d: Duration, u: Unit): seq<Unit> {
    if Amount(d, u) > 0 then [u] else []
  }

  lemma PieceStep(d: Duration, f: seq<Unit>, u: Unit)
    ensures Terminated(VerboseParts(d, f), ", ") + Piece(d, u) == Terminated(VerboseParts(d, f + Listed(d, u)), ", ")
  {
    if Amount(d, u) > 0 {
      PresentPieceStep(d, f, u);
    } else {
      assert f + Listed(d, u) == f;
    }
  }

  lemma PresentPieceStep(d: Duration, f: seq<Unit>, u: Unit)
    requires Amount(d, u) > 0
    ensures Terminated(VerboseParts(d, f), ", ") + Piece(d, u) == Terminated(VerboseParts(d, f + [u]), ", ")
  {
    var c := Counted(Amount(d, u), u);
    VerbosePartsSnoc(d, f, u);
    TerminatedSnoc(VerboseParts(d, f), c, ", ");
    assert Piece(d, u) == c + ", ";
  }

  /** The pieces appended for days, hours and minutes are the front units, each followed by ", ". */
  lemma FrontPieces(d: Duration)
    ensures Piece(d, Day) + Piece(d, Hour) + Piece(d, Minute) == Terminated(VerboseParts(d, Front(d)), ", ")
  {
    var f1 := [] + Listed(d, Day);
    var f2 := f1 + Listed(d, Hour);
    var f3 := f2 + Listed(d, Minute);
    PieceStep(d, [], Day);
    PieceStep(d, f1, Hour);
    PieceStep(d, f2, Minute);
    assert Front(d) == f3;
    ThreePieces(Piece(d, Day), Piece(d, Hour), Piece(d, Minute), Terminated(VerboseParts(d, []), ", "),
          Terminated(VerboseParts(d, f1), ", "), Terminated(VerboseParts(d, f2), ", "), Terminated(VerboseParts(d, f3), ", "));
  }

  lemma ThreePieces(a: string, b: string, c: string, x0: string, x1: string, x2: string, x3: string)
    requires x0 == "" && x0 + a == x1 && x1 + b == x2 && x2 + c == x3
    ensures a + b + c == x3
  {
  }

  /** The seconds were appended: the text is complete. */
  lemma LastPiece(d: Duration, before: string, piece: string)
    requires before == Piece(d, Day) + Piece(d, Hour) + Piece(d, Minute)
    requires d.seconds > 0 || before == ""
    requires piece == Counted(d.seconds, Second)
    ensures before + piece == VerboseText(d)
  {
    FrontPieces(d);
    if Front(d) != [] {
      TerminatedIsJoinPlusSep(VerboseParts(d, Front(d)), ", ");
    }
    assert Front(d) + [Second] == Shown(d);
    VerbosePartsSnoc(d, Front(d), Second);
    TerminatedPlusLast(VerboseParts(d, Front(d)), piece, ", ");
  }

  /** The seconds were not appended: the text is the joined parts plus ", ". */
  lemma TrailingPiece(d: Duration, text: string)
    requires text == Piece(d, Day) + Piece(d, Hour) + Piece(d, Minute)
    requires text != "" && d.seconds == 0
    ensures text == VerboseText(d) + ", " && !IsSpace(VerboseText(d)[|VerboseText(d)| - 1])
  {
    FrontPieces(d);
    assert Front(d) != [];
    assert Front(d) == Shown(d);
    TerminatedIsJoinPlusSep(VerboseParts(d, Front(d)), ", ");
    NoTrailingSeparator(d);
  }

  //
  // Properties of the verbose text.
  //

  lemma ZeroSecondsWord()
    ensures Counted(0, Second) == "0 seconds"
  {
    assert NatToString(0) == "0";
  }

  lemma ZeroDurationText()
    ensures VerboseText(Duration(0, 0, 0, 0)) == "0 seconds"
  {
    var d := Duration(0, 0, 0, 0);
    assert Front(d) == [];
    assert Shown(d) == [Second];
    VerbosePartsSnoc(d, [], Second);
    ZeroSecondsWord();
  }

  /** Below one second (and at zero) the text is "0 seconds", in the plural. */
  lemma UnderOneSecond(seconds: real)
    requires 0.0 <= seconds < 1.0
    ensures VerboseText(Decompose(seconds.Floor)) == "0 seconds"
  {
    assert Decompose(seconds.Floor) == Duration(0, 0, 0, 0);
    ZeroDurationText();
  }

  predicate EndsWithLetter(s: string) {
    |s| > 0 && 'a' <= s[|s| - 1] <= 'z'
  }

  lemma JoinEndsWithLetter(parts: seq<string>, sep: string)
    requires |parts| > 0 && EndsWithLetter(parts[|parts| - 1])
    ensures EndsWithLetter(Join(parts, sep))
  {
  }

  lemma VerbosePartsEndWithLetter(d: Duration, us: seq<Unit>)
    requires |us| > 0
    ensures var ps := VerboseParts(d, us); EndsWithLetter(ps[|ps| - 1])
  {
  }

  lemma LetterIsNoSeparator(t: string)
    requires EndsWithLetter(t)
    ensures |t| > 0 && t[|t| - 1] != ',' && !IsSpace(t[|t| - 1])
    ensures TrimTrailingComma(t) == t
  {
    TrimLetter(t);
  }

  lemma VerboseTextEndsWithLetter(d: Duration)
    ensures EndsWithLetter(VerboseText(d))
  {
    var us := Shown(d);
    VerbosePartsEndWithLetter(d, us);
    JoinEndsWithLetter(VerboseParts(d, us), ", ");
  }

  /** The text never ends in a comma or in white space: the trim never has work left. */
  lemma NoTrailingSeparator(d: Duration)
    ensures var t := VerboseText(d); |t| > 0 && t[|t| - 1] != ',' && !IsSpace(t[|t| - 1])
    ensures TrimTrailingComma(VerboseText(d)) == VerboseText(d)
  {
    VerboseTextEndsWithLetter(d);
    LetterIsNoSeparator(VerboseText(d));
  }

  /** The listed units are separated by exactly one ", " each. */
  lemma {:induction false} SeparatorCount(parts: seq<string>)
    requires forall i :: 0 <= i < |parts| ==> ',' !in parts[i]
    ensures |parts| > 0 ==> multiset(Join(parts, ", "))[','] == |parts| - 1
    decreases |parts|
  {
    if |parts| > 1 {
      SeparatorCount(parts[..|parts| - 1]);
    }
  }

  /** A counted unit holds digits, a sign, a space and letters, never a comma. */
  lemma CountedHasNoComma(n: int, u: Unit)
    ensures ',' !in Counted(n, u)
  {
    var digits := IntToString(n);
    var word := " " + UnitWord(u) + (if n == 1 then "" else "s");
    IntToStringHasNoComma(n);
    assert ',' !in word;
    assert Counted(n, u) == digits + word;
  }

  lemma IntToStringHasNoComma(n: int)
    ensures ',' !in IntToString(n)
  {
    var s := IntToString(n);
    if n < 0 {
      var digits := NatToString(-n);
      assert s == "-" + digits;
      assert ',' !in digits by {
        forall j | 0 <= j < |digits| ensures digits[j] != ',' {
          assert IsDigit(digits[j]);
        }
      }
    } else {
      forall j | 0 <= j < |s| ensures s[j] != ',' {
        assert IsDigit(s[j]);
      }
    }
  }

  lemma {:induction false} VerbosePartHasNoComma(d: Duration, us: seq<Unit>, i: nat)
    requires i < |us|
    ensures ',' !in VerboseParts(d, us)[i]
    decreases |us|
  {
    if i < |us| - 1 {
      VerbosePartHasNoComma(d, us[..|us| - 1], i);
    } else {
      CountedHasNoComma(Amount(d, us[i]), us[i]);
    }
  }

  /** The verbose text has one comma fewer than it shows units: one per ", " between them. */
  lemma VerboseTextCommas(d: Duration)
    ensures multiset(VerboseText(d))[','] == |Shown(d)| - 1
  {
    var ps := VerboseParts(d, Shown(d));
    forall i | 0 <= i < |ps|
      ensures ',' !in ps[i]
    {
      VerbosePartHasNoComma(d, Shown(d), i);
    }
    SeparatorCount(ps);
  }

  /**
   * celciusToFahrenheit: c * (9 / 5) + 32 in exact arithmetic (the same
   * definition appears at src/routes/dashboard/data.ts:171-173).
   */
  function CelsiusToFahrenheit(c: real): (f: real)
    ensures (f - 32.0) * 5.0 / 9.0 == c
  {
    c * (9.0 / 5.0) + 32.0
  }

  lemma FahrenheitFixedPoints()
    ensures CelsiusToFahrenheit(0.0) == 32.0
    ensures CelsiusToFahrenheit(100.0) == 212.0
    ensures CelsiusToFahrenheit(-40.0) == -40.0
  {
  }

  lemma FahrenheitStrictlyIncreasing(c1: real, c2: real)
    requires c1 < c2
    ensures CelsiusToFahrenheit(c1) < CelsiusToFahrenheit(c2)
  {
  }
}
