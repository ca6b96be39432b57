/**
 * The uptime shown in the dashboard's system status section: the compact
 * form of a number of seconds ("2d3h5s"), one number and unit letter per
 * listed unit, with the units listed as in the verbose form.
 */
module SystemStatus {

  import opened Wrappers
  import opened Text
  import opened Util

  function Letter(u: Unit): char {
    match u
    case Day => 'd'
    case Hour => 'h'
    case Minute => 'm'
    case Second => 's'
  }

  /** "<amount><letter>" for one unit. */
  function CompactPart(d: Duration, u: Unit): string {
    IntToString(Amount(d, u)) + [Letter(u)]
  }

  function CompactParts(d: Duration, us: seq<Unit>): (ps: seq<string>)
    ensures |ps| == |us|
    decreases |us|
  {
    if us == [] then []
    else CompactParts(d, us[..|us| - 1]) + [CompactPart(d, us[|us| - 1])]
  }

  /**
   * The parts run together, as a string built with `+=`. Kept apart from
   * Join(ps, "") because it grows one part at a time, the shape the lemmas
   * below follow; ConcatIsJoin shows the two agree.
   */
  function Concat(ps: seq<string>): string
    decreases |ps|
  {
    if ps == [] then "" else Concat(ps[..|ps| - 1]) + ps[|ps| - 1]
  }

  lemma {:induction false} ConcatIsJoin(ps: seq<string>)
    ensures Concat(ps) == Join(ps, "")
    decreases |ps|
  {
    if |ps| > 1 {
      ConcatIsJoin(ps[..|ps| - 1]);
    } else if |ps| == 1 {
      assert Concat(ps) == Concat([]) + ps[0];
    }
  }

  function CompactText(d: Duration): string {
    Concat(CompactParts(d, Shown(d)))
  }

  /** What secondsToTime appends for a unit other than the seconds. */
  function CompactPiece(d: Duration, u: Unit): string {
    if Amount(d, u) > 0 then CompactPart(d, u) else ""
  }

  method SecondsToTime(seconds: real) returns (text: string)
    ensures text == CompactText(Decompose(seconds.Floor))
  {
    var days, hours, minutes, remainingSeconds := PeelUnits(seconds.Floor);
    ghost var d := Duration(days, hours, minutes, remainingSeconds);

    var timeString := "";
    if days > 0 {
      timeString := timeString + IntToString(days) + "d";
    }
    assert timeString == CompactPiece(d, Day);
    if hours > 0 {
      timeString := timeString + IntToString(hours) + "h";
    }
    assert timeString == CompactPiece(d, Day) + CompactPiece(d, Hour);
    if minutes > 0 {
      timeString := timeString + IntToString(minutes) + "m";
    }
    assert timeString == CompactPiece(d, Day) + CompactPiece(d, Hour) + CompactPiece(d, Minute);
    CompactFront(d);
    if remainingSeconds > 0 || timeString == "" {
      ghost var before := timeString;
      timeString := timeString + IntToString(remainingSeconds) + "s";
      CompactWithSeconds(d, before, timeString);
    } else {
      CompactWithoutSeconds(d, timeString);
    }
    CompactTextHasNoComma(d);
    NoCommaTrim(timeString);
    text := TrimTrailingComma(timeString);
  }

  lemma ConcatSnoc(ps: seq<string>, p: string)
    ensures Concat(ps + [p]) == Concat(ps) + p
  {
    assert (ps + [p])[..|ps|] == ps;
  }

  lemma CompactPartsSnoc(d: Duration, us: seq<Unit>, u: Unit)
    ensures CompactParts(d, us + [u]) == CompactParts(d, us) + [CompactPart(d, u)]
  {
    assert (us + [u])[..|us|] == us;
  }

  lemma CompactStep(d: Duration, f: seq<Unit>, u: Unit)
    ensures Concat(CompactParts(d, f)) + CompactPiece(d, u) == Concat(CompactParts(d, f + Listed(d, u)))
  {
    if Amount(d, u) > 0 {
      CompactPartsSnoc(d, f, u);
      ConcatSnoc(CompactParts(d, f), CompactPart(d, u));
    } else {
      assert f + Listed(d, u) == f;
    }
  }

  lemma CompactFront(d: Duration)
    ensures CompactPiece(d, Day) + CompactPiece(d, Hour) + CompactPiece(d, Minute) == Concat(CompactParts(d, Front(d)))
    ensures CompactPiece(d, Day) + CompactPiece(d, Hour) + CompactPiece(d, Minute) == "" <==> Front(d) == []
  {
    var f1 := [] + Listed(d, Day);
    var f2 := f1 + Listed(d, Hour);
    var f3 := f2 + Listed(d, Minute);
    CompactStep(d, [], Day);
    CompactStep(d, f1, Hour);
    CompactStep(d, f2, Minute);
    assert Front(d) == f3;
    ThreePieces(CompactPiece(d, Day), CompactPiece(d, Hour), CompactPiece(d, Minute), Concat(CompactParts(d, [])),
                Concat(CompactParts(d, f1)), Concat(CompactParts(d, f2)), Concat(CompactParts(d, f3)));
    assert |CompactPiece(d, Day)| > 0 <==> d.days > 0;
    assert |CompactPiece(d, Hour)| > 0 <==> d.hours > 0;
    assert |CompactPiece(d, Minute)| > 0 <==> d.minutes > 0;
  }

  lemma CompactWithSeconds(d: Duration, before: string, after: string)
    requires before == Concat(CompactParts(d, Front(d)))
    requires d.seconds > 0 || Front(d) == []
    requires after == before + IntToString(d.seconds) + "s"
    ensures after == CompactText(d)
  {
    assert Shown(d) == Front(d) + [Second];
    ConcatOneMore(d, Front(d), Second);
  }

  lemma CompactWithoutSeconds(d: Duration, text: string)
    requires text == Concat(CompactParts(d, Front(d)))
    requires d.seconds == 0 && Front(d) != []
    ensures text == CompactText(d)
  {
    assert Shown(d) == Front(d);
  }

  predicate NoComma(s: string) {
    forall i :: 0 <= i < |s| ==> s[i] != ','
  }

  lemma {:induction false} ConcatNoComma(ps: seq<string>)
    requires forall i :: 0 <= i < |ps| ==> NoComma(ps[i])
    ensures NoComma(Concat(ps))
    decreases |ps|
  {
    if ps != [] {
      ConcatNoComma(ps[..|ps| - 1]);
    }
  }

  /** The compact text is digits, '-' and unit letters only. */
  lemma CompactTextHasNoComma(d: Duration)
    ensures NoComma(CompactText(d))
  {
    var ps := CompactParts(d, Shown(d));
    forall i | 0 <= i < |ps|
      ensures NoComma(ps[i])
    {
      PartHasNoComma(d, Shown(d), i);
    }
    ConcatNoComma(ps);
  }

  lemma {:induction false} PartHasNoComma(d: Duration, us: seq<Unit>, i: nat)
    requires i < |us|
    ensures NoComma(CompactParts(d, us)[i])
    decreases |us|
  {
    if i < |us| - 1 {
      PartHasNoComma(d, us[..|us| - 1], i);
    } else {
      var n := Amount(d, us[i]);
      var s := IntToString(n);
      assert forall j :: 0 <= j < |s| ==> s[j] == '-' || IsDigit(s[j]);
    }
  }

  /** The trailing-comma cleanup never changes a text without commas. */
  lemma NoCommaTrim(s: string)
    requires NoComma(s)
    ensures TrimTrailingComma(s) == s
  {
  }

  /** Less than a second of uptime reads "0s". */
  lemma UnderOneSecond(seconds: real)
    requires 0.0 <= seconds < 1.0
    ensures CompactText(Decompose(seconds.Floor)) == "0s"
  {
    var d := Decompose(seconds.Floor);
    assert d == Duration(0, 0, 0, 0);
    assert Shown(d) == [Second];
    assert CompactParts(d, [Second]) == [] + [CompactPart(d, Second)];
    assert Concat(CompactParts(d, [Second])) == Concat([]) + CompactPart(d, Second);
  }

  // Reading the compact text back

  /** Where the run of digits at the end of s starts. */
  function TrailingDigitsStart(s: string): (k: nat)
    ensures k <= |s| && AllDigits(s[k..])
    ensures k == 0 || !IsDigit(s[k - 1])
    decreases |s|
  {
    if |s| == 0 || !IsDigit(s[|s| - 1]) then |s|
    else
      var k := TrailingDigitsStart(s[..|s| - 1]);
      assert s[k..] == s[..|s| - 1][k..] + [s[|s| - 1]];
      k
  }

  /** The duration with the amount of the unit spelt by `letter` replaced by n. */
  function SetUnit(d: Duration, letter: char, n: nat): Option<Duration> {
    match letter
    case 'd' => Some(d.(days := n))
    case 'h' => Some(d.(hours := n))
    case 'm' => Some(d.(minutes := n))
    case 's' => Some(d.(seconds := n))
    case _ => None
  }

  /** Reads "<n><letter>..." from the back; units that do not appear are 0. */
  function ReadCompact(s: string): Option<Duration>
    decreases |s|
  {
    if |s| == 0 then Some(Duration(0, 0, 0, 0))
    else
      var body := s[..|s| - 1];
      var k := TrailingDigitsStart(body);
      if k == |body| then None
      else
        match ReadCompact(body[..k])
        case None => None
        case Some(d) => SetUnit(d, s[|s| - 1], ParseNat(body[k..]))
  }

  /** The duration keeping only the amounts of the listed units. */
  function Restrict(d: Duration, us: seq<Unit>): Duration {
    Duration(
      if Day in us then d.days else 0,
      if Hour in us then d.hours else 0,
      if Minute in us then d.minutes else 0,
      if Second in us then d.seconds else 0)
  }

  /** The last character is not a digit: a unit letter closes the text. */
  predicate EndsWithNonDigit(s: string) {
    |s| > 0 && !IsDigit(s[|s| - 1])
  }

  /** Once parts have been written, the text ends with a unit letter. */
  lemma ConcatEndsWithNonDigit(d: Duration, us: seq<Unit>)
    requires us != []
    ensures EndsWithNonDigit(Concat(CompactParts(d, us)))
  {
    var ps := CompactParts(d, us);
    assert ps[|ps| - 1] == CompactPart(d, us[|us| - 1]);
  }

  /** The trailing digits of "...<letter><digits>" are exactly <digits>. */
  lemma {:induction false} TrailingDigitsAfterLetter(prefix: string, digits: string)
    requires prefix == [] || !IsDigit(prefix[|prefix| - 1])
    requires AllDigits(digits)
    ensures TrailingDigitsStart(prefix + digits) == |prefix|
    decreases |digits|
  {
    if digits == [] {
      assert prefix + digits == prefix;
    } else {
      var s := prefix + digits;
      assert s[..|s| - 1] == prefix + digits[..|digits| - 1];
      TrailingDigitsAfterLetter(prefix, digits[..|digits| - 1]);
    }
  }

  /** Reading "<digits><letter>" after a text that reads as dPrev. */
  lemma ReadStep(prefix: string, digits: string, letter: char, dPrev: Duration)
    requires prefix == [] || !IsDigit(prefix[|prefix| - 1])
    requires |digits| > 0 && AllDigits(digits)
    requires ReadCompact(prefix) == Some(dPrev)
    ensures ReadCompact(prefix + digits + [letter]) == SetUnit(dPrev, letter, ParseNat(digits))
  {
    var s := prefix + digits + [letter];
    var body := s[..|s| - 1];
    assert body == prefix + digits;
    TrailingDigitsAfterLetter(prefix, digits);
    assert body[..|prefix|] == prefix;
    assert body[|prefix|..] == digits;
  }

  /** Setting the amount of one more unit extends the restriction by that unit. */
  lemma SetRestrict(d: Duration, us: seq<Unit>, u: Unit)
    requires Amount(d, u) >= 0
    ensures SetUnit(Restrict(d, us), Letter(u), Amount(d, u)) == Some(Restrict(d, us + [u]))
  {
    assert forall v :: v in us + [u] <==> v in us || v == u;
  }

  /** The text of the parts so far, then one more part. */
  lemma ConcatOneMore(d: Duration, us: seq<Unit>, u: Unit)
    ensures Concat(CompactParts(d, us + [u])) == Concat(CompactParts(d, us)) + IntToString(Amount(d, u)) + [Letter(u)]
  {
    CompactPartsSnoc(d, us, u);
    ConcatSnoc(CompactParts(d, us), CompactPart(d, u));
  }

  /** Reading one more part: its number and letter set that unit's amount. */
  lemma ReadOneMore(d: Duration, us: seq<Unit>, u: Unit)
    requires Amount(d, u) >= 0
    requires ReadCompact(Concat(CompactParts(d, us))) == Some(Restrict(d, us))
    ensures ReadCompact(Concat(CompactParts(d, us + [u]))) == Some(Restrict(d, us + [u]))
  {
    var prefix := Concat(CompactParts(d, us));
    var digits := NatToString(Amount(d, u));
    ConcatOneMore(d, us, u);
    if us != [] {
      ConcatEndsWithNonDigit(d, us);
    }
    ReadStep(prefix, digits, Letter(u), Restrict(d, us));
    ParseNatToString(Amount(d, u));
    SetRestrict(d, us, u);
  }

  lemma {:induction false} ReadCompactParts(d: Duration, us: seq<Unit>)
    requires forall u :: u in us ==> Amount(d, u) >= 0
    ensures ReadCompact(Concat(CompactParts(d, us))) == Some(Restrict(d, us))
    decreases |us|
  {
    if us == [] {
      assert Restrict(d, us) == Duration(0, 0, 0, 0);
    } else {
      var front := us[..|us| - 1];
      var u := us[|us| - 1];
      assert us == front + [u];
      ReadCompactParts(d, front);
      ReadOneMore(d, front, u);
    }
  }

  /** For a non-negative uptime the compact text determines the duration. */
  lemma ReadCompactText(d: Duration)
    requires Normal(d) && d.days >= 0
    ensures ReadCompact(CompactText(d)) == Some(d)
  {
    var us := Shown(d);
    assert forall u :: u in us ==> Amount(d, u) >= 0;
    ReadCompactParts(d, us);
    var r := Restrict(d, us);
    assert r.days == d.days by { assert d.days > 0 ==> Day in us; }
    assert r.hours == d.hours by { assert d.hours > 0 ==> Hour in us; }
    assert r.minutes == d.minutes by { assert d.minutes > 0 ==> Minute in us; }
    assert r.seconds == d.seconds by { assert d.seconds > 0 ==> Second in us; }
  }

  /** The uptime in whole seconds is recovered from the compact text. */
  lemma CompactTextRoundTrip(seconds: real)
    requires seconds >= 0.0
    ensures ReadCompact(CompactText(Decompose(seconds.Floor))).Some?
    ensures TotalSeconds(ReadCompact(CompactText(Decompose(seconds.Floor))).value) == seconds.Floor
  {
    ReadCompactText(Decompose(seconds.Floor));
  }
}
