/**
 * `utils.timeFormat`: whole seconds rendered as `[hh:]mm:ss`.
 *
 * The player shows elapsed time and duration with this function. Time is
 * modelled as whole seconds: the `parseInt` the source applies first is a
 * truncation that the caller has already done.
 */
module TimeFormat {
  import opened Optional

  predicate IsDigit(c: char) {
    '0' <= c <= '9'
  }

  predicate AllDigits(s: string) {
    forall k :: 0 <= k < |s| ==> IsDigit(s[k])
  }

  function DigitChar(d: nat): (c: char)
    requires d < 10
    ensures IsDigit(c)
  {
    (d + '0' as int) as char
  }

  function DigitValue(c: char): (d: nat)
    requires IsDigit(c)
    ensures d < 10
  {
    c as int - '0' as int
  }

  /**
   * JavaScript's rendering of a whole number as a decimal string, for
   * numbers below 1e21 (above that JavaScript switches to exponent
   * notation, and above 2^53 `parseInt` and `Math.floor` already round).
   */
  function Decimal(n: nat): (s: string)
    ensures 1 <= |s| && AllDigits(s)
    ensures |s| == 1 <==> n < 10
    ensures |s| == 2 <==> 10 <= n < 100
    ensures n >= 10 ==> s[0] != '0'
  {
    if n < 10 then [DigitChar(n)] else Decimal(n / 10) + [DigitChar(n % 10)]
  }

  /** The number a string of decimal digits denotes (leading zeros allowed). */
  function DigitsValue(s: string): (v: nat)
    requires AllDigits(s)
  {
    if s == [] then 0 else DigitsValue(s[..|s| - 1]) * 10 + DigitValue(s[|s| - 1])
  }

  /** Reading back a rendered number gives the number. */
  lemma {:induction false} DecimalRoundTrip(n: nat)
    ensures DigitsValue(Decimal(n)) == n
  {
    if n >= 10 {
      var s := Decimal(n);
      assert s[..|s| - 1] == Decimal(n / 10);
      DecimalRoundTrip(n / 10);
    }
  }

  /** One field of the clock: a value below 10 gets one leading "0". */
  function Pad(n: nat): (s: string)
    ensures AllDigits(s) && 2 <= |s|
    ensures n < 100 ==> |s| == 2
    ensures DigitsValue(s) == n
  {
    DecimalRoundTrip(n);
    if n < 10 then
      var s := "0" + Decimal(n);
      assert s[..|s| - 1] == "0";
      s
    else Decimal(n)
  }

  datatype Clock = Clock(hours: nat, minutes: nat, seconds: nat)

  /** Whole seconds split into hours, minutes and seconds, with the source's floor divisions. */
  function Split(t: nat): (c: Clock)
    ensures c.hours * 3600 + c.minutes * 60 + c.seconds == t
    ensures c.minutes < 60 && c.seconds < 60
  {
    var hours := t / 3600;
    var minutes := (t - hours * 3600) / 60;
    var seconds := t - hours * 3600 - minutes * 60;
    Clock(hours, minutes, seconds)
  }

  /** The split is the only one with minutes and seconds below 60. */
  lemma SplitUnique(t: nat, c: Clock)
    requires c.minutes < 60 && c.seconds < 60
    requires c.hours * 3600 + c.minutes * 60 + c.seconds == t
    ensures c == Split(t)
  {
    var rest := c.minutes * 60 + c.seconds;
    assert rest < 3600;
    assert t / 3600 == c.hours && t - c.hours * 3600 == rest;
    assert rest / 60 == c.minutes;
  }

  /** `timeFormat(t, showHours)`: `mm:ss`, prefixed with `hh:` only when asked for. */
  function Format(t: nat, showHours: bool): (s: string)
    ensures |s| >= 5 && s[|s| - 3] == ':'
    ensures !showHours ==> |s| == 5
    ensures showHours ==> |s| >= 8 && s[|s| - 6] == ':'
  {
    var c := Split(t);
    (if showHours then Pad(c.hours) + ":" else "") + Pad(c.minutes) + ":" + Pad(c.seconds)
  }

  /**
   * Reads `mm:ss` or `h..h:mm:ss` (at least two hour digits) back into
   * seconds; minutes and seconds must be two digits below 60.
   */
  function ParseTime(s: string): (r: Option<nat>)
  {
    var n := |s|;
    if n < 5 || s[n - 3] != ':' || !AllDigits(s[n - 5..n - 3]) || !AllDigits(s[n - 2..]) then None
    else
      var minutes := DigitsValue(s[n - 5..n - 3]);
      var seconds := DigitsValue(s[n - 2..]);
      if minutes >= 60 || seconds >= 60 then None
      else if n == 5 then Some(minutes * 60 + seconds)
      else if n < 8 || s[n - 6] != ':' || !AllDigits(s[..n - 6]) then None
      else Some(DigitsValue(s[..n - 6]) * 3600 + minutes * 60 + seconds)
  }

  /** Without hours the text is always five characters, `mm:ss`. */
  lemma FormatShape(t: nat)
    ensures var s := Format(t, false);
      |s| == 5 && s[2] == ':' && AllDigits(s[..2]) && AllDigits(s[3..])
  {
    var c := Split(t);
    var s := Format(t, false);
    assert s == Pad(c.minutes) + ":" + Pad(c.seconds);
    assert s[..2] == Pad(c.minutes);
    assert s[3..] == Pad(c.seconds);
  }

  /** With hours the text is `hh:` followed by the text without hours. */
  lemma FormatWithHours(t: nat)
    ensures Format(t, true) == Pad(Split(t).hours) + ":" + Format(t, false)
  {
  }

  /** Without hours, whole hours are dropped: the display wraps every hour. */
  lemma FormatDropsHours(t: nat)
    ensures Format(t, false) == Format(t % 3600, false)
  {
    var c, d := Split(t), Split(t % 3600);
    SplitUnique(t % 3600, Clock(0, c.minutes, c.seconds));
  }

  /** Round trip: the text with hours reads back as the original number of seconds. */
  lemma FormatRoundTrip(t: nat)
    ensures ParseTime(Format(t, true)) == Some(t)
  {
    var c := Split(t);
    var h, m, x := Pad(c.hours), Pad(c.minutes), Pad(c.seconds);
    var s := Format(t, true);
    assert s == h + ":" + m + ":" + x;
    var n := |s|;
    assert n == |h| + 6;
    assert s[n - 5..n - 3] == m;
    assert s[n - 2..] == x;
    assert s[..n - 6] == h;
  }

  /** Round trip without hours: the text reads back as the seconds within the hour. */
  lemma FormatRoundTripNoHours(t: nat)
    ensures ParseTime(Format(t, false)) == Some(t % 3600)
  {
    var c := Split(t);
    var m, x := Pad(c.minutes), Pad(c.seconds);
    var s := Format(t, false);
    assert s == m + ":" + x;
    assert s[0..2] == m;
    assert s[3..] == x;
    assert c.hours * 3600 + (c.minutes * 60 + c.seconds) == t;
    assert c.minutes * 60 + c.seconds < 3600;
  }

  /** The padded fields the examples below use. */
  lemma PadExamples()
    ensures Pad(0) == "00" && Pad(1) == "01" && Pad(59) == "59"
  {
    assert DigitChar(5) == '5' && DigitChar(9) == '9';
    assert Decimal(59) == Decimal(5) + [DigitChar(9)];
  }

  /** The text without hours is built from the minutes and seconds of the only valid split. */
  lemma FormatFromClock(t: nat, c: Clock)
    requires c.minutes < 60 && c.seconds < 60 && c.hours * 3600 + c.minutes * 60 + c.seconds == t
    ensures Format(t, false) == Pad(c.minutes) + ":" + Pad(c.seconds)
  {
    SplitUnique(t, c);
  }

  lemma FormatExampleZero()
    ensures Format(0, false) == "00:00"
  {
    FormatFromClock(0, Clock(0, 0, 0));
    PadExamples();
  }

  lemma FormatExampleMinute()
    ensures Format(59, false) == "00:59"
  {
    assert 59 / 3600 == 0 && 59 / 60 == 0;
    assert Split(59) == Clock(0, 0, 59);
    PadExamples();
    assert Format(59, false) == Pad(0) + ":" + Pad(59);
  }

  lemma FormatExampleHour()
    ensures Format(60, false) == "01:00"
  {
    assert Split(60) == Clock(0, 1, 0);
  }

  lemma FormatExampleHours()
    ensures Format(3661, true) == "01:01:01"
  {
    assert Split(3661) == Clock(1, 1, 1);
  }
}
