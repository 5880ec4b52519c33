/**
 * How a number of seconds is shown on screen: split into minutes and
 * seconds, each turned into a decimal string and left-padded with '0' to at
 * least two characters.
 *
 * The two halves of the split use different JavaScript operators:
 * `Math.floor(t / 60)` floors, while `t % 60` truncates toward zero (the
 * remainder takes the sign of `t`). For `t >= 0` they agree and the split is
 * exact; for negative `t` they do not.
 */
module Clock {

  datatype Option<T> = None | Some(value: T)

  predicate IsDigit(c: char) { '0' <= c <= '9' }

  /** Every character is a decimal digit (read from the right, as `DigitsValue` reads). */
  predicate AllDigits(s: string)
  {
    s == [] || (AllDigits(s[..|s| - 1]) && IsDigit(s[|s| - 1]))
  }

  function DigitChar(d: nat): (c: char)
    requires d < 10
    ensures IsDigit(c) && c as int - '0' as int == d
  {
    ('0' as int + d) as char
  }

  /** The number a string of decimal digits denotes; leading zeros are allowed. */
  function DigitsValue(s: string): nat
    requires AllDigits(s)
  {
    if s == [] then 0 else DigitsValue(s[..|s| - 1]) * 10 + (s[|s| - 1] as int - '0' as int)
  }

  /** `Math.floor(t / 60)`: Dafny's division by a positive divisor already floors. */
  function MinutesOf(t: int): (m: int)
    ensures m * 60 <= t < m * 60 + 60
  {
    t / 60
  }

  /** `t % 60` with JavaScript's remainder, whose sign is the sign of `t`. */
  function SecondsOf(t: int): (s: int)
    ensures t >= 0 ==> 0 <= s < 60 && MinutesOf(t) * 60 + s == t
    ensures t < 0 ==> -60 < s <= 0
    ensures (t - s) % 60 == 0
  {
    if t >= 0 then t % 60 else -((-t) % 60)
  }

  /** `String(n)` for a non-negative integer: its shortest decimal notation. */
  function NaturalString(n: nat): (s: string)
    ensures 1 <= |s| && AllDigits(s) && DigitsValue(s) == n
    ensures |s| == 1 || s[0] != '0'
    ensures n < 10 <==> |s| == 1
  {
    if n < 10 then
      [DigitChar(n)]
    else
      var prefix := NaturalString(n / 10);
      var s := prefix + [DigitChar(n % 10)];
      assert s[..|s| - 1] == prefix;
      s
  }

  /** `String(n)` for any integer: a minus sign in front of a negative number's magnitude. */
  function NumberString(n: int): (s: string)
    ensures 1 <= |s|
    ensures n >= 0 ==> AllDigits(s) && DigitsValue(s) == n && (|s| == 1 || s[0] != '0')
    ensures n < 0 ==> 2 <= |s| && s[0] == '-' && AllDigits(s[1..]) && DigitsValue(s[1..]) == -n
    ensures n < 0 ==> |s| == 2 || s[1] != '0'
  {
    if n < 0 then
      var s := "-" + NaturalString(-n);
      assert s[1..] == NaturalString(-n);
      s
    else
      NaturalString(n)
  }

  function Zeros(k: nat): (z: string)
  {
    seq(k, _ => '0')
  }

  /** `s.padStart(2, "0")`: strings shorter than two characters get leading zeros. */
  function PadTwo(s: string): (r: string)
    ensures |r| == if |s| >= 2 then |s| else 2
    ensures r == Zeros(|r| - |s|) + s
  {
    if |s| >= 2 then s else Zeros(2 - |s|) + s
  }

  lemma {:induction false} ZerosValue(k: nat)
    ensures AllDigits(Zeros(k)) && DigitsValue(Zeros(k)) == 0
  {
    if k > 0 {
      assert Zeros(k)[..k - 1] == Zeros(k - 1);
      ZerosValue(k - 1);
    }
  }

  /** Leading zeros do not change the number a digit string denotes. */
  lemma {:induction false} LeadingZeros(k: nat, s: string)
    requires AllDigits(s)
    ensures AllDigits(Zeros(k) + s) && DigitsValue(Zeros(k) + s) == DigitsValue(s)
  {
    ZerosValue(k);
    var z := Zeros(k) + s;
    if s == [] {
      assert z == Zeros(k);
    } else {
      LeadingZeros(k, s[..|s| - 1]);
      assert z[..|z| - 1] == Zeros(k) + s[..|s| - 1];
    }
  }

  /** Padding a digit string keeps it a digit string with the same value. */
  lemma PadTwoKeepsValue(s: string)
    requires AllDigits(s)
    ensures AllDigits(PadTwo(s)) && DigitsValue(PadTwo(s)) == DigitsValue(s)
  {
    if |s| < 2 {
      LeadingZeros(2 - |s|, s);
    }
  }

  /**
   * The two display fields of `t` seconds: padded minutes and padded seconds,
   * as both screens render them on either side of the colon.
   */
  function ClockFields(t: int): (f: (string, string))
    ensures |f.0| >= 2 && |f.1| >= 2
  {
    (PadTwo(NumberString(MinutesOf(t))), PadTwo(NumberString(SecondsOf(t))))
  }

  /**
   * For a non-negative count the fields read back to the count: the seconds
   * field is exactly two digits below 60, the minutes field at least two
   * digits, and minutes * 60 + seconds gives `t` again.
   */
  lemma ClockFieldsReadBack(t: int)
    requires t >= 0
    ensures var mm, ss := ClockFields(t).0, ClockFields(t).1;
      AllDigits(mm) && AllDigits(ss) && |mm| >= 2 && |ss| == 2
      && DigitsValue(ss) == SecondsOf(t) < 60
      && DigitsValue(mm) == MinutesOf(t)
      && DigitsValue(mm) * 60 + DigitsValue(ss) == t
  {
    PaddedReadsBack(MinutesOf(t));
    PaddedReadsBack(SecondsOf(t));
  }

  /** A padded non-negative number is a digit string denoting it; below 100 it has two digits. */
  lemma PaddedReadsBack(n: int)
    requires n >= 0
    ensures var field := PadTwo(NumberString(n));
      AllDigits(field) && DigitsValue(field) == n && (n < 100 ==> |field| == 2)
  {
    PadTwoKeepsValue(NaturalString(n));
    if 10 <= n < 100 {
      assert |NaturalString(n / 10)| == 1;
    }
  }

  /**
   * `formatTime`: the two fields joined by " : ". The component defines it
   * but renders the same split inline; it is modelled for its read-back.
   */
  function FormatTime(totalSeconds: int): (text: string)
    ensures |text| >= 7
  {
    var fields := ClockFields(totalSeconds);
    fields.0 + " : " + fields.1
  }

  /**
   * Reads a "mm : ss" text back into seconds: digits, the separator, and
   * exactly two digits at the end.
   */
  function ParseClock(text: string): (t: Option<int>)
  {
    if |text| < 7 then None
    else
      var mm, separator, ss := text[..|text| - 5], text[|text| - 5..|text| - 2], text[|text| - 2..];
      if separator == " : " && AllDigits(mm) && AllDigits(ss) then Some(DigitsValue(mm) * 60 + DigitsValue(ss))
      else None
  }

  /** The formatted text of a non-negative count parses back to the count. */
  lemma FormatTimeParsesBack(t: int)
    requires t >= 0
    ensures ParseClock(FormatTime(t)) == Some(t)
  {
    var mm, ss := ClockFields(t).0, ClockFields(t).1;
    ClockFieldsReadBack(t);
    ParseFields(mm, ss, t);
  }

  lemma ParseFields(mm: string, ss: string, t: int)
    requires AllDigits(mm) && AllDigits(ss) && |mm| >= 2 && |ss| == 2
    requires DigitsValue(mm) * 60 + DigitsValue(ss) == t
    ensures ParseClock(mm + " : " + ss) == Some(t)
  {
    JoinedSplits(mm, ss);
  }

  lemma JoinedSplits(mm: string, ss: string)
    requires |ss| == 2
    ensures var text := mm + " : " + ss;
      |text| >= 5 && text[..|text| - 5] == mm && text[|text| - 5..|text| - 2] == " : " && text[|text| - 2..] == ss
  {
  }

  /**
   * A negative count that is not a whole number of minutes is not split
   * consistently: the minutes are floored but the remainder keeps the sign of
   * `t`, so both fields carry a minus sign and together they denote `t - 60`.
   */
  lemma NegativeCountMisreads(t: int)
    requires t < 0 && t % 60 != 0
    ensures var mm, ss := ClockFields(t).0, ClockFields(t).1;
      && mm[0] == '-' && ss[0] == '-' && AllDigits(mm[1..]) && AllDigits(ss[1..])
      && DigitsValue(ss[1..]) == (-t) % 60
      && -(DigitsValue(mm[1..]) * 60 + DigitsValue(ss[1..])) == t - 60
  {
    var m, s := MinutesOf(t), SecondsOf(t);
    assert s != 0;
    assert -m * 60 - s == 60 - t;
  }

  /** The smallest instance: -5 seconds is shown as "-1" and "-5". */
  lemma MinusFiveDisplay()
    ensures ClockFields(-5) == ("-1", "-5")
    ensures MinutesOf(-5) * 60 + SecondsOf(-5) == -65
  {
    assert MinutesOf(-5) == -1;
    assert SecondsOf(-5) == -5;
    assert NaturalString(1) == "1";
    assert NaturalString(5) == "5";
    assert NumberString(-1) == "-1";
    assert NumberString(-5) == "-5";
    assert PadTwo("-1") == "-1";
    assert PadTwo("-5") == "-5";
  }
}
