/** Minute-of-day arithmetic on "HH:MM" wall-clock texts, as the card reads them. */
module Clock {

  /** Length of the day the timeline spans (TOTAL_MINUTES). */
  const TotalMinutes: int := 24 * 60

  predicate IsDigit(c: char) {
    '0' <= c <= '9'
  }

  function DigitValue(c: char): (d: nat)
    requires IsDigit(c)
    ensures d < 10
  {
    c as int - '0' as int
  }

  function DigitChar(d: nat): (c: char)
    requires d < 10
    ensures IsDigit(c) && DigitValue(c) == d
  {
    ('0' as int + d) as char
  }

  /** The number a two-digit decimal field denotes, as `Number` reads "08" as 8. */
  function Field(a: char, b: char): nat
    requires IsDigit(a) && IsDigit(b)
  {
    10 * DigitValue(a) + DigitValue(b)
  }

  /** A clock text as a time input produces it: two-digit hour below 24, a colon,
      two-digit minute below 60. */
  predicate WellFormedTime(s: string) {
    && |s| == 5
    && IsDigit(s[0]) && IsDigit(s[1]) && s[2] == ':' && IsDigit(s[3]) && IsDigit(s[4])
    && Field(s[0], s[1]) < 24
    && Field(s[3], s[4]) < 60
  }

  /** Minutes since midnight of a clock text (timeToMinutes). */
  function TimeToMinutes(s: string): (m: int)
    requires WellFormedTime(s)
    ensures 0 <= m < TotalMinutes
  {
    Field(s[0], s[1]) * 60 + Field(s[3], s[4])
  }

  /** The two-digit, zero-padded decimal text of n. */
  function Pad2(n: nat): (s: string)
    requires n < 100
    ensures |s| == 2 && IsDigit(s[0]) && IsDigit(s[1]) && Field(s[0], s[1]) == n
  {
    [DigitChar(n / 10), DigitChar(n % 10)]
  }

  /** The clock text of hour h and minute m. */
  function ClockText(h: nat, m: nat): (s: string)
    requires h < 24 && m < 60
    ensures WellFormedTime(s)
  {
    Pad2(h) + ":" + Pad2(m)
  }

  /** Reference inverse of TimeToMinutes: the clock text of a minute of the day. */
  function FormatTime(minutes: int): (s: string)
    requires 0 <= minutes < TotalMinutes
    ensures WellFormedTime(s)
  {
    ClockText(minutes / 60, minutes % 60)
  }

  /** Hour h and minute m are read back as 60*h + m. */
  lemma MinutesOfClockText(h: nat, m: nat)
    requires h < 24 && m < 60
    ensures TimeToMinutes(ClockText(h, m)) == 60 * h + m
  {
    var s := ClockText(h, m);
    assert s[0..2] == Pad2(h) && s[3..5] == Pad2(m);
  }

  lemma FormatThenParse(minutes: int)
    requires 0 <= minutes < TotalMinutes
    ensures TimeToMinutes(FormatTime(minutes)) == minutes
  {
    MinutesOfClockText(minutes / 60, minutes % 60);
  }

  /** Every well-formed clock text is the formatting of its own minute count, so
      on well-formed texts the conversion loses nothing. */
  lemma ParseThenFormat(s: string)
    requires WellFormedTime(s)
    ensures FormatTime(TimeToMinutes(s)) == s
  {
    var h, m := Field(s[0], s[1]), Field(s[3], s[4]);
    var n := TimeToMinutes(s);
    assert n / 60 == h && n % 60 == m;
    Pad2OfField(s[0], s[1]);
    Pad2OfField(s[3], s[4]);
    assert FormatTime(n) == [s[0], s[1]] + ":" + [s[3], s[4]];
    assert [s[0], s[1]] + ":" + [s[3], s[4]] == s;
  }

  /** Padding the value of a two-digit field gives the field back. */
  lemma Pad2OfField(a: char, b: char)
    requires IsDigit(a) && IsDigit(b)
    ensures Pad2(Field(a, b)) == [a, b]
  {
    var n := Field(a, b);
    assert n / 10 == DigitValue(a) && n % 10 == DigitValue(b);
  }

  /** On well-formed texts, equal minute counts and equal texts coincide: the
      string comparisons of the card and the minute comparisons agree. */
  lemma SameMinutesIffSameText(s: string, t: string)
    requires WellFormedTime(s) && WellFormedTime(t)
    ensures TimeToMinutes(s) == TimeToMinutes(t) <==> s == t
  {
    if TimeToMinutes(s) == TimeToMinutes(t) {
      ParseThenFormat(s);
      ParseThenFormat(t);
    }
  }

  /** Midnight is the only well-formed text worth 0 minutes. */
  lemma ZeroMinutesIffMidnight(s: string)
    requires WellFormedTime(s)
    ensures TimeToMinutes(s) == 0 <==> s == "00:00"
  {
    assert WellFormedTime("00:00") && TimeToMinutes("00:00") == 0;
    SameMinutesIffSameText(s, "00:00");
  }
}
