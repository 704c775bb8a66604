/** The name of the directory a backup run writes under: the current date,
    and with the hourly style also the hour, formatted with the Go layouts
    "2006-01-02" and "2006-01-02-15". The clock is an input. */
module TimeDir {
  import opened Wrappers

  /** A wall-clock reading, to the hour. */
  datatype Clock = Clock(year: int, month: int, day: int, hour: int)

  /** A reading the layouts print with fixed widths: a four-digit year, a
      calendar month and day, a 24-hour hour. */
  predicate ValidClock(c: Clock) {
    0 <= c.year <= 9999 && 1 <= c.month <= 12 && 1 <= c.day <= 31 && 0 <= c.hour <= 23
  }

  /** 10 to the power `w`. */
  function Pow10(w: nat): (p: nat)
    ensures p >= 1
  {
    if w == 0 then 1 else 10 * Pow10(w - 1)
  }

  /** A decimal digit character. */
  predicate IsDigit(c: char) {
    '0' <= c <= '9'
  }

  /** `n` in decimal, zero-padded to `width` characters. */
  function Pad(n: nat, width: nat): (s: string)
    requires n < Pow10(width)
    ensures |s| == width
    ensures forall i :: 0 <= i < |s| ==> IsDigit(s[i])
  {
    if width == 0 then ""
    else
      DivBound(n, width);
      Pad(n / 10, width - 1) + [(48 + n % 10) as char]
  }

  /** Dropping the last digit of a `width`-digit number leaves a
      `(width - 1)`-digit number. */
  lemma DivBound(n: nat, width: nat)
    requires width > 0 && n < Pow10(width)
    ensures n / 10 < Pow10(width - 1)
  {
    assert Pow10(width) == 10 * Pow10(width - 1);
  }

  /** The value of a string of decimal digits. */
  function ParseDigits(s: string): (n: nat)
    requires forall i :: 0 <= i < |s| ==> IsDigit(s[i])
    ensures n < Pow10(|s|)
  {
    if |s| == 0 then 0
    else
      var init := ParseDigits(s[..|s| - 1]);
      assert IsDigit(s[|s| - 1]);
      var d := (s[|s| - 1] as int) - 48;
      ShiftBound(init, d, |s|);
      init * 10 + d
  }

  /** Appending a digit to a `(width - 1)`-digit number gives a
      `width`-digit number. */
  lemma ShiftBound(a: nat, d: int, width: nat)
    requires width > 0 && a < Pow10(width - 1) && 0 <= d < 10
    ensures 0 <= a * 10 + d < Pow10(width)
  {
    assert a + 1 <= Pow10(width - 1);
    assert (a + 1) * 10 <= Pow10(width - 1) * 10;
  }

  /** Reading back a zero-padded number gives the number. */
  lemma {:induction false} ParsePad(n: nat, width: nat)
    requires n < Pow10(width)
    ensures ParseDigits(Pad(n, width)) == n
  {
    if width > 0 {
      DivBound(n, width);
      var s := Pad(n, width);
      assert s[..|s| - 1] == Pad(n / 10, width - 1);
      ParsePad(n / 10, width - 1);
    }
  }

  /** The "2006-01-02" rendering of the date. */
  function DateDir(c: Clock): (s: string)
    requires ValidClock(c)
    ensures |s| == 10
  {
    Pad(c.year, 4) + "-" + Pad(c.month, 2) + "-" + Pad(c.day, 2)
  }

  /** `getTimeDir`: "hourly" selects the layout with the hour, every other
      style the date alone. */
  function GetTimeDir(style: string, now: Clock): (dir: string)
    requires ValidClock(now)
    ensures |dir| == if style == "hourly" then 13 else 10
  {
    if style == "hourly" then DateDir(now) + "-" + Pad(now.hour, 2) else DateDir(now)
  }

  /** What a time directory name records. */
  datatype Stamp = Stamp(year: int, month: int, day: int, hour: Option<int>)

  /** The characters of `s` in [lo, hi) are digits. */
  predicate DigitsAt(s: string, lo: nat, hi: nat)
    requires lo <= hi <= |s|
  {
    forall i :: lo <= i < hi ==> IsDigit(s[i])
  }

  /** The date layout "dddd-dd-dd" at the start of `s`. */
  predicate DateLayout(s: string)
    requires |s| >= 10
  {
    DigitsAt(s, 0, 4) && s[4] == '-' && DigitsAt(s, 5, 7) && s[7] == '-' && DigitsAt(s, 8, 10)
  }

  /** The date a well-formed time directory name starts with. */
  function ParseDate(s: string, hour: Option<int>): (t: Stamp)
    requires |s| >= 10 && DateLayout(s)
  {
    assert DigitsAt(s[0..4], 0, 4) && DigitsAt(s[5..7], 0, 2) && DigitsAt(s[8..10], 0, 2);
    Stamp(ParseDigits(s[0..4]), ParseDigits(s[5..7]), ParseDigits(s[8..10]), hour)
  }

  /** Reads a time directory name of either layout back; other names are
      rejected. */
  function ParseTimeDir(s: string): (r: Option<Stamp>)
    ensures r.Some? ==> |s| == 10 || |s| == 13
  {
    if |s| == 10 && DateLayout(s) then Some(ParseDate(s, None))
    else if |s| == 13 && DateLayout(s) && s[10] == '-' && DigitsAt(s, 11, 13) then
      assert DigitsAt(s[11..13], 0, 2);
      Some(ParseDate(s, Some(ParseDigits(s[11..13]))))
    else None
  }

  /** The date part of a rendered clock. */
  lemma DateDirParts(c: Clock)
    requires ValidClock(c)
    ensures DateDir(c)[0..4] == Pad(c.year, 4)
    ensures DateDir(c)[4] == '-' && DateDir(c)[5..7] == Pad(c.month, 2)
    ensures DateDir(c)[7] == '-' && DateDir(c)[8..10] == Pad(c.day, 2)
  {
  }

  /** The time directory name is unambiguous: parsing it recovers the date,
      and the hour exactly when the style is "hourly". */
  lemma TimeDirRoundTrip(style: string, now: Clock)
    requires ValidClock(now)
    ensures ParseTimeDir(GetTimeDir(style, now))
         == Some(Stamp(now.year, now.month, now.day, if style == "hourly" then Some(now.hour) else None))
  {
    var d := DateDir(now);
    DateDirParts(now);
    ParsePad(now.year, 4);
    ParsePad(now.month, 2);
    ParsePad(now.day, 2);
    var s := GetTimeDir(style, now);
    assert s[..10] == d;
    assert s[0..4] == d[0..4] && s[5..7] == d[5..7] && s[8..10] == d[8..10];
    if style == "hourly" {
      assert s[11..13] == Pad(now.hour, 2);
      ParsePad(now.hour, 2);
    }
  }
}
