/**
 * The fixed timestamp text used throughout the system: `strftime` with
 * `"%Y-%m-%dT%H:%M:%S"` (no offset suffix; the store reads it as UTC), and
 * `"%Y-%m-%d"` for dates; with the parsers that invert them.
 */
module IsoTime {
  import opened Wrappers
  import opened Calendar

  // ---------------------------------------------------------------------------
  // Decimal digits
  // ---------------------------------------------------------------------------

  predicate IsDigit(c: char) {
    '0' <= c <= '9'
  }

  predicate AllDigits(s: string) {
    forall i :: 0 <= i < |s| ==> IsDigit(s[i])
  }

  function DigitChar(n: nat): (c: char)
    requires n < 10
    ensures IsDigit(c)
  {
    ('0' as int + n) as char
  }

  function DigitValue(c: char): (n: nat)
    requires IsDigit(c)
    ensures n < 10
  {
    c as int - '0' as int
  }

  /** The value of a string of decimal digits (most significant first). */
  function DigitsValue(s: string): nat
    requires AllDigits(s)
  {
    if s == [] then 0 else DigitsValue(s[..|s| - 1]) * 10 + DigitValue(s[|s| - 1])
  }

  /** The shortest decimal numeral of `n` ("0" for zero). */
  function Decimal(n: nat): (s: string)
    ensures |s| >= 1 && AllDigits(s)
  {
    if n < 10 then [DigitChar(n)] else Decimal(n / 10) + [DigitChar(n % 10)]
  }

  function Zeros(k: nat): (s: string)
    ensures |s| == k && AllDigits(s)
    ensures forall i :: 0 <= i < k ==> s[i] == '0'
  {
    if k == 0 then [] else Zeros(k - 1) + ['0']
  }

  /** `n` zero-padded on the left to at least `w` digits, as `%04d` / `%02d` render it. */
  function Padded(n: nat, w: nat): (s: string)
    ensures AllDigits(s) && |s| >= w
  {
    var d := Decimal(n);
    if |d| < w then Zeros(w - |d|) + d else d
  }

  function Pow10(k: nat): (p: nat)
    ensures p >= 1
  {
    if k == 0 then 1 else 10 * Pow10(k - 1)
  }

  lemma {:induction false} DecimalValue(n: nat)
    ensures DigitsValue(Decimal(n)) == n
  {
    if n >= 10 {
      DecimalValue(n / 10);
      var d := Decimal(n);
      assert d[..|d| - 1] == Decimal(n / 10);
    }
  }

  lemma {:induction false} DecimalLength(n: nat, k: nat)
    requires k >= 1 && n < Pow10(k)
    ensures |Decimal(n)| <= k
  {
    if n >= 10 {
      assert k >= 2;
      DecimalLength(n / 10, k - 1);
    }
  }

  lemma {:induction false} LeadingZeroValue(s: string)
    requires AllDigits(s)
    ensures DigitsValue(['0'] + s) == DigitsValue(s)
    decreases |s|
  {
    if s != [] {
      var t := ['0'] + s;
      assert t[..|t| - 1] == ['0'] + s[..|s| - 1];
      LeadingZeroValue(s[..|s| - 1]);
    }
  }

  lemma {:induction false} LeadingZerosValue(k: nat, s: string)
    requires AllDigits(s)
    ensures DigitsValue(Zeros(k) + s) == DigitsValue(s)
  {
    if k > 0 {
      var z := ['0'] + s;
      assert Zeros(k) + s == Zeros(k - 1) + z;
      LeadingZeroValue(s);
      LeadingZerosValue(k - 1, z);
      assert DigitsValue(Zeros(k - 1) + z) == DigitsValue(z);
    } else {
      assert Zeros(k) + s == s;
    }
  }

  /** Zero-padding never changes the value read back. */
  lemma PaddedValue(n: nat, w: nat)
    ensures DigitsValue(Padded(n, w)) == n
  {
    DecimalValue(n);
    var d := Decimal(n);
    if |d| < w {
      LeadingZerosValue(w - |d|, d);
    }
  }

  /** A number below 10^w pads to exactly `w` digits. */
  lemma PaddedWidth(n: nat, w: nat)
    requires w >= 1 && n < Pow10(w)
    ensures |Padded(n, w)| == w
  {
    DecimalLength(n, w);
  }

  // ---------------------------------------------------------------------------
  // Rendering
  // ---------------------------------------------------------------------------

  /** `strftime("%Y-%m-%d")` of a date. */
  function RenderDate(dt: Date): string {
    Padded(dt.year, 4) + "-" + Padded(dt.month, 2) + "-" + Padded(dt.day, 2)
  }

  /** `strftime("%H:%M:%S")` of clock fields. */
  function ClockText(h: nat, mi: nat, sec: nat): string {
    Padded(h, 2) + ":" + Padded(mi, 2) + ":" + Padded(sec, 2)
  }

  /** `strftime("%Y-%m-%dT%H:%M:%S")` of a UTC instant, with no offset suffix. */
  function Render(t: Instant): string {
    RenderDate(DateOf(t)) + "T" + ClockText(HourOf(t), MinuteOf(t), SecondOf(t))
  }

  /** The columns of a 10-character date, a `T` and an 8-character clock. */
  lemma JoinColumns(date: string, clock: string)
    requires |date| == 10 && |clock| == 8
    ensures var s := date + "T" + clock;
      && |s| == 19 && s[10] == 'T' && s[..10] == date
      && s[4] == date[4] && s[7] == date[7] && s[13] == clock[2] && s[16] == clock[5]
      && s[..4] == date[..4] && s[5..7] == date[5..7] && s[8..10] == date[8..]
      && s[11..13] == clock[..2] && s[14..16] == clock[3..5] && s[17..] == clock[6..]
  {
    var s := date + "T" + clock;
    assert s[..10] == date;
    assert s[11..] == clock;
    assert s[11..13] == s[11..][..2];
    assert s[14..16] == s[11..][3..5];
    assert s[17..] == s[11..][6..];
  }

  lemma ClockTextFields(a: string, b: string, c: string)
    requires |a| == 2 && |b| == 2 && |c| == 2
    ensures var s := a + ":" + b + ":" + c;
      |s| == 8 && s[2] == ':' && s[5] == ':' && s[..2] == a && s[3..5] == b && s[6..] == c
  {
  }

  /** Where each field sits in a date followed by a clock: fixed columns once every field fits its width. */
  lemma StampFields(dt: Date, h: nat, mi: nat, sec: nat)
    requires dt.year < 10000 && dt.month < 100 && dt.day < 100 && h < 100 && mi < 100 && sec < 100
    ensures var s := RenderDate(dt) + "T" + ClockText(h, mi, sec);
      && |s| == 19
      && s[4] == '-' && s[7] == '-' && s[10] == 'T' && s[13] == ':' && s[16] == ':'
      && s[..10] == RenderDate(dt)
      && s[..4] == Padded(dt.year, 4) && s[5..7] == Padded(dt.month, 2) && s[8..10] == Padded(dt.day, 2)
      && s[11..13] == Padded(h, 2) && s[14..16] == Padded(mi, 2) && s[17..] == Padded(sec, 2)
  {
    PaddedWidth(dt.year, 4);
    PaddedWidth(dt.month, 2);
    PaddedWidth(dt.day, 2);
    PaddedWidth(h, 2);
    PaddedWidth(mi, 2);
    PaddedWidth(sec, 2);
    DateTextFields(Padded(dt.year, 4), Padded(dt.month, 2), Padded(dt.day, 2));
    ClockTextFields(Padded(h, 2), Padded(mi, 2), Padded(sec, 2));
    JoinColumns(RenderDate(dt), ClockText(h, mi, sec));
  }

  /** The rendered text has the fixed shape `YYYY-MM-DDTHH:MM:SS`. */
  lemma RenderShape(t: Instant)
    requires YearOfInstant(t) <= 9999
    ensures var s := Render(t);
      && |s| == 19
      && s[4] == '-' && s[7] == '-' && s[10] == 'T' && s[13] == ':' && s[16] == ':'
      && AllDigits(s[..4]) && AllDigits(s[5..7]) && AllDigits(s[8..10])
      && AllDigits(s[11..13]) && AllDigits(s[14..16]) && AllDigits(s[17..])
  {
    DateOfYear(t);
    StampFields(DateOf(t), HourOf(t), MinuteOf(t), SecondOf(t));
  }

  // ---------------------------------------------------------------------------
  // Parsing, the inverse of rendering
  // ---------------------------------------------------------------------------

  /** Reads `YYYY-MM-DD`; rejects any other shape and impossible dates. */
  function ParseDate(s: string): Option<Date> {
    if |s| == 10 && s[4] == '-' && s[7] == '-'
       && AllDigits(s[..4]) && AllDigits(s[5..7]) && AllDigits(s[8..])
    then
      var dt := Date(DigitsValue(s[..4]), DigitsValue(s[5..7]), DigitsValue(s[8..]));
      if ValidDate(dt) then Some(dt) else None
    else None
  }

  /** Reads `YYYY-MM-DDTHH:MM:SS`; rejects any other shape and impossible fields. */
  function Parse(s: string): Option<Instant> {
    if |s| == 19 && s[10] == 'T' && s[13] == ':' && s[16] == ':'
       && AllDigits(s[11..13]) && AllDigits(s[14..16]) && AllDigits(s[17..])
    then
      match ParseDate(s[..10])
      case None => None
      case Some(dt) =>
        var h, mi, sec := DigitsValue(s[11..13]), DigitsValue(s[14..16]), DigitsValue(s[17..]);
        if h < 24 && mi < 60 && sec < 60 then Some(InstantAt(DayNumber(dt), h, mi, sec)) else None
    else None
  }

  lemma DateTextFields(a: string, b: string, c: string)
    requires |a| == 4 && |b| == 2 && |c| == 2
    ensures var s := a + "-" + b + "-" + c;
      |s| == 10 && s[4] == '-' && s[7] == '-' && s[..4] == a && s[5..7] == b && s[8..] == c
  {
  }

  /** Dates of years up to 9999 read back from their rendering. */
  lemma ParseRenderDate(dt: Date)
    requires ValidDate(dt) && dt.year <= 9999
    ensures ParseDate(RenderDate(dt)) == Some(dt)
  {
    var a, b, c := Padded(dt.year, 4), Padded(dt.month, 2), Padded(dt.day, 2);
    PaddedWidth(dt.year, 4);
    PaddedWidth(dt.month, 2);
    PaddedWidth(dt.day, 2);
    PaddedValue(dt.year, 4);
    PaddedValue(dt.month, 2);
    PaddedValue(dt.day, 2);
    DateTextFields(a, b, c);
    var s := RenderDate(dt);
    assert s == a + "-" + b + "-" + c;
    assert DigitsValue(s[..4]) == dt.year;
    assert DigitsValue(s[5..7]) == dt.month;
    assert DigitsValue(s[8..]) == dt.day;
  }

  /** The text of a valid date and clock reads back as that date and clock. */
  lemma ParseFields(dt: Date, h: nat, mi: nat, sec: nat)
    requires ValidDate(dt) && dt.year <= 9999 && h < 24 && mi < 60 && sec < 60
    ensures Parse(RenderDate(dt) + "T" + ClockText(h, mi, sec)) == Some(InstantAt(DayNumber(dt), h, mi, sec))
  {
    ParseRenderDate(dt);
    StampFields(dt, h, mi, sec);
    PaddedValue(h, 2);
    PaddedValue(mi, 2);
    PaddedValue(sec, 2);
  }

  /** Round trip: every instant of a year up to 9999 reads back from its rendering. */
  lemma ParseRender(t: Instant)
    requires YearOfInstant(t) <= 9999
    ensures Parse(Render(t)) == Some(t)
  {
    DateOfYear(t);
    ParseFields(DateOf(t), HourOf(t), MinuteOf(t), SecondOf(t));
    FieldsDetermineInstant(t);
  }

  /** Distinct instants render to distinct text, so keys built from the text stay unique. */
  lemma RenderInjective(a: Instant, b: Instant)
    requires YearOfInstant(a) <= 9999 && YearOfInstant(b) <= 9999
    requires Render(a) == Render(b)
    ensures a == b
  {
    ParseRender(a);
    ParseRender(b);
  }
}
