/** Calendar dates as main.py handles them: `datetime.strptime(s, "%Y-%m-%d").date()`
    inside `_dt` and `_order_date`, and the `<` / `>` comparison of two dates.
    The strict text form is the ISO 8601 extended calendar date `YYYY-MM-DD`
    (section 4.1.2.2 of ISO 8601:2004); `strptime` also accepts a few
    shorter spellings, modelled below exactly as CPython's pattern reads them. */
module Dates {
  import opened PyJson

  /** A `datetime.date`. */
  datatype Date = Date(year: int, month: int, day: int)

  /** `a < b` on dates: year, then month, then day. */
  predicate Before(a: Date, b: Date) {
    a.year < b.year
    || (a.year == b.year && (a.month < b.month || (a.month == b.month && a.day < b.day)))
  }

  /** Gregorian leap year. */
  predicate IsLeap(y: int) {
    y % 4 == 0 && (y % 100 != 0 || y % 400 == 0)
  }

  function DaysInMonth(y: int, m: int): (n: int)
    requires 1 <= m <= 12
    ensures m == 2 ==> n == (if IsLeap(y) then 29 else 28)
    ensures m in {4, 6, 9, 11} ==> n == 30
    ensures m in {1, 3, 5, 7, 8, 10, 12} ==> n == 31
    ensures n == 29 <==> m == 2 && IsLeap(y)
  {
    if m == 2 then (if IsLeap(y) then 29 else 28)
    else if m == 4 || m == 6 || m == 9 || m == 11 then 30
    else 31
  }

  /** The dates a `datetime.date` can hold: years 1 to 9999. */
  predicate ValidDate(d: Date) {
    1 <= d.year <= 9999 && 1 <= d.month <= 12 && 1 <= d.day <= DaysInMonth(d.year, d.month)
  }

  predicate IsDigit(c: char) {
    '0' <= c <= '9'
  }

  function Digit(c: char): (n: int)
    requires IsDigit(c)
    ensures 0 <= n <= 9
  {
    c as int - '0' as int
  }

  /** A field matched by one group of `strptime`'s pattern: its value and
      how many characters it took. */
  datatype Field = Field(value: int, width: nat)

  /** The `%m` group, `1[0-2]|0[1-9]|[1-9]`, at position `p`: the first
      alternative that matches is the one taken. */
  function MonthField(s: string, p: nat): (r: Option<Field>)
    ensures r.Some? ==> 1 <= r.value.value <= 12 && 1 <= r.value.width <= 2
    ensures r.Some? ==> p + r.value.width <= |s|
    ensures r.Some? <==> (p < |s| && '1' <= s[p] <= '9') || (p + 2 <= |s| && s[p] == '0' && '1' <= s[p + 1] <= '9')
    ensures r.Some? && r.value.width == 1 ==> '1' <= s[p] <= '9' && r.value.value == Digit(s[p])
    ensures r.Some? && r.value.width == 2 ==>
      IsDigit(s[p]) && IsDigit(s[p + 1]) && r.value.value == 10 * Digit(s[p]) + Digit(s[p + 1])
    ensures r.Some? && r.value.width == 1 ==> p + 1 == |s| || !(s[p] == '1' && '0' <= s[p + 1] <= '2')
  {
    if p + 2 <= |s| && ((s[p] == '1' && '0' <= s[p + 1] <= '2') || (s[p] == '0' && '1' <= s[p + 1] <= '9'))
    then Some(Field(10 * Digit(s[p]) + Digit(s[p + 1]), 2))
    else if p < |s| && '1' <= s[p] <= '9' then Some(Field(Digit(s[p]), 1))
    else None
  }

  /** The `%d` group, `3[01]|[12]\d|0[1-9]|[1-9]| [1-9]`, at position `p`. */
  function DayField(s: string, p: nat): (r: Option<Field>)
    ensures r.Some? ==> 1 <= r.value.value <= 31 && 1 <= r.value.width <= 2
    ensures r.Some? ==> p + r.value.width <= |s|
    ensures r.Some? <==> (p < |s| && '1' <= s[p] <= '9')
                         || (p + 2 <= |s| && (s[p] == '0' || s[p] == ' ') && '1' <= s[p + 1] <= '9')
    ensures r.Some? && r.value.width == 1 ==> '1' <= s[p] <= '9' && r.value.value == Digit(s[p])
    ensures r.Some? && r.value.width == 1 ==>
      p + 1 == |s| || !((s[p] == '3' && '0' <= s[p + 1] <= '1') || ('1' <= s[p] <= '2' && IsDigit(s[p + 1])))
    ensures r.Some? && r.value.width == 2 && s[p] == ' ' ==> r.value.value == Digit(s[p + 1])
    ensures r.Some? && r.value.width == 2 && s[p] != ' ' ==>
      IsDigit(s[p]) && IsDigit(s[p + 1]) && r.value.value == 10 * Digit(s[p]) + Digit(s[p + 1])
  {
    if p + 2 <= |s|
       && ((s[p] == '3' && '0' <= s[p + 1] <= '1')
           || ('1' <= s[p] <= '2' && IsDigit(s[p + 1]))
           || (s[p] == '0' && '1' <= s[p + 1] <= '9'))
    then Some(Field(10 * Digit(s[p]) + Digit(s[p + 1]), 2))
    else if p < |s| && '1' <= s[p] <= '9' then Some(Field(Digit(s[p]), 1))
    else if p + 2 <= |s| && s[p] == ' ' && '1' <= s[p + 1] <= '9' then Some(Field(Digit(s[p + 1]), 2))
    else None
  }

  /** `datetime.strptime(s, "%Y-%m-%d").date()`, with `None` for every input
      on which it raises: the pattern does not match from the start, text is
      left over after the day ("unconverted data remains"), or the year,
      month and day do not form a date. */
  function Strptime(s: string): (r: Option<Date>)
    ensures r.Some? ==> ValidDate(r.value)
  {
    if |s| < 5 || !(IsDigit(s[0]) && IsDigit(s[1]) && IsDigit(s[2]) && IsDigit(s[3])) || s[4] != '-'
    then None
    else
      var year := 1000 * Digit(s[0]) + 100 * Digit(s[1]) + 10 * Digit(s[2]) + Digit(s[3]);
      match MonthField(s, 5)
      case None => None
      case Some(m) =>
        var p := 5 + m.width;
        if p >= |s| || s[p] != '-' then None
        else
          match DayField(s, p + 1)
          case None => None
          case Some(d) =>
            if p + 1 + d.width != |s| then None
            else if year < 1 || d.value > DaysInMonth(year, m.value) then None
            else Some(Date(year, m.value, d.value))
  }

  /** `_dt(date_str)`: `None` for a missing or empty argument, otherwise the
      date the whole string spells, if any. */
  function Dt(arg: Option<string>): (r: Option<Date>)
    ensures arg.None? || arg.value == [] ==> r.None?
    ensures arg.Some? && arg.value != [] ==> r == Strptime(arg.value)
  {
    if arg.None? || arg.value == [] then None else Strptime(arg.value)
  }

  // ----- The strict ISO 8601 form -----

  /** Ten characters `DDDD-DD-DD`, every `D` an ASCII digit. */
  predicate IsoShape(s: string) {
    |s| == 10 && s[4] == '-' && s[7] == '-'
    && IsDigit(s[0]) && IsDigit(s[1]) && IsDigit(s[2]) && IsDigit(s[3])
    && IsDigit(s[5]) && IsDigit(s[6]) && IsDigit(s[8]) && IsDigit(s[9])
  }

  /** The year, month and day an ISO-shaped string spells, valid or not. */
  function FaceValue(s: string): Date
    requires IsoShape(s)
  {
    Date(1000 * Digit(s[0]) + 100 * Digit(s[1]) + 10 * Digit(s[2]) + Digit(s[3]),
         10 * Digit(s[5]) + Digit(s[6]),
         10 * Digit(s[8]) + Digit(s[9]))
  }

  function DigitChar(n: int): (c: char)
    requires 0 <= n <= 9
    ensures IsDigit(c) && Digit(c) == n
  {
    ('0' as int + n) as char
  }

  /** A date in the `YYYY-MM-DD` form `_dt` documents (what `date.isoformat()`
      writes): four-digit year, two-digit month and day. */
  function FormatIso(d: Date): (s: string)
    requires 0 <= d.year <= 9999 && 0 <= d.month <= 99 && 0 <= d.day <= 99
    ensures IsoShape(s) && FaceValue(s) == d
  {
    var y := d.year;
    assert y / 10 / 10 / 10 <= 9;
    [DigitChar(y / 10 / 10 / 10), DigitChar(y / 10 / 10 % 10), DigitChar(y / 10 % 10), DigitChar(y % 10),
     '-', DigitChar(d.month / 10), DigitChar(d.month % 10),
     '-', DigitChar(d.day / 10), DigitChar(d.day % 10)]
  }

  /** Dividing `10 * q + r` by ten, for a digit `r`. */
  lemma DivTen(q: int, r: int)
    requires 0 <= q && 0 <= r <= 9
    ensures (10 * q + r) / 10 == q && (10 * q + r) % 10 == r
  {
  }

  /** On an ISO-shaped string `strptime` reads the face value, and succeeds
      exactly when that is a real date. */
  lemma StrptimeIso(s: string)
    requires IsoShape(s)
    ensures Strptime(s) == (if ValidDate(FaceValue(s)) then Some(FaceValue(s)) else None)
  {
  }

  /** Every ISO-shaped string is the `YYYY-MM-DD` form of its face value. */
  lemma IsoShapeFormats(s: string)
    requires IsoShape(s)
    ensures FormatIso(FaceValue(s)) == s
  {
    var d := FaceValue(s);
    var a, b, c, e := Digit(s[0]), Digit(s[1]), Digit(s[2]), Digit(s[3]);
    DivTen(100 * a + 10 * b + c, e);
    DivTen(10 * a + b, c);
    DivTen(a, b);
    DivTen(0, a);
    DivTen(Digit(s[5]), Digit(s[6]));
    DivTen(Digit(s[8]), Digit(s[9]));
    var t := FormatIso(d);
    assert t[0] == s[0] && t[1] == s[1] && t[2] == s[2] && t[3] == s[3];
    assert t[5] == s[5] && t[6] == s[6] && t[8] == s[8] && t[9] == s[9];
  }

  /** Round trip: parsing the `YYYY-MM-DD` form of `d` with `"%Y-%m-%d"` gives `d`. */
  lemma StrptimeFormatIso(d: Date)
    requires ValidDate(d)
    ensures Strptime(FormatIso(d)) == Some(d)
  {
    StrptimeIso(FormatIso(d));
  }
}
