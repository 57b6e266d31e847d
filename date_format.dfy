/** `datetime.strptime(text, "%Y<sep>%m<sep>%d").date()` for the two
    separators the core uses, `-` (the extended complete calendar-date form
    of ISO 8601) and `/`.

    CPython turns the format into one regular expression, `re.match`es it
    against the text and then insists that the match reach the end of the
    text ("unconverted data remains" otherwise); the date it builds must
    exist, or `ValueError` is raised. The pieces are
      %Y  four digits,
      %m  `1[0-2]|0[1-9]|[1-9]`,
      %d  `3[01]|[12]\d|0[1-9]|[1-9]| [1-9]`  (first alternative that matches wins).
    None stands for every `ValueError`. */
module DateFormat {
  import opened Wrappers
  import opened Text
  import opened Calendar

  predicate IsSeparator(c: char) {
    c == '-' || c == '/'
  }

  /** `%m` followed by the separator: the month and the length of its text.
      After `1[0-2]` the regex may backtrack to `[1-9]`, but then the
      separator would have to be a digit, so the first alternative that is
      followed by the separator is the one that matches. */
  function MonthField(s: string, sep: char): Option<(int, nat)>
    requires IsSeparator(sep)
  {
    if |s| >= 3 && s[0] == '1' && '0' <= s[1] <= '2' && s[2] == sep then Some((10 + DigitValue(s[1]), 2))
    else if |s| >= 3 && s[0] == '0' && '1' <= s[1] <= '9' && s[2] == sep then Some((DigitValue(s[1]), 2))
    else if |s| >= 2 && '1' <= s[0] <= '9' && s[1] == sep then Some((DigitValue(s[0]), 1))
    else None
  }

  /** `%d` at the end of the text: the first alternative that matches a
      prefix is taken, and it must then cover the whole rest. */
  function DayField(s: string): Option<int> {
    if |s| >= 2 && s[0] == '3' && (s[1] == '0' || s[1] == '1') then
      (if |s| == 2 then Some(30 + DigitValue(s[1])) else None)
    else if |s| >= 2 && (s[0] == '1' || s[0] == '2') && IsDigit(s[1]) then
      (if |s| == 2 then Some(10 * DigitValue(s[0]) + DigitValue(s[1])) else None)
    else if |s| >= 2 && s[0] == '0' && '1' <= s[1] <= '9' then
      (if |s| == 2 then Some(DigitValue(s[1])) else None)
    else if |s| >= 1 && '1' <= s[0] <= '9' then
      (if |s| == 1 then Some(DigitValue(s[0])) else None)
    else if |s| >= 2 && s[0] == ' ' && '1' <= s[1] <= '9' then
      (if |s| == 2 then Some(DigitValue(s[1])) else None)
    else None
  }

  function FourDigitValue(s: string): int
    requires |s| >= 4 && IsDigit(s[0]) && IsDigit(s[1]) && IsDigit(s[2]) && IsDigit(s[3])
  {
    1000 * DigitValue(s[0]) + 100 * DigitValue(s[1]) + 10 * DigitValue(s[2]) + DigitValue(s[3])
  }

  /** `strptime(t, "%Y<sep>%m<sep>%d").date()`, None for ValueError. */
  function ParseWith(t: string, sep: char): (r: Option<Date>)
    requires IsSeparator(sep)
    ensures r.Some? ==> Valid(r.value)
  {
    if |t| < 5 || !(IsDigit(t[0]) && IsDigit(t[1]) && IsDigit(t[2]) && IsDigit(t[3])) || t[4] != sep then None
    else
      match MonthField(t[5..], sep)
      case None => None
      case Some((m, k)) =>
        match DayField(t[6 + k..])
        case None => None
        case Some(d) =>
          var date := Date(FourDigitValue(t), m, d);
          if Valid(date) then Some(date) else None
  }

  // ---------------------------------------------------------------------
  // The accepted texts of a date
  // ---------------------------------------------------------------------

  /** The spellings `%m` accepts for month `m`: two digits, or one digit
      for months below 10. */
  function MonthTexts(m: int): set<string>
    requires 1 <= m <= 12
  {
    {Pad2(m)} + (if m < 10 then {[DigitChar(m)]} else {})
  }

  /** The spellings `%d` accepts for day `d`: two digits, or one digit or a
      space and one digit for days below 10. */
  function DayTexts(d: int): set<string>
    requires 1 <= d <= 31
  {
    {Pad2(d)} + (if d < 10 then {[DigitChar(d)], [' ', DigitChar(d)]} else {})
  }

  /** Every text that `strptime` with the given separator reads as `d`. */
  function Spellings(d: Date, sep: char): set<string>
    requires Valid(d)
  {
    set mt, dt | mt in MonthTexts(d.month) && dt in DayTexts(d.day) :: Pad4(d.year) + [sep] + mt + [sep] + dt
  }

  lemma Pad4Value(s: string)
    requires |s| >= 4 && IsDigit(s[0]) && IsDigit(s[1]) && IsDigit(s[2]) && IsDigit(s[3])
    ensures 0 <= FourDigitValue(s) < 10000 && Pad4(FourDigitValue(s)) == s[..4]
  {
    var y := FourDigitValue(s);
    var a, b, c, d := DigitValue(s[0]), DigitValue(s[1]), DigitValue(s[2]), DigitValue(s[3]);
    DivideBy(1000, a, 100 * b + 10 * c + d);
    DivideBy(100, 10 * a + b, 10 * c + d);
    DivideBy(10, a, b);
    DivideBy(10, 100 * a + 10 * b + c, d);
    DivideBy(10, 10 * a + b, c);
    DigitCharValue(s[0]);
    DigitCharValue(s[1]);
    DigitCharValue(s[2]);
    DigitCharValue(s[3]);
    assert Pad4(y) == [s[0], s[1], s[2], s[3]];
  }

  /** Quotient and remainder of `m * q + r` by one of the place values. */
  lemma DivideBy(m: int, q: int, r: int)
    requires m == 10 || m == 100 || m == 1000
    requires 0 <= r < m
    ensures (m * q + r) / m == q && (m * q + r) % m == r
  {
  }

  lemma Pad4Digits(y: int)
    requires 0 <= y < 10000
    ensures var s := Pad4(y);
      IsDigit(s[0]) && IsDigit(s[1]) && IsDigit(s[2]) && IsDigit(s[3]) && FourDigitValue(s) == y
  {
    var q1 := y / 10;
    var q2 := q1 / 10;
    assert y == 10 * q1 + y % 10;
    assert q1 == 10 * q2 + q1 % 10;
    assert q2 == 10 * (q2 / 10) + q2 % 10;
    assert y / 100 == q2 && y / 1000 == q2 / 10 && q2 / 10 < 10;
  }

  lemma DigitCharValue(c: char)
    requires IsDigit(c)
    ensures DigitChar(DigitValue(c)) == c
  {
  }

  /** What `MonthField` reads from a month spelling followed by the
      separator. */
  lemma MonthFieldOfText(m: int, mt: string, sep: char, rest: string)
    requires 1 <= m <= 12 && mt in MonthTexts(m) && IsSeparator(sep)
    ensures MonthField(mt + [sep] + rest, sep) == Some((m, |mt|))
  {
  }

  lemma DayFieldOfText(d: int, dt: string)
    requires 1 <= d <= 31 && dt in DayTexts(d)
    ensures DayField(dt) == Some(d)
  {
  }

  lemma MonthFieldText(s: string, sep: char)
    requires IsSeparator(sep) && MonthField(s, sep).Some?
    ensures var (m, k) := MonthField(s, sep).value;
      1 <= m <= 12 && k < |s| && s[k] == sep && s[..k] in MonthTexts(m)
  {
    var (m, k) := MonthField(s, sep).value;
    if k == 2 {
      DigitCharValue(s[1]);
      assert s[..k] == [s[0], s[1]];
      if s[0] == '1' {
        assert Pad2(m) == ['1', DigitChar(m % 10)];
      } else {
        assert Pad2(m) == ['0', DigitChar(m)];
      }
    } else {
      DigitCharValue(s[0]);
      assert s[..k] == [DigitChar(m)];
    }
  }

  lemma DayFieldText(s: string)
    requires DayField(s).Some?
    ensures 1 <= DayField(s).value <= 31 && s in DayTexts(DayField(s).value)
  {
    var d := DayField(s).value;
    if |s| == 2 {
      DigitCharValue(s[1]);
      if s[0] == ' ' {
        assert s == [' ', DigitChar(d)];
      } else {
        DigitCharValue(s[0]);
        assert s == [DigitChar(d / 10), DigitChar(d % 10)];
      }
    } else {
      DigitCharValue(s[0]);
      assert s == [DigitChar(d)];
    }
  }

  /** The grammar, both ways: `strptime` reads `t` as `d` exactly when `d`
      is a date Python can hold and `t` is one of its spellings. */
  lemma ParseWithExactly(t: string, sep: char, d: Date)
    requires IsSeparator(sep)
    ensures ParseWith(t, sep) == Some(d) <==> Valid(d) && t in Spellings(d, sep)
  {
    if ParseWith(t, sep) == Some(d) {
      ParseWithSound(t, sep);
    }
    if Valid(d) && t in Spellings(d, sep) {
      ParseWithComplete(t, sep, d);
    }
  }

  lemma ParseWithSound(t: string, sep: char)
    requires IsSeparator(sep) && ParseWith(t, sep).Some?
    ensures t in Spellings(ParseWith(t, sep).value, sep)
  {
    var d := ParseWith(t, sep).value;
    var (m, k) := MonthField(t[5..], sep).value;
    MonthFieldText(t[5..], sep);
    DayFieldText(t[6 + k..]);
    Pad4Value(t);
    var mt, dt := t[5..][..k], t[6 + k..];
    assert t == t[..4] + [sep] + mt + [sep] + dt;
    assert mt in MonthTexts(d.month) && dt in DayTexts(d.day);
  }

  lemma ParseWithComplete(t: string, sep: char, d: Date)
    requires IsSeparator(sep) && Valid(d) && t in Spellings(d, sep)
    ensures ParseWith(t, sep) == Some(d)
  {
    var mt, dt :| mt in MonthTexts(d.month) && dt in DayTexts(d.day)
                  && t == Pad4(d.year) + [sep] + mt + [sep] + dt;
    Pad4Digits(d.year);
    assert t[..4] == Pad4(d.year);
    assert t[5..] == mt + [sep] + dt;
    MonthFieldOfText(d.month, mt, sep, dt);
    assert t[6 + |mt|..] == dt;
    DayFieldOfText(d.day, dt);
  }
}
