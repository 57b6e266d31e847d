/** The Python `str` built-ins the core relies on: `str.isspace`, `str.strip`,
    `str.split(sep)`, `sep.join(parts)`, `str(int)` and `int(str)`, plus a
    count of the occurrences of a pattern, used to state properties of
    rendered text. Characters are Unicode scalar values. */
module Text {
  import opened Wrappers

  /** The characters for which Python's `str.isspace()` holds; `str.strip()`
      with no argument removes exactly these at both ends. */
  predicate IsSpace(c: char) {
    c == ' ' || ('\t' <= c <= '\r') || ('\U{1C}' <= c <= '\U{1F}')
    || c == '\U{85}' || c == '\U{A0}' || c == '\U{1680}'
    || ('\U{2000}' <= c <= '\U{200A}') || c == '\U{2028}' || c == '\U{2029}'
    || c == '\U{202F}' || c == '\U{205F}' || c == '\U{3000}'
  }

  /** An ASCII decimal digit. */
  predicate IsDigit(c: char) {
    '0' <= c <= '9'
  }

  function DigitValue(c: char): (n: nat)
    requires IsDigit(c)
    ensures n < 10
  {
    c as int - '0' as int
  }

  function DigitChar(n: nat): (c: char)
    requires n < 10
    ensures IsDigit(c) && DigitValue(c) == n
  {
    ('0' as int + n) as char
  }

  // ---------------------------------------------------------------------
  // str.strip()
  // ---------------------------------------------------------------------

  /** Number of whitespace characters at the front of `s`. */
  function LeadingSpaces(s: string): (n: nat)
    ensures n <= |s|
    ensures forall i :: 0 <= i < n ==> IsSpace(s[i])
    ensures n < |s| ==> !IsSpace(s[n])
  {
    if s != [] && IsSpace(s[0]) then 1 + LeadingSpaces(s[1..]) else 0
  }

  /** Number of whitespace characters at the back of `s`. */
  function TrailingSpaces(s: string): (n: nat)
    ensures n <= |s|
    ensures forall i :: |s| - n <= i < |s| ==> IsSpace(s[i])
    ensures n < |s| ==> !IsSpace(s[|s| - 1 - n])
  {
    if s != [] && IsSpace(s[|s| - 1]) then 1 + TrailingSpaces(s[..|s| - 1]) else 0
  }

  /** Where `s.strip()` starts in `s`. */
  function StripOffset(s: string): (a: nat)
    ensures a <= |s|
  {
    LeadingSpaces(s)
  }

  /** `s.strip()`: the result is a contiguous piece of `s` that neither starts
      nor ends with whitespace, and everything cut off on either side is
      whitespace. */
  function Strip(s: string): (r: string)
    ensures StripOffset(s) + |r| <= |s|
    ensures r == s[StripOffset(s)..StripOffset(s) + |r|]
    ensures r == [] || (!IsSpace(r[0]) && !IsSpace(r[|r| - 1]))
    ensures forall i :: 0 <= i < StripOffset(s) ==> IsSpace(s[i])
    ensures forall i :: StripOffset(s) + |r| <= i < |s| ==> IsSpace(s[i])
  {
    var a := LeadingSpaces(s);
    var b := TrailingSpaces(s[a..]);
    s[a..|s| - b]
  }

  /** A string with no whitespace at either end is its own `strip()`. */
  lemma StripUnchanged(s: string)
    requires s == [] || (!IsSpace(s[0]) && !IsSpace(s[|s| - 1]))
    ensures Strip(s) == s
  {
    if s != [] {
      assert !IsSpace(s[0]) && !IsSpace(s[|s| - 1]);
    }
  }

  /** `strip()` is idempotent. */
  lemma StripIdempotent(s: string)
    ensures Strip(Strip(s)) == Strip(s)
  {
    StripUnchanged(Strip(s));
  }

  /** Every character of `s.strip()` occurs in `s`. */
  lemma StripSubset(s: string, c: char)
    requires c in Strip(s)
    ensures c in s
  {
    var r, a := Strip(s), StripOffset(s);
    var k :| 0 <= k < |r| && r[k] == c;
    assert s[a + k] == c;
  }

  // ---------------------------------------------------------------------
  // sep.join(parts) and s.split(sep)
  // ---------------------------------------------------------------------

  /** `sep.join(parts)`. Its properties are stated by `JoinAppend` (joining
      a concatenation of lists) and `SplitJoin` (splitting a join gives the
      pieces back). */
  function Join(sep: string, parts: seq<string>): string {
    if |parts| == 0 then ""
    else if |parts| == 1 then parts[0]
    else parts[0] + sep + Join(sep, parts[1..])
  }

  /** Joining two non-empty lists of pieces is joining each and putting the
      separator between. */
  lemma {:induction false} JoinAppend(sep: string, a: seq<string>, b: seq<string>)
    requires a != [] && b != []
    ensures Join(sep, a + b) == Join(sep, a) + sep + Join(sep, b)
  {
    if |a| > 1 {
      JoinAppend(sep, a[1..], b);
      assert (a + b)[1..] == a[1..] + b;
    }
  }

  /** `s.split(sep)` for a one-character separator: never empty, no piece
      contains the separator, and joining the pieces gives `s` back. */
  function Split(s: string, sep: char): (parts: seq<string>)
    ensures |parts| >= 1
    ensures forall p :: p in parts ==> sep !in p
    ensures Join([sep], parts) == s
  {
    if s == [] then [[]]
    else
      var rest := Split(s[1..], sep);
      if s[0] == sep then
        assert Join([sep], [[]] + rest) == [] + [sep] + Join([sep], rest);
        [[]] + rest
      else
        var parts := [[s[0]] + rest[0]] + rest[1..];
        assert Join([sep], parts) == s by {
          if |rest| == 1 {
            assert Join([sep], parts) == [s[0]] + rest[0];
          } else {
            assert parts[1..] == rest[1..];
            assert Join([sep], rest) == rest[0] + [sep] + Join([sep], rest[1..]);
          }
          assert s == [s[0]] + s[1..];
        }
        assert rest[0] in rest;
        forall p | p in parts
          ensures sep !in p
        {
          var i :| 0 <= i < |parts| && parts[i] == p;
          if i > 0 {
            assert p in rest;
          }
        }
        parts
  }

  lemma {:induction false} SplitNoSeparator(x: string, sep: char)
    requires sep !in x
    ensures Split(x, sep) == [x]
  {
    if x != [] {
      SplitNoSeparator(x[1..], sep);
      assert [x[0]] + x[1..] == x;
    }
  }

  lemma {:induction false} SplitCons(x: string, y: string, sep: char)
    requires sep !in x
    ensures Split(x + [sep] + y, sep) == [x] + Split(y, sep)
  {
    var s := x + [sep] + y;
    if x == [] {
      assert s[1..] == y;
    } else {
      assert s[1..] == x[1..] + [sep] + y;
      SplitCons(x[1..], y, sep);
      assert [x[0]] + x[1..] == x;
    }
  }

  /** Splitting at a separator splits each side apart. */
  lemma {:induction false} SplitAppend(x: string, y: string, sep: char)
    ensures Split(x + [sep] + y, sep) == Split(x, sep) + Split(y, sep)
  {
    var s := x + [sep] + y;
    if x == [] {
      assert s[1..] == y;
    } else {
      assert s[1..] == x[1..] + [sep] + y;
      SplitAppend(x[1..], y, sep);
      SplitStep(x, s, Split(y, sep), sep);
    }
  }

  /** One more character in front of two texts whose splits agree up to a
      common tail keeps them agreeing. */
  lemma SplitStep(x: string, s: string, tail: seq<string>, sep: char)
    requires x != [] && s != [] && s[0] == x[0]
    requires Split(s[1..], sep) == Split(x[1..], sep) + tail
    ensures Split(s, sep) == Split(x, sep) + tail
  {
    var rs, rx := Split(s[1..], sep), Split(x[1..], sep);
    SplitUnfold(s, sep);
    SplitUnfold(x, sep);
    if x[0] == sep {
      ConsAppend([], rx, tail);
    } else {
      HeadTail(rs, rx, tail);
      ConsAppend([x[0]] + rx[0], rx[1..], tail);
    }
  }

  /** One step of `Split`. */
  lemma SplitUnfold(s: string, sep: char)
    requires s != []
    ensures var rest := Split(s[1..], sep);
      Split(s, sep) == if s[0] == sep then [[]] + rest else [[s[0]] + rest[0]] + rest[1..]
  {
  }

  lemma ConsAppend<T>(h: T, a: seq<T>, b: seq<T>)
    ensures [h] + (a + b) == [h] + a + b
  {
  }

  lemma HeadTail<T>(a: seq<T>, b: seq<T>, tail: seq<T>)
    requires |b| >= 1 && a == b + tail
    ensures a[0] == b[0] && a[1..] == b[1..] + tail
  {
  }

  /** Splitting a join gives the pieces back when no piece holds the
      separator. */
  lemma {:induction false} SplitJoin(parts: seq<string>, sep: char)
    requires |parts| >= 1
    requires forall p :: p in parts ==> sep !in p
    ensures Split(Join([sep], parts), sep) == parts
  {
    if |parts| == 1 {
      SplitNoSeparator(parts[0], sep);
    } else {
      SplitJoin(parts[1..], sep);
      SplitCons(parts[0], Join([sep], parts[1..]), sep);
      assert [parts[0]] + parts[1..] == parts;
    }
  }

  // ---------------------------------------------------------------------
  // str(int) and int(str)
  // ---------------------------------------------------------------------

  /** Decimal digits of a natural number, most significant first, no
      leading zero. */
  function NatToString(n: nat): (s: string)
    ensures |s| >= 1
    ensures forall i :: 0 <= i < |s| ==> IsDigit(s[i])
    ensures |s| > 1 ==> s[0] != '0'
    ensures s[0] == '0' <==> n == 0
  {
    if n < 10 then [DigitChar(n)] else NatToString(n / 10) + [DigitChar(n % 10)]
  }

  /** The spelling `str()` gives an integer: a minus sign for a negative
      one, then decimal digits with no leading zero, and "0" only on its
      own, never as "-0". */
  predicate IsCanonicalDecimal(s: string) {
    var d := if |s| >= 1 && s[0] == '-' then s[1..] else s;
    |d| >= 1 && (forall k :: 0 <= k < |d| ==> IsDigit(d[k])) &&
    (|d| > 1 ==> d[0] != '0') && (s[0] == '-' ==> d[0] != '0')
  }

  /** `str(i)` for a Python `int`: the canonical decimal spelling, signed
      exactly when `i` is negative. */
  function IntToString(i: int): (s: string)
    ensures IsCanonicalDecimal(s)
    ensures s[0] == '-' <==> i < 0
  {
    if i < 0 then
      var n := NatToString(-i);
      assert ("-" + n)[1..] == n;
      "-" + n
    else NatToString(i)
  }

  /** The digit strings Python's `int()` accepts in base 10: ASCII digits,
      where a single underscore may stand between two digits. Read from
      the back: a digit, preceded by nothing, by a digit run, or by an
      underscore and a digit run. */
  predicate IsDigitRun(s: string)
    decreases |s|
  {
    |s| >= 1 && IsDigit(s[|s| - 1]) &&
    (|s| == 1 || IsDigitRun(DigitRunPrefix(s)))
  }

  /** What precedes the last digit of a digit run, its underscore dropped. */
  function DigitRunPrefix(s: string): (p: string)
    requires |s| >= 2
    ensures |p| < |s|
  {
    if s[|s| - 2] == '_' then s[..|s| - 2] else s[..|s| - 1]
  }

  /** The value of a digit run, underscores ignored. */
  function DigitRunValue(s: string): nat
    requires IsDigitRun(s)
    decreases |s|
  {
    if |s| == 1 then DigitValue(s[0])
    else 10 * DigitRunValue(DigitRunPrefix(s)) + DigitValue(s[|s| - 1])
  }

  /** The ASCII information separators U+001C to U+001F. `str.isspace()`
      holds for them, but `int()` does not skip them: it turns non-ASCII
      whitespace into spaces and then skips only ASCII space, tab, newline,
      vertical tab, form feed and carriage return. */
  predicate IsInformationSeparator(c: char) {
    '\U{1C}' <= c <= '\U{1F}'
  }

  predicate HasInformationSeparator(s: string) {
    exists i :: 0 <= i < |s| && IsInformationSeparator(s[i])
  }

  /** `int(s)` for a string `s`: surrounding whitespace is ignored, then
      what remains must be a signed digit run; anything else raises
      ValueError, modelled as None. An information separator is neither
      whitespace `int()` skips, nor a sign, a digit or an underscore, so one
      anywhere in the text makes `int()` raise; in every other text the
      whitespace `int()` skips at either end is exactly what `strip()`
      removes. */
  function ParseInt(s: string): (r: Option<int>)
    ensures r.Some? ==> !HasInformationSeparator(s) && exists i :: 0 <= i < |s| && IsDigit(s[i])
  {
    if HasInformationSeparator(s) then None
    else
      SignedHasDigit(s);
      ParseSigned(Strip(s))
  }

  /** A stripped text read as a number ends in a digit of the text. */
  lemma SignedHasDigit(s: string)
    ensures ParseSigned(Strip(s)).Some? ==> exists i :: 0 <= i < |s| && IsDigit(s[i])
  {
    var t := Strip(s);
    if ParseSigned(t).Some? {
      if t[0] == '+' || t[0] == '-' {
        assert t[|t| - 1] == t[1..][|t| - 2];
      }
      StripSubset(s, t[|t| - 1]);
    }
  }

  /** `int()` refuses a text holding an information separator, even at an
      end, where `strip()` would have removed it. */
  lemma InformationSeparatorRefused(s: string, i: nat)
    requires i < |s| && IsInformationSeparator(s[i])
    ensures ParseInt(s).None?
  {
  }

  /** A digit run holds only digits and underscores. */
  lemma {:induction false} DigitRunChars(s: string)
    requires IsDigitRun(s)
    ensures forall i :: 0 <= i < |s| ==> IsDigit(s[i]) || s[i] == '_'
    decreases |s|
  {
    if |s| >= 2 {
      var p := DigitRunPrefix(s);
      DigitRunChars(p);
      forall i | 0 <= i < |s|
        ensures IsDigit(s[i]) || s[i] == '_'
      {
        if i < |p| {
          assert s[i] == p[i];
        }
      }
    }
  }

  /** An optional sign followed by a digit run, and nothing else. */
  function ParseSigned(t: string): Option<int> {
    if t != [] && (t[0] == '+' || t[0] == '-') then
      var body := t[1..];
      if IsDigitRun(body) then
        var v: int := DigitRunValue(body);
        Some(if t[0] == '-' then -v else v)
      else None
    else if IsDigitRun(t) then Some(DigitRunValue(t))
    else None
  }

  lemma {:induction false} NatToStringValue(n: nat)
    ensures IsDigitRun(NatToString(n))
    ensures DigitRunValue(NatToString(n)) == n
  {
    var s := NatToString(n);
    if n >= 10 {
      NatToStringValue(n / 10);
      assert DigitRunPrefix(s) == NatToString(n / 10);
    }
  }

  /** `int()` rejects every text without a digit. */
  lemma ParseIntNeedsDigit(s: string)
    requires forall i :: 0 <= i < |s| ==> !IsDigit(s[i])
    ensures ParseInt(s).None?
  {
    var t := Strip(s);
    if !HasInformationSeparator(s) && t != [] {
      StripSubset(s, t[|t| - 1]);
    }
  }

  /** `int(str(i)) == i`. */
  lemma IntToStringRoundTrip(i: int)
    ensures ParseInt(IntToString(i)) == Some(i)
  {
    var n := NatToString(if i < 0 then -i else i);
    NatToStringValue(if i < 0 then -i else i);
    if i < 0 {
      assert IntToString(i)[1..] == n;
      ParseNegative(IntToString(i));
    } else {
      ParseUnsigned(n);
    }
  }

  /** A digit string with no leading zero is the decimal spelling of its
      value. */
  lemma {:induction false} DigitsSpellValue(d: string)
    requires |d| >= 1 && forall k :: 0 <= k < |d| ==> IsDigit(d[k])
    requires |d| > 1 ==> d[0] != '0'
    ensures IsDigitRun(d) && NatToString(DigitRunValue(d)) == d
  {
    if |d| > 1 {
      var p := d[..|d| - 1];
      assert p[0] == d[0];
      DigitsSpellValue(p);
      assert DigitRunPrefix(d) == p;
      var v := DigitRunValue(d);
      assert v == 10 * DigitRunValue(p) + DigitValue(d[|d| - 1]);
      assert DigitRunValue(p) != 0;
      assert v / 10 == DigitRunValue(p) && v % 10 == DigitValue(d[|d| - 1]);
      assert DigitChar(v % 10) == d[|d| - 1];
      assert p + [d[|d| - 1]] == d;
    } else {
      assert DigitChar(DigitValue(d[0])) == d[0];
    }
  }

  /** Every canonical decimal spelling is the `str()` of the integer `int()`
      reads from it; with `IntToStringRoundTrip`, the canonical spellings
      are exactly the texts `str()` produces, one per integer. */
  lemma CanonicalDecimalRoundTrip(s: string)
    requires IsCanonicalDecimal(s)
    ensures ParseInt(s).Some? && IntToString(ParseInt(s).value) == s
  {
    if s[0] == '-' {
      var d := s[1..];
      DigitsSpellValue(d);
      ParseNegative(s);
      assert "-" + d == s;
    } else {
      DigitsSpellValue(s);
      ParseUnsigned(s);
    }
  }

  /** A text that starts and ends with a digit is its own `strip()`. */
  lemma StripNumber(s: string)
    requires |s| > 0 && IsDigit(s[0]) && IsDigit(s[|s| - 1])
    ensures Strip(s) == s
  {
    StripUnchanged(s);
  }

  /** `int()` reads a bare digit run as its value. */
  lemma ParseUnsigned(n: string)
    requires IsDigitRun(n) && IsDigit(n[0])
    ensures ParseInt(n) == Some(DigitRunValue(n) as int)
  {
    StripNumber(n);
    DigitRunChars(n);
    assert ParseSigned(n) == Some(DigitRunValue(n) as int) by {
      assert n[0] != '+' && n[0] != '-';
    }
    ParseStripped(n);
  }

  /** `int()` reads a minus sign and a digit run as the negated value. */
  lemma ParseNegative(s: string)
    requires |s| >= 2 && s[0] == '-' && IsDigitRun(s[1..])
    ensures ParseInt(s) == Some(-(DigitRunValue(s[1..]) as int))
  {
    assert s[|s| - 1] == s[1..][|s| - 2];
    StripUnchanged(s);
    DigitRunChars(s[1..]);
    assert !HasInformationSeparator(s) by {
      forall i | 1 <= i < |s|
        ensures !IsInformationSeparator(s[i])
      {
        assert s[i] == s[1..][i - 1];
      }
    }
    ParseStripped(s);
  }

  /** A text with nothing to strip is read by its sign and digits alone. */
  lemma ParseStripped(s: string)
    requires Strip(s) == s && !HasInformationSeparator(s)
    ensures ParseInt(s) == ParseSigned(s)
  {
  }

  // ---------------------------------------------------------------------
  // Occurrences of a pattern
  // ---------------------------------------------------------------------

  /** Number of positions of `s` at which `p` starts (overlaps counted). */
  function Occurrences(s: string, p: string): nat
    requires p != []
  {
    if |s| < |p| then 0
    else (if s[..|p|] == p then 1 else 0) + Occurrences(s[1..], p)
  }

  /** A string that lacks the pattern's first character holds no occurrence
      of it. */
  lemma {:induction false} OccurrencesAbsent(s: string, p: string)
    requires p != [] && p[0] !in s
    ensures Occurrences(s, p) == 0
  {
    if |s| >= |p| {
      assert s[0] != p[0];
      OccurrencesAbsent(s[1..], p);
    }
  }

  lemma OccurrencesSelf(p: string)
    requires p != []
    ensures Occurrences(p, p) == 1
  {
    assert p[..|p|] == p;
  }

  /** Occurrences add up over a concatenation when no occurrence can straddle
      the seam: either the last `|p| - 1` characters of `a` avoid the first
      character of `p`, or the first `|p| - 1` characters of `b` avoid its
      last character. */
  lemma {:induction false} OccurrencesConcat(a: string, b: string, p: string)
    requires p != []
    requires (forall i :: 0 <= i < |a| && |a| - |p| < i ==> a[i] != p[0])
          || (forall j :: 0 <= j < |b| && j < |p| - 1 ==> b[j] != p[|p| - 1])
    ensures Occurrences(a + b, p) == Occurrences(a, p) + Occurrences(b, p)
  {
    if a != [] {
      var s := a + b;
      assert s[1..] == a[1..] + b;
      if forall i :: 0 <= i < |a| && |a| - |p| < i ==> a[i] != p[0] {
        forall i | 0 <= i < |a| - 1 && |a| - 1 - |p| < i
          ensures a[1..][i] != p[0]
        {
          assert a[1..][i] == a[i + 1];
        }
      }
      OccurrencesConcat(a[1..], b, p);
      if |s| < |p| {
        assert Occurrences(s, p) == 0 && Occurrences(a, p) == 0 && Occurrences(b, p) == 0;
      } else if |a| < |p| {
        assert Occurrences(a, p) == 0 && Occurrences(a[1..], p) == 0;
        if forall i :: 0 <= i < |a| && |a| - |p| < i ==> a[i] != p[0] {
          assert s[0] != p[0];
        } else {
          assert s[|p| - 1] == b[|p| - 1 - |a|];
          assert s[|p| - 1] != p[|p| - 1];
        }
        assert s[..|p|] != p;
        assert Occurrences(s, p) == Occurrences(s[1..], p);
      } else {
        assert s[..|p|] == a[..|p|];
        assert Occurrences(s, p) == (if a[..|p|] == p then 1 else 0) + Occurrences(s[1..], p);
      }
    } else {
      assert a + b == b;
    }
  }
}
