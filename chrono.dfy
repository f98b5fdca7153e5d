/** The part of chrono the converter relies on: a UTC timestamp, read from and written
    to the fixed formats `%m/%d/%Y %H:%M:%S` and `%Y/%m/%d`. */
module Chrono {
  import opened Text
  import opened Numbers

  /** `DateTime<Utc>` to the second: the export format has no zone and no fraction. */
  datatype DateTime = DateTime(year: nat, month: nat, day: nat, hour: nat, minute: nat, second: nat)

  predicate IsLeapYear(y: nat) {
    y % 4 == 0 && (y % 100 != 0 || y % 400 == 0)
  }

  function DaysInMonth(y: nat, m: nat): nat
    requires 1 <= m <= 12
  {
    if m == 2 then (if IsLeapYear(y) then 29 else 28)
    else if m in {4, 6, 9, 11} then 30
    else 31
  }

  /** A date of the proleptic Gregorian calendar and a time of day. */
  predicate Valid(t: DateTime) {
    && 1 <= t.month <= 12
    && 1 <= t.day <= DaysInMonth(t.year, t.month)
    && t.hour < 24 && t.minute < 60 && t.second < 60
  }

  /** Three zero-padded numbers joined by a separator: `MM/DD/YYYY` or `HH:MM:SS`. */
  function Join3(a: string, sep: char, b: string, c: string): string {
    a + [sep] + b + [sep] + c
  }

  /** Reads three digit fields of widths `w1`, `w2` and `w3` joined by `sep`. */
  function ReadTriple(s: string, sep: char, w1: nat, w2: nat, w3: nat): Option<(nat, nat, nat)> {
    if |s| == w1 + w2 + w3 + 2 && s[w1] == sep && s[w1 + 1 + w2] == sep then
      var a, b, c := s[..w1], s[w1 + 1..w1 + 1 + w2], s[w1 + w2 + 2..];
      if AllDigits(a) && AllDigits(b) && AllDigits(c) then Some((Value(a), Value(b), Value(c)))
      else None
    else None
  }

  lemma Join3Parts(a: string, sep: char, b: string, c: string)
    ensures var s := Join3(a, sep, b, c);
      && |s| == |a| + |b| + |c| + 2 && s[|a|] == sep && s[|a| + 1 + |b|] == sep
      && s[..|a|] == a && s[|a| + 1..|a| + 1 + |b|] == b && s[|a| + |b| + 2..] == c
  {
    var s := Join3(a, sep, b, c);
    var t := [sep] + b + [sep] + c;
    assert s == a + t;
    assert s[|a|..] == t;
    var u := [sep] + c;
    assert t == [sep] + (b + u);
    assert t[1..] == b + u;
    assert s[|a| + 1..] == b + u;
    assert s[|a| + 1 + |b|..] == u;
  }

  lemma Join3Split(s: string, sep: char, w1: nat, w2: nat, w3: nat)
    requires |s| == w1 + w2 + w3 + 2 && s[w1] == sep && s[w1 + 1 + w2] == sep
    ensures s == Join3(s[..w1], sep, s[w1 + 1..w1 + 1 + w2], s[w1 + w2 + 2..])
  {
    var a, b, c := s[..w1], s[w1 + 1..w1 + 1 + w2], s[w1 + w2 + 2..];
    assert s[w1 + 1 + w2..] == [sep] + c;
    assert s[w1 + 1..] == b + s[w1 + 1 + w2..];
    assert s[w1..] == [sep] + s[w1 + 1..];
    assert s == a + s[w1..];
  }

  lemma ReadJoin3(x: nat, y: nat, z: nat, sep: char, w1: nat, w2: nat, w3: nat)
    requires x < Pow10(w1) && y < Pow10(w2) && z < Pow10(w3)
    ensures ReadTriple(Join3(ZeroPad(x, w1), sep, ZeroPad(y, w2), ZeroPad(z, w3)), sep, w1, w2, w3)
      == Some((x, y, z))
  {
    var a, b, c := ZeroPad(x, w1), ZeroPad(y, w2), ZeroPad(z, w3);
    var s := Join3(a, sep, b, c);
    Join3Parts(a, sep, b, c);
    assert |a| == w1 && |b| == w2 && |c| == w3;
    assert s[..w1] == a && s[w1 + 1..w1 + 1 + w2] == b && s[w1 + w2 + 2..] == c;
    ValueOfZeroPad(x, w1);
    ValueOfZeroPad(y, w2);
    ValueOfZeroPad(z, w3);
  }

  lemma JoinRead3(s: string, sep: char, w1: nat, w2: nat, w3: nat)
    requires ReadTriple(s, sep, w1, w2, w3).Some?
    ensures var (x, y, z) := ReadTriple(s, sep, w1, w2, w3).value;
      s == Join3(ZeroPad(x, w1), sep, ZeroPad(y, w2), ZeroPad(z, w3))
  {
    Join3Split(s, sep, w1, w2, w3);
    ZeroPadOfValue(s[..w1]);
    ZeroPadOfValue(s[w1 + 1..w1 + 1 + w2]);
    ZeroPadOfValue(s[w1 + w2 + 2..]);
  }

  /** `Utc.datetime_from_str(s, "%m/%d/%Y %H:%M:%S")`, zero-padded fields only: the
      value, or `None` for text of another shape or a date that does not exist. */
  function ParseFixed(s: string): (r: Option<DateTime>)
    ensures r.Some? ==> Valid(r.value) && r.value.year < 10000
    ensures |s| != 19 ==> r.None?
  {
    if |s| == 19 && s[10] == ' ' then
      match (ReadTriple(s[..10], '/', 2, 2, 4), ReadTriple(s[11..], ':', 2, 2, 2))
      case (Some((mo, d, y)), Some((h, mi, sec))) =>
        var t := DateTime(y, mo, d, h, mi, sec);
        assert y < 10000 by { ZeroPadOfValue(s[..10][6..]); }
        if Valid(t) then Some(t) else None
      case _ => None
    else None
  }

  /** `t.format("%m/%d/%Y %H:%M:%S")` for a four-digit year. */
  function FormatFixed(t: DateTime): string {
    Join3(ZeroPad(t.month, 2), '/', ZeroPad(t.day, 2), ZeroPad(t.year, 4)) + " "
      + Join3(ZeroPad(t.hour, 2), ':', ZeroPad(t.minute, 2), ZeroPad(t.second, 2))
  }

  /** Every valid timestamp of a four-digit year is read back from its fixed form. */
  lemma ParseFormatFixed(t: DateTime)
    requires Valid(t) && t.year < 10000
    ensures ParseFixed(FormatFixed(t)) == Some(t)
  {
    var d := Join3(ZeroPad(t.month, 2), '/', ZeroPad(t.day, 2), ZeroPad(t.year, 4));
    var h := Join3(ZeroPad(t.hour, 2), ':', ZeroPad(t.minute, 2), ZeroPad(t.second, 2));
    var s := FormatFixed(t);
    assert s[..10] == d && s[10] == ' ' && s[11..] == h;
    ReadJoin3(t.month, t.day, t.year, '/', 2, 2, 4);
    ReadJoin3(t.hour, t.minute, t.second, ':', 2, 2, 2);
  }

  /** The only text read as `t` is the fixed form of `t`: the format is exact. */
  lemma FormatParseFixed(s: string)
    requires ParseFixed(s).Some?
    ensures s == FormatFixed(ParseFixed(s).value)
  {
    var t := ParseFixed(s).value;
    var d, h := s[..10], s[11..];
    assert ReadTriple(d, '/', 2, 2, 4) == Some((t.month, t.day, t.year));
    assert ReadTriple(h, ':', 2, 2, 2) == Some((t.hour, t.minute, t.second));
    JoinRead3(d, '/', 2, 2, 4);
    JoinRead3(h, ':', 2, 2, 2);
    assert s == d + " " + h;
  }

  /** chrono writes `%Y` with four digits for the years 0 to 9999 and with an explicit
      sign above. */
  function YearText(y: nat): (r: string)
    ensures y < 10000 ==> |r| == 4 && AllDigits(r) && Value(r) == y
    ensures y >= 10000 ==> |r| > 1 && r[0] == '+' && AllDigits(r[1..]) && Value(r[1..]) == y
  {
    if y < 10000 then
      ValueOfZeroPad(y, 4);
      ZeroPad(y, 4)
    else
      ValueOfDecimal(y);
      assert ("+" + Decimal(y))[1..] == Decimal(y);
      "+" + Decimal(y)
  }

  /** `t.format("%Y/%m/%d")`. */
  function FormatYmd(t: DateTime): (r: string)
    ensures t.year < 10000 ==> |r| == 10 && r[4] == '/' && r[7] == '/'
  {
    var y := YearText(t.year);
    Join3Parts(y, '/', ZeroPad(t.month, 2), ZeroPad(t.day, 2));
    y + "/" + ZeroPad(t.month, 2) + "/" + ZeroPad(t.day, 2)
  }
}
