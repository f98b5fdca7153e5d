/** Decimal digits: the `u8` parser of nom, Rust's `str::parse::<u8>`, and the
    zero-padded and shortest decimal writers the formats use. */
module Numbers {
  import opened Text
  import opened Nom

  type Byte = x: int | 0 <= x < 256

  predicate IsDigit(c: char) { '0' <= c <= '9' }

  predicate AllDigits(s: string) {
    forall i | 0 <= i < |s| :: IsDigit(s[i])
  }

  lemma DigitsAreSingleLine(s: string)
    requires AllDigits(s)
    ensures SingleLine(s)
  {
    forall i | 0 <= i < |s| ensures !IsLineBreak(s[i]) {
      assert IsDigit(s[i]);
    }
  }

  function DigitValue(c: char): nat
    requires IsDigit(c)
  {
    c as int - '0' as int
  }

  function DigitChar(d: nat): (c: char)
    requires d < 10
    ensures IsDigit(c) && DigitValue(c) == d
  {
    ('0' as int + d) as char
  }

  /** The number a run of decimal digits denotes, most significant digit first. */
  function Value(ds: string): nat
    requires AllDigits(ds)
  {
    if ds == [] then 0 else Value(ds[..|ds| - 1]) * 10 + DigitValue(ds[|ds| - 1])
  }

  function Pow10(n: nat): (p: nat)
    ensures p > 0
  {
    if n == 0 then 1 else 10 * Pow10(n - 1)
  }

  /** The last `w` decimal digits of `n`, zero-padded: `{:0w}` for `n < 10^w`. */
  function ZeroPad(n: nat, w: nat): (s: string)
    ensures |s| == w && AllDigits(s)
  {
    if w == 0 then [] else ZeroPad(n / 10, w - 1) + [DigitChar(n % 10)]
  }

  /** The shortest decimal form of `n`. */
  function Decimal(n: nat): (s: string)
    ensures s != [] && AllDigits(s)
  {
    if n < 10 then [DigitChar(n)] else Decimal(n / 10) + [DigitChar(n % 10)]
  }

  lemma {:induction false} ValueOfZeroPad(n: nat, w: nat)
    requires n < Pow10(w)
    ensures Value(ZeroPad(n, w)) == n
  {
    if w > 0 {
      var s := ZeroPad(n, w);
      assert s[..w - 1] == ZeroPad(n / 10, w - 1) && s[w - 1] == DigitChar(n % 10);
      assert n / 10 < Pow10(w - 1);
      ValueOfZeroPad(n / 10, w - 1);
      assert Value(s) == (n / 10) * 10 + n % 10;
    }
  }

  lemma {:induction false} ZeroPadOfValue(ds: string)
    requires AllDigits(ds)
    ensures Value(ds) < Pow10(|ds|)
    ensures ZeroPad(Value(ds), |ds|) == ds
  {
    if ds != [] {
      var init := ds[..|ds| - 1];
      ZeroPadOfValue(init);
      var v := Value(ds);
      assert v / 10 == Value(init) && v % 10 == DigitValue(ds[|ds| - 1]);
      assert ds == init + [ds[|ds| - 1]];
    }
  }

  lemma {:induction false} ValueOfDecimal(n: nat)
    ensures Value(Decimal(n)) == n
  {
    if n >= 10 {
      var s := Decimal(n);
      assert s[..|s| - 1] == Decimal(n / 10);
      ValueOfDecimal(n / 10);
    }
  }

  /** A digit prefix is worth no more than the whole run. */
  lemma {:induction false} ValuePrefix(ds: string, k: nat)
    requires AllDigits(ds) && k <= |ds|
    ensures Value(ds[..k]) <= Value(ds)
  {
    if k < |ds| {
      var init := ds[..|ds| - 1];
      assert init[..k] == ds[..k];
      ValuePrefix(init, k);
      assert Value(ds) == Value(init) * 10 + DigitValue(ds[|ds| - 1]);
    } else {
      assert ds[..k] == ds;
    }
  }

  /** The length of the longest prefix of decimal digits. */
  function DigitRun(s: string): (n: nat)
    ensures n <= |s| && AllDigits(s[..n])
    ensures n < |s| ==> !IsDigit(s[n])
  {
    if s != [] && IsDigit(s[0]) then
      var n := 1 + DigitRun(s[1..]);
      assert forall i | 1 <= i < n :: s[..n][i] == s[1..][..n - 1][i - 1];
      n
    else 0
  }

  /** nom's `character::complete::u8`: the longest run of digits, read as a number; an
      error when the input does not start with a digit or the number exceeds 255. nom
      checks for overflow after each digit; since a prefix of the run is never worth
      more than the run (`ValuePrefix`), that is an overflow of the whole run. */
  function U8Prefix(s: string): (r: Outcome<Byte>)
    ensures r.Ok? ==> SuffixOf(r.rest, s) && |r.rest| < |s| && AllDigits(s[..|s| - |r.rest|])
    ensures r.Ok? ==> r.value == Value(s[..|s| - |r.rest|])
    ensures r.Ok? ==> r.rest == [] || !IsDigit(r.rest[0])
    ensures s == [] || !IsDigit(s[0]) ==> r == Err(Mismatch)
    ensures r.Err? ==> r.fault == Mismatch
  {
    var n := DigitRun(s);
    if n == 0 then Err(Mismatch)
    else if Value(s[..n]) >= 256 then Err(Mismatch)
    else
      assert s == s[..n] + s[n..];
      Ok(s[n..], Value(s[..n]))
  }

  lemma {:induction false} DigitRunOf(ds: string, t: string)
    requires AllDigits(ds) && (t == [] || !IsDigit(t[0]))
    ensures DigitRun(ds + t) == |ds|
  {
    if ds == [] {
      assert ds + t == t;
    } else {
      assert (ds + t)[0] == ds[0];
      assert (ds + t)[1..] == ds[1..] + t;
      DigitRunOf(ds[1..], t);
    }
  }

  /** `u8` reads back the shortest decimal form of a byte, and stops at the first non-digit. */
  lemma U8PrefixOfDecimal(n: Byte, t: string)
    requires t == [] || !IsDigit(t[0])
    ensures U8Prefix(Decimal(n) + t) == Ok(t, n)
  {
    var ds := Decimal(n);
    DigitRunOf(ds, t);
    assert (ds + t)[..|ds|] == ds;
    assert (ds + t)[|ds|..] == t;
    ValueOfDecimal(n);
  }

  /** `u8` reads every run of digits worth at most 255, leading zeros included, and
      stops at the first non-digit. */
  lemma U8PrefixOfDigits(ds: string, t: string)
    requires ds != [] && AllDigits(ds) && Value(ds) < 256 && (t == [] || !IsDigit(t[0]))
    ensures U8Prefix(ds + t) == Ok(t, Value(ds))
  {
    DigitRunOf(ds, t);
    assert (ds + t)[..|ds|] == ds;
    assert (ds + t)[|ds|..] == t;
  }

  /** `u8` rejects a run of digits worth more than 255. */
  lemma U8PrefixRejectsOverflow(ds: string, t: string)
    requires ds != [] && AllDigits(ds) && Value(ds) > 255
    requires t == [] || !IsDigit(t[0])
    ensures U8Prefix(ds + t) == Err(Mismatch)
  {
    DigitRunOf(ds, t);
    assert (ds + t)[..|ds|] == ds;
  }

  /** Conversely what `u8` reads is a run of digits worth the byte, and the rest follows it. */
  lemma U8PrefixParts(s: string) returns (ds: string)
    requires U8Prefix(s).Ok?
    ensures ds != [] && AllDigits(ds) && Value(ds) == U8Prefix(s).value
    ensures s == ds + U8Prefix(s).rest
  {
    var r := U8Prefix(s);
    ds := s[..|s| - |r.rest|];
    assert s == ds + s[|s| - |r.rest|..];
  }

  /** Rust's `str::parse::<u8>`: the whole string is one optional `+` and then at least
      one digit, worth at most 255; anything else is an error. */
  function ParseU8(s: string): (r: Option<Byte>)
    ensures r.Some? ==> AllDigits(s) || (s[0] == '+' && AllDigits(s[1..]))
    ensures r.Some? && AllDigits(s) ==> r.value == Value(s)
    ensures s == [] || s == "+" ==> r.None?
  {
    var ds := if s != [] && s[0] == '+' then s[1..] else s;
    if ds != [] && AllDigits(ds) && Value(ds) < 256 then
      assert AllDigits(s) ==> s[0] == '+' || ds == s;
      Some(Value(ds))
    else None
  }

  /** `parse::<u8>` reads back the shortest decimal form of a byte, signed or not. */
  lemma ParseU8OfDecimal(n: Byte)
    ensures ParseU8(Decimal(n)) == Some(n)
    ensures ParseU8("+" + Decimal(n)) == Some(n)
  {
    ValueOfDecimal(n);
    assert ("+" + Decimal(n))[1..] == Decimal(n);
  }

  /** `parse::<u8>` reads a run of digits worth at most 255, with or without a `+`. */
  lemma ParseU8OfDigits(ds: string)
    requires ds != [] && AllDigits(ds) && Value(ds) < 256
    ensures ParseU8(ds) == Some(Value(ds))
    ensures ParseU8("+" + ds) == Some(Value(ds))
  {
    assert ("+" + ds)[1..] == ds;
  }

  /** `parse::<u8>` rejects a string that is not all digits after an optional `+`. */
  lemma ParseU8RejectsNonDigit(s: string, i: nat)
    requires 0 < i < |s| || (i == 0 < |s| && s[0] != '+')
    requires !IsDigit(s[i])
    ensures ParseU8(s) == None
  {
    if s[0] == '+' {
      assert s[1..][i - 1] == s[i];
    }
  }

  /** `parse::<u8>` rejects a number above 255 however it is written. */
  lemma ParseU8RejectsOverflow(s: string)
    requires AllDigits(s) && Value(s) > 255
    ensures ParseU8(s) == None
    ensures ParseU8("+" + s) == None
  {
    assert ("+" + s)[1..] == s;
  }
}
