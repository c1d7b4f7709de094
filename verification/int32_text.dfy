/** Java's 32-bit `int` and the two conversions between it and decimal text that the
    command protocol relies on: `Integer.parseInt(s)` (radix 10) and `Integer.toString(v)`. */
module Int32Text {
  import opened Wrappers

  const MIN_INT: int := -0x8000_0000
  const MAX_INT: int := 0x7fff_ffff

  newtype int32 = x: int | -0x8000_0000 <= x < 0x8000_0000

  predicate IsDigit(c: char) {
    '0' <= c <= '9'
  }

  predicate AllDigits(s: string) {
    forall k :: 0 <= k < |s| ==> IsDigit(s[k])
  }

  function DigitValue(c: char): nat
    requires IsDigit(c)
  {
    c as int - '0' as int
  }

  /** The value of a string of decimal digits, most significant first. */
  function DigitsValue(s: string): nat
    requires AllDigits(s)
    decreases |s|
  {
    if s == [] then 0 else 10 * DigitsValue(s[..|s| - 1]) + DigitValue(s[|s| - 1])
  }

  /** An optional sign followed by at least one decimal digit. */
  predicate IsDecimalLiteral(s: string) {
    |s| > 0 &&
    if s[0] == '-' || s[0] == '+' then |s| > 1 && AllDigits(s[1..]) else AllDigits(s)
  }

  /** The mathematical integer a decimal literal denotes. */
  function LiteralValue(s: string): int
    requires IsDecimalLiteral(s)
  {
    if s[0] == '-' then -(DigitsValue(s[1..]) as int)
    else if s[0] == '+' then DigitsValue(s[1..])
    else DigitsValue(s)
  }

  /** Java's `/` on `int` rounds toward zero; Dafny's rounds toward negative infinity
      for a negative dividend, so the JDK's `limit / radix` is written out. */
  function JavaDivBy10(x: int): int {
    if x >= 0 then x / 10 else -((-x) / 10)
  }

  /** The digit loop of the JDK's `Integer.parseInt`: the value is accumulated as a
      NEGATIVE number (so that MIN_INT fits), and overflow below `limit` is caught
      before it happens, through `multmin` and `limit + digit`. `None` is the
      `NumberFormatException`. */
  function Accumulate(t: string, i: nat, result: int, limit: int, multmin: int): (r: Option<int>)
    requires i <= |t|
    requires limit <= result <= 0
    ensures r.Some? ==> limit <= r.value <= 0
    decreases |t| - i
  {
    if i == |t| then Some(result)
    else if !IsDigit(t[i]) || result < multmin then None
    else
      var scaled := result * 10;
      var digit := DigitValue(t[i]);
      if scaled < limit + digit then None
      else Accumulate(t, i + 1, scaled - digit, limit, multmin)
  }

  /** A value below a prefix's value is below the whole digit string's value. */
  lemma {:induction false} DigitsValuePrefix(t: string, k: nat)
    requires AllDigits(t) && k <= |t|
    ensures DigitsValue(t[..k]) <= DigitsValue(t)
    decreases |t|
  {
    if k < |t| {
      var init := t[..|t| - 1];
      assert init[..k] == t[..k];
      DigitsValuePrefix(init, k);
    } else {
      assert t[..k] == t;
    }
  }

  lemma DigitsValueSnoc(t: string, i: nat)
    requires i < |t| && AllDigits(t[..i + 1])
    ensures AllDigits(t[..i])
    ensures DigitsValue(t[..i + 1]) == 10 * DigitsValue(t[..i]) + DigitValue(t[i])
  {
    assert t[..i + 1][..i] == t[..i];
  }

  /** The digit loop returns minus the value of the digits exactly when they are all
      digits and that value does not pass `-limit`. */
  lemma {:induction false} AccumulateCorrect(t: string, i: nat, result: int, limit: int, multmin: int)
    requires limit == MIN_INT || limit == -MAX_INT
    requires multmin == JavaDivBy10(limit)
    requires i <= |t| && AllDigits(t[..i]) && result == -(DigitsValue(t[..i]) as int) && limit <= result
    ensures Accumulate(t, i, result, limit, multmin) ==
            if AllDigits(t) && limit <= -(DigitsValue(t) as int) then Some(-(DigitsValue(t) as int)) else None
    decreases |t| - i
  {
    if i == |t| {
      assert t[..i] == t;
    } else if !IsDigit(t[i]) {
      assert !AllDigits(t);
    } else {
      assert t[..i + 1] == t[..i] + [t[i]];
      DigitsValueSnoc(t, i);
      var next := 10 * DigitsValue(t[..i]) + DigitValue(t[i]);
      if result < multmin || result * 10 < limit + DigitValue(t[i]) {
        assert next > -limit;
        if AllDigits(t) {
          DigitsValuePrefix(t, i + 1);
        }
      } else {
        AccumulateCorrect(t, i + 1, result * 10 - DigitValue(t[i]), limit, multmin);
      }
    }
  }

  /** `Integer.parseInt(s)`: an optional leading `-` or `+` (a lone sign is refused), then
      the digit loop with the limit chosen by the sign; `None` is the
      `NumberFormatException`, thrown for the empty string, any other character, or a
      value outside the 32-bit range. */
  function ParseInt(s: string): (r: Option<int32>)
    ensures r.Some? <==> IsDecimalLiteral(s) && MIN_INT <= LiteralValue(s) <= MAX_INT
    ensures r.Some? ==> r.value as int == LiteralValue(s)
  {
    if |s| == 0 then None
    else if s[0] < '0' then
      if s[0] != '-' && s[0] != '+' then None
      else if |s| == 1 then None
      else
        var negative := s[0] == '-';
        var limit := if negative then MIN_INT else -MAX_INT;
        var digits := s[1..];
        AccumulateCorrect(digits, 0, 0, limit, JavaDivBy10(limit));
        match Accumulate(digits, 0, 0, limit, JavaDivBy10(limit))
        case None => None
        case Some(v) => Some((if negative then v else -v) as int32)
    else
      AccumulateCorrect(s, 0, 0, -MAX_INT, JavaDivBy10(-MAX_INT));
      match Accumulate(s, 0, 0, -MAX_INT, JavaDivBy10(-MAX_INT))
      case None => None
      case Some(v) => Some((-v) as int32)
  }

  function DigitChar(d: nat): (c: char)
    requires d < 10
    ensures IsDigit(c) && DigitValue(c) == d
  {
    ('0' as int + d) as char
  }

  /** The shortest decimal digits of `n`; reading them back gives `n`. */
  function NatDigits(n: nat): (r: string)
    ensures |r| > 0 && AllDigits(r) && DigitsValue(r) == n
    decreases n
  {
    if n < 10 then [DigitChar(n)]
    else
      var init := NatDigits(n / 10);
      var r := init + [DigitChar(n % 10)];
      assert r[..|r| - 1] == init;
      r
  }

  /** `Integer.toString(v)`: a `-` for a negative value, then the digits of its magnitude. */
  function FormatInt(v: int32): (r: string)
    ensures IsDecimalLiteral(r) && LiteralValue(r) == v as int
  {
    if v < 0 then
      var r := "-" + NatDigits(-(v as int));
      assert r[1..] == NatDigits(-(v as int));
      r
    else NatDigits(v as int)
  }

  /** `Integer.parseInt` reads back what `Integer.toString` writes. */
  lemma ParseFormat(v: int32)
    ensures ParseInt(FormatInt(v)) == Some(v)
  {
  }
}
