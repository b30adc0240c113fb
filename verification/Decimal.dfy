/** `microToDecimal`: printing millionths exactly. */
module Decimal {
  import opened Wrappers

  const MICRO: int := 1_000_000

  predicate IsDigit(c: char) { '0' <= c <= '9' }
  predicate AllDigits(s: string) { forall i :: 0 <= i < |s| ==> IsDigit(s[i]) }

  function DigitChar(d: nat): (c: char)
    requires d < 10
    ensures IsDigit(c) && DigitValue(c) == d
  {
    '0' + d as char
  }

  function DigitValue(c: char): (d: nat)
    requires IsDigit(c)
    ensures d < 10
  {
    (c - '0') as nat
  }

  /** The value of a digit string. */
  function ToNat(s: string): (r: nat)
    requires AllDigits(s)
  {
    if s == "" then 0 else 10 * ToNat(s[..|s| - 1]) + DigitValue(s[|s| - 1])
  }

  /** `BigInt.toString()` of a nonnegative number. */
  function Digits(n: nat): (s: string)
    ensures s != "" && AllDigits(s)
  {
    if n < 10 then [DigitChar(n)] else Digits(n / 10) + [DigitChar(n % 10)]
  }

  /** `padStart(6, "0")`. */
  function Pad(s: string): (r: string)
    requires AllDigits(s)
    ensures AllDigits(r) && |r| >= 6
    decreases 6 - |s|
  {
    if |s| >= 6 then s else Pad("0" + s)
  }

  /** `replace(/0+$/, "")`. */
  function Strip(s: string): (r: string)
    ensures r <= s
  {
    if s != "" && s[|s| - 1] == '0' then Strip(s[..|s| - 1]) else s
  }

  function Abs(x: int): nat { if x < 0 then -x else x }

  function Join(whole: string, frac: string): string { if |frac| > 0 then whole + "." + frac else whole }

  function Body(a: nat): string { Join(Digits(a / MICRO), Strip(Pad(Digits(a % MICRO)))) }

  /** `microToDecimal` (orderBuilder.ts:191-197). */
  function MicroToDecimal(x: int): string { (if x < 0 then "-" else "") + Body(Abs(x)) }

  // ---- reading a decimal ----------------------------------------------------------

  function Pow10(n: nat): (r: nat) ensures r > 0 { if n == 0 then 1 else 10 * Pow10(n - 1) }

  /** The position of the first dot, or the length. */
  function Dot(s: string): (i: nat)
    ensures i <= |s| && (i < |s| ==> s[i] == '.') && forall j :: 0 <= j < i ==> s[j] != '.'
  {
    if s == "" || s[0] == '.' then 0
    else
      var rest := Dot(s[1..]);
      assert forall j :: 1 <= j < rest + 1 ==> s[j] == s[1..][j - 1];
      1 + rest
  }

  function FracOf(s: string): string { if Dot(s) < |s| then s[Dot(s) + 1..] else "" }

  /** An unsigned decimal with at most six fractional digits, in millionths. */
  function ParseAbs(s: string): (r: Option<int>)
    ensures r.Some? ==> r.value >= 0
  {
    var whole, frac := s[..Dot(s)], FracOf(s);
    if whole == "" || !AllDigits(whole) || !AllDigits(frac) || |frac| > 6 || (Dot(s) < |s| && frac == "") then None
    else Some(DecimalValue(whole, frac))
  }

  /** Fractional digits, filled up to six. */
  function PadRight(s: string): (r: string)
    requires AllDigits(s) && |s| <= 6
    ensures AllDigits(r) && |r| == 6
    decreases 6 - |s|
  {
    if |s| == 6 then s else PadRight(s + "0")
  }

  function DecimalValue(whole: string, frac: string): nat
    requires AllDigits(whole) && AllDigits(frac) && |frac| <= 6
  {
    ToNat(whole) * MICRO + ToNat(PadRight(frac))
  }

  predicate IsSigned(s: string) { s != "" && s[0] == '-' }

  function ParseMicro(s: string): Option<int> {
    if IsSigned(s) then
      var r := ParseAbs(s[1..]);
      if r.Some? then Some(-r.value) else None
    else ParseAbs(s)
  }

  /** No leading zero and no trailing fractional zero. */
  predicate CanonicalBody(s: string) {
    ParseAbs(s).Some? && (s[0] == '0' ==> Dot(s) == 1) && (Dot(s) < |s| ==> s[|s| - 1] != '0')
  }

  /** The same behind an optional sign, which zero does not carry. */
  predicate Canonical(s: string) {
    if IsSigned(s) then CanonicalBody(s[1..]) && ParseAbs(s[1..]) != Some(0) else CanonicalBody(s)
  }

  lemma Pow10Values()
    ensures Pow10(0) == 1 && Pow10(1) == 10 && Pow10(6) == MICRO
  {
  }

  // ---- digit strings ---------------------------------------------------------------

  lemma {:induction false} DigitsValue(n: nat)
    ensures ToNat(Digits(n)) == n
    ensures Digits(n)[0] == '0' <==> n == 0
    ensures n < 10 ==> |Digits(n)| == 1
  {
    if n < 10 {
      assert Digits(n)[..0] == "";
    } else {
      DigitsValue(n / 10);
      assert Digits(n)[..|Digits(n)| - 1] == Digits(n / 10);
    }
  }

  lemma {:induction false} DigitsLength(n: nat, k: nat)
    requires n < Pow10(k) && k > 0
    ensures |Digits(n)| <= k
  {
    if n >= 10 {
      Pow10Values();
      assert n / 10 < Pow10(k - 1);
      DigitsLength(n / 10, k - 1);
    }
  }

  /** A leading zero does not change the value. */
  lemma {:induction false} LeadingZero(s: string)
    requires AllDigits(s)
    ensures ToNat("0" + s) == ToNat(s)
  {
    if s == "" {
      assert ("0" + s)[..0] == "";
    } else {
      LeadingZero(s[..|s| - 1]);
      assert ("0" + s)[..|s|] == "0" + s[..|s| - 1];
    }
  }

  lemma {:induction false} PadValue(s: string)
    requires AllDigits(s) && |s| <= 6
    ensures |Pad(s)| == 6 && ToNat(Pad(s)) == ToNat(s)
    decreases 6 - |s|
  {
    if |s| < 6 {
      LeadingZero(s);
      PadValue("0" + s);
    }
  }

  lemma {:induction false} StripShape(s: string)
    requires AllDigits(s)
    ensures AllDigits(Strip(s)) && |Strip(s)| <= |s|
    ensures Strip(s) != "" ==> Strip(s)[|Strip(s)| - 1] != '0'
  {
    if s != "" && s[|s| - 1] == '0' { StripShape(s[..|s| - 1]); }
  }

  /** Filling up undoes stripping, and stripping undoes filling up. */
  lemma {:induction false} PadRightStrip(s: string)
    requires AllDigits(s) && |s| <= 6
    ensures AllDigits(Strip(s)) && |Strip(s)| <= 6 && PadRight(Strip(s)) == PadRight(s)
  {
    StripShape(s);
    if s != "" && s[|s| - 1] == '0' {
      var t := s[..|s| - 1];
      PadRightStrip(t);
      assert t + "0" == s;
    }
  }

  lemma {:induction false} StripPadRight(s: string)
    requires AllDigits(s) && |s| <= 6
    ensures Strip(PadRight(s)) == Strip(s)
    decreases 6 - |s|
  {
    if |s| < 6 {
      StripPadRight(s + "0");
      assert (s + "0")[..|s|] == s;
    }
  }

  /** Digit strings of equal length and value are equal. */
  lemma {:induction false} SameDigits(a: string, b: string)
    requires AllDigits(a) && AllDigits(b) && |a| == |b| && ToNat(a) == ToNat(b)
    ensures a == b
  {
    if a != "" {
      var n := |a| - 1;
      assert ToNat(a[..n]) == ToNat(b[..n]) && DigitValue(a[n]) == DigitValue(b[n]);
      SameDigits(a[..n], b[..n]);
      assert a == a[..n] + [a[n]] && b == b[..n] + [b[n]];
    }
  }

  /** Without a leading zero the digits are determined by the value. */
  lemma {:induction false} DigitsOfValue(s: string)
    requires AllDigits(s) && s != "" && (s[0] == '0' ==> |s| == 1)
    ensures Digits(ToNat(s)) == s
  {
    var n := |s| - 1;
    if n == 0 {
      assert s[..0] == "" && ToNat(s) == DigitValue(s[0]);
      assert s == [s[0]];
    } else {
      DigitsOfValue(s[..n]);
      DigitsValue(ToNat(s[..n]));
      assert s[..n][0] == s[0] != '0';
      assert s == s[..n] + [s[n]];
    }
  }

  // ---- the round trip -------------------------------------------------------------------

  lemma DotOf(whole: string, tail: string)
    requires AllDigits(whole) && (tail != "" ==> tail[0] == '.')
    ensures Dot(whole + tail) == |whole|
  {
    var s := whole + tail;
    assert forall j :: 0 <= j < |whole| ==> IsDigit(s[j]);
    assert tail != "" ==> s[|whole|] == '.';
  }

  lemma JoinParses(whole: string, frac: string)
    requires whole != "" && AllDigits(whole) && AllDigits(frac) && |frac| <= 6
    ensures var s := Join(whole, frac);
      && s != "" && s[0] == whole[0] && Dot(s) == |whole|
      && (frac != "" ==> |whole| < |s| && s[|s| - 1] == frac[|frac| - 1])
      && (frac == "" ==> |whole| == |s|)
      && ParseAbs(s) == Some(DecimalValue(whole, frac))
  {
    var s := Join(whole, frac);
    var tail := if |frac| > 0 then "." + frac else "";
    assert s == whole + tail;
    DotOf(whole, tail);
    assert s[..|whole|] == whole;
    assert FracOf(s) == frac;
  }

  lemma FracFacts(m: nat)
    requires m < MICRO
    ensures var frac := Strip(Pad(Digits(m)));
      AllDigits(frac) && |frac| <= 6 && ToNat(PadRight(frac)) == m && (frac != "" ==> frac[|frac| - 1] != '0')
  {
    Pow10Values();
    DigitsLength(m, 6);
    DigitsValue(m);
    PadValue(Digits(m));
    StripShape(Pad(Digits(m)));
    PadRightStrip(Pad(Digits(m)));
  }

  lemma BodyParses(a: nat)
    ensures Body(a) != "" && Body(a)[0] != '-' && ParseAbs(Body(a)) == Some(a) && CanonicalBody(Body(a))
  {
    DigitsValue(a / MICRO);
    FracFacts(a % MICRO);
    JoinParses(Digits(a / MICRO), Strip(Pad(Digits(a % MICRO))));
  }

  /** Reading what was printed gives the number back, and what was printed is canonical. */
  lemma RoundTrip(x: int)
    ensures ParseMicro(MicroToDecimal(x)) == Some(x) && Canonical(MicroToDecimal(x))
  {
    BodyParses(Abs(x));
    Signed(x, Body(Abs(x)));
  }

  lemma Signed(x: int, body: string)
    requires body != "" && body[0] != '-' && ParseAbs(body) == Some(Abs(x)) && CanonicalBody(body)
    ensures var s := (if x < 0 then "-" else "") + body; ParseMicro(s) == Some(x) && Canonical(s)
  {
    if x < 0 { assert ("-" + body)[1..] == body; } else { assert "" + body == body; }
  }

  lemma {:induction false} BelowPow(s: string)
    requires AllDigits(s)
    ensures ToNat(s) < Pow10(|s|)
  {
    if s != "" { BelowPow(s[..|s| - 1]); }
  }

  lemma FracUnique(frac: string)
    requires AllDigits(frac) && |frac| <= 6 && (frac != "" ==> frac[|frac| - 1] != '0')
    ensures ToNat(PadRight(frac)) < MICRO
    ensures Strip(Pad(Digits(ToNat(PadRight(frac))))) == frac
  {
    var full := PadRight(frac);
    BelowPow(full);
    Pow10Values();
    DigitsLength(ToNat(full), 6);
    DigitsValue(ToNat(full));
    PadValue(Digits(ToNat(full)));
    SameDigits(Pad(Digits(ToNat(full))), full);
    StripPadRight(frac);
  }

  lemma SplitUnique(whole: nat, rest: nat)
    requires rest < MICRO
    ensures (whole * MICRO + rest) / MICRO == whole && (whole * MICRO + rest) % MICRO == rest
  {
  }

  lemma JoinUnique(whole: string, frac: string, n: nat, m: nat)
    requires AllDigits(whole) && whole != "" && (whole[0] == '0' ==> |whole| == 1) && n == ToNat(whole)
    requires AllDigits(frac) && |frac| <= 6 && (frac != "" ==> frac[|frac| - 1] != '0') && m == ToNat(PadRight(frac))
    ensures Body(n * MICRO + m) == Join(whole, frac)
  {
    assert m < MICRO && Strip(Pad(Digits(m))) == frac by { FracUnique(frac); }
    assert Digits(n) == whole by { DigitsOfValue(whole); }
    BodyOfParts(n, m, whole, frac);
  }

  lemma BodyOfParts(n: nat, m: nat, whole: string, frac: string)
    requires m < MICRO && Digits(n) == whole && Strip(Pad(Digits(m))) == frac
    ensures Body(n * MICRO + m) == Join(whole, frac)
  {
    SplitUnique(n, m);
  }

  lemma {:induction false} SplitAtDot(s: string)
    requires ParseAbs(s).Some?
    ensures var whole, frac := s[..Dot(s)], FracOf(s);
      && s == Join(whole, frac) && whole != "" && AllDigits(whole) && AllDigits(frac) && |frac| <= 6
      && whole[0] == s[0] && (frac != "" ==> Dot(s) < |s| && frac[|frac| - 1] == s[|s| - 1])
      && ParseAbs(s).value == DecimalValue(whole, frac)
  {
    var d := Dot(s);
    if d < |s| { assert s == s[..d] + "." + s[d + 1..]; } else { assert s == s[..d]; }
  }

  lemma BodyUnique(s: string)
    requires CanonicalBody(s)
    ensures Body(ParseAbs(s).value) == s && ParseAbs(s).value >= 0
  {
    SplitAtDot(s);
    JoinUnique(s[..Dot(s)], FracOf(s), ToNat(s[..Dot(s)]), ToNat(PadRight(FracOf(s))));
  }

  lemma PositiveUnique(body: string, x: int)
    requires CanonicalBody(body) && ParseAbs(body) == Some(x)
    ensures MicroToDecimal(x) == body
  {
    BodyUnique(body);
    assert "" + body == body;
  }

  lemma NegativeUnique(body: string, x: int)
    requires CanonicalBody(body) && ParseAbs(body) == Some(-x) && x != 0
    ensures MicroToDecimal(x) == "-" + body
  {
    BodyUnique(body);
    assert Abs(x) == -x && x < 0;
  }

  /** The printed form is the only canonical one. */
  lemma CanonicalUnique(s: string, x: int)
    requires Canonical(s) && ParseMicro(s) == Some(x)
    ensures s == MicroToDecimal(x)
  {
    if IsSigned(s) {
      NegativeUnique(s[1..], x);
      assert s == "-" + s[1..];
    } else {
      PositiveUnique(s, x);
    }
  }
}
