/** Decimal text of the numbers written into statements, and its value. */
module NumberText {

  function Pow10(n: nat): (p: nat)
    ensures p > 0
  {
    if n == 0 then 1 else 10 * Pow10(n - 1)
  }

  lemma {:induction false} Pow10Plus(m: nat, n: nat)
    ensures Pow10(m + n) == Pow10(m) * Pow10(n)
  {
    if m == 0 {
    } else {
      Pow10Plus(m - 1, n);
      assert 10 * (Pow10(m - 1) * Pow10(n)) == Pow10(m) * Pow10(n);
    }
  }

  lemma {:induction false} Pow10Mono(m: nat, n: nat)
    requires m <= n
    ensures Pow10(m) <= Pow10(n)
    decreases n
  {
    if m < n { Pow10Mono(m, n - 1); }
  }

  predicate IsDigit(c: char) { '0' <= c <= '9' }

  function DigitChar(d: nat): char
    requires d < 10
  {
    '0' + d as char
  }

  /** Decimal digits of `m`, most significant first. */
  function Digits(m: nat): string {
    if m < 10 then [DigitChar(m)] else Digits(m / 10) + [DigitChar(m % 10)]
  }

  /** Digits of `m` with a point before the last `scale` of them. */
  function Pointed(m: nat, scale: nat): string {
    if scale == 0 then Digits(m) + "."
    else Pointed(m / 10, scale - 1) + [DigitChar(m % 10)]
  }

  /** Text of `m` * 10^-`scale`, without a sign. */
  function Unsigned(m: nat, scale: nat): string {
    if scale == 0 then Digits(m) else Pointed(m, scale)
  }

  /** Text of `unscaled` * 10^-`scale`. */
  function NumText(unscaled: int, scale: nat): string {
    if unscaled < 0 then "-" + Unsigned(-unscaled, scale) else Unsigned(unscaled, scale)
  }

  datatype Reading = Reading(unscaled: nat, scale: nat, pointSeen: bool)

  /** Reads digits and a decimal point from left to right. */
  function Read(s: string): Reading {
    if s == "" then Reading(0, 0, false)
    else
      var r := Read(s[..|s| - 1]);
      var c := s[|s| - 1];
      if IsDigit(c) then
        Reading(10 * r.unscaled + (c - '0') as int, if r.pointSeen then r.scale + 1 else r.scale, r.pointSeen)
      else Reading(r.unscaled, r.scale, true)
  }

  predicate IsNumberChar(c: char) { IsDigit(c) || c == '.' }

  /** The lexical form of an unsigned number. */
  predicate IsNumberText(s: string) {
    s != "" && IsDigit(s[0]) && forall i :: 0 <= i < |s| ==> IsNumberChar(s[i])
  }

  lemma {:induction false} DigitsForm(m: nat)
    ensures IsNumberText(Digits(m))
    ensures Read(Digits(m)) == Reading(m, 0, false)
  {
    if m < 10 {
      assert Digits(m)[..0] == "";
    } else {
      DigitsForm(m / 10);
      assert Digits(m)[..|Digits(m)| - 1] == Digits(m / 10);
    }
  }

  lemma {:induction false} PointedForm(m: nat, scale: nat)
    ensures IsNumberText(Pointed(m, scale))
    ensures Read(Pointed(m, scale)) == Reading(m, scale, true)
  {
    var s := Pointed(m, scale);
    if scale == 0 {
      DigitsForm(m);
      assert s[..|s| - 1] == Digits(m);
    } else {
      PointedForm(m / 10, scale - 1);
      assert s[..|s| - 1] == Pointed(m / 10, scale - 1);
    }
  }

  /** The printed digits denote the number they were printed from. */
  lemma UnsignedRoundTrip(m: nat, scale: nat)
    ensures IsNumberText(Unsigned(m, scale))
    ensures Read(Unsigned(m, scale)).unscaled == m && Read(Unsigned(m, scale)).scale == scale
  {
    if scale == 0 { DigitsForm(m); } else { PointedForm(m, scale); }
  }

  /** Reads a number with an optional sign: the unscaled value and the scale. */
  function Signed(s: string): (int, nat) {
    if s != "" && s[0] == '-' then (-(Read(s[1..]).unscaled as int), Read(s[1..]).scale)
    else (Read(s).unscaled, Read(s).scale)
  }

  /** The text of a number denotes it, so numbers with different text differ in value or
      scale. */
  lemma NumTextRoundTrip(unscaled: int, scale: nat)
    ensures Signed(NumText(unscaled, scale)) == (unscaled, scale)
    ensures NumText(unscaled, scale) != "" && (NumText(unscaled, scale)[0] == '-' <==> unscaled < 0)
  {
    var m: nat := if unscaled < 0 then -unscaled else unscaled;
    UnsignedRoundTrip(m, scale);
    assert ("-" + Unsigned(m, scale))[1..] == Unsigned(m, scale);
  }

  predicate IsTextOfNumber(s: string) {
    forall i :: 0 <= i < |s| ==> IsNumberChar(s[i]) || s[i] == '-'
  }

  lemma NumTextForm(unscaled: int, scale: nat)
    ensures IsTextOfNumber(NumText(unscaled, scale))
  {
    var m: nat := if unscaled < 0 then -unscaled else unscaled;
    UnsignedRoundTrip(m, scale);
  }
}
