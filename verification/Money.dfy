/** KORI amounts as text: `formatKoriAmount`, `parseStoredKoriAmount` and the deposit monitor's
    `formatRawAmount`. */
module Money {
  import opened Text

  const KORI_DECIMALS: nat := 6
  const KORI_SCALE: nat := 1_000_000

  datatype ParseResult = Parsed(units: int) | Malformed

  // ---------- Digits ----------

  predicate IsDigit(c: char) {
    '0' <= c <= '9'
  }

  predicate IsDigits(s: string) {
    forall i :: 0 <= i < |s| ==> IsDigit(s[i])
  }

  function DigitOf(n: nat): char
    requires n < 10
  {
    (n + '0' as int) as char
  }

  /** `bigint.toString()` of a non-negative number. */
  function Decimal(n: nat): (s: string)
    ensures |s| > 0 && IsDigits(s)
  {
    if n < 10 then [DigitOf(n)] else Decimal(n / 10) + [DigitOf(n % 10)]
  }

  /** `BigInt(s)`: the number a digit string denotes; the empty string denotes 0. */
  function Number(s: string): nat
    requires IsDigits(s)
  {
    if s == [] then 0 else 10 * Number(s[..|s| - 1]) + (s[|s| - 1] as int - '0' as int)
  }

  function Zeros(n: nat): (z: string)
    ensures |z| == n && IsDigits(z)
  {
    seq(n, _ => '0')
  }

  function PadStart(s: string, n: nat): (r: string)
    ensures IsDigits(s) ==> IsDigits(r)
  {
    if |s| >= n then s else Zeros(n - |s|) + s
  }

  function PadEnd(s: string, n: nat): (r: string)
    ensures IsDigits(s) ==> IsDigits(r)
  {
    if |s| >= n then s else s + Zeros(n - |s|)
  }

  // ---------- formatKoriAmount and parseStoredKoriAmount ----------

  function Format(units: int): string {
    var abs: nat := if units < 0 then 0 - units else units;
    (if units < 0 then "-" else "") + Decimal(abs / KORI_SCALE) + "."
    + PadStart(Decimal(abs % KORI_SCALE), KORI_DECIMALS)
  }

  /** The position of the first '.', or the length. */
  function DotAt(s: string): (k: nat)
    ensures k <= |s| && (forall i :: 0 <= i < k ==> s[i] != '.') && (k < |s| ==> s[k] == '.')
  {
    if s == [] || s[0] == '.' then 0 else 1 + DotAt(s[1..])
  }

  function IntPart(unsigned: string): string {
    unsigned[..DotAt(unsigned)]
  }

  function FracPart(unsigned: string): string {
    if DotAt(unsigned) == |unsigned| then "" else unsigned[DotAt(unsigned) + 1..]
  }

  /** The digits of `-?\d+(\.\d{1,6})?` after the sign. */
  predicate IsUnsignedAmount(s: string) {
    && |IntPart(s)| > 0 && IsDigits(IntPart(s)) && IsDigits(FracPart(s))
    && (DotAt(s) < |s| ==> 1 <= |FracPart(s)| <= KORI_DECIMALS)
  }

  function Unsigned(s: string): string {
    if s != [] && s[0] == '-' then s[1..] else s
  }

  function ParseStored(amount: string): ParseResult {
    var normalized := Trim(amount);
    var unsigned := Unsigned(normalized);
    if !IsUnsignedAmount(unsigned) then Malformed
    else
      var units := Number(IntPart(unsigned)) * KORI_SCALE + Number(PadEnd(FracPart(unsigned), KORI_DECIMALS));
      Parsed(if normalized != [] && normalized[0] == '-' then 0 - units else units)
  }

  // ---------- formatRawAmount ----------

  /** `replace(/^0+(\d)/, '$1')`: leading zeros go, one digit stays. */
  function StripLeadingZeros(s: string): string {
    if |s| > 1 && s[0] == '0' && IsDigit(s[1]) then StripLeadingZeros(s[1..]) else s
  }

  /** `replace(/0+$/, '')` */
  function StripTrailingZeros(s: string): string {
    if s != [] && s[|s| - 1] == '0' then StripTrailingZeros(s[..|s| - 1]) else s
  }

  function FormatRaw(rawAmount: string): string {
    var padded := PadStart(StripLeadingZeros(rawAmount), 7);
    var split := |padded| - 6;
    var whole := if padded[..split] == "" then "0" else padded[..split];
    var fractional := StripTrailingZeros(padded[split..]);
    if fractional != "" then whole + "." + fractional else whole
  }

  // ---------- Digit strings denote numbers ----------

  lemma {:induction false} NumberOfDecimal(n: nat)
    ensures Number(Decimal(n)) == n
  {
    if n >= 10 {
      NumberOfDecimal(n / 10);
      assert Decimal(n)[..|Decimal(n)| - 1] == Decimal(n / 10);
    } else {
      assert Decimal(n)[..0] == [];
    }
  }

  lemma {:induction false} NumberOfConcat(s: string, t: string)
    requires IsDigits(s) && IsDigits(t)
    ensures IsDigits(s + t) && Number(s + t) == Number(s) * Pow10(|t|) + Number(t)
  {
    if t == [] {
      assert s + t == s;
    } else {
      var last := |t| - 1;
      NumberOfConcat(s, t[..last]);
      assert (s + t)[..|s + t| - 1] == s + t[..last];
      ShiftLeft(Number(s), Pow10(last));
    }
  }

  lemma ShiftLeft(n: nat, power: nat)
    ensures 10 * (n * power) == n * (10 * power)
  {
  }

  function Pow10(n: nat): nat {
    if n == 0 then 1 else 10 * Pow10(n - 1)
  }

  lemma {:induction false} NumberOfZeros(n: nat)
    ensures Number(Zeros(n)) == 0
  {
    if n > 0 {
      NumberOfZeros(n - 1);
      assert Zeros(n)[..n - 1] == Zeros(n - 1);
    }
  }

  lemma NumberOfPadStart(s: string, n: nat)
    requires IsDigits(s)
    ensures IsDigits(PadStart(s, n)) && Number(PadStart(s, n)) == Number(s)
  {
    if |s| < n {
      NumberOfZeros(n - |s|);
      NumberOfConcat(Zeros(n - |s|), s);
    }
  }

  lemma {:induction false} DecimalLength(n: nat, d: nat)
    requires d > 0 && n < Pow10(d)
    ensures |Decimal(n)| <= d
  {
    if n >= 10 {
      DecimalLength(n / 10, d - 1);
    }
  }

  // ---------- Round trips ----------

  /** Text without white space at either end is its own trim. */
  lemma TrimUnchanged(s: string)
    requires s == [] || (!IsSpace(s[0]) && !IsSpace(s[|s| - 1]))
    ensures Trim(s) == s
  {
  }

  lemma {:induction false} DotAtJoined(a: string, b: string)
    requires IsDigits(a)
    ensures DotAt(a + "." + b) == |a|
  {
    if a == [] {
    } else {
      DotAtJoined(a[1..], b);
      assert (a + "." + b)[1..] == a[1..] + "." + b;
    }
  }

  lemma {:induction false} DotAtDigits(a: string)
    requires IsDigits(a)
    ensures DotAt(a) == |a|
  {
    if a != [] {
      DotAtDigits(a[1..]);
    }
  }

  /** The digits of a stored amount; no point when there are no decimals. */
  function Body(whole: string, fraction: string): string {
    whole + if fraction == "" then "" else "." + fraction
  }

  function AmountText(negative: bool, whole: string, fraction: string): string {
    (if negative then "-" else "") + Body(whole, fraction)
  }

  predicate IsAmount(whole: string, fraction: string) {
    IsDigits(whole) && |whole| > 0 && IsDigits(fraction) && |fraction| <= 6
  }

  lemma BodySplits(whole: string, fraction: string)
    requires IsAmount(whole, fraction)
    ensures var u := Body(whole, fraction); IntPart(u) == whole && FracPart(u) == fraction && IsUnsignedAmount(u)
  {
    var u := Body(whole, fraction);
    if fraction == "" {
      assert u == whole;
      DotAtDigits(whole);
    } else {
      assert u == whole + "." + fraction;
      DotAtJoined(whole, fraction);
    }
  }

  lemma SignSplits(negative: bool, whole: string, fraction: string)
    requires IsAmount(whole, fraction)
    ensures var s := AmountText(negative, whole, fraction);
      && s != [] && (s[0] == '-' <==> negative) && Unsigned(s) == Body(whole, fraction) && Trim(s) == s
  {
    hide Trim;
    var s, u := AmountText(negative, whole, fraction), Body(whole, fraction);
    assert IsDigit(whole[0]) && u[0] == whole[0];
    assert IsDigit(u[|u| - 1]) by {
      assert u[|u| - 1] == if fraction == "" then whole[|whole| - 1] else fraction[|fraction| - 1];
    }
    assert s[|s| - 1] == u[|u| - 1];
    TrimUnchanged(s);
    if negative {
      assert s[1..] == u;
    } else {
      assert s == u;
    }
  }

  /** Parsing digits, an optional point with up to six decimals and an optional sign. */
  lemma ParseAmount(negative: bool, whole: string, fraction: string)
    requires IsAmount(whole, fraction)
    ensures var units := Number(whole) * KORI_SCALE + Number(PadEnd(fraction, 6));
            ParseStored(AmountText(negative, whole, fraction)) == Parsed(if negative then 0 - units else units)
  {
    hide Trim, Unsigned, IntPart, FracPart, Number, PadEnd, AmountText, Body, IsUnsignedAmount;
    BodySplits(whole, fraction);
    SignSplits(negative, whole, fraction);
  }

  /** Every integer number of units survives storage as text. */
  lemma FormatRoundTrip(units: int)
    ensures ParseStored(Format(units)) == Parsed(units)
  {
    hide Decimal, Number, ParseStored, PadStart;
    var abs: nat := if units < 0 then 0 - units else units;
    var whole, fraction := Decimal(abs / KORI_SCALE), PadStart(Decimal(abs % KORI_SCALE), 6);
    DecimalLength(abs % KORI_SCALE, 6);
    PadStartLength(Decimal(abs % KORI_SCALE), 6);
    NumberOfPadStart(Decimal(abs % KORI_SCALE), 6);
    NumberOfDecimal(abs / KORI_SCALE);
    NumberOfDecimal(abs % KORI_SCALE);
    assert Format(units) == AmountText(units < 0, whole, fraction);
    ParseAmount(units < 0, whole, fraction);
  }

  lemma PadStartLength(s: string, n: nat)
    requires |s| <= n
    ensures |PadStart(s, n)| == n
  {
  }

  lemma {:induction false} StripLeadingKeepsNumber(s: string)
    requires IsDigits(s) && |s| > 0
    ensures IsDigits(StripLeadingZeros(s)) && |StripLeadingZeros(s)| > 0
    ensures Number(StripLeadingZeros(s)) == Number(s)
  {
    if |s| > 1 && s[0] == '0' {
      StripLeadingKeepsNumber(s[1..]);
      NumberOfConcat("0", s[1..]);
      assert s == "0" + s[1..];
      assert "0"[..0] == "";
    }
  }

  /** Dropping trailing zeros and padding them back changes nothing. */
  lemma {:induction false} StripTrailingPads(s: string)
    requires IsDigits(s)
    ensures IsDigits(StripTrailingZeros(s)) && |StripTrailingZeros(s)| <= |s|
    ensures PadEnd(StripTrailingZeros(s), |s|) == s
  {
    if s != [] && s[|s| - 1] == '0' {
      var init := s[..|s| - 1];
      StripTrailingPads(init);
      var t := StripTrailingZeros(init);
      assert PadEnd(t, |s|) == PadEnd(t, |init|) + "0";
      assert s == init + "0";
    }
  }

  /** Every non-empty digit string, leading zeros and all, is read back as the number it denotes. */
  lemma RawRoundTrip(raw: string)
    requires IsDigits(raw) && |raw| > 0
    ensures ParseStored(FormatRaw(raw)) == Parsed(Number(raw))
  {
    hide Number, ParseStored, StripLeadingZeros, StripTrailingZeros, PadStart, PadEnd, AmountText, Pow10;
    var stripped := StripLeadingZeros(raw);
    var padded := PadStart(stripped, 7);
    StripLeadingKeepsNumber(raw);
    NumberOfPadStart(stripped, 7);
    PadStartAtLeast(stripped, 7);
    var split := |padded| - 6;
    var whole, tail := padded[..split], padded[split..];
    assert padded == whole + tail;
    NumberOfConcat(whole, tail);
    MillionIsPow10();
    StripTrailingPads(tail);
    var fractional := StripTrailingZeros(tail);
    UnsignedText(whole, fractional);
    ParseAmount(false, whole, fractional);
  }

  lemma UnsignedText(whole: string, fraction: string)
    ensures (if fraction != "" then whole + "." + fraction else whole) == AmountText(false, whole, fraction)
  {
    assert "" + Body(whole, fraction) == Body(whole, fraction);
    assert whole + "." + fraction == whole + ("." + fraction);
    assert whole + "" == whole;
  }

  lemma MillionIsPow10()
    ensures Pow10(6) == KORI_SCALE
  {
  }

  lemma PadStartAtLeast(s: string, n: nat)
    ensures |PadStart(s, n)| >= n
  {
  }

  /** The parser accepts exactly the stored-amount format, surrounding space allowed. */
  lemma ParseAcceptsExactly(amount: string)
    ensures ParseStored(amount).Parsed? <==>
      exists negative, whole, fraction ::
        IsAmount(whole, fraction) && Trim(amount) == AmountText(negative, whole, fraction)
  {
    hide Trim, Number, PadEnd;
    var s := Trim(amount);
    var u := Unsigned(s);
    if ParseStored(amount).Parsed? {
      var whole, fraction := IntPart(u), FracPart(u);
      assert u == Body(whole, fraction);
      assert s == AmountText(s != [] && s[0] == '-', whole, fraction);
    }
    if negative, whole, fraction :| IsAmount(whole, fraction) && s == AmountText(negative, whole, fraction) {
      BodySplits(whole, fraction);
      SignSplits(negative, whole, fraction);
    }
  }
}
