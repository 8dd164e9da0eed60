/**
 * Ledger balances as exact fixed-point decimals.
 *
 * A balance is kept as an integer counting units of 10^-9, the ledger balance
 * scale; the decimal string "1.5" is 1_500_000_000.  The parser accepts an
 * optional sign, one or more integer digits and optionally a '.' followed by
 * one to nine fractional digits; any other text is not a balance.
 */
module Balance {
  import opened Wrappers

  /** Number of fractional digits a ledger balance carries. */
  const LedgerBalanceScale: nat := 9

  function Pow10(n: nat): (r: nat)
    ensures r >= 1
  {
    if n == 0 then 1 else 10 * Pow10(n - 1)
  }

  /** One whole unit of balance, in scaled form: 10^9. */
  const Unit: nat := 1_000_000_000

  lemma UnitIsScale()
    ensures Unit == Pow10(LedgerBalanceScale)
  {
  }

  predicate IsDigit(c: char) {
    '0' <= c <= '9'
  }

  predicate AllDigits(s: string) {
    forall i | 0 <= i < |s| :: IsDigit(s[i])
  }

  function DigitValue(c: char): (d: nat)
    requires IsDigit(c)
    ensures d < 10
  {
    c as int - '0' as int
  }

  function DigitChar(d: nat): (c: char)
    requires d < 10
    ensures IsDigit(c) && DigitValue(c) == d
  {
    ('0' as int + d) as char
  }

  /** `n` followed by the decimal digits `s`: n * 10^|s| + (the number `s` denotes). */
  function DigitsFrom(n: nat, s: string): nat
    requires AllDigits(s)
    decreases |s|
  {
    if s == [] then n else DigitsFrom(n * 10 + DigitValue(s[0]), s[1..])
  }

  /** The number a string of decimal digits denotes, most significant first. */
  function DigitsValue(s: string): nat
    requires AllDigits(s)
  {
    DigitsFrom(0, s)
  }

  /**
   * Reads fractional digits after the '.', `n` being the value read so far and
   * `room` the number of fractional places still free; the free places are
   * filled with zeros at the end.
   */
  function ScanFraction(s: string, n: nat, room: nat): Option<nat>
    decreases |s| + room
  {
    if s == [] then
      if room == 0 then Some(n) else ScanFraction([], n * 10, room - 1)
    else if IsDigit(s[0]) && room > 0 then ScanFraction(s[1..], n * 10 + DigitValue(s[0]), room - 1)
    else None
  }

  /** Reads the integer digits after the first one, `n` being the value read so far. */
  function ScanWhole(s: string, n: nat): Option<nat> {
    if s == [] then ScanFraction([], n, LedgerBalanceScale)
    else if IsDigit(s[0]) then ScanWhole(s[1..], n * 10 + DigitValue(s[0]))
    else if s[0] == '.' && |s| > 1 then ScanFraction(s[1..], n, LedgerBalanceScale)
    else None
  }

  /** An unsigned decimal: digits, optionally '.' and one to nine fractional digits. */
  function ParseUnsigned(s: string): Option<nat> {
    if s != [] && IsDigit(s[0]) then ScanWhole(s[1..], DigitValue(s[0])) else None
  }

  /** The scaled value of a balance string, or None when it is not a decimal. */
  function ParseBalance(s: string): (r: Option<int>)
    ensures r.Some? ==> s != []
    ensures r.Some? && r.value < 0 ==> s[0] == '-'
  {
    var signed := s != [] && (s[0] == '-' || s[0] == '+');
    var magnitude := if signed then s[1..] else s;
    match ParseUnsigned(magnitude)
    case None => None
    case Some(n) => if signed && s[0] == '-' then Some(-(n as int)) else Some(n)
  }

  // ---------------------------------------------------------------------------
  // Printing, and the round trip

  lemma {:induction false} DigitsFromAppendDigit(n: nat, s: string, c: char)
    requires AllDigits(s) && IsDigit(c)
    ensures AllDigits(s + [c])
    ensures DigitsFrom(n, s + [c]) == DigitsFrom(n, s) * 10 + DigitValue(c)
    decreases |s|
  {
    if s != [] {
      assert (s + [c])[1..] == s[1..] + [c];
      DigitsFromAppendDigit(n * 10 + DigitValue(s[0]), s[1..], c);
    }
  }

  /** The arithmetic step of `DigitsFromShift`, kept apart from the digit strings. */
  lemma ShiftStep(n: nat, d: nat, p: nat, rest: nat)
    ensures (n * 10 + d) * p + rest == n * (10 * p) + (d * p + rest)
  {
  }

  lemma {:induction false} DigitsFromShift(n: nat, s: string)
    requires AllDigits(s)
    ensures DigitsFrom(n, s) == n * Pow10(|s|) + DigitsValue(s)
    decreases |s|
  {
    if s != [] {
      var d := DigitValue(s[0]);
      var p := Pow10(|s| - 1);
      DigitsFromShift(n * 10 + d, s[1..]);
      DigitsFromShift(d, s[1..]);
      assert DigitsFrom(n, s) == (n * 10 + d) * p + DigitsValue(s[1..]);
      assert DigitsValue(s) == d * p + DigitsValue(s[1..]);
      ShiftStep(n, d, p, DigitsValue(s[1..]));
    }
  }

  lemma {:induction false} ScanWholeDigits(w: string, rest: string, n: nat)
    requires AllDigits(w)
    ensures ScanWhole(w + rest, n) == ScanWhole(rest, DigitsFrom(n, w))
  {
    if w != [] {
      assert (w + rest)[0] == w[0] && (w + rest)[1..] == w[1..] + rest;
      ScanWholeDigits(w[1..], rest, n * 10 + DigitValue(w[0]));
    } else {
      assert w + rest == rest;
    }
  }

  /** Fractional digits that fit in the free places are read in full; the rest is padding. */
  lemma {:induction false} ScanFractionDigits(f: string, n: nat, room: nat)
    requires AllDigits(f) && |f| <= room
    ensures ScanFraction(f, n, room) == ScanFraction([], DigitsFrom(n, f), room - |f|)
  {
    if f != [] {
      ScanFractionDigits(f[1..], n * 10 + DigitValue(f[0]), room - 1);
    }
  }

  lemma {:induction false} ScanFractionPads(n: nat, room: nat)
    ensures ScanFraction([], n, room) == Some(n * Pow10(room))
    decreases room
  {
    if room > 0 {
      ScanFractionPads(n * 10, room - 1);
      ShiftStep(n, 0, Pow10(room - 1), 0);
    }
  }

  /** Decimal digits of `n` without leading zeros ("0" for zero). */
  function NatToDigits(n: nat): (s: string)
    ensures s != [] && AllDigits(s) && DigitsValue(s) == n
  {
    if n < 10 then
      assert DigitsFrom(0, [DigitChar(n)]) == DigitsFrom(n, []);
      [DigitChar(n)]
    else
      var s := NatToDigits(n / 10);
      DigitsFromAppendDigit(0, s, DigitChar(n % 10));
      s + [DigitChar(n % 10)]
  }

  /** Exactly `width` decimal digits of `n`, left-padded with zeros. */
  function PadDigits(n: nat, width: nat): (s: string)
    requires n < Pow10(width)
    ensures |s| == width && AllDigits(s) && DigitsValue(s) == n
  {
    if width == 0 then []
    else
      var s := PadDigits(n / 10, width - 1);
      DigitsFromAppendDigit(0, s, DigitChar(n % 10));
      s + [DigitChar(n % 10)]
  }

  /** Canonical text of an unsigned scaled balance: the integer part, '.', and nine fractional digits. */
  function UnsignedText(m: nat): string {
    NatToDigits(m / Unit) + "." + PadDigits(m % Unit, LedgerBalanceScale)
  }

  /** Canonical text of a scaled balance, with a '-' in front when it is negative. */
  function FormatBalance(v: int): string {
    if v < 0 then "-" + UnsignedText(-v) else UnsignedText(v)
  }

  lemma SplitByUnit(m: nat)
    ensures m / Unit * Pow10(LedgerBalanceScale) + m % Unit == m
  {
    UnitIsScale();
  }

  lemma {:induction false} Pow10Add(a: nat, b: nat)
    ensures Pow10(a) * Pow10(b) == Pow10(a + b)
    decreases a
  {
    if a > 0 {
      Pow10Add(a - 1, b);
      assert Pow10(a) * Pow10(b) == 10 * (Pow10(a - 1) * Pow10(b));
    }
  }

  /** The arithmetic step of `ParseUnsignedParts`, kept apart from the digit strings. */
  lemma PadStep(q: nat, a: nat, d: nat, b: nat)
    ensures (q * a + d) * b == q * (a * b) + d * b
  {
  }

  /** Fractional digits read after the value `q`, padded with zeros to `room` places. */
  lemma {:induction false} ScanFractionValue(f: string, q: nat, room: nat)
    requires AllDigits(f) && |f| <= room
    ensures ScanFraction(f, q, room) == Some(q * Pow10(room) + DigitsValue(f) * Pow10(room - |f|))
  {
    var pad := room - |f|;
    ScanFractionDigits(f, q, room);
    ScanFractionPads(DigitsFrom(q, f), pad);
    DigitsFromShift(q, f);
    PadStep(q, Pow10(|f|), DigitsValue(f), Pow10(pad));
    Pow10Add(|f|, pad);
  }

  /**
   * Integer digits, '.', and one to nine fractional digits parse to the scaled
   * value they denote: the fraction is padded with zeros to nine places.
   */
  lemma {:induction false} ParseUnsignedParts(w: string, f: string)
    requires w != [] && AllDigits(w) && AllDigits(f) && 1 <= |f| <= LedgerBalanceScale
    ensures ParseUnsigned(w + "." + f)
         == Some(DigitsValue(w) * Pow10(LedgerBalanceScale) + DigitsValue(f) * Pow10(LedgerBalanceScale - |f|))
  {
    ParseUpToPoint(w, f);
    ScanFractionValue(f, DigitsValue(w), LedgerBalanceScale);
  }

  /** The integer digits before the point are read in full, then the fraction is scanned. */
  lemma {:induction false} ParseUpToPoint(w: string, f: string)
    requires w != [] && AllDigits(w) && f != []
    ensures ParseUnsigned(w + "." + f) == ScanFraction(f, DigitsValue(w), LedgerBalanceScale)
  {
    var s, tail := w + "." + f, "." + f;
    assert s[0] == w[0] && IsDigit(w[0]);
    assert s[1..] == w[1..] + tail;
    ScanWholeDigits(w[1..], tail, DigitValue(w[0]));
    assert DigitsFrom(DigitValue(w[0]), w[1..]) == DigitsValue(w);
    assert tail[0] == '.' && tail[1..] == f;
  }

  /** The example from the scale's definition: "1.5" is one and a half units. */
  lemma ParseOneAndAHalf()
    ensures ParseBalance("1.5") == Some(1_500_000_000)
  {
    assert "1.5" == "1" + "." + "5";
    ParseUnsignedParts("1", "5");
  }

  /** An unsigned decimal in canonical form parses back to its value. */
  lemma ParseUnsignedCanonical(m: nat)
    ensures IsDigit(UnsignedText(m)[0])
    ensures ParseUnsigned(UnsignedText(m)) == Some(m)
  {
    var w, f := NatToDigits(m / Unit), PadDigits(m % Unit, LedgerBalanceScale);
    assert (w + "." + f)[0] == w[0];
    ParseUnsignedParts(w, f);
    SplitByUnit(m);
  }

  /** A `-` in front of an unsigned decimal negates it; a `+` or no sign keeps it. */
  lemma ParseSigned(u: string, m: nat)
    requires u != [] && IsDigit(u[0]) && ParseUnsigned(u) == Some(m)
    ensures ParseBalance(u) == Some(m)
    ensures ParseBalance("-" + u) == Some(-(m as int))
    ensures ParseBalance("+" + u) == Some(m)
  {
    assert ("-" + u)[0] == '-' && ("-" + u)[1..] == u;
    assert ("+" + u)[0] == '+' && ("+" + u)[1..] == u;
  }

  /** Every scaled balance survives printing and parsing unchanged. */
  lemma ParseFormatRoundTrip(v: int)
    ensures ParseBalance(FormatBalance(v)) == Some(v)
  {
    var m: nat := if v < 0 then -v else v;
    ParseUnsignedCanonical(m);
    ParseSigned(UnsignedText(m), m);
  }

  /** A plain run of digits is a whole number of units. */
  lemma ParseWholeNumber(s: string)
    requires s != [] && AllDigits(s)
    ensures ParseBalance(s) == Some(DigitsValue(s) * Unit)
  {
    assert IsDigit(s[0]);
    assert s[1..] + [] == s[1..];
    ScanWholeDigits(s[1..], [], DigitValue(s[0]));
    ScanFractionPads(DigitsValue(s), LedgerBalanceScale);
    UnitIsScale();
  }
}
