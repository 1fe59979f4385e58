/** Converted amounts as people read them: a conversion keeps the decimal number, or cuts its last digits. */
module HumanAmounts {
  import opened Prelude
  import opened Arithmetic
  import opened Digits
  import opened JsText
  import opened Decimals
  import opened DecimalText

  /** More decimals append the next digits of the fraction to the scaled floor. */
  lemma MoreDecimals(w: string, f: string, lo: nat, hi: nat)
    requires IsNumeral(w) && IsNumeral(f) && lo <= hi
    ensures var rest := Cut(f, hi)[lo..];
            && |rest| == hi - lo && IsNumeral(rest) && Numeral(rest) < Pow(10, hi - lo)
            && Scaled(w, f, hi) == Scaled(w, f, lo) * Pow(10, hi - lo) + Numeral(rest)
  {
    hide TextValue, DigitsIn, DigitOf, Pow, Scaled, Repeat;
    CutLength(f, lo);
    CutLength(f, hi);
    FractionCut(w, f, lo);
    FractionCut(w, f, hi);
    var rest := Cut(f, hi)[lo..];
    CutSplit(f, lo, hi);
    assert w + Cut(f, hi) == (w + Cut(f, lo)) + rest;
    AppendValue(w + Cut(f, lo), rest, 10);
    TextBound(rest, 10);
  }

  lemma CutLength(f: string, d: nat)
    ensures |Cut(f, d)| == d
  {
  }

  lemma CutSplit(f: string, lo: nat, hi: nat)
    requires lo <= hi
    ensures |Cut(f, hi)| == hi && Cut(f, hi) == Cut(f, lo) + Cut(f, hi)[lo..]
    ensures Cut(f, hi)[lo..] == if |f| <= lo then Repeat('0', hi - lo) else Cut(f[lo..], hi - lo)
  {
  }

  /** What is cut off is zero exactly if its written digits are. */
  lemma RestIsZero(f: string, lo: nat, hi: nat)
    requires IsNumeral(f) && lo <= hi
    ensures var rest := Cut(f, hi)[lo..];
            IsNumeral(rest) && (Numeral(rest) == 0 <==> |f| <= lo || Numeral(f[lo..Min(hi, |f|)]) == 0)
  {
    hide TextValue, DigitsIn, DigitOf;
    CutSplit(f, lo, hi);
    if |f| <= lo {
      ZeroText(hi - lo, 10);
    } else if hi <= |f| {
      assert Cut(f, hi)[lo..] == f[lo..hi];
    } else {
      var g, zeros := f[lo..], Repeat('0', hi - |f|);
      assert Cut(f, hi)[lo..] == g + zeros && f[lo..|f|] == g;
      ZeroText(hi - |f|, 10);
      AppendValue(g, zeros, 10);
      ZeroProduct(Numeral(g), |zeros|);
    }
  }

  lemma ZeroProduct(x: nat, n: nat)
    ensures x * Pow(10, n) == 0 <==> x == 0
  {
    PowPositive(10, n);
    Multiply(1, Pow(10, n), x);
  }

  /**
   * Converting the base units of w.f gives the base units of the same w.f in the other decimals,
   * unless the conversion gains digits that were cut off before and were not all zero.
   */
  lemma ConversionKeepsNumber(w: string, f: string, a: nat, b: nat)
    requires IsNumeral(w) && IsNumeral(f)
    ensures NodeConvert(Scaled(w, f, a), a, b) == Scaled(w, f, b)
      <==> b <= a || |f| <= a || Numeral(f[a..Min(b, |f|)]) == 0
  {
    hide TextValue, DigitsIn, DigitOf, Pow, Scaled, Cut, Numeral, Floor;
    var lo, hi := Min(a, b), Max(a, b);
    MoreDecimals(w, f, lo, hi);
    CutLength(f, hi);
    PowPositive(10, hi - lo);
    if a < b {
      RestIsZero(f, a, b);
    } else if b < a {
      RemainderIs(Scaled(w, f, a), Pow(10, hi - lo), Scaled(w, f, b), Numeral(Cut(f, a)[b..]));
    }
  }

  /**
   * What people see: an amount printed in its own decimals as a.b is printed as the same a.b
   * after a conversion, without the digits that the other side has no room for.
   */
  lemma ConversionShows(amount: nat, from: nat, to: nat) returns (a: string, b: string)
    ensures FromBaseUnits(amount, from) == Write(a, b) && Canonical(a, b, from)
    ensures 0 <= NodeConvert(amount, from, to)
    ensures FromBaseUnits(NodeConvert(amount, from, to), to) == Write(a, DropTrailingZeros(b[..Min(to, |b|)]))
    ensures from <= to ==> FromBaseUnits(NodeConvert(amount, from, to), to) == FromBaseUnits(amount, from)
  {
    hide TextValue, DigitsIn, DigitOf, Pow, Scaled, NodeConvert, FromBaseUnits, ToBaseUnits;
    a, b := PrintedParts(amount, from);
    ConversionKeepsNumber(a, b, from, to);
    var cut := b[..Min(to, |b|)];
    var shown := DropTrailingZeros(cut);
    SameCut(b, to);
    FractionCut(a, b, to);
    FractionCut(a, shown, to);
    ParseThenPrint(a, shown, to);
  }

  lemma SameCut(b: string, to: nat)
    requires IsNumeral(b)
    ensures var shown := DropTrailingZeros(b[..Min(to, |b|)]);
            && IsNumeral(shown) && |shown| <= to && Cut(shown, to) == Cut(b, to)
            && (|b| <= to && (b == "" || b[|b| - 1] != '0') ==> shown == b)
  {
    hide DropTrailingZeros, Cut, Repeat;
    var cut := b[..Min(to, |b|)];
    var shown := DropTrailingZeros(cut);
    CutTwoWays(b, to);
    CutTwoWays(cut, to);
    PaddedCut(shown, |cut| - |shown|, to);
    if |b| <= to && (b == "" || b[|b| - 1] != '0') {
      NothingDropped(b);
    }
  }

  lemma PaddedCut(s: string, n: nat, to: nat)
    requires |s| + n <= to
    ensures Cut(s + Repeat('0', n), to) == Cut(s, to)
  {
  }

  lemma NothingDropped(b: string)
    requires b == "" || b[|b| - 1] != '0'
    ensures DropTrailingZeros(b) == b
  {
  }
}
