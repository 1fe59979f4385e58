/** Human amounts as decimal text: two parsers, one printer. */
module DecimalText {
  import opened Prelude
  import opened Arithmetic
  import opened Digits
  import opened JsText

  predicate IsNumeral(s: string) {
    AllDigits(s, 10)
  }

  function Numeral(s: string): nat
    requires IsNumeral(s)
  {
    TextValue(s, 10)
  }

  /** `replace(/^0+(?=\d)/, "")`: drop leading zeros while a digit follows. */
  function DropLeadingZeros(s: string): string {
    if 2 <= |s| && s[0] == '0' && '0' <= s[1] <= '9' then DropLeadingZeros(s[1..]) else s
  }

  /** `replace(/0+$/, "")`. */
  function DropTrailingZeros(s: string): (r: string)
    ensures r <= s
    ensures r == [] || r[|r| - 1] != '0'
    ensures s == r + Repeat('0', |s| - |r|)
  {
    if s != [] && s[|s| - 1] == '0' then
      assert s == s[..|s| - 1] + "0";
      DropTrailingZeros(s[..|s| - 1])
    else s
  }

  function OrElse(s: string, default: string): string {
    if s == "" then default else s
  }

  function Second(parts: seq<string>): string {
    if 1 < |parts| then parts[1] else ""
  }

  function ToBaseUnits(human: string, decimals: nat): Option<int> {
    var parts := Split(Trim(human), '.');
    var f := PadEnd(Second(parts), decimals, '0')[..decimals];
    var s := DropLeadingZeros(OrElse(parts[0], "0") + f);
    BigIntOf(OrElse(s, "0"))
  }

  function LeadingDigits(s: string): (n: nat)
    ensures n <= |s| && IsNumeral(s[..n])
    ensures n < |s| ==> !('0' <= s[n] <= '9')
  {
    if s != [] && '0' <= s[0] <= '9' then
      var n := LeadingDigits(s[1..]);
      assert s[..n + 1] == [s[0]] + s[1..][..n];
      n + 1
    else 0
  }

  /** `/^\d+(\.\d+)?$/`. */
  predicate IsAmount(s: string) {
    var n := LeadingDigits(s);
    && 0 < n
    && (n == |s| || (s[n] == '.' && n + 1 < |s| && LeadingDigits(s[n + 1..]) == |s| - n - 1))
  }

  function ToU64FromHuman(human: string, decimals: nat): Option<int> {
    var clean := Trim(human);
    if !IsAmount(clean) then None else
      var parts := Split(clean, '.');
      var frac := Cut(Second(parts), decimals);
      var whole := BigIntOf(OrElse(parts[0], "0"));
      var rest := BigIntOf(OrElse(frac, "0"));
      if whole.None? || rest.None? then None else Some(whole.value * Pow(10, decimals) + rest.value)
  }

  function FromBaseUnits(amount: nat, decimals: nat): string {
    var s := PadStart(ToText(amount, 10), decimals + 1, '0');
    var split := |s| - decimals;
    var int' := DropLeadingZeros(s[..split]);
    var frac := DropTrailingZeros(s[split..]);
    if frac != "" then int' + "." + frac else int'
  }

  /** The floor of the decimal a.b times 10^decimals. */
  function Scaled(a: string, b: string, decimals: nat): nat
    requires IsNumeral(a) && IsNumeral(b)
  {
    PowPositive(10, |b|);
    assert IsNumeral(a + b);
    Floor(Numeral(a + b) * Pow(10, decimals), Pow(10, |b|))
  }

  // ------------------------------------------------------------------ parsing

  lemma {:induction false} LeadingZerosDropped(s: string)
    requires s != [] && IsNumeral(s)
    ensures var r := DropLeadingZeros(s);
            && r != [] && IsNumeral(r) && Numeral(r) == Numeral(s)
            && NoLeadingZero(DigitsIn(r, 10))
  {
    hide TextValue, DigitsIn, DigitOf;
    NumeralIsDecimal(s);
    if 2 <= |s| && s[0] == '0' {
      LeadingZerosDropped(s[1..]);
      DropZero(s);
    } else {
      FirstDigit(s);
    }
  }

  lemma FirstDigit(s: string)
    requires s != "" && IsNumeral(s)
    ensures DigitsIn(s, 10) != [] && (DigitsIn(s, 10)[0] == 0 <==> s[0] == '0')
  {
    NumeralIsDecimal(s);
  }

  lemma DropZero(s: string)
    requires s != "" && IsNumeral(s) && s[0] == '0'
    ensures IsNumeral(s[1..]) && Numeral(s[1..]) == Numeral(s)
  {
    hide TextValue, DigitsIn, DigitOf;
    assert s == Repeat('0', 1) + s[1..];
    ZeroText(1, 10);
    AppendValue(Repeat('0', 1), s[1..], 10);
  }

  /** The fraction padded or cut to `decimals` digits, as both parsers do it. */
  function Cut(b: string, decimals: nat): string {
    (b + Repeat('0', decimals))[..decimals]
  }

  lemma CutTwoWays(b: string, decimals: nat)
    ensures Cut(b, decimals) == PadEnd(b, decimals, '0')[..decimals]
    ensures |b| <= decimals ==> Cut(b, decimals) == b + Repeat('0', decimals - |b|)
    ensures decimals <= |b| ==> Cut(b, decimals) == b[..decimals]
    ensures IsNumeral(b) ==> IsNumeral(Cut(b, decimals))
  {
  }

  /** Padding or cutting the fraction to `decimals` digits computes the scaled floor. */
  lemma FractionCut(a: string, b: string, decimals: nat)
    requires IsNumeral(a) && IsNumeral(b)
    ensures IsNumeral(Cut(b, decimals)) && IsNumeral(a + Cut(b, decimals))
    ensures Numeral(a + Cut(b, decimals)) == Numeral(a) * Pow(10, decimals) + Numeral(Cut(b, decimals))
    ensures Numeral(a + Cut(b, decimals)) == Scaled(a, b, decimals)
  {
    hide TextValue, DigitsIn, DigitOf;
    var f := Cut(b, decimals);
    CutTwoWays(b, decimals);
    AppendValue(a, f, 10);
    AppendValue(a, b, 10);
    if |b| <= decimals {
      var k := decimals - |b|;
      ZeroText(k, 10);
      assert a + f == (a + b) + Repeat('0', k);
      AppendValue(a + b, Repeat('0', k), 10);
      ScaleUp(Numeral(a + b), |b|, decimals);
    } else {
      var g := b[decimals..];
      assert b == f + g && a + b == (a + f) + g;
      AppendValue(a + f, g, 10);
      TextBound(g, 10);
      ScaleDown(Numeral(a + f), Numeral(g), |b|, decimals);
    }
  }

  lemma ScaleUp(v: nat, n: nat, decimals: nat)
    requires n <= decimals
    ensures 0 < Pow(10, n)
    ensures Floor(v * Pow(10, decimals), Pow(10, n)) == v * Pow(10, decimals - n)
  {
    hide Pow, Floor;
    var k, p := Pow(10, decimals - n), Pow(10, n);
    PowPositive(10, n);
    PowAdd(10, decimals - n, n);
    Associate(v, k, p);
    MultipleDivides(v * k, p);
  }

  lemma ScaleDown(q: nat, rest: nat, n: nat, decimals: nat)
    requires decimals <= n && rest < Pow(10, n - decimals)
    ensures 0 < Pow(10, n)
    ensures Floor((q * Pow(10, n - decimals) + rest) * Pow(10, decimals), Pow(10, n)) == q
  {
    PowAdd(10, n - decimals, decimals);
    PowPositive(10, n);
    PowPositive(10, decimals);
    CutDown(q, rest, Pow(10, n - decimals), Pow(10, decimals));
  }

  lemma CutDown(q: nat, rest: nat, k: nat, p: nat)
    requires rest < k && 0 < p
    ensures 0 < k * p && Floor((q * k + rest) * p, k * p) == q
  {
    var x := q * k + rest;
    assert (q + 1) * k == q * k + k;
    Multiply(1, k, p);
    Multiply(q * k, x, p);
    Multiply(x + 1, (q + 1) * k, p);
    assert (x + 1) * p == x * p + p;
    assert q * k * p == q * (k * p);
    assert (q + 1) * k * p == (q + 1) * (k * p);
    FloorIs(x * p, k * p, q);
  }

  lemma NoDotInNumeral(s: string)
    requires IsNumeral(s)
    ensures '.' !in s
  {
    assert DigitOf('.').None?;
  }

  /** a, or a.b when there is a fraction. */
  function Write(a: string, b: string): string {
    if b == "" then a else a + "." + b
  }

  lemma WrittenParts(a: string, b: string)
    requires IsNumeral(a) && IsNumeral(b)
    ensures Trim(Write(a, b)) == Write(a, b)
    ensures Split(Write(a, b), '.') == if b == "" then [a] else [a, b]
  {
    NoDotInNumeral(a);
    NoDotInNumeral(b);
    SplitOnce(a, b, '.');
    SplitOnce(b, "", '.');
    var w := Write(a, b);
    if w != "" {
      assert w[0] == '.' || DigitOf(w[0]).Some?;
      assert DigitOf(w[|w| - 1]).Some?;
      NoSpacesTrimmed(w);
    }
  }

  lemma BaseUnitsOfParts(human: string, a: string, b: string, decimals: nat)
    requires IsNumeral(a) && IsNumeral(b)
    requires Split(Trim(human), '.')[0] == a && Second(Split(Trim(human), '.')) == b
    ensures ToBaseUnits(human, decimals) == Some(Scaled(a, b, decimals))
  {
    hide TextValue, DigitsIn, DigitOf;
    var i := OrElse(a, "0");
    assert i != "" && IsNumeral(i) && Numeral(i) == Numeral(a) by {
      EmptyIsZero();
    }
    FractionCut(a, b, decimals);
    FractionCut(i, b, decimals);
    CutTwoWays(b, decimals);
    var f := Cut(b, decimals);
    LeadingZerosDropped(i + f);
    BigIntOfDigits(DropLeadingZeros(i + f));
  }

  lemma EmptyIsZero()
    ensures IsNumeral("") && IsNumeral("0") && Numeral("") == 0 == Numeral("0")
  {
    assert Repeat('0', 1) == "0";
    ZeroText(1, 10);
  }

  /**
   * `toBaseUnits` also reads a missing whole or fractional part and ignores what follows a
   * second dot, with blanks before and after.
   */
  lemma LaxForms(pre: string, a: string, b: string, tail: string, post: string, decimals: nat)
    requires IsNumeral(a) && IsNumeral(b) && (tail == "" || tail[0] == '.')
    requires Blank(pre) && Blank(post)
    ensures ToBaseUnits(pre + (a + "." + b + tail) + post, decimals) == Some(Scaled(a, b, decimals))
  {
    hide Trim, IsNumeral, ToBaseUnits, Scaled, Split;
    var x := a + "." + b + tail;
    TrimBlanks(pre, x, post);
    var kept := DottedTrim(a, b, tail);
    LaxTrimmed(pre + x + post, a, b, kept, decimals);
  }

  lemma DottedTrim(a: string, b: string, tail: string) returns (kept: string)
    requires IsNumeral(a) && IsNumeral(b) && (tail == "" || tail[0] == '.')
    ensures Trim(a + "." + b + tail) == a + "." + b + kept && (kept == "" || kept[0] == '.')
  {
    hide Trim, IsNumeral;
    var head := a + "." + b;
    var x := head + tail;
    var pre, post := TrimmedOff(x);
    NumeralNotBlank(a);
    NumeralNotBlank(b);
    DotNotBlank();
    NonBlankKept(pre, Trim(x), post, 0);
    NonBlankKept(pre, Trim(x), post, |head| - 1);
    if tail != "" {
      NonBlankKept(pre, Trim(x), post, |head|);
    }
    kept := tail[..|tail| - |post|];
    assert x[..|x| - |post|] == head + kept;
  }

  lemma NumeralNotBlank(s: string)
    requires IsNumeral(s)
    ensures forall c <- s :: c !in BLANKS
  {
    NumeralIsDecimal(s);
  }

  lemma DotNotBlank()
    ensures '.' !in BLANKS
  {
  }

  lemma LaxTrimmed(human: string, a: string, b: string, tail: string, decimals: nat)
    requires IsNumeral(a) && IsNumeral(b) && (tail == "" || tail[0] == '.')
    requires Trim(human) == a + "." + b + tail
    ensures ToBaseUnits(human, decimals) == Some(Scaled(a, b, decimals))
  {
    hide Trim, IsNumeral, ToBaseUnits, Scaled, Split;
    NoDotInNumeral(a);
    NoDotInNumeral(b);
    assert Trim(human) == a + "." + (b + tail);
    SplitOnce(a, b + tail, '.');
    if tail == "" {
      assert b + tail == b;
      SplitOnce(b, "", '.');
    } else {
      assert b + tail == b + "." + tail[1..];
      SplitOnce(b, tail[1..], '.');
    }
    BaseUnitsOfParts(human, a, b, decimals);
  }

  /** The lax parser takes a sign, unless nothing follows it. */
  lemma SignedForms(sign: char, a: string, b: string, decimals: nat)
    requires (sign == '-' || sign == '+') && IsNumeral(a) && IsNumeral(b)
    ensures ToBaseUnits([sign] + Write(a, b), decimals)
         == if a == "" && decimals == 0 then None
            else Some(if sign == '-' then 0 - Scaled(a, b, decimals) else Scaled(a, b, decimals))
  {
    hide TextValue, DigitsIn, DigitOf, Trim, BigIntOf, Scaled, Split, Cut;
    var human, body := [sign] + Write(a, b), a + Cut(b, decimals);
    SignedParts(sign, a, b);
    CutTwoWays(b, decimals);
    FractionCut(a, b, decimals);
    SignedBigInt(sign, body);
    assert DropLeadingZeros([sign] + body) == [sign] + body;
    assert [sign] + a + Cut(b, decimals) == [sign] + body;
    assert |Cut(b, decimals)| == decimals;
  }

  lemma SignedParts(sign: char, a: string, b: string)
    requires (sign == '-' || sign == '+') && IsNumeral(a) && IsNumeral(b)
    ensures var human := [sign] + Write(a, b);
            && Trim(human) == human
            && Split(human, '.') == if b == "" then [[sign] + a] else [[sign] + a, b]
  {
    hide Trim, IsNumeral, BLANKS, Split;
    var human := [sign] + Write(a, b);
    NoDotInNumeral(a);
    NoDotInNumeral(b);
    SplitOnce([sign] + a, b, '.');
    SplitOnce(b, "", '.');
    assert b != "" ==> human == [sign] + a + "." + b;
    SignNotBlank(sign);
    NumeralNotBlank(a);
    NumeralNotBlank(b);
    EndsTrimmed(human);
  }

  lemma SignNotBlank(c: char)
    requires c == '-' || c == '+'
    ensures c !in BLANKS
  {
  }

  lemma SignedBigInt(sign: char, body: string)
    requires (sign == '-' || sign == '+') && IsNumeral(body)
    ensures BigIntOf([sign] + body)
         == if body == "" then None else Some(if sign == '-' then 0 - Numeral(body) else Numeral(body))
  {
    hide TextValue;
    var t := [sign] + body;
    NumeralIsDecimal(body);
    NoSpacesTrimmed(t);
    assert t[1..] == body;
  }

  /** It also takes literals in base sixteen, eight or two, and then scales by powers of that base. */
  lemma LiteralForms(p: char, h: string, decimals: nat)
    requires PrefixBase(p).Some? && h != "" && AllDigits(h, PrefixBase(p).value)
    ensures var base := PrefixBase(p).value;
            ToBaseUnits(['0', p] + h, decimals) == Some(TextValue(h, base) * Pow(base, decimals))
  {
    hide TextValue, DigitsIn, Trim, BigIntOf, Split, Pow;
    var base := PrefixBase(p).value;
    var human, zeros := ['0', p] + h, Repeat('0', decimals);
    LiteralParts(p, h);
    CutTwoWays("", decimals);
    ZeroText(decimals, base);
    AppendValue(h, zeros, base);
    BigIntOfLiteral(p, h + zeros);
    assert "" + zeros == zeros && human + zeros == ['0', p] + (h + zeros);
  }

  lemma LiteralParts(p: char, h: string)
    requires PrefixBase(p).Some? && h != "" && AllDigits(h, PrefixBase(p).value)
    ensures var human := ['0', p] + h;
            Trim(human) == human && Split(human, '.') == [human]
  {
    var human := ['0', p] + h;
    assert DigitOf('.').None? && DigitOf(human[|human| - 1]).Some?;
    SplitOnce(human, "", '.');
    NoSpacesTrimmed(human);
  }

  /** What the pattern accepts: digits, optionally a dot and more digits. */
  lemma AmountShape(s: string) returns (a: string, b: string)
    requires IsAmount(s)
    ensures a != "" && IsNumeral(a) && IsNumeral(b) && s == Write(a, b)
  {
    var n := LeadingDigits(s);
    a := s[..n];
    if n == |s| {
      b := "";
    } else {
      b := s[n + 1..];
      assert b == b[..LeadingDigits(b)];
      assert s == a + "." + b;
    }
  }

  lemma {:induction false} LeadingDigitsOf(a: string, t: string)
    requires IsDecimal(a) && (t == "" || !('0' <= t[0] <= '9'))
    ensures LeadingDigits(a + t) == |a|
  {
    if a == "" {
      assert a + t == t;
    } else {
      LeadingDigitsOf(a[1..], t);
      assert (a + t)[1..] == a[1..] + t;
    }
  }

  predicate IsDecimal(s: string) {
    forall i :: 0 <= i < |s| ==> '0' <= s[i] <= '9'
  }

  lemma NumeralIsDecimal(s: string)
    requires IsNumeral(s)
    ensures IsDecimal(s)
  {
    forall i | 0 <= i < |s| ensures '0' <= s[i] <= '9' {
      assert DigitOf(s[i]).value < 10;
    }
  }

  lemma ShapeIsAmount(a: string, b: string)
    requires a != "" && IsNumeral(a) && IsNumeral(b)
    ensures IsAmount(Write(a, b))
  {
    NumeralIsDecimal(a);
    NumeralIsDecimal(b);
    var s := Write(a, b);
    LeadingDigitsOf(a, s[|a|..]);
    assert s == a + s[|a|..];
    if b != "" {
      LeadingDigitsOf(b, "");
      assert b + "" == b && s[|a| + 1..] == b;
    }
  }

  /**
   * All that the strict parser accepts is a written amount between blanks, and on it both
   * parsers return the floor of the exact scaled value.
   */
  lemma ParsersAgree(human: string, decimals: nat) returns (pre: string, a: string, b: string, post: string)
    requires ToU64FromHuman(human, decimals).Some?
    ensures human == pre + Write(a, b) + post && Blank(pre) && Blank(post)
    ensures a != "" && IsNumeral(a) && IsNumeral(b)
    ensures ToU64FromHuman(human, decimals) == ToBaseUnits(human, decimals) == Some(Scaled(a, b, decimals))
  {
    a, b := AmountShape(Trim(human));
    pre, post := TrimmedOff(human);
    ParseTrimmed(human, a, b, decimals);
  }

  /** The strict parser accepts every written amount, and the blanks around it make no difference. */
  lemma StrictParse(pre: string, a: string, b: string, post: string, decimals: nat)
    requires Blank(pre) && Blank(post)
    requires a != "" && IsNumeral(a) && IsNumeral(b)
    ensures var human := pre + Write(a, b) + post;
            ToU64FromHuman(human, decimals) == ToBaseUnits(human, decimals) == Some(Scaled(a, b, decimals))
  {
    WrittenParts(a, b);
    TrimBlanks(pre, Write(a, b), post);
    ParseTrimmed(pre + Write(a, b) + post, a, b, decimals);
  }

  lemma ParseTrimmed(human: string, a: string, b: string, decimals: nat)
    requires a != "" && IsNumeral(a) && IsNumeral(b) && Trim(human) == Write(a, b)
    ensures ToU64FromHuman(human, decimals) == ToBaseUnits(human, decimals) == Some(Scaled(a, b, decimals))
  {
    hide TextValue, DigitsIn, DigitOf, BigIntOf, IsAmount, Pow, Trim, Split, Scaled, Cut, Repeat, ToBaseUnits;
    ShapeIsAmount(a, b);
    WrittenParts(a, b);
    BaseUnitsOfParts(human, a, b, decimals);
    FractionCut(a, b, decimals);
    var frac := Cut(b, decimals);
    BigIntOfDigits(a);
    EmptyIsZero();
    BigIntOfDigits(OrElse(frac, "0"));
  }

  // ----------------------------------------------------------------- printing

  /** No redundant leading zero, no trailing zero in the fraction, not more digits than allowed. */
  predicate Canonical(a: string, b: string, decimals: nat) {
    && IsNumeral(a) && NoLeadingZero(DigitsIn(a, 10))
    && IsNumeral(b) && |b| <= decimals && (b == "" || b[|b| - 1] != '0')
  }

  lemma PrintedParts(amount: nat, decimals: nat) returns (a: string, b: string)
    ensures Canonical(a, b, decimals)
    ensures FromBaseUnits(amount, decimals) == Write(a, b)
    ensures Scaled(a, b, decimals) == amount
  {
    hide TextValue, DigitsIn, DigitOf, ToText, Scaled, Repeat;
    hide PadStart, DropLeadingZeros, DropTrailingZeros, NoLeadingZero, Cut;
    var s := PadStart(ToText(amount, 10), decimals + 1, '0');
    TextOf(amount, 10);
    PaddedText(ToText(amount, 10), decimals + 1, 10);
    var i, f := s[..|s| - decimals], s[|s| - decimals..];
    assert s == i + f;
    a, b := DropLeadingZeros(i), DropTrailingZeros(f);
    LeadingZerosDropped(i);
    PaddingRestored(f, decimals);
    AppendValue(i, f, 10);
    FractionCut(a, b, decimals);
  }

  lemma PaddingRestored(f: string, decimals: nat)
    requires IsNumeral(f) && |f| == decimals
    ensures IsNumeral(DropTrailingZeros(f)) && Cut(DropTrailingZeros(f), decimals) == f
  {
    CutTwoWays(DropTrailingZeros(f), decimals);
  }

  /** Printing then parsing is the identity, through either parser, and the print is canonical. */
  lemma PrintThenParse(amount: nat, decimals: nat) returns (a: string, b: string)
    ensures ToBaseUnits(FromBaseUnits(amount, decimals), decimals) == Some(amount)
    ensures ToU64FromHuman(FromBaseUnits(amount, decimals), decimals) == Some(amount)
    ensures FromBaseUnits(amount, decimals) == Write(a, b) && Canonical(a, b, decimals)
  {
    a, b := PrintedParts(amount, decimals);
    WrittenParts(a, b);
    ParseTrimmed(Write(a, b), a, b, decimals);
  }

  lemma DigitsDetermineText(s: string, t: string)
    requires IsNumeral(s) && IsNumeral(t) && DigitsIn(s, 10) == DigitsIn(t, 10)
    ensures s == t
  {
    NumeralIsDecimal(s);
    NumeralIsDecimal(t);
    forall i | 0 <= i < |s| ensures s[i] == t[i] {
      assert DigitsIn(s, 10)[i] == DigitsIn(t, 10)[i];
    }
  }

  lemma {:induction false} TrailingZerosDropped(b: string, n: nat)
    requires b == "" || b[|b| - 1] != '0'
    ensures DropTrailingZeros(b + Repeat('0', n)) == b
  {
    var s := b + Repeat('0', n);
    if 0 < n {
      TrailingZerosDropped(b, n - 1);
      assert s[..|s| - 1] == b + Repeat('0', n - 1);
    } else {
      assert s == b;
    }
  }

  /** Each number has one canonical text. */
  lemma CanonicalUnique(a: string, b: string, a': string, b': string, decimals: nat)
    requires Canonical(a, b, decimals) && Canonical(a', b', decimals)
    requires Scaled(a, b, decimals) == Scaled(a', b', decimals)
    ensures a == a' && b == b'
  {
    hide TextValue, DigitsIn, DigitOf, Scaled;
    var f, f' := Cut(b, decimals), Cut(b', decimals);
    FractionCut(a, b, decimals);
    FractionCut(a', b', decimals);
    CutTwoWays(b, decimals);
    CutTwoWays(b', decimals);
    TextBound(f, 10);
    TextBound(f', 10);
    SplitUnique(Numeral(a), Numeral(f), Numeral(a'), Numeral(f'), Pow(10, decimals));
    SameWhole(a, a');
    SameFraction(f, f');
    TrailingZerosDropped(b, decimals - |b|);
    TrailingZerosDropped(b', decimals - |b'|);
  }

  lemma SameWhole(a: string, a': string)
    requires IsNumeral(a) && IsNumeral(a') && Numeral(a) == Numeral(a')
    requires NoLeadingZero(DigitsIn(a, 10)) && NoLeadingZero(DigitsIn(a', 10))
    ensures a == a'
  {
    ShortestUnique(DigitsIn(a, 10), DigitsIn(a', 10), 10);
    DigitsDetermineText(a, a');
  }

  lemma SameFraction(f: string, f': string)
    requires IsNumeral(f) && IsNumeral(f') && Numeral(f) == Numeral(f') && |f| == |f'|
    ensures f == f'
  {
    FixedWidthUnique(DigitsIn(f, 10), DigitsIn(f', 10), 10);
    DigitsDetermineText(f, f');
  }

  /** Parsing then printing is the identity on canonical text. */
  lemma ParseThenPrint(a: string, b: string, decimals: nat)
    requires Canonical(a, b, decimals)
    ensures ToBaseUnits(Write(a, b), decimals) == Some(Scaled(a, b, decimals))
    ensures FromBaseUnits(Scaled(a, b, decimals), decimals) == Write(a, b)
  {
    WrittenParts(a, b);
    ParseTrimmed(Write(a, b), a, b, decimals);
    var a', b' := PrintedParts(Scaled(a, b, decimals), decimals);
    CanonicalUnique(a, b, a', b', decimals);
  }
}
