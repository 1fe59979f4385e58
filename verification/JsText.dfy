/** The JavaScript string operations the client code uses. */
module JsText {
  import opened Prelude
  import opened Arithmetic
  import opened Digits

  /** White space and line terminators of ECMAScript. */
  predicate IsSpace(c: char) {
    || '\t' <= c <= '\r' || c == ' ' || c == '\U{A0}' || c == '\U{1680}'
    || '\U{2000}' <= c <= '\U{200A}' || c == '\U{2028}' || c == '\U{2029}'
    || c == '\U{202F}' || c == '\U{205F}' || c == '\U{3000}' || c == '\U{FEFF}'
  }

  function TrimStart(s: string): (r: string)
    ensures r == [] || !IsSpace(r[0])
    ensures s == [] || !IsSpace(s[0]) ==> r == s
  {
    if s != [] && IsSpace(s[0]) then TrimStart(s[1..]) else s
  }

  function TrimEnd(s: string): (r: string)
    ensures r <= s && (r == [] || !IsSpace(r[|r| - 1]))
    ensures s == [] || !IsSpace(s[|s| - 1]) ==> r == s
  {
    if s != [] && IsSpace(s[|s| - 1]) then TrimEnd(s[..|s| - 1]) else s
  }

  function Trim(s: string): string {
    TrimEnd(TrimStart(s))
  }

  lemma {:induction false} TrimIgnoresEnd(s: string, c: char)
    requires IsSpace(c)
    ensures Trim(s + [c]) == Trim(s)
  {
    if s != "" && IsSpace(s[0]) {
      TrimIgnoresEnd(s[1..], c);
      assert (s + [c])[1..] == s[1..] + [c];
    } else if s != "" {
      assert (s + [c])[..|s|] == s;
    }
  }

  /** The white space and line terminators, written out. */
  const BLANKS: string :=
    "\t\n\U{B}\U{C}\r \U{A0}\U{1680}\U{2000}\U{2001}\U{2002}\U{2003}\U{2004}\U{2005}\U{2006}"
    + "\U{2007}\U{2008}\U{2009}\U{200A}\U{2028}\U{2029}\U{202F}\U{205F}\U{3000}\U{FEFF}"

  predicate Blank(s: string) {
    forall c <- s :: c in BLANKS
  }

  lemma SpaceIff(c: char)
    ensures IsSpace(c) <==> c in BLANKS
  {
  }

  /** Blanks around a text make no difference. */
  lemma {:induction false} TrimBlanks(pre: string, s: string, post: string)
    requires Blank(pre) && Blank(post)
    ensures Trim(pre + s + post) == Trim(s)
    decreases |pre| + |post|
  {
    hide Trim, IsSpace;
    if post != "" {
      var c := post[|post| - 1];
      SpaceIff(c);
      TrimBlanks(pre, s, post[..|post| - 1]);
      TrimIgnoresEnd(pre + s + post[..|post| - 1], c);
      assert pre + s + post == (pre + s + post[..|post| - 1]) + [c];
    } else if pre != "" {
      SpaceIff(pre[0]);
      TrimBlanks(pre[1..], s, post);
      assert (pre + s + post)[1..] == pre[1..] + s + post;
      TrimIgnoresStart(pre + s + post);
    } else {
      assert pre + s + post == s;
    }
  }

  lemma TrimIgnoresStart(s: string)
    requires s != "" && IsSpace(s[0])
    ensures Trim(s) == Trim(s[1..])
  {
  }

  lemma EndsTrimmed(t: string)
    requires t != "" && t[0] !in BLANKS && t[|t| - 1] !in BLANKS
    ensures Trim(t) == t
  {
    hide IsSpace;
    SpaceIff(t[0]);
    SpaceIff(t[|t| - 1]);
  }

  /** What is trimmed off is blank, and nothing blank is left at either end. */
  lemma TrimmedOff(s: string) returns (pre: string, post: string)
    ensures Blank(pre) && Blank(post) && s == pre + Trim(s) + post
    ensures Trim(s) != "" ==> Trim(s)[0] !in BLANKS && Trim(s)[|Trim(s)| - 1] !in BLANKS
  {
    hide IsSpace;
    var t := TrimStart(s);
    pre := StartOff(s);
    post := EndOff(t);
    assert s == pre + (Trim(s) + post);
    if Trim(s) != "" {
      assert Trim(s)[0] == t[0];
      SpaceIff(Trim(s)[0]);
      SpaceIff(Trim(s)[|Trim(s)| - 1]);
    }
  }

  /** Trimming blanks off never removes a character that is not blank. */
  lemma NonBlankKept(pre: string, s: string, post: string, i: nat)
    requires Blank(pre) && Blank(post)
    requires i < |pre + s + post| && (pre + s + post)[i] !in BLANKS
    ensures |pre| <= i < |pre| + |s|
  {
    var x := pre + s + post;
    forall j | 0 <= j < |pre| ensures x[j] in BLANKS {
      assert x[j] == pre[j];
    }
    forall j | |pre| + |s| <= j < |x| ensures x[j] in BLANKS {
      assert x[j] == post[j - |pre| - |s|];
    }
  }

  lemma {:induction false} StartOff(s: string) returns (pre: string)
    ensures Blank(pre) && s == pre + TrimStart(s)
  {
    hide IsSpace;
    if s != "" && IsSpace(s[0]) {
      SpaceIff(s[0]);
      var rest := StartOff(s[1..]);
      pre := [s[0]] + rest;
    } else {
      pre := "";
    }
  }

  lemma {:induction false} EndOff(s: string) returns (post: string)
    ensures Blank(post) && s == TrimEnd(s) + post
  {
    hide IsSpace;
    if s != "" && IsSpace(s[|s| - 1]) {
      SpaceIff(s[|s| - 1]);
      var rest := EndOff(s[..|s| - 1]);
      post := rest + [s[|s| - 1]];
      assert s == s[..|s| - 1] + [s[|s| - 1]];
    } else {
      post := "";
    }
  }

  /** `split` on one character. */
  function Split(s: string, c: char): (parts: seq<string>)
    ensures 0 < |parts|
  {
    if s == [] then [""] else
      var rest := Split(s[1..], c);
      if s[0] == c then [""] + rest else [[s[0]] + rest[0]] + rest[1..]
  }

  lemma {:induction false} SplitOnce(a: string, b: string, c: char)
    requires c !in a
    ensures Split(a, c) == [a]
    ensures Split(a + [c] + b, c) == [a] + Split(b, c)
  {
    if a == [] {
      assert (a + [c] + b)[1..] == b;
    } else {
      SplitOnce(a[1..], b, c);
      assert a == [a[0]] + a[1..];
      assert (a + [c] + b)[1..] == a[1..] + [c] + b;
    }
  }

  function Repeat(c: char, n: nat): string {
    seq(n, _ => c)
  }

  function PadStart(s: string, n: int, c: char): string {
    Repeat(c, Max(0, n - |s|)) + s
  }

  function PadEnd(s: string, n: int, c: char): string {
    s + Repeat(c, Max(0, n - |s|))
  }

  /** The value of a digit up to 35, in either case. */
  function DigitOf(c: char): Option<nat> {
    if '0' <= c <= '9' then Some((c - '0') as nat)
    else if 'a' <= c <= 'z' then Some((c - 'a') as nat + 10)
    else if 'A' <= c <= 'Z' then Some((c - 'A') as nat + 10)
    else None
  }

  predicate AllDigits(s: string, base: nat) {
    forall i :: 0 <= i < |s| ==> DigitOf(s[i]).Some? && DigitOf(s[i]).value < base
  }

  function DigitsIn(s: string, base: nat): (ds: seq<nat>)
    requires AllDigits(s, base)
    ensures |ds| == |s| && InBase(ds, base)
    ensures forall i :: 0 <= i < |s| ==> ds[i] == DigitOf(s[i]).value
  {
    seq(|s|, i requires 0 <= i < |s| => DigitOf(s[i]).value)
  }

  function TextValue(s: string, base: nat): nat
    requires AllDigits(s, base)
  {
    Value(DigitsIn(s, base), base)
  }

  function DigitChar(d: nat): (c: char)
    requires d < 36
    ensures DigitOf(c) == Some(d)
  {
    if d < 10 then '0' + d as char else 'a' + (d - 10) as char
  }

  /** `BigInt.prototype.toString(base)` of a non-negative number. */
  function ToText(n: nat, base: nat): (s: string)
    requires 2 <= base <= 36
    ensures AllDigits(s, base) && DigitsIn(s, base) == ToDigits(n, base)
  {
    var ds := ToDigits(n, base);
    seq(|ds|, i requires 0 <= i < |ds| => DigitChar(ds[i]))
  }

  /** Optional sign and decimal digits. */
  function SignedDecimal(t: string): Option<int> {
    var body := if t != [] && (t[0] == '-' || t[0] == '+') then t[1..] else t;
    if body == [] || !AllDigits(body, 10) then None
    else if t[0] == '-' then Some(0 - TextValue(body, 10))
    else Some(TextValue(body, 10))
  }

  function Prefixed(t: string, base: nat): Option<int>
    requires 2 <= |t|
  {
    var body := t[2..];
    if body == [] || !AllDigits(body, base) then None else Some(TextValue(body, base))
  }

  /** `BigInt(s)`; `None` where it throws. */
  function BigIntOf(s: string): Option<int> {
    var t := Trim(s);
    if t == [] then Some(0)
    else if |t| < 2 || t[0] != '0' then SignedDecimal(t)
    else if t[1] == 'x' || t[1] == 'X' then Prefixed(t, 16)
    else if t[1] == 'o' || t[1] == 'O' then Prefixed(t, 8)
    else if t[1] == 'b' || t[1] == 'B' then Prefixed(t, 2)
    else SignedDecimal(t)
  }

  lemma NoSpacesTrimmed(s: string)
    requires s == [] || (!IsSpace(s[0]) && !IsSpace(s[|s| - 1]))
    ensures Trim(s) == s
  {
  }

  /** Decimal digits read as the number they denote. */
  lemma BigIntOfDigits(s: string)
    requires s != [] && AllDigits(s, 10)
    ensures BigIntOf(s) == Some(TextValue(s, 10))
  {
    NoSpacesTrimmed(s);
    assert |s| < 2 || DigitOf(s[1]).value < 10;
  }

  /** The bases that a literal can name after its zero. */
  function PrefixBase(p: char): Option<nat> {
    match p
    case 'x' => Some(16)
    case 'X' => Some(16)
    case 'o' => Some(8)
    case 'O' => Some(8)
    case 'b' => Some(2)
    case 'B' => Some(2)
    case _ => None
  }

  /** A literal with such a prefix reads as the number its digits denote in that base. */
  lemma BigIntOfLiteral(p: char, s: string)
    requires PrefixBase(p).Some? && s != [] && AllDigits(s, PrefixBase(p).value)
    ensures BigIntOf(['0', p] + s) == Some(TextValue(s, PrefixBase(p).value))
  {
    hide TextValue;
    var t := ['0', p] + s;
    assert t[|t| - 1] == s[|s| - 1];
    NoSpacesTrimmed(t);
    assert t[2..] == s;
  }

  lemma BigIntOfBlanks(s: string)
    requires Blank(s)
    ensures BigIntOf(s) == Some(0)
  {
    TrimBlanks(s, "", "");
    assert s + "" + "" == s;
  }

  /** Numbers are written with lower-case digits. */
  lemma LowerCaseText(n: nat, base: nat, width: int)
    requires 2 <= base <= 16
    ensures forall c <- PadStart(ToText(n, base), width, '0') :: c in "0123456789abcdef"
  {
    var s := ToText(n, base);
    forall i | 0 <= i < |s| ensures s[i] in "0123456789abcdef" {
      assert s[i] == DigitChar(ToDigits(n, base)[i]);
      SixteenDigits(ToDigits(n, base)[i]);
    }
    assert '0' == "0123456789abcdef"[0];
  }

  lemma SixteenDigits(d: nat)
    requires d < 16
    ensures DigitChar(d) == "0123456789abcdef"[d]
  {
  }

  lemma AppendValue(a: string, b: string, base: nat)
    requires AllDigits(a, base) && AllDigits(b, base)
    ensures AllDigits(a + b, base)
    ensures DigitsIn(a + b, base) == DigitsIn(a, base) + DigitsIn(b, base)
    ensures TextValue(a + b, base) == TextValue(a, base) * Pow(base, |b|) + TextValue(b, base)
  {
    hide Value, Pow, DigitOf;
    assert DigitsIn(a + b, base) == DigitsIn(a, base) + DigitsIn(b, base);
    ValueAppend(DigitsIn(a, base), DigitsIn(b, base), base);
  }

  lemma ZeroText(n: nat, base: nat)
    requires 0 < base
    ensures AllDigits(Repeat('0', n), base) && DigitsIn(Repeat('0', n), base) == Zeros(n)
    ensures TextValue(Repeat('0', n), base) == 0
  {
    ValueZeros(n, base);
  }

  lemma TextBound(s: string, base: nat)
    requires AllDigits(s, base)
    ensures TextValue(s, base) < Pow(base, |s|)
  {
    ValueBound(DigitsIn(s, base), base);
  }

  lemma TextOf(n: nat, base: nat)
    requires 2 <= base <= 36
    ensures AllDigits(ToText(n, base), base) && |ToText(n, base)| == |ToDigits(n, base)|
    ensures TextValue(ToText(n, base), base) == n
  {
  }

  lemma PaddedText(s: string, n: nat, base: nat)
    requires 0 < base && AllDigits(s, base)
    ensures var t := PadStart(s, n, '0');
            && AllDigits(t, base) && |t| == Max(|s|, n) && TextValue(t, base) == TextValue(s, base)
  {
    var k := Max(0, n - |s|);
    ZeroText(k, base);
    AppendValue(Repeat('0', k), s, base);
  }
}
