/** Addresses as bytes, big integers and 64-bit words. */
module AddressCodec {
  import opened Prelude
  import opened Arithmetic
  import opened Digits
  import opened JsText

  type Byte = x: nat | x < 256

  const TWO_32: int := 0x1_0000_0000
  const TWO_160: int := TWO_64 * TWO_64 * TWO_32

  lemma Powers()
    ensures Pow(16, 2) == 256 && Pow(256, 8) == TWO_64
    ensures Pow(2, 64) == TWO_64 && Pow(2, 160) == TWO_160
  {
    hide Pow;
    PowDoubles(16, 1);
    PowDoubles(256, 1);
    PowDoubles(256, 2);
    PowDoubles(256, 4);
    PowDoubles(2, 1);
    PowDoubles(2, 2);
    PowDoubles(2, 4);
    PowDoubles(2, 8);
    PowDoubles(2, 16);
    PowDoubles(2, 32);
    PowDoubles(2, 64);
    PowAdd(2, 128, 32);
  }

  // ------------------------------------------------------------ bytes and numbers

  /** The low `n` bytes of a number, most significant first. */
  function Bytes(value: nat, n: nat): (bs: seq<Byte>)
    ensures |bs| == n
  {
    if n == 0 then [] else Bytes(value / 256, n - 1) + [value % 256]
  }

  lemma {:induction false} BytesValue(value: nat, n: nat)
    requires value < Pow(256, n)
    ensures Value(Bytes(value, n), 256) == value
  {
    if 0 < n {
      BytesValue(value / 256, n - 1);
    }
  }

  lemma BytesOfValue(bs: seq<Byte>)
    ensures Bytes(Value(bs, 256), |bs|) == bs
  {
    ValueBound(bs, 256);
    BytesValue(Value(bs, 256), |bs|);
    FixedWidthUnique(Bytes(Value(bs, 256), |bs|), bs, 256);
  }

  // --------------------------------------------------------------------- hex text

  /** Two hexadecimal digits a byte. */
  function Hex(bs: seq<Byte>): string {
    if bs == [] then "" else Hex(bs[..|bs| - 1]) + PadStart(ToText(bs[|bs| - 1], 16), 2, '0')
  }

  lemma ByteText(b: Byte)
    ensures var t := PadStart(ToText(b, 16), 2, '0');
            |t| == 2 && AllDigits(t, 16) && TextValue(t, 16) == b
  {
    hide TextValue, PadStart;
    var ds := ToDigits(b, 16);
    assert Value([15, 15], 16) == 255 by {
      assert [15, 15] == [15] + [15] && [15] == [] + [15];
      ValueSnoc([], 15, 16);
      ValueSnoc([15], 15, 16);
    }
    if 2 < |ds| {
      LongerIsLarger([15, 15], ds, 16);
    }
    TextOf(b, 16);
    PaddedText(ToText(b, 16), 2, 16);
  }

  lemma {:induction false} HexValue(bs: seq<Byte>)
    ensures AllDigits(Hex(bs), 16) && |Hex(bs)| == 2 * |bs|
    ensures TextValue(Hex(bs), 16) == Value(bs, 256)
  {
    hide TextValue, DigitOf, PadStart, Value;
    if bs == [] {
      EmptyText();
    } else {
      var init, last := bs[..|bs| - 1], bs[|bs| - 1];
      HexValue(init);
      ByteText(last);
      AppendValue(Hex(init), PadStart(ToText(last, 16), 2, '0'), 16);
      Powers();
      ValueSnoc(init, last, 256);
      assert bs == init + [last];
    }
  }

  lemma EmptyValue()
    ensures forall base: nat :: Value([], base) == 0
  {
  }

  lemma EmptyText()
    ensures AllDigits("", 16) && TextValue("", 16) == 0 && Value([], 256) == 0
  {
  }

  lemma HexSnoc(bs: seq<Byte>, i: nat)
    requires i < |bs|
    ensures Hex(bs[..i + 1]) == Hex(bs[..i]) + PadStart(ToText(bs[i], 16), 2, '0')
  {
    assert bs[..i + 1][..i] == bs[..i];
  }

  /** A decoded destination as a big integer; anything but 32 bytes is refused. */
  method DecodeToBigInt(decoded: seq<Byte>) returns (value: Option<int>)
    ensures value == if |decoded| == 32 then Some(Value(decoded, 256)) else None
  {
    hide PadStart, ToText, TextValue, BigIntOf, Value;
    if |decoded| != 32 {
      return None;
    }
    var hex := "0x";
    for i := 0 to |decoded|
      invariant hex == "0x" + Hex(decoded[..i])
    {
      HexSnoc(decoded, i);
      hex := hex + PadStart(ToText(decoded[i], 16), 2, '0');
    }
    assert decoded[..|decoded|] == decoded;
    HexValue(decoded);
    BigIntOfLiteral('x', Hex(decoded));
    assert ['0', 'x'] + Hex(decoded) == "0x" + Hex(decoded);
    value := BigIntOf(hex);
  }

  lemma HexSplit(hex: string, n: nat)
    requires AllDigits(hex, 16) && 2 * n + 2 <= |hex|
    ensures TextValue(hex[..2 * n + 2], 16) == TextValue(hex[..2 * n], 16) * 256 + TextValue(hex[2 * n..2 * n + 2], 16)
    ensures TextValue(hex[2 * n..2 * n + 2], 16) < 256
  {
    hide TextValue, DigitOf;
    var a, b := hex[..2 * n], hex[2 * n..2 * n + 2];
    assert hex[..2 * n + 2] == a + b;
    AppendValue(a, b, 16);
    Powers();
    TextBound(b, 16);
  }

  /** `parseInt` of consecutive pairs of hexadecimal digits. */
  method ParsePairs(hex: string, out: array<Byte>)
    requires AllDigits(hex, 16) && 2 * out.Length <= |hex|
    modifies out
    ensures Value(out[..], 256) == TextValue(hex[..2 * out.Length], 16)
  {
    hide TextValue, DigitOf, Value;
    EmptyText();
    assert hex[..0] == "" && out[..0] == [];
    for i := 0 to out.Length
      invariant Value(out[..i], 256) == TextValue(hex[..2 * i], 16)
    {
      HexSplit(hex, i);
      ValueSnoc(out[..i], TextValue(hex[2 * i..2 * i + 2], 16), 256);
      out[i] := TextValue(hex[2 * i..2 * i + 2], 16);
      assert out[..i + 1] == out[..i] + [out[i]];
    }
    assert out[..out.Length] == out[..];
  }

  /**
   * `bigIntToBytes32`. A number too large for 32 bytes keeps its leading 64 hexadecimal
   * digits, because the loop reads from the front.
   */
  method BigIntToBytes32(value: nat) returns (bytes: array<Byte>)
    ensures fresh(bytes) && bytes.Length == 32
    ensures bytes[..] == Leading32(value)
  {
    hide TextValue, PadStart, DigitOf, Value, Pow, Bytes, ToText;
    var text := ToText(value, 16);
    TextOf(value, 16);
    PaddedText(text, 64, 16);
    var hex := PadStart(text, 64, '0');
    bytes := new Byte[32];
    ParsePairs(hex, bytes);
    LeadingDigitsKept(hex);
    BytesOfValue(bytes[..]);
  }

  /** The bytes that result; a number is recovered from them exactly when it has at most 256 bits. */
  function Leading32(value: nat): (bs: seq<Byte>)
    ensures |bs| == 32
  {
    Bytes(Floor(value, Dropped(value)), 32)
  }

  lemma Leading32Keeps(value: nat)
    ensures Value(Leading32(value), 256) == value <==> value < Pow(256, 32)
    ensures value < Pow(256, 32) ==> Leading32(value) == Bytes(value, 32)
  {
    hide Value, Bytes, Pow, Dropped;
    TooLong(value);
    ValueBound(Leading32(value), 256);
    if value < Pow(256, 32) {
      BytesValue(value, 32);
    }
  }

  /** So 32 bytes that became a number come back, whatever they are. */
  lemma BytesRoundTrip(bs: seq<Byte>)
    requires |bs| == 32
    ensures Leading32(Value(bs, 256)) == bs
  {
    hide Value, Bytes, Pow, Leading32;
    ValueBound(bs, 256);
    Leading32Keeps(Value(bs, 256));
    BytesOfValue(bs);
  }

  /** The weight of the digits beyond the first sixty-four. */
  function Dropped(value: nat): (p: nat)
    ensures 0 < p
  {
    var extra := Max(0, |ToDigits(value, 16)| - 64);
    PowPositive(16, extra);
    Pow(16, extra)
  }

  lemma LeadingDigitsKept(hex: string)
    requires AllDigits(hex, 16) && 64 <= |hex|
    ensures 0 < Pow(16, |hex| - 64)
    ensures TextValue(hex[..64], 16) == Floor(TextValue(hex, 16), Pow(16, |hex| - 64))
  {
    hide TextValue, DigitOf, Pow, Floor;
    var a, b := hex[..64], hex[64..];
    assert hex == a + b;
    PrefixKept(a, b);
  }

  lemma PrefixKept(a: string, b: string)
    requires AllDigits(a, 16) && AllDigits(b, 16) && AllDigits(a + b, 16)
    ensures 0 < Pow(16, |b|) && Floor(TextValue(a + b, 16), Pow(16, |b|)) == TextValue(a, 16)
  {
    hide TextValue, DigitOf, Pow, Floor;
    AppendValue(a, b, 16);
    TextBound(b, 16);
    PowPositive(16, |b|);
    RemainderIs(TextValue(a + b, 16), Pow(16, |b|), TextValue(a, 16), TextValue(b, 16));
  }

  lemma TooLong(value: nat)
    ensures value < Pow(256, 32) <==> Floor(value, Dropped(value)) == value
    ensures value < Pow(256, 32) ==> Dropped(value) == 1
  {
    hide ToDigits;
    SixtyFourDigits(value);
    PowPositive(256, 32);
    if 64 < |ToDigits(value, 16)| {
      var n := |ToDigits(value, 16)| - 64;
      PowMonotone(16, 1, n);
      assert Pow(16, 1) == 16;
      DivisionShrinks(value, Dropped(value));
    }
  }

  lemma SixtyFourDigits(value: nat)
    ensures value < Pow(256, 32) <==> |ToDigits(value, 16)| <= 64
  {
    hide Value;
    var ds := ToDigits(value, 16);
    PowSquares(32);
    if |ds| <= 64 {
      ValueBound(ds, 16);
      PowMonotone(16, |ds|, 64);
    } else {
      LeadingDigit(ds, 16);
      PowMonotone(16, 64, |ds| - 1);
    }
  }

  lemma {:induction false} PowSquares(n: nat)
    ensures Pow(16, 2 * n) == Pow(256, n)
  {
    if 0 < n {
      PowSquares(n - 1);
      assert Pow(16, 2 * n) == 16 * (16 * Pow(16, 2 * n - 2));
    }
  }

  // ------------------------------------------------------------------------ words

  method BytesToBigBE(b: seq<Byte>) returns (v: nat)
    ensures v == Value(b, 256)
  {
    v := 0;
    for i := 0 to |b|
      invariant v == Value(b[..i], 256)
    {
      ValueSnoc(b[..i], b[i], 256);
      assert b[..i + 1] == b[..i] + [b[i]];
      v := v * 256 + b[i];
    }
    assert b[..|b|] == b;
  }

  function LowerCase(s: string): (r: string)
    ensures |r| == |s|
  {
    seq(|s|, i requires 0 <= i < |s| => if 'A' <= s[i] <= 'Z' then s[i] - 'A' + 'a' else s[i])
  }

  /** The address without white space, in lower case, without its prefix. */
  function BareHex(addr: string): string {
    var h := LowerCase(Trim(addr));
    if 2 <= |h| && h[..2] == "0x" then h[2..] else h
  }

  predicate IsAddressHex(h: string) {
    |h| == 40 && AllDigits(h, 16)
  }

  /** An address as people write it: digits of either case, perhaps a prefix, blanks around it. */
  ghost predicate IsWritten(addr: string, pre: string, prefix: string, h: string, post: string) {
    && addr == pre + (prefix + h) + post && Blank(pre) && Blank(post)
    && (prefix == "" || prefix == "0x" || prefix == "0X")
    && |h| == 40 && AllDigits(h, 16)
  }

  lemma LowerCaseDigits(h: string)
    ensures AllDigits(LowerCase(h), 16) <==> AllDigits(h, 16)
    ensures AllDigits(h, 16) ==> TextValue(LowerCase(h), 16) == TextValue(h, 16)
  {
    var l := LowerCase(h);
    forall i | 0 <= i < |h| ensures DigitOf(l[i]) == DigitOf(h[i]) {
    }
    assert AllDigits(h, 16) ==> DigitsIn(l, 16) == DigitsIn(h, 16);
  }

  /** Every such text is read as its digits. */
  lemma WrittenAddress(addr: string, pre: string, prefix: string, h: string, post: string)
    requires IsWritten(addr, pre, prefix, h, post)
    ensures IsAddressHex(BareHex(addr)) && AllDigits(h, 16) && TextValue(BareHex(addr), 16) == TextValue(h, 16)
  {
    hide Trim, TextValue;
    var t := prefix + h;
    TrimBlanks(pre, t, post);
    DigitsNotBlank(t);
    EndsTrimmed(t);
    LowerCaseDigits(h);
    var l := LowerCase(t);
    if prefix == "" {
      assert t == h && DigitOf(l[1]) != DigitOf('x');
      assert l[..2][1] == l[1];
    } else {
      assert l[..2] == [l[0], l[1]] == "0x" && l[2..] == LowerCase(h);
    }
  }

  lemma DigitsNotBlank(t: string)
    requires t != "" && DigitOf(t[0]).Some? && DigitOf(t[|t| - 1]).Some?
    ensures t[0] !in BLANKS && t[|t| - 1] !in BLANKS
  {
  }

  /** And nothing else is accepted. */
  lemma AcceptedAddress(addr: string) returns (pre: string, prefix: string, h: string, post: string)
    requires IsAddressHex(BareHex(addr))
    ensures IsWritten(addr, pre, prefix, h, post)
  {
    hide Trim, Blank, BLANKS, TextValue, DigitOf, LowerCase;
    var t := Trim(addr);
    pre, post := TrimmedOff(addr);
    if 2 <= |t| {
      LowerCasePrefix(t);
    }
    if 2 <= |t| && LowerCase(t)[..2] == "0x" {
      prefix, h := t[..2], t[2..];
      assert t == prefix + h;
    } else {
      prefix, h := "", t;
      assert t == prefix + h;
    }
    LowerCaseDigits(h);
  }

  lemma LowerCasePrefix(t: string)
    requires 2 <= |t|
    ensures LowerCase(t)[2..] == LowerCase(t[2..])
    ensures LowerCase(t)[..2] == "0x" <==> t[..2] == "0x" || t[..2] == "0X"
  {
    var l := LowerCase(t);
    assert l[..2] == [l[0], l[1]] && t[..2] == [t[0], t[1]];
  }

  /** Words of 64 bits, most significant first. */
  lemma FourWords(bytes: seq<Byte>, words: seq<nat>)
    requires |bytes| == 32 && |words| == 4
    requires forall i :: 0 <= i < 4 ==> words[i] == Value(bytes[8 * i..8 * i + 8], 256)
    ensures Value(words, TWO_64) == Value(bytes, 256)
    ensures InBase(words, TWO_64)
  {
    hide Value;
    EmptyValue();
    assert words[..0] == [] && bytes[..0] == [];
    for i := 0 to 4
      invariant Value(words[..i], TWO_64) == Value(bytes[..8 * i], 256)
      invariant forall j :: 0 <= j < i ==> words[j] < TWO_64
    {
      OneMoreWord(bytes, words, i);
    }
    assert words[..4] == words && bytes[..32] == bytes;
  }

  lemma OneMoreWord(bytes: seq<Byte>, words: seq<nat>, i: nat)
    requires i < |words| && 8 * i + 8 <= |bytes|
    requires words[i] == Value(bytes[8 * i..8 * i + 8], 256)
    requires Value(words[..i], TWO_64) == Value(bytes[..8 * i], 256)
    ensures Value(words[..i + 1], TWO_64) == Value(bytes[..8 * i + 8], 256) && words[i] < TWO_64
  {
    hide Value, Pow;
    var chunk := bytes[8 * i..8 * i + 8];
    Powers();
    assert bytes[..8 * i + 8] == bytes[..8 * i] + chunk;
    ValueAppend(bytes[..8 * i], chunk, 256);
    ValueBound(chunk, 256);
    assert words[..i + 1] == words[..i] + [words[i]];
    ValueSnoc(words[..i], words[i], TWO_64);
  }

  /** The four words of an Ethereum address recombine to the address, in either layout. */
  method EthAddressTo4U64(addr: string, big: bool) returns (parts: Option<seq<nat>>)
    ensures parts.Some? <==> exists pre, prefix, h, post :: IsWritten(addr, pre, prefix, h, post)
    ensures parts.Some? ==> |parts.value| == 4 && InBase(parts.value, TWO_64)
    ensures forall pre, prefix, h, post :: IsWritten(addr, pre, prefix, h, post) ==>
              Value(parts.value, TWO_64) == TextValue(h, 16) * (if big then 1 else Pow(256, 12))
  {
    hide TextValue, DigitOf, Value, BareHex, Pow, IsWritten;
    forall pre, prefix, h, post | IsWritten(addr, pre, prefix, h, post)
      ensures IsAddressHex(BareHex(addr)) && AllDigits(h, 16) && TextValue(BareHex(addr), 16) == TextValue(h, 16)
    {
      WrittenAddress(addr, pre, prefix, h, post);
    }
    var h := BareHex(addr);
    if |h| != 40 || !AllDigits(h, 16) {
      return None;
    }
    ghost var pre, prefix, digits, post := AcceptedAddress(addr);
    var raw := new Byte[20];
    ParsePairs(h, raw);
    assert h[..40] == h;
    ghost var address := raw[..];
    var buf32 := new Byte[32](_ => 0);
    var offset := if big then 12 else 0;
    for i := 0 to 20
      invariant raw[..] == address
      invariant forall j :: 0 <= j < 32 ==> buf32[j] == if offset <= j < offset + i then raw[j - offset] else 0
    {
      buf32[offset + i] := raw[i];
    }
    ghost var bytes := buf32[..];
    PlacedValue(address, bytes, big);
    var words: seq<nat> := [];
    for i := 0 to 4
      invariant buf32[..] == bytes
      invariant |words| == i && forall j :: 0 <= j < i ==> words[j] == Value(bytes[8 * j..8 * j + 8], 256)
    {
      assert buf32[8 * i..8 * i + 8] == bytes[8 * i..8 * i + 8];
      var word := BytesToBigBE(buf32[8 * i..8 * i + 8]);
      words := words + [word];
    }
    FourWords(bytes, words);
    parts := Some(words);
  }

  lemma PlacedValue(raw: seq<Byte>, bytes: seq<Byte>, big: bool)
    requires |raw| == 20 && |bytes| == 32
    requires var offset := if big then 12 else 0;
             forall j :: 0 <= j < 32 ==> bytes[j] == if offset <= j < offset + 20 then raw[j - offset] else 0
    ensures Value(bytes, 256) == Value(raw, 256) * (if big then 1 else Pow(256, 12))
  {
    hide Value, Pow;
    if big {
      assert bytes == Zeros(12) + raw;
      LeadingZeros(12, raw, 256);
    } else {
      assert bytes == raw + Zeros(12);
      TrailingZeros(raw, 12, 256);
    }
  }

  /** Least significant digit first. */
  function LittleValue(ds: seq<nat>, base: nat): nat {
    if ds == [] then 0 else ds[0] + base * LittleValue(ds[1..], base)
  }

  lemma {:induction false} LittleAppend(ds: seq<nat>, d: nat, base: nat)
    ensures LittleValue(ds + [d], base) == LittleValue(ds, base) + d * Pow(base, |ds|)
  {
    if ds == [] {
      assert ([d])[1..] == [] && ds + [d] == [d];
    } else {
      hide Pow;
      LittleAppend(ds[1..], d, base);
      assert (ds + [d])[1..] == ds[1..] + [d];
      PowStep(base, |ds| - 1);
      LittleStep(base, LittleValue(ds[1..], base), d, Pow(base, |ds| - 1));
    }
  }

  lemma LittleStep(base: nat, rest: nat, d: nat, p: nat)
    ensures base * (rest + d * p) == base * rest + d * (base * p)
  {
    assert base * (d * p) == d * (base * p);
  }

  /** `v & 0xff` and `v >>= 8` on a big integer are remainder and floor by 256, also when negative. */
  method U64LE(n: int) returns (out: array<Byte>)
    ensures fresh(out) && out.Length == 8
    ensures LittleValue(out[..], 256) == n % TWO_64
  {
    hide LittleValue, Pow;
    out := new Byte[8];
    var v := n;
    LittleStart();
    assert out[..0] == [];
    for i := 0 to 8
      invariant n == LittleValue(out[..i], 256) + v * Pow(256, i)
      invariant LittleValue(out[..i], 256) < Pow(256, i)
    {
      LittleAppend(out[..i], v % 256, 256);
      NextByte(LittleValue(out[..i], 256), v, i);
      out[i] := v % 256;
      assert out[..i + 1] == out[..i] + [out[i]];
      v := v / 256;
    }
    assert out[..8] == out[..];
    Powers();
  }

  lemma LittleStart()
    ensures LittleValue([], 256) == 0 < Pow(256, 0) == 1
  {
  }

  lemma NextByte(low: nat, v: int, i: nat)
    requires low < Pow(256, i)
    ensures low + v * Pow(256, i) == low + v % 256 * Pow(256, i) + v / 256 * Pow(256, i + 1)
    ensures low + v % 256 * Pow(256, i) < Pow(256, i + 1)
  {
    var p := Pow(256, i);
    assert Pow(256, i + 1) == 256 * p;
    assert v == v / 256 * 256 + v % 256;
    assert v * p == v / 256 * (256 * p) + v % 256 * p;
    Multiply(v % 256, 255, p);
  }

  /** Each of the four encoded words is read back from its own eight bytes. */
  method Encode4U64LE(parts: seq<int>) returns (out: seq<Byte>)
    requires |parts| == 4
    ensures |out| == 32
    ensures forall i :: 0 <= i < 4 ==> LittleValue(out[8 * i..8 * i + 8], 256) == parts[i] % TWO_64
  {
    var a := U64LE(parts[0]);
    var b := U64LE(parts[1]);
    var c := U64LE(parts[2]);
    var d := U64LE(parts[3]);
    out := a[..] + b[..] + c[..] + d[..];
    assert out[0..8] == a[..] && out[8..16] == b[..] && out[16..24] == c[..] && out[24..32] == d[..];
  }

  // ------------------------------------------------------------------ reassembly

  function BitOr(a: nat, b: nat): nat {
    if a == 0 then b else if b == 0 then a else
      2 * BitOr(a / 2, b / 2) + if a % 2 == 1 || b % 2 == 1 then 1 else 0
  }

  function BitAnd(a: nat, b: nat): nat {
    if a == 0 || b == 0 then 0 else
      2 * BitAnd(a / 2, b / 2) + if a % 2 == 1 && b % 2 == 1 then 1 else 0
  }

  /** OR-ing in bits above all set ones adds them. */
  lemma {:induction false} OrAboveAdds(a: nat, b: nat, k: nat)
    requires a < Pow(2, k)
    ensures BitOr(a, b * Pow(2, k)) == a + b * Pow(2, k)
  {
    if a != 0 {
      var p := b * Pow(2, k - 1);
      assert b * Pow(2, k) == 2 * p;
      OrAboveAdds(a / 2, b, k - 1);
    }
  }

  lemma HalfRemainder(a: nat, p: nat)
    requires 0 < p
    ensures a % (2 * p) == 2 * (a / 2 % p) + a % 2
  {
    var h := a / 2;
    var q, r := Floor(h, p), h % p;
    DivMod(h, p);
    assert q * (2 * p) == 2 * (q * p);
    RemainderIs(a, 2 * p, q, 2 * r + a % 2);
  }

  /** Masking with k ones is the remainder by 2^k. */
  lemma {:induction false} MaskIsRemainder(a: nat, k: nat)
    ensures 0 < Pow(2, k) && BitAnd(a, Pow(2, k) - 1) == a % Pow(2, k)
  {
    hide BitAnd, Pow;
    if 0 < k {
      PowStep(2, k - 1);
      MaskIsRemainder(a / 2, k - 1);
      MaskStep(a, Pow(2, k - 1));
    } else {
      NoMask(a);
    }
  }

  lemma NoMask(a: nat)
    ensures Pow(2, 0) == 1 && BitAnd(a, 0) == 0
  {
  }

  lemma MaskStep(a: nat, p: nat)
    requires 0 < p && BitAnd(a / 2, p - 1) == a / 2 % p
    ensures BitAnd(a, 2 * p - 1) == a % (2 * p)
  {
    hide BitAnd;
    HalfRemainder(a, p);
    Halves(p);
    AndWithOdd(a, 2 * p - 1);
  }

  lemma AndWithOdd(a: nat, b: nat)
    requires b % 2 == 1
    ensures BitAnd(a, b) == 2 * BitAnd(a / 2, b / 2) + a % 2
  {
  }

  lemma Halves(p: nat)
    requires 0 < p
    ensures (2 * p - 1) / 2 == p - 1 && (2 * p - 1) % 2 == 1
  {
  }

  /** One round of the loop puts the low 64 bits of the next word above the ones so far. */
  lemma OneRound(evm: nat, words: seq<nat>, plain: nat)
    requires evm == LittleValue(words, TWO_64) < Pow(2, 64 * |words|)
    ensures 0 < Pow(2, 64)
    ensures var next := BitOr(evm, BitAnd(plain, Pow(2, 64) - 1) * Pow(2, 64 * |words|));
            next == LittleValue(words + [plain % TWO_64], TWO_64) < Pow(2, 64 * |words| + 64)
  {
    hide Pow, BitAnd, BitOr, LittleValue;
    var n := |words|;
    Powers();
    MaskIsRemainder(plain, 64);
    OrAboveAdds(evm, plain % TWO_64, 64 * n);
    LittleAppend(words, plain % TWO_64, TWO_64);
    PowPow(n);
    PowAdd(2, 64 * n, 64);
    var p := Pow(2, 64 * n);
    Multiply(plain % TWO_64 + 1, TWO_64, p);
    assert (plain % TWO_64 + 1) * p == plain % TWO_64 * p + p;
  }

  lemma {:induction false} PowPow(n: nat)
    ensures Pow(2, 64 * n) == Pow(TWO_64, n)
  {
    if 0 < n {
      PowPow(n - 1);
      Powers();
      PowAdd(2, 64, 64 * n - 64);
    }
  }

  function Low64(plains: seq<nat>): (r: seq<nat>)
    ensures |r| == |plains|
  {
    seq(|plains|, i requires 0 <= i < |plains| => plains[i] % TWO_64)
  }

  /** The number the four decrypted words stand for. */
  function Reassembled(plains: seq<nat>): nat
    requires 4 <= |plains|
  {
    LittleValue(Low64(plains[..4]), TWO_64)
  }

  /** Masks, shifts and ORs add up to the positional sum of the four words cut to 64 bits. */
  method ReassembleWords(plains: seq<nat>) returns (evm: nat)
    requires 4 <= |plains|
    ensures evm == Reassembled(plains) < Pow(2, 256)
    ensures var w := Low64(plains[..4]);
            evm == w[0] + TWO_64 * (w[1] + TWO_64 * (w[2] + TWO_64 * w[3]))
            && forall i :: 0 <= i < 4 ==> w[i] == plains[i] % TWO_64
  {
    hide Pow, BitAnd, BitOr, LittleValue;
    FourLittle(Low64(plains[..4]));
    evm := 0;
    NoWords();
    assert Low64(plains[..0]) == [];
    for i := 0 to 4
      invariant evm == LittleValue(Low64(plains[..i]), TWO_64) < Pow(2, 64 * i)
    {
      OneRound(evm, Low64(plains[..i]), plains[i]);
      evm := BitOr(evm, BitAnd(plains[i], Pow(2, 64) - 1) * Pow(2, 64 * i));
      assert Low64(plains[..i + 1]) == Low64(plains[..i]) + [plains[i] % TWO_64];
    }
  }

  lemma NoWords()
    ensures LittleValue([], TWO_64) == 0 < Pow(2, 0)
  {
  }

  /** The first word is the low 160 bits of the whole number exactly if the rest of those bits are zero. */
  lemma FirstWordIsAddressIff(plains: seq<nat>)
    requires 4 <= |plains|
    ensures 0 < Pow(2, 160)
    ensures plains[0] % TWO_64 == Reassembled(plains) % Pow(2, 160)
            <==> plains[1] % TWO_64 == 0 && plains[2] % TWO_32 == 0
  {
    hide Pow;
    Powers();
    var ws := Low64(plains[..4]);
    hide LittleValue;
    FourLittle(ws);
    LowPart(ws[0], ws[1], ws[2], ws[3]);
    SameLow32(plains[2]);
  }

  lemma FourLittle(ws: seq<nat>)
    requires |ws| == 4
    ensures LittleValue(ws, TWO_64) == ws[0] + TWO_64 * (ws[1] + TWO_64 * (ws[2] + TWO_64 * ws[3]))
  {
    assert LittleValue(ws[3..], TWO_64) == ws[3];
    assert ws[1..][1..] == ws[2..] && ws[2..][1..] == ws[3..];
  }

  lemma LowPart(w0: nat, w1: nat, w2: nat, w3: nat)
    requires w0 < TWO_64 && w1 < TWO_64
    ensures (w0 + TWO_64 * (w1 + TWO_64 * (w2 + TWO_64 * w3))) % TWO_160
         == w0 + TWO_64 * (w1 + TWO_64 * (w2 % TWO_32))
  {
    var low := w0 + TWO_64 * (w1 + TWO_64 * (w2 % TWO_32));
    RemainderIs(w0 + TWO_64 * (w1 + TWO_64 * (w2 + TWO_64 * w3)), TWO_160, w2 / TWO_32 + TWO_32 * w3, low);
  }

  lemma SameLow32(n: nat)
    ensures n % TWO_64 % TWO_32 == n % TWO_32
  {
  }

  /**
   * The destination text. It keeps only the last sixteen of the sixty-four digits, so it
   * names the first word alone: never a twenty-byte address, and the number that the words
   * give for one only if the second and half of the third word are zero.
   */
  method ResolveDestination(plains: seq<nat>) returns (destination: Option<string>)
    ensures destination.Some? <==> 4 <= |plains|
    ensures destination.Some? ==>
              && |destination.value| == 18 && destination.value[..2] == "0x"
              && AllDigits(destination.value[2..], 16)
              && (forall c <- destination.value[2..] :: c in "0123456789abcdef")
              && TextValue(destination.value[2..], 16) == plains[0] % TWO_64
              && 0 < Pow(2, 160)
              && (TextValue(destination.value[2..], 16) == Reassembled(plains) % Pow(2, 160)
                  <==> plains[1] % TWO_64 == 0 && plains[2] % TWO_32 == 0)
  {
    hide Pow, TextValue, ToText, PadStart, DigitOf;
    if |plains| < 4 {
      return None;
    }
    var evm := ReassembleWords(plains);
    TextOf(evm, 16);
    PaddedText(ToText(evm, 16), 64, 16);
    var hex := PadStart(ToText(evm, 16), 64, '0');
    LowerCaseText(evm, 16, 64);
    ShortText(evm);
    LowDigits(hex);
    LowWord(Low64(plains[..4]));
    FirstWordIsAddressIff(plains);
    destination := Some("0x" + hex[48..]);
    assert destination.value[2..] == hex[48..];
  }

  lemma ShortText(evm: nat)
    requires evm < Pow(2, 256)
    ensures |ToDigits(evm, 16)| <= 64
  {
    hide ToDigits;
    SixtyFourDigits(evm);
    PowAdd(2, 64, 64);
    PowAdd(2, 128, 128);
    PowAdd(256, 8, 8);
    PowAdd(256, 16, 16);
    Powers();
  }

  lemma LowDigits(hex: string)
    requires AllDigits(hex, 16) && |hex| == 64
    ensures TextValue(hex[48..], 16) == TextValue(hex, 16) % TWO_64
  {
    hide TextValue, DigitOf, Pow;
    var a, b := hex[..48], hex[48..];
    assert hex == a + b;
    AppendValue(a, b, 16);
    TextBound(b, 16);
    PowSquares(8);
    Powers();
    RemainderIs(TextValue(hex, 16), TWO_64, TextValue(a, 16), TextValue(b, 16));
  }

  lemma LowWord(words: seq<nat>)
    requires 0 < |words| && words[0] < TWO_64
    ensures LittleValue(words, TWO_64) % TWO_64 == words[0]
  {
    RemainderIs(LittleValue(words, TWO_64), TWO_64, LittleValue(words[1..], TWO_64), words[0]);
  }
}
