/** Storage of API keys: base64 (section 4 of RFC 4648), the XOR cipher with a derived key, and
    the encryptor built from them. Strings are sequences of bytes. */
module KeyCodec {
  import Arithmetic
  import opened Bytes

  type Text = seq<Byte>

  const PAD: Byte := 61  // '='
  const WORD: int := 0x1_0000_0000

  // ----- the alphabet -----

  /** Character for a six-bit value: A-Z, a-z, 0-9, + and /. */
  function CharOf(d: int): Byte
    requires 0 <= d < 64
  {
    if d < 26 then 65 + d
    else if d < 52 then 97 + d - 26
    else if d < 62 then 48 + d - 52
    else if d == 62 then 43 else 47
  }

  /** strchr in the alphabet: -1 if absent. A zero byte finds the terminator, at index 64. */
  function IndexOf(c: Byte): (i: int)
    ensures -1 <= i <= 64
  {
    if 65 <= c <= 90 then c - 65
    else if 97 <= c <= 122 then c - 97 + 26
    else if 48 <= c <= 57 then c - 48 + 52
    else if c == 43 then 62 else if c == 47 then 63 else if c == 0 then 64 else -1
  }

  lemma IndexOfChar(d: int)
    requires 0 <= d < 64
    ensures IndexOf(CharOf(d)) == d && CharOf(d) != PAD
  {
  }

  /** The alphabet of section 4 of RFC 4648. */
  lemma Alphabet(d: int)
    requires 0 <= d < 64
    ensures CharOf(d) ==
      if d < 26 then 'A' as int + d
      else if d < 52 then 'a' as int + (d - 26)
      else if d < 62 then '0' as int + (d - 52)
      else if d == 62 then '+' as int else '/' as int
    ensures PAD == '=' as int
  {
  }

  // ----- encoding -----

  function Group3(a: Byte, b: Byte, c: Byte): Text {
    [CharOf(a / 4), CharOf(a % 4 * 16 + b / 16), CharOf(b % 16 * 4 + c / 64), CharOf(c % 64)]
  }

  function Group2(a: Byte, b: Byte): Text { [CharOf(a / 4), CharOf(a % 4 * 16 + b / 16), CharOf(b % 16 * 4), PAD] }

  function Group1(a: Byte): Text { [CharOf(a / 4), CharOf(a % 4 * 16), PAD, PAD] }

  /** Base64 by groups of three bytes, as the RFC describes it. */
  function Encode(data: Text): Text {
    if |data| == 0 then []
    else if |data| == 1 then Group1(data[0])
    else if |data| == 2 then Group2(data[0], data[1])
    else Group3(data[0], data[1], data[2]) + Encode(data[3..])
  }

  /** One group of the encoding of what is left. */
  function FirstGroup(rest: Text): Text
    requires |rest| > 0
  {
    if |rest| == 1 then Group1(rest[0])
    else if |rest| == 2 then Group2(rest[0], rest[1])
    else Group3(rest[0], rest[1], rest[2])
  }

  /** Three bytes in a 24-bit word. */
  function Pack(a: int, b: int, c: int): int { a * 0x10000 + b * 0x100 + c }

  /** base64Encode: a 24-bit word per group, cut into six-bit digits by shifts and masks. */
  method Base64Encode(data: Text) returns (out: Text)
    ensures out == Encode(data)
  {
    out := [];
    var i := 0;
    while i < |data|
      invariant 0 <= i
      invariant Encode(data) == out + (if i < |data| then Encode(data[i..]) else [])
      decreases |data| - i
    {
      var group := EncodeGroup(data, i);
      EncodeStep(data[i..]);
      if i + 3 < |data| { assert data[i..][3..] == data[i + 3..]; }
      out := out + group;
      i := i + 3;
    }
  }

  lemma {:induction false} EncodeStep(rest: Text)
    requires |rest| > 0
    ensures Encode(rest) == FirstGroup(rest) + (if |rest| > 3 then Encode(rest[3..]) else [])
  {
  }

  method EncodeGroup(data: Text, i: nat) returns (group: Text)
    requires i < |data|
    ensures group == FirstGroup(data[i..])
  {
    var two, three := i + 1 < |data|, i + 2 < |data|;
    var b, c := if two then data[i + 1] else 0, if three then data[i + 2] else 0;
    var n := Pack(data[i], b, c);
    PackedDigits(data[i], b, c);
    group := [CharOf(n / 0x40000 % 64), CharOf(n / 0x1000 % 64),
              if two then CharOf(n / 0x40 % 64) else PAD, if three then CharOf(n % 64) else PAD];
  }

  /** The six-bit digits of the packed word are those of the group. */
  lemma PackedDigits(a: Byte, b: Byte, c: Byte)
    ensures var n := Pack(a, b, c);
      && n / 0x40000 % 64 == a / 4 && n / 0x1000 % 64 == a % 4 * 16 + b / 16
      && n / 0x40 % 64 == b % 16 * 4 + c / 64 && n % 64 == c % 64
  {
    var n := Pack(a, b, c);
    FourDigits(a / 4, a % 4 * 16 + b / 16, b % 16 * 4 + c / 64, c % 64, n);
  }

  lemma FourDigits(p: int, q: int, r: int, s: int, n: int)
    requires 0 <= p < 64 && 0 <= q < 64 && 0 <= r < 64 && 0 <= s < 64
    requires n == p * 0x40000 + q * 0x1000 + r * 0x40 + s
    ensures n / 0x40000 % 64 == p && n / 0x1000 % 64 == q && n / 0x40 % 64 == r && n % 64 == s
  {
    Arithmetic.DivModUnique(n, 0x40000, p, q * 0x1000 + r * 0x40 + s);
    Arithmetic.DivModUnique(n, 0x1000, p * 64 + q, r * 0x40 + s);
    Arithmetic.DivModUnique(n, 0x40, p * 0x1000 + q * 64 + r, s);
  }

  // ----- decoding -----

  /** The decoder's accumulator, a 32-bit word that wraps, its bit position and its output. */
  datatype Decoder = Decoder(val: int, valb: int, out: Text, stopped: bool)

  ghost predicate DecoderOk(s: Decoder) {
    0 <= s.val < WORD && (s.valb == -8 || s.valb == -6 || s.valb == -4 || s.valb == -2)
  }

  /** (val << 6) | index on 32 bits. Index 64 shares a bit with the shifted value. */
  function ShiftIn(val: int, index: int): (r: int)
    requires 0 <= val && 0 <= index <= 64
    ensures 0 <= r < WORD
  {
    Arithmetic.DivModUnique(val * 64, WORD, val / 0x400_0000, val % 0x400_0000 * 64);
    Arithmetic.DivModUnique(val % 0x400_0000 * 64, 64, val % 0x400_0000, 0);
    var shifted := val * 64 % WORD;
    if index == 64 && shifted / 64 % 2 == 1 then shifted else shifted + index
  }

  function PowerOfTwo(b: int): int
    requires b == 0 || b == 2 || b == 4
  {
    if b == 0 then 1 else if b == 2 then 4 else 16
  }

  function DecodeStep(s: Decoder, c: Byte): (r: Decoder)
    requires DecoderOk(s)
    ensures DecoderOk(r)
  {
    if s.stopped then s
    else if c == PAD then s.(stopped := true)
    else
      var index := IndexOf(c);
      if index < 0 then s
      else
        var val := ShiftIn(s.val, index);
        var valb := s.valb + 6;
        if valb >= 0 then Decoder(val, valb - 8, s.out + [val / PowerOfTwo(valb) % 256], false)
        else Decoder(val, valb, s.out, false)
  }

  function DecodeRun(s: Decoder, text: Text): (r: Decoder)
    requires DecoderOk(s)
    ensures DecoderOk(r)
    decreases |text|
  {
    if text == [] then s else DecodeRun(DecodeStep(s, text[0]), text[1..])
  }

  function Decode(text: Text): Text { DecodeRun(Decoder(0, -8, [], false), text).out }

  /** base64Decode: stops at the padding, skips characters outside the alphabet. */
  method Base64Decode(text: Text) returns (out: Text)
    ensures out == Decode(text)
  {
    var s := Decoder(0, -8, [], false);
    for i := 0 to |text|
      invariant DecoderOk(s) && !s.stopped
      invariant DecodeRun(Decoder(0, -8, [], false), text) == DecodeRun(s, text[i..])
    {
      assert text[i..][0] == text[i] && text[i..][1..] == text[i + 1..];
      if text[i] == PAD {
        StoppedStays(s.(stopped := true), text[i + 1..]);
        return s.out;
      }
      var index := IndexOf(text[i]);
      if index >= 0 {
        var val := ShiftIn(s.val, index);
        var valb := s.valb + 6;
        var out' := s.out;
        if valb >= 0 {
          out' := out' + [val / PowerOfTwo(valb) % 256];
          valb := valb - 8;
        }
        s := Decoder(val, valb, out', false);
      }
    }
    return s.out;
  }

  lemma {:induction false} StoppedStays(s: Decoder, text: Text)
    requires DecoderOk(s) && s.stopped
    ensures DecodeRun(s, text) == s
    decreases |text|
  {
    if text != [] { StoppedStays(s, text[1..]); }
  }

  // ----- round trip -----

  /** Shifting by six bits and wrapping at 32 is dropping the top six bits first. */
  lemma ShiftIs(v: int, d: int)
    requires 0 <= v && 0 <= d < 64
    ensures ShiftIn(v, d) == v % 0x400_0000 * 64 + d
  {
    Arithmetic.DivModUnique(v * 64, WORD, v / 0x400_0000, v % 0x400_0000 * 64);
  }

  /** Dropping the top six bits keeps the low six. */
  lemma LowDigit(w: int, d: int)
    requires w >= 0 && w % 64 == d
    ensures w % 0x400_0000 % 64 == d
  {
    var r := w % 0x400_0000;
    assert w == (w / 0x400_0000 * 0x10_0000 + r / 64) * 64 + r % 64;
    Arithmetic.DivModUnique(w, 64, w / 0x400_0000 * 0x10_0000 + r / 64, r % 64);
  }

  /** After two digits the low twelve bits of the accumulator are those digits, whatever it
      held before. */
  lemma TwoDigits(v: int, d: int, e: int)
    requires 0 <= v < WORD && 0 <= d < 64 && 0 <= e < 64
    ensures ShiftIn(v, d) >= 0 && ShiftIn(ShiftIn(v, d), e) % 4096 == d * 64 + e
  {
    var w := ShiftIn(v, d);
    ShiftIs(v, d);
    Arithmetic.DivModUnique(w, 64, v % 0x400_0000, d);
    LowDigit(w, d);
    ShiftIs(w, e);
    var m := w % 0x400_0000;
    Arithmetic.DivModUnique(m * 64 + e, 4096, m / 64, d * 64 + e);
  }

  /** A zero byte, which is found at the alphabet's terminator, sets bit six and no other. */
  lemma NulByte(v: int)
    requires 0 <= v < WORD
    ensures IndexOf(0) == 64
    ensures var r, shifted := ShiftIn(v, 64), v * 64 % WORD;
      r % 64 == 0 && r / 64 % 2 == 1 && r / 128 == shifted / 128
  {
    var u := v % 0x400_0000;
    Arithmetic.DivModUnique(v * 64, WORD, v / 0x400_0000, u * 64);
    Arithmetic.DivModUnique(u * 64, 64, u, 0);
    Arithmetic.DivModUnique(u * 64 + 64, 64, u + 1, 0);
    Arithmetic.DivModUnique(u * 64, 128, u / 2, u % 2 * 64);
    if u % 2 == 0 { Arithmetic.DivModUnique(u * 64 + 64, 128, u / 2, 64); }
  }

  lemma TopEight(x: int, y: int)
    requires x >= 0 && x % 4096 == y
    ensures x / 16 % 256 == y / 16
  {
    var q := x / 4096;
    Arithmetic.DivModUnique(x, 16, q * 256 + y / 16, y % 16);
    Arithmetic.DivModUnique(q * 256 + y / 16, 256, q, y / 16);
  }

  lemma MiddleEight(x: int, y: int)
    requires x >= 0 && x % 4096 == y
    ensures x / 4 % 256 == y / 4 % 256
  {
    var q, z := x / 4096, y / 4;
    Arithmetic.DivModUnique(x, 4, q * 1024 + z, y % 4);
    Arithmetic.DivModUnique(q * 1024 + z, 256, q * 4 + z / 256, z % 256);
  }

  lemma LowEight(x: int, y: int)
    requires x >= 0 && x % 4096 == y
    ensures x % 256 == y % 256
  {
    Arithmetic.DivModUnique(x, 256, x / 4096 * 16 + y / 256, y % 256);
  }

  lemma FirstByte(v: int, a: Byte, low: int)
    requires 0 <= v < WORD && 0 <= low < 16
    ensures ShiftIn(ShiftIn(v, a / 4), a % 4 * 16 + low) / 16 % 256 == a
  {
    var d, e := a / 4, a % 4 * 16 + low;
    TwoDigits(v, d, e);
    TopEight(ShiftIn(ShiftIn(v, d), e), d * 64 + e);
    Arithmetic.DivModUnique(d * 64 + e, 16, a, low);
  }

  lemma SecondByte(v: int, b: Byte, high: int, low: int)
    requires 0 <= v < WORD && 0 <= high < 4 && 0 <= low < 4
    ensures ShiftIn(ShiftIn(v, high * 16 + b / 16), b % 16 * 4 + low) / 4 % 256 == b
  {
    var d, e := high * 16 + b / 16, b % 16 * 4 + low;
    TwoDigits(v, d, e);
    MiddleEight(ShiftIn(ShiftIn(v, d), e), d * 64 + e);
    Arithmetic.DivModUnique(d * 64 + e, 4, high * 256 + b, low);
    Arithmetic.DivModUnique(high * 256 + b, 256, high, b);
  }

  lemma ThirdByte(v: int, c: Byte, high: int)
    requires 0 <= v < WORD && 0 <= high < 16
    ensures ShiftIn(ShiftIn(v, high * 4 + c / 64), c % 64) % 256 == c
  {
    var d, e := high * 4 + c / 64, c % 64;
    TwoDigits(v, d, e);
    LowEight(ShiftIn(ShiftIn(v, d), e), d * 64 + e);
    Arithmetic.DivModUnique(d * 64 + e, 256, high, c);
  }

  lemma {:induction false} RunTwo(s: Decoder, text: Text)
    requires DecoderOk(s) && |text| >= 2
    ensures DecodeRun(s, text) == DecodeRun(DecodeStep(DecodeStep(s, text[0]), text[1]), text[2..])
  {
    assert text[1..][1..] == text[2..];
  }

  lemma StepDigit(s: Decoder, d: int)
    requires DecoderOk(s) && !s.stopped && 0 <= d < 64
    ensures var val := ShiftIn(s.val, d);
      DecodeStep(s, CharOf(d)) ==
        if s.valb + 6 >= 0 then Decoder(val, s.valb - 2, s.out + [val / PowerOfTwo(s.valb + 6) % 256], false)
        else Decoder(val, s.valb + 6, s.out, false)
  {
    IndexOfChar(d);
  }

  /** The decoder at the start of a group, whatever is left in its accumulator. */
  ghost predicate AtStart(s: Decoder, out: Text) { DecoderOk(s) && !s.stopped && s.valb == -8 && s.out == out }

  lemma DecodeFirst(s: Decoder, out: Text, a: Byte, low: int) returns (r: Decoder)
    requires AtStart(s, out) && 0 <= low < 16
    ensures r == DecodeStep(DecodeStep(s, CharOf(a / 4)), CharOf(a % 4 * 16 + low))
    ensures DecoderOk(r) && r == Decoder(ShiftIn(ShiftIn(s.val, a / 4), a % 4 * 16 + low), -4, out + [a], false)
  {
    StepDigit(s, a / 4);
    var t := DecodeStep(s, CharOf(a / 4));
    StepDigit(t, a % 4 * 16 + low);
    r := DecodeStep(t, CharOf(a % 4 * 16 + low));
    FirstByte(s.val, a, low);
  }

  lemma DecodeLast(q: Decoder, out: Text, v: int, a: Byte, b: Byte, c: Byte) returns (r: Decoder)
    requires 0 <= v < WORD && q == Decoder(ShiftIn(v, a % 4 * 16 + b / 16), -4, out + [a], false)
    ensures DecoderOk(q) && r == DecodeStep(DecodeStep(q, CharOf(b % 16 * 4 + c / 64)), CharOf(c % 64))
    ensures AtStart(r, out + [a, b, c])
  {
    StepDigit(q, b % 16 * 4 + c / 64);
    var p := DecodeStep(q, CharOf(b % 16 * 4 + c / 64));
    SecondByte(v, b, a % 4, c / 64);
    StepDigit(p, c % 64);
    r := DecodeStep(p, CharOf(c % 64));
    ThirdByte(q.val, c, b % 16);
    assert r.out == out + [a] + [b] + [c] == out + [a, b, c];
  }

  /** A full group yields its three bytes and returns to the start of a group. */
  lemma DecodeGroup3(s: Decoder, out: Text, a: Byte, b: Byte, c: Byte, rest: Text) returns (r: Decoder)
    requires AtStart(s, out)
    ensures AtStart(r, out + [a, b, c])
    ensures DecodeRun(s, Group3(a, b, c) + rest) == DecodeRun(r, rest)
  {
    var text := Group3(a, b, c) + rest;
    var q := DecodeFirst(s, out, a, b / 16);
    r := DecodeLast(q, out, ShiftIn(s.val, a / 4), a, b, c);
    RunTwo(s, text);
    RunTwo(q, text[2..]);
    assert text[2..][2..] == rest;
  }

  lemma {:induction false} DecodeGroup1(s: Decoder, out: Text, a: Byte)
    requires AtStart(s, out)
    ensures DecodeRun(s, Group1(a)).out == out + [a]
  {
    var r := DecodeFirst(s, out, a, 0);
    RunTwo(s, Group1(a));
    StoppedStays(r.(stopped := true), Group1(a)[2..][1..]);
  }

  lemma {:induction false} DecodeGroup2(s: Decoder, out: Text, a: Byte, b: Byte)
    requires AtStart(s, out)
    ensures DecodeRun(s, Group2(a, b)).out == out + [a, b]
  {
    var text := Group2(a, b);
    var q := DecodeFirst(s, out, a, b / 16);
    StepDigit(q, b % 16 * 4);
    var p := DecodeStep(q, text[2]);
    SecondByte(ShiftIn(s.val, a / 4), b, a % 4, 0);
    assert p.out == out + [a] + [b] == out + [a, b];
    RunTwo(s, text);
    RunTwo(q, text[2..]);
    assert DecodeStep(p, PAD) == p.(stopped := true);
    StoppedStays(p.(stopped := true), text[2..][2..]);
  }

  lemma {:induction false} DecodeEncoded(s: Decoder, out: Text, data: Text)
    requires AtStart(s, out)
    ensures DecodeRun(s, Encode(data)).out == out + data
    decreases |data|
  {
    if |data| == 0 {
      assert out + data == out;
    } else if |data| == 1 {
      DecodeGroup1(s, out, data[0]);
      assert data == [data[0]];
    } else if |data| == 2 {
      DecodeGroup2(s, out, data[0], data[1]);
      assert data == [data[0], data[1]];
    } else {
      var first := [data[0], data[1], data[2]];
      var r := DecodeGroup3(s, out, data[0], data[1], data[2], Encode(data[3..]));
      DecodeEncoded(r, out + first, data[3..]);
      SplitThree(out, data);
    }
  }

  lemma SplitThree(out: Text, data: Text)
    requires |data| >= 3
    ensures out + data == out + [data[0], data[1], data[2]] + data[3..]
  {
  }

  /** Decoding an encoding gives back every byte sequence, of any length. */
  lemma {:induction false} Base64RoundTrip(data: Text)
    ensures Decode(Encode(data)) == data
  {
    DecodeEncoded(Decoder(0, -8, [], false), [], data);
    assert [] + data == data;
  }

  // ----- cipher and encryptor -----

  function Pow2(k: nat): (p: nat)
    ensures p > 0
  {
    if k == 0 then 1 else 2 * Pow2(k - 1)
  }

  /** Exclusive or of the low k bits. */
  function XorBits(a: nat, b: nat, k: nat): (r: nat)
    ensures r < Pow2(k)
    decreases k
  {
    if k == 0 then 0 else (if a % 2 == b % 2 then 0 else 1) + 2 * XorBits(a / 2, b / 2, k - 1)
  }

  function Xor(a: Byte, b: Byte): Byte {
    assert Pow2(8) == 256 by { assert Pow2(4) == 16; assert Pow2(8) == 16 * Pow2(4); }
    XorBits(a, b, 8)
  }

  lemma {:induction false} XorBitsTwice(a: nat, b: nat, k: nat)
    requires a < Pow2(k)
    ensures XorBits(XorBits(a, b, k), b, k) == a
    decreases k
  {
    if k > 0 {
      var bit, rest := if a % 2 == b % 2 then 0 else 1, XorBits(a / 2, b / 2, k - 1);
      Arithmetic.DivModUnique(bit + 2 * rest, 2, rest, bit);
      XorBitsTwice(a / 2, b / 2, k - 1);
    }
  }

  lemma XorTwice(a: Byte, b: Byte)
    ensures Xor(Xor(a, b), b) == a
  {
    assert Pow2(8) == 256 by { assert Pow2(4) == 16; assert Pow2(8) == 16 * Pow2(4); }
    XorBitsTwice(a, b, 8);
  }

  /** Bit i of a number. */
  ghost predicate Bit(x: nat, i: nat) { x / Pow2(i) % 2 == 1 }

  lemma {:induction false} HalfBit(x: nat, i: nat)
    requires i > 0
    ensures Bit(x, i) <==> Bit(x / 2, i - 1)
  {
    Arithmetic.DivDiv(x, 2, Pow2(i - 1));
  }

  lemma {:induction false} XorBitsAt(a: nat, b: nat, k: nat, i: nat)
    requires i < k
    ensures Bit(XorBits(a, b, k), i) <==> Bit(a, i) != Bit(b, i)
    decreases k
  {
    var bit, rest := if a % 2 == b % 2 then 0 else 1, XorBits(a / 2, b / 2, k - 1);
    Arithmetic.DivModUnique(bit + 2 * rest, 2, rest, bit);
    if i == 0 {
      assert Pow2(0) == 1;
    } else {
      HalfBit(bit + 2 * rest, i);
      HalfBit(a, i);
      HalfBit(b, i);
      XorBitsAt(a / 2, b / 2, k - 1, i - 1);
    }
  }

  /** Exclusive or, bit by bit. */
  lemma {:induction false} XorIs(a: Byte, b: Byte, i: nat)
    requires i < 8
    ensures Bit(Xor(a, b), i) <==> Bit(a, i) != Bit(b, i)
  {
    XorBitsAt(a, b, 8, i);
  }

  function Cipher(data: Text, key: Text): (r: Text)
    ensures |r| == |data|
  {
    if key == [] then data
    else seq(|data|, i requires 0 <= i < |data| => Xor(data[i], key[i % |key|]))
  }

  method XorCipher(data: Text, key: Text) returns (out: Text)
    ensures out == Cipher(data, key)
  {
    if |key| == 0 {
      return data;
    }
    out := [];
    for i := 0 to |data|
      invariant |out| == i && forall j :: 0 <= j < i ==> out[j] == Xor(data[j], key[j % |key|])
    {
      out := out + [Xor(data[i], key[i % |key|])];
    }
  }

  lemma CipherTwice(data: Text, key: Text)
    ensures Cipher(Cipher(data, key), key) == data
  {
    if key != [] {
      forall i | 0 <= i < |data|
        ensures Cipher(Cipher(data, key), key)[i] == data[i]
      {
        XorTwice(data[i], key[i % |key|]);
      }
    }
  }

  /** deriveKey: 32 bytes from a non-empty master string. */
  function DeriveKey(master: Text): (key: Text)
    ensures |key| == if master == [] then 0 else 32
  {
    if master == [] then []
    else seq(32, i requires 0 <= i < 32 => Xor(master[i % |master|], i * 0x9E3779B9 % 256))
  }

  /** Bit j of byte i of the derived key is that bit of the master string, repeated, flipped where
      i times 185 has it. */
  lemma {:induction false} KeyBits(master: Text, i: nat, j: nat)
    requires master != [] && i < 32 && j < 8
    ensures Bit(DeriveKey(master)[i], j) <==> Bit(master[i % |master|], j) != Bit(i * 185 % 256, j)
  {
    var high := 0x9E3779B9 / 256;
    assert 0x9E3779B9 == high * 256 + 185;
    assert i * 0x9E3779B9 == (i * high) * 256 + i * 185;
    Arithmetic.DivModUnique(i * 0x9E3779B9, 256, i * high + i * 185 / 256, i * 185 % 256);
    XorIs(master[i % |master|], i * 185 % 256, j);
  }

  /** Master strings of the same length, up to 32 bytes, have different keys if they differ. */
  lemma {:induction false} KeysDiffer(m: Text, n: Text)
    requires |m| == |n| <= 32 && DeriveKey(m) == DeriveKey(n)
    ensures m == n
  {
    forall i | 0 <= i < |m|
      ensures m[i] == n[i]
    {
      Arithmetic.DivModUnique(i, |m|, 0, i);
      var x := i * 0x9E3779B9 % 256;
      assert DeriveKey(m)[i] == Xor(m[i], x) && DeriveKey(n)[i] == Xor(n[i], x);
      XorTwice(m[i], x);
      XorTwice(n[i], x);
    }
  }

  /** ApiKeyEncryptor: without a master key it stores text as it is. */
  method Encrypt(master: Text, plain: Text) returns (text: Text)
    ensures text == if master == [] then plain else Encode(Cipher(plain, DeriveKey(master)))
  {
    var key := DeriveKey(master);
    if |key| == 0 {
      return plain;
    }
    var data := XorCipher(plain, key);
    text := Base64Encode(data);
  }

  method Decrypt(master: Text, text: Text) returns (plain: Text)
    ensures plain == if master == [] then text else Cipher(Decode(text), DeriveKey(master))
  {
    var key := DeriveKey(master);
    if |key| == 0 {
      return text;
    }
    var data := Base64Decode(text);
    plain := XorCipher(data, key);
  }

  /** What is encrypted decrypts to itself, for every plaintext and every master key. */
  method EncryptThenDecrypt(master: Text, plain: Text) returns (back: Text)
    ensures back == plain
  {
    var text := Encrypt(master, plain);
    back := Decrypt(master, text);
    Base64RoundTrip(Cipher(plain, DeriveKey(master)));
    CipherTwice(plain, DeriveKey(master));
  }
}
