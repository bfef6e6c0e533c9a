/** The unpadded Base32 codec of authenticator secrets, in 32-bit arithmetic; section 6 of RFC 4648. */
module Base32 {
  import Texts

  const ALPHABET := "ABCDEFGHIJKLMNOPQRSTUVWXYZ234567"

  function Symbol(digit: bv5): char { ALPHABET[digit as nat] }

  predicate InAlphabet(c: char) { 'A' <= c <= 'Z' || '2' <= c <= '7' }

  function Digit(c: char): bv5
    requires InAlphabet(c)
  {
    if c <= '7' then (c as int - '2' as int + 26) as bv5 else (c as int - 'A' as int) as bv5
  }

  /** The alphabet in order: the letters A to Z stand for 0 to 25, and the digits 2 to 7 for 26 to 31. */
  lemma AlphabetExactly(c: char)
    ensures InAlphabet(c) <==> 65 <= c as nat <= 90 || 50 <= c as nat <= 55
    ensures 65 <= c as nat <= 90 ==> Digit(c) as nat == c as nat - 65
    ensures 50 <= c as nat <= 55 ==> Digit(c) as nat == 26 + c as nat - 50
  {
  }

  predicate Plain(text: string) { forall i :: 0 <= i < |text| ==> InAlphabet(text[i]) }

  function Unpadded(s: string): string { if s != "" && s[|s| - 1] == '=' then Unpadded(s[..|s| - 1]) else s }

  function Kept(s: string): (r: string)
    ensures Plain(r) && (Plain(s) ==> r == s)
  {
    if s == "" then "" else if InAlphabet(s[0]) then [s[0]] + Kept(s[1..]) else Kept(s[1..])
  }

  /** Upper case, without padding and without anything that is not in the alphabet. */
  function Normalized(input: string): (r: string)
    ensures Plain(r)
  {
    Kept(Unpadded(Texts.UpperAll(input)))
  }

  // ---- bits ---------------------------------------------------------------------------------------

  predicate Bit(v: bv32, i: nat)
    requires i < 32
  {
    (v >> i) & 1 == 1
  }

  /** The n low bits of a word, the highest of them first. */
  function Low(v: bv32, n: nat): (bits: seq<bool>)
    requires n <= 32
    ensures |bits| == n && forall i :: 0 <= i < n ==> bits[i] == Bit(v, n - 1 - i)
  {
    seq(n, i requires 0 <= i < n => Bit(v, n - 1 - i))
  }

  function ByteBits(bytes: seq<bv8>): (bits: seq<bool>)
    ensures |bits| == 8 * |bytes|
  {
    if bytes == [] then [] else ByteBits(bytes[..|bytes| - 1]) + Low(bytes[|bytes| - 1] as bv32, 8)
  }

  function TextBits(text: string): (bits: seq<bool>)
    requires Plain(text)
    ensures |bits| == 5 * |text|
  {
    if text == "" then [] else TextBits(text[..|text| - 1]) + Low(Digit(text[|text| - 1]) as bv32, 5)
  }

  function Zeros(n: nat): seq<bool> { seq(n, i => false) }

  /** The text spells the bits of the bytes, filled up with zeros to a whole digit. */
  ghost predicate Encodes(bytes: seq<bv8>, text: string)
  {
    Plain(text) && 8 * |bytes| <= 5 * |text| < 8 * |bytes| + 5 &&
        TextBits(text) == ByteBits(bytes) + Zeros(5 * |text| - 8 * |bytes|)
  }

  /** The bytes are those that the bits of the text fill. */
  ghost predicate Decodes(text: string, bytes: seq<bv8>)
    requires Plain(text)
  {
    8 * |bytes| <= 5 * |text| < 8 * |bytes| + 8 && ByteBits(bytes) == TextBits(text)[..8 * |bytes|]
  }

  // ---- the codec as it runs -------------------------------------------------------------------------

  /** The accumulator is never masked: its old bits fall off at the top of the 32-bit word. */
  method EncodeBase32(buffer: seq<bv8>) returns (output: string)
    ensures Encodes(buffer, output)
  {
    hide Bit, Digit, Symbol, Low, TextBits, ByteBits;
    var bits: nat := 0;
    var value: bv32 := 0;
    output := "";
    NoBits(value);
    var i := 0;
    while i < |buffer|
      invariant 0 <= i <= |buffer| && bits < 5 && Plain(output)
      invariant TextBits(output) + Low(value, bits) == ByteBits(buffer[..i])
    {
      ByteIn(buffer, i, TextBits(output), value, bits);
      value := (value << 8) | buffer[i] as bv32;
      bits := bits + 8;
      while bits >= 5
        invariant bits <= 12 && Plain(output)
        invariant TextBits(output) + Low(value, bits) == ByteBits(buffer[..i + 1])
      {
        var digit := ((value >> (bits - 5)) & 31) as bv5;
        DigitOut(output, value, bits);
        output := output + [Symbol(digit)];
        bits := bits - 5;
      }
      i := i + 1;
    }
    assert buffer[..i] == buffer;
    if bits > 0 {
      var digit := ((value << (5 - bits)) & 31) as bv5;
      LastDigitOut(output, value, bits);
      output := output + [Symbol(digit)];
    }
  }

  method DecodeBase32(input: string) returns (bytes: seq<bv8>)
    ensures Decodes(Normalized(input), bytes)
  {
    hide Bit, Digit, Symbol, Normalized, Low, TextBits, ByteBits;
    var normalized := Normalized(input);
    var bits: nat := 0;
    var value: bv32 := 0;
    bytes := [];
    NoBits(value);
    var i := 0;
    while i < |normalized|
      invariant 0 <= i <= |normalized| && bits < 8
      invariant ByteBits(bytes) + Low(value, bits) == TextBits(normalized[..i])
    {
      var digit := Digit(normalized[i]);
      DigitIn(normalized, i, ByteBits(bytes), value, bits);
      value := (value << 5) | digit as bv32;
      bits := bits + 5;
      if bits >= 8 {
        var byte := ((value >> (bits - 8)) & 0xff) as bv8;
        ByteOut(bytes, value, bits);
        bytes := bytes + [byte];
        bits := bits - 8;
      }
      i := i + 1;
    }
    assert normalized[..i] == normalized;
  }

  // ---- the steps of the loops ---------------------------------------------------------------------------

  lemma NoBits(value: bv32)
    ensures TextBits("") == ByteBits([]) == Low(value, 0) == []
  {
  }

  lemma ByteIn(buffer: seq<bv8>, i: nat, before: seq<bool>, value: bv32, bits: nat)
    requires i < |buffer| && bits < 5 && before + Low(value, bits) == ByteBits(buffer[..i])
    ensures before + Low((value << 8) | buffer[i] as bv32, bits + 8) == ByteBits(buffer[..i + 1])
  {
    hide Bit, Low, ByteBits;
    ShiftIn8(value, buffer[i] as bv32, bits);
    NextByteBits(buffer, i);
    Regroup(before, Low(value, bits), Low(buffer[i] as bv32, 8));
  }

  lemma Regroup(a: seq<bool>, b: seq<bool>, c: seq<bool>)
    ensures (a + b) + c == a + (b + c)
  {
  }

  lemma NextByteBits(buffer: seq<bv8>, i: nat)
    requires i < |buffer|
    ensures ByteBits(buffer[..i + 1]) == ByteBits(buffer[..i]) + Low(buffer[i] as bv32, 8)
  {
    hide Bit, Low;
    assert buffer[..i + 1][..i] == buffer[..i];
  }

  lemma NextTextBits(text: string, i: nat)
    requires Plain(text) && i < |text|
    ensures TextBits(text[..i + 1]) == TextBits(text[..i]) + Low(Digit(text[i]) as bv32, 5)
  {
    hide Bit, Low, Digit;
    assert text[..i + 1][..i] == text[..i];
  }

  lemma DigitOut(output: string, value: bv32, bits: nat)
    requires Plain(output) && 5 <= bits <= 12
    ensures var next := output + [Symbol(((value >> (bits - 5)) & 31) as bv5)];
      Plain(next) && TextBits(next) + Low(value, bits - 5) == TextBits(output) + Low(value, bits)
  {
    hide Bit, Low, Digit, Symbol;
    var digit := ((value >> (bits - 5)) & 31) as bv5;
    TakeOut5(value, bits);
    SymbolDigit(digit);
    assert (output + [Symbol(digit)])[..|output|] == output;
  }

  lemma LastDigitOut(output: string, value: bv32, bits: nat)
    requires Plain(output) && 0 < bits < 5
    ensures var next := output + [Symbol(((value << (5 - bits)) & 31) as bv5)];
      Plain(next) && TextBits(next) == TextBits(output) + Low(value, bits) + Zeros(5 - bits)
  {
    hide Bit, Low, Digit, Symbol;
    var digit := ((value << (5 - bits)) & 31) as bv5;
    FillUp(value, bits);
    SymbolDigit(digit);
    assert (output + [Symbol(digit)])[..|output|] == output;
  }

  lemma DigitIn(text: string, i: nat, before: seq<bool>, value: bv32, bits: nat)
    requires Plain(text) && i < |text| && bits < 8 && before + Low(value, bits) == TextBits(text[..i])
    ensures before + Low((value << 5) | Digit(text[i]) as bv32, bits + 5) == TextBits(text[..i + 1])
  {
    hide Bit, Low, Digit, TextBits;
    ShiftIn5(value, Digit(text[i]) as bv32, bits);
    NextTextBits(text, i);
    Regroup(before, Low(value, bits), Low(Digit(text[i]) as bv32, 5));
  }

  lemma ByteOut(bytes: seq<bv8>, value: bv32, bits: nat)
    requires 8 <= bits <= 12
    ensures ByteBits(bytes + [((value >> (bits - 8)) & 0xff) as bv8]) + Low(value, bits - 8) ==
            ByteBits(bytes) + Low(value, bits)
  {
    hide Bit, Low;
    TakeOut8(value, bits);
    assert (bytes + [((value >> (bits - 8)) & 0xff) as bv8])[..|bytes|] == bytes;
  }

  // ---- words and their bits ---------------------------------------------------------------------------

  lemma ShiftIn8(v: bv32, byte: bv32, n: nat)
    requires n < 5 && byte < 256
    ensures Low((v << 8) | byte, n + 8) == Low(v, n) + Low(byte, 8)
  {
    hide Bit;
    var shifted, apart := Low((v << 8) | byte, n + 8), Low(v, n) + Low(byte, 8);
    forall i | 0 <= i < n + 8 ensures shifted[i] == apart[i] { ShiftIn8At(v, byte, n + 7 - i); }
  }

  lemma ShiftIn8At(v: bv32, byte: bv32, i: nat)
    requires i < 12 && byte < 256
    ensures Bit((v << 8) | byte, i) == if i < 8 then Bit(byte, i) else Bit(v, i - 8)
  {
    if i == 0 {} else if i == 1 {} else if i == 2 {} else if i == 3 {} else if i == 4 {} else if i == 5 {}
    else if i == 6 {}
    else if i == 7 {} else if i == 8 {} else if i == 9 {} else if i == 10 {} else {}
  }

  lemma ShiftIn5(v: bv32, digit: bv32, n: nat)
    requires n < 8 && digit < 32
    ensures Low((v << 5) | digit, n + 5) == Low(v, n) + Low(digit, 5)
  {
    hide Bit;
    var shifted, apart := Low((v << 5) | digit, n + 5), Low(v, n) + Low(digit, 5);
    forall i | 0 <= i < n + 5 ensures shifted[i] == apart[i] { ShiftIn5At(v, digit, n + 4 - i); }
  }

  lemma ShiftIn5At(v: bv32, digit: bv32, i: nat)
    requires i < 12 && digit < 32
    ensures Bit((v << 5) | digit, i) == if i < 5 then Bit(digit, i) else Bit(v, i - 5)
  {
    if i == 0 {} else if i == 1 {} else if i == 2 {} else if i == 3 {} else if i == 4 {} else if i == 5 {}
    else if i == 6 {}
    else if i == 7 {} else if i == 8 {} else if i == 9 {} else if i == 10 {} else {}
  }

  lemma TakeOut5(v: bv32, n: nat)
    requires 5 <= n <= 12
    ensures Low(v, n) == Low((v >> (n - 5)) & 31, 5) + Low(v, n - 5)
  {
    hide Bit;
    var whole, apart := Low(v, n), Low((v >> (n - 5)) & 31, 5) + Low(v, n - 5);
    forall i | 0 <= i < n ensures whole[i] == apart[i] { if i < 5 { TakeOut5At(v, n, 4 - i); } }
  }

  lemma TakeOut5At(v: bv32, n: nat, i: nat)
    requires 5 <= n <= 12 && i < 5
    ensures Bit((v >> (n - 5)) & 31, i) == Bit(v, n - 5 + i)
  {
    if i == 0 {} else if i == 1 {} else if i == 2 {} else if i == 3 {} else {}
  }

  lemma TakeOut8(v: bv32, n: nat)
    requires 8 <= n <= 12
    ensures Low(v, n) == Low((v >> (n - 8)) & 0xff, 8) + Low(v, n - 8)
  {
    hide Bit;
    var whole, apart := Low(v, n), Low((v >> (n - 8)) & 0xff, 8) + Low(v, n - 8);
    forall i | 0 <= i < n ensures whole[i] == apart[i] { if i < 8 { TakeOut8At(v, n, 7 - i); } }
  }

  lemma TakeOut8At(v: bv32, n: nat, i: nat)
    requires 8 <= n <= 12 && i < 8
    ensures Bit((v >> (n - 8)) & 0xff, i) == Bit(v, n - 8 + i)
  {
    if i == 0 {} else if i == 1 {} else if i == 2 {} else if i == 3 {} else if i == 4 {} else if i == 5 {}
    else if i == 6 {} else {}
  }

  lemma FillUp(v: bv32, n: nat)
    requires 0 < n < 5
    ensures Low((v << (5 - n)) & 31, 5) == Low(v, n) + Zeros(5 - n)
  {
    hide Bit;
    var filled, apart := Low((v << (5 - n)) & 31, 5), Low(v, n) + Zeros(5 - n);
    forall i | 0 <= i < 5 ensures filled[i] == apart[i] { FillUpAt(v, n, 4 - i); }
  }

  lemma FillUpAt(v: bv32, n: nat, i: nat)
    requires 0 < n < 5 && i < 5
    ensures Bit((v << (5 - n)) & 31, i) == (i >= 5 - n && Bit(v, i - (5 - n)))
  {
    if n == 1 {} else if n == 2 {} else if n == 3 {} else {}
  }

  lemma SymbolDigit(d: bv5)
    ensures InAlphabet(Symbol(d)) && Digit(Symbol(d)) == d
  {
    if d < 8 {
      if d == 0 {} else if d == 1 {} else if d == 2 {} else if d == 3 {} else if d == 4 {} else if d == 5 {}
      else if d == 6 {} else {}
    } else if d < 16 {
      if d == 8 {} else if d == 9 {} else if d == 10 {} else if d == 11 {} else if d == 12 {} else if d == 13 {}
      else if d == 14 {} else {}
    } else if d < 24 {
      if d == 16 {} else if d == 17 {} else if d == 18 {} else if d == 19 {} else if d == 20 {} else if d == 21 {}
      else if d == 22 {} else {}
    } else {
      if d == 24 {} else if d == 25 {} else if d == 26 {} else if d == 27 {} else if d == 28 {} else if d == 29 {}
      else if d == 30 {} else {}
    }
  }

  // ---- main results -----------------------------------------------------------------------------------

  lemma SameByte(a: bv32, b: bv32)
    requires a < 256 && b < 256 && Low(a, 8) == Low(b, 8)
    ensures a == b
  {
    forall i | 0 <= i < 8 ensures Bit(a, i) == Bit(b, i) { assert Low(a, 8)[7 - i] == Low(b, 8)[7 - i]; }
    assert Bit(a, 0) == Bit(b, 0) && Bit(a, 1) == Bit(b, 1) && Bit(a, 2) == Bit(b, 2) && Bit(a, 3) == Bit(b, 3);
    assert Bit(a, 4) == Bit(b, 4) && Bit(a, 5) == Bit(b, 5) && Bit(a, 6) == Bit(b, 6) && Bit(a, 7) == Bit(b, 7);
  }

  lemma SameDigit(a: bv32, b: bv32)
    requires a < 32 && b < 32 && Low(a, 5) == Low(b, 5)
    ensures a == b
  {
    forall i | 0 <= i < 5 ensures Bit(a, i) == Bit(b, i) { assert Low(a, 5)[4 - i] == Low(b, 5)[4 - i]; }
    assert Bit(a, 0) == Bit(b, 0) && Bit(a, 1) == Bit(b, 1) && Bit(a, 2) == Bit(b, 2) && Bit(a, 3) == Bit(b, 3) &&
        Bit(a, 4) == Bit(b, 4);
  }

  lemma DigitSymbol(c: char)
    requires InAlphabet(c)
    ensures Symbol(Digit(c)) == c
  {
    if c < 'A' { LowDigit(c); } else if c < 'N' { EarlyLetter(c); } else { LateLetter(c); }
  }

  lemma LowDigit(c: char)
    requires '2' <= c <= '7'
    ensures Symbol(Digit(c)) == c
  {
    if c == '2' {} else if c == '3' {} else if c == '4' {} else if c == '5' {} else if c == '6' {} else {}
  }

  lemma EarlyLetter(c: char)
    requires 'A' <= c <= 'M'
    ensures Symbol(Digit(c)) == c
  {
    if c == 'A' {} else if c == 'B' {} else if c == 'C' {} else if c == 'D' {} else if c == 'E' {} else if c == 'F' {}
    else if c == 'G' {}
    else if c == 'H' {} else if c == 'I' {} else if c == 'J' {} else if c == 'K' {} else if c == 'L' {} else {}
  }

  lemma LateLetter(c: char)
    requires 'N' <= c <= 'Z'
    ensures Symbol(Digit(c)) == c
  {
    if c == 'N' {} else if c == 'O' {} else if c == 'P' {} else if c == 'Q' {} else if c == 'R' {} else if c == 'S' {}
    else if c == 'T' {}
    else if c == 'U' {} else if c == 'V' {} else if c == 'W' {} else if c == 'X' {} else if c == 'Y' {} else {}
  }

  /** Bytes are determined by their bits. */
  lemma {:induction false} SameBytes(a: seq<bv8>, b: seq<bv8>)
    requires ByteBits(a) == ByteBits(b)
    ensures a == b
  {
    hide Low;
    assert |a| == |b|;
    if a != [] {
      var n := |a| - 1;
      LastBits(ByteBits(a[..n]), Low(a[n] as bv32, 8), ByteBits(b[..n]), Low(b[n] as bv32, 8));
      SameByte(a[n] as bv32, b[n] as bv32);
      SameBytes(a[..n], b[..n]);
    }
  }

  lemma LastBits(a: seq<bool>, x: seq<bool>, b: seq<bool>, y: seq<bool>)
    requires a + x == b + y && |x| == |y|
    ensures a == b && x == y
  {
    assert a == (a + x)[..|a|] == (b + y)[..|a|] == b;
    assert x == (a + x)[|a|..] == (b + y)[|a|..] == y;
  }

  /** And so are texts over the alphabet. */
  lemma {:induction false} SameText(a: string, b: string)
    requires Plain(a) && Plain(b) && TextBits(a) == TextBits(b)
    ensures a == b
  {
    hide Low, Digit, Symbol;
    assert |a| == |b|;
    if a != "" {
      var n := |a| - 1;
      LastBits(TextBits(a[..n]), Low(Digit(a[n]) as bv32, 5), TextBits(b[..n]), Low(Digit(b[n]) as bv32, 5));
      SameDigit(Digit(a[n]) as bv32, Digit(b[n]) as bv32);
      DigitSymbol(a[n]);
      DigitSymbol(b[n]);
      SameText(a[..n], b[..n]);
    }
  }

  /** The encoding of n bytes is one text, of 8n/5 characters rounded up. */
  lemma EncodingUnique(bytes: seq<bv8>, text: string, other: string)
    requires Encodes(bytes, text) && Encodes(bytes, other)
    ensures text == other && |text| == (8 * |bytes| + 4) / 5
  {
    assert |text| == |other|;
    SameText(text, other);
  }

  /** Decoding what was encoded gives the bytes back, whatever their number. */
  lemma RoundTrip(bytes: seq<bv8>, text: string, back: seq<bv8>)
    requires Encodes(bytes, text) && Decodes(Normalized(text), back)
    ensures back == bytes
  {
    PlainStays(text);
    assert |back| == |bytes|;
    assert ByteBits(bytes) == TextBits(text)[..8 * |bytes|];
    SameBytes(back, bytes);
  }

  lemma PlainStays(text: string)
    requires Plain(text)
    ensures Normalized(text) == text
  {
    assert Texts.UpperAll(text) == text;
  }

  predicate ZerosFrom(bits: seq<bool>, n: nat) { forall i :: n <= i < |bits| ==> !bits[i] }

  lemma PaddedExactly(bits: seq<bool>, n: nat)
    requires n <= |bits|
    ensures bits == bits[..n] + Zeros(|bits| - n) <==> ZerosFrom(bits, n)
  {
    var padded := bits[..n] + Zeros(|bits| - n);
    if bits == padded {
      forall i | n <= i < |bits| ensures !bits[i] { assert padded[i] == Zeros(|bits| - n)[i - n]; }
    }
  }

  /**
   * Encoding what was decoded from a text over the alphabet gives the text back exactly if its spare bits are zeros of
   * no whole digit.
   */
  lemma DecodedEncodesExactly(text: string, bytes: seq<bv8>, again: string)
    requires Plain(text) && Decodes(text, bytes) && Encodes(bytes, again)
    ensures again == text <==> 5 * |text| - 8 * |bytes| < 5 && ZerosFrom(TextBits(text), 8 * |bytes|)
  {
    hide TextBits, ByteBits, Zeros, Low, Bit, Digit, ZerosFrom;
    PaddedExactly(TextBits(text), 8 * |bytes|);
    if 5 * |text| - 8 * |bytes| < 5 && ZerosFrom(TextBits(text), 8 * |bytes|) {
      assert Encodes(bytes, text);
      EncodingUnique(bytes, text, again);
    }
  }

  /** On whole groups, of five bytes and eight characters, the two are inverse to each other. */
  lemma WholeGroups(text: string, bytes: seq<bv8>, again: string)
    requires Plain(text) && |text| % 8 == 0 && Decodes(text, bytes) && Encodes(bytes, again)
    ensures again == text && |bytes| % 5 == 0 && |bytes| * 8 == |text| * 5
  {
    hide TextBits, ByteBits;
    var q := |text| / 8;
    assert |bytes| == 5 * q;
    DecodedEncodesExactly(text, bytes, again);
  }

  /** A secret typed in small letters, with padding, is the same secret. */
  lemma {:induction false} TypedCarelessly(text: string, padding: nat)
    requires Plain(text)
    ensures Normalized(text + seq(padding, i => '=')) == text && Normalized(Texts.LowerAll(text)) == text
  {
    assert Texts.UpperAll(Texts.LowerAll(text)) == text;
    var padded := text + seq(padding, i => '=');
    assert Texts.UpperAll(padded) == padded;
    PaddingGone(text, padding);
  }

  lemma {:induction false} PaddingGone(text: string, padding: nat)
    requires Plain(text)
    ensures Unpadded(text + seq(padding, i => '=')) == text
  {
    var padded := text + seq(padding, i => '=');
    if padding > 0 {
      assert padded[..|padded| - 1] == text + seq(padding - 1, i => '=');
      PaddingGone(text, padding - 1);
    } else {
      assert padded == text;
    }
  }
}
