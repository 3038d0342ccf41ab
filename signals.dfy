/**
 * text_to_binary of CommX/signals.py: every character contributes
 * `format(ord(c), '08b')`, the binary numeral of its code point, most
 * significant digit first, padded on the left with zeros to at least eight
 * digits; the digits of all characters are concatenated and read as
 * integers.
 */
module Signals {
  import opened Bits

  /** `format(v, 'b')`: the binary numeral of v, without leading zeros ("0" for 0). */
  function Binary(v: nat): (digits: seq<int>)
    ensures IsBits(digits) && |digits| >= 1
    ensures FromBinary(digits) == v
    ensures v > 0 ==> digits[0] == 1
    decreases v
  {
    if v < 2 then [v]
    else
      var high := Binary(v / 2);
      assert (high + [v % 2])[..|high|] == high;
      high + [v % 2]
  }

  /**
   * `format(ord(c), '08b')`: the minimum width is 8, so nothing is ever cut
   * off, and zeros are added only to reach that width.
   */
  function CharBits(c: char): (bits: seq<int>)
    ensures IsBits(bits) && |bits| >= 8
    ensures FromBinary(bits) == c as int
    ensures |bits| > 8 ==> bits[0] == 1
  {
    var digits := Binary(c as int);
    if |digits| < 8 then
      FromBinaryLeadingZeros(8 - |digits|, digits);
      Zeros(8 - |digits|) + digits
    else digits
  }

  /** text_to_binary: the digits of every character, in order. */
  function TextToBinary(text: string): (bits: seq<int>)
    ensures IsBits(bits)
    decreases |text|
  {
    if |text| == 0 then []
    else
      var head, tail := CharBits(text[0]), TextToBinary(text[1..]);
      BitsConcat(head, tail);
      head + tail
  }

  /** Every character fits eight digits. */
  predicate Latin1(text: string) {
    forall i :: 0 <= i < |text| ==> text[i] as int < 256
  }

  lemma Latin1Concat(a: string, b: string)
    requires Latin1(a) && Latin1(b)
    ensures Latin1(a + b)
  {
    forall i | 0 <= i < |a + b| ensures (a + b)[i] as int < 256 {
      if i >= |a| { assert (a + b)[i] == b[i - |a|]; }
    }
  }

  // ---------------------------------------------------------------------
  // Length of a character's digits

  lemma {:induction false} Pow2Monotone(a: nat, b: nat)
    requires a <= b
    ensures Pow2(a) <= Pow2(b)
    decreases b
  {
    if a < b {
      Pow2Monotone(a, b - 1);
    }
  }

  /** A numeral with a leading 1 is at least the weight of that digit. */
  lemma {:induction false} LeadingOne(digits: seq<int>)
    requires IsBits(digits) && |digits| >= 1 && digits[0] == 1
    ensures FromBinary(digits) >= Pow2(|digits| - 1)
    decreases |digits|
  {
    if |digits| > 1 {
      var init := digits[..|digits| - 1];
      assert init[0] == 1;
      LeadingOne(init);
    } else {
      assert digits[..0] == [];
    }
  }

  /** The numeral of v has at most k digits exactly when v < 2^k. */
  lemma BinaryFits(v: nat, k: nat)
    requires k >= 1
    ensures |Binary(v)| <= k <==> v < Pow2(k)
  {
    var digits := Binary(v);
    if |digits| <= k {
      Pow2Monotone(|digits|, k);
    } else {
      LeadingOne(digits);
      Pow2Monotone(k, |digits| - 1);
    }
  }

  /** A code point below 256 gives exactly eight digits; a larger one gives more. */
  lemma CharBitsLength(c: char)
    ensures |CharBits(c)| == 8 <==> c as int < 256
  {
    BinaryFits(c as int, 8);
    assert Pow2(8) == 256;
  }

  // ---------------------------------------------------------------------
  // Whole texts

  /** The digits of a concatenation are the concatenation of the digits. */
  lemma {:induction false} TextToBinaryConcat(a: string, b: string)
    ensures TextToBinary(a + b) == TextToBinary(a) + TextToBinary(b)
    decreases |a|
  {
    if |a| > 0 {
      assert (a + b)[0] == a[0] && (a + b)[1..] == a[1..] + b;
      TextToBinaryConcat(a[1..], b);
    } else {
      assert a + b == b;
    }
  }

  /** Eight digits per character when every code point is below 256. */
  lemma {:induction false} TextToBinaryLength(text: string)
    requires Latin1(text)
    ensures |TextToBinary(text)| == 8 * |text|
    decreases |text|
  {
    if |text| > 0 {
      CharBitsLength(text[0]);
      TextToBinaryLength(text[1..]);
    }
  }

  // ---------------------------------------------------------------------
  // Reading the digits back

  /** Eight digits read back as one character. */
  function ByteChar(byte: seq<int>): (c: char)
    requires |byte| == 8 && IsBits(byte)
    ensures c as int == FromBinary(byte) < 256
  {
    assert Pow2(8) == 256;
    FromBinary(byte) as char
  }

  /** The inverse of text_to_binary on eight-digit groups. */
  function BinaryToText(bits: seq<int>): (text: string)
    requires |bits| % 8 == 0 && IsBits(bits)
    ensures |text| == |bits| / 8 && Latin1(text)
    decreases |bits|
  {
    if |bits| == 0 then ""
    else
      var rest := BinaryToText(bits[8..]);
      Latin1Concat([ByteChar(bits[..8])], rest);
      [ByteChar(bits[..8])] + rest
  }

  /** Two bit strings of the same length with the same value are equal. */
  lemma {:induction false} FromBinaryInjective(a: seq<int>, b: seq<int>)
    requires IsBits(a) && IsBits(b) && |a| == |b| && FromBinary(a) == FromBinary(b)
    ensures a == b
    decreases |a|
  {
    if |a| > 0 {
      var k := |a| - 1;
      var x, y := FromBinary(a[..k]), FromBinary(b[..k]);
      assert 2 * x + a[k] == 2 * y + b[k];
      assert a[k] == b[k];
      FromBinaryInjective(a[..k], b[..k]);
      assert a == a[..k] + [a[k]] && b == b[..k] + [b[k]];
    }
  }

  /** Reading back the digits of a text whose code points are below 256 gives the text. */
  lemma {:induction false} TextRoundTrip(text: string)
    requires Latin1(text)
    ensures |TextToBinary(text)| % 8 == 0
    ensures BinaryToText(TextToBinary(text)) == text
    decreases |text|
  {
    GroupsOfEight(text);
    if |text| > 0 {
      var bits := TextToBinary(text);
      FirstGroup(text);
      TextRoundTrip(text[1..]);
      ByteOfChar(text[0]);
      ReadStep(bits);
      assert text == [text[0]] + text[1..];
    }
  }

  /** The digits of a text whose code points are below 256 form whole groups of eight. */
  lemma GroupsOfEight(text: string)
    requires Latin1(text)
    ensures |TextToBinary(text)| == 8 * |text| && |TextToBinary(text)| % 8 == 0
  {
    TextToBinaryLength(text);
    DivUnique(8 * |text|, 8, |text|, 0);
  }

  /** The first group of eight digits belongs to the first character, the rest to the others. */
  lemma FirstGroup(text: string)
    requires Latin1(text) && |text| > 0
    ensures |TextToBinary(text)| >= 8
    ensures TextToBinary(text)[..8] == CharBits(text[0])
    ensures TextToBinary(text)[8..] == TextToBinary(text[1..])
  {
    CharBitsLength(text[0]);
  }

  /** Reading whole groups: the first group gives the first character. */
  lemma ReadStep(bits: seq<int>)
    requires |bits| % 8 == 0 && IsBits(bits) && |bits| > 0
    ensures BinaryToText(bits) == [ByteChar(bits[..8])] + BinaryToText(bits[8..])
  {
  }

  /** The eight digits of a code point below 256 read back as that character. */
  lemma ByteOfChar(c: char)
    requires c as int < 256
    ensures |CharBits(c)| == 8 && ByteChar(CharBits(c)) == c
  {
    CharBitsLength(c);
  }

  /** Encoding the text read from whole groups of eight bits gives the bits back. */
  lemma {:induction false} BitsRoundTrip(bits: seq<int>)
    requires |bits| % 8 == 0 && IsBits(bits)
    ensures TextToBinary(BinaryToText(bits)) == bits
    decreases |bits|
  {
    if |bits| > 0 {
      var text := BinaryToText(bits);
      var c := ByteChar(bits[..8]);
      assert text[0] == c && text[1..] == BinaryToText(bits[8..]);
      CharBitsLength(c);
      FromBinaryInjective(CharBits(c), bits[..8]);
      BitsRoundTrip(bits[8..]);
      assert bits == bits[..8] + bits[8..];
    }
  }
}
