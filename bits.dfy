/**
 * Bit-level vocabulary shared by the link model: bit predicates, the
 * exclusive-or with 1 that the decoder applies to a numpy integer, the
 * MSB-first reading of a digit string as done by `int(text, 2)`, and small
 * facts about integer division that the window arithmetic needs.
 */
module Bits {

  predicate IsBit(x: int) {
    x == 0 || x == 1
  }

  predicate IsBits(s: seq<int>) {
    forall i :: 0 <= i < |s| ==> IsBit(s[i])
  }

  lemma BitsConcat(a: seq<int>, b: seq<int>)
    requires IsBits(a) && IsBits(b)
    ensures IsBits(a + b)
  {
    forall i | 0 <= i < |a + b| ensures IsBit((a + b)[i]) {
      if i >= |a| { assert (a + b)[i] == b[i - |a|]; }
    }
  }

  /**
   * `x ^ 1` on a Python integer: toggles the lowest bit of the two's
   * complement representation, for negative values too.
   */
  function Xor1(x: int): (r: int)
    ensures r % 2 != x % 2
    ensures r - x == 1 || x - r == 1
    ensures r / 2 == x / 2
  {
    if x % 2 == 0 then x + 1 else x - 1
  }

  lemma Xor1OnBit(b: int)
    requires IsBit(b)
    ensures IsBit(Xor1(b)) && Xor1(b) == 1 - b
  {
  }

  /** Value of a digit string read most significant digit first, base 2. */
  function FromBinary(digits: seq<int>): (v: int)
    requires IsBits(digits)
    ensures 0 <= v < Pow2(|digits|)
    decreases |digits|
  {
    if |digits| == 0 then 0
    else FromBinary(digits[..|digits| - 1]) * 2 + digits[|digits| - 1]
  }

  function Pow2(k: nat): (p: nat)
    ensures p >= 1
  {
    if k == 0 then 1 else 2 * Pow2(k - 1)
  }

  /** Leading zeros do not change the value: `int('00101', 2) == int('101', 2)`. */
  lemma {:induction false} FromBinaryLeadingZeros(z: nat, digits: seq<int>)
    requires IsBits(digits)
    ensures IsBits(Zeros(z) + digits)
    ensures FromBinary(Zeros(z) + digits) == FromBinary(digits)
    decreases |digits|
  {
    var s := Zeros(z) + digits;
    assert IsBits(s) by {
      forall i | 0 <= i < |s| ensures IsBit(s[i]) {
        if i >= z { assert s[i] == digits[i - z]; }
      }
    }
    if |digits| == 0 {
      assert s == Zeros(z);
      ZerosValue(z);
    } else {
      var init := digits[..|digits| - 1];
      assert s[..|s| - 1] == Zeros(z) + init;
      FromBinaryLeadingZeros(z, init);
    }
  }

  function Zeros(z: nat): (s: seq<int>)
    ensures |s| == z && IsBits(s)
    ensures forall i :: 0 <= i < z ==> s[i] == 0
  {
    seq(z, _ => 0)
  }

  lemma {:induction false} ZerosValue(z: nat)
    ensures FromBinary(Zeros(z)) == 0
  {
    if z > 0 {
      assert Zeros(z)[..z - 1] == Zeros(z - 1);
      ZerosValue(z - 1);
    }
  }

  /** Euclidean division is determined by quotient and remainder. */
  lemma DivUnique(a: int, n: int, q: int, r: int)
    requires n > 0 && 0 <= r < n && a == q * n + r
    ensures a / n == q && a % n == r
  {
    var q', r' := a / n, a % n;
    assert a == q' * n + r';
    assert (q + 1) * n == q * n + n;
    assert (q' + 1) * n == q' * n + n;
    if q' > q {
      MulLe(q + 1, q', n);
    } else if q' < q {
      MulLe(q' + 1, q, n);
    }
  }

  lemma MulLe(a: int, b: int, n: int)
    requires a <= b && n >= 0
    ensures a * n <= b * n
  {
  }

  /** i * n by repeated addition: where symbol i starts. */
  function Offset(i: nat, n: nat): (off: nat)
  {
    if i == 0 then 0 else Offset(i - 1, n) + n
  }

  lemma {:induction false} OffsetIsProduct(i: nat, n: nat)
    ensures Offset(i, n) == i * n
  {
    if i > 0 {
      OffsetIsProduct(i - 1, n);
      assert i * n == (i - 1) * n + n;
    }
  }

  /** The number of whole windows of width n in a buffer of length len. */
  lemma WindowCount(len: nat, n: nat, i: nat)
    requires n > 0 && i < len / n
    ensures (i + 1) * n <= len
    ensures (i + 1) * n == i * n + n
  {
    MulLe(i + 1, len / n, n);
    assert (len / n) * n <= len;
  }

  /** Past a whole block that starts before the end of a whole number of blocks, another block fits. */
  lemma NextBlockFits(i: int, n: int, k: int)
    requires k > 0 && 0 <= i < n && i % k == 0 && n % k == 0
    ensures i + k <= n && (n - (i + k)) % k == 0
  {
    var a, b := i / k, n / k;
    assert i == a * k && n == b * k;
    if a >= b { MulLe(b, a, k); }
    MulLe(a + 1, b, k);
    assert (a + 1) * k == a * k + k;
    assert (b - a - 1) * k == b * k - a * k - k;
    DivUnique(n - (i + k), k, b - a - 1, 0);
  }
}
