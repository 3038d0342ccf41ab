/**
 * The (7,4) block coder of CommX/error_correction.py.
 *
 * Encoding multiplies each 4-bit block by the generator matrix G over GF(2);
 * decoding computes the 3-bit syndrome of each 7-bit block with the matrix H,
 * reads it most significant bit first as a 1-based position, flips that bit
 * in the caller's buffer and keeps the first four bits.
 *
 * G and H below are the package's constants. They are not a matched pair:
 * H * G^T is not zero, so an uncorrupted codeword can have a nonzero
 * syndrome, and H's columns spell their positions least significant bit
 * first while the decoder reads the syndrome most significant bit first.
 * The lemmas at the end state what the code does with them.
 */
module Hamming {
  import opened Bits
  import opened Outcome

  const G: seq<seq<int>> :=
    [[1, 0, 0, 0, 1, 1, 0],
     [0, 1, 0, 0, 1, 0, 1],
     [0, 0, 1, 0, 0, 1, 1],
     [0, 0, 0, 1, 1, 1, 1]]

  const H: seq<seq<int>> :=
    [[1, 0, 1, 0, 1, 0, 1],
     [0, 1, 1, 0, 0, 1, 1],
     [0, 0, 0, 1, 1, 1, 1]]

  /** Sum of two bits modulo 2. */
  function Xor(a: int, b: int): int {
    (a + b) % 2
  }

  // ---------------------------------------------------------------------
  // Integer matrix products, as numpy's `@` computes them on int arrays

  /** Entry j of the row-vector product `v @ M`, summed over the first n rows. */
  function ColumnSum(v: seq<int>, M: seq<seq<int>>, j: nat, n: nat): int
    requires n <= |v| && n <= |M|
    requires forall i :: 0 <= i < n ==> j < |M[i]|
  {
    if n == 0 then 0 else ColumnSum(v, M, j, n - 1) + v[n - 1] * M[n - 1][j]
  }

  /** Entry k of the matrix-vector product `M @ v`, for `row == M[k]`, over the first n columns. */
  function RowSum(row: seq<int>, v: seq<int>, n: nat): int
    requires n <= |row| && n <= |v|
  {
    if n == 0 then 0 else RowSum(row, v, n - 1) + row[n - 1] * v[n - 1]
  }

  // ---------------------------------------------------------------------
  // One block

  /** `(block @ G) % 2` for a 4-element block. */
  function EncodeBlock(m: seq<int>): (c: seq<int>)
    requires |m| == 4
    ensures |c| == 7 && IsBits(c)
  {
    seq(7, j requires 0 <= j < 7 => ColumnSum(m, G, j, 4) % 2)
  }

  /** `(H @ block) % 2` for a 7-element block. */
  function Syndrome(r: seq<int>): (s: seq<int>)
    requires |r| == 7
    ensures |s| == 3 && IsBits(s)
  {
    seq(3, k requires 0 <= k < 3 => RowSum(H[k], r, |r|) % 2)
  }

  /** The syndrome read as a binary numeral, most significant bit first. */
  function ErrorPosition(r: seq<int>): (p: int)
    requires |r| == 7
    ensures 0 <= p <= 7
  {
    FromBinary(Syndrome(r))
  }

  /**
   * The block after the decoder's correction step: the bit at 1-based
   * position ErrorPosition(r) toggled, or the block itself when that is 0.
   */
  function CorrectBlock(r: seq<int>): (c: seq<int>)
    requires |r| == 7
    ensures |c| == 7
  {
    var p := ErrorPosition(r);
    if p != 0 then r[p - 1 := Xor1(r[p - 1])] else r
  }

  /**
   * Correction changes at most one bit of a block, the one at the syndrome's
   * position, and leaves the block as it was exactly when the syndrome is 0.
   */
  lemma CorrectBlockFlipsAtMostOne(r: seq<int>)
    requires |r| == 7
    ensures forall j :: 0 <= j < 7 && j != ErrorPosition(r) - 1 ==> CorrectBlock(r)[j] == r[j]
    ensures ErrorPosition(r) != 0 ==> CorrectBlock(r)[ErrorPosition(r) - 1] == Xor1(r[ErrorPosition(r) - 1])
    ensures CorrectBlock(r) == r <==> ErrorPosition(r) == 0
  {
    var p := ErrorPosition(r);
    if p != 0 {
      assert CorrectBlock(r)[p - 1] != r[p - 1];
    }
  }

  /** The four bits the decoder keeps from one received block. */
  function DecodeBlock(r: seq<int>): (m: seq<int>)
    requires |r| == 7
    ensures |m| == 4
  {
    CorrectBlock(r)[..4]
  }

  // ---------------------------------------------------------------------
  // Whole sequences, block after block

  /**
   * The encoder's output: the codewords of the consecutive 4-bit blocks.
   * (An incomplete trailing block, which the encoder rejects beforehand,
   * contributes nothing.)
   */
  function EncodeAll(data: seq<int>): (c: seq<int>)
    ensures |c| == |data| / 4 * 7 && IsBits(c)
    decreases |data|
  {
    if |data| < 4 then [] else EncodeBlock(data[..4]) + EncodeAll(data[4..])
  }

  /**
   * The received buffer after every 7-bit block has been corrected. (An
   * incomplete trailing block, which the decoder rejects beforehand, is left
   * as it is.)
   */
  function CorrectAll(r: seq<int>): (c: seq<int>)
    ensures |c| == |r|
    decreases |r|
  {
    if |r| < 7 then r else CorrectBlock(r[..7]) + CorrectAll(r[7..])
  }

  /** The decoder's output: four bits kept from each corrected 7-bit block. */
  function DecodeAll(r: seq<int>): seq<int>
    decreases |r|
  {
    if |r| < 7 then [] else DecodeBlock(r[..7]) + DecodeAll(r[7..])
  }

  /** Four decoded bits per whole block; an incomplete trailing block gives none. */
  lemma {:induction false} DecodeAllLength(r: seq<int>)
    ensures |DecodeAll(r)| == |r| / 7 * 4
    decreases |r|
  {
    if |r| >= 7 {
      DecodeAllLength(r[7..]);
      DivUnique(|r|, 7, (|r| - 7) / 7 + 1, (|r| - 7) % 7);
    } else {
      DivUnique(|r|, 7, 0, |r|);
    }
  }

  lemma EncodeAllStep(data: seq<int>, i: nat)
    requires i + 4 <= |data|
    ensures EncodeAll(data[i..]) == EncodeBlock(data[i..i + 4]) + EncodeAll(data[i + 4..])
  {
    assert data[i..][..4] == data[i..i + 4];
    assert data[i..][4..] == data[i + 4..];
  }

  lemma CorrectAllStep(r: seq<int>, i: nat)
    requires i + 7 <= |r|
    ensures CorrectAll(r[i..]) == CorrectBlock(r[i..i + 7]) + CorrectAll(r[i + 7..])
  {
    assert r[i..][..7] == r[i..i + 7];
    assert r[i..][7..] == r[i + 7..];
  }

  lemma DecodeAllStep(r: seq<int>, i: nat)
    requires i + 7 <= |r|
    ensures DecodeAll(r[i..]) == DecodeBlock(r[i..i + 7]) + DecodeAll(r[i + 7..])
  {
    assert r[i..][..7] == r[i..i + 7];
    assert r[i..][7..] == r[i + 7..];
  }

  /**
   * The buffer after the decoder has corrected the block at offset i through
   * its slice view: only the bit at the block's error position changes.
   */
  function CorrectAt(buffer: seq<int>, i: nat): (after: seq<int>)
    requires i + 7 <= |buffer|
    ensures |after| == |buffer|
    ensures after[..i] == buffer[..i] && after[i + 7..] == buffer[i + 7..]
    ensures after[i..i + 7] == CorrectBlock(buffer[i..i + 7])
    ensures after[i..i + 4] == DecodeBlock(buffer[i..i + 7])
  {
    var p := ErrorPosition(buffer[i..i + 7]);
    if p != 0 then buffer[i + p - 1 := Xor1(buffer[i + p - 1])] else buffer
  }

  /** One turn of the decoder's loop: the corrected prefix grows by one block. */
  lemma {:induction false} CorrectedPrefixStep(input: seq<int>, before: seq<int>, i: nat)
    requires i + 7 <= |input| && |before| == |input|
    requires before[..i] + CorrectAll(input[i..]) == CorrectAll(input)
    requires before[i..] == input[i..]
    ensures CorrectAt(before, i)[..i + 7] + CorrectAll(input[i + 7..]) == CorrectAll(input)
  {
    CorrectAllStep(input, i);
    SameWindow(before, input, i, 7);
    PrefixGrows(CorrectAt(before, i), before, CorrectBlock(input[i..i + 7]), i,
                CorrectAll(input[i + 7..]), CorrectAll(input));
  }

  /** One turn of the decoder's loop: the untouched suffix shrinks by one block. */
  lemma UntouchedSuffixStep(input: seq<int>, before: seq<int>, i: nat)
    requires i + 7 <= |input| && |before| == |input|
    requires before[i..] == input[i..]
    ensures CorrectAt(before, i)[i + 7..] == input[i + 7..]
  {
    assert before[i + 7..] == before[i..][7..];
  }

  /** One turn of the decoder's loop: four more decoded bits. */
  lemma {:induction false} DecodedPrefixStep(input: seq<int>, before: seq<int>, i: nat, decoded: seq<int>)
    requires i + 7 <= |input| && |before| == |input|
    requires before[i..] == input[i..]
    requires decoded + DecodeAll(input[i..]) == DecodeAll(input)
    ensures decoded + CorrectAt(before, i)[i..i + 4] + DecodeAll(input[i + 7..]) == DecodeAll(input)
  {
    DecodeAllStep(input, i);
    SameWindow(before, input, i, 7);
    Regroup(decoded, DecodeBlock(input[i..i + 7]), DecodeAll(input[i + 7..]), DecodeAll(input));
  }

  /** One turn of the decoder's loop keeps all three of its invariants. */
  lemma DecodeLoopStep(input: seq<int>, before: seq<int>, i: nat, decoded: seq<int>)
    requires i + 7 <= |input| && |before| == |input|
    requires before[..i] + CorrectAll(input[i..]) == CorrectAll(input)
    requires before[i..] == input[i..]
    requires decoded + DecodeAll(input[i..]) == DecodeAll(input)
    ensures CorrectAt(before, i)[..i + 7] + CorrectAll(input[i + 7..]) == CorrectAll(input)
    ensures CorrectAt(before, i)[i + 7..] == input[i + 7..]
    ensures decoded + CorrectAt(before, i)[i..i + 4] + DecodeAll(input[i + 7..]) == DecodeAll(input)
  {
    CorrectedPrefixStep(input, before, i);
    UntouchedSuffixStep(input, before, i);
    DecodedPrefixStep(input, before, i, decoded);
  }

  /** Writing a block over a prefix-preserving buffer extends the prefix by that block. */
  lemma PrefixGrows(after: seq<int>, before: seq<int>, fixed: seq<int>, i: nat, rest: seq<int>, whole: seq<int>)
    requires i <= |before| && i + |fixed| <= |after|
    requires after[..i] == before[..i] && after[i..i + |fixed|] == fixed
    requires before[..i] + (fixed + rest) == whole
    ensures after[..i + |fixed|] + rest == whole
  {
    assert after[..i + |fixed|] == after[..i] + after[i..i + |fixed|];
  }

  /** Sequences with the same suffix from i agree on every window inside it. */
  lemma SameWindow(s: seq<int>, t: seq<int>, i: nat, w: nat)
    requires i + w <= |s| && |s| == |t| && s[i..] == t[i..]
    ensures s[i..i + w] == t[i..i + w]
  {
    assert s[i..i + w] == s[i..][..w];
    assert t[i..i + w] == t[i..][..w];
  }

  /** The first k entries of a window of width w starting at i. */
  lemma HeadOfSlice(s: seq<int>, i: nat, w: nat, k: nat)
    requires k <= w && i + w <= |s|
    ensures s[i..i + k] == s[i..i + w][..k]
  {
  }

  lemma Regroup(a: seq<int>, b: seq<int>, c: seq<int>, whole: seq<int>)
    requires a + (b + c) == whole
    ensures a + b + c == whole
  {
  }

  // ---------------------------------------------------------------------
  // The two operations of the module

  /** hamming_encode: rejects a length that is not a multiple of 4. */
  method HammingEncode(data: seq<int>) returns (r: Result<seq<int>>)
    ensures r.Failure? <==> |data| % 4 != 0
    ensures r.Failure? ==> r.error == EncodeLengthNotMultipleOf4
    ensures r.Success? ==> r.value == EncodeAll(data)
  {
    if |data| % 4 != 0 {
      return Failure(EncodeLengthNotMultipleOf4);
    }
    var encoded: seq<int> := [];
    var i := 0;
    while i < |data|
      invariant 0 <= i <= |data| && i % 4 == 0
      invariant encoded + EncodeAll(data[i..]) == EncodeAll(data)
    {
      NextBlockFits(i, |data|, 4);
      EncodeAllStep(data, i);
      var block := data[i..i + 4];
      Regroup(encoded, EncodeBlock(block), EncodeAll(data[i + 4..]), EncodeAll(data));
      encoded := encoded + EncodeBlock(block);
      i := i + 4;
    }
    assert data[i..] == [];
    return Success(encoded);
  }

  /**
   * hamming_decode: rejects a length that is not a multiple of 7; otherwise
   * corrects every block of `received` in place (numpy slices are views) and
   * returns the first four bits of each corrected block.
   */
  method HammingDecode(received: array<int>) returns (r: Result<seq<int>>)
    modifies received
    ensures received.Length % 7 != 0 ==>
              r == Failure(DecodeLengthNotMultipleOf7) && received[..] == old(received[..])
    ensures received.Length % 7 == 0 ==>
              r == Success(DecodeAll(old(received[..]))) && received[..] == CorrectAll(old(received[..]))
  {
    if received.Length % 7 != 0 {
      return Failure(DecodeLengthNotMultipleOf7);
    }
    ghost var input := received[..];
    ghost var count := received.Length / 7;
    ghost var done := 0;
    var decoded: seq<int> := [];
    var i := 0;
    while i < received.Length
      invariant i == 7 * done && done <= count && received.Length == 7 * count
      invariant received[..i] + CorrectAll(input[i..]) == CorrectAll(input)
      invariant received[i..] == input[i..]
      invariant decoded + DecodeAll(input[i..]) == DecodeAll(input)
    {
      decoded := DecodeNextBlock(received, i, input, decoded);
      i := i + 7;
      done := done + 1;
    }
    assert CorrectAll(input[i..]) == [] && DecodeAll(input[i..]) == [];
    assert received[..] == received[..i] + CorrectAll(input[i..]);
    assert decoded == decoded + DecodeAll(input[i..]);
    return Success(decoded);
  }

  /**
   * One turn of hamming_decode's loop: the block at offset i is corrected in
   * place and its first four bits are appended to the decoded bits, so the
   * loop's three invariants move on by one block.
   */
  method DecodeNextBlock(received: array<int>, i: nat, ghost input: seq<int>, decoded: seq<int>)
    returns (next: seq<int>)
    requires i + 7 <= received.Length == |input|
    requires received[..i] + CorrectAll(input[i..]) == CorrectAll(input)
    requires received[i..] == input[i..]
    requires decoded + DecodeAll(input[i..]) == DecodeAll(input)
    modifies received
    ensures received[..i + 7] + CorrectAll(input[i + 7..]) == CorrectAll(input)
    ensures received[i + 7..] == input[i + 7..]
    ensures next + DecodeAll(input[i + 7..]) == DecodeAll(input)
  {
    ghost var before := received[..];
    DecodeLoopStep(input, before, i, decoded);
    CorrectInPlace(received, i);
    assert received[i..i + 4] == CorrectAt(before, i)[i..i + 4];
    next := decoded + received[i..i + 4];
  }

  /**
   * The correction step of that loop on the block at offset i: the syndrome,
   * read as a position, selects the bit that is toggled through the view.
   */
  method CorrectInPlace(buffer: array<int>, i: nat)
    requires i + 7 <= buffer.Length
    modifies buffer
    ensures buffer[..] == CorrectAt(old(buffer[..]), i)
  {
    var block := buffer[i..i + 7];
    var syndrome := Syndrome(block);
    var errorPos := FromBinary(syndrome);
    if errorPos != 0 {
      buffer[i + errorPos - 1] := Xor1(buffer[i + errorPos - 1]);
    }
  }

  // ---------------------------------------------------------------------
  // What the two constant matrices do

  /** Column j of G against the message, before reduction modulo 2. */
  lemma {:induction false} EncodeSum(m: seq<int>, j: nat)
    requires |m| == 4 && j < 7
    ensures ColumnSum(m, G, j, 4) == m[0] * G[0][j] + m[1] * G[1][j] + m[2] * G[2][j] + m[3] * G[3][j]
  {
    assert ColumnSum(m, G, j, 1) == m[0] * G[0][j];
    assert ColumnSum(m, G, j, 2) == ColumnSum(m, G, j, 1) + m[1] * G[1][j];
    assert ColumnSum(m, G, j, 3) == ColumnSum(m, G, j, 2) + m[2] * G[2][j];
  }

  /** Row k of H against the block, before reduction modulo 2. */
  lemma {:induction false} SyndromeSum(r: seq<int>, k: nat)
    requires |r| == 7 && k < 3
    ensures RowSum(H[k], r, 7) == H[k][0] * r[0] + H[k][1] * r[1] + H[k][2] * r[2] + H[k][3] * r[3]
                                  + H[k][4] * r[4] + H[k][5] * r[5] + H[k][6] * r[6]
  {
    var row := H[k];
    assert RowSum(row, r, 1) == row[0] * r[0];
    assert RowSum(row, r, 2) == RowSum(row, r, 1) + row[1] * r[1];
    assert RowSum(row, r, 3) == RowSum(row, r, 2) + row[2] * r[2];
    assert RowSum(row, r, 4) == RowSum(row, r, 3) + row[3] * r[3];
    assert RowSum(row, r, 5) == RowSum(row, r, 4) + row[4] * r[4];
    assert RowSum(row, r, 6) == RowSum(row, r, 5) + row[5] * r[5];
  }

  /** The three parity checks of H, written out. */
  function Checks(r: seq<int>): (s: seq<int>)
    requires |r| == 7
    ensures |s| == 3
  {
    [(r[0] + r[2] + r[4] + r[6]) % 2, (r[1] + r[2] + r[5] + r[6]) % 2, (r[3] + r[4] + r[5] + r[6]) % 2]
  }

  lemma SyndromeBit(r: seq<int>, k: nat)
    requires |r| == 7 && k < 3
    ensures Syndrome(r)[k] == Checks(r)[k]
  {
    SyndromeSum(r, k);
    if k == 0 {
    } else if k == 1 {
    } else {
    }
  }

  lemma SyndromeExpanded(r: seq<int>)
    requires |r| == 7
    ensures Syndrome(r) == Checks(r)
  {
    forall k | 0 <= k < 3 ensures Syndrome(r)[k] == Checks(r)[k] {
      SyndromeBit(r, k);
    }
  }

  /** The syndrome read most significant bit first. */
  lemma ErrorPositionExpanded(r: seq<int>)
    requires |r| == 7
    ensures ErrorPosition(r) == 4 * Syndrome(r)[0] + 2 * Syndrome(r)[1] + Syndrome(r)[2]
  {
    var s := Syndrome(r);
    assert s[..2][..1] == s[..1] && s[..1][..0] == [];
    assert FromBinary(s[..1]) == s[0];
    assert FromBinary(s[..2]) == 2 * s[0] + s[1];
  }

  /** The seven columns of G, written out. */
  function Columns(m: seq<int>): (c: seq<int>)
    requires |m| == 4
    ensures |c| == 7
  {
    [m[0] % 2, m[1] % 2, m[2] % 2, m[3] % 2,
     (m[0] + m[1] + m[3]) % 2, (m[0] + m[2] + m[3]) % 2, (m[1] + m[2] + m[3]) % 2]
  }

  lemma EncodeBit(m: seq<int>, j: nat)
    requires |m| == 4 && j < 7
    ensures EncodeBlock(m)[j] == Columns(m)[j]
  {
    EncodeSum(m, j);
    if j == 0 {
    } else if j == 1 {
    } else if j == 2 {
    } else if j == 3 {
    } else if j == 4 {
    } else if j == 5 {
    } else {
    }
  }

  lemma EncodeBlockExpanded(m: seq<int>)
    requires |m| == 4
    ensures EncodeBlock(m) == Columns(m)
  {
    forall j | 0 <= j < 7 ensures EncodeBlock(m)[j] == Columns(m)[j] {
      EncodeBit(m, j);
    }
  }

  /** Exclusive-or of three values is their sum modulo 2. */
  lemma Xor3(a: int, b: int, c: int)
    ensures Xor(Xor(a, b), c) == (a + b + c) % 2
  {
  }

  /** The code is systematic: a codeword starts with its message block. */
  lemma EncodeBlockSystematic(m: seq<int>)
    requires |m| == 4 && IsBits(m)
    ensures EncodeBlock(m)[..4] == m
  {
    EncodeBlockExpanded(m);
    assert m == [m[0], m[1], m[2], m[3]];
  }

  /** The parity bits of a codeword are m1+m2+m4, m1+m3+m4 and m2+m3+m4 modulo 2 (1-based). */
  lemma EncodeBlockParity(m: seq<int>)
    requires |m| == 4
    ensures EncodeBlock(m)[4..] == [Xor(Xor(m[0], m[1]), m[3]), Xor(Xor(m[0], m[2]), m[3]), Xor(Xor(m[1], m[2]), m[3])]
  {
    EncodeBlockExpanded(m);
    Xor3(m[0], m[1], m[3]);
    Xor3(m[0], m[2], m[3]);
    Xor3(m[1], m[2], m[3]);
  }

  /** Reducing a value modulo 2 inside a sum does not change the sum's parity. */
  lemma ModInSum(x: int, y: int)
    ensures (x + y % 2) % 2 == (x + y) % 2
  {
  }

  /** An even addend does not change parity. */
  lemma EvenInSum(x: int, k: int)
    ensures (x + 2 * k) % 2 == x % 2
  {
  }

  /** The parity of four values is the parity of their sum. */
  lemma ParityOfSum(x: int, y: int, z: int, w: int)
    ensures (x % 2 + y % 2 + z % 2 + w % 2) % 2 == (x + y + z + w) % 2
  {
    ModInSum(x % 2 + y % 2 + z % 2, w);
    assert x % 2 + y % 2 + z % 2 + w == w + x % 2 + y % 2 + z % 2;
    ModInSum(w + x % 2 + y % 2, z);
    assert w + x % 2 + y % 2 + z == z + w + x % 2 + y % 2;
    ModInSum(z + w + x % 2, y);
    assert z + w + x % 2 + y == y + z + w + x % 2;
    ModInSum(y + z + w, x);
    assert y + z + w + x == x + y + z + w;
  }

  /** The first check of H on the codeword of message a, b, c, d. */
  lemma FirstCheck(a: int, b: int, c: int, d: int)
    ensures (a % 2 + c % 2 + (a + b + d) % 2 + (b + c + d) % 2) % 2 == 0
  {
    ParityOfSum(a, c, a + b + d, b + c + d);
    assert a + c + (a + b + d) + (b + c + d) == 0 + 2 * (a + b + c + d);
    EvenInSum(0, a + b + c + d);
  }

  /** The second check of H on the codeword of message a, b, c, d. */
  lemma SecondCheck(a: int, b: int, c: int, d: int)
    ensures (b % 2 + c % 2 + (a + c + d) % 2 + (b + c + d) % 2) % 2 == Xor(a, c)
  {
    ParityOfSum(b, c, a + c + d, b + c + d);
    assert b + c + (a + c + d) + (b + c + d) == (a + c) + 2 * (b + c + d);
    EvenInSum(a + c, b + c + d);
  }

  /** The third check of H on the codeword of message a, b, c, d. */
  lemma ThirdCheck(a: int, b: int, c: int, d: int)
    ensures (d % 2 + (a + b + d) % 2 + (a + c + d) % 2 + (b + c + d) % 2) % 2 == 0
  {
    ParityOfSum(d, a + b + d, a + c + d, b + c + d);
    assert d + (a + b + d) + (a + c + d) + (b + c + d) == 0 + 2 * (a + b + c + 2 * d);
    EvenInSum(0, a + b + c + 2 * d);
  }

  /**
   * G and H do not match: the syndrome of a codeword is [0, m1+m3, 0]
   * (1-based, modulo 2), so it is nonzero whenever m1 and m3 differ.
   */
  lemma SyndromeOfCodeword(m: seq<int>)
    requires |m| == 4
    ensures Syndrome(EncodeBlock(m)) == [0, Xor(m[0], m[2]), 0]
  {
    EncodeBlockExpanded(m);
    SyndromeExpanded(EncodeBlock(m));
    ChecksOfColumns(m);
  }

  /** The three checks of H on the written-out codeword of m. */
  lemma ChecksOfColumns(m: seq<int>)
    requires |m| == 4
    ensures Checks(Columns(m)) == [0, Xor(m[0], m[2]), 0]
  {
    var c := Columns(m);
    assert Checks(c)[0] == 0 by { FirstCheck(m[0], m[1], m[2], m[3]); }
    assert Checks(c)[1] == Xor(m[0], m[2]) by { SecondCheck(m[0], m[1], m[2], m[3]); }
    assert Checks(c)[2] == 0 by { ThirdCheck(m[0], m[1], m[2], m[3]); }
  }

  /** The decoder reads an uncorrupted codeword as an error at position 2 exactly when m1 and m3 differ. */
  lemma CodewordErrorPosition(m: seq<int>)
    requires |m| == 4 && IsBits(m)
    ensures ErrorPosition(EncodeBlock(m)) == if m[0] == m[2] then 0 else 2
  {
    SyndromeOfCodeword(m);
    ErrorPositionExpanded(EncodeBlock(m));
  }

  /**
   * Decoding an uncorrupted codeword gives the message back when its first
   * and third bits agree; otherwise the second bit comes back flipped.
   */
  lemma BlockRoundTrip(m: seq<int>)
    requires |m| == 4 && IsBits(m)
    ensures DecodeBlock(EncodeBlock(m)) == if m[0] == m[2] then m else m[1 := 1 - m[1]]
  {
    var c := EncodeBlock(m);
    CodewordErrorPosition(m);
    EncodeBlockSystematic(m);
    if m[0] != m[2] {
      assert c[1] == m[1];
      Xor1OnBit(c[1]);
      assert CorrectBlock(c)[..4] == m[1 := 1 - m[1]];
    }
  }

  /** The message block survives the round trip exactly when its first and third bits agree. */
  lemma BlockRoundTripExact(m: seq<int>)
    requires |m| == 4 && IsBits(m)
    ensures DecodeBlock(EncodeBlock(m)) == m <==> m[0] == m[2]
  {
    BlockRoundTrip(m);
    if m[0] != m[2] {
      assert m[1 := 1 - m[1]][1] != m[1];
    }
  }

  /** The block with bit j (0-based) inverted: one transmission error. */
  function Flip(r: seq<int>, j: nat): (e: seq<int>)
    requires j < |r|
    ensures |e| == |r| && e[j] == 1 - r[j]
    ensures forall i :: 0 <= i < |r| && i != j ==> e[i] == r[i]
  {
    r[j := 1 - r[j]]
  }

  /** Changing one entry of v changes the row sum by that entry's weighted difference. */
  lemma {:induction false} RowSumUpdate(row: seq<int>, v: seq<int>, j: nat, x: int, n: nat)
    requires n <= |row| && n <= |v| && j < |v|
    ensures RowSum(row, v[j := x], n) == RowSum(row, v, n) + (if j < n then row[j] * (x - v[j]) else 0)
  {
    if n > 0 {
      RowSumUpdate(row, v, j, x, n - 1);
      if j == n - 1 {
        assert row[j] * x == row[j] * v[j] + row[j] * (x - v[j]);
      }
    }
  }

  /** Adding or subtracting h changes a sum's parity by h. */
  lemma FlipParity(s: int, h: int, x: int)
    requires IsBit(x)
    ensures (s + h * ((1 - x) - x)) % 2 == Xor(s % 2, h)
  {
    ModInSum(h, s);
    assert (s + h) % 2 == Xor(s % 2, h);
    if x == 0 {
      assert h * ((1 - x) - x) == h;
    } else {
      assert h * ((1 - x) - x) == -h;
      EvenInSum(s + h, -h);
      assert (s - h) % 2 == Xor(s % 2, h);
    }
  }

  /** Inverting bit j of a block adds entry (k, j) of H to syndrome bit k. */
  lemma SyndromeEntryOfFlip(r: seq<int>, j: nat, k: nat)
    requires |r| == 7 && j < 7 && k < 3 && IsBit(r[j])
    ensures Syndrome(Flip(r, j))[k] == Xor(Syndrome(r)[k], H[k][j])
  {
    RowSumUpdate(H[k], r, j, 1 - r[j], 7);
    FlipParity(RowSum(H[k], r, 7), H[k][j], r[j]);
  }

  /** Inverting bit j of a block adds column j of H to its syndrome. */
  lemma SyndromeOfFlip(r: seq<int>, j: nat)
    requires |r| == 7 && j < 7 && IsBit(r[j])
    ensures Syndrome(Flip(r, j)) == [Xor(Syndrome(r)[0], H[0][j]),
                                     Xor(Syndrome(r)[1], H[1][j]),
                                     Xor(Syndrome(r)[2], H[2][j])]
  {
    SyndromeEntryOfFlip(r, j, 0);
    SyndromeEntryOfFlip(r, j, 1);
    SyndromeEntryOfFlip(r, j, 2);
  }

  /** The 1-based position the decoder flips after an error at 1-based position j. */
  const MisdirectedFlip: seq<int> := [4, 2, 6, 1, 5, 3, 7]

  /** Column j of H read most significant bit first. */
  lemma ColumnOfH(j: nat)
    requires j < 7
    ensures 4 * Xor(0, H[0][j]) + 2 * Xor(0, H[1][j]) + Xor(0, H[2][j]) == MisdirectedFlip[j]
  {
    if j == 0 {
    } else if j == 1 {
    } else if j == 2 {
    } else if j == 3 {
    } else if j == 4 {
    } else if j == 5 {
    } else {
    }
  }

  /** A zero error position comes only from a zero syndrome. */
  lemma ZeroPosition(r: seq<int>)
    requires |r| == 7 && ErrorPosition(r) == 0
    ensures Syndrome(r) == [0, 0, 0]
  {
    ErrorPositionExpanded(r);
  }

  /**
   * A single error at 1-based position j of a block whose syndrome is zero
   * makes the decoder pick position MisdirectedFlip[j - 1], because column
   * j of H spells j least significant bit first while the decoder reads it
   * most significant bit first.
   */
  lemma FlippedPosition(c: seq<int>, j: nat)
    requires |c| == 7 && IsBits(c) && ErrorPosition(c) == 0 && j < 7
    ensures ErrorPosition(Flip(c, j)) == MisdirectedFlip[j]
  {
    ZeroPosition(c);
    SyndromeOfFlip(c, j);
    ErrorPositionExpanded(Flip(c, j));
    ColumnOfH(j);
  }

  /** ... and the decoder then inverts that position. */
  lemma FlipCorrected(c: seq<int>, j: nat)
    requires |c| == 7 && IsBits(c) && ErrorPosition(c) == 0 && j < 7
    ensures 1 <= MisdirectedFlip[j] <= 7
    ensures CorrectBlock(Flip(c, j)) == Flip(Flip(c, j), MisdirectedFlip[j] - 1)
  {
    var e := Flip(c, j);
    var p := MisdirectedFlip[j];
    FlippedPosition(c, j);
    assert 1 <= p <= 7 by { ColumnOfH(j); }
    assert IsBit(e[p - 1]);
    Xor1OnBit(e[p - 1]);
  }

  /** The positions whose column of H reads the same either way round. */
  lemma MisdirectedFixed(j: nat)
    requires j < 7
    ensures MisdirectedFlip[j] == j + 1 <==> j == 1 || j == 4 || j == 6
  {
  }

  /** Only single errors at 1-based positions 2, 5 and 7 are repaired. */
  lemma SingleErrorCorrection(c: seq<int>, j: nat)
    requires |c| == 7 && IsBits(c) && ErrorPosition(c) == 0 && j < 7
    ensures CorrectBlock(Flip(c, j)) == c <==> j == 1 || j == 4 || j == 6
  {
    var e := Flip(c, j);
    FlipCorrected(c, j);
    MisdirectedFixed(j);
    var q := MisdirectedFlip[j] - 1;
    if q == j {
      assert Flip(e, j) == c;
    } else {
      assert Flip(e, q)[j] == e[j] != c[j];
    }
  }

  // ---------------------------------------------------------------------
  // Block structure of the whole-sequence functions

  /** Codeword k of the encoder's output is the code of message block k. */
  lemma {:induction false} EncodeAllBlock(data: seq<int>, k: nat)
    requires 4 * k + 4 <= |data|
    ensures 7 * k + 7 <= |EncodeAll(data)|
    ensures EncodeAll(data)[7 * k..7 * k + 7] == EncodeBlock(data[4 * k..4 * k + 4])
  {
    var rest := data[4..];
    var head := EncodeBlock(data[..4]);
    assert EncodeAll(data) == head + EncodeAll(rest);
    if k > 0 {
      var m := k - 1;
      EncodeAllBlock(rest, m);
      PastHead(EncodeAll(data), head, EncodeAll(rest), 7, 7 * m, 7 * k, EncodeBlock(rest[4 * m..4 * m + 4]));
      PastFirst(data, 4, 4 * m, 4 * k);
    } else {
      AtHead(EncodeAll(data), head, EncodeAll(rest), 7);
      assert data[..4] == data[0..4];
    }
  }

  /** Block k of the corrected buffer is received block k corrected on its own. */
  lemma {:induction false} CorrectAllBlock(r: seq<int>, k: nat)
    requires 7 * k + 7 <= |r|
    ensures CorrectAll(r)[7 * k..7 * k + 7] == CorrectBlock(r[7 * k..7 * k + 7])
  {
    var rest := r[7..];
    var head := CorrectBlock(r[..7]);
    assert CorrectAll(r) == head + CorrectAll(rest);
    if k > 0 {
      var m := k - 1;
      CorrectAllBlock(rest, m);
      PastHead(CorrectAll(r), head, CorrectAll(rest), 7, 7 * m, 7 * k, CorrectBlock(rest[7 * m..7 * m + 7]));
      PastFirst(r, 7, 7 * m, 7 * k);
    } else {
      AtHead(CorrectAll(r), head, CorrectAll(rest), 7);
      assert r[..7] == r[0..7];
    }
  }

  /** The first w entries of a concatenation with a head of length w are that head. */
  lemma AtHead(whole: seq<int>, head: seq<int>, tail: seq<int>, w: nat)
    requires whole == head + tail && |head| == w
    ensures w <= |whole| && whole[0..w] == head
  {
  }

  /** Past a head of length w, the w entries at next = w + start of the whole are those at start of the tail. */
  lemma PastHead(whole: seq<int>, head: seq<int>, tail: seq<int>, w: nat, start: nat, next: nat, part: seq<int>)
    requires whole == head + tail && |head| == w && start + w <= |tail| && next == w + start
    requires tail[start..start + w] == part
    ensures next + w <= |whole| && whole[next..next + w] == part
  {
    assert whole[next..next + w] == tail[start..start + w];
  }

  /** The w entries at start of what follows the first w are those at next = w + start of the whole. */
  lemma PastFirst(s: seq<int>, w: nat, start: nat, next: nat)
    requires next + w <= |s| && next == w + start
    ensures s[w..][start..start + w] == s[next..next + w]
  {
  }

  /** Decoded group k is received block k decoded on its own. */
  lemma {:induction false} DecodeAllGroup(r: seq<int>, k: nat)
    requires 7 * k + 7 <= |r|
    ensures 4 * k + 4 <= |DecodeAll(r)|
    ensures DecodeAll(r)[4 * k..4 * k + 4] == DecodeBlock(r[7 * k..7 * k + 7])
  {
    var rest := r[7..];
    var head := DecodeBlock(r[..7]);
    assert DecodeAll(r) == head + DecodeAll(rest);
    if k > 0 {
      var m := k - 1;
      DecodeAllGroup(rest, m);
      PastHead(DecodeAll(r), head, DecodeAll(rest), 4, 4 * m, 4 * k, DecodeBlock(rest[7 * m..7 * m + 7]));
      PastFirst(r, 7, 7 * m, 7 * k);
    } else {
      AtHead(DecodeAll(r), head, DecodeAll(rest), 4);
      assert r[..7] == r[0..7];
    }
  }

  /** Decoded group k is the first four bits of received block k after correction. */
  lemma {:induction false} DecodeAllBlock(r: seq<int>, k: nat)
    requires 7 * k + 7 <= |r|
    ensures 4 * k + 4 <= |DecodeAll(r)|
    ensures DecodeAll(r)[4 * k..4 * k + 4] == CorrectAll(r)[7 * k..7 * k + 4]
  {
    DecodeAllGroup(r, k);
    CorrectAllBlock(r, k);
    HeadOfSlice(CorrectAll(r), 7 * k, 7, 4);
  }

  /** Every 4-bit block of data has equal first and third bits. */
  ghost predicate FirstEqualsThird(data: seq<int>) {
    forall k :: 0 <= k < |data| / 4 ==> data[4 * k] == data[4 * k + 2]
  }

  lemma FirstEqualsThirdStep(data: seq<int>)
    requires |data| >= 4
    ensures FirstEqualsThird(data) <==> data[0] == data[2] && FirstEqualsThird(data[4..])
  {
    var tail := data[4..];
    if FirstEqualsThird(data) {
      forall k | 0 <= k < |tail| / 4 ensures tail[4 * k] == tail[4 * k + 2] {
        assert data[4 * (k + 1)] == data[4 * (k + 1) + 2];
      }
      assert data[4 * 0] == data[4 * 0 + 2];
    }
    if data[0] == data[2] && FirstEqualsThird(tail) {
      forall k | 0 <= k < |data| / 4 ensures data[4 * k] == data[4 * k + 2] {
        if k > 0 { assert tail[4 * (k - 1)] == data[4 * k]; }
      }
    }
  }

  lemma {:induction false} DecodeEncodeStep(data: seq<int>)
    requires |data| >= 4
    ensures DecodeAll(EncodeAll(data)) == DecodeBlock(EncodeBlock(data[..4])) + DecodeAll(EncodeAll(data[4..]))
  {
    var code := EncodeAll(data);
    assert code[..7] == EncodeBlock(data[..4]) && code[7..] == EncodeAll(data[4..]);
  }

  /** Two concatenations with heads of equal length are equal exactly when heads and tails are. */
  lemma ConcatEqual(a: seq<int>, b: seq<int>, c: seq<int>, d: seq<int>)
    requires |a| == |c|
    ensures a + b == c + d <==> a == c && b == d
  {
    if a + b == c + d {
      assert a == (a + b)[..|a|] && c == (c + d)[..|a|];
      assert b == (a + b)[|a|..] && d == (c + d)[|a|..];
    }
  }

  /**
   * Encoding then decoding a whole sequence returns it unchanged exactly
   * when every message block has equal first and third bits.
   */
  lemma {:induction false} RoundTrip(data: seq<int>)
    requires |data| % 4 == 0 && IsBits(data)
    ensures DecodeAll(EncodeAll(data)) == data <==> FirstEqualsThird(data)
    decreases |data|
  {
    if |data| >= 4 {
      var head, tail := data[..4], data[4..];
      DecodeEncodeStep(data);
      assert IsBits(head) && IsBits(tail);
      BlockRoundTripExact(head);
      RoundTrip(tail);
      ConcatEqual(DecodeBlock(EncodeBlock(head)), DecodeAll(EncodeAll(tail)), head, tail);
      assert data == head + tail;
      FirstEqualsThirdStep(data);
    } else {
      assert data == [];
    }
  }
}
