/**
 * The bit error rate of CommX/metrics.py: the number of positions at which
 * two equally long sequences differ, divided by their length.
 *
 * numpy divides the integer count by the integer length in floating point,
 * so two empty sequences give 0 / 0, which is NaN (numpy only warns). The
 * model keeps that case apart, and for every other input returns the exact
 * ratio where numpy returns that ratio rounded to a double (0.3333333333333333
 * for one difference in three).
 */
module Metrics {
  import opened Outcome

  /** A rate: the exact ratio of which numpy returns the nearest double, or NaN for 0 / 0. */
  datatype Rate = Ratio(value: real) | NotANumber

  /** `np.sum(original != received)`: the positions at which the sequences differ. */
  function DiffCount(original: seq<int>, received: seq<int>): (count: nat)
    requires |original| == |received|
    ensures count <= |original|
    decreases |original|
  {
    if |original| == 0 then 0
    else (if original[0] != received[0] then 1 else 0) + DiffCount(original[1..], received[1..])
  }

  /** calculate_ber: rejects sequences of different lengths. */
  function CalculateBer(original: seq<int>, received: seq<int>): (r: Result<Rate>)
    ensures r.Failure? <==> |original| != |received|
    ensures r.Failure? ==> r.error == BerLengthMismatch
    ensures r.Success? ==> (r.value.NotANumber? <==> |original| == 0)
  {
    if |original| != |received| then Failure(BerLengthMismatch)
    else if |original| == 0 then Success(NotANumber)
    else Success(Ratio(DiffCount(original, received) as real / |original| as real))
  }

  /** No position differs exactly when the sequences are equal. */
  lemma {:induction false} DiffCountZero(original: seq<int>, received: seq<int>)
    requires |original| == |received|
    ensures DiffCount(original, received) == 0 <==> original == received
    decreases |original|
  {
    if |original| > 0 {
      DiffCountZero(original[1..], received[1..]);
      if original[0] == received[0] && original[1..] == received[1..] {
        assert original == [original[0]] + original[1..];
        assert received == [received[0]] + received[1..];
      }
      if original == received {
        assert original[1..] == received[1..];
      }
    }
  }

  /** Every position differs exactly when the count is the full length. */
  lemma {:induction false} DiffCountAll(original: seq<int>, received: seq<int>)
    requires |original| == |received|
    ensures DiffCount(original, received) == |original|
        <==> forall i :: 0 <= i < |original| ==> original[i] != received[i]
    decreases |original|
  {
    if |original| > 0 {
      var o, r := original[1..], received[1..];
      DiffCountAll(o, r);
      if forall i :: 0 <= i < |original| ==> original[i] != received[i] {
        forall i | 0 <= i < |o| ensures o[i] != r[i] {
          assert o[i] == original[i + 1] && r[i] == received[i + 1];
        }
      }
      if DiffCount(original, received) == |original| {
        assert original[0] != received[0] && DiffCount(o, r) == |o|;
        forall i | 0 <= i < |original| ensures original[i] != received[i] {
          if i > 0 { assert original[i] == o[i - 1] && received[i] == r[i - 1]; }
        }
      }
    }
  }

  /** The count does not depend on which sequence is the original. */
  lemma {:induction false} DiffCountSymmetric(original: seq<int>, received: seq<int>)
    requires |original| == |received|
    ensures DiffCount(original, received) == DiffCount(received, original)
    decreases |original|
  {
    if |original| > 0 {
      DiffCountSymmetric(original[1..], received[1..]);
    }
  }

  /** The counts of two stretches add up. */
  lemma {:induction false} DiffCountConcat(a: seq<int>, b: seq<int>, c: seq<int>, d: seq<int>)
    requires |a| == |c| && |b| == |d|
    ensures DiffCount(a + b, c + d) == DiffCount(a, c) + DiffCount(b, d)
    decreases |a|
  {
    if |a| > 0 {
      assert (a + b)[1..] == a[1..] + b && (c + d)[1..] == c[1..] + d;
      DiffCountConcat(a[1..], b, c[1..], d);
    } else {
      assert a + b == b && c + d == d;
    }
  }

  /** The positions at which two sequences differ. */
  ghost function Mismatches(original: seq<int>, received: seq<int>): set<nat>
    requires |original| == |received|
  {
    set i: nat | i < |original| && original[i] != received[i]
  }

  /** The count is the number of differing positions. */
  lemma {:induction false} DiffCountIsMismatches(original: seq<int>, received: seq<int>)
    requires |original| == |received|
    ensures DiffCount(original, received) == |Mismatches(original, received)|
    decreases |original|
  {
    if |original| > 0 {
      var k := |original| - 1;
      var o, r := original[..k], received[..k];
      assert original == o + [original[k]] && received == r + [received[k]];
      DiffCountConcat(o, [original[k]], r, [received[k]]);
      DiffCountIsMismatches(o, r);
      MismatchesGrow(original, received);
    } else {
      assert Mismatches(original, received) == {};
    }
  }

  /** The last position adds itself to the differing positions of the rest, if it differs. */
  lemma MismatchesGrow(original: seq<int>, received: seq<int>)
    requires |original| == |received| > 0
    ensures var k := |original| - 1;
      |Mismatches(original, received)|
      == |Mismatches(original[..k], received[..k])| + (if original[k] != received[k] then 1 else 0)
  {
    var k := |original| - 1;
    var before := Mismatches(original[..k], received[..k]);
    var last: set<nat> := if original[k] != received[k] then {k} else {};
    assert Mismatches(original, received) == before + last;
    assert k !in before;
  }

  /** The rate of non-empty inputs is the share of positions at which they differ. */
  lemma BerIsShareOfMismatches(original: seq<int>, received: seq<int>)
    requires |original| == |received| > 0
    ensures CalculateBer(original, received)
         == Success(Ratio(|Mismatches(original, received)| as real / |original| as real))
  {
    DiffCountIsMismatches(original, received);
  }

  /** The rate of non-empty inputs lies between 0 and 1. */
  lemma BerBounds(original: seq<int>, received: seq<int>)
    requires |original| == |received| > 0
    ensures CalculateBer(original, received).Success?
    ensures CalculateBer(original, received).value.Ratio?
    ensures 0.0 <= CalculateBer(original, received).value.value <= 1.0
  {
    var count, len := DiffCount(original, received) as real, |original| as real;
    assert count <= len;
    assert count / len <= len / len;
  }

  /** The rate of non-empty inputs is 0 exactly when they are equal. */
  lemma BerZero(original: seq<int>, received: seq<int>)
    requires |original| == |received| > 0
    ensures CalculateBer(original, received) == Success(Ratio(0.0)) <==> original == received
  {
    DiffCountZero(original, received);
    var count, len := DiffCount(original, received) as real, |original| as real;
    if count / len == 0.0 {
      assert count == (count / len) * len;
    }
  }

  /** The rate of non-empty inputs is 1 exactly when every position differs. */
  lemma BerOne(original: seq<int>, received: seq<int>)
    requires |original| == |received| > 0
    ensures CalculateBer(original, received) == Success(Ratio(1.0))
        <==> forall i :: 0 <= i < |original| ==> original[i] != received[i]
  {
    DiffCountAll(original, received);
    var count, len := DiffCount(original, received) as real, |original| as real;
    if count / len == 1.0 {
      assert count == (count / len) * len;
    }
  }

  /** The rate does not depend on which sequence is the original. */
  lemma BerSymmetric(original: seq<int>, received: seq<int>)
    ensures CalculateBer(original, received) == CalculateBer(received, original)
  {
    if |original| == |received| {
      DiffCountSymmetric(original, received);
    }
  }
}
