/**
 * BPSK and QPSK of CommX/modulation.py, with the trigonometry abstracted.
 *
 * Every symbol occupies n consecutive samples (n stands for the product of
 * bit duration and sample rate). A carrier is a function of the sample
 * index: the modulators evaluate it on the time axis of the whole buffer,
 * so symbol i reads the carrier at indices i * n, ..., i * n + n - 1, while
 * the demodulators build a fresh time axis of one bit duration and so read
 * the same function at indices 0, ..., n - 1 for every symbol.
 */
module Modulation {
  import opened Bits
  import opened Outcome

  /** A carrier sampled at integer sample indices. */
  type Wave = nat -> real

  // ---------------------------------------------------------------------
  // Windows, slices and correlation

  /** Samples start, ..., start + n - 1 of a carrier. */
  function Window(w: Wave, start: nat, n: nat): (s: seq<real>)
    ensures |s| == n
  {
    seq(n, j requires 0 <= j < n => w(start + j))
  }

  /** The stretch of the modulator's time axis that symbol i occupies. */
  function SymbolWindow(w: Wave, n: nat, i: nat): (s: seq<real>)
    ensures |s| == n
  {
    Window(w, i * n, n)
  }

  function Negate(s: seq<real>): (r: seq<real>)
    ensures |r| == |s|
  {
    seq(|s|, j requires 0 <= j < |s| => -s[j])
  }

  /** Sample-wise u * a. */
  function Scale(u: seq<real>, a: real): (r: seq<real>)
    ensures |r| == |u|
  {
    seq(|u|, j requires 0 <= j < |u| => u[j] * a)
  }

  /** Sample-wise u + v. */
  function Add(u: seq<real>, v: seq<real>): (r: seq<real>)
    requires |u| == |v|
    ensures |r| == |u|
  {
    seq(|u|, j requires 0 <= j < |u| => u[j] + v[j])
  }

  /** Sample-wise u * a + v * b. */
  function Combine(u: seq<real>, a: real, v: seq<real>, b: real): (r: seq<real>)
    requires |u| == |v|
    ensures |r| == |u|
  {
    Add(Scale(u, a), Scale(v, b))
  }

  /** `np.sum(u * v)`. */
  function Dot(u: seq<real>, v: seq<real>): real
    requires |u| == |v|
  {
    if |u| == 0 then 0.0 else u[0] * v[0] + Dot(u[1..], v[1..])
  }

  lemma {:induction false} DotNegate(u: seq<real>, v: seq<real>)
    requires |u| == |v|
    ensures Dot(Negate(u), v) == -Dot(u, v)
  {
    if |u| > 0 {
      assert Negate(u)[1..] == Negate(u[1..]);
      DotNegate(u[1..], v[1..]);
    }
  }

  lemma {:induction false} DotScale(u: seq<real>, a: real, w: seq<real>)
    requires |u| == |w|
    ensures Dot(Scale(u, a), w) == a * Dot(u, w)
  {
    var s := Scale(u, a);
    if |u| == 0 {
      ScaleStep(Dot(s, w), 0.0, 0.0, Dot(u, w), 0.0, 0.0, 0.0, a);
    } else {
      assert s[1..] == Scale(u[1..], a) by {
        forall j | 0 <= j < |u| - 1 ensures s[1..][j] == Scale(u[1..], a)[j] {
          assert u[1..][j] == u[j + 1];
        }
      }
      DotScale(u[1..], a, w[1..]);
      ScaleStep(Dot(s, w), s[0], Dot(s[1..], w[1..]), Dot(u, w), Dot(u[1..], w[1..]), u[0], w[0], a);
    }
  }

  /** The inductive step of DotScale, as an identity of reals. */
  lemma ScaleStep(dot: real, first: real, rest: real, dotU: real, restU: real, x: real, z: real, a: real)
    requires rest == a * restU && first == x * a
    requires dot == first * z + rest && dotU == x * z + restU
    ensures dot == a * dotU
  {
  }

  lemma {:induction false} DotAdd(u: seq<real>, v: seq<real>, w: seq<real>)
    requires |u| == |v| == |w|
    ensures Dot(Add(u, v), w) == Dot(u, w) + Dot(v, w)
  {
    var s := Add(u, v);
    if |u| > 0 {
      assert s[1..] == Add(u[1..], v[1..]) by {
        forall j | 0 <= j < |u| - 1 ensures s[1..][j] == Add(u[1..], v[1..])[j] {
          assert u[1..][j] == u[j + 1] && v[1..][j] == v[j + 1];
        }
      }
      DotAdd(u[1..], v[1..], w[1..]);
      AddStep(Dot(s, w), s[0], Dot(s[1..], w[1..]), Dot(u, w), Dot(u[1..], w[1..]), Dot(v, w), Dot(v[1..], w[1..]),
              u[0], v[0], w[0]);
    }
  }

  /** The inductive step of DotAdd, as an identity of reals. */
  lemma AddStep(dot: real, first: real, rest: real, dotU: real, restU: real, dotV: real, restV: real,
                x: real, y: real, z: real)
    requires rest == restU + restV && first == x + y
    requires dot == first * z + rest && dotU == x * z + restU && dotV == y * z + restV
    ensures dot == dotU + dotV
  {
  }

  /** Correlation is linear in a weighted sum of two sequences. */
  lemma {:induction false} DotCombine(u: seq<real>, a: real, v: seq<real>, b: real, w: seq<real>)
    requires |u| == |v| == |w|
    ensures Dot(Combine(u, a, v, b), w) == a * Dot(u, w) + b * Dot(v, w)
  {
    DotAdd(Scale(u, a), Scale(v, b), w);
    DotScale(u, a, w);
    DotScale(v, b, w);
  }

  lemma {:induction false} DotSymmetric(u: seq<real>, v: seq<real>)
    requires |u| == |v|
    ensures Dot(u, v) == Dot(v, u)
  {
    if |u| > 0 {
      DotSymmetric(u[1..], v[1..]);
    }
  }

  /** A slice of a concatenation that lies inside one of its halves. */
  lemma SliceOfConcat(head: seq<real>, tail: seq<real>, off: nat, n: nat, rel: nat)
    requires off + n <= |head| + |tail|
    requires (off == 0 && n == |head|) || (|head| <= off && rel == off - |head|)
    ensures off == 0 && n == |head| ==> (head + tail)[off..off + n] == head
    ensures |head| <= off && rel == off - |head| ==> (head + tail)[off..off + n] == tail[rel..rel + n]
  {
  }

  /** Samples i * n, ..., i * n + n - 1 of a received buffer. */
  function ReceivedWindow(received: seq<real>, n: nat, i: nat): (s: seq<real>)
    requires n > 0 && i < |received| / n
    ensures |s| == n
  {
    WindowCount(|received|, n, i);
    received[i * n..i * n + n]
  }

  /** Correlation of received symbol i with one symbol of a freshly started carrier. */
  function Correlation(received: seq<real>, w: Wave, n: nat, i: nat): real
    requires n > 0 && i < |received| / n
  {
    Dot(ReceivedWindow(received, n, i), Window(w, 0, n))
  }

  /** A correlation decides bit 1 exactly when it is negative. */
  function Decision(correlation: real): (bit: int)
    ensures IsBit(bit)
    ensures bit == 1 <==> correlation < 0.0
  {
    if correlation < 0.0 then 1 else 0
  }

  /** `buffer[start:end] = values` on a numpy array, where values has exactly end - start samples. */
  method AssignSlice(buffer: array<real>, start: nat, end: nat, values: seq<real>)
    requires start + |values| == end <= buffer.Length
    modifies buffer
    ensures buffer[..end] == old(buffer[..start]) + values
    ensures buffer[end..] == old(buffer[end..])
  {
    forall k | start <= k < end {
      buffer[k] := values[k - start];
    }
    assert buffer[..end] == buffer[..start] + buffer[start..end];
  }

  // ---------------------------------------------------------------------
  // BPSK

  /** One symbol: the carrier where the bit is 1, its negation for any other value. */
  function BpskSymbol(bit: int, carrier: Wave, start: nat, n: nat): (s: seq<real>)
    ensures |s| == n
  {
    if bit == 1 then Window(carrier, start, n) else Negate(Window(carrier, start, n))
  }

  /** The symbols of `bits` one after another, the first one starting at sample `start`. */
  function BpskSignal(bits: seq<int>, carrier: Wave, n: nat, start: nat): seq<real>
  {
    if |bits| == 0 then []
    else BpskSymbol(bits[0], carrier, start, n) + BpskSignal(bits[1..], carrier, n, start + n)
  }

  lemma {:induction false} BpskSignalLength(bits: seq<int>, carrier: Wave, n: nat, start: nat)
    ensures |BpskSignal(bits, carrier, n, start)| == |bits| * n
  {
    if |bits| > 0 {
      BpskSignalLength(bits[1..], carrier, n, start + n);
      assert |bits| * n == n + (|bits| - 1) * n;
    }
  }

  lemma {:induction false} BpskSignalStep(bits: seq<int>, carrier: Wave, n: nat, start: nat, i: nat)
    requires i < |bits|
    ensures BpskSignal(bits[i..], carrier, n, start)
         == BpskSymbol(bits[i], carrier, start, n) + BpskSignal(bits[i + 1..], carrier, n, start + n)
  {
    assert bits[i..][1..] == bits[i + 1..];
  }

  /** Window i of the modulated buffer is the carrier or its negation on that window, by bit i. */
  lemma {:induction false} BpskSignalWindow(bits: seq<int>, carrier: Wave, n: nat, i: nat)
    requires n > 0 && i < |bits|
    ensures |BpskSignal(bits, carrier, n, 0)| == |bits| * n
    ensures i < |BpskSignal(bits, carrier, n, 0)| / n
    ensures ReceivedWindow(BpskSignal(bits, carrier, n, 0), n, i)
         == if bits[i] == 1 then SymbolWindow(carrier, n, i) else Negate(SymbolWindow(carrier, n, i))
  {
    BpskSignalLength(bits, carrier, n, 0);
    DivUnique(|bits| * n, n, |bits|, 0);
    OffsetIsProduct(i, n);
    BpskSignalAt(bits, carrier, n, 0, i, i * n);
  }

  /** Symbol i of the signal occupies samples Offset(i, n), ..., Offset(i, n) + n - 1. */
  lemma {:induction false} BpskSignalAt(bits: seq<int>, carrier: Wave, n: nat, start: nat, i: nat, at: nat)
    requires i < |bits| && at == start + Offset(i, n)
    ensures Offset(i, n) + n <= |BpskSignal(bits, carrier, n, start)|
    ensures BpskSignal(bits, carrier, n, start)[Offset(i, n)..Offset(i, n) + n] == BpskSymbol(bits[i], carrier, at, n)
  {
    var head := BpskSymbol(bits[0], carrier, start, n);
    var tail := BpskSignal(bits[1..], carrier, n, start + n);
    assert BpskSignal(bits, carrier, n, start) == head + tail;
    if i == 0 {
      assert Offset(i, n) == 0 && at == start;
      SliceOfConcat(head, tail, 0, n, 0);
    } else {
      BpskSignalAt(bits[1..], carrier, n, start + n, i - 1, at);
      SliceOfConcat(head, tail, Offset(i, n), n, Offset(i - 1, n));
      assert bits[1..][i - 1] == bits[i];
    }
  }

  /** The demodulator's decisions: bit i is 1 exactly when correlation i is positive. */
  function BpskDecisions(received: seq<real>, carrier: Wave, n: nat): (bits: seq<int>)
    requires n > 0
    ensures |bits| == |received| / n && IsBits(bits)
  {
    seq(|received| / n, i requires 0 <= i < |received| / n =>
      if Correlation(received, carrier, n, i) > 0.0 then 1 else 0)
  }

  /** Writing symbol i after the first i symbols extends the prefix of the signal by one window. */
  lemma {:induction false} BpskModulateStep(prefix: seq<real>, bits: seq<int>, carrier: Wave, n: nat, start: nat, i: nat, total: seq<real>)
    requires i < |bits|
    requires prefix + BpskSignal(bits[i..], carrier, n, start) == total
    ensures |prefix| + n <= |total|
    ensures (prefix + BpskSymbol(bits[i], carrier, start, n)) + BpskSignal(bits[i + 1..], carrier, n, start + n) == total
  {
    BpskSignalStep(bits, carrier, n, start, i);
  }

  /** bpsk_modulate: a zero buffer whose windows are overwritten one bit at a time. */
  method BpskModulate(bits: seq<int>, carrier: Wave, n: nat) returns (modulated: seq<real>)
    ensures |modulated| == |bits| * n
    ensures modulated == BpskSignal(bits, carrier, n, 0)
  {
    ghost var total := BpskSignal(bits, carrier, n, 0);
    var buffer := new real[|bits| * n];
    assert buffer.Length == |total| by {
      BpskSignalLength(bits, carrier, n, 0);
    }
    var start: nat := 0;
    for i := 0 to |bits|
      invariant start <= buffer.Length
      invariant buffer[..start] + BpskSignal(bits[i..], carrier, n, start) == total
    {
      start := WriteBpskSymbol(buffer, bits, carrier, n, i, start, total);
    }
    modulated := buffer[..];
  }

  /** `modulated[i * n:(i + 1) * n] = ±carrier[i * n:(i + 1) * n]`: one more window of the signal. */
  method WriteBpskSymbol(buffer: array<real>, bits: seq<int>, carrier: Wave, n: nat, i: nat, start: nat,
                         ghost total: seq<real>) returns (next: nat)
    requires i < |bits| && start <= buffer.Length == |total|
    requires buffer[..start] + BpskSignal(bits[i..], carrier, n, start) == total
    modifies buffer
    ensures next == start + n <= buffer.Length
    ensures buffer[..next] + BpskSignal(bits[i + 1..], carrier, n, next) == total
  {
    ghost var prefix := buffer[..start];
    var symbol := BpskSymbol(bits[i], carrier, start, n);
    BpskModulateStep(prefix, bits, carrier, n, start, i, total);
    AssignSlice(buffer, start, start + n, symbol);
    next := start + n;
    assert buffer[..next] == prefix + symbol;
  }

  /** bpsk_demodulate: one decision per whole window; a trailing partial window is ignored. */
  method BpskDemodulate(received: seq<real>, carrier: Wave, n: nat) returns (bits: seq<int>)
    requires n > 0
    ensures |bits| == |received| / n && IsBits(bits)
    ensures bits == BpskDecisions(received, carrier, n)
  {
    var numBits := |received| / n;
    var demodulated := new int[numBits];
    var reference := Window(carrier, 0, n);
    for i := 0 to numBits
      invariant forall k :: 0 <= k < i ==> demodulated[k] == BpskDecisions(received, carrier, n)[k]
    {
      WindowCount(|received|, n, i);
      var start, end := i * n, (i + 1) * n;
      var correlation := Dot(received[start..end], reference);
      demodulated[i] := if correlation > 0.0 then 1 else 0;
    }
    bits := demodulated[..];
  }

  /** A carrier that repeats every symbol: each modulator window equals the demodulator's reference. */
  ghost predicate SymbolPeriodic(w: Wave, n: nat, count: nat) {
    forall i :: 0 <= i < count ==> SymbolWindow(w, n, i) == Window(w, 0, n)
  }

  /** Energy of one symbol of a carrier. */
  function Energy(w: Wave, n: nat): real {
    Dot(Window(w, 0, n), Window(w, 0, n))
  }

  /**
   * Noiseless BPSK recovers the bits, provided the carrier repeats every
   * symbol and has positive energy over one symbol.
   */
  lemma {:induction false} BpskRoundTrip(bits: seq<int>, carrier: Wave, n: nat)
    requires n > 0 && IsBits(bits)
    requires SymbolPeriodic(carrier, n, |bits|) && Energy(carrier, n) > 0.0
    ensures BpskDecisions(BpskSignal(bits, carrier, n, 0), carrier, n) == bits
  {
    var s := BpskSignal(bits, carrier, n, 0);
    BpskSignalLength(bits, carrier, n, 0);
    DivUnique(|bits| * n, n, |bits|, 0);
    var d := BpskDecisions(s, carrier, n);
    forall i | 0 <= i < |bits| ensures d[i] == bits[i] {
      BpskSignalWindow(bits, carrier, n, i);
      var reference := Window(carrier, 0, n);
      if bits[i] == 1 {
        assert Correlation(s, carrier, n, i) == Energy(carrier, n);
      } else {
        DotNegate(reference, reference);
        assert Correlation(s, carrier, n, i) == -Energy(carrier, n);
      }
    }
  }

  // ---------------------------------------------------------------------
  // QPSK

  /** The four carrier phases of the phase table. */
  datatype Phase = QuarterPi | ThreeQuarterPi | MinusQuarterPi | MinusThreeQuarterPi

  /** The phase table; a pair that is not a key is a KeyError. */
  function PhaseOf(b1: int, b2: int): (r: Result<Phase>)
    ensures r.Success? <==> IsBit(b1) && IsBit(b2)
    ensures r.Failure? ==> r.error == QpskUnknownDibit
  {
    if b1 == 0 && b2 == 0 then Success(QuarterPi)
    else if b1 == 0 && b2 == 1 then Success(ThreeQuarterPi)
    else if b1 == 1 && b2 == 0 then Success(MinusQuarterPi)
    else if b1 == 1 && b2 == 1 then Success(MinusThreeQuarterPi)
    else Failure(QpskUnknownDibit)
  }

  /**
   * The magnitudes of np.cos and np.sin at the four table angles, written as
   * the shortest decimals that round to numpy's doubles (the reals here are
   * those decimals, not the doubles' exact binary values). The double nearest
   * pi / 4 lies just below pi / 4, so the cosines and sines come out as two
   * different doubles: 0.7071067811865476 for cos(pi / 4), sin(3 pi / 4),
   * cos(-pi / 4) and sin(-3 pi / 4), and 0.7071067811865475 for the other four.
   */
  const Major: real := 0.7071067811865476
  const Minor: real := 0.7071067811865475

  /** np.cos(theta) at the table angle: positive on the right half-plane, of square 1/2 up to rounding. */
  function Cos(p: Phase): (c: real)
    ensures c > 0.0 <==> p == QuarterPi || p == MinusQuarterPi
    ensures 0.4999999999999999 < c * c < 0.5000000000000002
  {
    match p
    case QuarterPi => Major
    case ThreeQuarterPi => -Minor
    case MinusQuarterPi => Major
    case MinusThreeQuarterPi => -Minor
  }

  /** np.sin(theta) at the table angle: positive on the upper half-plane, of square 1/2 up to rounding. */
  function Sin(p: Phase): (s: real)
    ensures s > 0.0 <==> p == QuarterPi || p == ThreeQuarterPi
    ensures 0.4999999999999999 < s * s < 0.5000000000000002
  {
    match p
    case QuarterPi => Minor
    case ThreeQuarterPi => Major
    case MinusQuarterPi => -Minor
    case MinusThreeQuarterPi => -Major
  }

  /** The demodulator's decision on cos(theta) of a table phase recovers b2, on sin(theta) b1. */
  lemma PhaseDecisions(b1: int, b2: int)
    requires IsBit(b1) && IsBit(b2)
    ensures PhaseOf(b1, b2).Success?
    ensures Decision(Cos(PhaseOf(b1, b2).value)) == b2
    ensures Decision(Sin(PhaseOf(b1, b2).value)) == b1
  {
  }

  /** The symbols of an even-length sequence: the pairs (bits[2i], bits[2i + 1]). */
  function Dibits(bits: seq<int>): (symbols: seq<(int, int)>)
    requires |bits| % 2 == 0
    ensures |symbols| == |bits| / 2
    ensures forall i :: 0 <= i < |symbols| ==> symbols[i] == (bits[2 * i], bits[2 * i + 1])
  {
    seq(|bits| / 2, i requires 0 <= i < |bits| / 2 => (bits[2 * i], bits[2 * i + 1]))
  }

  /** Every symbol is a key of the phase table. */
  predicate InTable(symbols: seq<(int, int)>) {
    forall i :: 0 <= i < |symbols| ==> PhaseOf(symbols[i].0, symbols[i].1).Success?
  }

  /** The symbols of a sequence are all in the table exactly when every element is a bit. */
  lemma DibitsInTable(bits: seq<int>)
    requires |bits| % 2 == 0
    ensures InTable(Dibits(bits)) <==> IsBits(bits)
  {
    var symbols := Dibits(bits);
    if InTable(symbols) {
      forall k | 0 <= k < |bits| ensures IsBit(bits[k]) {
        assert PhaseOf(symbols[k / 2].0, symbols[k / 2].1).Success?;
      }
    }
  }

  /**
   * The table phase of each symbol; a symbol outside the table, on which the
   * modulator fails, gets QuarterPi as a stand-in.
   */
  function Phases(symbols: seq<(int, int)>): (ps: seq<Phase>)
    ensures |ps| == |symbols|
  {
    seq(|symbols|, i requires 0 <= i < |symbols| =>
      var entry := PhaseOf(symbols[i].0, symbols[i].1); if entry.Success? then entry.value else QuarterPi)
  }

  /** A symbol outside the table leaves the whole sequence outside it. */
  lemma TableMiss(symbols: seq<(int, int)>, i: nat)
    requires i < |symbols| && PhaseOf(symbols[i].0, symbols[i].1).Failure?
    ensures !InTable(symbols)
  {
  }

  /** A symbol in the table extends the checked prefix and has its table phase. */
  lemma TableHit(symbols: seq<(int, int)>, i: nat)
    requires i < |symbols| && InTable(symbols[..i]) && PhaseOf(symbols[i].0, symbols[i].1).Success?
    ensures InTable(symbols[..i + 1])
    ensures Phases(symbols)[i] == PhaseOf(symbols[i].0, symbols[i].1).value
  {
    assert forall j :: 0 <= j < i ==> symbols[..i + 1][j] == symbols[..i][j];
  }

  /** One symbol: the sin carrier times cos(theta) plus the cos carrier times sin(theta). */
  function QpskSymbol(p: Phase, sinWave: Wave, cosWave: Wave, start: nat, n: nat): (s: seq<real>)
    ensures |s| == n
  {
    Combine(Window(sinWave, start, n), Cos(p), Window(cosWave, start, n), Sin(p))
  }

  function QpskSignal(phases: seq<Phase>, sinWave: Wave, cosWave: Wave, n: nat, start: nat): seq<real>
  {
    if |phases| == 0 then []
    else QpskSymbol(phases[0], sinWave, cosWave, start, n) + QpskSignal(phases[1..], sinWave, cosWave, n, start + n)
  }

  lemma {:induction false} QpskSignalLength(phases: seq<Phase>, sinWave: Wave, cosWave: Wave, n: nat, start: nat)
    ensures |QpskSignal(phases, sinWave, cosWave, n, start)| == |phases| * n
  {
    if |phases| > 0 {
      QpskSignalLength(phases[1..], sinWave, cosWave, n, start + n);
      assert |phases| * n == n + (|phases| - 1) * n;
    }
  }

  lemma {:induction false} QpskSignalStep(phases: seq<Phase>, sinWave: Wave, cosWave: Wave, n: nat, start: nat, i: nat)
    requires i < |phases|
    ensures QpskSignal(phases[i..], sinWave, cosWave, n, start)
         == QpskSymbol(phases[i], sinWave, cosWave, start, n) + QpskSignal(phases[i + 1..], sinWave, cosWave, n, start + n)
  {
    assert phases[i..][1..] == phases[i + 1..];
  }

  /** Symbol i of the signal occupies samples Offset(i, n), ..., Offset(i, n) + n - 1. */
  lemma {:induction false} QpskSignalAt(phases: seq<Phase>, sinWave: Wave, cosWave: Wave, n: nat, start: nat, i: nat, at: nat)
    requires i < |phases| && at == start + Offset(i, n)
    ensures Offset(i, n) + n <= |QpskSignal(phases, sinWave, cosWave, n, start)|
    ensures QpskSignal(phases, sinWave, cosWave, n, start)[Offset(i, n)..Offset(i, n) + n]
         == QpskSymbol(phases[i], sinWave, cosWave, at, n)
  {
    var head := QpskSymbol(phases[0], sinWave, cosWave, start, n);
    var tail := QpskSignal(phases[1..], sinWave, cosWave, n, start + n);
    assert QpskSignal(phases, sinWave, cosWave, n, start) == head + tail;
    if i == 0 {
      assert Offset(i, n) == 0 && at == start;
      SliceOfConcat(head, tail, 0, n, 0);
    } else {
      QpskSignalAt(phases[1..], sinWave, cosWave, n, start + n, i - 1, at);
      SliceOfConcat(head, tail, Offset(i, n), n, Offset(i - 1, n));
      assert phases[1..][i - 1] == phases[i];
    }
  }

  /**
   * The demodulator's decisions: bit 2i is 1 exactly when the correlation of
   * symbol i with the sin carrier is negative, bit 2i + 1 exactly when the
   * correlation with the cos carrier is negative.
   */
  function QpskDecisions(received: seq<real>, sinWave: Wave, cosWave: Wave, n: nat): (bits: seq<int>)
    requires n > 0
    ensures |bits| == 2 * (|received| / n) && IsBits(bits)
  {
    seq(2 * (|received| / n), k requires 0 <= k < 2 * (|received| / n) => QpskDecision(received, sinWave, cosWave, n, k))
  }

  /** Decision k: the sin correlation of symbol k / 2 for even k, the cos correlation for odd k. */
  function QpskDecision(received: seq<real>, sinWave: Wave, cosWave: Wave, n: nat, k: nat): (bit: int)
    requires n > 0 && k < 2 * (|received| / n)
    ensures IsBit(bit)
  {
    if k % 2 == 0 then Decision(Correlation(received, sinWave, n, k / 2))
    else Decision(Correlation(received, cosWave, n, k / 2))
  }

  /** Bits 2i and 2i + 1 are decided from symbol i. */
  lemma QpskSymbolBits(received: seq<real>, sinWave: Wave, cosWave: Wave, n: nat, i: nat)
    requires n > 0 && i < |received| / n
    ensures 2 * i + 1 < |QpskDecisions(received, sinWave, cosWave, n)|
    ensures QpskDecisions(received, sinWave, cosWave, n)[2 * i] == Decision(Correlation(received, sinWave, n, i))
    ensures QpskDecisions(received, sinWave, cosWave, n)[2 * i + 1] == Decision(Correlation(received, cosWave, n, i))
  {
    var d := QpskDecisions(received, sinWave, cosWave, n);
    assert (2 * i) % 2 == 0 && (2 * i) / 2 == i;
    assert (2 * i + 1) % 2 == 1 && (2 * i + 1) / 2 == i;
    assert d[2 * i] == QpskDecision(received, sinWave, cosWave, n, 2 * i);
    assert d[2 * i + 1] == QpskDecision(received, sinWave, cosWave, n, 2 * i + 1);
  }

  /** Writing symbol i after the first i symbols extends the prefix of the signal by one window. */
  lemma {:induction false} QpskModulateStep(prefix: seq<real>, phases: seq<Phase>, sinWave: Wave, cosWave: Wave,
                         n: nat, start: nat, i: nat, total: seq<real>)
    requires i < |phases|
    requires prefix + QpskSignal(phases[i..], sinWave, cosWave, n, start) == total
    ensures |prefix| + n <= |total|
    ensures (prefix + QpskSymbol(phases[i], sinWave, cosWave, start, n)) + QpskSignal(phases[i + 1..], sinWave, cosWave, n, start + n) == total
  {
    QpskSignalStep(phases, sinWave, cosWave, n, start, i);
  }

  /**
   * qpsk_modulate: rejects an odd bit count, and otherwise modulates the
   * sequence's dibits.
   */
  method QpskModulate(bits: seq<int>, sinWave: Wave, cosWave: Wave, n: nat) returns (r: Result<seq<real>>)
    ensures |bits| % 2 != 0 ==> r == Failure(QpskOddLength)
    ensures |bits| % 2 == 0 && !IsBits(bits) ==> r == Failure(QpskUnknownDibit)
    ensures |bits| % 2 == 0 && IsBits(bits) ==>
              r.Success? && |r.value| == |bits| / 2 * n && r.value == QpskSignal(Phases(Dibits(bits)), sinWave, cosWave, n, 0)
  {
    if |bits| % 2 != 0 {
      return Failure(QpskOddLength);
    }
    var symbols := Dibits(bits);
    DibitsInTable(bits);
    r := ModulateSymbols(symbols, sinWave, cosWave, n);
  }

  /**
   * The symbol loop of qpsk_modulate: looks each symbol up in the phase table
   * (failing on the first one it does not hold) and overwrites that symbol's
   * window of a zero buffer.
   */
  method ModulateSymbols(symbols: seq<(int, int)>, sinWave: Wave, cosWave: Wave, n: nat) returns (r: Result<seq<real>>)
    ensures !InTable(symbols) ==> r == Failure(QpskUnknownDibit)
    ensures InTable(symbols) ==>
              r.Success? && |r.value| == |symbols| * n && r.value == QpskSignal(Phases(symbols), sinWave, cosWave, n, 0)
  {
    var count := |symbols|;
    ghost var phases := Phases(symbols);
    ghost var total := QpskSignal(phases, sinWave, cosWave, n, 0);
    var buffer := new real[count * n];
    assert buffer.Length == |total| by {
      QpskSignalLength(phases, sinWave, cosWave, n, 0);
    }
    var start: nat := 0;
    for i := 0 to count
      invariant InTable(symbols[..i])
      invariant start <= buffer.Length
      invariant buffer[..start] + QpskSignal(phases[i..], sinWave, cosWave, n, start) == total
    {
      var phase := PhaseOf(symbols[i].0, symbols[i].1);
      if phase.Failure? {
        TableMiss(symbols, i);
        return Failure(QpskUnknownDibit);
      }
      TableHit(symbols, i);
      start := WriteQpskSymbol(buffer, phases, phase.value, sinWave, cosWave, n, i, start, total);
    }
    assert symbols[..count] == symbols;
    return Success(buffer[..]);
  }

  /** `modulated[i * n:(i + 1) * n] = carrier_i * cos(theta) + carrier_q * sin(theta)`: one more window of the signal. */
  method WriteQpskSymbol(buffer: array<real>, ghost phases: seq<Phase>, theta: Phase, sinWave: Wave, cosWave: Wave,
                         n: nat, i: nat, start: nat, ghost total: seq<real>) returns (next: nat)
    requires i < |phases| && theta == phases[i] && start <= buffer.Length == |total|
    requires buffer[..start] + QpskSignal(phases[i..], sinWave, cosWave, n, start) == total
    modifies buffer
    ensures next == start + n <= buffer.Length
    ensures buffer[..next] + QpskSignal(phases[i + 1..], sinWave, cosWave, n, next) == total
  {
    ghost var prefix := buffer[..start];
    var symbol := QpskSymbol(theta, sinWave, cosWave, start, n);
    QpskModulateStep(prefix, phases, sinWave, cosWave, n, start, i, total);
    AssignSlice(buffer, start, start + n, symbol);
    next := start + n;
    assert buffer[..next] == prefix + symbol;
  }

  /** qpsk_demodulate: two decisions per whole symbol window. */
  method QpskDemodulate(received: seq<real>, sinWave: Wave, cosWave: Wave, n: nat) returns (bits: seq<int>)
    requires n > 0
    ensures |bits| == 2 * (|received| / n) && IsBits(bits)
    ensures bits == QpskDecisions(received, sinWave, cosWave, n)
  {
    var numSymbols := |received| / n;
    var demodulated := new int[numSymbols * 2];
    var carrierI, carrierQ := Window(sinWave, 0, n), Window(cosWave, 0, n);
    for i := 0 to numSymbols
      invariant forall k :: 0 <= k < 2 * i ==> demodulated[k] == QpskDecisions(received, sinWave, cosWave, n)[k]
    {
      WindowCount(|received|, n, i);
      var start, end := i * n, (i + 1) * n;
      var iComponent := Dot(received[start..end], carrierI);
      var qComponent := Dot(received[start..end], carrierQ);
      demodulated[2 * i] := if iComponent < 0.0 then 1 else 0;
      demodulated[2 * i + 1] := if qComponent < 0.0 then 1 else 0;
    }
    bits := demodulated[..];
  }

  /** Each dibit (a, b) becomes (b, a). */
  function SwapPairs(bits: seq<int>): (r: seq<int>)
    requires |bits| % 2 == 0
    ensures |r| == |bits|
  {
    seq(|bits|, k requires 0 <= k < |bits| => if k % 2 == 0 then bits[k + 1] else bits[k - 1])
  }

  /** Swapping is the identity exactly when every dibit has two equal bits. */
  lemma SwapPairsIdentity(bits: seq<int>)
    requires |bits| % 2 == 0
    ensures SwapPairs(bits) == bits <==> forall i :: 0 <= i < |bits| / 2 ==> bits[2 * i] == bits[2 * i + 1]
  {
    if forall i :: 0 <= i < |bits| / 2 ==> bits[2 * i] == bits[2 * i + 1] {
      forall k | 0 <= k < |bits| ensures SwapPairs(bits)[k] == bits[k] {
        var i := k / 2;
        assert k == 2 * i || k == 2 * i + 1;
        assert bits[2 * i] == bits[2 * i + 1];
      }
    } else {
      var i :| 0 <= i < |bits| / 2 && bits[2 * i] != bits[2 * i + 1];
      assert SwapPairs(bits)[2 * i] != bits[2 * i];
    }
  }

  /** Window i of the modulated buffer is the carriers on that window, weighted by the phase of symbol i. */
  lemma {:induction false} QpskSignalWindow(phases: seq<Phase>, sinWave: Wave, cosWave: Wave, n: nat, i: nat)
    requires n > 0 && i < |phases|
    ensures |QpskSignal(phases, sinWave, cosWave, n, 0)| / n == |phases|
    ensures ReceivedWindow(QpskSignal(phases, sinWave, cosWave, n, 0), n, i)
         == Combine(SymbolWindow(sinWave, n, i), Cos(phases[i]), SymbolWindow(cosWave, n, i), Sin(phases[i]))
  {
    QpskSignalLength(phases, sinWave, cosWave, n, 0);
    DivUnique(|phases| * n, n, |phases|, 0);
    OffsetIsProduct(i, n);
    QpskSignalAt(phases, sinWave, cosWave, n, 0, i, i * n);
  }

  /** Carrier conditions under which a noiseless QPSK symbol is decided from its phase signs. */
  ghost predicate QpskCarriers(sinWave: Wave, cosWave: Wave, n: nat, count: nat) {
    && SymbolPeriodic(sinWave, n, count) && SymbolPeriodic(cosWave, n, count)
    && Energy(sinWave, n) > 0.0 && Energy(cosWave, n) > 0.0
    && Dot(Window(sinWave, 0, n), Window(cosWave, 0, n)) == 0.0
  }

  /**
   * A received symbol that mixes two orthogonal carriers correlates with the
   * sin carrier in proportion to the sin carrier's weight ...
   */
  lemma SinCorrelation(received: seq<real>, sinWave: Wave, cosWave: Wave, n: nat, i: nat, c: real, s: real)
    requires n > 0 && i < |received| / n
    requires Dot(Window(sinWave, 0, n), Window(cosWave, 0, n)) == 0.0
    requires ReceivedWindow(received, n, i) == Combine(Window(sinWave, 0, n), c, Window(cosWave, 0, n), s)
    ensures Correlation(received, sinWave, n, i) == c * Energy(sinWave, n)
  {
    var si, co := Window(sinWave, 0, n), Window(cosWave, 0, n);
    var window := ReceivedWindow(received, n, i);
    CorrelateFirst(window, si, c, co, s);
    assert Correlation(received, sinWave, n, i) == Dot(window, si);
    assert Energy(sinWave, n) == Dot(si, si);
  }

  /** ... and with the cos carrier in proportion to the cos carrier's weight. */
  lemma CosCorrelation(received: seq<real>, sinWave: Wave, cosWave: Wave, n: nat, i: nat, c: real, s: real)
    requires n > 0 && i < |received| / n
    requires Dot(Window(sinWave, 0, n), Window(cosWave, 0, n)) == 0.0
    requires ReceivedWindow(received, n, i) == Combine(Window(sinWave, 0, n), c, Window(cosWave, 0, n), s)
    ensures Correlation(received, cosWave, n, i) == s * Energy(cosWave, n)
  {
    var si, co := Window(sinWave, 0, n), Window(cosWave, 0, n);
    var window := ReceivedWindow(received, n, i);
    CorrelateSecond(window, si, c, co, s);
    assert Correlation(received, cosWave, n, i) == Dot(window, co);
    assert Energy(cosWave, n) == Dot(co, co);
  }

  /** A window holding a combination of two orthogonal carriers correlates with the first by its weight. */
  lemma CorrelateFirst(window: seq<real>, u: seq<real>, a: real, v: seq<real>, b: real)
    requires |u| == |v| && Dot(u, v) == 0.0 && window == Combine(u, a, v, b)
    ensures Dot(window, u) == a * Dot(u, u)
  {
    DotSymmetric(u, v);
    FirstWeight(u, a, v, b, u);
  }

  /** ... and with the second by its weight. */
  lemma CorrelateSecond(window: seq<real>, u: seq<real>, a: real, v: seq<real>, b: real)
    requires |u| == |v| && Dot(u, v) == 0.0 && window == Combine(u, a, v, b)
    ensures Dot(window, v) == b * Dot(v, v)
  {
    SecondWeight(u, a, v, b, v);
  }

  /** Correlating a combination with a sequence orthogonal to its second part isolates the first weight. */
  lemma {:induction false} FirstWeight(u: seq<real>, a: real, v: seq<real>, b: real, w: seq<real>)
    requires |u| == |v| == |w| && Dot(v, w) == 0.0
    ensures Dot(Combine(u, a, v, b), w) == a * Dot(u, w)
  {
    DotCombine(u, a, v, b, w);
  }

  /** Correlating a combination with a sequence orthogonal to its first part isolates the second weight. */
  lemma {:induction false} SecondWeight(u: seq<real>, a: real, v: seq<real>, b: real, w: seq<real>)
    requires |u| == |v| == |w| && Dot(u, w) == 0.0
    ensures Dot(Combine(u, a, v, b), w) == b * Dot(v, w)
  {
    DotCombine(u, a, v, b, w);
  }

  /** Scaling by a positive energy keeps the sign. */
  lemma ScaledSign(c: real, e: real)
    requires e > 0.0
    ensures c * e < 0.0 <==> c < 0.0
  {
    if c >= 0.0 { assert c * e >= 0.0; }
  }

  /** A sin correlation with the sign of c decides bit 2i as c's sign does ... */
  lemma SinBitDecided(received: seq<real>, sinWave: Wave, cosWave: Wave, n: nat, i: nat, c: real)
    requires n > 0 && i < |received| / n
    requires Correlation(received, sinWave, n, i) < 0.0 <==> c < 0.0
    ensures QpskDecisions(received, sinWave, cosWave, n)[2 * i] == Decision(c)
  {
    QpskSymbolBits(received, sinWave, cosWave, n, i);
  }

  /** ... and a cos correlation with the sign of s decides bit 2i + 1 as s's sign does. */
  lemma CosBitDecided(received: seq<real>, sinWave: Wave, cosWave: Wave, n: nat, i: nat, s: real)
    requires n > 0 && i < |received| / n
    requires Correlation(received, cosWave, n, i) < 0.0 <==> s < 0.0
    ensures QpskDecisions(received, sinWave, cosWave, n)[2 * i + 1] == Decision(s)
  {
    QpskSymbolBits(received, sinWave, cosWave, n, i);
  }

  /** The two decisions for symbol i of a noiseless signal follow the signs of cos and sin of its phase. */
  lemma {:induction false} QpskSymbolDecided(phases: seq<Phase>, sinWave: Wave, cosWave: Wave, n: nat, i: nat)
    requires n > 0 && i < |phases| && QpskCarriers(sinWave, cosWave, n, |phases|)
    ensures |QpskSignal(phases, sinWave, cosWave, n, 0)| / n == |phases|
    ensures QpskDecisions(QpskSignal(phases, sinWave, cosWave, n, 0), sinWave, cosWave, n)[2 * i] == Decision(Cos(phases[i]))
    ensures QpskDecisions(QpskSignal(phases, sinWave, cosWave, n, 0), sinWave, cosWave, n)[2 * i + 1] == Decision(Sin(phases[i]))
  {
    QpskSignalWindow(phases, sinWave, cosWave, n, i);
    assert SymbolWindow(sinWave, n, i) == Window(sinWave, 0, n);
    assert SymbolWindow(cosWave, n, i) == Window(cosWave, 0, n);
    var received := QpskSignal(phases, sinWave, cosWave, n, 0);
    SinCorrelation(received, sinWave, cosWave, n, i, Cos(phases[i]), Sin(phases[i]));
    CosCorrelation(received, sinWave, cosWave, n, i, Cos(phases[i]), Sin(phases[i]));
    ScaledSign(Cos(phases[i]), Energy(sinWave, n));
    ScaledSign(Sin(phases[i]), Energy(cosWave, n));
    SinBitDecided(received, sinWave, cosWave, n, i, Cos(phases[i]));
    CosBitDecided(received, sinWave, cosWave, n, i, Sin(phases[i]));
  }

  /**
   * Noiseless QPSK returns every dibit swapped, provided both carriers repeat
   * every symbol, have positive energy, and are orthogonal over a symbol.
   */
  lemma {:induction false} QpskRoundTrip(bits: seq<int>, sinWave: Wave, cosWave: Wave, n: nat)
    requires n > 0 && |bits| % 2 == 0 && IsBits(bits)
    requires QpskCarriers(sinWave, cosWave, n, |bits| / 2)
    ensures QpskDecisions(QpskSignal(Phases(Dibits(bits)), sinWave, cosWave, n, 0), sinWave, cosWave, n) == SwapPairs(bits)
  {
    var phases := Phases(Dibits(bits));
    var d := QpskDecisions(QpskSignal(phases, sinWave, cosWave, n, 0), sinWave, cosWave, n);
    var swapped := SwapPairs(bits);
    QpskSignalLength(phases, sinWave, cosWave, n, 0);
    DivUnique(|phases| * n, n, |phases|, 0);
    assert |d| == |bits|;
    forall k | 0 <= k < |bits| ensures d[k] == swapped[k] {
      var i := k / 2;
      QpskSymbolDecided(phases, sinWave, cosWave, n, i);
      DibitPhase(bits, i);
      SwapPairsAt(bits, i);
      assert k == 2 * i || k == 2 * i + 1;
    }
  }

  /** Symbol i of a bit sequence has the table phase of its dibit, whose decisions give the dibit back swapped. */
  lemma DibitPhase(bits: seq<int>, i: nat)
    requires |bits| % 2 == 0 && IsBits(bits) && i < |bits| / 2
    ensures Decision(Cos(Phases(Dibits(bits))[i])) == bits[2 * i + 1]
    ensures Decision(Sin(Phases(Dibits(bits))[i])) == bits[2 * i]
  {
    assert Dibits(bits)[i] == (bits[2 * i], bits[2 * i + 1]);
    PhaseDecisions(bits[2 * i], bits[2 * i + 1]);
  }

  lemma SwapPairsAt(bits: seq<int>, i: nat)
    requires |bits| % 2 == 0 && i < |bits| / 2
    ensures SwapPairs(bits)[2 * i] == bits[2 * i + 1] && SwapPairs(bits)[2 * i + 1] == bits[2 * i]
  {
    assert (2 * i) % 2 == 0 && (2 * i + 1) % 2 == 1;
  }
}
