/**
 * The CommunicationSystem of CommX/simulation.py: a configuration set once
 * at construction, dispatch to the BPSK or QPSK modem, and run_simulation,
 * which generates bits, optionally pads and Hamming-encodes them, sends them
 * through modulator, channel and demodulator, optionally decodes, truncates
 * to the requested length and scores the result with the bit error rate.
 *
 * The random parts are inputs: the generator's draws are a stream of
 * booleans (randint(0, 2) only ever returns 0 or 1), of which a run of
 * length k uses the first k, and the channel adds one noise sample per
 * index. The float parameters carrier_freq,
 * sample_rate and bit_duration are represented by what they determine for
 * the modems: the number of samples per symbol and the sampled carriers.
 */
module Simulation {
  import opened Bits
  import opened Outcome
  import Hamming
  import Modulation
  import Metrics

  /** Samples per symbol, and the sin and cos carriers sampled by index. */
  datatype Carriers = Carriers(n: nat, sinWave: Modulation.Wave, cosWave: Modulation.Wave)

  /** The dictionary run_simulation returns. */
  datatype Report = Report(
    originalSignal: seq<int>,
    modulatedSignal: seq<real>,
    receivedSignal: seq<real>,
    demodulatedSignal: seq<int>,
    ber: Metrics.Rate)

  /** data_length after the QPSK adjustment: for QPSK an odd length grows by one. */
  function AdjustedLength(modulationType: string, dataLength: int): (length: int)
    ensures modulationType != "qpsk" ==> length == dataLength
    ensures modulationType == "qpsk" ==> length % 2 == 0 && dataLength <= length <= dataLength + 1
  {
    if modulationType == "qpsk" && dataLength % 2 != 0 then dataLength + 1 else dataLength
  }

  /** `np.pad(signal, (0, pad))` with `pad = 4 - len % 4` when the length is not a multiple of 4. */
  function PadToBlocks(signal: seq<int>): (padded: seq<int>)
    ensures |padded| % 4 == 0 && |signal| <= |padded| < |signal| + 4
    ensures padded[..|signal|] == signal
    ensures forall i :: |signal| <= i < |padded| ==> padded[i] == 0
    ensures IsBits(signal) ==> IsBits(padded)
  {
    if |signal| % 4 != 0 then
      var padded := signal + Zeros(4 - |signal| % 4);
      assert IsBits(signal) ==> IsBits(padded) by {
        if IsBits(signal) { BitsConcat(signal, Zeros(4 - |signal| % 4)); }
      }
      assert padded[..|signal|] == signal;
      padded
    else signal
  }

  /** `s[:k]` for k >= 0: the first k entries, or all of s when it is shorter. */
  function Prefix(s: seq<int>, k: nat): (p: seq<int>)
    ensures |p| <= k && |p| <= |s| && (|p| == k || |p| == |s|)
    ensures p == s[..|p|]
  {
    if k <= |s| then s[..k] else s
  }

  /** The one multiple of 4 in [length, length + 4) is ceil(length / 4) * 4. */
  lemma PaddedLength(length: nat, padded: nat)
    requires padded % 4 == 0 && length <= padded < length + 4
    ensures padded == (length + 3) / 4 * 4 && padded / 4 == (length + 3) / 4
    ensures padded == length <==> length % 4 == 0
  {
    DivUnique(length + 3, 4, padded / 4, length + 3 - padded);
    if length % 4 == 0 {
      DivUnique(padded, 4, length / 4, padded - length);
    }
  }

  /** Seven codeword bits per block: the code has even length exactly when the block count is even. */
  lemma SevenParity(blocks: nat)
    ensures (blocks * 7) % 2 == blocks % 2
  {
    DivUnique(blocks * 7, 2, 3 * blocks + blocks / 2, blocks % 2);
  }

  /** A multiple of 8 is an even number of blocks of four. */
  lemma EightAsFours(length: nat)
    ensures length % 8 == 0 <==> length % 4 == 0 && (length / 4) % 2 == 0
  {
    if length % 8 == 0 {
      DivUnique(length, 4, 2 * (length / 8), 0);
    }
    if length % 4 == 0 && (length / 4) % 2 == 0 {
      DivUnique(length, 8, length / 8 + 0, 0);
    }
  }

  /**
   * CommunicationSystem.__init__: rejects a modulation type other than
   * 'bpsk' and 'qpsk', and otherwise stores its arguments unchanged.
   */
  method NewSystem(modulationType: string, snrDb: real, carrierFreq: real, sampleRate: real,
                   bitDuration: real, useErrorCorrection: bool, carriers: Carriers)
    returns (r: Result<CommunicationSystem>)
    ensures r.Failure? <==> modulationType != "bpsk" && modulationType != "qpsk"
    ensures r.Failure? ==> r.error == UnknownModulationType
    ensures r.Success? ==>
              && fresh(r.value)
              && r.value.Known()
              && r.value.modulationType == modulationType
              && r.value.snrDb == snrDb
              && r.value.carrierFreq == carrierFreq
              && r.value.sampleRate == sampleRate
              && r.value.bitDuration == bitDuration
              && r.value.useErrorCorrection == useErrorCorrection
              && r.value.carriers == carriers
  {
    if modulationType != "bpsk" && modulationType != "qpsk" {
      return Failure(UnknownModulationType);
    }
    var system := new CommunicationSystem(modulationType, snrDb, carrierFreq, sampleRate,
                                          bitDuration, useErrorCorrection, carriers);
    return Success(system);
  }

  class CommunicationSystem {
    const modulationType: string
    const snrDb: real
    const carrierFreq: real
    const sampleRate: real
    const bitDuration: real
    const useErrorCorrection: bool
    const carriers: Carriers

    /** The assignments of __init__; the type check is NewSystem's. */
    constructor (modulationType: string, snrDb: real, carrierFreq: real, sampleRate: real,
                 bitDuration: real, useErrorCorrection: bool, carriers: Carriers)
      ensures this.modulationType == modulationType && this.snrDb == snrDb
      ensures this.carrierFreq == carrierFreq && this.sampleRate == sampleRate
      ensures this.bitDuration == bitDuration && this.useErrorCorrection == useErrorCorrection
      ensures this.carriers == carriers
    {
      this.modulationType := modulationType;
      this.snrDb := snrDb;
      this.carrierFreq := carrierFreq;
      this.sampleRate := sampleRate;
      this.bitDuration := bitDuration;
      this.useErrorCorrection := useErrorCorrection;
      this.carriers := carriers;
    }

    /** The modulation types __init__ accepts. */
    predicate Known() {
      modulationType == "bpsk" || modulationType == "qpsk"
    }

    // -------------------------------------------------------------------
    // The four stages, as dispatch

    /** generate_signal: `randint(0, 2, length)`, the first `length` draws of the bit generator. */
    function GenerateSignal(length: nat, draws: nat -> bool): (signal: seq<int>)
      ensures |signal| == length && IsBits(signal)
    {
      seq(length, i requires 0 <= i < length => if draws(i) then 1 else 0)
    }

    /** modulate, as a value: BPSK on the sin carrier, QPSK for any other type. */
    function Modulated(signal: seq<int>): (r: Result<seq<real>>)
      ensures r.Failure? <==> modulationType != "bpsk" && (|signal| % 2 != 0 || !IsBits(signal))
      ensures r.Failure? ==> r.error == if |signal| % 2 != 0 then QpskOddLength else QpskUnknownDibit
    {
      if modulationType == "bpsk" then
        Success(Modulation.BpskSignal(signal, carriers.sinWave, carriers.n, 0))
      else if |signal| % 2 != 0 then Failure(QpskOddLength)
      else if !IsBits(signal) then Failure(QpskUnknownDibit)
      else Success(Modulation.QpskSignal(Modulation.Phases(Modulation.Dibits(signal)),
                                         carriers.sinWave, carriers.cosWave, carriers.n, 0))
    }

    method Modulate(signal: seq<int>) returns (r: Result<seq<real>>)
      ensures r == Modulated(signal)
    {
      if modulationType == "bpsk" {
        var modulated := Modulation.BpskModulate(signal, carriers.sinWave, carriers.n);
        r := Success(modulated);
      } else {
        r := Modulation.QpskModulate(signal, carriers.sinWave, carriers.cosWave, carriers.n);
      }
    }

    /** add_channel_effects: awgn adds one noise sample to every sample of the signal. */
    function AddChannelEffects(signal: seq<real>, noise: nat -> real): (received: seq<real>)
      ensures |received| == |signal|
    {
      seq(|signal|, i requires 0 <= i < |signal| => signal[i] + noise(i))
    }

    /** demodulate, as a value: BPSK on the sin carrier, QPSK for any other type. */
    function Demodulated(received: seq<real>): (bits: seq<int>)
      requires carriers.n > 0
      ensures IsBits(bits)
    {
      if modulationType == "bpsk" then Modulation.BpskDecisions(received, carriers.sinWave, carriers.n)
      else Modulation.QpskDecisions(received, carriers.sinWave, carriers.cosWave, carriers.n)
    }

    method Demodulate(received: seq<real>) returns (bits: seq<int>)
      requires carriers.n > 0
      ensures bits == Demodulated(received)
    {
      if modulationType == "bpsk" {
        bits := Modulation.BpskDemodulate(received, carriers.sinWave, carriers.n);
      } else {
        bits := Modulation.QpskDemodulate(received, carriers.sinWave, carriers.cosWave, carriers.n);
      }
    }

    // -------------------------------------------------------------------
    // run_simulation

    /** The scored original: the generated bits, zero-padded to whole blocks under error correction. */
    function Original(length: nat, draws: nat -> bool): (original: seq<int>)
      ensures !useErrorCorrection ==> |original| == length
      ensures useErrorCorrection ==> |original| % 4 == 0 && length <= |original| < length + 4
      ensures IsBits(original)
    {
      if useErrorCorrection then PadToBlocks(GenerateSignal(length, draws)) else GenerateSignal(length, draws)
    }

    /** signal_to_modulate: the Hamming code of the original under error correction. */
    function Transmitted(original: seq<int>): (signal: seq<int>)
      ensures useErrorCorrection ==> |signal| == |original| / 4 * 7
      ensures !useErrorCorrection ==> |signal| == |original|
      ensures IsBits(original) ==> IsBits(signal)
    {
      if useErrorCorrection then Hamming.EncodeAll(original) else original
    }

    /** final_signal: the demodulated bits, decoded under error correction, cut to `length`. */
    function Recovered(demodulated: seq<int>, length: nat): (r: Result<seq<int>>)
      ensures r.Failure? <==> useErrorCorrection && |demodulated| % 7 != 0
      ensures r.Failure? ==> r.error == DecodeLengthNotMultipleOf7
    {
      if !useErrorCorrection then Success(Prefix(demodulated, length))
      else if |demodulated| % 7 != 0 then Failure(DecodeLengthNotMultipleOf7)
      else Success(Prefix(Hamming.DecodeAll(demodulated), length))
    }

    /**
     * The stages of run_simulation for the given draws and noise. The final
     * signal is scored against the padded original when `scorePadded` holds,
     * as the code does, and against the generated bits before padding
     * otherwise, as the orchestration is meant to.
     */
    function Simulate(dataLength: int, draws: nat -> bool, noise: nat -> real, scorePadded: bool): (r: Result<Report>)
      requires carriers.n > 0
      ensures AdjustedLength(modulationType, dataLength) < 0 ==> r == Failure(NegativeLength)
      ensures r.Success? ==>
        && |r.value.originalSignal| == |r.value.demodulatedSignal| == AdjustedLength(modulationType, dataLength)
        && IsBits(r.value.originalSignal)
        && Metrics.CalculateBer(r.value.originalSignal, r.value.demodulatedSignal) == Success(r.value.ber)
    {
      var length := AdjustedLength(modulationType, dataLength);
      if length < 0 then Failure(NegativeLength)
      else
        var original := Original(length, draws);
        var scored := if scorePadded then original else GenerateSignal(length, draws);
        match Modulated(Transmitted(original))
        case Failure(e) => Failure(e)
        case Success(modulated) =>
          var received := AddChannelEffects(modulated, noise);
          match Recovered(Demodulated(received), length)
          case Failure(e) => Failure(e)
          case Success(final) =>
            match Metrics.CalculateBer(scored, final)
            case Failure(e) => Failure(e)
            case Success(ber) => Success(Report(scored, modulated, received, final, ber))
    }

    /** What run_simulation returns, or the exception it raises. */
    function Run(dataLength: int, draws: nat -> bool, noise: nat -> real): (r: Result<Report>)
      requires carriers.n > 0
      ensures r.Success? ==>
        && AdjustedLength(modulationType, dataLength) >= 0
        && r.value.originalSignal == GenerateSignal(AdjustedLength(modulationType, dataLength), draws)
    {
      Simulate(dataLength, draws, noise, true)
    }

    /** run_simulation scoring the generated bits rather than their padded copy. */
    function RunAsIntended(dataLength: int, draws: nat -> bool, noise: nat -> real): (r: Result<Report>)
      requires carriers.n > 0
      ensures Run(dataLength, draws, noise).Success? ==> r == Run(dataLength, draws, noise)
    {
      Simulate(dataLength, draws, noise, false)
    }

    /**
     * run_simulation. `draws` are the values the random bit generator
     * returns and `noise` the samples the channel adds; a negative length,
     * which the generator rejects, is a failure.
     */
    method RunSimulation(dataLength: int, draws: nat -> bool, noise: nat -> real) returns (r: Result<Report>)
      requires carriers.n > 0
      ensures r == Run(dataLength, draws, noise)
    {
      var length := dataLength;
      if modulationType == "qpsk" && length % 2 != 0 {
        length := length + 1;
      }
      if length < 0 {
        return Failure(NegativeLength);
      }
      var originalSignal, signalToModulate := PrepareSignal(length, draws);
      var modulated := Modulate(signalToModulate);
      if modulated.Failure? {
        return Failure(modulated.error);
      }
      var received := AddChannelEffects(modulated.value, noise);
      var demodulated := Demodulate(received);
      var finalSignal := RecoverSignal(demodulated, length);
      if finalSignal.Failure? {
        return Failure(finalSignal.error);
      }
      var ber := Metrics.CalculateBer(originalSignal, finalSignal.value);
      if ber.Failure? {
        return Failure(ber.error);
      }
      return Success(Report(originalSignal, modulated.value, received, finalSignal.value, ber.value));
    }

    /** The first half of run_simulation: generate, and under error correction pad and encode. */
    method PrepareSignal(length: nat, draws: nat -> bool) returns (originalSignal: seq<int>, signalToModulate: seq<int>)
      ensures originalSignal == Original(length, draws)
      ensures signalToModulate == Transmitted(originalSignal)
    {
      originalSignal := GenerateSignal(length, draws);
      if useErrorCorrection {
        if length % 4 != 0 {
          var pad := 4 - length % 4;
          originalSignal := originalSignal + Zeros(pad);
        }
        var encoded := Hamming.HammingEncode(originalSignal);
        signalToModulate := encoded.value;
      } else {
        signalToModulate := originalSignal;
      }
    }

    /**
     * The second half: under error correction decode a copy of the
     * demodulated bits (hamming_decode corrects its argument in place), then
     * keep the first `length` bits.
     */
    method RecoverSignal(demodulated: seq<int>, length: nat) returns (r: Result<seq<int>>)
      ensures r == Recovered(demodulated, length)
    {
      if useErrorCorrection {
        var buffer := new int[|demodulated|](i requires 0 <= i < |demodulated| => demodulated[i]);
        assert buffer[..] == demodulated;
        var decoded := Hamming.HammingDecode(buffer);
        if decoded.Failure? {
          return Failure(decoded.error);
        }
        r := Success(Prefix(decoded.value, length));
      } else {
        r := Success(Prefix(demodulated, length));
      }
    }

    // -------------------------------------------------------------------
    // What a run does

    /** The demodulator returns one bit per bit that was modulated. */
    lemma DemodulatedLength(signal: seq<int>, noise: nat -> real)
      requires carriers.n > 0 && Modulated(signal).Success?
      ensures |Demodulated(AddChannelEffects(Modulated(signal).value, noise))| == |signal|
    {
      var n := carriers.n;
      if modulationType == "bpsk" {
        Modulation.BpskSignalLength(signal, carriers.sinWave, n, 0);
        DivUnique(|signal| * n, n, |signal|, 0);
      } else {
        var phases := Modulation.Phases(Modulation.Dibits(signal));
        Modulation.QpskSignalLength(phases, carriers.sinWave, carriers.cosWave, n, 0);
        DivUnique(|phases| * n, n, |phases|, 0);
      }
    }

    /**
     * Without error correction a run of non-negative length always
     * succeeds: the final signal is the demodulated bits, exactly as many as
     * were generated, scored against the generated bits.
     */
    lemma RunUncoded(dataLength: int, draws: nat -> bool, noise: nat -> real)
      requires Known() && carriers.n > 0 && !useErrorCorrection
      requires AdjustedLength(modulationType, dataLength) >= 0
      ensures var length := AdjustedLength(modulationType, dataLength);
        var original := GenerateSignal(length, draws);
        var r := Run(dataLength, draws, noise);
        && r.Success?
        && r.value.originalSignal == original
        && r.value.modulatedSignal == Modulated(original).value
        && r.value.receivedSignal == AddChannelEffects(r.value.modulatedSignal, noise)
        && r.value.demodulatedSignal == Demodulated(r.value.receivedSignal)
        && |r.value.demodulatedSignal| == length
        && r.value.ber == Metrics.CalculateBer(original, r.value.demodulatedSignal).value
    {
      var length := AdjustedLength(modulationType, dataLength);
      var original := GenerateSignal(length, draws);
      assert Original(length, draws) == original && Transmitted(original) == original;
      var received := AddChannelEffects(Modulated(original).value, noise);
      var demodulated := Demodulated(received);
      DemodulatedLength(original, noise);
      assert demodulated[..length] == demodulated;
      assert Recovered(demodulated, length) == Success(demodulated);
    }

    /**
     * With error correction, the scored original is the generated bits
     * zero-padded to ceil(length / 4) blocks of four, and the modulated
     * sequence holds ceil(length / 4) codewords of seven bits.
     */
    lemma CodedLengths(length: nat, draws: nat -> bool)
      requires useErrorCorrection
      ensures |Original(length, draws)| == (length + 3) / 4 * 4
      ensures |Transmitted(Original(length, draws))| == (length + 3) / 4 * 7
    {
      var padded := Original(length, draws);
      PaddedLength(length, |padded|);
    }

    /**
     * Under error correction a modulated code comes back as one decoded
     * bit per original bit, cut to exactly `length`.
     */
    lemma CodedRecovery(length: nat, draws: nat -> bool, noise: nat -> real)
      requires carriers.n > 0 && useErrorCorrection
      requires Modulated(Transmitted(Original(length, draws))).Success?
      ensures var code := Transmitted(Original(length, draws));
        var demodulated := Demodulated(AddChannelEffects(Modulated(code).value, noise));
        && |demodulated| == |code| && |demodulated| % 7 == 0
        && |Hamming.DecodeAll(demodulated)| == |Original(length, draws)|
        && Recovered(demodulated, length).Success?
        && Recovered(demodulated, length).value == Hamming.DecodeAll(demodulated)[..length]
    {
      var original := Original(length, draws);
      var code := Transmitted(original);
      var demodulated := Demodulated(AddChannelEffects(Modulated(code).value, noise));
      DemodulatedLength(code, noise);
      Hamming.DecodeAllLength(demodulated);
      DivUnique(|original| / 4 * 7, 7, |original| / 4, 0);
      DivUnique(|original|, 4, |original| / 4, 0);
    }

    /**
     * BPSK with error correction: the padded original is scored against a
     * final signal of the requested length, so a run succeeds exactly when
     * the length is a multiple of 4 and otherwise stops in calculate_ber.
     */
    lemma RunCodedBpsk(dataLength: int, draws: nat -> bool, noise: nat -> real)
      requires carriers.n > 0 && useErrorCorrection && modulationType == "bpsk"
      requires dataLength >= 0
      ensures var r := Run(dataLength, draws, noise);
        && (r.Success? <==> dataLength % 4 == 0)
        && (r.Failure? ==> r.error == BerLengthMismatch)
    {
      var original := Original(dataLength, draws);
      PaddedLength(dataLength, |original|);
      CodedRecovery(dataLength, draws, noise);
    }

    /**
     * QPSK with error correction: the code must have an even length, so the
     * padded block count must be even (QpskOddLength otherwise), and the
     * score needs no padding, so a run succeeds exactly when the (adjusted)
     * length is a multiple of 8.
     */
    lemma RunCodedQpsk(dataLength: int, draws: nat -> bool, noise: nat -> real)
      requires carriers.n > 0 && useErrorCorrection && modulationType == "qpsk"
      requires AdjustedLength(modulationType, dataLength) >= 0
      ensures var length := AdjustedLength(modulationType, dataLength);
        var r := Run(dataLength, draws, noise);
        && (r.Success? <==> length % 8 == 0)
        && (r.Failure? ==> r.error == if ((length + 3) / 4) % 2 != 0 then QpskOddLength else BerLengthMismatch)
    {
      var length := AdjustedLength(modulationType, dataLength);
      var original := Original(length, draws);
      PaddedLength(length, |original|);
      SevenParity(|original| / 4);
      EightAsFours(length);
      if (|original| / 4) % 2 == 0 {
        CodedRecovery(length, draws, noise);
      }
    }

    // -------------------------------------------------------------------
    // Scoring the generated bits instead of the padded ones

    /**
     * The two ways of scoring differ only where padding happens: without
     * error correction, or for a length that needs no padding, they agree.
     */
    lemma RunAsIntendedAgrees(dataLength: int, draws: nat -> bool, noise: nat -> real)
      requires carriers.n > 0
      requires !useErrorCorrection || AdjustedLength(modulationType, dataLength) % 4 == 0
      ensures RunAsIntended(dataLength, draws, noise) == Run(dataLength, draws, noise)
    {
      var length := AdjustedLength(modulationType, dataLength);
      if length >= 0 && useErrorCorrection {
        var generated := GenerateSignal(length, draws);
        assert PadToBlocks(generated) == generated;
      }
    }

    /**
     * BPSK with error correction, scoring the generated bits: every run of
     * non-negative length succeeds and scores exactly `length` recovered
     * bits against the `length` generated ones.
     */
    lemma RunAsIntendedCoded(dataLength: int, draws: nat -> bool, noise: nat -> real)
      requires carriers.n > 0 && useErrorCorrection && modulationType == "bpsk"
      requires dataLength >= 0
      ensures var r := RunAsIntended(dataLength, draws, noise);
        && r.Success?
        && r.value.originalSignal == GenerateSignal(dataLength, draws)
        && |r.value.demodulatedSignal| == dataLength
        && r.value.ber == Metrics.CalculateBer(r.value.originalSignal, r.value.demodulatedSignal).value
    {
      var original := Original(dataLength, draws);
      PaddedLength(dataLength, |original|);
      CodedRecovery(dataLength, draws, noise);
    }

    // -------------------------------------------------------------------
    // A channel without noise

    /** A channel that adds nothing passes the signal through. */
    lemma Noiseless(signal: seq<real>, noise: nat -> real)
      requires forall i :: noise(i) == 0.0
      ensures AddChannelEffects(signal, noise) == signal
    {
    }

    /**
     * Uncoded BPSK over a noiseless channel, with a carrier that repeats
     * every symbol and has energy, returns the generated bits, and the bit
     * error rate is 0.
     */
    lemma NoiselessBpsk(dataLength: int, draws: nat -> bool, noise: nat -> real)
      requires carriers.n > 0 && !useErrorCorrection && modulationType == "bpsk"
      requires forall i :: noise(i) == 0.0
      requires dataLength > 0
      requires Modulation.SymbolPeriodic(carriers.sinWave, carriers.n, dataLength)
      requires Modulation.Energy(carriers.sinWave, carriers.n) > 0.0
      ensures var r := Run(dataLength, draws, noise);
        && r.Success?
        && r.value.originalSignal == GenerateSignal(dataLength, draws)
        && r.value.demodulatedSignal == r.value.originalSignal
        && r.value.ber == Metrics.Ratio(0.0)
    {
      var original := GenerateSignal(dataLength, draws);
      RunUncoded(dataLength, draws, noise);
      Noiseless(Modulated(original).value, noise);
      Modulation.BpskRoundTrip(original, carriers.sinWave, carriers.n);
      Metrics.BerZero(original, original);
    }

    /**
     * Uncoded QPSK over a noiseless channel, with orthogonal carriers that
     * repeat every symbol and have energy, returns every dibit with its bits
     * swapped; the bit error rate is 0 exactly when each dibit has equal bits.
     */
    lemma NoiselessQpsk(dataLength: int, draws: nat -> bool, noise: nat -> real)
      requires carriers.n > 0 && !useErrorCorrection && modulationType == "qpsk"
      requires forall i :: noise(i) == 0.0
      requires AdjustedLength(modulationType, dataLength) > 0
      requires Modulation.QpskCarriers(carriers.sinWave, carriers.cosWave, carriers.n,
                                       AdjustedLength(modulationType, dataLength) / 2)
      ensures var original := GenerateSignal(AdjustedLength(modulationType, dataLength), draws);
        var r := Run(dataLength, draws, noise);
        && r.Success?
        && r.value.originalSignal == original
        && r.value.demodulatedSignal == Modulation.SwapPairs(original)
        && (r.value.ber == Metrics.Ratio(0.0) <==>
              forall i :: 0 <= i < |original| / 2 ==> original[2 * i] == original[2 * i + 1])
    {
      var length := AdjustedLength(modulationType, dataLength);
      var original := GenerateSignal(length, draws);
      RunUncoded(dataLength, draws, noise);
      Noiseless(Modulated(original).value, noise);
      Modulation.QpskRoundTrip(original, carriers.sinWave, carriers.cosWave, carriers.n);
      Metrics.BerZero(original, Modulation.SwapPairs(original));
      Modulation.SwapPairsIdentity(original);
    }

    /**
     * BPSK with error correction over a noiseless channel, for a length
     * that needs no padding: the final signal is the decoded code of the
     * generated bits, and the bit error rate is 0 exactly when the decoder
     * restores every block, which is when each block's first and third bits
     * agree.
     */
    lemma NoiselessBpskCoded(dataLength: int, draws: nat -> bool, noise: nat -> real)
      requires carriers.n > 0 && useErrorCorrection && modulationType == "bpsk"
      requires forall i :: noise(i) == 0.0
      requires dataLength > 0 && dataLength % 4 == 0
      requires Modulation.SymbolPeriodic(carriers.sinWave, carriers.n, dataLength / 4 * 7)
      requires Modulation.Energy(carriers.sinWave, carriers.n) > 0.0
      ensures var original := GenerateSignal(dataLength, draws);
        var r := Run(dataLength, draws, noise);
        && r.Success?
        && r.value.originalSignal == original
        && r.value.demodulatedSignal == Hamming.DecodeAll(Hamming.EncodeAll(original))
        && (r.value.ber == Metrics.Ratio(0.0) <==> Hamming.FirstEqualsThird(original))
    {
      var original := GenerateSignal(dataLength, draws);
      var code := Hamming.EncodeAll(original);
      assert Original(dataLength, draws) == original;
      RunCodedBpsk(dataLength, draws, noise);
      CodedRecovery(dataLength, draws, noise);
      Noiseless(Modulated(code).value, noise);
      Modulation.BpskRoundTrip(code, carriers.sinWave, carriers.n);
      var decoded := Hamming.DecodeAll(code);
      Hamming.DecodeAllLength(code);
      DivUnique(|code|, 7, dataLength / 4, 0);
      DivUnique(dataLength, 4, dataLength / 4, 0);
      assert decoded[..dataLength] == decoded;
      Hamming.RoundTrip(original);
      Metrics.BerZero(original, decoded);
    }
  }
}

