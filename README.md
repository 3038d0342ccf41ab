# CommX link simulation in Dafny

A model of the core of CommX, a Python package that simulates a digital
communication link. It covers:

- **Bit source.** `random_binary_sequence` and `text_to_binary`.
- **Channel coder.** The (7,4) Hamming coder: `hamming_encode` and `hamming_decode`.
- **Modems.** The BPSK and QPSK modulators and demodulators.
- **BER meter.** The bit-error-rate meter `calculate_ber`.
- **Orchestrator.** `CommunicationSystem` and its `run_simulation`. It
  adjusts the length for QPSK, pads and encodes when error correction is
  on, modulates, adds channel noise, demodulates, decodes and truncates,
  and scores the result.

| file | module | what it holds |
|---|---|---|
| `outcome.dfy` | `Outcome` | the `Result` type, and one `Error` per exception the code raises |
| `bits.dfy` | `Bits` | bits, `x ^ 1`, reading a binary numeral (`int(s, 2)`), arithmetic helpers |
| `hamming.dfy` | `Hamming` | the two coder methods, with the functions that specify them, and what the constant matrices G and H do |
| `modulation.dfy` | `Modulation` | the four modem methods, which fill numpy-style buffers window by window, with their specifying functions and round-trip lemmas |
| `metrics.dfy` | `Metrics` | `calculate_ber` and its properties |
| `signals.dfy` | `Signals` | `text_to_binary` and its inverse on 8-bit characters |
| `simulation.dfy` | `Simulation` | the `CommunicationSystem` class, `run_simulation` as a method and as a function, and lemmas about whole runs |

## Abstractions

- **Sampling.** A carrier is a function from sample index to `real`. Each
  symbol takes `n` consecutive samples, where `n` stands for
  `bit_duration * sample_rate`.
  - The modulators evaluate the carrier on the time axis of the whole
    buffer, so symbol `i` reads samples `i*n … i*n+n-1`.
  - The demodulators build a new one-symbol time axis, so every symbol is
    correlated against samples `0 … n-1`.
  - The round-trip lemmas therefore assume a carrier that repeats every
    symbol (`SymbolPeriodic`, `QpskCarriers`).
- **Randomness.**
  - The bit generator's draws are a stream of booleans, because `randint(0, 2)` only returns 0 or 1.
  - The channel's noise is a stream of reals added sample by sample.
- **Errors.** Every exception the code raises is a `Failure` carrying one `Error` value:
  - the two length checks of the Hamming coder;
  - the odd-length check of QPSK, and the `KeyError` of its phase table;
  - the length check of `calculate_ber`;
  - the type check of the constructor;
  - the negative size `randint` rejects.
- **Bits.** Bits are unbounded `int`s. `x ^ 1` is modelled for every integer, negative ones included.
- **Empty BER.** `calculate_ber` of two empty arrays divides 0 by 0, and
  numpy returns NaN for that. The model returns `NotANumber`.

## Where the code departs from textbook behaviour

The model follows the code in each case below.

- **Hamming round trip.**
  - *Textbook:* a (7,4) Hamming decoder returns the message whenever at most one bit of its codeword is flipped.
  - *Code:* G (CommX/error_correction.py:6-9) and H (CommX/error_correction.py:20-22) are not a matched pair.
    H's columns also spell their positions least significant bit first, while the decoder reads the
    syndrome most significant bit first (CommX/error_correction.py:27).
  - *Proved* (`Hamming.SyndromeOfCodeword`, `Hamming.BlockRoundTripExact`, `Hamming.SingleErrorCorrection`):
    - a block with no flipped bit comes back unchanged only when its first and third bits agree;
    - a single flipped bit is repaired only at positions 2, 5 and 7.
- **QPSK round trip.**
  - *Textbook:* a QPSK demodulator returns the bits that were modulated.
  - *Code:* the modulator weights the sin carrier with cos θ (CommX/modulation.py:38).
    The demodulator decides the first bit of a pair from the sin correlation (CommX/modulation.py:50-54).
    So each dibit comes back with its two bits swapped (`Modulation.QpskRoundTrip`).
- **Scoring under error correction.**
  - *Evident intent:* the final signal is cut to `data_length` (CommX/simulation.py:54), so it is meant to be
    scored against the `data_length` generated bits.
  - *Code:* `original_signal` is replaced by its padded copy (CommX/simulation.py:45) before scoring
    (CommX/simulation.py:57), so the run stops with a length mismatch; see Findings.
- **Empty BER.** numpy returns NaN for 0/0, and the model follows the code.

## Model

| member | source | states |
|---|---|---|
| Bits.Xor1 | CommX/error_correction.py:29 | `x ^ 1` changes the parity, moves the value by exactly one and stays in the pair {2k, 2k+1} (`r / 2 == x / 2`, as Python's `//`), which fixes it for every integer; on a bit it gives the other bit (`Xor1OnBit`) |
| Bits.Xor1OnBit | CommX/error_correction.py:29 | on a bit, `b ^ 1` is the other bit |
| Bits.FromBinary | CommX/error_correction.py:27 | a k-digit binary numeral read most significant digit first lies in [0, 2^k) |
| Bits.FromBinaryLeadingZeros | CommX/error_correction.py:27 | leading zeros do not change the value `int(…, 2)` reads |
| Hamming.EncodeBlock | CommX/error_correction.py:13 | `(block @ G) % 2` is a 7-bit codeword |
| Hamming.Syndrome | CommX/error_correction.py:26 | `(H @ block) % 2` is three bits |
| Hamming.ErrorPosition | CommX/error_correction.py:27 | the syndrome read as a numeral is a position between 0 and 7 |
| Hamming.CorrectBlock | CommX/error_correction.py:26-29 | the corrected block has seven entries and differs from the received one at most at the syndrome's position (`CorrectBlockFlipsAtMostOne`, `FlipCorrected`, `SingleErrorCorrection`) |
| Hamming.DecodeBlock | CommX/error_correction.py:25-30 | four entries, the first four of the corrected block; an uncorrupted codeword comes back as `BlockRoundTrip` and `BlockRoundTripExact` state |
| Hamming.CorrectBlockFlipsAtMostOne | CommX/error_correction.py:27-29 | correction toggles exactly the bit at the syndrome's 1-based position and no other, and leaves the block unchanged exactly when that position is 0 |
| Hamming.EncodeAll | CommX/error_correction.py:10-15 | the encoder's output has 7 bits per whole 4-bit block, all of them bits |
| Hamming.CorrectAll | CommX/error_correction.py:24-29 | correcting every block keeps the buffer's length |
| Hamming.DecodeAll | CommX/error_correction.py:23-31 | definition: the decoded groups of the blocks one after another; see `DecodeAllLength`, `DecodeAllGroup`, `DecodeAllBlock`, `RoundTrip` |
| Hamming.DecodeAllLength | CommX/error_correction.py:23-31 | the decoder keeps 4 bits per whole 7-bit block |
| Hamming.EncodeAllBlock | CommX/error_correction.py:11-14 | codeword k of the output is the code of message block k |
| Hamming.CorrectAllBlock | CommX/error_correction.py:24-29 | block k of the corrected buffer is received block k corrected on its own |
| Hamming.DecodeAllGroup | CommX/error_correction.py:24-30 | decoded group k comes from received block k alone |
| Hamming.DecodeAllBlock | CommX/error_correction.py:28-30 | decoded group k is the first four bits of corrected block k |
| Hamming.HammingEncode | CommX/error_correction.py:3-15 | fails exactly when the length is not a multiple of 4; otherwise returns the concatenated codewords of the blocks |
| Hamming.HammingDecode | CommX/error_correction.py:17-31 | fails, leaving the buffer alone, exactly when the length is not a multiple of 7; otherwise returns the first four bits of each corrected block and leaves every block of the caller's buffer corrected in place |
| Hamming.CorrectInPlace | CommX/error_correction.py:25-29 | one loop turn changes the buffer into its correction at that block, through the view |
| Hamming.CorrectAt | CommX/error_correction.py:25-29 | correcting through the view at offset i keeps everything outside block i and turns that block into its correction, whose first four bits are the decoded group |
| Hamming.ErrorPositionExpanded | CommX/error_correction.py:27 | the position is 4·s1 + 2·s2 + s3 |
| Hamming.EncodeBlockSystematic | CommX/error_correction.py:6-9 | a codeword of a bit block starts with the block itself |
| Hamming.EncodeBlockParity | CommX/error_correction.py:6-9 | the three parity bits are m1⊕m2⊕m4, m1⊕m3⊕m4 and m2⊕m3⊕m4 |
| Hamming.SyndromeOfCodeword | CommX/error_correction.py:6-26 | H applied to a codeword gives [0, m1⊕m3, 0], so G and H do not match |
| Hamming.CodewordErrorPosition | CommX/error_correction.py:26-27 | the decoder sees an error at position 2 in an uncorrupted codeword exactly when m1 ≠ m3 |
| Hamming.BlockRoundTrip | CommX/error_correction.py:3-31 | decoding an uncorrupted codeword returns the block when m1 = m3, and otherwise the block with m2 flipped |
| Hamming.BlockRoundTripExact | CommX/error_correction.py:3-31 | the block survives encode-then-decode exactly when m1 = m3 |
| Hamming.FlippedPosition | CommX/error_correction.py:20-27 | after one error at position j of a zero-syndrome block, the decoder picks position [4,2,6,1,5,3,7][j] |
| Hamming.FlipCorrected | CommX/error_correction.py:28-29 | the decoder then toggles that position |
| Hamming.MisdirectedFixed | CommX/error_correction.py:20-22 | only columns 2, 5 and 7 of H read as their own position |
| Hamming.SingleErrorCorrection | CommX/error_correction.py:17-31 | one error in a zero-syndrome block is repaired exactly when it sits at position 2, 5 or 7 |
| Hamming.RoundTrip | CommX/error_correction.py:3-31 | decode(encode(data)) == data exactly when every 4-bit block has equal first and third bits |
| Modulation.Dot | CommX/modulation.py:21 | definition of `np.sum(u * v)`; linear in a weighted sum (`DotCombine`) and symmetric (`DotSymmetric`) |
| Modulation.Correlation | CommX/modulation.py:21 | definition: received window i against the carrier restarted at sample 0, as at lines 21 and 50-51; see `BpskRoundTrip`, `QpskSymbolBits`, `QpskSymbolDecided` |
| Modulation.AssignSlice | CommX/modulation.py:10 | `buffer[start:end] = values` (also line 38) puts the values at start..end and leaves every other sample unchanged |
| Modulation.Decision | CommX/modulation.py:52-53 | the QPSK decision is 1 exactly when the correlation is negative |
| Modulation.BpskSymbol | CommX/modulation.py:10 | one symbol has n samples; it is the carrier there for bit 1 and its negation otherwise (`BpskSignalWindow`) |
| Modulation.BpskSignal | CommX/modulation.py:4-10 | definition: the symbols one after another on the whole-buffer time axis; see `BpskSignalLength`, `BpskSignalWindow`, `BpskModulate` |
| Modulation.BpskSignalLength | CommX/modulation.py:4-6 | the modulated buffer has n samples per bit |
| Modulation.BpskSignalWindow | CommX/modulation.py:7-10 | window i of the BPSK signal is the carrier there if bit i is 1, its negation otherwise |
| Modulation.BpskDecisions | CommX/modulation.py:14-22 | one bit per whole window, each 0 or 1 |
| Modulation.BpskModulate | CommX/modulation.py:3-11 | the buffer filled window by window equals the BPSK signal of the bits |
| Modulation.BpskDemodulate | CommX/modulation.py:13-23 | returns, per whole window, 1 exactly when the correlation with the restarted carrier is positive |
| Modulation.BpskRoundTrip | CommX/modulation.py:3-23 | a noiseless BPSK signal demodulates to its bits when the carrier repeats every symbol and has positive energy |
| Modulation.Dibits | CommX/modulation.py:28 | one pair per two bits, pair i being bits 2i and 2i+1 |
| Modulation.PhaseOf | CommX/modulation.py:36-37 | the phase table holds exactly the four pairs of bits, and any other pair is a KeyError |
| Modulation.Cos | CommX/modulation.py:38 | `np.cos(θ)` at a table angle is positive exactly at ±π/4, and its square is 1/2 up to the last digit |
| Modulation.Sin | CommX/modulation.py:38 | `np.sin(θ)` at a table angle is positive exactly at π/4 and 3π/4, and its square is 1/2 up to the last digit |
| Modulation.PhaseDecisions | CommX/modulation.py:36-53 | the sign decision on cos θ of a table phase gives b2, and on sin θ it gives b1 |
| Modulation.DibitsInTable | CommX/modulation.py:28-37 | every symbol is in the table exactly when every element is a bit |
| Modulation.Phases | CommX/modulation.py:36-37 | one table phase per symbol; `QpskModulate` uses it only when every symbol is a key |
| Modulation.QpskModulate | CommX/modulation.py:25-39 | fails on an odd length, then on a non-bit; otherwise returns the QPSK signal of the dibits, n samples per symbol |
| Modulation.ModulateSymbols | CommX/modulation.py:33-39 | fails exactly when some symbol is missing from the table; otherwise fills the buffer with the signal |
| Modulation.QpskSymbol | CommX/modulation.py:38 | one symbol has n samples (`QpskSignalWindow` gives them) |
| Modulation.QpskSignal | CommX/modulation.py:29-38 | definition: the symbols one after another on the whole-buffer time axis; see `QpskSignalLength`, `QpskSignalWindow`, `ModulateSymbols` |
| Modulation.QpskSignalLength | CommX/modulation.py:29-32 | the modulated buffer has n samples per symbol |
| Modulation.QpskSignalWindow | CommX/modulation.py:33-38 | window i is sin-carrier·cos θ + cos-carrier·sin θ for symbol i's phase |
| Modulation.QpskDecision | CommX/modulation.py:50-55 | entry k of the QPSK output is a bit, from the sin correlation for even k and the cos correlation for odd k (`QpskSymbolBits`) |
| Modulation.QpskDecisions | CommX/modulation.py:42-55 | two bits per whole window, each 0 or 1 |
| Modulation.QpskSymbolBits | CommX/modulation.py:50-55 | bits 2i and 2i+1 are the sign decisions of symbol i's two correlations |
| Modulation.QpskDemodulate | CommX/modulation.py:41-56 | the array filled symbol by symbol equals those decisions |
| Modulation.QpskSymbolDecided | CommX/modulation.py:38-53 | for orthogonal, periodic carriers with energy, symbol i decides to (sign of cos θ, sign of sin θ) |
| Modulation.QpskRoundTrip | CommX/modulation.py:25-56 | a noiseless QPSK signal demodulates to its bits with every dibit swapped |
| Modulation.SwapPairsIdentity | CommX/modulation.py:52-55 | the swap changes nothing exactly when every dibit has equal bits |
| Metrics.DiffCount | CommX/metrics.py:6 | the number of differing positions is at most the length |
| Metrics.CalculateBer | CommX/metrics.py:3-7 | fails exactly on a length mismatch, and is NaN exactly for empty inputs |
| Metrics.DiffCountZero | CommX/metrics.py:6 | no differing position exactly when the arrays are equal |
| Metrics.DiffCountAll | CommX/metrics.py:6 | the count is the length exactly when every position differs |
| Metrics.DiffCountSymmetric | CommX/metrics.py:6 | the count does not depend on the order of the arguments |
| Metrics.DiffCountIsMismatches | CommX/metrics.py:6 | the count is the size of the set of differing positions |
| Metrics.BerIsShareOfMismatches | CommX/metrics.py:3-7 | the BER of non-empty inputs is the share of differing positions |
| Metrics.BerBounds | CommX/metrics.py:7 | the BER of non-empty inputs lies in [0, 1] |
| Metrics.BerZero | CommX/metrics.py:3-7 | the BER is 0 exactly when the arrays are equal |
| Metrics.BerOne | CommX/metrics.py:3-7 | the BER is 1 exactly when every position differs |
| Metrics.BerSymmetric | CommX/metrics.py:3-7 | the BER, and its failure, do not depend on the order of the arguments |
| Signals.Binary | CommX/signals.py:20 | `format(v, 'b')` reads back as v and has no leading zero |
| Signals.CharBits | CommX/signals.py:20 | `format(ord(c), '08b')` has at least 8 digits, reads back as the code point, and starts with 1 when longer than 8, which fixes the digits for every code point |
| Signals.CharBitsLength | CommX/signals.py:20 | exactly 8 digits exactly when the code point is below 256 |
| Signals.TextToBinary | CommX/signals.py:19-21 | every element is a bit |
| Signals.TextToBinaryConcat | CommX/signals.py:19-21 | the bits of a concatenation are the concatenation of the bits |
| Signals.TextToBinaryLength | CommX/signals.py:19-21 | 8 bits per character when every code point is below 256 |
| Signals.BinaryToText | CommX/signals.py:19-21 | reading groups of 8 bits gives one character per group, each below 256 |
| Signals.TextRoundTrip | CommX/signals.py:19-21 | reading back the bits of a text whose code points are below 256 gives the text |
| Signals.BitsRoundTrip | CommX/signals.py:19-21 | the bits of the text read from whole 8-bit groups are those groups |
| Simulation.AdjustedLength | CommX/simulation.py:39-40 | for QPSK the length becomes even, growing by at most one; otherwise it is unchanged |
| Simulation.PadToBlocks | CommX/simulation.py:43-45 | padding appends zeros, fewer than four, up to a multiple of 4, and keeps the signal as a prefix |
| Simulation.Prefix | CommX/simulation.py:54-56 | `s[:k]` is the first min(k, len) entries |
| Simulation.PaddedLength | CommX/simulation.py:43-45 | the padded length is ceil(length/4)·4, and equals the length exactly when it is a multiple of 4 |
| Simulation.NewSystem | CommX/simulation.py:9-18 | fails exactly on a type other than 'bpsk' or 'qpsk'; otherwise stores every argument unchanged |
| Simulation.CommunicationSystem.constructor | CommX/simulation.py:13-18 | stores every argument unchanged |
| Simulation.CommunicationSystem.GenerateSignal | CommX/simulation.py:20-21 | exactly `length` bits |
| Simulation.CommunicationSystem.Modulated | CommX/simulation.py:23-27 | 'bpsk' never fails; any other type fails on an odd length or a non-bit, with the matching error |
| Simulation.CommunicationSystem.Modulate | CommX/simulation.py:23-27 | dispatching to the modulator methods gives the specified signal |
| Simulation.CommunicationSystem.AddChannelEffects | CommX/simulation.py:29-30 | the channel keeps the length and adds noise sample by sample |
| Simulation.CommunicationSystem.Demodulated | CommX/simulation.py:32-36 | demodulation yields bits |
| Simulation.CommunicationSystem.Demodulate | CommX/simulation.py:32-36 | dispatching to the demodulator methods gives the specified decisions |
| Simulation.CommunicationSystem.Original | CommX/simulation.py:41-45 | the scored original holds `length` bits, padded to a multiple of 4 under error correction |
| Simulation.CommunicationSystem.Transmitted | CommX/simulation.py:42-48 | under error correction the signal to modulate has 7 bits per whole 4-bit block, otherwise the original's length; bits stay bits |
| Simulation.CommunicationSystem.Recovered | CommX/simulation.py:52-56 | the final signal fails exactly when a decode gets a length that is not a multiple of 7 |
| Simulation.CommunicationSystem.Simulate | CommX/simulation.py:38-64 | a negative adjusted length fails; a successful run reports exactly the adjusted length of original and final bits, all bits, and the BER of those two |
| Simulation.CommunicationSystem.Run | CommX/simulation.py:38-64 | whenever the code's run succeeds, the scored original is the generated bits themselves, with no padding; see `RunCodedBpsk`, `RunCodedQpsk` |
| Simulation.CommunicationSystem.RunAsIntended | CommX/simulation.py:38-64 | wherever the code's run succeeds, scoring the unpadded bits gives the same report; see `RunAsIntendedAgrees`, `RunAsIntendedCoded` |
| Simulation.CommunicationSystem.RunSimulation | CommX/simulation.py:38-64 | the run method returns exactly the result or failure of the run function |
| Simulation.CommunicationSystem.PrepareSignal | CommX/simulation.py:41-48 | returns the original and the signal to modulate, the Hamming code of the original under error correction |
| Simulation.CommunicationSystem.RecoverSignal | CommX/simulation.py:52-56 | returns the truncated, and under error correction decoded, demodulated bits; the caller's bits are not altered |
| Simulation.CommunicationSystem.DemodulatedLength | CommX/simulation.py:49-51 | the demodulator returns one bit per modulated bit |
| Simulation.CommunicationSystem.RunUncoded | CommX/simulation.py:38-64 | without error correction a run of non-negative length succeeds, and the report's fields are each stage's output on the previous one |
| Simulation.CommunicationSystem.CodedLengths | CommX/simulation.py:43-46 | under error correction the original has ceil(length/4)·4 bits and the code ceil(length/4)·7 |
| Simulation.CommunicationSystem.CodedRecovery | CommX/simulation.py:49-54 | a coded signal decodes to as many bits as the padded original, and is cut to `length` |
| Simulation.CommunicationSystem.RunCodedBpsk | CommX/simulation.py:42-57 | BPSK with error correction succeeds exactly when the length is a multiple of 4, and otherwise fails in calculate_ber |
| Simulation.CommunicationSystem.RunCodedQpsk | CommX/simulation.py:39-57 | QPSK with error correction succeeds exactly when the adjusted length is a multiple of 8; otherwise an odd block count fails in the modulator and an even one in calculate_ber |
| Simulation.CommunicationSystem.NoiselessBpsk | CommX/simulation.py:38-64 | uncoded BPSK through a noiseless channel returns the generated bits, with a BER of 0 |
| Simulation.CommunicationSystem.NoiselessQpsk | CommX/simulation.py:38-64 | uncoded QPSK through a noiseless channel returns the bits with every dibit swapped, and the BER is 0 exactly when each dibit has equal bits |
| Simulation.CommunicationSystem.NoiselessBpskCoded | CommX/simulation.py:38-64 | coded BPSK through a noiseless channel returns decode(encode(bits)), and the BER is 0 exactly when every block's first and third bits agree |
| Simulation.CommunicationSystem.RunAsIntendedAgrees | CommX/simulation.py:42-57 | scoring the unpadded bits changes nothing without error correction, or when no padding is needed |
| Simulation.CommunicationSystem.RunAsIntendedCoded | CommX/simulation.py:42-57 | scoring the unpadded bits, coded BPSK succeeds for every non-negative length, scoring `length` bits against `length` bits |

## Findings

| source | as written | input that shows it | evidently intended | confidence | as-written member | corrected member |
|---|---|---|---|---|---|---|
| CommX/simulation.py:43-57 | With error correction on, `original_signal` is replaced by its zero-padded copy. `calculate_ber` then compares that copy with a final signal cut to `data_length`, so the two lengths differ whenever `data_length % 4 != 0`. | `CommunicationSystem('bpsk', …, use_error_correction=True).run_simulation(1)`: a 4-bit original against a 1-bit final signal, so ValueError | score the `data_length` generated bits before padding against the final signal | high; not executed | Simulation.CommunicationSystem.RunCodedBpsk | Simulation.CommunicationSystem.RunAsIntendedCoded |

`Simulation.CommunicationSystem.RunSimulation` models the code as written.
`RunAsIntended` differs from it only in the scored sequence.
`RunAsIntendedAgrees` shows the two runs give the same result wherever no padding happens.

## Left out

- **Sample times and window bounds.** The code builds the time axis with
  `np.arange` over floats, and the window bounds with `int(i * bit_duration * sample_rate)`.
  - Rounding can make a buffer one sample longer, or a window one sample shorter.
  - The model uses exactly `n` samples per symbol, with `n > 0` required of the demodulators and the run.
- **Trigonometry.**
  - `np.sin` and `np.cos` of the carrier are inputs, sampled by index.
  - `np.cos(θ)` and `np.sin(θ)` of the four table angles are the shortest decimals that round to numpy's doubles.
    These are 0.7071067811865476 or 0.7071067811865475 with the table's signs (`Modulation.Cos`, `Modulation.Sin`).
    The model's reals are those decimals; the doubles themselves are binary fractions a little away from them.
  - No floating-point rounding is modelled: the correlation is an exact sum of products.
- **Noise.** awgn's Gaussian draws and the power scaling from `snr_db` (CommX/channels.py:3-16) are not modelled.
  - The noise is an arbitrary input stream.
  - `snr_db`, `carrier_freq`, `sample_rate` and `bit_duration` are only stored.
  - The complex-valued branch of awgn is not used by the simulation, and is not part of this model.
- **Random bit generator.** numpy's generator is replaced by an input stream of draws.
- Signals.TextToBinary: it takes Dafny characters, which are Unicode scalar values.
  - A Python `str` can also hold a lone surrogate (code points 0xD800 to 0xDFFF), such as `'\ud800'`.
    `format(ord(c), '08b')` gives 16 digits for it (CommX/signals.py:20).
  - Such a string cannot be passed to the model.
- Hamming.EncodeBlock, Hamming.Syndrome: numpy computes `block @ G` and `H @ block` (CommX/error_correction.py:13, CommX/error_correction.py:26) in 64-bit integers.
  - Those products wrap around for entries far outside 0 and 1. The model's unbounded `int` does not wrap.
  - So for such inputs the model and the code can differ. For bits the sums are at most 4, and the two agree.
- Metrics.CalculateBer: returns the exact ratio of differing positions to the length, where numpy returns that ratio rounded to a double (0.3333333333333333 for one difference in three).
  - The NaN of 0 / 0 is modelled. The lemmas about the rate (0, 1, bounds, symmetry) hold of the rounded value too.
- Simulation.CommunicationSystem.constructor: it does not check the modulation type; `NewSystem` performs `__init__`'s check.
- **Object identity.** Aliasing of Python objects is modelled only where it matters to the result: `hamming_decode` flips bits through a view of its argument.
  - The model's `HammingDecode` works on the caller's array.
  - `RecoverSignal` hands it a copy of the demodulated bits, so the caller's bits are not altered.
- **Outside the core.** These are not part of this model:
  - the waveform generators `sine_wave`, `square_wave` and `chirp` (CommX/signals.py:3-14);
  - plotting (CommX/visualization.py);
  - the package scaffolding (CommX/__init__.py, setup.py, FILES.PY).
