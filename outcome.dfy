/**
 * How the modelled operations fail. The Python package raises an exception
 * and abandons the whole call; here every fallible operation returns a
 * Result naming which check fired.
 */
module Outcome {

  /** The exceptions the modelled code can raise, one per raise site. */
  datatype Error =
    | EncodeLengthNotMultipleOf4   // hamming_encode: length % 4 != 0
    | DecodeLengthNotMultipleOf7   // hamming_decode: length % 7 != 0
    | QpskOddLength                // qpsk_modulate: odd bit count
    | QpskUnknownDibit             // qpsk_modulate: dibit missing from the phase table (KeyError)
    | BerLengthMismatch            // calculate_ber: lengths differ
    | UnknownModulationType        // CommunicationSystem: type not 'bpsk'/'qpsk'
    | NegativeLength               // random bit source asked for a negative size

  datatype Result<T> = Success(value: T) | Failure(error: Error)
}
