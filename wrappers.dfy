/** Option and Result, and the Python exceptions the deduper can raise. */
module Wrappers {

  datatype Option<+T> = None | Some(value: T)

  /** The exceptions the script lets escape: each one aborts the whole pass. */
  datatype Error =
    | IndexError   // a list index past the end (too few fields, too few CIGAR tokens)
    | ValueError   // int() applied to a field that is not a decimal integer
    | KeyError     // a base outside A/C/G/T looked up in the complement table

  datatype Result<+T> = Ok(value: T) | Err(error: Error)
}
