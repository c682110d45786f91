/** The exceptions the packing code throws, as values. */
module Errors {

  /** One constructor per exception the C# code can throw. */
  datatype Error =
    | BitLengthOutOfRange  // ArgumentOutOfRangeException naming the bit length
    | ValueOutOfRange      // ArgumentOutOfRangeException naming the value
    | IndexOutOfRange      // IndexOutOfRangeException
    | ByteOverflow         // OverflowException from Convert.ToByte
    | LengthMismatch       // ArgumentException: raw buffer length does not fit the shape

  /** Either the value an operation returns or the exception it throws. */
  datatype Result<+T> = Ok(value: T) | Err(error: Error)
}
