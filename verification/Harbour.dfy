/** Arguments and results of the functions callable from Harbour. */
module Harbour {
  import opened Bytes

  /** A string argument, or one that is missing or of another type. */
  datatype Argument = Given(bytes: seq<Byte>) | Missing

  datatype Result = String(bytes: seq<Byte>) | ArgumentError

  /** Two bytes that are the same or, ignoring case, the capital and the small form of one letter. */
  predicate Alike(ignoreCase: bool, a: Byte, b: Byte) {
    a == b || (ignoreCase && ((65 <= a <= 90 && b == a + 32) || (65 <= b <= 90 && a == b + 32)))
  }
}
