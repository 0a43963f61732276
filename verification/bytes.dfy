/** Bytes and C strings. */
module Bytes {
  type byte = x: int | 0 <= x < 256

  type Text = s: seq<byte> | 0 !in s   // without the NUL that ends it
}
