/** Octets, the unit both UTF-8 and base64 work on. */
module Bytes {
  type byte = x: int | 0 <= x < 256
}
