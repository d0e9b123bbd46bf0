/** The octets that every layer moves around. */
module Bytes {
  type byte = bv8
}
