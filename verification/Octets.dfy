/** Contents of files and keys. */
module Octets {
  type Bytes = seq<bv8>
}
