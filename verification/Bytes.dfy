/** Buffers of bytes. */
module Bytes {

  type Byte = bv8

  /** The buffer with some of its bytes replaced. */
  function Splice(buffer: seq<Byte>, at: nat, data: seq<Byte>): seq<Byte>
    requires at + |data| <= |buffer|
  {
    buffer[..at] + data + buffer[at + |data|..]
  }
}
