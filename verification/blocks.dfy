/**
  A node of the block list: the key and size of its header and its payload.
  The list itself is a plain sequence in preorder, as in the source, where
  containment is never stored and only derived from the sentinel keys.
 */
module Blocks {
  import opened ByteOrder

  /**
    `key` and `size` are host numbers; `data` holds the payload as it lies in
    host memory (numeric leaf fields already byte-order corrected).
   */
  datatype Block = Block(key: U32, size: U32, data: seq<Byte>)
}
