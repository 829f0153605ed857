/**
 The payload compressor.  DEFLATE itself is a parameter: `deflated` is what zlib makes of the
 payload, and `inflate` what it makes of compressed bytes (nothing when they are corrupt).
 */
module Compression {
  import opened BoundedQueue

  type Bytes = seq<bv8>

  /** The bytes SBOC that mark a compressed payload. */
  const MAGIC: Bytes := [0x53, 0x42, 0x4F, 0x43]

  datatype Compressed = Compressed(data: Bytes, wasCompressed: bool)

  predicate Marked(data: Bytes) {
    MAGIC <= data
  }

  function Compress(data: Bytes, threshold: int, deflated: Bytes): Compressed {
    if |data| < threshold || Marked(data) || |MAGIC + deflated| >= |data|
    then Compressed(data, false)
    else Compressed(MAGIC + deflated, true)
  }

  function Decompress(data: Bytes, inflate: Bytes -> Option<Bytes>): Option<Bytes> {
    if Marked(data) then inflate(data[|MAGIC|..]) else Some(data)
  }

  /** A compressed payload is always shorter, and an uncompressed one is untouched. */
  lemma CompressionSaves(data: Bytes, threshold: int, deflated: Bytes)
    ensures var c := Compress(data, threshold, deflated);
            if c.wasCompressed then |c.data| < |data| else c.data == data
  {
  }

  /**
   A payload is compressed exactly when it reaches the threshold, does not begin with the
   mark, and four bytes of mark and the deflated bytes are shorter; it is then just those.
   */
  lemma CompressesExactly(data: Bytes, threshold: int, deflated: Bytes)
    ensures var c := Compress(data, threshold, deflated);
            && (c.wasCompressed <==>
                  |data| >= threshold && !([0x53, 0x42, 0x4F, 0x43] <= data) && 4 + |deflated| < |data|)
            && (c.wasCompressed ==> c.data == [0x53, 0x42, 0x4F, 0x43] + deflated)
            && (!c.wasCompressed ==> c.data == data)
  {
  }

  /**
   Decompressing gives the payload back exactly when it did not carry the mark to begin
   with, or what follows its mark happens to inflate to the payload itself.
   */
  lemma DecompressUndoesCompress(data: Bytes, threshold: int, deflated: Bytes, inflate: Bytes -> Option<Bytes>)
    requires inflate(deflated) == Some(data)
    ensures Decompress(Compress(data, threshold, deflated).data, inflate) == Some(data)
       <==> !Marked(data) || inflate(data[|MAGIC|..]) == Some(data)
  {
    assert (MAGIC + deflated)[|MAGIC|..] == deflated;
  }
}
