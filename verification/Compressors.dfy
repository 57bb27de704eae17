/** The stored-or-compressed rule, over an abstract compressor. */
module Compressors {
  import opened SquashDefs

  /** `Identity` is the "none" compressor; `Packing` stands for any foreign library. */
  datatype Compressor =
    | Identity
    | Packing(pack: Bytes -> Bytes, unpack: (Bytes, nat) -> Bytes)

  datatype CompressionResult = CompressionResult(block: Bytes, compressed: bool)

  /** What the foreign library is trusted for: unpacking inverts packing whenever the
      output bound is large enough, and no input but the empty one packs to nothing. */
  ghost predicate Lawful(c: Compressor) {
    c.Packing? ==>
      && (forall x: Bytes, bound: nat :: |x| <= bound ==> c.unpack(c.pack(x), bound) == x)
      && (forall x: Bytes :: x != [] ==> c.pack(x) != [])
  }

  function Compress(c: Compressor, input: Bytes): CompressionResult {
    match c
    case Identity => CompressionResult(input, false)
    case Packing(pack, _) =>
      if input == [] then
        CompressionResult([], false)
      else
        var out := pack(input);
        if |out| < |input| then CompressionResult(out, true) else CompressionResult(input, false)
  }

  function Decompress(c: Compressor, input: Bytes, bound: nat): Bytes {
    match c
    case Identity => input
    case Packing(_, unpack) => unpack(input, bound)
  }

  function Stored(c: Compressor, x: Bytes): Bytes {
    Compress(c, x).block
  }

  /** The 32-bit size word of a data block: bit 24 marks a block kept as it was. */
  function SizeWord(c: Compressor, x: Bytes): nat {
    |Stored(c, x)| + if Compress(c, x).compressed then 0 else BLOCK_STORED_BIT
  }

  predicate WordIsRaw(word: nat) {
    word / BLOCK_STORED_BIT % 2 == 1
  }

  /** The word with bit 24 cleared. */
  function WordLen(word: nat): nat {
    if WordIsRaw(word) then word - BLOCK_STORED_BIT else word
  }

  function Unblock(c: Compressor, stored: Bytes, word: nat, bound: nat): Bytes {
    if WordIsRaw(word) then stored else Decompress(c, stored, bound)
  }

  lemma StoredNoLonger(c: Compressor, x: Bytes)
    ensures |Stored(c, x)| <= |x|
    ensures Lawful(c) && x != [] ==> Stored(c, x) != []
  {
  }

  /** A block survives storage: its word gives its stored length, is never the hole marker 0,
      and unpacking the stored bytes under that word gives the block back. */
  lemma BlockRoundTrip(c: Compressor, x: Bytes, bound: nat)
    requires Lawful(c) && |x| <= bound <= MAX_BLOCK_SIZE
    ensures WordLen(SizeWord(c, x)) == |Stored(c, x)|
    ensures Unblock(c, Stored(c, x), SizeWord(c, x), bound) == x
    ensures x != [] ==> SizeWord(c, x) != 0
    ensures SizeWord(c, x) < 2 * BLOCK_STORED_BIT
  {
    StoredNoLonger(c, x);
    assert |Stored(c, x)| < BLOCK_STORED_BIT;
  }

  /** Equal words over equal stored bytes come from equal blocks. */
  lemma BlockInjective(c: Compressor, x: Bytes, y: Bytes)
    requires Lawful(c) && |x| <= MAX_BLOCK_SIZE && |y| <= MAX_BLOCK_SIZE
    requires SizeWord(c, x) == SizeWord(c, y) && Stored(c, x) == Stored(c, y)
    ensures x == y
  {
    BlockRoundTrip(c, x, MAX_BLOCK_SIZE);
    BlockRoundTrip(c, y, MAX_BLOCK_SIZE);
  }
}
