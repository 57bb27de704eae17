/** Block reports: where the blocks of a file went, and what reading them back gives. */
module BlockReports {
  import opened SquashDefs
  import opened Chunking
  import opened Compressors

  datatype BlockReport = BlockReport(start: nat, sizes: seq<nat>)

  /** The stored lengths of a block list, added up. */
  function RangeLen(sizes: seq<nat>): nat {
    if sizes == [] then 0 else RangeLen(Init(sizes)) + WordLen(Last(sizes))
  }

  lemma RangeLenSnoc(sizes: seq<nat>, word: nat)
    ensures RangeLen([]) == 0
    ensures RangeLen(sizes + [word]) == RangeLen(sizes) + WordLen(word)
  {
    assert Init(sizes + [word]) == sizes;
  }

  method ComputeRangeLen(sizes: seq<nat>) returns (sum: nat)
    ensures sum == RangeLen(sizes)
  {
    sum := 0;
    for i := 0 to |sizes|
      invariant sum == RangeLen(sizes[..i])
    {
      assert Init(sizes[..i + 1]) == sizes[..i];
      sum := sum + WordLen(sizes[i]);
    }
    assert sizes[..|sizes|] == sizes;
  }

  /** The size words a list of blocks is stored under. */
  function Words(c: Compressor, blocks: seq<Bytes>): (words: seq<nat>)
    ensures |words| == |blocks|
  {
    if blocks == [] then [] else Words(c, Init(blocks)) + [SizeWord(c, Last(blocks))]
  }

  /** The stored bytes of a list of blocks, one after the other. */
  function StoredRun(c: Compressor, blocks: seq<Bytes>): Bytes {
    if blocks == [] then [] else StoredRun(c, Init(blocks)) + Stored(c, Last(blocks))
  }

  predicate BlocksFit(blocks: seq<Bytes>, bound: nat) {
    forall b :: b in blocks ==> 0 < |b| <= bound
  }

  /** A reader of consecutive stored blocks; a zero word stands for a block of zeros. */
  function ReadBlock(c: Compressor, img: Bytes, start: nat, word: nat, bound: nat): Bytes {
    if word == 0 then Zeros(bound) else Unblock(c, Slice(img, start, WordLen(word)), word, bound)
  }

  function ReadBlocks(c: Compressor, img: Bytes, start: nat, sizes: seq<nat>, bound: nat): Bytes {
    if sizes == [] then
      []
    else
      ReadBlocks(c, img, start, Init(sizes), bound)
      + ReadBlock(c, img, start + RangeLen(Init(sizes)), Last(sizes), bound)
  }

  /** The range of a report is as long as the bytes stored under it. */
  lemma {:induction false} RangeLenIsStoredLen(c: Compressor, blocks: seq<Bytes>)
    requires Lawful(c) && BlocksFit(blocks, MAX_BLOCK_SIZE)
    ensures RangeLen(Words(c, blocks)) == |StoredRun(c, blocks)|
    ensures blocks != [] ==> 0 < |StoredRun(c, blocks)|
  {
    if blocks != [] {
      RangeLenIsStoredLen(c, Init(blocks));
      BlockRoundTrip(c, Last(blocks), MAX_BLOCK_SIZE);
      StoredNoLonger(c, Last(blocks));
      assert Init(Words(c, blocks)) == Words(c, Init(blocks));
    }
  }

  lemma SliceOfSlice(img: Bytes, start: nat, a: Bytes, b: Bytes)
    requires Slice(img, start, |a| + |b|) == a + b
    ensures Slice(img, start, |a|) == a
    ensures Slice(img, start + |a|, |b|) == b
  {
    if |a| + |b| > 0 {
      var s := img[start..start + |a| + |b|];
      assert s == a + b;
      assert img[start..start + |a|] == s[..|a|] == a;
      assert img[start + |a|..start + |a| + |b|] == s[|a|..] == b;
    } else {
      assert a == [] && b == [];
    }
  }

  lemma ReadBlockInverts(c: Compressor, img: Bytes, start: nat, x: Bytes, bound: nat)
    requires Lawful(c) && 0 < |x| <= bound <= MAX_BLOCK_SIZE
    requires Slice(img, start, |Stored(c, x)|) == Stored(c, x)
    ensures ReadBlock(c, img, start, SizeWord(c, x), bound) == x
  {
    BlockRoundTrip(c, x, bound);
  }

  lemma ReadBlocksSnoc(c: Compressor, img: Bytes, start: nat, sizes: seq<nat>, word: nat, bound: nat)
    ensures ReadBlocks(c, img, start, sizes + [word], bound)
         == ReadBlocks(c, img, start, sizes, bound) + ReadBlock(c, img, start + RangeLen(sizes), word, bound)
  {
    assert Init(sizes + [word]) == sizes;
  }

  /** Reading a run of blocks under its words gives the blocks back, in order. */
  lemma {:induction false} ReadBlocksInverts(c: Compressor, img: Bytes, start: nat, blocks: seq<Bytes>, bound: nat)
    requires Lawful(c) && bound <= MAX_BLOCK_SIZE && BlocksFit(blocks, bound)
    requires Slice(img, start, |StoredRun(c, blocks)|) == StoredRun(c, blocks)
    ensures ReadBlocks(c, img, start, Words(c, blocks), bound) == Flat(blocks)
  {
    hide ReadBlock, Slice, Stored, SizeWord, Flat;
    if blocks == [] {
      FlatNone();
    } else {
      var front, last := Init(blocks), Last(blocks);
      SliceOfSlice(img, start, StoredRun(c, front), Stored(c, last));
      ReadBlocksInverts(c, img, start, front, bound);
      RangeLenIsStoredLen(c, front);
      ReadBlockInverts(c, img, start + |StoredRun(c, front)|, last, bound);
      ReadBlocksSnoc(c, img, start, Words(c, front), SizeWord(c, last), bound);
      FlatSnoc(blocks);
    }
  }

  /** Reports with equal words over equal stored bytes come from equal block lists. */
  lemma {:induction false} RunInjective(c: Compressor, a: seq<Bytes>, b: seq<Bytes>)
    requires Lawful(c) && BlocksFit(a, MAX_BLOCK_SIZE) && BlocksFit(b, MAX_BLOCK_SIZE)
    requires Words(c, a) == Words(c, b) && StoredRun(c, a) == StoredRun(c, b)
    ensures a == b
  {
    if a != [] {
      var w := Words(c, a);
      assert |b| == |a|;
      assert Init(w) == Words(c, Init(a)) == Words(c, Init(b));
      BlockRoundTrip(c, Last(a), MAX_BLOCK_SIZE);
      BlockRoundTrip(c, Last(b), MAX_BLOCK_SIZE);
      SplitSuffix(StoredRun(c, Init(a)), Stored(c, Last(a)), StoredRun(c, Init(b)), Stored(c, Last(b)));
      RunInjective(c, Init(a), Init(b));
      BlockInjective(c, Last(a), Last(b));
      assert a == Init(a) + [Last(a)] && b == Init(b) + [Last(b)];
    }
  }

  lemma SplitSuffix(a: Bytes, x: Bytes, b: Bytes, y: Bytes)
    requires a + x == b + y && |x| == |y|
    ensures a == b && x == y
  {
    assert a == (a + x)[..|a|] && b == (b + y)[..|b|];
    assert x == (a + x)[|a|..] && y == (b + y)[|b|..];
  }

  /** Two ranges compared chunk by chunk are compared whole: the answer is equality of
      the ranges for every length, also when the last chunk is short or empty. */
  method RangeEqual(img: Bytes, at1: nat, at2: nat, length: nat, blockSize: nat) returns (equal: bool)
    requires 0 < blockSize
    requires at1 + length <= |img| && at2 + length <= |img|
    ensures equal <==> img[at1..at1 + length] == img[at2..at2 + length]
  {
    var len, i1, i2 := length, at1, at2;
    while len > blockSize
      invariant 0 <= len <= length
      invariant i1 == at1 + (length - len) && i2 == at2 + (length - len)
      invariant img[at1..i1] == img[at2..i2]
    {
      if img[i1..i1 + blockSize] != img[i2..i2 + blockSize] {
        DifferInside(img, at1, at2, length, length - len, blockSize);
        return false;
      }
      assert img[at1..i1 + blockSize] == img[at1..i1] + img[i1..i1 + blockSize];
      assert img[at2..i2 + blockSize] == img[at2..i2] + img[i2..i2 + blockSize];
      len, i1, i2 := len - blockSize, i1 + blockSize, i2 + blockSize;
    }
    equal := img[i1..i1 + len] == img[i2..i2 + len];
    assert img[at1..at1 + length] == img[at1..i1] + img[i1..i1 + len];
    assert img[at2..at2 + length] == img[at2..i2] + img[i2..i2 + len];
    assert img[at1..at1 + length][length - len..] == img[i1..i1 + len];
    assert img[at2..at2 + length][length - len..] == img[i2..i2 + len];
  }

  lemma DifferInside(img: Bytes, at1: nat, at2: nat, length: nat, off: nat, n: nat)
    requires at1 + length <= |img| && at2 + length <= |img| && off + n <= length
    requires img[at1 + off..at1 + off + n] != img[at2 + off..at2 + off + n]
    ensures img[at1..at1 + length] != img[at2..at2 + length]
  {
    SubSlice(img, at1, at1 + length, off, off + n);
    SubSlice(img, at2, at2 + length, off, off + n);
  }
}
