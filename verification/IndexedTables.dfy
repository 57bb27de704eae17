/** Tables reached through an index: fixed-size entries in metadata blocks, and one word per
    block saying where it is in the image. */
module IndexedTables {
  import opened SquashDefs
  import opened Arithmetic
  import opened Chunking
  import opened Compressors
  import opened Endian
  import opened Metadata

  /** Entries of one size that divides the block size. */
  predicate EntriesOk(entries: seq<Bytes>, size: nat, perBlock: nat) {
    0 < size && 0 < perBlock && size * perBlock == META_SIZE && forall e :: e in entries ==> |e| == size
  }

  /** The words: for each block of entries, the table position where it starts, offset by the
      position of the table itself. */
  function IndexWords(c: Compressor, entries: seq<Bytes>, perBlock: nat, start: nat, count: nat): (words: seq<nat>)
    requires 0 < perBlock && count <= |entries|
  {
    if count == 0 then []
    else
      IndexWords(c, entries, perBlock, start, count - 1)
      + if (count - 1) % perBlock == 0
        then [start + AddressAt(c, Flat(entries[..count - 1])).block] else []
  }

  function EncodeWords(words: seq<nat>): (b: Bytes)
    ensures |b| == 8 * |words|
  {
    if words == [] then [] else EncodeWords(Init(words)) + Le(Last(words), 8)
  }

  /** All blocks of the table, the last one possibly short. */
  function TableBytes(c: Compressor, entries: seq<Bytes>): Bytes {
    EncodeAll(c, AllChunks(META_SIZE, Flat(entries)))
  }

  /** Writes the entries through a metadata writer, flushes the last block only if entries are
      left in it, and collects the index. */
  method WriteIndexedTable(comp: Compressor, entries: seq<Bytes>, size: nat, perBlock: nat, start: nat)
    returns (table: Bytes, index: Bytes)
    requires Lawful(comp) && EntriesOk(entries, size, perBlock)
    ensures table == TableBytes(comp, entries)
    ensures index == EncodeWords(IndexWords(comp, entries, perBlock, start, |entries|))
  {
    hide TableOf, Rest, FullChunks, EncodeBlock, EncodeAll, IndexWords, EncodeWords, Flat, Le;
    NoEntries(comp, entries, perBlock, start);
    var indices := new EndianBuffer();
    var mdw := new MetadataWriter(comp);
    var i := 0;
    while i < |entries|
      invariant 0 <= i <= |entries|
      invariant mdw.Valid() && mdw.comp == comp && mdw.stream == Flat(entries[..i]) && fresh(mdw)
      invariant indices.bytes == EncodeWords(IndexWords(comp, entries, perBlock, start, i)) && fresh(indices)
    {
      NextEntry(comp, entries, perBlock, start, i);
      var maddr := mdw.Put(entries[i]);
      if i % perBlock == 0 {
        LeNarrows64(start + maddr.block);
        indices.L64((start + maddr.block) % 0x1_0000_0000_0000_0000);
      }
      i := i + 1;
    }
    assert entries[..i] == entries;
    WholeBlocks(entries, size, perBlock);
    LastBlock(comp, Flat(entries));
    if |entries| % perBlock != 0 {
      mdw.WriteBlockNoPad();
    }
    table, index := mdw.table, indices.bytes;
  }

  lemma NoEntries(c: Compressor, entries: seq<Bytes>, perBlock: nat, start: nat)
    requires 0 < perBlock
    ensures Flat(entries[..0]) == [] && EncodeWords(IndexWords(c, entries, perBlock, start, 0)) == []
  {
  }

  lemma NextEntry(c: Compressor, entries: seq<Bytes>, perBlock: nat, start: nat, i: nat)
    requires 0 < perBlock && i < |entries|
    ensures Flat(entries[..i + 1]) == Flat(entries[..i]) + entries[i]
    ensures EncodeWords(IndexWords(c, entries, perBlock, start, i + 1))
         == EncodeWords(IndexWords(c, entries, perBlock, start, i))
            + if i % perBlock == 0 then Le(start + AddressAt(c, Flat(entries[..i])).block, 8) else []
  {
    hide EncodeWords, AddressAt, Flat, Le;
    assert Init(entries[..i + 1]) == entries[..i];
    FlatSnoc(entries[..i + 1]);
    WordsSnoc(IndexWords(c, entries, perBlock, start, i), start + AddressAt(c, Flat(entries[..i])).block);
    assert IndexWords(c, entries, perBlock, start, i) + [] == IndexWords(c, entries, perBlock, start, i);
  }

  lemma WordsSnoc(words: seq<nat>, word: nat)
    ensures EncodeWords(words + [word]) == EncodeWords(words) + Le(word, 8)
  {
    assert Init(words + [word]) == words;
  }

  lemma LastBlock(c: Compressor, s: Bytes)
    ensures EncodeAll(c, AllChunks(META_SIZE, s))
         == TableOf(c, s) + if Rest(META_SIZE, s) == [] then [] else EncodeBlock(c, Rest(META_SIZE, s))
  {
    hide EncodeBlock, EncodeAll, FullChunks, Rest;
    var rest := Rest(META_SIZE, s);
    EncodeAllAppend(c, FullChunks(META_SIZE, s), if rest == [] then [] else [rest]);
    EncodeOne(c, rest);
    EncodeNone(c);
  }

  lemma EncodeNone(c: Compressor)
    ensures EncodeAll(c, []) == []
  {
  }

  lemma {:induction false} FlatLength(entries: seq<Bytes>, size: nat)
    requires forall e :: e in entries ==> |e| == size
    ensures |Flat(entries)| == size * |entries|
  {
    hide Flat;
    FlatNone();
    if entries != [] {
      FlatLength(entries[1..], size);
      assert entries[0] in entries;
      FlatCons(entries);
      TimesNext(size, |entries[1..]|);
    }
  }

  /** Entries are left in the buffer exactly when their number is not a multiple of a block's. */
  lemma WholeBlocks(entries: seq<Bytes>, size: nat, perBlock: nat)
    requires EntriesOk(entries, size, perBlock)
    ensures Rest(META_SIZE, Flat(entries)) == [] <==> |entries| % perBlock == 0
  {
    FlatLength(entries, size);
    ChunksCount(META_SIZE, Flat(entries));
    ScaledRemainder(size, perBlock, |entries|);
  }

  lemma ScaledRemainder(size: nat, perBlock: nat, n: nat)
    requires 0 < size && 0 < perBlock
    ensures size * n % (size * perBlock) == size * (n % perBlock)
    ensures size * n / (size * perBlock) == n / perBlock
    ensures size * (n % perBlock) < size * perBlock
    ensures 0 < size * perBlock
    ensures size * (n % perBlock) == 0 <==> n % perBlock == 0
  {
    var q, r := n / perBlock, n % perBlock;
    assert n == perBlock * q + r;
    assert size * n == (size * perBlock) * q + size * r by {
      assert size * (perBlock * q + r) == size * (perBlock * q) + size * r;
      assert size * (perBlock * q) == (size * perBlock) * q;
    }
    assert size * r < size * perBlock by { assert size * (r + 1) <= size * perBlock; }
    Euclid(size * perBlock, q, size * n, size * r);
  }

  // ---- Random access ----

  /** The word of block `j` is where the block of entry `perBlock * j` starts. */
  predicate WordIs(c: Compressor, entries: seq<Bytes>, perBlock: nat, start: nat, j: nat, word: nat) {
    0 <= perBlock * j <= |entries| && word == start + AddressAt(c, Flat(entries[..perBlock * j])).block
  }

  /** The index has exactly one word per block, each right. */
  lemma {:induction false} IndexShape(c: Compressor, entries: seq<Bytes>, perBlock: nat, start: nat, count: nat)
    requires 0 < perBlock && count <= |entries|
    ensures |IndexWords(c, entries, perBlock, start, count)| == (count + perBlock - 1) / perBlock
    ensures forall j :: 0 <= j < |IndexWords(c, entries, perBlock, start, count)| ==>
              WordIs(c, entries, perBlock, start, j, IndexWords(c, entries, perBlock, start, count)[j])
  {
    hide AddressAt, Flat, WordIs;
    if count == 0 {
      Below(perBlock, perBlock - 1);
    } else {
      IndexShape(c, entries, perBlock, start, count - 1);
      NextBlock(perBlock, count);
      if (count - 1) % perBlock == 0 {
        NewWord(c, entries, perBlock, start, (count - 1 + perBlock - 1) / perBlock, count - 1);
      }
    }
  }

  lemma NewWord(c: Compressor, entries: seq<Bytes>, perBlock: nat, start: nat, j: nat, at: nat)
    requires at <= |entries| && perBlock * j == at
    ensures WordIs(c, entries, perBlock, start, j, start + AddressAt(c, Flat(entries[..at])).block)
  {
  }

  /** Counting blocks: one more entry opens a block exactly at a multiple. */
  lemma NextBlock(perBlock: nat, count: nat)
    requires 0 < perBlock && 0 < count
    ensures (count + perBlock - 1) / perBlock
         == (count - 1 + perBlock - 1) / perBlock + if (count - 1) % perBlock == 0 then 1 else 0
    ensures (count - 1) % perBlock == 0 ==> perBlock * ((count - 1 + perBlock - 1) / perBlock) == count - 1
  {
    var m := count - 1;
    RoundUp(perBlock, m);
    var q, r := m / perBlock, m % perBlock;
    assert m == perBlock * q + r;
    if r == 0 {
      Euclid(perBlock, q, m + perBlock - 1, perBlock - 1);
      assert perBlock * (q + 1) == perBlock * q + perBlock;
      Euclid(perBlock, q + 1, m + perBlock, 0);
    } else {
      assert perBlock * (q + 1) == perBlock * q + perBlock;
      Euclid(perBlock, q + 1, m + perBlock, r);
      Euclid(perBlock, q + 1, m + perBlock - 1, r - 1);
    }
  }

  /** A reader of one entry: the word of its block, then the entry's offset in that block. */
  function LookupEntry(c: Compressor, img: Bytes, indexStart: nat, size: nat, perBlock: nat, i: nat): Option<Bytes>
    requires 0 < perBlock
  {
    var at := indexStart + 8 * (i / perBlock);
    if |img| < at + 8 then None
    else ReadMeta(c, img, Un(img[at..at + 8]), size * (i % perBlock), size)
  }

  lemma {:induction false} WordAt(words: seq<nat>, j: nat)
    requires j < |words|
    ensures EncodeWords(words)[8 * j..8 * j + 8] == Le(words[j], 8)
  {
    hide Le;
    var front := EncodeWords(Init(words));
    if j < |words| - 1 {
      WordAt(Init(words), j);
      assert EncodeWords(words)[8 * j..8 * j + 8] == front[8 * j..8 * j + 8];
    } else {
      assert EncodeWords(words) == front + Le(Last(words), 8);
    }
  }

  /** Entry `i` is entry `k` of block `q`. */
  predicate Position(size: nat, perBlock: nat, i: nat, q: nat, k: nat) {
    && 0 < perBlock && k <= i && i - k == perBlock * q
    && q == i / perBlock && k == i % perBlock
    && size * k < size * perBlock
  }

  lemma EntryPosition(size: nat, perBlock: nat, i: nat)
    requires 0 < size && 0 < perBlock
    ensures Position(size, perBlock, i, i / perBlock, i % perBlock)
  {
    ScaledRemainder(size, perBlock, i);
    assert i == perBlock * (i / perBlock) + i % perBlock;
    assert 0 <= perBlock * (i / perBlock);
  }

  /** Reading the table from the start of a block sees the entries from there on. */
  lemma BlockHoldsEntries(c: Compressor, img: Bytes, start: nat, entries: seq<Bytes>, size: nat, perBlock: nat,
                          i: nat, q: nat, k: nat)
    requires Lawful(c) && EntriesOk(entries, size, perBlock) && k <= i < |entries| && Position(size, perBlock, i, q, k)
    requires var table := TableBytes(c, entries); start + |table| <= |img| && img[start..start + |table|] == table
    ensures ReadMeta(c, img, start + |TableOf(c, Flat(entries[..i - k]))|, size * k, size) == Some(entries[i])
  {
    hide TableOf, FullChunks, Rest, EncodeAll, Flat, ReadMeta, AllChunks;
    var j := i - k;
    var s, t := Flat(entries[..j]), Flat(entries[j..]);
    SplitAtEntry(c, entries, size, perBlock, j, q);
    SplitRange(img, start, TableOf(c, s), EncodeAll(c, AllChunks(META_SIZE, t)));
    EntryInside(entries[j..], size, k);
    AllChunksCover(META_SIZE, t);
    FirstChunk(t, size * k, size);
    ChunksReadBack(c, img, start + |TableOf(c, s)|, AllChunks(META_SIZE, t), size * k, size);
  }

  lemma SplitAtEntry(c: Compressor, entries: seq<Bytes>, size: nat, perBlock: nat, j: nat, q: nat)
    requires EntriesOk(entries, size, perBlock) && j <= |entries| && j == perBlock * q
    ensures TableBytes(c, entries)
         == TableOf(c, Flat(entries[..j])) + EncodeAll(c, AllChunks(META_SIZE, Flat(entries[j..])))
  {
    hide TableOf, EncodeAll, Flat;
    FlatAppend(entries[..j], entries[j..]);
    assert entries[..j] + entries[j..] == entries;
    WholePrefix(entries, size, perBlock, j, q);
    SplitAtBlock(c, Flat(entries[..j]), Flat(entries[j..]));
  }

  lemma WholePrefix(entries: seq<Bytes>, size: nat, perBlock: nat, j: nat, q: nat)
    requires EntriesOk(entries, size, perBlock) && j <= |entries| && j == perBlock * q
    ensures Rest(META_SIZE, Flat(entries[..j])) == []
  {
    WholeBlocks(entries[..j], size, perBlock);
    Euclid(perBlock, q, j, 0);
  }

  /** After whole blocks the table simply continues. */
  lemma SplitAtBlock(c: Compressor, s: Bytes, t: Bytes)
    requires Rest(META_SIZE, s) == []
    ensures EncodeAll(c, AllChunks(META_SIZE, s + t)) == TableOf(c, s) + EncodeAll(c, AllChunks(META_SIZE, t))
  {
    hide FullChunks, Rest, EncodeAll;
    ChunksAppend(META_SIZE, s, t);
    assert [] + t == t;
    var full, last := FullChunks(META_SIZE, s), AllChunks(META_SIZE, t);
    assert AllChunks(META_SIZE, s + t) == full + last;
    EncodeAllAppend(c, full, last);
  }

  lemma {:induction false} EntryInside(entries: seq<Bytes>, size: nat, k: nat)
    requires (forall e :: e in entries ==> |e| == size) && k < |entries|
    ensures size * k + size <= |Flat(entries)|
    ensures Flat(entries)[size * k..size * k + size] == entries[k]
  {
    hide Flat;
    FlatAppend(entries[..k], entries[k..]);
    FlatCons(entries[k..]);
    assert entries[..k] + entries[k..] == entries;
    FlatLength(entries[..k], size);
    var front, back := Flat(entries[..k]), Flat(entries[k..][1..]);
    assert entries[k] in entries;
    assert Flat(entries) == front + (entries[k] + back);
  }

  lemma FirstChunk(t: Bytes, offset: nat, len: nat)
    requires offset + len <= |t| && 0 < len && offset < META_SIZE
    ensures AllChunks(META_SIZE, t) != [] && offset <= |AllChunks(META_SIZE, t)[0]|
  {
    if |t| < META_SIZE {
      assert AllChunks(META_SIZE, t) == [t];
    } else {
      assert AllChunks(META_SIZE, t)[0] == t[..META_SIZE];
    }
  }

  /** An image that holds the table at `start` and its index at `indexStart`. */
  predicate HoldsTable(c: Compressor, img: Bytes, start: nat, indexStart: nat, entries: seq<Bytes>, perBlock: nat)
    requires 0 < perBlock
  {
    var table, index := TableBytes(c, entries), EncodeWords(IndexWords(c, entries, perBlock, start, |entries|));
    && start + |table| <= |img| && img[start..start + |table|] == table
    && |table| < 0x1_0000_0000 && start + |table| < 0x1_0000_0000_0000_0000
    && indexStart + |index| <= |img| && img[indexStart..indexStart + |index|] == index
  }

  /** Random access: every entry is found through its index word. */
  lemma EveryEntryIsFound(c: Compressor, img: Bytes, start: nat, indexStart: nat,
                          entries: seq<Bytes>, size: nat, perBlock: nat, i: nat)
    requires Lawful(c) && EntriesOk(entries, size, perBlock) && i < |entries|
    requires HoldsTable(c, img, start, indexStart, entries, perBlock)
    ensures LookupEntry(c, img, indexStart, size, perBlock, i) == Some(entries[i])
  {
    hide TableOf, Flat, ReadMeta, IndexWords, EncodeWords, Un, TableBytes, LookupEntry, Position, EntriesOk;
    SizesPositive(entries, size, perBlock);
    var q, k := i / perBlock, i % perBlock;
    EntryPosition(size, perBlock, i);
    PositionParts(size, perBlock, i, q, k);
    FoundInBlock(c, img, start, indexStart, entries, size, perBlock, i, q, k);
  }

  lemma SizesPositive(entries: seq<Bytes>, size: nat, perBlock: nat)
    requires EntriesOk(entries, size, perBlock)
    ensures 0 < size && 0 < perBlock
  {
  }

  lemma FoundInBlock(c: Compressor, img: Bytes, start: nat, indexStart: nat,
                     entries: seq<Bytes>, size: nat, perBlock: nat, i: nat, q: nat, k: nat)
    requires Lawful(c) && EntriesOk(entries, size, perBlock) && i < |entries|
    requires 0 < perBlock && Position(size, perBlock, i, q, k) && k <= i
    requires HoldsTable(c, img, start, indexStart, entries, perBlock)
    ensures LookupEntry(c, img, indexStart, size, perBlock, i) == Some(entries[i])
  {
    hide TableOf, Flat, ReadMeta, IndexWords, EncodeWords, Un, TableBytes, LookupEntry, Position, EntriesOk;
    WordReadsBack(c, img, start, indexStart, entries, size, perBlock, q, k, i);
    BlockHoldsEntries(c, img, start, entries, size, perBlock, i, q, k);
    LookupStep(c, img, indexStart, size, perBlock, i, q, k) by { PositionParts(size, perBlock, i, q, k); }
  }

  lemma PositionParts(size: nat, perBlock: nat, i: nat, q: nat, k: nat)
    requires Position(size, perBlock, i, q, k)
    ensures 0 < perBlock && q == i / perBlock && k == i % perBlock && k <= i
  {
  }

  lemma LookupStep(c: Compressor, img: Bytes, indexStart: nat, size: nat, perBlock: nat, i: nat, q: nat, k: nat)
    requires 0 < perBlock && q == i / perBlock && k == i % perBlock && indexStart + 8 * q + 8 <= |img|
    ensures LookupEntry(c, img, indexStart, size, perBlock, i)
         == ReadMeta(c, img, Un(img[indexStart + 8 * q..indexStart + 8 * q + 8]), size * k, size)
  {
    hide ReadMeta, Un;
  }

  lemma WordReadsBack(c: Compressor, img: Bytes, start: nat, indexStart: nat,
                      entries: seq<Bytes>, size: nat, perBlock: nat, q: nat, k: nat, i: nat)
    requires EntriesOk(entries, size, perBlock) && HoldsTable(c, img, start, indexStart, entries, perBlock)
    requires k <= i < |entries| && Position(size, perBlock, i, q, k)
    ensures indexStart + 8 * q + 8 <= |img|
    ensures Un(img[indexStart + 8 * q..indexStart + 8 * q + 8]) == start + |TableOf(c, Flat(entries[..i - k]))|
  {
    hide TableOf, EncodeAll, Flat, IndexWords, EncodeWords, Le, Un, TableBytes, AddressAt, AllChunks, Position,
      EntriesOk, WordIs;
    PositionAt(entries, size, perBlock, i, q, k);
    var words := IndexWords(c, entries, perBlock, start, |entries|);
    IndexShape(c, entries, perBlock, start, |entries|);
    BlockIndexInRange(perBlock, i, |entries|);
    SplitAtEntry(c, entries, size, perBlock, i - k, q);
    WordOfBlock(c, entries, perBlock, start, q, i - k, words[q]);
    WordSlice(img, indexStart, words, q);
  }

  lemma PositionAt(entries: seq<Bytes>, size: nat, perBlock: nat, i: nat, q: nat, k: nat)
    requires EntriesOk(entries, size, perBlock) && Position(size, perBlock, i, q, k)
    ensures 0 < perBlock && q == i / perBlock && k <= i && i - k == perBlock * q
  {
  }

  lemma WordOfBlock(c: Compressor, entries: seq<Bytes>, perBlock: nat, start: nat, q: nat, j: nat, word: nat)
    requires j == perBlock * q && j <= |entries| && WordIs(c, entries, perBlock, start, q, word)
    requires |TableOf(c, Flat(entries[..j]))| < 0x1_0000_0000
    ensures word == start + |TableOf(c, Flat(entries[..j]))|
  {
    hide TableOf, Flat, Rest;
  }

  lemma WordSlice(img: Bytes, indexStart: nat, words: seq<nat>, q: nat)
    requires q < |words| && words[q] < 0x1_0000_0000_0000_0000
    requires indexStart + 8 * |words| <= |img|
    requires img[indexStart..indexStart + 8 * |words|] == EncodeWords(words)
    ensures indexStart + 8 * q + 8 <= |img|
    ensures Un(img[indexStart + 8 * q..indexStart + 8 * q + 8]) == words[q]
  {
    hide EncodeWords, Le, Un;
    WordAt(words, q);
    SliceInPart(img, indexStart, EncodeWords(words), 8 * q);
    UnLe64(words[q]);
  }

  lemma SliceInPart(img: Bytes, start: nat, part: Bytes, at: nat)
    requires start + |part| <= |img| && img[start..start + |part|] == part && at + 8 <= |part|
    ensures start + at + 8 <= |img| && img[start + at..start + at + 8] == part[at..at + 8]
  {
    SubSlice(img, start, start + |part|, at, at + 8);
  }

  lemma UnLe64(word: nat)
    requires word < 0x1_0000_0000_0000_0000
    ensures Un(Le(word, 8)) == word
  {
    hide Le, Un;
    Limits();
    UnLe(word, 8);
  }

  lemma BlockIndexInRange(perBlock: nat, i: nat, count: nat)
    requires 0 < perBlock && i < count
    ensures i / perBlock < (count + perBlock - 1) / perBlock
  {
    var q, r := i / perBlock, i % perBlock;
    assert i == perBlock * q + r;
    assert perBlock * (q + 1) == perBlock * q + perBlock;
    Euclid(perBlock, q + 1, i + perBlock, r);
    DivMonotone(i + perBlock, count + perBlock - 1, perBlock);
  }
}
