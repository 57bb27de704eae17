/** Metadata tables: a byte stream cut into 8 KiB blocks, each stored under a two-byte header. */
module Metadata {
  import opened SquashDefs
  import opened Chunking
  import opened Compressors
  import opened BlockReports
  import opened Endian

  /** Where something starts: the position of its block in the table, and the offset inside
      the unpacked block. Both are narrowed to the width the writer gives them. */
  datatype Address = Address(block: U32, offset: U16)

  function MetaHeader(c: Compressor, x: Bytes): nat {
    |Stored(c, x)| + if Compress(c, x).compressed then 0 else META_STORED_BIT
  }

  function EncodeBlock(c: Compressor, x: Bytes): (b: Bytes)
    ensures |b| == 2 + |Stored(c, x)|
  {
    Le(MetaHeader(c, x), 2) + Stored(c, x)
  }

  function EncodeAll(c: Compressor, chunks: seq<Bytes>): Bytes {
    if chunks == [] then [] else EncodeBlock(c, chunks[0]) + EncodeAll(c, chunks[1..])
  }

  /** The table after a stream of bytes: its full blocks. The rest is still buffered. */
  function TableOf(c: Compressor, s: Bytes): Bytes {
    EncodeAll(c, FullChunks(META_SIZE, s))
  }

  function AddressAt(c: Compressor, s: Bytes): Address {
    Address(|TableOf(c, s)| % 0x1_0000_0000, |Rest(META_SIZE, s)|)
  }

  // ---- The reader ----

  /** One block at `pos`, unpacked, and where the next one starts. */
  function ReadMetaBlock(c: Compressor, img: Bytes, pos: nat): (r: Option<(Bytes, nat)>)
    ensures r.Some? ==> pos < r.value.1 <= |img|
  {
    if |img| < pos + 2 then
      None
    else
      var header := Un(img[pos..pos + 2]);
      var len := header % META_STORED_BIT;
      if |img| < pos + 2 + len then
        None
      else
        var data := img[pos + 2..pos + 2 + len];
        Some((if header >= META_STORED_BIT then data else Decompress(c, data, META_SIZE), pos + 2 + len))
  }

  /** `len` bytes from `offset` in the block at `pos` on, across as many blocks as it takes. */
  function ReadMeta(c: Compressor, img: Bytes, pos: nat, offset: nat, len: nat): Option<Bytes>
    decreases |img| - pos
  {
    var (bytes, next) :- ReadMetaBlock(c, img, pos);
    if |bytes| < offset then
      None
    else if offset + len <= |bytes| then
      Some(bytes[offset..offset + len])
    else
      var rest :- ReadMeta(c, img, next, 0, offset + len - |bytes|);
      Some(bytes[offset..] + rest)
  }

  lemma {:induction false} EncodeAllAppend(c: Compressor, a: seq<Bytes>, b: seq<Bytes>)
    ensures EncodeAll(c, a + b) == EncodeAll(c, a) + EncodeAll(c, b)
  {
    hide EncodeBlock;
    if a == [] {
      assert a + b == b;
    } else {
      assert (a + b)[1..] == a[1..] + b;
      EncodeAllAppend(c, a[1..], b);
    }
  }

  lemma EncodeOne(c: Compressor, x: Bytes)
    ensures EncodeAll(c, [x]) == EncodeBlock(c, x)
  {
    hide EncodeBlock;
  }

  /** A stored block unpacks to what was put in it. */
  lemma BlockReadsBack(c: Compressor, img: Bytes, pos: nat, x: Bytes)
    requires Lawful(c) && |x| <= META_SIZE
    requires pos + |EncodeBlock(c, x)| <= |img| && img[pos..pos + |EncodeBlock(c, x)|] == EncodeBlock(c, x)
    ensures ReadMetaBlock(c, img, pos) == Some((x, pos + |EncodeBlock(c, x)|))
  {
    hide Le, Un;
    var header, stored := MetaHeader(c, x), Stored(c, x);
    StoredNoLonger(c, x);
    Limits();
    UnLe(header, 2);
    var end := pos + |EncodeBlock(c, x)|;
    SubSlice(img, pos, end, 0, 2);
    SubSlice(img, pos, end, 2, 2 + |stored|);
    assert EncodeBlock(c, x)[0..2] == Le(header, 2);
    assert EncodeBlock(c, x)[2..2 + |stored|] == stored;
    HeaderFields(c, x);
  }

  lemma HeaderFields(c: Compressor, x: Bytes)
    requires Lawful(c) && |x| <= META_SIZE
    ensures MetaHeader(c, x) % META_STORED_BIT == |Stored(c, x)|
    ensures MetaHeader(c, x) >= META_STORED_BIT <==> !Compress(c, x).compressed
    ensures MetaHeader(c, x) < 0x1_0000
    ensures Compress(c, x).compressed ==> Decompress(c, Stored(c, x), META_SIZE) == x
    ensures !Compress(c, x).compressed ==> Stored(c, x) == x
  {
    StoredNoLonger(c, x);
  }

  /** Any bytes of a run of stored blocks can be read from the block where the run starts. */
  lemma {:induction false} ChunksReadBack(c: Compressor, img: Bytes, pos: nat, chunks: seq<Bytes>, offset: nat,
                                          len: nat)
    requires Lawful(c) && BlocksFit(chunks, META_SIZE) && chunks != []
    requires pos + |EncodeAll(c, chunks)| <= |img| && img[pos..pos + |EncodeAll(c, chunks)|] == EncodeAll(c, chunks)
    requires offset <= |chunks[0]| && offset + len <= |Flat(chunks)|
    ensures ReadMeta(c, img, pos, offset, len) == Some(Flat(chunks)[offset..offset + len])
    decreases |chunks|
  {
    hide Lawful, EncodeBlock, ReadMetaBlock, ReadMeta, Flat, EncodeAll;
    var x, more := chunks[0], chunks[1..];
    var head, tail := EncodeBlock(c, x), EncodeAll(c, more);
    EncodeCons(c, chunks);
    SplitRange(img, pos, head, tail);
    BlockReadsBack(c, img, pos, x);
    FlatCons(chunks);
    TakeAcross(x, Flat(more), offset, len);
    ReadMetaStep(c, img, pos, x, pos + |head|, offset, len);
    if offset + len > |x| {
      FlatNone();
      ChunksReadBack(c, img, pos + |head|, more, 0, offset + len - |x|);
    }
  }

  lemma EncodeCons(c: Compressor, chunks: seq<Bytes>)
    requires chunks != []
    ensures EncodeAll(c, chunks) == EncodeBlock(c, chunks[0]) + EncodeAll(c, chunks[1..])
  {
    hide EncodeBlock;
  }

  lemma SplitRange(img: Bytes, pos: nat, a: Bytes, b: Bytes)
    requires pos + |a + b| <= |img| && img[pos..pos + |a + b|] == a + b
    ensures img[pos..pos + |a|] == a && img[pos + |a|..pos + |a| + |b|] == b
  {
    SubSlice(img, pos, pos + |a + b|, 0, |a|);
    SubSlice(img, pos, pos + |a + b|, |a|, |a| + |b|);
    assert (a + b)[0..|a|] == a && (a + b)[|a|..|a| + |b|] == b;
  }

  lemma FlatCons(chunks: seq<Bytes>)
    requires chunks != []
    ensures Flat(chunks) == chunks[0] + Flat(chunks[1..])
  {
  }

  lemma TakeAcross(x: Bytes, y: Bytes, offset: nat, len: nat)
    requires offset <= |x| && offset + len <= |x + y|
    ensures (x + y)[offset..offset + len]
         == if offset + len <= |x| then x[offset..offset + len] else x[offset..] + y[0..offset + len - |x|]
  {
  }

  lemma ReadMetaStep(c: Compressor, img: Bytes, pos: nat, x: Bytes, next: nat, offset: nat, len: nat)
    requires ReadMetaBlock(c, img, pos) == Some((x, next)) && offset <= |x|
    ensures ReadMeta(c, img, pos, offset, len)
         == if offset + len <= |x| then Some(x[offset..offset + len])
            else match ReadMeta(c, img, next, 0, offset + len - |x|)
                 case Some(rest) => Some(x[offset..] + rest)
                 case None => None
  {
    hide ReadMetaBlock;
  }

  lemma FlatIsPrefix(s: Bytes, lo: nat, hi: nat)
    requires lo <= hi <= |Flat(FullChunks(META_SIZE, s))|
    ensures hi <= |s| && Flat(FullChunks(META_SIZE, s))[lo..hi] == s[lo..hi]
  {
    hide FullChunks, Flat, Rest;
    ChunksCover(META_SIZE, s);
    var flat, rest := Flat(FullChunks(META_SIZE, s)), Rest(META_SIZE, s);
    assert s == flat + rest;
    assert (flat + rest)[lo..hi] == flat[lo..hi];
  }

  lemma {:induction false} FlatOfFull(size: nat, s: Bytes)
    requires 0 < size
    ensures |Flat(FullChunks(size, s))| == |s| - |Rest(size, s)|
  {
    ChunksCover(size, s);
    assert |Flat(FullChunks(size, s))| + |Rest(size, s)| == |Flat(FullChunks(size, s)) + Rest(size, s)|;
  }

  /** An address handed out before `t` was put reads back as `t` from any finished table of a
      longer stream, wherever the table starts in the image. */
  lemma PutReadsBack(c: Compressor, img: Bytes, start: nat, s: Bytes, t: Bytes, u: Bytes)
    requires Lawful(c) && t != [] && Rest(META_SIZE, s + t + u) == []
    requires var table := TableOf(c, s + t + u);
             start + |table| <= |img| && img[start..start + |table|] == table
    ensures ReadMeta(c, img, start + |TableOf(c, s)|, |Rest(META_SIZE, s)|, |t|) == Some(t)
  {
    hide FullChunks, Rest, EncodeAll, Flat, ReadMeta;
    var r := Rest(META_SIZE, s);
    var more := r + (t + u);
    assert s + t + u == s + (t + u);
    ChunksAppend(META_SIZE, s, t + u);
    var chunks := FullChunks(META_SIZE, more);
    EncodeAllAppend(c, FullChunks(META_SIZE, s), chunks);
    var front, back := TableOf(c, s), EncodeAll(c, chunks);
    SplitRange(img, start, front, back);
    FlatOfFull(META_SIZE, more);
    assert |Flat(chunks)| == |more|;
    FullChunksNonempty(more);
    ChunksReadBack(c, img, start + |front|, chunks, |r|, |t|);
    FlatIsPrefix(more, |r|, |r| + |t|);
    assert more[|r|..|r| + |t|] == t;
  }

  lemma FullChunksNonempty(s: Bytes)
    ensures s != [] && Rest(META_SIZE, s) == [] ==> FullChunks(META_SIZE, s) != []
    ensures forall x :: x in FullChunks(META_SIZE, s) ==> |x| == META_SIZE
  {
  }

  /** Where block `k` of a table starts. */
  function BlockPos(c: Compressor, s: Bytes, k: nat): nat
    requires k <= |FullChunks(META_SIZE, s)|
  {
    |EncodeAll(c, FullChunks(META_SIZE, s)[..k])|
  }

  /** Every block of a table unpacks to a full block of the stream, and the next one follows. */
  lemma EveryBlockIsWhole(c: Compressor, img: Bytes, start: nat, s: Bytes, k: nat)
    requires Lawful(c) && k < |FullChunks(META_SIZE, s)|
    requires start + |TableOf(c, s)| <= |img| && img[start..start + |TableOf(c, s)|] == TableOf(c, s)
    ensures |FullChunks(META_SIZE, s)[k]| == META_SIZE
    ensures ReadMetaBlock(c, img, start + BlockPos(c, s, k))
         == Some((FullChunks(META_SIZE, s)[k], start + BlockPos(c, s, k + 1)))
    ensures BlockPos(c, s, |FullChunks(META_SIZE, s)|) == |TableOf(c, s)|
  {
    hide FullChunks, EncodeBlock, ReadMetaBlock, EncodeAll;
    var chunks := FullChunks(META_SIZE, s);
    FullChunksNonempty(s);
    assert chunks[k] in chunks;
    assert chunks[..|chunks|] == chunks;
    SplitChunks(c, chunks, k);
    var front, x, back := EncodeAll(c, chunks[..k]), EncodeBlock(c, chunks[k]), EncodeAll(c, chunks[k + 1..]);
    SplitRange(img, start, front, x + back);
    SplitRange(img, start + |front|, x, back);
    BlockReadsBack(c, img, start + |front|, chunks[k]);
  }

  lemma SplitChunks(c: Compressor, chunks: seq<Bytes>, k: nat)
    requires k < |chunks|
    ensures EncodeAll(c, chunks)
         == EncodeAll(c, chunks[..k]) + (EncodeBlock(c, chunks[k]) + EncodeAll(c, chunks[k + 1..]))
    ensures EncodeAll(c, chunks[..k + 1]) == EncodeAll(c, chunks[..k]) + EncodeBlock(c, chunks[k])
  {
    hide EncodeAll, EncodeBlock;
    var x := [chunks[k]];
    assert chunks == chunks[..k] + (x + chunks[k + 1..]) && chunks[..k + 1] == chunks[..k] + x;
    EncodeAllAppend(c, chunks[..k], x + chunks[k + 1..]);
    EncodeAllAppend(c, x, chunks[k + 1..]);
    EncodeAllAppend(c, chunks[..k], x);
    EncodeOne(c, chunks[k]);
  }

  // ---- The writer ----

  /** One more piece that fits the buffer: a block is emitted exactly when it fills up. */
  lemma PutPiece(c: Compressor, s: Bytes, piece: Bytes)
    requires |Rest(META_SIZE, s)| + |piece| <= META_SIZE
    ensures var full := Rest(META_SIZE, s) + piece;
            && Rest(META_SIZE, s + piece) == (if |full| == META_SIZE then [] else full)
            && TableOf(c, s + piece) == TableOf(c, s) + if |full| == META_SIZE then EncodeBlock(c, full) else []
  {
    hide EncodeBlock;
    var full := Rest(META_SIZE, s) + piece;
    ChunksAppend(META_SIZE, s, piece);
    EncodeAllAppend(c, FullChunks(META_SIZE, s), FullChunks(META_SIZE, full));
    OneBlock(full);
    if |full| == META_SIZE {
      EncodeOne(c, full);
    }
  }

  lemma BlockBytes(c: Compressor, front: Bytes, x: Bytes)
    ensures front + Le(MetaHeader(c, x), 2) + Stored(c, x) == front + EncodeBlock(c, x)
  {
    hide Le;
  }

  lemma OneBlock(full: Bytes)
    requires |full| <= META_SIZE
    ensures FullChunks(META_SIZE, full) == if |full| == META_SIZE then [full] else []
    ensures Rest(META_SIZE, full) == if |full| == META_SIZE then [] else full
  {
    if |full| == META_SIZE {
      assert full[..META_SIZE] == full && full[META_SIZE..] == [];
    }
  }

  /** What `write_block` makes of a stream: zeros up to the next boundary, and a whole block of
      zeros when the stream already ends at one. */
  function Padded(s: Bytes): Bytes {
    s + Zeros(META_SIZE - |Rest(META_SIZE, s)|)
  }

  /** Whole blocks of 8192 bytes, by one byte at least and one block at most more than the stream,
      all of them zeros. */
  lemma PaddedIsWhole(s: Bytes)
    ensures Rest(META_SIZE, Padded(s)) == []
    ensures s <= Padded(s) && forall k :: |s| <= k < |Padded(s)| ==> Padded(s)[k] == 0
    ensures |s| < |Padded(s)| <= |s| + 0x2000 && |Padded(s)| % 0x2000 == 0
  {
    PutPiece(Identity, s, Zeros(META_SIZE - |Rest(META_SIZE, s)|));
    ChunksCount(META_SIZE, Padded(s));
  }

  class MetadataWriter {
    const comp: Compressor
    var table: Bytes
    var buff: Bytes

    /** Every byte put so far. */
    ghost var stream: Bytes

    ghost predicate Valid()
      reads this
    {
      table == TableOf(comp, stream) && buff == Rest(META_SIZE, stream) && |buff| < META_SIZE
    }

    constructor (comp: Compressor)
      ensures Valid() && this.comp == comp && stream == []
    {
      this.comp := comp;
      table, buff, stream := [], [], [];
    }

    function GetAddress(): Address
      requires |buff| < META_SIZE
      reads this
    {
      Address(|table| % 0x1_0000_0000, |buff|)
    }

    method WriteBlockCompressed(block: Bytes, bsize: U16)
      modifies this`table
      ensures table == old(table) + Le(bsize, 2) + block
    {
      var header := new EndianBuffer();
      header.L16(bsize);
      table := table + header.bytes;
      table := table + block;
    }

    /** Emits the buffer as it is; an empty buffer emits nothing. */
    method WriteBlockNoPad()
      requires Lawful(comp) && |buff| <= META_SIZE
      modifies this`table, this`buff
      ensures buff == []
      ensures table == old(table) + if old(buff) == [] then [] else EncodeBlock(comp, old(buff))
    {
      hide Lawful, Le, EncodeBlock;
      if buff == [] {
        return;
      }
      var result := Compress(comp, buff);
      HeaderFields(comp, buff);
      BlockBytes(comp, table, buff);
      WriteBlockCompressed(result.block,
                           if result.compressed then |result.block| else |result.block| + META_STORED_BIT);
      buff := [];
    }

    /** Emits a block of full size, padded with zeros; never nothing. */
    method WriteBlock()
      requires Lawful(comp) && |buff| <= META_SIZE
      modifies this`table, this`buff
      ensures buff == []
      ensures table == old(table) + EncodeBlock(comp, old(buff) + Zeros(META_SIZE - |old(buff)|))
    {
      if |buff| != META_SIZE {
        buff := buff + Zeros(META_SIZE - |buff|);
      } else {
        assert buff + Zeros(META_SIZE - |buff|) == buff;
      }
      WriteBlockNoPad();
    }

    /** Ends the table: the stream is padded to whole blocks. */
    method Finish()
      requires Valid() && Lawful(comp)
      modifies this
      ensures Valid() && stream == Padded(old(stream)) && buff == []
    {
      hide Lawful, TableOf, Rest, EncodeBlock;
      PutPiece(comp, stream, Zeros(META_SIZE - |buff|));
      stream := Padded(stream);
      WriteBlock();
    }

    method PutSome(bytes: Bytes)
      requires Valid() && Lawful(comp) && |buff| + |bytes| <= META_SIZE
      modifies this
      ensures Valid() && stream == old(stream) + bytes
    {
      hide TableOf, Rest, EncodeBlock;
      PutPiece(comp, stream, bytes);
      ghost var before := buff;
      for i := 0 to |bytes|
        invariant buff == before + bytes[..i]
        invariant table == old(table) && stream == old(stream)
      {
        buff := buff + [bytes[i]];
        assert bytes[..i + 1] == bytes[..i] + [bytes[i]];
      }
      assert bytes[..|bytes|] == bytes;
      stream := stream + bytes;
      if |buff| == META_SIZE {
        assert buff + Zeros(0) == buff;
        WriteBlock();
      }
    }

    /** Puts bytes, emitting every block that fills up, and returns where they start. */
    method Put(b: Bytes) returns (addr: Address)
      requires Valid() && Lawful(comp)
      modifies this
      ensures Valid() && stream == old(stream) + b
      ensures addr == AddressAt(comp, old(stream))
    {
      hide TableOf, Rest;
      addr := GetAddress();
      var len, at := |b|, 0;
      assert stream + b[..at] == stream;
      while len != 0
        invariant 0 <= len <= |b| && at == |b| - len
        invariant Valid() && stream == old(stream) + b[..at]
      {
        var remaining := META_SIZE - |buff|;
        var added := if len > remaining then remaining else len;
        assert b[..at + added] == b[..at] + b[at..at + added];
        PutSome(b[at..at + added]);
        len := len - added;
        at := at + added;
      }
      assert b[..at] == b;
    }
  }
}
