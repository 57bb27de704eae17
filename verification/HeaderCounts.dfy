/** How many entries one directory header can have. The writer sets no limit, but inodes that start
    in the same block of 8192 bytes cannot be more than their records leave room for. */
module HeaderCounts {
  import opened SquashDefs
  import opened Arithmetic
  import opened Chunking
  import opened Compressors
  import opened Endian
  import opened Metadata
  import opened Directories
  import opened Inodes
  import opened Trees
  import opened TreeRoundTrip
  import Ids

  /** The entries the format description allows under one header. */
  const HEADER_LIMIT: nat := 256

  /** The stream up to where a node's own inode goes. */
  function InodeStart(c: Compressor, s: Ser, n: Node): Bytes {
    match n.body
    case Dir(kids) => WriteKids(c, s, kids, n.meta.number).0.inodes
    case _ => s.inodes
  }

  function Starts(c: Compressor, s: Ser, kids: seq<Kid>, parent: U32): (starts: seq<Bytes>)
    ensures |starts| == |kids|
    decreases |kids|
  {
    if kids == [] then []
    else [InodeStart(c, s, kids[0].node)] + Starts(c, WriteNode(c, s, kids[0].node, parent).0, kids[1..], parent)
  }

  /** The bytes of a record. */
  function RecordSize(raw: Raw): nat
    requires RawShape(raw)
  {
    16 + Width(BodyWidths(StoredType(raw))) + |Tail(raw)|
  }

  /** The node's own record takes at least `r` bytes; a directory's takes 32 at least. */
  predicate AtLeast(n: Node, r: nat) {
    if n.body.Dir? then r <= 32 else RawShape(LeafRaw(n)) && r <= RecordSize(LeafRaw(n))
  }

  lemma DirRecordSize(raw: Raw)
    requires raw.RawDir?
    ensures RawShape(raw) && 32 <= RecordSize(raw)
  {
    assert Width([4, 2, 2, 4]) == 12 && Width([4, 4, 2, 2, 4]) == 16;
    assert Width([4, 4, 4]) == 12 && Width([4, 4, 4, 2, 2, 4]) == 20 && Width([4, 4, 4, 4, 2, 2, 4]) == 24;
  }

  /** The smallest record of all is that of a pipe or socket. */
  lemma SmallestRecord(blockSize: nat, n: Node)
    requires NodeOk(blockSize, n)
    ensures AtLeast(n, 20)
    ensures n.body.Reg? || n.body.Dir? ==> AtLeast(n, 32)
    ensures n.body.Sym? && 8 <= |n.body.target| ==> AtLeast(n, 32)
  {
    if !n.body.Dir? {
      LeafShape(blockSize, n);
      LeafWidths();
    }
  }

  lemma LeafWidths()
    ensures Width([4]) == 4 && Width([4, 4]) == 8 && Width([4, 4, 4, 4]) == 16 && Width([8, 8, 8, 4, 4, 4, 4]) == 40
  {
    assert Width([4, 4, 4]) == 12 && Width([8, 4, 4, 4, 4]) == 24 && Width([8, 8, 4, 4, 4, 4]) == 32;
  }

  lemma RecordLength(head: Head, raw: Raw)
    requires RawShape(raw)
    ensures |EncodeInode(head, raw)| == RecordSize(raw)
  {
    RecordParts(head, raw);
  }

  /** A node's inode goes at its start, and takes its record's bytes. */
  lemma NodeStart(c: Compressor, s: Ser, n: Node, parent: U32, r: nat)
    requires AtLeast(n, r) && Ids.NoTwice(s.ids)
    ensures WriteNode(c, s, n, parent).1 == AddressAt(c, InodeStart(c, s, n))
    ensures s.inodes <= InodeStart(c, s, n) <= WriteNode(c, s, n, parent).0.inodes
    ensures |InodeStart(c, s, n)| + r <= |WriteNode(c, s, n, parent).0.inodes|
  {
    hide EncodeInode, EncodeListing, AddressAt, HeadOf, IdsAfter, WriteKids, RecordSize, RawShape, DirRaw, LeafRaw;
    match n.body
    case Dir(kids) =>
      var (s1, es) := WriteKids(c, s, kids, n.meta.number);
      WriteKidsGrows(c, s, kids, n.meta.number);
      var (s2, at) := PutListing(c, s1, es);
      DirIsDir(n.meta, es, at, parent);
      DirRecordSize(DirRaw(n.meta, es, at, parent));
      RecordLength(HeadOf(s2.ids, n.meta), DirRaw(n.meta, es, at, parent));
    case _ =>
      RecordLength(HeadOf(s.ids, n.meta), LeafRaw(n));
  }

  lemma DirIsDir(m: Meta, es: seq<Entry>, at: Address, parent: U32)
    ensures DirRaw(m, es, at, parent).RawDir?
  {
  }

  /** Each start lies at least `r` bytes behind the one before. */
  predicate Spaced(starts: seq<Bytes>, r: nat) {
    forall i :: 0 <= i < |starts| - 1 ==> starts[i] <= starts[i + 1] && |starts[i]| + r <= |starts[i + 1]|
  }

  lemma {:induction false} StartsSpaced(c: Compressor, s: Ser, kids: seq<Kid>, parent: U32, r: nat)
    requires Ids.NoTwice(s.ids) && forall k :: 0 <= k < |kids| ==> AtLeast(kids[k].node, r)
    ensures Spaced(Starts(c, s, kids, parent), r)
    ensures forall i :: 0 <= i < |kids| ==>
              && s.inodes <= Starts(c, s, kids, parent)[i] <= WriteKids(c, s, kids, parent).0.inodes
              && WriteKids(c, s, kids, parent).1[i].address == AddressAt(c, Starts(c, s, kids, parent)[i])
    decreases |kids|
  {
    hide WriteNode, InodeStart, AddressAt, AtLeast;
    if kids != [] {
      var (s1, addr) := WriteNode(c, s, kids[0].node, parent);
      NodeStart(c, s, kids[0].node, parent, r);
      WriteNodeGrows(c, s, kids[0].node, parent);
      StartsSpaced(c, s1, kids[1..], parent, r);
      WriteKidsGrows(c, s1, kids[1..], parent);
      var starts, more := Starts(c, s, kids, parent), Starts(c, s1, kids[1..], parent);
      assert starts == [InodeStart(c, s, kids[0].node)] + more;
    }
  }

  lemma {:induction false} FarApart(starts: seq<Bytes>, r: nat, i: nat, j: nat)
    requires Spaced(starts, r) && i <= j < |starts|
    ensures starts[i] <= starts[j] && |starts[i]| + r * (j - i) <= |starts[j]|
    decreases j
  {
    if i < j {
      FarApart(starts, r, i, j - 1);
      TimesNext(r, j - 1 - i);
      assert starts[j - 1] <= starts[j - 1 + 1];
    } else {
      assert r * 0 == 0;
    }
  }

  /** Positions with the same block address are less than a block apart. */
  lemma SameBlock(c: Compressor, s: Bytes, t: Bytes, final: Bytes)
    requires s <= t <= final && |TableOf(c, final)| < 0x1_0000_0000
    requires AddressAt(c, s).block == AddressAt(c, t).block
    ensures |t| < |s| + META_SIZE
  {
    hide EncodeAll, FullChunks, Rest;
    TablePrefix(c, s, final);
    TablePrefix(c, t, final);
    var u := t[|s|..];
    assert t == s + u;
    ChunksAppend(META_SIZE, s, u);
    var more := FullChunks(META_SIZE, Rest(META_SIZE, s) + u);
    EncodeAllAppend(c, FullChunks(META_SIZE, s), more);
    EncodedSome(c, more);
    NoBlockIn(Rest(META_SIZE, s) + u);
    BelowBlock(s);
  }

  lemma EncodedSome(c: Compressor, chunks: seq<Bytes>)
    ensures EncodeAll(c, chunks) == [] ==> chunks == []
  {
  }

  lemma NoBlockIn(s: Bytes)
    ensures FullChunks(META_SIZE, s) == [] ==> |s| < META_SIZE
  {
  }

  lemma BelowBlock(s: Bytes)
    ensures |Rest(META_SIZE, s)| <= |s|
  {
    ChunksCover(META_SIZE, s);
    assert |Flat(FullChunks(META_SIZE, s)) + Rest(META_SIZE, s)| == |s|;
  }

  /** Under one header: with records of `r` bytes at least, so many entries that all starts but the
      last leave room in a block; with records of 32 bytes or more never more than the format
      allows. */
  lemma HeaderCount(c: Compressor, s: Ser, kids: seq<Kid>, parent: U32, r: nat, i: nat)
    requires Ids.NoTwice(s.ids) && (forall k :: 0 <= k < |kids| ==> AtLeast(kids[k].node, r)) && i < |kids|
    requires |TableOf(c, WriteKids(c, s, kids, parent).0.inodes)| < 0x1_0000_0000
    ensures var count := FirstSegment(WriteKids(c, s, kids, parent).1[i..]);
            r * (count - 1) < META_SIZE && (32 <= r ==> count <= HEADER_LIMIT)
  {
    hide WriteKids, TableOf, AddressAt, AtLeast, Starts, SegmentLen, Works;
    var (t, es) := WriteKids(c, s, kids, parent);
    var starts := Starts(c, s, kids, parent);
    var count := FirstSegment(es[i..]);
    var j := i + count - 1;
    StartsSpaced(c, s, kids, parent, r);
    SegmentEnds(es, i, count);
    FarApart(starts, r, i, j);
    SameBlock(c, starts[i], starts[j], t.inodes);
    FewTimes(r, count - 1);
  }

  lemma SegmentEnds(es: seq<Entry>, i: nat, count: nat)
    requires i < |es| && count == FirstSegment(es[i..])
    ensures i + count <= |es| && es[i + count - 1].address.block == es[i].address.block
  {
    SegmentWorks(es[i..][0].address.block, es[i..][0].number, es[i..]);
    assert es[i..][count - 1] == es[i + count - 1];
  }

  lemma FewTimes(r: nat, n: nat)
    requires r * n < META_SIZE
    ensures 32 <= r ==> n < HEADER_LIMIT
  {
    assert 32 <= r ==> 32 * n <= r * n;
  }
}
