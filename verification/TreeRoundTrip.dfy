/** The tree read from the root's address is the tree that was written. */
module TreeRoundTrip {
  import opened SquashDefs
  import opened Chunking
  import opened Compressors
  import opened Metadata
  import opened Directories
  import opened Inodes
  import opened Trees
  import Ids

  /** The bytes a listing of these children can take at most. */
  function ListingBound(kids: seq<Kid>): nat {
    if kids == [] then 0 else 20 + |kids[0].name| + ListingBound(kids[1..])
  }

  /** What the format can hold: names of 1 to 255 bytes, listings whose size fits its field, and
      leaves whose records are well formed. */
  predicate NodeOk(blockSize: nat, n: Node)
    decreases n
  {
    match n.body
    case Dir(kids) => KidsOk(blockSize, kids) && ListingBound(kids) + 3 < 0x1_0000_0000
    case _ => RawOk(blockSize, LeafRaw(n))
  }

  predicate KidsOk(blockSize: nat, kids: seq<Kid>)
    decreases kids
  {
    kids == []
    || (0 < |kids[0].name| <= 0xff && NodeOk(blockSize, kids[0].node) && KidsOk(blockSize, kids[1..]))
  }

  // ---- Streams only grow ----

  predicate Within(s: Ser, t: Ser) {
    s.inodes <= t.inodes && s.dirs <= t.dirs && s.ids <= t.ids
  }

  lemma LookupNoTwice(ids: seq<U32>, m: Meta)
    requires Ids.NoTwice(ids)
    ensures Ids.NoTwice(IdsAfter(ids, m)) && ids <= IdsAfter(ids, m)
  {
  }

  lemma {:induction false} WriteNodeGrows(c: Compressor, s: Ser, n: Node, parent: U32)
    requires Ids.NoTwice(s.ids)
    ensures Within(s, WriteNode(c, s, n, parent).0) && Ids.NoTwice(WriteNode(c, s, n, parent).0.ids)
    decreases n
  {
    hide EncodeInode, EncodeListing, AddressAt, LeafRaw, DirRaw, IdsAfter, HeadOf;
    match n.body
    case Dir(kids) =>
      WriteKidsGrows(c, s, kids, n.meta.number);
      LookupNoTwice(WriteKids(c, s, kids, n.meta.number).0.ids, n.meta);
    case _ =>
      LookupNoTwice(s.ids, n.meta);
  }

  lemma {:induction false} WriteKidsGrows(c: Compressor, s: Ser, kids: seq<Kid>, parent: U32)
    requires Ids.NoTwice(s.ids)
    ensures Within(s, WriteKids(c, s, kids, parent).0) && Ids.NoTwice(WriteKids(c, s, kids, parent).0.ids)
    decreases kids
  {
    hide WriteNode;
    if kids != [] {
      WriteNodeGrows(c, s, kids[0].node, parent);
      WriteKidsGrows(c, WriteNode(c, s, kids[0].node, parent).0, kids[1..], parent);
    }
  }

  // ---- Reading at an address ----

  /** An image that holds the finished tables of `final`; its ids may be any. */
  ghost predicate Holds(img: Image, final: Ser) {
    && Lawful(img.comp) && 0 < img.blockSize
    && HoldsStream(img.comp, img.bytes, img.inodes, Padded(final.inodes))
    && HoldsStream(img.comp, img.bytes, img.dirs, Padded(final.dirs))
  }

  predicate HoldsStream(c: Compressor, bytes: Bytes, start: nat, s: Bytes) {
    var table := TableOf(c, s);
    start + |table| <= |bytes| && bytes[start..start + |table|] == table && |table| < 0x1_0000_0000
  }

  lemma TablePrefix(c: Compressor, s: Bytes, t: Bytes)
    requires s <= t
    ensures |TableOf(c, s)| <= |TableOf(c, t)|
  {
    hide EncodeAll;
    var u := t[|s|..];
    assert t == s + u;
    ChunksAppend(META_SIZE, s, u);
    EncodeAllAppend(c, FullChunks(META_SIZE, s), FullChunks(META_SIZE, Rest(META_SIZE, s) + u));
  }

  /** Bytes put at a point of the stream are read from the address of that point. */
  lemma StreamReadsBack(c: Compressor, bytes: Bytes, start: nat, s: Bytes, t: Bytes, whole: Bytes)
    requires Lawful(c) && t != [] && s + t <= whole && HoldsStream(c, bytes, start, Padded(whole))
    ensures ReadMeta(c, bytes, start + AddressAt(c, s).block, AddressAt(c, s).offset, |t|) == Some(t)
  {
    hide TableOf, ReadMeta, Rest;
    var final := Padded(whole);
    assert s + t <= final;
    var u := final[|s + t|..];
    assert final == s + t + u;
    PaddedIsWhole(whole);
    TablePrefix(c, s, final);
    PutReadsBack(c, bytes, start, s, t, u);
  }

  lemma InodeAt(img: Image, final: Ser, s: Ser, m: Meta, raw: Raw)
    requires Holds(img, final) && RawOk(img.blockSize, raw) && RawShape(raw)
    requires s.inodes + EncodeInode(HeadOf(s.ids, m), raw) <= final.inodes
    ensures var at := AddressAt(img.comp, s.inodes);
            ReadInode(img.comp, img.blockSize, img.bytes, img.inodes + at.block, at.offset)
            == Some((HeadOf(s.ids, m), raw))
  {
    hide EncodeInode, AddressAt, ReadMeta, HeadOf, ReadInode, RawOk, BodyFields, BodyWidths, Padded, HoldsStream;
    var head := HeadOf(s.ids, m);
    var b := EncodeInode(head, raw);
    var at := AddressAt(img.comp, s.inodes);
    forall len | 0 < len <= |b|
      ensures ReadMeta(img.comp, img.bytes, img.inodes + at.block, at.offset, len) == Some(b[..len])
    {
      assert s.inodes + b[..len] <= s.inodes + b;
      StreamReadsBack(img.comp, img.bytes, img.inodes, s.inodes, b[..len], final.inodes);
    }
    InodeReadsBack(img.comp, img.blockSize, img.bytes, img.inodes + at.block, at.offset, head, raw);
  }

  /** Writing a head adds the uid if it is new, and behind it the gid if that is new. */
  lemma OwnersAdded(ids: seq<U32>, m: Meta)
    ensures IdsAfter(ids, m)
         == ids + (if m.uid in ids then [] else [m.uid]) + (if m.gid in ids || m.gid == m.uid then [] else [m.gid])
  {
  }

  /** The indices in a head resolve through whatever list of ids the reader has: to the owners as
      that list has them, or not at all when an index lies past its end. */
  lemma OwnersResolve(img: Image, final: Ser, ids: seq<U32>, m: Meta, nlink: U32, xattr: U32)
    requires IdsAfter(ids, m) <= final.ids
    ensures Resolve(img, HeadOf(ids, m), nlink, xattr)
         == if MetaReaches(img.ids, final.ids, m)
            then Some(MetaAsRead(img.ids, final.ids, m).(nlink := nlink, xattr := xattr))
            else None
  {
    hide Ids.IndexAfter, Ids.Find;
    var a := Ids.Lookup(ids, m.uid);
    var b := Ids.Lookup(a, m.gid);
    assert m.uid in a && m.gid in b;
    assert a <= b <= final.ids;
    Ids.FindPrefix(a, final.ids, m.uid);
    Ids.FindPrefix(b, final.ids, m.gid);
  }

  // ---- Listings ----

  lemma {:induction false} EntriesLength(number: U32, es: seq<Entry>, k: nat)
    requires k <= |es|
    ensures |EncodeEntries(number, es[..k])| + NamesBound(es[k..]) + 12 * k == NamesBound(es)
    decreases k
  {
    hide EncodeEntry;
    if k == 0 {
      assert es[0..] == es;
    } else {
      assert es[..k][0] == es[0] && es[..k][1..] == es[1..][..k - 1];
      assert es[k..] == es[1..][k - 1..];
      EntriesLength(number, es[1..], k - 1);
      EntryLength(number, es[0]);
    }
  }

  lemma EntryLength(number: U32, e: Entry)
    ensures |EncodeEntry(number, e)| == 8 + |e.name|
  {
    Width2222();
  }

  /** Each entry with a header of its own: the longest a listing can get. */
  function NamesBound(es: seq<Entry>): nat {
    if es == [] then 0 else 20 + |es[0].name| + NamesBound(es[1..])
  }

  lemma {:induction false} ListingLength(es: seq<Entry>)
    ensures |EncodeListing(es)| <= NamesBound(es)
    ensures es != [] ==> 0 < |EncodeListing(es)|
    decreases |es|
  {
    hide EncodeEntries, EncodeHeader, SegmentLen;
    if es != [] {
      var k := FirstSegment(es);
      ListingSplits(es, k);
      ListingLength(es[k..]);
      EntriesLength(es[0].number, es, k);
      HeaderLength(k, es[0].address.block, es[0].number);
    }
  }

  lemma HeaderLength(count: nat, block: U32, number: U32)
    ensures |EncodeHeader(count, block, number)| == 12
  {
    Width2222();
  }

  /** What the entries of written children look like. */
  lemma {:induction false} KidEntries(c: Compressor, blockSize: nat, s: Ser, kids: seq<Kid>, parent: U32)
    requires KidsOk(blockSize, kids)
    ensures var es := WriteKids(c, s, kids, parent).1;
            && (forall e :: e in es ==> EntryOk(e))
            && NamesBound(es) == ListingBound(kids)
            && CountDirs(es) == CountDirKids(kids)
    decreases |kids|
  {
    hide WriteNode, EntryOk, CountDirs;
    if kids == [] {
      NoDirs();
    } else {
      var (s1, addr) := WriteNode(c, s, kids[0].node, parent);
      KidEntries(c, blockSize, s1, kids[1..], parent);
      var more := WriteKids(c, s1, kids[1..], parent).1;
      var e := Entry(kids[0].name, addr, kids[0].node.meta.number, NodeType(kids[0].node));
      KidEntry(blockSize, kids[0], e);
      CountDirsCons(e, more);
      assert ([e] + more)[1..] == more;
    }
  }

  lemma NoDirs()
    ensures CountDirs([]) == 0
  {
  }

  lemma KidEntry(blockSize: nat, kid: Kid, e: Entry)
    requires 0 < |kid.name| <= 0xff && NodeOk(blockSize, kid.node)
    requires e.name == kid.name && e.inodeType == NodeType(kid.node)
    ensures EntryOk(e) && (e.inodeType == TYPE_DIR <==> kid.node.body.Dir?)
  {
  }

  lemma CountDirsCons(e: Entry, es: seq<Entry>)
    ensures CountDirs([e] + es) == (if e.inodeType == TYPE_DIR then 1 else 0) + CountDirs(es)
  {
    CountDirsAppend([e], es);
    assert Init([e]) == [];
    assert CountDirs([e]) == CountDirs([]) + if e.inodeType == TYPE_DIR then 1 else 0;
  }

  lemma ListingAt(img: Image, final: Ser, dirs: Bytes, es: seq<Entry>, raw: Raw)
    requires Holds(img, final) && raw.RawDir? && dirs + EncodeListing(es) <= final.dirs
    requires |es| <= 0x1_0000_0000 && forall e :: e in es ==> EntryOk(e)
    requires NamesBound(es) + 3 < 0x1_0000_0000
    requires raw.startBlock == AddressAt(img.comp, dirs).block && raw.startOffset == AddressAt(img.comp, dirs).offset
    requires raw.filesize == Narrow32(3 + |EncodeListing(es)|)
    ensures ReadListing(img, raw) == Some(es)
  {
    hide EncodeListing, ParseListing, ReadMeta, AddressAt, Padded, HoldsStream;
    ListingLength(es);
    ListingReadsBack(es);
    NoListing();
    if es != [] {
      StreamReadsBack(img.comp, img.bytes, img.dirs, dirs, EncodeListing(es), final.dirs);
    }
  }

  // ---- Nodes ----

  /** What a reader makes of a node: its owners through the reader's ids, all else as written; and
      nothing if some index below lies past the end of those ids. */
  function Shown(img: Image, final: Ser, n: Node, parent: U32): Option<Seen> {
    if AllReach(img.ids, final.ids, n) then Some(Expected(AsRead(img.ids, final.ids, n), parent)) else None
  }

  function ShownKids(img: Image, final: Ser, kids: seq<Kid>, parent: U32): Option<seq<SeenKid>> {
    if KidsReach(img.ids, final.ids, kids) then Some(ExpectedKids(AsReadKids(img.ids, final.ids, kids), parent))
    else None
  }

  lemma LeafReadsBack(img: Image, final: Ser, s: Ser, n: Node, parent: U32, fuel: nat)
    requires Holds(img, final) && NodeOk(img.blockSize, n) && !n.body.Dir? && Ids.NoTwice(s.ids) && 0 < fuel
    requires Within(WriteNode(img.comp, s, n, parent).0, final)
    ensures ReadNode(img, WriteNode(img.comp, s, n, parent).1, fuel) == Shown(img, final, n, parent)
  {
    hide EncodeInode, AddressAt, HeadOf, ReadInode, IdsAfter, Holds, Resolve, RawOk, MetaAsRead, MetaReaches;
    var raw := LeafRaw(n);
    LeafShape(img.blockSize, n);
    InodeAt(img, final, s, n.meta, raw);
    OwnersResolve(img, final, s.ids, n.meta, n.meta.nlink, n.meta.xattr);
    SameLinks(img.ids, final.ids, n.meta);
  }

  lemma SameLinks(read: seq<U32>, order: seq<U32>, m: Meta)
    ensures MetaAsRead(read, order, m).(nlink := m.nlink, xattr := m.xattr) == MetaAsRead(read, order, m)
    ensures MetaAsRead(read, order, m).xattr == m.xattr && MetaAsRead(read, order, m).number == m.number
  {
  }

  lemma LeafShape(blockSize: nat, n: Node)
    requires !n.body.Dir? && RawOk(blockSize, LeafRaw(n))
    ensures RawShape(LeafRaw(n)) && !LeafRaw(n).RawDir? && LeafOf(LeafRaw(n)) == n.body
    ensures LeafRaw(n).nlink == n.meta.nlink && LeafRaw(n).xattr == n.meta.xattr
  {
    BodyFits(blockSize, LeafRaw(n));
  }

  lemma DirShape(blockSize: nat, raw: Raw)
    requires raw.RawDir? && 0 < blockSize
    ensures RawShape(raw) && RawOk(blockSize, raw)
  {
    BodyFits(blockSize, raw);
  }

  lemma HeightPositive(n: Node)
    ensures 0 < Height(n)
  {
  }

  lemma {:induction false} EntriesCounted(es: seq<Entry>)
    ensures |es| <= NamesBound(es)
  {
    if es != [] {
      EntriesCounted(es[1..]);
    }
  }

  /** What a directory passes on to its children. */
  lemma DirFacts(c: Compressor, blockSize: nat, final: Ser, s: Ser, n: Node, parent: U32)
    requires n.body.Dir? && NodeOk(blockSize, n) && Ids.NoTwice(s.ids)
    requires Within(WriteNode(c, s, n, parent).0, final)
    ensures var kids, number := n.body.kids, n.meta.number;
            var (s1, es) := WriteKids(c, s, kids, number);
            var raw := DirRaw(n.meta, es, AddressAt(c, s1.dirs), parent);
            && KidsOk(blockSize, kids) && KidsHeight(kids) < Height(n)
            && Ids.NoTwice(s1.ids) && Within(s1, final)
            && s1.dirs + EncodeListing(es) <= final.dirs && IdsAfter(s1.ids, n.meta) <= final.ids
            && RawShape(raw) && s1.inodes + EncodeInode(HeadOf(s1.ids, n.meta), raw) <= final.inodes
            && WriteNode(c, s, n, parent).1 == AddressAt(c, s1.inodes)
  {
    hide WriteKids, KidsOk, DirRaw, HeadOf, AddressAt, EncodeListing, EncodeInode, IdsAfter, Within, RawShape,
      KidsHeight;
    var kids, number := n.body.kids, n.meta.number;
    var (s1, es) := WriteKids(c, s, kids, number);
    WriteKidsGrows(c, s, kids, number);
    DirPartsWithin(c, final, s1, es, n.meta, parent);
  }

  lemma DirFromKids(img: Image, final: Ser, s: Ser, n: Node, parent: U32, fuel: nat)
    requires Holds(img, final) && n.body.Dir? && NodeOk(img.blockSize, n) && Ids.NoTwice(s.ids) && 0 < fuel
    requires Within(WriteNode(img.comp, s, n, parent).0, final)
    requires ReadKids(img, WriteKids(img.comp, s, n.body.kids, n.meta.number).1, fuel - 1)
          == ShownKids(img, final, n.body.kids, n.meta.number)
    ensures ReadNode(img, WriteNode(img.comp, s, n, parent).1, fuel) == Shown(img, final, n, parent)
  {
    hide Holds, WriteKids, WriteNode, KidsOk, DirRaw, HeadOf, AddressAt, EncodeListing, EncodeInode, IdsAfter, Within,
      RawShape, ReadNode, ReadKids, ExpectedKids, NamesBound, EntryOk;
    var c, kids, number := img.comp, n.body.kids, n.meta.number;
    var (s1, es) := WriteKids(c, s, kids, number);
    DirFacts(c, img.blockSize, final, s, n, parent);
    KidEntries(c, img.blockSize, s, kids, number);
    EntriesCounted(es);
    DirReadsBack(img, final, s1, es, n.meta, parent, fuel, ShownKids(img, final, kids, number));
    DirShown(img, final, n, parent);
  }

  /** A directory shown is its own head and its children shown. */
  lemma DirShown(img: Image, final: Ser, n: Node, parent: U32)
    requires n.body.Dir?
    ensures Shown(img, final, n, parent)
         == if MetaReaches(img.ids, final.ids, n.meta) && ShownKids(img, final, n.body.kids, n.meta.number).Some?
            then
              var nlink := Narrow32(2 + CountDirKids(n.body.kids));
              Some(Seen(MetaAsRead(img.ids, final.ids, n.meta).(nlink := nlink),
                        SeenDir(parent, ShownKids(img, final, n.body.kids, n.meta.number).value)))
            else None
  {
    hide MetaReaches, ExpectedKids, KidsReach, CountDirKids, Narrow32;
  }

  lemma {:induction false} NodeReadsBack(img: Image, final: Ser, s: Ser, n: Node, parent: U32, fuel: nat)
    requires Holds(img, final) && NodeOk(img.blockSize, n) && Ids.NoTwice(s.ids) && Height(n) <= fuel
    requires Within(WriteNode(img.comp, s, n, parent).0, final)
    ensures ReadNode(img, WriteNode(img.comp, s, n, parent).1, fuel) == Shown(img, final, n, parent)
    decreases n
  {
    hide Holds, WriteKids, WriteNode, KidsOk, Within, ReadNode, ReadKids, Expected, ExpectedKids, NodeOk, Height,
      KidsHeight, DirRaw, HeadOf, AddressAt, EncodeListing, EncodeInode, IdsAfter, RawShape;
    if n.body.Dir? {
      var kids, number := n.body.kids, n.meta.number;
      DirFacts(img.comp, img.blockSize, final, s, n, parent);
      KidsReadBack(img, final, s, kids, number, fuel - 1);
      DirFromKids(img, final, s, n, parent, fuel);
    } else {
      LeafReadsBack(img, final, s, n, parent, fuel) by { HeightPositive(n); }
    }
  }

  lemma {:induction false} KidsReadBack(img: Image, final: Ser, s: Ser, kids: seq<Kid>, parent: U32, fuel: nat)
    requires Holds(img, final) && KidsOk(img.blockSize, kids) && Ids.NoTwice(s.ids) && KidsHeight(kids) <= fuel
    requires Within(WriteKids(img.comp, s, kids, parent).0, final)
    ensures ReadKids(img, WriteKids(img.comp, s, kids, parent).1, fuel) == ShownKids(img, final, kids, parent)
    decreases kids
  {
    hide Holds, WriteNode, ReadNode, Expected, NodeOk, AllReach, AsRead, MetaAsRead;
    if kids != [] {
      var (s1, addr) := WriteNode(img.comp, s, kids[0].node, parent);
      WriteNodeGrows(img.comp, s, kids[0].node, parent);
      WriteKidsGrows(img.comp, s1, kids[1..], parent);
      NodeReadsBack(img, final, s, kids[0].node, parent, fuel);
      KidsReadBack(img, final, s1, kids[1..], parent, fuel);
      var more := WriteKids(img.comp, s1, kids[1..], parent).1;
      var e := Entry(kids[0].name, addr, kids[0].node.meta.number, NodeType(kids[0].node));
      assert ([e] + more)[1..] == more;
      var asRead := AsReadKids(img.ids, final.ids, kids);
      assert asRead[1..] == AsReadKids(img.ids, final.ids, kids[1..]);
      SameLinks(img.ids, final.ids, kids[0].node.meta);
      ListingAgrees(AsRead(img.ids, final.ids, kids[0].node), parent);
    }
  }

  /** What a listing says of a child is what its inode says. */
  lemma ListingAgrees(n: Node, parent: U32)
    ensures Expected(n, parent).meta.number == n.meta.number && SeenType(Expected(n, parent)) == NodeType(n)
  {
    hide ExpectedKids, CountDirKids;
  }

  /** A directory's two writes, its listing and its inode, are both in the final streams. */
  lemma DirPartsWithin(c: Compressor, final: Ser, s1: Ser, es: seq<Entry>, m: Meta, parent: U32)
    requires var (s2, at) := PutListing(c, s1, es);
             Within(PutInode(c, s2, m, DirRaw(m, es, at, parent)).0, final)
    requires Ids.NoTwice(s1.ids)
    ensures Within(s1, final) && s1.dirs + EncodeListing(es) <= final.dirs
    ensures var raw := DirRaw(m, es, AddressAt(c, s1.dirs), parent);
            RawShape(raw) && s1.inodes + EncodeInode(HeadOf(s1.ids, m), raw) <= final.inodes
    ensures IdsAfter(s1.ids, m) <= final.ids
  {
    hide EncodeInode, EncodeListing, AddressAt, HeadOf, IdsAfter, BodyFields, BodyWidths, CountDirs;
    DirShape(1, DirRaw(m, es, AddressAt(c, s1.dirs), parent));
    LookupNoTwice(s1.ids, m);
  }

  lemma DirReadsBack(img: Image, final: Ser, s1: Ser, es: seq<Entry>, m: Meta, parent: U32, fuel: nat,
                     kids: Option<seq<SeenKid>>)
    requires Holds(img, final) && Ids.NoTwice(s1.ids) && 0 < fuel
    requires s1.dirs + EncodeListing(es) <= final.dirs && IdsAfter(s1.ids, m) <= final.ids
    requires var raw := DirRaw(m, es, AddressAt(img.comp, s1.dirs), parent);
             RawShape(raw) && s1.inodes + EncodeInode(HeadOf(s1.ids, m), raw) <= final.inodes
    requires |es| <= 0x1_0000_0000 && (forall e :: e in es ==> EntryOk(e)) && NamesBound(es) + 3 < 0x1_0000_0000
    requires ReadKids(img, es, fuel - 1) == kids
    ensures ReadNode(img, AddressAt(img.comp, s1.inodes), fuel)
         == if MetaReaches(img.ids, final.ids, m) && kids.Some?
            then
              var nlink := Narrow32(2 + CountDirs(es));
              Some(Seen(MetaAsRead(img.ids, final.ids, m).(nlink := nlink), SeenDir(parent, kids.value)))
            else None
  {
    hide EncodeInode, EncodeListing, AddressAt, HeadOf, IdsAfter, Holds, Resolve, ReadInode, ReadListing, ReadKids,
      ReadNode, RawShape, RawOk, NamesBound, EntryOk, MetaReaches, MetaAsRead, DirRaw;
    var at := AddressAt(img.comp, s1.dirs);
    var raw := DirRaw(m, es, at, parent);
    DirFields(m, es, at, parent);
    PositiveBlockSize(img, final);
    DirShape(img.blockSize, raw);
    InodeAt(img, final, s1, m, raw);
    OwnersResolve(img, final, s1.ids, m, raw.nlink, raw.xattr);
    NewLinks(img.ids, final.ids, m, raw.nlink);
    ListingAt(img, final, s1.dirs, es, raw);
    DirStep(img, AddressAt(img.comp, s1.inodes), fuel, HeadOf(s1.ids, m), raw, es);
  }

  lemma DirFields(m: Meta, es: seq<Entry>, at: Address, parent: U32)
    ensures var raw := DirRaw(m, es, at, parent);
            && raw.RawDir? && raw.parent == parent && raw.xattr == m.xattr
            && raw.nlink == Narrow32(2 + CountDirs(es)) && raw.filesize == Narrow32(3 + |EncodeListing(es)|)
            && raw.startBlock == at.block && raw.startOffset == at.offset
  {
    hide CountDirs, EncodeListing, Narrow32;
  }

  lemma NewLinks(read: seq<U32>, order: seq<U32>, m: Meta, nlink: U32)
    ensures MetaAsRead(read, order, m).(nlink := nlink, xattr := m.xattr) == MetaAsRead(read, order, m).(nlink := nlink)
  {
  }

  /** One step of the reader at a directory. */
  lemma DirStep(img: Image, at: Address, fuel: nat, head: Head, raw: Raw, es: seq<Entry>)
    requires 0 < fuel && 0 < img.blockSize && raw.RawDir?
    requires ReadInode(img.comp, img.blockSize, img.bytes, img.inodes + at.block, at.offset) == Some((head, raw))
    requires ReadListing(img, raw) == Some(es)
    ensures ReadNode(img, at, fuel)
         == match Resolve(img, head, raw.nlink, raw.xattr)
            case None => None
            case Some(meta) =>
              match ReadKids(img, es, fuel - 1)
              case None => None
              case Some(kids) => Some(Seen(meta, SeenDir(raw.parent, kids)))
  {
    hide ReadInode, ReadListing, Resolve, ReadKids;
  }

  lemma PositiveBlockSize(img: Image, final: Ser)
    requires Holds(img, final)
    ensures 0 < img.blockSize
  {
  }
}
