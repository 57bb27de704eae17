/** The finished image: data, tables, superblock and padding; and a reader that is given the
    image and nothing else. */
module Images {
  import opened SquashDefs
  import opened Compressors
  import opened PendingWrites
  import opened Fragments
  import opened Endian
  import opened Metadata
  import opened Inodes
  import opened DataRoundTrip
  import opened IndexedTables
  import opened Superblocks
  import opened Trees
  import Ids

  // ---- What is written after the data ----

  const PAD_SIZE: nat := 0x1000

  const ID_SIZE: nat := 4
  const IDS_PER_BLOCK: nat := 2048
  const FRAGMENT_SIZE: nat := 16
  const FRAGMENTS_PER_BLOCK: nat := 512
  const FRAGMENT_WIDTHS: seq<nat> := [8, 4, 4]

  function SlotCount(order: seq<U32>): nat {
    if |order| <= Ids.INDEX_LIMIT then |order| else Ids.INDEX_LIMIT
  }

  /** The ids in the table that is written, in the order of their indices. */
  function Slots(order: seq<U32>): (ids: seq<U32>)
    ensures |ids| == SlotCount(order)
  {
    Ids.RidsShape(order);
    seq(SlotCount(order), i requires 0 <= i < SlotCount(order) => Ids.RidsOf(order)[i])
  }

  function IdEntries(order: seq<U32>): (es: seq<Bytes>)
    ensures |es| == SlotCount(order) && forall e :: e in es ==> |e| == ID_SIZE
  {
    seq(SlotCount(order), i requires 0 <= i < SlotCount(order) => Le(Slots(order)[i], 4))
  }

  /** The ids a reader loads: as many as the 16-bit count in the superblock says. */
  function LoadedIds(order: seq<U32>): seq<U32> {
    Slots(order)[..Narrow16(|order|)]
  }

  /** Through the loaded ids every owner is found again exactly when there are at most 65535: with
      65536 none is loaded, with more the first is overwritten. */
  lemma LoadedIdsIff(order: seq<U32>)
    requires Ids.NoTwice(order)
    ensures (forall id :: id in order ==>
               Ids.Reaches(LoadedIds(order), order, id) && Ids.ReadAs(LoadedIds(order), order, id) == id)
            <==> |order| <= 0xffff
  {
    hide Ids.RidsOf, Ids.Find;
    Ids.RidsShape(order);
    if |order| <= 0xffff {
      assert LoadedIds(order) == order;
      forall id | id in order
        ensures Ids.Reaches(LoadedIds(order), order, id) && Ids.ReadAs(LoadedIds(order), order, id) == id
      {
        Ids.IndexNarrows(Ids.Find(order, id));
      }
    } else {
      FirstIdIsLost(order);
    }
  }

  lemma FirstIdIsLost(order: seq<U32>)
    requires Ids.NoTwice(order) && |order| > 0xffff
    ensures order[0] in order
    ensures !Ids.Reaches(LoadedIds(order), order, order[0]) || Ids.ReadAs(LoadedIds(order), order, order[0]) != order[0]
  {
    hide Ids.RidsOf;
    assert Ids.Find(order, order[0]) == 0;
    Ids.RidsShape(order);
    if |order| > Ids.INDEX_LIMIT {
      Ids.Overwritten(order);
    }
  }

  function FragmentRecord(e: FragmentEntry): (b: Bytes)
    ensures |b| == FRAGMENT_SIZE
  {
    FragmentWidth();
    Enc([e.start, e.size, 0], FRAGMENT_WIDTHS)
  }

  lemma FragmentWidth()
    ensures Width(FRAGMENT_WIDTHS) == FRAGMENT_SIZE
  {
    assert Width([4, 4]) == 8;
  }

  function FragmentEntries(fragments: seq<FragmentEntry>): (es: seq<Bytes>)
    ensures |es| == |fragments| && forall e :: e in es ==> |e| == FRAGMENT_SIZE
  {
    seq(|fragments|, i requires 0 <= i < |fragments| => FragmentRecord(fragments[i]))
  }

  /** An indexed table at `start`, and its index behind it. */
  datatype Indexed = Indexed(start: nat, table: Bytes, index: Bytes)

  function IndexedAt(c: Compressor, entries: seq<Bytes>, perBlock: nat, start: nat): Indexed
    requires 0 < perBlock
  {
    Indexed(start, TableBytes(c, entries), EncodeWords(IndexWords(c, entries, perBlock, start, |entries|)))
  }

  function IndexPos(t: Indexed): nat {
    t.start + |t.table|
  }

  function EndPos(t: Indexed): nat {
    IndexPos(t) + |t.index|
  }

  datatype Tables = Tables(inodeStart: nat, inodes: Bytes, dirs: Bytes, fragments: Indexed, ids: Indexed)

  function DirStart(t: Tables): nat {
    t.inodeStart + |t.inodes|
  }

  /** The tables of a finished tree, laid out from `pos` on. */
  function TablesOf(c: Compressor, pos: nat, s: Ser, fragments: seq<FragmentEntry>): Tables {
    var inodes, dirs := TableOf(c, Padded(s.inodes)), TableOf(c, Padded(s.dirs));
    var fs := IndexedAt(c, FragmentEntries(fragments), FRAGMENTS_PER_BLOCK, pos + |inodes| + |dirs|);
    var ids := IndexedAt(c, IdEntries(s.ids), IDS_PER_BLOCK, EndPos(fs));
    Tables(pos, inodes, dirs, fs, ids)
  }

  function AllTables(t: Tables): Bytes {
    t.inodes + t.dirs + t.fragments.table + t.fragments.index + t.ids.table + t.ids.index
  }

  function SuperOf(blockSize: nat, blockLog: U16, compression: U16, next: U32, t: Tables,
                   fragmentCount: nat, idCount: nat, root: Address): Super {
    Super(Narrow32(if next == 0 then 0xffff_ffff else next - 1), Narrow32(blockSize), Narrow32(fragmentCount),
          compression, blockLog, Narrow16(idCount), root,
          Narrow64(EndPos(t.ids)), Narrow64(IndexPos(t.ids)), Narrow64(t.inodeStart), Narrow64(DirStart(t)),
          Narrow64(IndexPos(t.fragments)))
  }

  /** Resizing cuts off what is past the new end, or fills up with zeros. */
  function Resized(bytes: Bytes, end: nat): (r: Bytes)
    ensures |r| == end
  {
    if end <= |bytes| then bytes[..end] else bytes + Zeros(end - |bytes|)
  }

  /** The tables go in at the position, the superblock at the front; then the file is resized
      to the next multiple of the padding past the position, never less than one byte more. */
  function Finished(file: OutFile, tables: Bytes, header: Bytes): Bytes
    requires file.pos <= |file.bytes|
  {
    var f := WriteBytes(file, tables);
    Resized(WriteBytes(f.(pos := 0), header).bytes, f.pos + (PAD_SIZE - f.pos % PAD_SIZE))
  }

  // ---- The reader ----

  function ReadIds(c: Compressor, img: Bytes, index: nat, count: nat): Option<seq<U32>> {
    if count == 0 then
      Some([])
    else
      var front :- ReadIds(c, img, index, count - 1);
      var e :- LookupEntry(c, img, index, ID_SIZE, IDS_PER_BLOCK, count - 1);
      Some(front + [Narrow32(Un(e))])
  }

  function ReadFragments(c: Compressor, img: Bytes, index: nat, count: nat): Option<seq<FragmentEntry>> {
    if count == 0 then
      Some([])
    else
      var front :- ReadFragments(c, img, index, count - 1);
      var e :- LookupEntry(c, img, index, FRAGMENT_SIZE, FRAGMENTS_PER_BLOCK, count - 1);
      var f := Dec(e, FRAGMENT_WIDTHS);
      Some(front + [FragmentEntry(f[0], f[1])])
  }

  /** What a user of the image sees. */
  datatype Content =
    | File(meta: Meta, data: Bytes)
    | Special(meta: Meta, body: Body)
    | Folder(meta: Meta, parent: U32, kids: seq<Named>)

  datatype Named = Named(name: Bytes, inodeType: U16, number: U32, content: Content)

  function FileRecordOf(b: Body): FileRecord
    requires b.Reg?
  {
    FileRecord(b.start, b.sizes, b.fragment, b.offset, b.fileSize)
  }

  function Expand(img: Image, fragments: seq<FragmentEntry>, seen: Seen): Content
    requires 0 < img.blockSize
    decreases seen
  {
    match seen.body
    case SeenLeaf(body) =>
      if body.Reg? then
        File(seen.meta, ReadFile(img.comp, img.blockSize, img.bytes, fragments, FileRecordOf(body)))
      else
        Special(seen.meta, body)
    case SeenDir(parent, kids) => Folder(seen.meta, parent, ExpandKids(img, fragments, kids))
  }

  function ExpandKids(img: Image, fragments: seq<FragmentEntry>, kids: seq<SeenKid>): seq<Named>
    requires 0 < img.blockSize
    decreases kids
  {
    if kids == [] then []
    else [Named(kids[0].name, kids[0].inodeType, kids[0].number, Expand(img, fragments, kids[0].node))]
         + ExpandKids(img, fragments, kids[1..])
  }

  /** Everything from the image: superblock, tables, tree, file data. `fuel` bounds the depth
      of directories followed. */
  function ReadImage(c: Compressor, img: Bytes, fuel: nat): Option<Content> {
    var super :- DecodeSuper(img);
    if super.blockSize == 0 then
      None
    else
      var ids :- ReadIds(c, img, super.idTable, super.ids);
      var fragments :- ReadFragments(c, img, super.fragmentTable, super.fragments);
      var image := Image(c, super.blockSize, img, super.inodeTable, super.directoryTable, ids);
      var seen :- ReadNode(image, super.root, fuel);
      Some(Expand(image, fragments, seen))
  }

  // ---- From the files and the tree to what should be seen ----

  function FindFile(files: seq<FileData>, inode: nat): (r: Option<nat>)
    ensures r.Some? ==> r.value < |files| && files[r.value].inode == inode
  {
    if files == [] then None
    else if Last(files).inode == inode then Some(|files| - 1)
    else FindFile(Init(files), inode)
  }

  /** A regular file's inode takes its places from the reports and indices of its number. */
  function Located(cs: Client, w: Writer, n: Node): Node
    decreases n
  {
    match n.body
    case Reg(_, _, _, _, fileSize) =>
      var r := RecordOf(cs, w, n.meta.number, fileSize);
      n.(body := Reg(Narrow64(r.start), NarrowAll(r.sizes), Narrow32(r.fragment), Narrow32(r.offset), fileSize))
    case Dir(kids) => n.(body := Dir(LocatedKids(cs, w, kids)))
    case _ => n
  }

  function LocatedKids(cs: Client, w: Writer, kids: seq<Kid>): (r: seq<Kid>)
    ensures |r| == |kids|
    decreases kids
  {
    if kids == [] then [] else [Kid(kids[0].name, Located(cs, w, kids[0].node))] + LocatedKids(cs, w, kids[1..])
  }

  function ContentOf(files: seq<FileData>, n: Node, parent: U32): Content
    decreases n
  {
    match n.body
    case Reg(_, _, _, _, _) =>
      var i := FindFile(files, n.meta.number);
      File(n.meta, if i.Some? then files[i.value].data else [])
    case Dir(kids) =>
      Folder(n.meta.(nlink := Narrow32(2 + CountDirKids(kids))), parent, ContentOfKids(files, kids, n.meta.number))
    case _ => Special(n.meta, n.body)
  }

  function ContentOfKids(files: seq<FileData>, kids: seq<Kid>, parent: U32): seq<Named>
    decreases kids
  {
    if kids == [] then []
    else [Named(kids[0].name, NodeType(kids[0].node), kids[0].node.meta.number, ContentOf(files, kids[0].node, parent))]
         + ContentOfKids(files, kids[1..], parent)
  }
}
