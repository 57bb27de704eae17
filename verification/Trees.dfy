/** Writing the tree: children before their parent, so that a listing can give their
    addresses; and reading it back from the root's address. */
module Trees {
  import opened SquashDefs
  import opened Compressors
  import opened Metadata
  import opened Directories
  import opened Inodes
  import Ids

  datatype Meta = Meta(mode: U16, uid: U32, gid: U32, mtime: U32, number: U32, nlink: U32, xattr: U32)

  datatype Node = Node(meta: Meta, body: Body)

  datatype Body =
    | Reg(start: U64, sizes: seq<U32>, fragment: U32, offset: U32, fileSize: U64)
    | Sym(target: Bytes)
    | Dev(kind: U16, rdev: U32)
    | Ipc(kind: U16)
    | Dir(kids: seq<Kid>)

  datatype Kid = Kid(name: Bytes, node: Node)

  /** The streams of the two tables and the ids so far. */
  datatype Ser = Ser(inodes: Bytes, dirs: Bytes, ids: seq<U32>)

  function NodeType(n: Node): U16 {
    match n.body
    case Reg(_, _, _, _, _) => TYPE_REG
    case Sym(_) => TYPE_SYM
    case Dev(kind, _) => kind
    case Ipc(kind) => kind
    case Dir(_) => TYPE_DIR
  }

  /** The uid is looked up before the gid. */
  function IdsAfter(ids: seq<U32>, m: Meta): seq<U32> {
    Ids.Lookup(Ids.Lookup(ids, m.uid), m.gid)
  }

  function HeadOf(ids: seq<U32>, m: Meta): Head {
    var a := Ids.Lookup(ids, m.uid);
    var b := Ids.Lookup(a, m.gid);
    Head(m.mode, Ids.IndexAfter(Ids.Find(a, m.uid)), Ids.IndexAfter(Ids.Find(b, m.gid)), m.mtime, m.number)
  }

  /** What a leaf's inode records. */
  function LeafRaw(n: Node): Raw
    requires !n.body.Dir?
  {
    match n.body
    case Reg(start, sizes, fragment, offset, fileSize) =>
      RawReg(start, fileSize, n.meta.nlink, fragment, offset, n.meta.xattr, sizes)
    case Sym(target) => RawSym(n.meta.nlink, target, n.meta.xattr)
    case Dev(kind, rdev) => RawDev(kind, n.meta.nlink, rdev, n.meta.xattr)
    case Ipc(kind) => RawIpc(kind, n.meta.nlink, n.meta.xattr)
  }

  /** What a directory's inode records, once its listing `es` is at `at`. */
  function DirRaw(m: Meta, es: seq<Entry>, at: Address, parent: U32): Raw {
    RawDir(Narrow32(2 + CountDirs(es)), Narrow32(3 + |EncodeListing(es)|), at.block, parent, at.offset, m.xattr)
  }

  predicate RawShape(raw: Raw) {
    TypeOf(raw) >= 7 && |BodyFields(raw)| == |BodyWidths(StoredType(raw))|
  }

  function PutInode(c: Compressor, s: Ser, m: Meta, raw: Raw): (Ser, Address) {
    (Ser(s.inodes + (if RawShape(raw) then EncodeInode(HeadOf(s.ids, m), raw) else []), s.dirs, IdsAfter(s.ids, m)),
     AddressAt(c, s.inodes))
  }

  function PutListing(c: Compressor, s: Ser, es: seq<Entry>): (Ser, Address) {
    (s.(dirs := s.dirs + EncodeListing(es)), AddressAt(c, s.dirs))
  }

  function WriteNode(c: Compressor, s: Ser, n: Node, parent: U32): (Ser, Address)
    decreases n
  {
    match n.body
    case Dir(kids) =>
      var (s1, es) := WriteKids(c, s, kids, n.meta.number);
      var (s2, at) := PutListing(c, s1, es);
      PutInode(c, s2, n.meta, DirRaw(n.meta, es, at, parent))
    case _ => PutInode(c, s, n.meta, LeafRaw(n))
  }

  function WriteKids(c: Compressor, s: Ser, kids: seq<Kid>, parent: U32): (r: (Ser, seq<Entry>))
    ensures |r.1| == |kids|
    decreases kids
  {
    if kids == [] then
      (s, [])
    else
      var kid := kids[0];
      var (s1, addr) := WriteNode(c, s, kid.node, parent);
      var (s2, es) := WriteKids(c, s1, kids[1..], parent);
      (s2, [Entry(kid.name, addr, kid.node.meta.number, NodeType(kid.node))] + es)
  }

  // ---- The reader ----

  /** A node as a reader sees it; a directory knows its parent's number, and a listing repeats
      each child's type and number. */
  datatype Seen = Seen(meta: Meta, body: SeenBody)

  datatype SeenBody =
    | SeenLeaf(body: Body)
    | SeenDir(parent: U32, kids: seq<SeenKid>)

  datatype SeenKid = SeenKid(name: Bytes, inodeType: U16, number: U32, node: Seen)

  /** Where a reader finds things. */
  datatype Image = Image(comp: Compressor, blockSize: nat, bytes: Bytes, inodes: nat, dirs: nat, ids: seq<U32>)

  function Resolve(img: Image, head: Head, nlink: U32, xattr: U32): Option<Meta> {
    if head.uid < |img.ids| && head.gid < |img.ids| then
      Some(Meta(head.mode, img.ids[head.uid], img.ids[head.gid], head.mtime, head.number, nlink, xattr))
    else
      None
  }

  function LeafOf(raw: Raw): Body
    requires !raw.RawDir?
  {
    match raw
    case RawReg(start, fileSize, _, fragment, offset, _, sizes) => Reg(start, sizes, fragment, offset, fileSize)
    case RawSym(_, target, _) => Sym(target)
    case RawDev(kind, _, rdev, _) => Dev(kind, rdev)
    case RawIpc(kind, _, _) => Ipc(kind)
  }

  /** The bytes of a listing: three fewer than the size recorded; none are fetched when none
      are there. */
  function ReadListing(img: Image, raw: Raw): Option<seq<Entry>>
    requires raw.RawDir?
  {
    if raw.filesize < 3 then None
    else if raw.filesize == 3 then Some([])
    else
      var b :- ReadMeta(img.comp, img.bytes, img.dirs + raw.startBlock, raw.startOffset, raw.filesize - 3);
      ParseListing(b)
  }

  function ReadNode(img: Image, at: Address, fuel: nat): Option<Seen>
    requires 0 < img.blockSize
    decreases fuel, 0
  {
    if fuel == 0 then
      None
    else
      var (head, raw) :- ReadInode(img.comp, img.blockSize, img.bytes, img.inodes + at.block, at.offset);
      var meta :- Resolve(img, head, raw.nlink, raw.xattr);
      if raw.RawDir? then
        var es :- ReadListing(img, raw);
        var kids :- ReadKids(img, es, fuel - 1);
        Some(Seen(meta, SeenDir(raw.parent, kids)))
      else
        Some(Seen(meta, SeenLeaf(LeafOf(raw))))
  }

  /** The type a listing should name for a node: 8 for a directory, 9 for a file, and so on. */
  function SeenType(s: Seen): U16 {
    match s.body
    case SeenDir(_, _) => 8
    case SeenLeaf(body) =>
      match body
      case Reg(_, _, _, _, _) => 9
      case Sym(_) => 10
      case Dev(kind, _) => kind
      case Ipc(kind) => kind
      case Dir(_) => 8
  }

  /** A listing must agree with the inodes it points to. */
  function ReadKids(img: Image, es: seq<Entry>, fuel: nat): Option<seq<SeenKid>>
    requires 0 < img.blockSize
    decreases fuel, 1 + |es|
  {
    if es == [] then
      Some([])
    else
      var node :- ReadNode(img, es[0].address, fuel);
      if node.meta.number != es[0].number || SeenType(node) != es[0].inodeType then None else
      var more :- ReadKids(img, es[1..], fuel);
      Some([SeenKid(es[0].name, es[0].inodeType, es[0].number, node)] + more)
  }

  // ---- What should be seen ----

  function CountDirKids(kids: seq<Kid>): nat {
    if kids == [] then 0 else (if kids[0].node.body.Dir? then 1 else 0) + CountDirKids(kids[1..])
  }

  function Expected(n: Node, parent: U32): Seen
    decreases n
  {
    match n.body
    case Dir(kids) =>
      Seen(n.meta.(nlink := Narrow32(2 + CountDirKids(kids))), SeenDir(parent, ExpectedKids(kids, n.meta.number)))
    case _ => Seen(n.meta, SeenLeaf(n.body))
  }

  function ExpectedKids(kids: seq<Kid>, parent: U32): seq<SeenKid>
    decreases kids
  {
    if kids == [] then []
    else [SeenKid(kids[0].name, NodeType(kids[0].node), kids[0].node.meta.number, Expected(kids[0].node, parent))]
         + ExpectedKids(kids[1..], parent)
  }

  // ---- Owners, as another list of ids has them ----

  function MetaAsRead(read: seq<U32>, order: seq<U32>, m: Meta): Meta {
    m.(uid := Ids.ReadAs(read, order, m.uid), gid := Ids.ReadAs(read, order, m.gid))
  }

  predicate MetaReaches(read: seq<U32>, order: seq<U32>, m: Meta) {
    Ids.Reaches(read, order, m.uid) && Ids.Reaches(read, order, m.gid)
  }

  /** The tree whose owners are what `read` has under the stored indices. */
  function AsRead(read: seq<U32>, order: seq<U32>, n: Node): (r: Node)
    ensures r.meta == MetaAsRead(read, order, n.meta) && NodeType(r) == NodeType(n)
    ensures r.body.Dir? <==> n.body.Dir?
    decreases n
  {
    Node(MetaAsRead(read, order, n.meta),
         match n.body
         case Dir(kids) => Dir(AsReadKids(read, order, kids))
         case _ => n.body)
  }

  function AsReadKids(read: seq<U32>, order: seq<U32>, kids: seq<Kid>): (r: seq<Kid>)
    ensures CountDirKids(r) == CountDirKids(kids)
    decreases kids
  {
    if kids == [] then []
    else [Kid(kids[0].name, AsRead(read, order, kids[0].node))] + AsReadKids(read, order, kids[1..])
  }

  predicate AllReach(read: seq<U32>, order: seq<U32>, n: Node)
    decreases n
  {
    MetaReaches(read, order, n.meta) && (n.body.Dir? ==> KidsReach(read, order, n.body.kids))
  }

  predicate KidsReach(read: seq<U32>, order: seq<U32>, kids: seq<Kid>)
    decreases kids
  {
    kids == [] || (AllReach(read, order, kids[0].node) && KidsReach(read, order, kids[1..]))
  }

  function Height(n: Node): nat
    decreases n
  {
    match n.body
    case Dir(kids) => 1 + KidsHeight(kids)
    case _ => 1
  }

  function KidsHeight(kids: seq<Kid>): nat
    decreases kids
  {
    if kids == [] then 0
    else
      var a, b := Height(kids[0].node), KidsHeight(kids[1..]);
      if a < b then b else a
  }
}
