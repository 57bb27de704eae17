/** The inode and directory writers as they run: records built field by field in a buffer, the
    type patched in place for the basic forms, everything put into the two metadata writers. */
module TreeWriters {
  import opened SquashDefs
  import opened Compressors
  import opened Endian
  import opened Metadata
  import opened Records
  import opened Directories
  import opened Inodes
  import opened Trees
  import Ids

  function HeadBytes(t: U16, head: Head): (b: Bytes)
    ensures |b| == 16
  {
    HeadFits(head, t);
    Enc([t, head.mode, head.uid, head.gid, head.mtime, head.number], HEAD)
  }

  // ---- Records ----

  /** Overwriting the type field changes the type and nothing else. */
  lemma Patched(head: Head, t: U16, u: U16, body: Bytes)
    ensures var b := HeadBytes(t, head) + body;
            |b| >= 2 && b[..0] + Le(u, 2) + b[2..] == HeadBytes(u, head) + body
  {
    hide Le, Enc;
    var rest, widths := [head.mode, head.uid, head.gid, head.mtime, head.number], HEAD[1..];
    EncCons(t, rest, 2, widths);
    EncCons(u, rest, 2, widths);
    assert [2] + widths == HEAD;
    assert [t] + rest == [t, head.mode, head.uid, head.gid, head.mtime, head.number];
    assert [u] + rest == [u, head.mode, head.uid, head.gid, head.mtime, head.number];
    var b := Le(t, 2) + Enc(rest, widths) + body;
    assert b[2..] == Enc(rest, widths) + body;
  }

  lemma DirRecord(head: Head, raw: Raw)
    requires raw.RawDir?
    ensures RawShape(raw) && EncodeInode(head, raw)
         == HeadBytes(StoredType(raw), head) + Enc(BodyFields(raw), BodyWidths(StoredType(raw)))
  {
    hide Enc;
    assert Tail(raw) == [];
  }

  method BuildDir(buff: EndianBuffer, ghost head: Head, raw: Raw)
    requires raw.RawDir? && buff.bytes == HeadBytes(TYPE_DIR, head)
    modifies buff
    ensures RawShape(raw) && buff.bytes == EncodeInode(head, raw)
  {
    hide Le, Enc, HeadBytes, EncodeInode;
    DirRecord(head, raw);
    if raw.filesize > 0xffff || raw.xattr != XATTR_NONE {
      Fields7(buff.bytes, BodyFields(raw), BodyWidths(8));
      buff.L32(raw.nlink);
      buff.L32(raw.filesize);
      buff.L32(raw.startBlock);
      buff.L32(raw.parent);
      buff.L16(0);
      buff.L16(raw.startOffset);
      buff.L32(raw.xattr);
    } else {
      Patched(head, TYPE_DIR, TYPE_DIR - 7, []);
      assert buff.bytes + [] == buff.bytes && HeadBytes(1, head) + [] == HeadBytes(1, head);
      buff.L16At(0, TYPE_DIR - 7);
      Fields5(buff.bytes, BodyFields(raw), BodyWidths(1));
      buff.L32(raw.startBlock);
      buff.L32(raw.nlink);
      buff.L16(raw.filesize);
      buff.L16(raw.startOffset);
      buff.L32(raw.parent);
    }
  }

  lemma RegRecord(head: Head, raw: Raw)
    requires raw.RawReg?
    ensures RawShape(raw) && EncodeInode(head, raw)
         == HeadBytes(StoredType(raw), head) + Enc(BodyFields(raw), BodyWidths(StoredType(raw)))
            + EncodeSizes(raw.sizes)
  {
    hide Enc;
  }

  /** The record of a regular file up to its size words, which are put separately. */
  method BuildReg(buff: EndianBuffer, ghost head: Head, raw: Raw)
    requires raw.RawReg? && buff.bytes == HeadBytes(TYPE_REG, head)
    modifies buff
    ensures RawShape(raw) && buff.bytes + EncodeSizes(raw.sizes) == EncodeInode(head, raw)
  {
    hide Le, Enc, HeadBytes, EncodeInode, EncodeSizes;
    RegRecord(head, raw);
    if raw.start > 0xffff || raw.fileSize > 0xffff || raw.xattr != XATTR_NONE || raw.nlink != 1 {
      Fields7(buff.bytes, BodyFields(raw), BodyWidths(9));
      buff.L64(raw.start);
      buff.L64(raw.fileSize);
      buff.L64(0);
      buff.L32(raw.nlink);
      buff.L32(raw.fragment);
      buff.L32(raw.offset);
      buff.L32(raw.xattr);
    } else {
      Patched(head, TYPE_REG, TYPE_REG - 7, []);
      assert buff.bytes + [] == buff.bytes && HeadBytes(2, head) + [] == HeadBytes(2, head);
      buff.L16At(0, TYPE_REG - 7);
      Fields4(buff.bytes, BodyFields(raw), BodyWidths(2));
      buff.L32(raw.start);
      buff.L32(raw.fragment);
      buff.L32(raw.offset);
      buff.L32(raw.fileSize);
    }
  }

  lemma FoursGrow(sizes: seq<U32>, i: nat)
    requires i < |sizes|
    ensures Enc(sizes[..i + 1], Fours(i + 1)) == Enc(sizes[..i], Fours(i)) + Le(sizes[i], 4)
  {
    assert sizes[..i + 1] == sizes[..i] + [sizes[i]] && Fours(i + 1) == Fours(i) + [4];
    EncSnoc(sizes[..i], Fours(i), sizes[i], 4);
  }

  method BuildSizes(sizes: seq<U32>) returns (bytes: Bytes)
    ensures bytes == EncodeSizes(sizes)
  {
    hide Le, Enc;
    NoFields();
    var buff := new EndianBuffer();
    assert sizes[..0] == [] && Fours(0) == [];
    for i := 0 to |sizes|
      invariant buff.bytes == Enc(sizes[..i], Fours(i))
    {
      FoursGrow(sizes, i);
      buff.L32(sizes[i]);
    }
    assert sizes[..|sizes|] == sizes;
    bytes := buff.bytes;
  }

  /** Types other than files and directories end in an attribute word or have their type
      patched, once everything else is written. */
  method EndRecord(buff: EndianBuffer, ghost head: Head, inodeType: U16, xattr: U32, ghost body: Bytes)
    requires inodeType >= 7 && buff.bytes == HeadBytes(inodeType, head) + body
    modifies buff
    ensures buff.bytes == if xattr != XATTR_NONE then HeadBytes(inodeType, head) + body + Le(xattr, 4)
                          else HeadBytes(inodeType - 7, head) + body
  {
    hide Le, HeadBytes;
    if xattr != XATTR_NONE {
      buff.L32(xattr);
    } else {
      Patched(head, inodeType, inodeType - 7, body);
      buff.L16At(0, inodeType - 7);
    }
  }

  lemma OneWord(x: U32)
    ensures Enc([x], [4]) == Le(x, 4)
  {
    hide Le;
    EncCons(x, [], 4, []);
    NoFields();
    assert Le(x, 4) + [] == Le(x, 4);
  }

  /** The record of a symbolic link, device, pipe or socket, ended one way or the other. */
  lemma LinkRecord(head: Head, raw: Raw)
    requires raw.RawSym? || (raw.RawDev? && (raw.kind == TYPE_BLK || raw.kind == TYPE_CHR))
             || (raw.RawIpc? && (raw.kind == TYPE_PIPE || raw.kind == TYPE_SOCK))
    ensures RawShape(raw)
    ensures var body := Enc(BodyFields(raw), BodyWidths(StoredType(raw))) + if raw.RawSym? then raw.target else [];
            EncodeInode(head, raw)
            == if raw.xattr != XATTR_NONE then HeadBytes(TypeOf(raw), head) + body + Le(raw.xattr, 4)
               else HeadBytes(TypeOf(raw) - 7, head) + body
  {
    hide Enc, Le;
    OneWord(raw.xattr);
    var fields, tail := Enc(BodyFields(raw), BodyWidths(StoredType(raw))), if raw.RawSym? then raw.target else [];
    var h := HeadBytes(StoredType(raw), head);
    Associative(h, fields, tail);
    Associative(h + fields, tail, Le(raw.xattr, 4));
    assert [] + Le(raw.xattr, 4) == Le(raw.xattr, 4);
    assert tail + [] == tail;
  }

  method BuildSym(buff: EndianBuffer, ghost head: Head, raw: Raw)
    requires raw.RawSym? && buff.bytes == HeadBytes(TYPE_SYM, head)
    modifies buff
    ensures RawShape(raw) && buff.bytes == EncodeInode(head, raw)
  {
    hide Le, Enc, HeadBytes, EncodeInode;
    LinkRecord(head, raw);
    ghost var front, fields := buff.bytes, Enc(BodyFields(raw), [4, 4]);
    Fields2(front, BodyFields(raw), [4, 4]);
    LeNarrows(|raw.target|);
    buff.L32(raw.nlink);
    buff.L32(|raw.target| % 0x1_0000_0000);
    assert raw.target[..0] == [];
    for i := 0 to |raw.target|
      invariant buff.bytes == front + fields + raw.target[..i]
    {
      OneByte(raw.target[i]);
      buff.L8(raw.target[i]);
      assert raw.target[..i + 1] == raw.target[..i] + [raw.target[i]];
      Associative(front + fields, raw.target[..i], [raw.target[i]]);
    }
    assert raw.target[..|raw.target|] == raw.target;
    Associative(front, fields, raw.target);
    EndRecord(buff, head, TYPE_SYM, raw.xattr, fields + raw.target);
  }

  method BuildDev(buff: EndianBuffer, ghost head: Head, raw: Raw)
    requires raw.RawDev? && (raw.kind == TYPE_BLK || raw.kind == TYPE_CHR)
    requires buff.bytes == HeadBytes(raw.kind, head)
    modifies buff
    ensures RawShape(raw) && buff.bytes == EncodeInode(head, raw)
  {
    hide Le, Enc, HeadBytes, EncodeInode;
    LinkRecord(head, raw);
    ghost var fields := Enc(BodyFields(raw), [4, 4]);
    assert fields + [] == fields;
    Fields2(buff.bytes, BodyFields(raw), [4, 4]);
    buff.L32(raw.nlink);
    buff.L32(raw.rdev);
    EndRecord(buff, head, raw.kind, raw.xattr, fields);
  }

  method BuildIpc(buff: EndianBuffer, ghost head: Head, raw: Raw)
    requires raw.RawIpc? && (raw.kind == TYPE_PIPE || raw.kind == TYPE_SOCK)
    requires buff.bytes == HeadBytes(raw.kind, head)
    modifies buff
    ensures RawShape(raw) && buff.bytes == EncodeInode(head, raw)
  {
    hide Le, Enc, HeadBytes, EncodeInode;
    LinkRecord(head, raw);
    ghost var fields := Enc(BodyFields(raw), [4]);
    assert fields + [] == fields;
    Fields1(buff.bytes, BodyFields(raw), [4]);
    buff.L32(raw.nlink);
    EndRecord(buff, head, raw.kind, raw.xattr, fields);
  }

  class TreeWriter {
    const inodeWriter: MetadataWriter
    const dentryWriter: MetadataWriter
    const ids: Ids.IdTable

    ghost predicate Valid()
      reads this, inodeWriter, dentryWriter, ids
    {
      && inodeWriter != dentryWriter && inodeWriter.comp == dentryWriter.comp && Lawful(inodeWriter.comp)
      && inodeWriter.Valid() && dentryWriter.Valid() && ids.Valid()
    }

    ghost function State(): Ser
      reads this, inodeWriter, dentryWriter, ids
    {
      Ser(inodeWriter.stream, dentryWriter.stream, ids.order)
    }

    constructor (comp: Compressor)
      requires Lawful(comp)
      ensures Valid() && State() == Ser([], [], []) && inodeWriter.comp == comp
      ensures fresh(inodeWriter) && fresh(dentryWriter) && fresh(ids)
    {
      inodeWriter := new MetadataWriter(comp);
      dentryWriter := new MetadataWriter(comp);
      ids := new Ids.IdTable();
    }

    /** The uid is looked up before the gid. */
    method InodeCommon(buff: EndianBuffer, inodeType: U16, m: Meta)
      requires Valid() && buff.bytes == []
      modifies buff, ids
      ensures Valid() && State() == old(State()).(ids := IdsAfter(old(ids.order), m))
      ensures buff.bytes == HeadBytes(inodeType, HeadOf(old(ids.order), m))
    {
      hide Le, Enc, Ids.IdsOf, Ids.RidsOf, Ids.IndexAfter, Ids.Find, MetadataWriter.Valid;
      ghost var head := HeadOf(ids.order, m);
      Fields6([], [inodeType, head.mode, head.uid, head.gid, head.mtime, head.number], HEAD);
      ghost var fields := Enc([inodeType, head.mode, head.uid, head.gid, head.mtime, head.number], HEAD);
      assert [] + fields == fields;
      buff.L16(inodeType);
      buff.L16(m.mode);
      var uid := ids.IdLookup(m.uid);
      buff.L16(uid);
      var gid := ids.IdLookup(m.gid);
      buff.L16(gid);
      buff.L32(m.mtime);
      buff.L32(m.number);
    }

    /** A leaf's record goes in whole; its address is where it starts. */
    method WriteLeaf(n: Node) returns (addr: Address)
      requires Valid() && !n.body.Dir? && KindsOk(n)
      modifies inodeWriter, ids
      ensures Valid() && (State(), addr) == PutInode(inodeWriter.comp, old(State()), n.meta, LeafRaw(n))
    {
      hide EncodeInode, EncodeSizes, AddressAt, HeadOf, IdsAfter, HeadBytes, RawShape, MetadataWriter.Valid,
        Ids.IdTable.Valid;
      ghost var head, before := HeadOf(ids.order, n.meta), inodeWriter.stream;
      var raw := LeafRaw(n);
      var buff := new EndianBuffer();
      InodeCommon(buff, NodeType(n), n.meta);
      match raw {
        case RawReg(_, _, _, _, _, _, sizes) =>
          BuildReg(buff, head, raw);
          addr := inodeWriter.Put(buff.bytes);
          var words := BuildSizes(sizes);
          var _ := inodeWriter.Put(words);
          Associative(before, buff.bytes, words);
        case RawSym(_, _, _) =>
          BuildSym(buff, head, raw);
          addr := inodeWriter.Put(buff.bytes);
        case RawDev(_, _, _, _) =>
          BuildDev(buff, head, raw);
          addr := inodeWriter.Put(buff.bytes);
        case RawIpc(_, _, _) =>
          BuildIpc(buff, head, raw);
          addr := inodeWriter.Put(buff.bytes);
      }
    }

    /** A directory, once its children have their addresses: the listing, then the inode. */
    method WriteDir(m: Meta, es: seq<Entry>, parent: U32) returns (addr: Address, ok: bool)
      requires Valid()
      modifies inodeWriter, dentryWriter, ids
      ensures Valid() && (ok <==> NamesFit(es))
      ensures ok ==>
        var c := inodeWriter.comp;
        var (s, at) := PutListing(c, old(State()), es);
        (State(), addr) == PutInode(c, s, m, DirRaw(m, es, at, parent))
    {
      hide EncodeInode, EncodeListing, AddressAt, HeadOf, IdsAfter, HeadBytes, RawShape, CountDirs, NamesFit,
        MetadataWriter.Valid, Ids.IdTable.Valid;
      ghost var head := HeadOf(ids.order, m);
      var at, filesize, nlink, fits := WriteDirtable(dentryWriter, es);
      ok := fits;
      if !ok {
        addr := inodeWriter.GetAddress() by { AddressOfStream(inodeWriter); }
        return;
      }
      var raw := RawDir(Narrow32(nlink), Narrow32(filesize), at.block, parent, at.offset, m.xattr);
      var buff := new EndianBuffer();
      InodeCommon(buff, TYPE_DIR, m);
      BuildDir(buff, head, raw);
      addr := inodeWriter.Put(buff.bytes);
    }
  }

  /** Node kinds the program creates. */
  predicate KindsOk(n: Node) {
    match n.body
    case Dev(kind, _) => kind == TYPE_BLK || kind == TYPE_CHR
    case Ipc(kind) => kind == TYPE_PIPE || kind == TYPE_SOCK
    case _ => true
  }

  predicate AllNamesFit(n: Node)
    decreases n
  {
    n.body.Dir? ==>
      forall k :: 0 <= k < |n.body.kids| ==> |n.body.kids[k].name| <= 0xff && AllNamesFit(n.body.kids[k].node)
  }

  lemma NamesOfKids(n: Node, es: seq<Entry>)
    requires n.body.Dir? && |es| == |n.body.kids|
    requires forall k :: 0 <= k < |es| ==> AllNamesFit(n.body.kids[k].node) && es[k].name == n.body.kids[k].name
    ensures AllNamesFit(n) <==> NamesFit(es)
  {
    assert forall k :: 0 <= k < |es| ==> es[k] in es;
  }
}
