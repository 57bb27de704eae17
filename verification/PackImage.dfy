/** The end of the main program: tables behind the data, the superblock in front, padding. */
module PackImages {
  import opened SquashDefs
  import opened Compressors
  import opened PendingWrites
  import opened Fragments
  import opened Endian
  import opened Records
  import opened Metadata
  import opened IndexedTables
  import opened Superblocks
  import opened Trees
  import opened TreeWriters
  import opened Images
  import opened ImageRoundTrip
  import opened SqshWriters
  import opened PackFiles
  import Ids

  /** Two writes in a row are one write of both. */
  lemma WritesJoin(f: OutFile, a: Bytes, b: Bytes)
    requires f.pos <= |f.bytes|
    ensures WriteBytes(WriteBytes(f, a), b) == WriteBytes(f, a + b)
  {
    var g := WriteBytes(f, a);
    var end := f.pos + |a| + |b|;
    assert g.bytes[..g.pos] == f.bytes[..f.pos] + a;
    if end <= |f.bytes| {
      assert g.bytes[end..] == f.bytes[end..];
    } else {
      assert |g.bytes| <= end;
      assert end <= |g.bytes| ==> g.bytes[end..] == [];
    }
    assert f.bytes[..f.pos] + a + b == f.bytes[..f.pos] + (a + b);
  }

  method BuildFragmentRecord(e: FragmentEntry) returns (bytes: Bytes)
    ensures bytes == FragmentRecord(e)
  {
    hide Le, Enc;
    var buff := new EndianBuffer();
    Fields3(buff.bytes, [e.start, e.size, 0], FRAGMENT_WIDTHS);
    LeNarrows64(e.start);
    LeNarrows(e.size);
    buff.L64(e.start % 0x1_0000_0000_0000_0000);
    buff.L32(e.size % 0x1_0000_0000);
    buff.L32(0);
    bytes := buff.bytes;
  }

  method BuildFragmentEntries(fragments: seq<FragmentEntry>) returns (entries: seq<Bytes>)
    ensures entries == FragmentEntries(fragments)
  {
    hide FragmentRecord;
    entries := [];
    for i := 0 to |fragments|
      invariant |entries| == i && forall k :: 0 <= k < i ==> entries[k] == FragmentRecord(fragments[k])
    {
      var bytes := BuildFragmentRecord(fragments[i]);
      entries := entries + [bytes];
    }
  }

  lemma {:induction false} SlotsCounted(order: seq<U32>)
    ensures |Ids.RidsOf(order)| == SlotCount(order)
    decreases |order|
  {
    if order != [] {
      SlotsCounted(Init(order));
      Ids.RidsShape(Init(order));
      Ids.IndexNarrows(|order| - 1);
    }
  }

  method BuildIdEntries(ids: Ids.IdTable) returns (entries: seq<Bytes>)
    requires ids.Valid()
    ensures entries == IdEntries(ids.order)
  {
    hide Le, Ids.RidsOf, Ids.IdsOf;
    SlotsCounted(ids.order);
    Ids.RidsShape(ids.order);
    entries := [];
    for i := 0 to |ids.rids|
      invariant |entries| == i && forall k :: 0 <= k < i ==> entries[k] == Le(Ids.RidsOf(ids.order)[k], 4)
    {
      var buff := new EndianBuffer();
      buff.L32(ids.rids[i]);
      entries := entries + [buff.bytes];
    }
  }

  function Output(wr: SqshWriter): OutFile
    reads wr
  {
    OutFile(wr.outBytes, wr.outPos)
  }

  method PutIndexed(wr: SqshWriter, entries: seq<Bytes>, size: nat, perBlock: nat) returns (t: Indexed)
    requires Lawful(wr.cfg.comp) && EntriesOk(entries, size, perBlock) && wr.outPos <= |wr.outBytes|
    modifies wr`outBytes, wr`outPos
    ensures wr.outPos <= |wr.outBytes| && t == IndexedAt(wr.cfg.comp, entries, perBlock, old(wr.outPos))
    ensures Output(wr) == WriteBytes(old(Output(wr)), t.table + t.index) && wr.outPos == EndPos(t)
  {
    hide TableBytes, EncodeWords, IndexWords;
    ghost var before := Output(wr);
    var table, index := WriteIndexedTable(wr.cfg.comp, entries, size, perBlock, wr.outPos);
    var start := wr.WriteOut(table);
    WritesJoin(before, table, index);
    var _ := wr.WriteOut(index);
    t := Indexed(start, table, index);
  }

  /** The four tables, one after the other, where the data ends. */
  method WriteTables(wr: SqshWriter, tw: TreeWriter) returns (t: Tables)
    requires Lawful(wr.cfg.comp) && tw.Valid() && tw.inodeWriter.comp == wr.cfg.comp && wr.outPos <= |wr.outBytes|
    modifies wr`outBytes, wr`outPos
    ensures wr.outPos <= |wr.outBytes| && wr.outPos == EndPos(t.ids)
    ensures Output(wr) == WriteBytes(old(Output(wr)), AllTables(t))
    ensures t.inodeStart == old(wr.outPos)
    ensures t.inodes == tw.inodeWriter.table && t.dirs == tw.dentryWriter.table
    ensures t.fragments == IndexedAt(wr.cfg.comp, FragmentEntries(wr.fragments), FRAGMENTS_PER_BLOCK,
                                     DirStart(t) + |t.dirs|)
    ensures t.ids == IndexedAt(wr.cfg.comp, IdEntries(tw.ids.order), IDS_PER_BLOCK, EndPos(t.fragments))
  {
    hide IndexedAt, WriteBytes, IdEntries, FragmentEntries, TableOf;
    var inodes, dirs := tw.inodeWriter.table, tw.dentryWriter.table;
    ghost var before := Output(wr);
    ghost var p0, p1 := inodes, inodes + dirs;
    var inodeStart := WriteTable(wr, inodes);
    WritesJoin(before, inodes, dirs);
    var _ := WriteTable(wr, dirs);
    var fragmentEntries := BuildFragmentEntries(wr.fragments);
    var fs := PutIndexed(wr, fragmentEntries, FRAGMENT_SIZE, FRAGMENTS_PER_BLOCK);
    WritesJoin(before, p1, fs.table + fs.index);
    Associative(p1, fs.table, fs.index);
    var idEntries := BuildIdEntries(tw.ids);
    var ids := PutIndexed(wr, idEntries, ID_SIZE, IDS_PER_BLOCK);
    WritesJoin(before, p1 + fs.table + fs.index, ids.table + ids.index);
    Associative(p1 + fs.table + fs.index, ids.table, ids.index);
    t := Tables(inodeStart, inodes, dirs, fs, ids);
  }

  method WriteTable(wr: SqshWriter, table: Bytes) returns (start: nat)
    requires wr.outPos <= |wr.outBytes|
    modifies wr`outBytes, wr`outPos
    ensures start == old(wr.outPos) && wr.outPos == start + |table| <= |wr.outBytes|
    ensures Output(wr) == WriteBytes(old(Output(wr)), table)
  {
    start := wr.WriteOut(table);
  }

  /** The superblock goes to the front, and the file is resized past the old position. */
  method WriteHeader(wr: SqshWriter, super: Super)
    requires wr.outPos <= |wr.outBytes|
    modifies wr`outBytes, wr`outPos
    ensures wr.outBytes == Resized(WriteBytes(OutFile(old(wr.outBytes), 0), EncodeSuper(super)).bytes,
                                   old(wr.outPos) + (PAD_SIZE - old(wr.outPos) % PAD_SIZE))
  {
    hide EncodeSuper, WriteBytes;
    var header := WriteSuper(super);
    var end := wr.outPos + (PAD_SIZE - wr.outPos % PAD_SIZE);
    wr.outPos := 0;
    var _ := WriteTable(wr, header);
    wr.outBytes := Resized(wr.outBytes, end);
  }

  /** Everything after the tree walk: the streams are ended, the tables written behind the
      data, the superblock in front. */
  method FinishImage(wr: SqshWriter, tw: TreeWriter, root: Address, next: U32, blockLog: U16, compression: U16,
                     ghost p: Packed)
    requires wr.Valid() && tw.Valid() && tw.inodeWriter.comp == wr.cfg.comp
    requires p.cfg == wr.cfg && p.client == wr.ClientState() && p.w == wr.WriterState() && p.next == next
    requires (tw.State(), root) == WrittenTree(p)
    modifies wr, tw.inodeWriter, tw.dentryWriter
    ensures FileOk(p.w) && wr.outBytes == ImageOf(p, blockLog, compression)
  {
    hide Located, HandleAll, TreeWriter.Valid, Trees.WriteNode, MeaningOf, WellOrdered, ClientInv, WriteBytes,
      AllTables, EncodeSuper, IndexedAt, IdEntries, FragmentEntries, TableOf, Padded, Resized, WrittenTree;
    FinishTables(tw);
    var t := WriteTables(wr, tw);
    assert t == TablesFor(p);
    IdCount(tw);
    var super := SuperOf(wr.cfg.blockSize, blockLog, compression, next, t, |wr.fragments|, |tw.ids.ids|, root);
    WriteHeader(wr, super);
  }

  lemma IdCount(tw: TreeWriter)
    requires tw.Valid()
    ensures |tw.ids.ids| == |tw.ids.order|
  {
    Ids.IdsShape(tw.ids.order);
  }

  method FinishTables(tw: TreeWriter)
    requires tw.Valid()
    modifies tw.inodeWriter, tw.dentryWriter
    ensures tw.Valid()
    ensures tw.inodeWriter.table == TableOf(tw.inodeWriter.comp, Padded(old(tw.inodeWriter.stream)))
    ensures tw.dentryWriter.table == TableOf(tw.inodeWriter.comp, Padded(old(tw.dentryWriter.stream)))
  {
    hide TableOf, Padded;
    tw.inodeWriter.Finish();
    tw.dentryWriter.Finish();
  }
}
