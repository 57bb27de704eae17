/** Directory listings: runs of entries that share an inode block and stay within a signed
    16-bit distance of the run's first inode number. */
module Directories {
  import opened SquashDefs
  import opened Compressors
  import opened Endian
  import opened Metadata
  import opened Records

  /** What a listing says of one child: its name, inode address, inode number and type. */
  datatype Entry = Entry(name: Bytes, address: Address, number: U32, inodeType: U16)

  /** `within16` as the source has it: both ends of the signed range are left out. */
  predicate Within16(a: U32, b: U32) {
    var diff := b - a;
    diff < 0x7fff && diff > -0x8000
  }

  predicate Works(block: U32, number: U32, e: Entry) {
    block == e.address.block && Within16(number, e.number)
  }

  /** How many entries from the front on fit under one header. */
  function SegmentLen(block: U32, number: U32, es: seq<Entry>): (k: nat)
    ensures k <= |es|
  {
    if es == [] || !Works(block, number, es[0]) then 0 else 1 + SegmentLen(block, number, es[1..])
  }

  function EncodeHeader(count: nat, block: U32, number: U32): Bytes {
    Enc([(count - 1) % 0x1_0000_0000, block, number], [4, 4, 4])
  }

  /** The four numbers in front of an entry's name. The length is stored less one and the number as
      a difference, both narrowed to 16 bits. */
  function EntryFields(number: U32, e: Entry): seq<nat> {
    [e.address.offset, (e.number - number) % 0x1_0000, (e.inodeType - 7) % 0x1_0000, (|e.name| - 1) % 0x1_0000]
  }

  function EncodeEntry(number: U32, e: Entry): Bytes {
    Enc(EntryFields(number, e), [2, 2, 2, 2]) + e.name
  }

  function EncodeEntries(number: U32, es: seq<Entry>): Bytes {
    if es == [] then [] else EncodeEntry(number, es[0]) + EncodeEntries(number, es[1..])
  }

  function FirstSegment(es: seq<Entry>): (k: nat)
    requires es != []
    ensures 1 <= k <= |es|
  {
    SegmentLen(es[0].address.block, es[0].number, es)
  }

  function EncodeSegment(es: seq<Entry>): Bytes
    requires es != []
  {
    EncodeHeader(|es|, es[0].address.block, es[0].number) + EncodeEntries(es[0].number, es)
  }

  function EncodeListing(es: seq<Entry>): Bytes
    decreases |es|
  {
    if es == [] then [] else EncodeSegment(es[..FirstSegment(es)]) + EncodeListing(es[FirstSegment(es)..])
  }

  // ---- The reader ----

  function Signed16(n: nat): int {
    if n >= 0x8000 then n - 0x1_0000 else n
  }

  function ParseEntry(b: Bytes, block: U32, number: U32): Option<(Entry, Bytes)> {
    if |b| < 8 then
      None
    else
      var f := Dec(b, [2, 2, 2, 2]);
      var len := f[3] + 1;
      if |b| < 8 + len then
        None
      else
        Some((Entry(b[8..8 + len], Address(block, f[0] % 0x1_0000), (number + Signed16(f[1])) % 0x1_0000_0000,
                    (f[2] + 7) % 0x1_0000),
              b[8 + len..]))
  }

  function ParseEntries(b: Bytes, count: nat, block: U32, number: U32): (r: Option<(seq<Entry>, Bytes)>)
    ensures r.Some? ==> |r.value.1| <= |b|
    decreases count
  {
    if count == 0 then
      Some(([], b))
    else
      var (e, rest) :- ParseEntry(b, block, number);
      var (es, end) :- ParseEntries(rest, count - 1, block, number);
      Some(([e] + es, end))
  }

  /** The whole listing: headers and their entries until the bytes are used up. */
  function ParseListing(b: Bytes): Option<seq<Entry>>
    decreases |b|
  {
    if b == [] then
      Some([])
    else if |b| < 12 then
      None
    else
      var h := Dec(b, [4, 4, 4]);
      var (es, rest) :- ParseEntries(b[12..], h[0] + 1, h[1] % 0x1_0000_0000, h[2] % 0x1_0000_0000);
      var more :- ParseListing(rest);
      Some(es + more)
  }

  predicate EntryOk(e: Entry) {
    0 < |e.name| <= 0xff && 8 <= e.inodeType <= 14
  }

  lemma EntryReadsBack(e: Entry, block: U32, number: U32, rest: Bytes)
    requires EntryOk(e) && Works(block, number, e)
    ensures ParseEntry(EncodeEntry(number, e) + rest, block, number) == Some((e, rest))
  {
    hide Enc, Dec, Fits, EntryOk, Works, Signed16;
    var values := EntryFields(number, e);
    var fixed := Enc(values, [2, 2, 2, 2]);
    EntryFieldsFit(number, e);
    DecEnc(values, [2, 2, 2, 2], e.name + rest);
    EntrySplits(fixed, e.name, rest);
    EntryFieldsMean(e, block, number);
  }

  lemma EntryFieldsFit(number: U32, e: Entry)
    ensures Fits(EntryFields(number, e), [2, 2, 2, 2]) && |Enc(EntryFields(number, e), [2, 2, 2, 2])| == 8
  {
    hide Fits, Enc;
    Limits();
    Width2222();
    FitsAll(EntryFields(number, e), [2, 2, 2, 2]);
  }

  lemma EntrySplits(fixed: Bytes, name: Bytes, rest: Bytes)
    requires |fixed| == 8
    ensures var b := fixed + name + rest;
            b == fixed + (name + rest) && b[8..8 + |name|] == name && b[8 + |name|..] == rest
  {
  }

  lemma EntryFieldsMean(e: Entry, block: U32, number: U32)
    requires EntryOk(e) && Works(block, number, e)
    ensures var f := EntryFields(number, e);
            && f[3] + 1 == |e.name| && Address(block, f[0] % 0x1_0000) == e.address
            && (number + Signed16(f[1])) % 0x1_0000_0000 == e.number && (f[2] + 7) % 0x1_0000 == e.inodeType
  {
    SignExtends(number, e.number);
  }

  lemma Width2222()
    ensures Width([2, 2, 2, 2]) == 8 && Width([4, 4, 4]) == 12
  {
    assert Width([2, 2]) == 4 && Width([4, 4]) == 8;
  }

  /** Within range, the narrowed difference and the base give the number back. */
  lemma SignExtends(a: U32, b: U32)
    requires Within16(a, b)
    ensures (a + Signed16((b - a) % 0x1_0000)) % 0x1_0000_0000 == b
  {
  }

  // ---- Segments ----

  lemma {:induction false} SegmentWorks(block: U32, number: U32, es: seq<Entry>)
    ensures forall i :: 0 <= i < SegmentLen(block, number, es) ==> Works(block, number, es[i])
    ensures SegmentLen(block, number, es) < |es| ==> !Works(block, number, es[SegmentLen(block, number, es)])
  {
    if es != [] && Works(block, number, es[0]) {
      SegmentWorks(block, number, es[1..]);
    }
  }

  /** A segment ends only where it must: its entries lie in the header's block with numbers less
      than 0x7fff above and less than 0x8000 below the header's, and the next entry does not. */
  lemma SegmentIsMaximal(block: U32, number: U32, es: seq<Entry>)
    ensures forall i :: 0 <= i < SegmentLen(block, number, es) ==>
              es[i].address.block == block && -0x8000 < es[i].number - number < 0x7fff
    ensures var k := SegmentLen(block, number, es);
            k < |es| ==> es[k].address.block != block || es[k].number - number >= 0x7fff
                         || es[k].number - number <= -0x8000
  {
    hide SegmentLen;
    SegmentWorks(block, number, es);
  }

  lemma {:induction false} EntriesReadBack(es: seq<Entry>, block: U32, number: U32, rest: Bytes)
    requires forall i :: 0 <= i < |es| ==> EntryOk(es[i]) && Works(block, number, es[i])
    ensures ParseEntries(EncodeEntries(number, es) + rest, |es|, block, number) == Some((es, rest))
  {
    hide EncodeEntry, ParseEntry;
    if es == [] {
      assert EncodeEntries(number, es) + rest == rest;
    } else {
      var first, more := EncodeEntry(number, es[0]), EncodeEntries(number, es[1..]);
      assert EncodeEntries(number, es) + rest == first + (more + rest);
      EntryReadsBack(es[0], block, number, more + rest);
      EntriesReadBack(es[1..], block, number, rest);
      assert es == [es[0]] + es[1..];
    }
  }

  /** A header in front of its entries. */
  lemma HeaderReadsBack(count: nat, block: U32, number: U32, rest: Bytes)
    requires 0 < count <= 0x1_0000_0000
    ensures var b := EncodeHeader(count, block, number) + rest;
            && |EncodeHeader(count, block, number)| == 12
            && Dec(b, [4, 4, 4]) == [count - 1, block, number] && b[12..] == rest
  {
    hide Enc, Dec;
    var values := [(count - 1) % 0x1_0000_0000, block, number];
    Limits();
    Width2222();
    FitsAll(values, [4, 4, 4]);
    DecEnc(values, [4, 4, 4], rest);
  }

  lemma ListingStep(es: seq<Entry>, count: nat, block: U32, number: U32, body: Bytes, rest: Bytes)
    requires 0 < count <= 0x1_0000_0000
    requires ParseEntries(body + rest, count, block, number) == Some((es, rest))
    ensures ParseListing(EncodeHeader(count, block, number) + (body + rest))
         == match ParseListing(rest) case Some(more) => Some(es + more) case None => None
  {
    hide EncodeHeader, Dec, ParseEntries;
    HeaderReadsBack(count, block, number, body + rest);
  }

  /** A listing is its first segment and the listing of the rest. */
  lemma ListingSplits(es: seq<Entry>, k: nat)
    requires es != [] && k == FirstSegment(es)
    ensures EncodeListing(es)
         == EncodeHeader(k, es[0].address.block, es[0].number)
            + (EncodeEntries(es[0].number, es[..k]) + EncodeListing(es[k..]))
  {
    hide EncodeHeader, EncodeEntries, SegmentLen;
  }

  lemma FirstSegmentWorks(es: seq<Entry>, k: nat)
    requires es != [] && k == FirstSegment(es)
    ensures forall i :: 0 <= i < k ==> Works(es[0].address.block, es[0].number, es[..k][i])
  {
    SegmentWorks(es[0].address.block, es[0].number, es);
  }

  /** Reading a listing gives back every entry in order, with its name, address, type and full
      inode number. */
  lemma {:induction false} ListingReadsBack(es: seq<Entry>)
    requires |es| <= 0x1_0000_0000 && forall e :: e in es ==> EntryOk(e)
    ensures ParseListing(EncodeListing(es)) == Some(es)
    decreases |es|
  {
    hide EncodeHeader, EncodeEntries, ParseEntries, SegmentLen, ParseListing, EncodeListing, Works, EntryOk;
    if es == [] {
      NoListing();
    } else {
      var k := FirstSegment(es);
      var block, number := es[0].address.block, es[0].number;
      FirstSegmentWorks(es, k);
      ListingReadsBack(es[k..]);
      EntriesReadBack(es[..k], block, number, EncodeListing(es[k..]));
      ListingStep(es[..k], k, block, number, EncodeEntries(number, es[..k]), EncodeListing(es[k..]));
      ListingSplits(es, k);
      assert es == es[..k] + es[k..];
    }
  }

  lemma NoListing()
    ensures EncodeListing([]) == [] && ParseListing([]) == Some([])
  {
  }

  /** A reader never yields an empty name: the stored length counts from one. */
  lemma {:induction false} ParsedNamesAreNonempty(b: Bytes)
    ensures ParseListing(b).Some? ==> forall e :: e in ParseListing(b).value ==> e.name != []
    decreases |b|
  {
    hide ParseEntry, ParseEntries, ParseListing, Dec;
    if |b| < 12 {
      ShortListing(b);
    } else {
      var h := Dec(b, [4, 4, 4]);
      var block, number := h[1] % 0x1_0000_0000, h[2] % 0x1_0000_0000;
      EntryNamesAreNonempty(b[12..], h[0] + 1, block, number);
      ParsedStep(b, h);
      match ParseEntries(b[12..], h[0] + 1, block, number)
      case Some((es, rest)) => ParsedNamesAreNonempty(rest);
      case None =>
    }
  }

  lemma ShortListing(b: Bytes)
    requires |b| < 12
    ensures ParseListing(b) == if b == [] then Some([]) else None
  {
  }

  lemma ParsedStep(b: Bytes, h: seq<nat>)
    requires |b| >= 12 && h == Dec(b, [4, 4, 4])
    ensures ParseListing(b)
         == match ParseEntries(b[12..], h[0] + 1, h[1] % 0x1_0000_0000, h[2] % 0x1_0000_0000)
            case None => None
            case Some((es, rest)) =>
              match ParseListing(rest) case Some(more) => Some(es + more) case None => None
  {
    hide ParseEntries, Dec;
  }

  lemma {:induction false} EntryNamesAreNonempty(b: Bytes, count: nat, block: U32, number: U32)
    ensures match ParseEntries(b, count, block, number)
            case Some((es, _)) => forall e :: e in es ==> e.name != []
            case None => true
    decreases count
  {
    if count > 0 {
      match ParseEntry(b, block, number)
      case Some((e, rest)) =>
        EntryNamesAreNonempty(rest, count - 1, block, number);
      case None =>
    }
  }

  /** Among listings the writer accepts, exactly those without an empty name read back. An empty
      name arises from a path that ends in a separator. */
  lemma ListingReadsBackIff(es: seq<Entry>)
    requires |es| <= 0x1_0000_0000
    requires forall e :: e in es ==> |e.name| <= 0xff && 8 <= e.inodeType <= 14
    ensures ParseListing(EncodeListing(es)) == Some(es) <==> forall e :: e in es ==> e.name != []
  {
    hide ParseListing, EncodeListing;
    ParsedNamesAreNonempty(EncodeListing(es));
    if forall e :: e in es ==> e.name != [] {
      ListingReadsBack(es);
    }
  }

  /** The root's listing when the only member of an archive is a file with the path "/". */
  lemma EmptyNameIsLost()
    ensures var es := [Entry([], Address(0, 0), 2, 9)];
            ParseListing(EncodeListing(es)) != Some(es)
  {
    var es := [Entry([], Address(0, 0), 2, 9)];
    assert es[0].name == [];
    ListingReadsBackIff(es);
  }

  // ---- The writer ----

  function CountDirs(es: seq<Entry>): nat {
    if es == [] then 0 else CountDirs(Init(es)) + if Last(es).inodeType == TYPE_DIR then 1 else 0
  }

  /** The writer refuses a name of more than 255 bytes. */
  predicate NamesFit(es: seq<Entry>) {
    forall e :: e in es ==> |e.name| <= 0xff
  }

  method ComputeSegmentLen(block: U32, number: U32, es: seq<Entry>) returns (i: nat)
    ensures i == SegmentLen(block, number, es)
  {
    i := 0;
    while i != |es| && Works(block, number, es[i])
      invariant i <= |es| && SegmentLen(block, number, es) == i + SegmentLen(block, number, es[i..])
      decreases |es| - i
    {
      assert es[i..][1..] == es[i + 1..];
      i := i + 1;
    }
  }

  method BuildEntry(number: U32, e: Entry) returns (bytes: Bytes)
    ensures bytes == EncodeEntry(number, e)
  {
    hide Le, Enc;
    var buff := new EndianBuffer();
    Fields4(buff.bytes, EntryFields(number, e), [2, 2, 2, 2]);
    buff.L16(e.address.offset);
    buff.L16((e.number - number) % 0x1_0000);
    buff.L16((e.inodeType - 7) % 0x1_0000);
    buff.L16((|e.name| - 1) % 0x1_0000);
    ghost var fixed := buff.bytes;
    for i := 0 to |e.name|
      invariant buff.bytes == fixed + e.name[..i]
    {
      OneByte(e.name[i]);
      buff.L8(e.name[i]);
      assert e.name[..i + 1] == e.name[..i] + [e.name[i]];
    }
    assert e.name[..|e.name|] == e.name;
    bytes := buff.bytes;
  }

  lemma OneByte(n: U8)
    ensures Le(n, 1) == [n]
  {
    assert Le(n, 1) == [n % 256] + Le(n / 256, 0);
  }

  lemma {:induction false} EntriesSnoc(number: U32, es: seq<Entry>, e: Entry)
    ensures EncodeEntries(number, es + [e]) == EncodeEntries(number, es) + EncodeEntry(number, e)
  {
    hide EncodeEntry;
    if es == [] {
      assert EncodeEntries(number, [e]) == EncodeEntry(number, e) + EncodeEntries(number, []);
    } else {
      assert (es + [e])[1..] == es[1..] + [e];
      EntriesSnoc(number, es[1..], e);
    }
  }

  method WriteHeader(mdw: MetadataWriter, count: nat, block: U32, number: U32) returns (size: nat)
    requires mdw.Valid() && Lawful(mdw.comp)
    modifies mdw
    ensures mdw.Valid() && mdw.stream == old(mdw.stream) + EncodeHeader(count, block, number)
    ensures size == |EncodeHeader(count, block, number)|
  {
    hide Le, Enc, MetadataWriter.Valid, AddressAt;
    var header := new EndianBuffer();
    Fields3(header.bytes, [(count - 1) % 0x1_0000_0000, block, number], [4, 4, 4]);
    header.L32((count - 1) % 0x1_0000_0000);
    header.L32(block);
    header.L32(number);
    var _ := mdw.Put(header.bytes);
    size := |header.bytes|;
  }

  lemma NothingYet(number: U32, es: seq<Entry>)
    ensures EncodeEntries(number, es[..0]) == [] && CountDirs(es[..0]) == 0
  {
  }

  lemma OneMore(number: U32, es: seq<Entry>, i: nat)
    requires i < |es|
    ensures EncodeEntries(number, es[..i + 1]) == EncodeEntries(number, es[..i]) + EncodeEntry(number, es[i])
    ensures CountDirs(es[..i + 1]) == CountDirs(es[..i]) + if es[i].inodeType == TYPE_DIR then 1 else 0
    ensures NamesFit(es[..i + 1]) <==> NamesFit(es[..i]) && |es[i].name| <= 0xff
  {
    hide EncodeEntry;
    assert es[..i + 1] == es[..i] + [es[i]];
    assert Init(es[..i + 1]) == es[..i];
    EntriesSnoc(number, es[..i], es[i]);
  }

  /** One header and its entries; fails at the first name that is too long. */
  method WriteSegment(mdw: MetadataWriter, es: seq<Entry>) returns (count: nat, size: nat, dirs: nat, ok: bool)
    requires mdw.Valid() && Lawful(mdw.comp) && es != []
    modifies mdw
    ensures mdw.Valid() && count == FirstSegment(es)
    ensures ok <==> NamesFit(es[..count])
    ensures ok ==> mdw.stream == old(mdw.stream) + EncodeSegment(es[..count])
    ensures ok ==> size == |EncodeSegment(es[..count])| && dirs == CountDirs(es[..count])
  {
    hide EncodeEntry, EncodeHeader, SegmentLen, EncodeEntries, CountDirs, MetadataWriter.Valid;
    NothingYet(es[0].number, es);
    var block, number := es[0].address.block, es[0].number;
    count := ComputeSegmentLen(block, number, es);
    size := WriteHeader(mdw, count, block, number);
    dirs, ok := 0, true;
    ghost var front := mdw.stream;
    var i := 0;
    while i < count
      invariant 0 <= i <= count && mdw.Valid() && NamesFit(es[..i])
      invariant mdw.stream == front + EncodeEntries(number, es[..i])
      invariant size == |EncodeHeader(count, block, number)| + |EncodeEntries(number, es[..i])|
      invariant dirs == CountDirs(es[..i])
    {
      assert es[i] == es[..count][i];
      if |es[i].name| > 0xff {
        ok := false;
        return;
      }
      OneMore(number, es, i);
      var bytes := BuildEntry(number, es[i]);
      var _ := mdw.Put(bytes);
      size := size + |bytes|;
      if es[i].inodeType == TYPE_DIR {
        dirs := dirs + 1;
      }
      i := i + 1;
    }
  }

  lemma {:induction false} CountDirsAppend(a: seq<Entry>, b: seq<Entry>)
    ensures CountDirs(a + b) == CountDirs(a) + CountDirs(b)
    decreases |b|
  {
    if b == [] {
      assert a + b == a;
    } else {
      assert Init(a + b) == a + Init(b);
      CountDirsAppend(a, Init(b));
    }
  }

  /** The whole listing; its recorded size is three more than its bytes, and its link count
      two more than its subdirectories. */
  method WriteDirtable(mdw: MetadataWriter, es: seq<Entry>) returns (addr: Address, filesize: nat, nlink: nat, ok: bool)
    requires mdw.Valid() && Lawful(mdw.comp)
    modifies mdw
    ensures mdw.Valid() && addr == AddressAt(mdw.comp, old(mdw.stream))
    ensures ok <==> NamesFit(es)
    ensures ok ==> mdw.stream == old(mdw.stream) + EncodeListing(es)
    ensures ok ==> filesize == 3 + |EncodeListing(es)| && nlink == 2 + CountDirs(es)
  {
    hide EncodeSegment, FirstSegment, AddressAt, MetadataWriter.Valid, MetadataWriter.GetAddress, CountDirs, NamesFit,
      EncodeListing;
    NothingListed(es);
    addr := mdw.GetAddress() by { AddressOfStream(mdw); }
    AddressOfStream(mdw);
    nlink, filesize, ok := 2, 3, true;
    var it := 0;
    while it != |es|
      invariant 0 <= it <= |es| && mdw.Valid() && NamesFit(es[..it])
      invariant mdw.stream + EncodeListing(es[it..]) == old(mdw.stream) + EncodeListing(es)
      invariant filesize + |EncodeListing(es[it..])| == 3 + |EncodeListing(es)|
      invariant nlink == 2 + CountDirs(es[..it])
      decreases |es| - it
    {
      var count, size, dirs, fits := WriteSegment(mdw, es[it..]);
      SegmentDone(es, it, count);
      if !fits {
        ok := false;
        return;
      }
      it := it + count;
      filesize := filesize + size;
      nlink := nlink + dirs;
    }
    assert es[..it] == es;
  }

  lemma NothingListed(es: seq<Entry>)
    ensures CountDirs(es[..0]) == 0 && NamesFit(es[..0]) && es[0..] == es && EncodeListing([]) == []
  {
  }

  lemma SegmentDone(es: seq<Entry>, it: nat, count: nat)
    requires it < |es| && count == FirstSegment(es[it..])
    ensures it + count <= |es|
    ensures EncodeListing(es[it..]) == EncodeSegment(es[it..][..count]) + EncodeListing(es[it + count..])
    ensures CountDirs(es[..it + count]) == CountDirs(es[..it]) + CountDirs(es[it..][..count])
    ensures NamesFit(es[..it + count]) <==> NamesFit(es[..it]) && NamesFit(es[it..][..count])
    ensures !NamesFit(es[it..][..count]) ==> !NamesFit(es)
  {
    hide EncodeSegment, CountDirs;
    var some := es[it..][..count];
    assert es[..it + count] == es[..it] + some;
    assert es[it..][count..] == es[it + count..];
    CountDirsAppend(es[..it], some);
  }

  lemma AddressOfStream(mdw: MetadataWriter)
    requires mdw.Valid()
    ensures |mdw.buff| < META_SIZE && mdw.GetAddress() == AddressAt(mdw.comp, mdw.stream)
  {
  }
}
