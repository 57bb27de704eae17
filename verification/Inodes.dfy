/** Inode records: a common head, fields that depend on the type, and a tail. Every type but
    the first seven has an extended form, numbered seven higher. */
module Inodes {
  import opened SquashDefs
  import opened Compressors
  import opened Endian
  import opened Metadata
  import opened DataRoundTrip

  /** The common head; owners are indices into the id table. */
  datatype Head = Head(mode: U16, uid: U16, gid: U16, mtime: U32, number: U32)

  datatype Raw =
    | RawReg(start: U64, fileSize: U64, nlink: U32, fragment: U32, offset: U32, xattr: U32, sizes: seq<U32>)
    | RawDir(nlink: U32, filesize: U32, startBlock: U32, parent: U32, startOffset: U16, xattr: U32)
    | RawSym(nlink: U32, target: Bytes, xattr: U32)
    | RawDev(kind: U16, nlink: U32, rdev: U32, xattr: U32)
    | RawIpc(kind: U16, nlink: U32, xattr: U32)

  /** The type as the program names it, which is the number of the extended form. */
  function TypeOf(raw: Raw): U16 {
    match raw
    case RawReg(_, _, _, _, _, _, _) => TYPE_REG
    case RawDir(_, _, _, _, _, _) => TYPE_DIR
    case RawSym(_, _, _) => TYPE_SYM
    case RawDev(kind, _, _, _) => kind
    case RawIpc(kind, _, _) => kind
  }

  predicate Extended(raw: Raw) {
    match raw
    case RawReg(start, fileSize, nlink, _, _, xattr, _) =>
      start > 0xffff || fileSize > 0xffff || xattr != XATTR_NONE || nlink != 1
    case RawDir(_, filesize, _, _, _, xattr) => filesize > 0xffff || xattr != XATTR_NONE
    case _ => raw.xattr != XATTR_NONE
  }

  function StoredType(raw: Raw): U16
    requires TypeOf(raw) >= 7
  {
    if Extended(raw) then TypeOf(raw) else TypeOf(raw) - 7
  }

  const HEAD: seq<nat> := [2, 2, 2, 2, 4, 4]

  /** The widths of the fields that follow the head. */
  function BodyWidths(t: nat): seq<nat> {
    if t == 1 then [4, 4, 2, 2, 4]
    else if t == 8 then [4, 4, 4, 4, 2, 2, 4]
    else if t == 2 then [4, 4, 4, 4]
    else if t == 9 then [8, 8, 8, 4, 4, 4, 4]
    else if t == 6 || t == 7 || t == 13 || t == 14 then [4]
    else [4, 4]
  }

  function BodyFields(raw: Raw): seq<nat> {
    match raw
    case RawReg(start, fileSize, nlink, fragment, offset, xattr, _) =>
      if Extended(raw) then [start, fileSize, 0, nlink, fragment, offset, xattr]
      else [start, fragment, offset, fileSize]
    case RawDir(nlink, filesize, startBlock, parent, startOffset, xattr) =>
      if Extended(raw) then [nlink, filesize, startBlock, parent, 0, startOffset, xattr]
      else [startBlock, nlink, filesize, startOffset, parent]
    case RawSym(nlink, target, _) => [nlink, |target|]
    case RawDev(_, nlink, rdev, _) => [nlink, rdev]
    case RawIpc(_, nlink, _) => [nlink]
  }

  function Fours(n: nat): (w: seq<nat>)
    ensures |w| == n && forall i :: 0 <= i < n ==> w[i] == 4
  {
    seq(n, _ => 4)
  }

  function EncodeSizes(sizes: seq<U32>): Bytes {
    Enc(sizes, Fours(|sizes|))
  }

  function Tail(raw: Raw): Bytes {
    var xattr := if Extended(raw) then Enc([raw.xattr], [4]) else [];
    match raw
    case RawReg(_, _, _, _, _, _, sizes) => EncodeSizes(sizes)
    case RawDir(_, _, _, _, _, _) => []
    case RawSym(_, target, _) => target + xattr
    case _ => xattr
  }

  /** What the writer accepts: device and pipe types, a target length that fits its field, and
      as many size words as a reader will look for. */
  predicate RawOk(blockSize: nat, raw: Raw) {
    0 < blockSize
    && match raw
       case RawReg(_, fileSize, _, fragment, _, _, sizes) => |sizes| == BlockCount(blockSize, fileSize, fragment)
       case RawSym(_, target, _) => |target| < 0x1_0000_0000
       case RawDev(kind, _, _, _) => kind == TYPE_BLK || kind == TYPE_CHR
       case RawIpc(kind, _, _) => kind == TYPE_PIPE || kind == TYPE_SOCK
       case RawDir(_, _, _, _, _, _) => true
  }

  function EncodeInode(head: Head, raw: Raw): Bytes
    requires TypeOf(raw) >= 7 && |BodyFields(raw)| == |BodyWidths(StoredType(raw))|
  {
    Enc([StoredType(raw), head.mode, head.uid, head.gid, head.mtime, head.number], HEAD)
    + Enc(BodyFields(raw), BodyWidths(StoredType(raw)))
    + Tail(raw)
  }

  // ---- The reader ----

  function TailLen(blockSize: nat, t: nat, f: seq<nat>): nat
    requires 0 < blockSize && |f| == |BodyWidths(t)|
  {
    if t == 2 then 4 * BlockCount(blockSize, f[3], f[1])
    else if t == 9 then 4 * BlockCount(blockSize, f[1], f[4])
    else if t == 3 then f[1]
    else if t == 10 then f[1] + 4
    else if t == 11 || t == 12 || t == 13 || t == 14 then 4
    else 0
  }

  function Narrow32(n: nat): U32 { n % 0x1_0000_0000 }
  function Narrow16(n: nat): U16 { n % 0x1_0000 }
  function Narrow64(n: nat): U64 { n % 0x1_0000_0000_0000_0000 }

  function NarrowAll(ns: seq<nat>): (r: seq<U32>)
    ensures |r| == |ns| && forall i :: 0 <= i < |ns| ==> r[i] == Narrow32(ns[i])
  {
    if ns == [] then [] else [Narrow32(ns[0])] + NarrowAll(ns[1..])
  }

  function DecodeBody(t: nat, f: seq<nat>, tail: Bytes): Option<Raw>
    requires |f| == |BodyWidths(t)|
  {
    var xattr := if 4 <= |tail| then Narrow32(Un(tail[|tail| - 4..])) else XATTR_NONE;
    if t == 2 then
      Some(RawReg(Narrow64(f[0]), Narrow64(f[3]), 1, Narrow32(f[1]), Narrow32(f[2]), XATTR_NONE,
                  NarrowAll(Dec(tail, Fours(|tail| / 4)))))
    else if t == 9 then
      Some(RawReg(Narrow64(f[0]), Narrow64(f[1]), Narrow32(f[3]), Narrow32(f[4]), Narrow32(f[5]), Narrow32(f[6]),
                  NarrowAll(Dec(tail, Fours(|tail| / 4)))))
    else if t == 1 then
      Some(RawDir(Narrow32(f[1]), Narrow32(f[2]), Narrow32(f[0]), Narrow32(f[4]), Narrow16(f[3]), XATTR_NONE))
    else if t == 8 then
      Some(RawDir(Narrow32(f[0]), Narrow32(f[1]), Narrow32(f[2]), Narrow32(f[3]), Narrow16(f[5]), Narrow32(f[6])))
    else if t == 3 then
      Some(RawSym(Narrow32(f[0]), tail, XATTR_NONE))
    else if t == 10 && 4 <= |tail| then
      Some(RawSym(Narrow32(f[0]), tail[..|tail| - 4], xattr))
    else if t == 4 || t == 5 then
      Some(RawDev(t + 7, Narrow32(f[0]), Narrow32(f[1]), XATTR_NONE))
    else if t == 11 || t == 12 then
      Some(RawDev(t, Narrow32(f[0]), Narrow32(f[1]), xattr))
    else if t == 6 || t == 7 then
      Some(RawIpc(t + 7, Narrow32(f[0]), XATTR_NONE))
    else if t == 13 || t == 14 then
      Some(RawIpc(t, Narrow32(f[0]), xattr))
    else
      None
  }

  /** Reads the head, then as many fields as the type has, then as much tail as they call for. */
  function ReadInode(c: Compressor, blockSize: nat, img: Bytes, pos: nat, offset: nat): Option<(Head, Raw)>
    requires 0 < blockSize
  {
    var first :- ReadMeta(c, img, pos, offset, 16);
    var h := Dec(first, HEAD);
    var widths := BodyWidths(h[0]);
    var second :- ReadMeta(c, img, pos, offset, 16 + Width(widths));
    if |second| < 16 then None else
    var f := Dec(second[16..], widths);
    var len := TailLen(blockSize, h[0], f);
    var whole :- ReadMeta(c, img, pos, offset, 16 + Width(widths) + len);
    if |whole| < 16 + Width(widths) then None else
    var raw :- DecodeBody(h[0], f, whole[16 + Width(widths)..]);
    Some((Head(Narrow16(h[1]), Narrow16(h[2]), Narrow16(h[3]), Narrow32(h[4]), Narrow32(h[5])), raw))
  }

  // ---- The record reads back ----

  lemma HeadFits(head: Head, t: U16)
    ensures Fits([t, head.mode, head.uid, head.gid, head.mtime, head.number], HEAD)
    ensures Width(HEAD) == 16
  {
    Limits();
    FitsAll([t, head.mode, head.uid, head.gid, head.mtime, head.number], HEAD);
    assert Width([2, 2, 4, 4]) == 12;
  }

  lemma BodyFits(blockSize: nat, raw: Raw)
    requires RawOk(blockSize, raw)
    ensures |BodyFields(raw)| == |BodyWidths(StoredType(raw))|
    ensures Fits(BodyFields(raw), BodyWidths(StoredType(raw)))
  {
    hide Fits, Pow256;
    Limits();
    FitsAll(BodyFields(raw), BodyWidths(StoredType(raw)));
  }

  lemma SizesReadBack(sizes: seq<U32>)
    ensures |EncodeSizes(sizes)| == 4 * |sizes|
    ensures NarrowAll(Dec(EncodeSizes(sizes), Fours(|sizes|))) == sizes
  {
    hide Pow256, Enc, Dec;
    Limits();
    FoursWidth(|sizes|);
    FitsAll(sizes, Fours(|sizes|));
    DecEnc(sizes, Fours(|sizes|), []);
    assert EncodeSizes(sizes) + [] == EncodeSizes(sizes);
  }

  lemma {:induction false} FoursWidth(n: nat)
    ensures Width(Fours(n)) == 4 * n
  {
    if n > 0 {
      assert Fours(n)[1..] == Fours(n - 1);
      FoursWidth(n - 1);
    }
  }

  lemma WordReadsBack(x: U32)
    ensures |Enc([x], [4])| == 4 && Un(Enc([x], [4])) == x
  {
    hide Le, Un, Pow256;
    Limits();
    UnLe(x, 4);
    assert Enc([x], [4]) == Le(x, 4) + Enc([], []);
    assert Le(x, 4) + [] == Le(x, 4);
  }

  lemma TailReadsBack(blockSize: nat, raw: Raw)
    requires RawOk(blockSize, raw) && |BodyFields(raw)| == |BodyWidths(StoredType(raw))|
    ensures |Tail(raw)| == TailLen(blockSize, StoredType(raw), BodyFields(raw))
    ensures DecodeBody(StoredType(raw), BodyFields(raw), Tail(raw)) == Some(raw)
  {
    match raw
    case RawReg(_, _, _, _, _, _, _) => RegTail(blockSize, raw);
    case RawSym(_, _, _) => SymTail(blockSize, raw);
    case RawDir(_, _, _, _, _, _) => DirTail(blockSize, raw);
    case _ => XattrTail(blockSize, raw);
  }

  lemma Narrowed(a: U16, b: U32, c: U64)
    ensures Narrow16(a) == a && Narrow32(b) == b && Narrow64(c) == c
  {
  }

  lemma RegTail(blockSize: nat, raw: Raw)
    requires raw.RawReg? && RawOk(blockSize, raw) && |BodyFields(raw)| == |BodyWidths(StoredType(raw))|
    ensures |Tail(raw)| == TailLen(blockSize, StoredType(raw), BodyFields(raw))
    ensures DecodeBody(StoredType(raw), BodyFields(raw), Tail(raw)) == Some(raw)
  {
    hide Enc, Un, Dec, Le, EncodeSizes, BlockCount, NarrowAll, Width, Narrow16, Narrow32, Narrow64;
    SizesReadBack(raw.sizes);
    Narrowed(0, raw.nlink, raw.start);
    Narrowed(0, raw.fragment, raw.fileSize);
    Narrowed(0, raw.offset, 0);
    Narrowed(0, raw.xattr, 0);
  }

  lemma SymTail(blockSize: nat, raw: Raw)
    requires raw.RawSym? && RawOk(blockSize, raw) && |BodyFields(raw)| == |BodyWidths(StoredType(raw))|
    ensures |Tail(raw)| == TailLen(blockSize, StoredType(raw), BodyFields(raw))
    ensures DecodeBody(StoredType(raw), BodyFields(raw), Tail(raw)) == Some(raw)
  {
    hide Enc, Un, Dec, Le, EncodeSizes, BlockCount, NarrowAll, Width, Narrow16, Narrow32, Narrow64;
    Narrowed(0, raw.nlink, 0);
    Narrowed(0, raw.xattr, 0);
    WordReadsBack(raw.xattr);
    var word := Enc([raw.xattr], [4]);
    assert (raw.target + word)[|raw.target|..] == word;
    assert (raw.target + word)[..|raw.target|] == raw.target;
    assert raw.target + [] == raw.target;
  }

  lemma DirTail(blockSize: nat, raw: Raw)
    requires raw.RawDir? && RawOk(blockSize, raw) && |BodyFields(raw)| == |BodyWidths(StoredType(raw))|
    ensures |Tail(raw)| == TailLen(blockSize, StoredType(raw), BodyFields(raw))
    ensures DecodeBody(StoredType(raw), BodyFields(raw), Tail(raw)) == Some(raw)
  {
    hide Enc, Un, Dec, Le, EncodeSizes, BlockCount, NarrowAll, Width, Narrow16, Narrow32, Narrow64;
    Narrowed(raw.startOffset, raw.nlink, 0);
    Narrowed(0, raw.filesize, 0);
    Narrowed(0, raw.startBlock, 0);
    Narrowed(0, raw.parent, 0);
    Narrowed(0, raw.xattr, 0);
  }

  lemma XattrTail(blockSize: nat, raw: Raw)
    requires (raw.RawDev? || raw.RawIpc?) && RawOk(blockSize, raw)
    requires |BodyFields(raw)| == |BodyWidths(StoredType(raw))|
    ensures |Tail(raw)| == TailLen(blockSize, StoredType(raw), BodyFields(raw))
    ensures DecodeBody(StoredType(raw), BodyFields(raw), Tail(raw)) == Some(raw)
  {
    hide Enc, Un, Dec, Le, EncodeSizes, BlockCount, NarrowAll, Width, Narrow16, Narrow32, Narrow64;
    Narrowed(0, raw.nlink, 0);
    Narrowed(0, raw.xattr, 0);
    if raw.RawDev? {
      Narrowed(0, raw.rdev, 0);
    }
    WordReadsBack(raw.xattr);
    WholeSlice(Enc([raw.xattr], [4]));
  }

  lemma WholeSlice(b: Bytes)
    ensures b[0..] == b
  {
  }

  /** The three parts of a record, and where they meet. */
  lemma RecordParts(head: Head, raw: Raw)
    requires TypeOf(raw) >= 7 && |BodyFields(raw)| == |BodyWidths(StoredType(raw))|
    ensures var b := EncodeInode(head, raw);
            var t := StoredType(raw);
            var n := 16 + Width(BodyWidths(t));
            && |b| == n + |Tail(raw)|
            && b[..16] == Enc([t, head.mode, head.uid, head.gid, head.mtime, head.number], HEAD)
            && b[..n][16..] == Enc(BodyFields(raw), BodyWidths(t))
            && b[n..] == Tail(raw)
  {
    hide Enc, BodyFields, Tail, BodyWidths;
    HeadFits(head, StoredType(raw));
  }

  /** Whoever can read a record's bytes from its address reads its head and every field. */
  lemma InodeReadsBack(c: Compressor, blockSize: nat, img: Bytes, pos: nat, offset: nat, head: Head, raw: Raw)
    requires RawOk(blockSize, raw)
    requires |BodyFields(raw)| == |BodyWidths(StoredType(raw))|
    requires forall len :: 0 < len <= |EncodeInode(head, raw)| ==>
      ReadMeta(c, img, pos, offset, len) == Some(EncodeInode(head, raw)[..len])
    ensures ReadInode(c, blockSize, img, pos, offset) == Some((head, raw))
  {
    hide Enc, Dec, Fits, BodyFields, Tail, BodyWidths, DecodeBody, TailLen, ReadMeta, EncodeInode, Width;
    var t := StoredType(raw);
    var b, widths := EncodeInode(head, raw), BodyWidths(t);
    var n := 16 + Width(widths);
    RecordParts(head, raw);
    HeadFits(head, t);
    BodyFits(blockSize, raw);
    TailReadsBack(blockSize, raw);
    FieldsAlone([t, head.mode, head.uid, head.gid, head.mtime, head.number], HEAD);
    FieldsAlone(BodyFields(raw), widths);
    assert b[..n + |Tail(raw)|] == b;
  }

  lemma FieldsAlone(values: seq<nat>, widths: seq<nat>)
    requires Fits(values, widths)
    ensures Dec(Enc(values, widths), widths) == values
  {
    hide Enc, Dec;
    DecEnc(values, widths, []);
    assert Enc(values, widths) + [] == Enc(values, widths);
  }
}
