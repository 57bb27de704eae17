/** The writer side: an output file with one position, and what handling each
    queued write does to it. */
module PendingWrites {
  import opened SquashDefs
  import opened Compressors
  import opened BlockReports

  /** `cksum` is the checksum of a tail; `blockedSum` the one under which an inode's block
      list is filed. Both are arbitrary. */
  datatype Config = Config(
    blockSize: nat,
    dedup: bool,
    comp: Compressor,
    cksum: Bytes -> int,
    blockedSum: nat -> int)

  ghost predicate ConfigOk(cfg: Config) {
    0 < cfg.blockSize <= MAX_BLOCK_SIZE && Lawful(cfg.comp)
  }

  /** The position is shared by reading and writing. Moving it back truncates nothing:
      bytes past it stay until they are overwritten. */
  datatype OutFile = OutFile(bytes: Bytes, pos: nat)

  datatype FragmentEntry = FragmentEntry(start: nat, size: nat)

  datatype PendingWrite =
    | Fragment(data: Bytes)
    | Block(data: Bytes, inode: nat)
    | Dedup(inode: nat)

  datatype Writer = Writer(
    file: OutFile,
    fragments: seq<FragmentEntry>,
    reports: map<nat, BlockReport>,
    kept: map<int, seq<nat>>)

  /** The superblock's place is skipped and reads as zeros until it is written. */
  const INITIAL_WRITER := Writer(OutFile(Zeros(SUPER_SIZE), SUPER_SIZE), [], map[], map[])

  function WriteBytes(f: OutFile, data: Bytes): OutFile
    requires f.pos <= |f.bytes|
  {
    var end := f.pos + |data|;
    OutFile(f.bytes[..f.pos] + data + if end <= |f.bytes| then f.bytes[end..] else [], end)
  }

  function DropBytes(f: OutFile, count: nat): OutFile {
    f.(pos := if count <= f.pos then f.pos - count else 0)
  }

  function ReportOf(w: Writer, n: nat): BlockReport {
    if n in w.reports then w.reports[n] else BlockReport(0, [])
  }

  function KeptUnder(w: Writer, sum: int): seq<nat> {
    if sum in w.kept then w.kept[sum] else []
  }

  predicate SameContent(img: Bytes, a: BlockReport, b: BlockReport) {
    a.sizes == b.sizes
    && Slice(img, a.start, RangeLen(a.sizes)) == Slice(img, b.start, RangeLen(a.sizes))
  }

  /** The first candidate whose blocks equal those of `n`. */
  function FindSame(w: Writer, n: nat, candidates: seq<nat>): (found: Option<nat>) {
    if candidates == [] then
      None
    else if SameContent(w.file.bytes, ReportOf(w, n), ReportOf(w, candidates[0])) then
      Some(candidates[0])
    else
      FindSame(w, n, candidates[1..])
  }

  predicate FileOk(w: Writer) {
    w.file.pos <= |w.file.bytes|
  }

  function AppendFragment(w: Writer, stored: Bytes, word: nat): Writer
    requires FileOk(w)
  {
    w.(file := WriteBytes(w.file, stored), fragments := w.fragments + [FragmentEntry(w.file.pos, word)])
  }

  function AppendBlock(w: Writer, n: nat, stored: Bytes, word: nat): Writer
    requires FileOk(w)
  {
    var before := ReportOf(w, n);
    var start := if before.sizes == [] then w.file.pos else before.start;
    w.(file := WriteBytes(w.file, stored), reports := w.reports[n := BlockReport(start, before.sizes + [word])])
  }

  /** Rewind over the blocks of `n` and let it share the report of `i`. */
  function ShareReport(w: Writer, n: nat, i: nat): Writer {
    w.(file := DropBytes(w.file, RangeLen(ReportOf(w, n).sizes)), reports := w.reports[n := ReportOf(w, i)])
  }

  function Keep(w: Writer, sum: int, n: nat): Writer {
    w.(kept := w.kept[sum := KeptUnder(w, sum) + [n]])
  }

  function DedupRun(w: Writer, sum: int, n: nat): Writer {
    match FindSame(w, n, KeptUnder(w, sum))
    case Some(i) => ShareReport(w, n, i)
    case None => Keep(w, sum, n)
  }

  function Handle(cfg: Config, w: Writer, p: PendingWrite): (r: Writer)
    requires FileOk(w)
    ensures FileOk(r)
  {
    match p
    case Fragment(data) => AppendFragment(w, Stored(cfg.comp, data), SizeWord(cfg.comp, data))
    case Block(data, n) => AppendBlock(w, n, Stored(cfg.comp, data), SizeWord(cfg.comp, data))
    case Dedup(n) => DedupRun(w, cfg.blockedSum(n), n)
  }

  function HandleAll(cfg: Config, h: seq<PendingWrite>): (w: Writer)
    ensures FileOk(w)
  {
    if h == [] then INITIAL_WRITER else Handle(cfg, HandleAll(cfg, Init(h)), Last(h))
  }

  // ---- What a history of writes means, without any file ----

  /** The contents of the fragments flushed so far (the k-th flush is fragment k), the blocks
      sent for each inode, and the inode whose blocks are still being sent. */
  datatype Meaning = Meaning(fragments: seq<Bytes>, runs: map<nat, seq<Bytes>>, open: Option<nat>)

  const NOTHING_WRITTEN := Meaning([], map[], None)

  function RunOf(m: Meaning, n: nat): seq<Bytes> {
    if n in m.runs then m.runs[n] else []
  }

  function Extend(m: Meaning, p: PendingWrite): Meaning {
    match p
    case Fragment(data) => Meaning(m.fragments + [data], m.runs, None)
    case Block(data, n) => Meaning(m.fragments, m.runs[n := RunOf(m, n) + [data]], Some(n))
    case Dedup(_) => m.(open := None)
  }

  function MeaningOf(h: seq<PendingWrite>): Meaning {
    if h == [] then NOTHING_WRITTEN else Extend(MeaningOf(Init(h)), Last(h))
  }

  /** The order in which one file at a time sends its writes: the blocks of an inode come in
      one run, closed by its `Dedup` before anything else when deduplication is on. */
  predicate MayFollow(cfg: Config, m: Meaning, p: PendingWrite) {
    match p
    case Fragment(data) =>
      0 < |data| <= cfg.blockSize && (cfg.dedup ==> m.open == None)
    case Block(data, n) =>
      && 0 < |data| <= cfg.blockSize
      && (m.open == Some(n) || (n !in m.runs && (cfg.dedup ==> m.open == None)))
    case Dedup(n) =>
      cfg.dedup && m.open == Some(n)
  }

  predicate WellOrdered(cfg: Config, h: seq<PendingWrite>) {
    h == [] || (WellOrdered(cfg, Init(h)) && MayFollow(cfg, MeaningOf(Init(h)), Last(h)))
  }

  // ---- The layout of the live extents ----

  datatype Owner = FragmentOwner(index: nat) | RunOwner(inode: nat)

  function EndOf(w: Writer, n: nat): nat
    requires n in w.reports
  {
    w.reports[n].start + RangeLen(w.reports[n].sizes)
  }

  function StartOf(w: Writer, o: Owner): nat {
    match o
    case FragmentOwner(k) => if k < |w.fragments| then w.fragments[k].start else 0
    case RunOwner(n) => ReportOf(w, n).start
  }

  function LengthOf(w: Writer, o: Owner): nat {
    match o
    case FragmentOwner(k) => if k < |w.fragments| then WordLen(w.fragments[k].size) else 0
    case RunOwner(n) => RangeLen(ReportOf(w, n).sizes)
  }

  /** The extents of the owners, in order, cover `[SUPER_SIZE, end)` without gap or overlap. */
  predicate Tiles(w: Writer, owners: seq<Owner>, end: nat)
    decreases |owners|
  {
    if owners == [] then
      end == SUPER_SIZE
    else
      var o := Last(owners);
      StartOf(w, o) + LengthOf(w, o) == end && Tiles(w, Init(owners), StartOf(w, o))
  }

  function DedupOwners(w: Writer, owners: seq<Owner>, sum: int, n: nat): seq<Owner> {
    if owners != [] && FindSame(w, n, KeptUnder(w, sum)).Some? then Init(owners) else owners
  }

  /** Which owners keep their own extent after one more write: a run found to be a copy
      loses its. */
  function OwnersAfter(cfg: Config, m: Meaning, w: Writer, owners: seq<Owner>, p: PendingWrite): seq<Owner> {
    match p
    case Fragment(_) => owners + [FragmentOwner(|w.fragments|)]
    case Block(_, n) => if m.open == Some(n) then owners else owners + [RunOwner(n)]
    case Dedup(n) => DedupOwners(w, owners, cfg.blockedSum(n), n)
  }

  function Layout(cfg: Config, h: seq<PendingWrite>): seq<Owner> {
    if h == [] then
      []
    else
      OwnersAfter(cfg, MeaningOf(Init(h)), HandleAll(cfg, Init(h)), Layout(cfg, Init(h)), Last(h))
  }

  ghost predicate NoRepeats(owners: seq<Owner>) {
    forall i, j :: 0 <= i < j < |owners| ==> owners[i] != owners[j]
  }

  ghost predicate OwnersKnown(w: Writer, owners: seq<Owner>) {
    && NoRepeats(owners)
    && (forall k: nat :: FragmentOwner(k) in owners <==> k < |w.fragments|)
    && (forall n :: RunOwner(n) in owners ==> n in w.reports)
  }

  /** `[start, start + len)` lies between the superblock and `limit`. */
  predicate Inside(start: nat, len: nat, limit: nat) {
    SUPER_SIZE <= start && start + len <= limit
  }

  ghost predicate RunsInside(w: Writer, limit: nat, but: Option<nat>) {
    forall n :: n in w.reports && but != Some(n) ==> Inside(w.reports[n].start, RangeLen(w.reports[n].sizes), limit)
  }

  ghost predicate FragmentsInside(w: Writer, limit: nat) {
    forall k :: 0 <= k < |w.fragments| ==> Inside(w.fragments[k].start, WordLen(w.fragments[k].size), limit)
  }

  ghost predicate ReportsNonempty(w: Writer) {
    forall n :: n in w.reports ==> w.reports[n].sizes != []
  }

  /** While a run is open it is the last extent; with deduplication on nothing else
      reaches into it. */
  ghost predicate OpenRunLast(dedup: bool, w: Writer, owners: seq<Owner>, open: Option<nat>) {
    open.Some? ==>
      && owners != [] && Last(owners) == RunOwner(open.value)
      && open.value in w.reports
      && (dedup ==>
          RunsInside(w, w.reports[open.value].start, open) && FragmentsInside(w, w.reports[open.value].start))
  }

  /** Every filed inode owns a closed run of its own. */
  ghost predicate KeptAreOwners(w: Writer, owners: seq<Owner>, open: Option<nat>) {
    forall sum, i :: sum in w.kept && i in w.kept[sum] ==> RunOwner(i) in owners && open != Some(i)
  }

  /** The extents alone: who owns which part of the file. */
  ghost predicate LayoutInv(dedup: bool, w: Writer, owners: seq<Owner>, open: Option<nat>) {
    && FileOk(w)
    && ReportsNonempty(w)
    && OwnersKnown(w, owners)
    && Tiles(w, owners, w.file.pos)
    && RunsInside(w, w.file.pos, None)
    && FragmentsInside(w, w.file.pos)
    && OpenRunLast(dedup, w, owners, open)
    && KeptAreOwners(w, owners, open)
  }

  // ---- What the extents hold ----

  predicate FragmentStored(cfg: Config, w: Writer, k: nat, data: Bytes)
    requires k < |w.fragments|
  {
    var e := w.fragments[k];
    && 0 < |data| <= cfg.blockSize
    && e.size == SizeWord(cfg.comp, data) && WordLen(e.size) == |Stored(cfg.comp, data)|
    && Slice(w.file.bytes, e.start, WordLen(e.size)) == Stored(cfg.comp, data)
  }

  predicate RunStored(cfg: Config, w: Writer, n: nat, blocks: seq<Bytes>)
    requires n in w.reports
  {
    var r := w.reports[n];
    && blocks != [] && BlocksFit(blocks, cfg.blockSize)
    && r.sizes == Words(cfg.comp, blocks) && RangeLen(r.sizes) == |StoredRun(cfg.comp, blocks)|
    && Slice(w.file.bytes, r.start, RangeLen(r.sizes)) == StoredRun(cfg.comp, blocks)
  }

  ghost predicate FragmentsStored(cfg: Config, w: Writer, contents: seq<Bytes>) {
    && |w.fragments| == |contents|
    && forall k :: 0 <= k < |w.fragments| ==> FragmentStored(cfg, w, k, contents[k])
  }

  ghost predicate RunsStored(cfg: Config, w: Writer, runs: map<nat, seq<Bytes>>) {
    && w.reports.Keys == runs.Keys
    && forall n :: n in w.reports ==> RunStored(cfg, w, n, runs[n])
  }

  ghost predicate WriterInv(cfg: Config, m: Meaning, w: Writer, owners: seq<Owner>) {
    && LayoutInv(cfg.dedup, w, owners, m.open)
    && FragmentsStored(cfg, w, m.fragments)
    && RunsStored(cfg, w, m.runs)
  }
}
