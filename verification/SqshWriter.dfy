/** The writer object and regular files as they run on one thread: every queued write is
    handled as soon as it is made. Each method is proved against the client that never
    looks at a file and against the history of writes it sends. */
module SqshWriters {
  import opened SquashDefs
  import opened Chunking
  import opened Compressors
  import opened BlockReports
  import opened PendingWrites
  import opened RollbackSafety
  import opened Fragments
  import opened FileCuts
  import opened DataRoundTrip

  /** The stored bytes of a flushed fragment lie inside the file and unpack to its contents. */
  lemma FlushedReadsBack(cfg: Config, h: seq<PendingWrite>, k: nat)
    requires ConfigOk(cfg) && WellOrdered(cfg, h) && k < |MeaningOf(h).fragments|
    ensures var w := HandleAll(cfg, h);
            && k < |w.fragments|
            && w.fragments[k].start + WordLen(w.fragments[k].size) <= |w.file.bytes|
            && Unblock(cfg.comp,
                       w.file.bytes[w.fragments[k].start..w.fragments[k].start + WordLen(w.fragments[k].size)],
                       w.fragments[k].size, cfg.blockSize)
               == MeaningOf(h).fragments[k]
  {
    hide Tiles, OwnersKnown, KeptAreOwners, OpenRunLast, RunsStored, RunsInside, Unblock, WordLen, Stored, SizeWord,
      HandleAll, MeaningOf, WellOrdered, Layout;
    WriterInvHolds(cfg, h);
    var w, data := HandleAll(cfg, h), MeaningOf(h).fragments[k];
    assert FragmentStored(cfg, w, k, data);
    BlockRoundTrip(cfg.comp, data, cfg.blockSize);
  }

  /** Every report's range lies inside the file, and filed inodes have reports. */
  lemma RunsReadable(cfg: Config, h: seq<PendingWrite>)
    requires ConfigOk(cfg) && WellOrdered(cfg, h)
    ensures var w := HandleAll(cfg, h);
            && (forall n :: n in w.reports ==> EndOf(w, n) <= w.file.pos <= |w.file.bytes|)
            && (forall sum, i :: sum in w.kept && i in w.kept[sum] ==> i in w.reports)
            && (MeaningOf(h).open.Some? ==> MeaningOf(h).open.value in w.reports)
  {
    hide Tiles, FragmentsStored, RunsStored, RangeLen, HandleAll, MeaningOf, WellOrdered, Layout, NoRepeats;
    WriterInvHolds(cfg, h);
  }

  class SqshWriter {
    const cfg: Config

    // client state
    var currentBlock: Bytes
    var currentFragment: Bytes
    var fragmentCount: nat
    var fragmentIndices: map<nat, FragmentIndex>
    var fragmentedDuplicates: map<int, seq<nat>>

    // writer state
    var reports: map<nat, BlockReport>
    var blockedDuplicates: map<int, seq<nat>>

    // shared state
    var outBytes: Bytes
    var outPos: nat
    var fragments: seq<FragmentEntry>

    // history
    ghost var sent: seq<PendingWrite>
    ghost var tails: map<nat, Bytes>

    function ClientState(): Client
      reads this
    {
      Client(currentFragment, fragmentCount, fragmentIndices, fragmentedDuplicates)
    }

    function WriterState(): Writer
      reads this
    {
      Writer(OutFile(outBytes, outPos), fragments, reports, blockedDuplicates)
    }

    ghost function State(): Progress
      reads this
    {
      Progress(ClientState(), sent)
    }

    /** The file is what the history makes of it, and every tail is where its index says. */
    ghost predicate Valid()
      reads this
    {
      && ConfigOk(cfg)
      && WellOrdered(cfg, sent)
      && WriterState() == HandleAll(cfg, sent)
      && ClientInv(cfg, ClientState(), MeaningOf(sent).fragments, tails)
    }

    constructor (cfg: Config)
      requires ConfigOk(cfg)
      ensures Valid() && this.cfg == cfg && State() == NO_PROGRESS && currentBlock == [] && tails == map[]
    {
      this.cfg := cfg;
      currentBlock, currentFragment, fragmentCount := [], [], 0;
      fragmentIndices, fragmentedDuplicates := map[], map[];
      reports, blockedDuplicates := map[], map[];
      outBytes, outPos, fragments := Zeros(SUPER_SIZE), SUPER_SIZE, [];
      sent, tails := [], map[];
    }

    /** Reads move the shared position and put it back. */
    method ReadBytes(pos: nat, len: nat) returns (bytes: Bytes)
      requires pos + len <= |outBytes|
      modifies this`outPos
      ensures bytes == outBytes[pos..pos + len] && outPos == old(outPos)
    {
      var saved := outPos;
      outPos := pos;
      bytes := outBytes[outPos..outPos + len];
      outPos := outPos + len;
      outPos := saved;
    }

    method WriteOut(data: Bytes) returns (tell: nat)
      requires outPos <= |outBytes|
      modifies this`outBytes, this`outPos
      ensures tell == old(outPos)
      ensures OutFile(outBytes, outPos) == WriteBytes(OutFile(old(outBytes), old(outPos)), data)
    {
      tell := outPos;
      var end := outPos + |data|;
      outBytes := outBytes[..outPos] + data + if end <= |outBytes| then outBytes[end..] else [];
      outPos := end;
    }

    method DropOut(count: nat)
      requires count <= outPos
      modifies this`outPos
      ensures OutFile(outBytes, outPos) == DropBytes(OutFile(outBytes, old(outPos)), count)
    {
      outPos := outPos - count;
    }

    method GetBlock(pos: nat, size: nat) returns (block: Bytes)
      requires pos + WordLen(size) <= |outBytes|
      modifies this`outPos
      ensures outPos == old(outPos)
      ensures block == Unblock(cfg.comp, outBytes[pos..pos + WordLen(size)], size, cfg.blockSize)
    {
      var bytes := ReadBytes(pos, WordLen(size));
      block := if WordIsRaw(size) then bytes else Decompress(cfg.comp, bytes, cfg.blockSize);
    }

    /** The entry of a flushed fragment; nothing for the one still open. */
    method GetFragmentEntry(fragment: nat) returns (entry: Option<FragmentEntry>)
      requires fragment == fragmentCount || fragment < |fragments|
      ensures entry == if fragment == fragmentCount then None else Some(fragments[fragment])
    {
      if fragment == fragmentCount {
        entry := None;
      } else {
        entry := Some(fragments[fragment]);
      }
    }

    /** Whether the buffered tail is at a place given out earlier, going by the file for a
        flushed fragment and by the open fragment otherwise. */
    method FoundAt(index: FragmentIndex) returns (found: bool)
      requires Valid() && (index.fragment == fragmentCount || index.fragment < |fragments|)
      requires |fragments| == fragmentCount
      modifies this`outPos
      ensures outPos == old(outPos)
      ensures found == Holds(ClientState(), MeaningOf(sent).fragments, index, currentBlock)
    {
      hide HandleAll, MeaningOf, WellOrdered, TailsHeld, FiledOk, Unblock, WordLen;
      var entry := GetFragmentEntry(index.fragment);
      var content := currentFragment;
      if entry.Some? {
        FlushedReadsBack(cfg, sent, index.fragment);
        content := GetBlock(entry.value.start, entry.value.size);
      }
      found := |currentBlock| + index.offset <= |content|
               && content[index.offset..index.offset + |currentBlock|] == currentBlock;
    }

    /** The search reads fragments back from the file, and finds what a search over the
        fragments as they were sent would find. */
    method DedupFragmentIndex(n: nat) returns (found: Option<FragmentIndex>)
      requires Valid()
      modifies this`outPos, this`fragmentedDuplicates
      ensures outPos == old(outPos)
      ensures found == Search(old(ClientState()), MeaningOf(sent).fragments, currentBlock,
                              Candidates(old(ClientState()), cfg.cksum(currentBlock)))
      ensures ClientState() == if found.Some? then old(ClientState())
                               else File(cfg, old(ClientState()), n, currentBlock)
    {
      hide HandleAll, MeaningOf, WellOrdered, Holds;
      var sum := cfg.cksum(currentBlock);
      var duplicates := if sum in fragmentedDuplicates then fragmentedDuplicates[sum] else [];
      ghost var flushed := MeaningOf(sent).fragments;
      var i := |duplicates|;
      assert duplicates[..i] == duplicates;
      while i > 0
        invariant 0 <= i <= |duplicates|
        invariant outPos == old(outPos) && fragmentedDuplicates == old(fragmentedDuplicates)
        invariant Search(ClientState(), flushed, currentBlock, duplicates)
               == Search(ClientState(), flushed, currentBlock, duplicates[..i])
      {
        i := i - 1;
        assert Init(duplicates[..i + 1]) == duplicates[..i];
        var index := fragmentIndices[duplicates[i]];
        EntryKnown(index.fragment, duplicates[i]);
        var here := FoundAt(index);
        if here {
          return Some(index);
        }
      }
      fragmentedDuplicates := fragmentedDuplicates[sum := duplicates + [n]];
      found := None;
    }

    lemma EntryKnown(fragment: nat, n: nat)
      requires Valid() && n in fragmentIndices && fragmentIndices[n].fragment == fragment
      ensures fragment == fragmentCount || fragment < |fragments|
      ensures |fragments| == fragmentCount
    {
      WriterInvHolds(cfg, sent);
    }

    /** The writer's side of `Valid`, which also holds between a flush and its counting. */
    ghost predicate WriterValid()
      reads this
    {
      ConfigOk(cfg) && WellOrdered(cfg, sent) && WriterState() == HandleAll(cfg, sent)
    }

    // ---- Handling a queued write ----

    method HandleFragment(data: Bytes)
      requires WriterValid()
      modifies this`outBytes, this`outPos, this`fragments
      ensures WriterState() == Handle(cfg, old(WriterState()), Fragment(data))
    {
      var result := Compress(cfg.comp, data);
      var start := WriteOut(result.block);
      var size := |result.block| + if result.compressed then 0 else BLOCK_STORED_BIT;
      fragments := fragments + [FragmentEntry(start, size)];
    }

    method HandleBlock(data: Bytes, n: nat)
      requires WriterValid()
      modifies this`outBytes, this`outPos, this`reports
      ensures WriterState() == Handle(cfg, old(WriterState()), Block(data, n))
    {
      var result := Compress(cfg.comp, data);
      var start := WriteOut(result.block);
      var report := if n in reports then reports[n] else BlockReport(0, []);
      if report.sizes == [] {
        report := report.(start := start);
      }
      var size := |result.block| + if result.compressed then 0 else BLOCK_STORED_BIT;
      reports := reports[n := report.(sizes := report.sizes + [size])];
    }

    method HasSameContent(a: BlockReport, b: BlockReport) returns (same: bool)
      requires a.start + RangeLen(a.sizes) <= |outBytes| && b.start + RangeLen(b.sizes) <= |outBytes|
      ensures same <==> SameContent(outBytes, a, b)
    {
      if a.sizes != b.sizes {
        return false;
      }
      var len := ComputeRangeLen(a.sizes);
      same := RangeEqual(outBytes, a.start, b.start, len, 4096);
    }

    method HandleDedup(n: nat)
      requires WriterValid() && MayFollow(cfg, MeaningOf(sent), Dedup(n))
      modifies this`outPos, this`reports, this`blockedDuplicates
      ensures WriterState() == Handle(cfg, old(WriterState()), Dedup(n))
    {
      hide SameContent, RangeLen, HandleAll, MeaningOf, WellOrdered;
      RunsReadable(cfg, sent);
      var sum := cfg.blockedSum(n);
      var kept := if sum in blockedDuplicates then blockedDuplicates[sum] else [];
      var i := 0;
      while i < |kept|
        invariant 0 <= i <= |kept|
        invariant WriterState() == old(WriterState())
        invariant FindSame(WriterState(), n, kept) == FindSame(WriterState(), n, kept[i..])
      {
        assert kept[i] in kept;
        assert kept[i..][1..] == kept[i + 1..];
        var same := HasSameContent(reports[n], reports[kept[i]]);
        if same {
          var len := ComputeRangeLen(reports[n].sizes);
          DropOut(len);
          reports := reports[n := reports[kept[i]]];
          return;
        }
        i := i + 1;
      }
      blockedDuplicates := blockedDuplicates[sum := kept + [n]];
    }

    /** On one thread a queued write is handled at once. */
    method Enqueue(p: PendingWrite)
      requires WriterValid() && MayFollow(cfg, MeaningOf(sent), p)
      modifies this`outBytes, this`outPos, this`fragments, this`reports, this`blockedDuplicates, this`sent
      ensures WriterValid() && sent == old(sent) + [p]
    {
      SentOne(cfg, sent, p);
      assert Init(sent + [p]) == sent;
      match p {
        case Fragment(data) => HandleFragment(data);
        case Block(data, n) => HandleBlock(data, n);
        case Dedup(n) => HandleDedup(n);
      }
      sent := sent + [p];
    }

    // ---- What files call ----

    method EnqueueFragment()
      requires WriterValid() && currentFragment != [] && |currentFragment| <= cfg.blockSize
      requires cfg.dedup ==> MeaningOf(sent).open == None
      modifies this
      ensures WriterValid() && sent == old(sent) + [Fragment(old(currentFragment))]
      ensures ClientState() == Flushed(old(ClientState()))
      ensures currentBlock == old(currentBlock) && tails == old(tails)
    {
      hide FiledOk, TailsHeld, HandleAll, WellOrdered, MeaningOf;
      Enqueue(Fragment(currentFragment));
      fragmentCount := fragmentCount + 1;
      currentFragment := [];
    }

    method FlushFragment()
      requires WriterValid() && |currentFragment| <= cfg.blockSize
      requires cfg.dedup ==> MeaningOf(sent).open == None
      modifies this
      ensures WriterValid() && State() == Finish(old(State()))
      ensures currentBlock == old(currentBlock) && tails == old(tails)
    {
      if currentFragment != [] {
        EnqueueFragment();
      } else {
        assert sent + [] == sent;
      }
    }

    /** True when the tail was found elsewhere, and then nothing is left to pack. */
    method DedupFragment(n: nat) returns (found: bool)
      requires Valid()
      modifies this`outPos, this`fragmentedDuplicates, this`fragmentIndices, this`currentBlock
      ensures outPos == old(outPos)
      ensures var hit := Search(old(ClientState()), MeaningOf(sent).fragments, old(currentBlock),
                                Candidates(old(ClientState()), cfg.cksum(old(currentBlock))));
              && found == hit.Some?
              && currentBlock == (if found then [] else old(currentBlock))
              && ClientState() == (if found then old(ClientState()).(indices := old(fragmentIndices)[n := hit.value])
                                   else File(cfg, old(ClientState()), n, currentBlock))
    {
      var index := DedupFragmentIndex(n);
      found := index.Some?;
      if index.Some? {
        fragmentIndices := fragmentIndices[n := index.value];
        currentBlock := [];
      }
    }

    lemma OpenFragmentFits()
      requires Valid()
      ensures |currentFragment| <= cfg.blockSize
    {
    }

    /** Packing the buffered tail does what the file-less client does. */
    method PutFragment(n: nat)
      requires Valid() && n !in tails && 0 < |currentBlock| < cfg.blockSize
      requires cfg.dedup ==> MeaningOf(sent).open == None
      modifies this
      ensures Valid() && tails == old(tails)[n := old(currentBlock)] && currentBlock == []
      ensures State() == RunCall(cfg, old(State()), PutTail(n, old(currentBlock)))
      ensures |old(currentFragment)| + |old(currentBlock)| <= cfg.blockSize ==>
                sent == old(sent) && fragmentCount == old(fragmentCount) && old(currentFragment) <= currentFragment
    {
      hide ClientInv, Search, Candidates, HandleAll, WellOrdered, MeaningOf;
      OpenFragmentFits();
      PutFragmentKeepsInv(cfg, ClientState(), MeaningOf(sent).fragments, tails, n, currentBlock);
      assert sent + [] == sent;
      assert MeaningOf(sent).fragments + [] == MeaningOf(sent).fragments;
      ghost var data, was := currentBlock, sent;
      var found := false;
      if cfg.dedup {
        found := DedupFragment(n);
      }
      if !found {
        if |currentFragment| + |currentBlock| > cfg.blockSize {
          FlushFragment();
          SentOne(cfg, was, Fragment(old(currentFragment)));
        }
        fragmentIndices := fragmentIndices[n := FragmentIndex(fragmentCount, |currentFragment|)];
        currentFragment := currentFragment + currentBlock;
        currentBlock := [];
      }
      tails := tails[n := data];
    }

    method EnqueueBlock(n: nat)
      requires Valid() && MayFollow(cfg, MeaningOf(sent), Block(currentBlock, n))
      modifies this
      ensures Valid() && tails == old(tails) && currentBlock == []
      ensures State() == RunCall(cfg, old(State()), PutBlock(n, old(currentBlock)))
    {
      hide FiledOk, TailsHeld, HandleAll, WellOrdered, MeaningOf;
      SentOne(cfg, sent, Block(currentBlock, n));
      Enqueue(Block(currentBlock, n));
      currentBlock := [];
    }

    method EnqueueDedup(n: nat)
      requires Valid() && (cfg.dedup ==> MayFollow(cfg, MeaningOf(sent), Dedup(n)))
      modifies this
      ensures Valid() && tails == old(tails) && currentBlock == old(currentBlock)
      ensures State() == RunCall(cfg, old(State()), PutDedup(n))
    {
      hide FiledOk, TailsHeld, HandleAll, WellOrdered, MeaningOf;
      assert sent + [] == sent;
      if cfg.dedup {
        SentOne(cfg, sent, Dedup(n));
        Enqueue(Dedup(n));
      }
    }
  }

  /** A regular file under construction; all files share the writer's block buffer. */
  class DirtreeReg {
    const wr: SqshWriter
    const inodeNumber: nat
    var fileSize: nat
    var blockCount: nat

    ghost function FileState(): RegState
      reads this, wr
    {
      RegState(wr.currentBlock, blockCount, fileSize)
    }

    constructor (wr: SqshWriter, inodeNumber: nat)
      ensures this.wr == wr && this.inodeNumber == inodeNumber && fileSize == 0 && blockCount == 0
    {
      this.wr, this.inodeNumber := wr, inodeNumber;
      fileSize, blockCount := 0, 0;
    }

    /** This file may go on sending: it has sent blocks and is open, or it has sent nothing. */
    ghost predicate MayContinue()
      reads this, wr
    {
      && wr.Valid() && |wr.currentBlock| <= wr.cfg.blockSize
      && inodeNumber !in wr.tails
      && var m := MeaningOf(wr.sent);
         if blockCount == 0 then inodeNumber !in m.runs && (wr.cfg.dedup ==> m.open == None)
         else m.open == Some(inodeNumber)
    }

    method Flush()
      requires MayContinue()
      modifies this, wr
      ensures wr.Valid() && wr.currentBlock == []
      ensures wr.State() == RunCalls(wr.cfg, old(wr.State()), FlushCalls(wr.cfg, inodeNumber, old(FileState())))
      ensures blockCount == FlushedCount(wr.cfg, old(FileState())) && fileSize == old(fileSize)
      ensures blockCount > old(blockCount) ==> MayContinue()
      ensures blockCount == 0 || MeaningOf(wr.sent).open == Some(inodeNumber)
    {
      hide FiledOk, TailsHeld, HandleAll, WellOrdered, MeaningOf, RunCalls;
      if |wr.currentBlock| == 0 {
        NoCalls(wr.cfg, wr.State());
        return;
      }
      if |wr.currentBlock| < wr.cfg.blockSize && blockCount == 0 {
        RunOneCall(wr.cfg, wr.State(), PutTail(inodeNumber, wr.currentBlock));
        wr.PutFragment(inodeNumber);
      } else {
        RunOneCall(wr.cfg, wr.State(), PutBlock(inodeNumber, wr.currentBlock));
        SentOne(wr.cfg, wr.sent, Block(wr.currentBlock, inodeNumber));
        wr.EnqueueBlock(inodeNumber);
        blockCount := blockCount + 1;
      }
    }

    /** The file's last bytes go out as a tail or a block, and a file of blocks is closed. */
    method Finalize()
      requires MayContinue()
      modifies this, wr
      ensures wr.Valid() && wr.currentBlock == []
      ensures wr.State() == RunCalls(wr.cfg, old(wr.State()), FinalizeCalls(wr.cfg, inodeNumber, old(FileState())))
      ensures fileSize == old(fileSize)
    {
      ghost var before, flush := wr.State(), FlushCalls(wr.cfg, inodeNumber, FileState());
      Flush();
      if blockCount != 0 {
        RunCallsAppend(wr.cfg, before, flush, [PutDedup(inodeNumber)]);
        RunOneCall(wr.cfg, wr.State(), PutDedup(inodeNumber));
        wr.EnqueueDedup(inodeNumber);
      } else {
        assert flush + [] == flush;
      }
    }

    method PushBytes(bytes: Bytes)
      modifies wr`currentBlock
      ensures wr.currentBlock == old(wr.currentBlock) + bytes
    {
      for i := 0 to |bytes|
        invariant wr.currentBlock == old(wr.currentBlock) + bytes[..i]
      {
        wr.currentBlock := wr.currentBlock + [bytes[i]];
        assert bytes[..i + 1] == bytes[..i] + [bytes[i]];
      }
      assert bytes[..|bytes|] == bytes;
    }

    /** Bytes that fit are buffered; when they fill the buffer, one block goes out. */
    method AppendSome(bytes: Bytes)
      requires MayContinue() && 0 < |bytes| && |wr.currentBlock| + |bytes| <= wr.cfg.blockSize
      modifies this, wr
      ensures MayContinue() && |wr.currentBlock| < wr.cfg.blockSize
      ensures FileState() == Appended(wr.cfg, old(FileState()), bytes).(fileSize := old(fileSize))
      ensures wr.State() == RunCalls(wr.cfg, old(wr.State()), AppendCalls(wr.cfg, inodeNumber, old(FileState()), bytes))
    {
      hide MayContinue, RunCalls;
      ghost var all := wr.currentBlock + bytes;
      Fill(bytes);
      FewChunks(wr.cfg, inodeNumber, all);
      NoCalls(wr.cfg, wr.State());
      if |wr.currentBlock| == wr.cfg.blockSize {
        Flush();
      }
    }

    method Fill(bytes: Bytes)
      requires MayContinue() && |wr.currentBlock| + |bytes| <= wr.cfg.blockSize
      modifies wr`currentBlock
      ensures MayContinue() && wr.currentBlock == old(wr.currentBlock) + bytes && wr.State() == old(wr.State())
    {
      PushBytes(bytes);
    }

    /** Appending cuts full blocks off the buffered bytes and leaves the rest buffered. */
    method Append(buff: Bytes)
      requires MayContinue() && |wr.currentBlock| < wr.cfg.blockSize
      modifies this, wr
      ensures MayContinue() && |wr.currentBlock| < wr.cfg.blockSize
      ensures FileState() == Appended(wr.cfg, old(FileState()), buff)
      ensures wr.State() == RunCalls(wr.cfg, old(wr.State()), AppendCalls(wr.cfg, inodeNumber, old(FileState()), buff))
    {
      hide RunCalls, AppendCalls, Appended, FiledOk, TailsHeld, HandleAll, WellOrdered, MeaningOf;
      ghost var before, start := FileState(), wr.State();
      AppendNothing(wr.cfg, inodeNumber, before, start);
      fileSize := fileSize + |buff|;
      var len := |buff|;
      var at := 0;
      while len != 0
        invariant 0 <= len <= |buff| && at == |buff| - len
        invariant MayContinue() && |wr.currentBlock| < wr.cfg.blockSize
        invariant FileState() == Appended(wr.cfg, before, buff[..at]).(fileSize := before.fileSize + |buff|)
        invariant wr.State() == RunCalls(wr.cfg, start, AppendCalls(wr.cfg, inodeNumber, before, buff[..at]))
      {
        var remaining := wr.cfg.blockSize - |wr.currentBlock|;
        var added := if len > remaining then remaining else len;
        ghost var some := buff[at..at + added];
        assert buff[..at] + some == buff[..at + added];
        AppendMore(wr.cfg, inodeNumber, before, start, buff[..at], some);
        SizeApart(wr.cfg, inodeNumber, Appended(wr.cfg, before, buff[..at]), fileSize, some);
        AppendSome(buff[at..at + added]);
        len := len - added;
        at := at + added;
      }
      assert buff[..at] == buff;
      SizeApart(wr.cfg, inodeNumber, before, fileSize, buff);
    }
  }

  /** The recorded size plays no part in the cutting. */
  lemma SizeApart(cfg: Config, n: nat, r: RegState, size: nat, data: Bytes)
    requires 0 < cfg.blockSize
    ensures Appended(cfg, r.(fileSize := size), data).(fileSize := size)
         == Appended(cfg, r, data).(fileSize := size)
    ensures AppendCalls(cfg, n, r.(fileSize := size), data) == AppendCalls(cfg, n, r, data)
    ensures Appended(cfg, r, data).fileSize == r.fileSize + |data|
  {
  }

  lemma NoCalls(cfg: Config, p: Progress)
    ensures RunCalls(cfg, p, []) == p
  {
  }

  lemma FewChunks(cfg: Config, n: nat, all: Bytes)
    requires 0 < cfg.blockSize && |all| <= cfg.blockSize
    ensures Rest(cfg.blockSize, all) == if |all| == cfg.blockSize then [] else all
    ensures FullChunks(cfg.blockSize, all) == if |all| == cfg.blockSize then [all] else []
    ensures PutBlocks(n, FullChunks(cfg.blockSize, all)) == if |all| == cfg.blockSize then [PutBlock(n, all)] else []
  {
    if |all| == cfg.blockSize {
      assert all[..cfg.blockSize] == all && all[cfg.blockSize..] == [];
    }
  }

  lemma AppendNothing(cfg: Config, n: nat, r: RegState, p: Progress)
    requires 0 < cfg.blockSize && |r.buffered| < cfg.blockSize
    ensures Appended(cfg, r, []) == r
    ensures RunCalls(cfg, p, AppendCalls(cfg, n, r, [])) == p
  {
    assert r.buffered + [] == r.buffered;
  }

  /** Two appends in a row are one append of both. */
  lemma AppendMore(cfg: Config, n: nat, r: RegState, p: Progress, a: Bytes, b: Bytes)
    requires 0 < cfg.blockSize
    ensures var mid := Appended(cfg, r, a);
            && Appended(cfg, r, a + b) == Appended(cfg, mid, b)
            && AppendCalls(cfg, n, r, a + b) == AppendCalls(cfg, n, r, a) + AppendCalls(cfg, n, mid, b)
            && RunCalls(cfg, p, AppendCalls(cfg, n, r, a + b))
               == RunCalls(cfg, RunCalls(cfg, p, AppendCalls(cfg, n, r, a)), AppendCalls(cfg, n, mid, b))
  {
    hide FullChunks, Rest, PutBlocks, RunCalls;
    var mid := Appended(cfg, r, a);
    assert r.buffered + (a + b) == (r.buffered + a) + b;
    ChunksAppend(cfg.blockSize, r.buffered + a, b);
    PutBlocksAppend(n, FullChunks(cfg.blockSize, r.buffered + a), FullChunks(cfg.blockSize, mid.buffered + b));
    RunCallsAppend(cfg, p, AppendCalls(cfg, n, r, a), AppendCalls(cfg, n, mid, b));
  }
}
