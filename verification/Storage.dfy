/** What compression saves: everything stored takes the shorter of its packed and its plain
    bytes, and the marks in size words and block headers tell which. */
module Storage {
  import opened SquashDefs
  import opened Chunking
  import opened Compressors
  import opened BlockReports
  import opened Endian
  import opened FormatBytes
  import opened Metadata
  import opened PendingWrites
  import opened RollbackSafety
  import opened BlockDedup

  predicate Shrinks(c: Compressor, x: Bytes) {
    c.Packing? && x != [] && |c.pack(x)| < |x|
  }

  /** The bytes `x` takes: the smaller of both lengths. */
  function Cost(c: Compressor, x: Bytes): nat {
    if Shrinks(c, x) then |c.pack(x)| else |x|
  }

  function Costs(c: Compressor, xs: seq<Bytes>): nat {
    if xs == [] then 0 else Costs(c, Init(xs)) + Cost(c, Last(xs))
  }

  /** A data block or fragment: packed exactly when that is shorter, and bit 24 of the size word
      is clear exactly then. */
  lemma StorageRule(c: Compressor, x: Bytes)
    requires |x| <= 0x10_0000
    ensures Stored(c, x) == if Shrinks(c, x) then c.pack(x) else x
    ensures c.Packing? && x != [] ==> |Stored(c, x)| <= |c.pack(x)|
    ensures SizeWord(c, x) / 0x100_0000 % 2 == 0 <==> Shrinks(c, x)
    ensures SizeWord(c, x) % 0x100_0000 == |Stored(c, x)| == Cost(c, x)
  {
  }

  /** A metadata block: two bytes, low one first, with bit 15 clear exactly when what follows is
      packed, and the length of what follows below it. */
  lemma HeaderRule(c: Compressor, x: Bytes)
    requires |x| <= 0x2000
    ensures var b := EncodeBlock(c, x);
            && |b| == 2 + Cost(c, x)
            && b[2..] == (if Shrinks(c, x) then c.pack(x) else x)
            && At16(b, 0) == Cost(c, x) + if Shrinks(c, x) then 0 else 0x8000
  {
    hide Le;
    StorageRule(c, x);
    var word := MetaHeader(c, x);
    assert EncodeBlock(c, x)[0..2] == Le(word, 2) && EncodeBlock(c, x)[2..] == Stored(c, x);
    Field16(EncodeBlock(c, x), 0, word);
  }

  // ---- The data area ----

  /** One more fragment or block moves the position by what it costs. */
  lemma PositionMoves(cfg: Config, w: Writer, p: PendingWrite)
    requires FileOk(w) && !p.Dedup? && |p.data| <= 0x10_0000
    ensures Handle(cfg, w, p).file.pos == w.file.pos + Cost(cfg.comp, p.data)
  {
    StorageRule(cfg.comp, p.data);
  }

  function HistoryCost(c: Compressor, h: seq<PendingWrite>): nat {
    if h == [] then 0 else HistoryCost(c, Init(h)) + if Last(h).Dedup? then 0 else Cost(c, Last(h).data)
  }

  /** Without deduplication everything sent is in the file, each at its cost. */
  lemma {:induction false} SpaceWithoutDedup(cfg: Config, h: seq<PendingWrite>)
    requires ConfigOk(cfg) && !cfg.dedup && WellOrdered(cfg, h)
    ensures HandleAll(cfg, h).file.pos == 96 + HistoryCost(cfg.comp, h)
  {
    hide Cost, Handle;
    if h != [] {
      SpaceWithoutDedup(cfg, Init(h));
      PositionMoves(cfg, HandleAll(cfg, Init(h)), Last(h));
    }
  }

  lemma {:induction false} FragmentsCost(cfg: Config, w: Writer, contents: seq<Bytes>, k: nat)
    requires ConfigOk(cfg) && FragmentsStored(cfg, w, contents) && k <= |contents|
    ensures FragmentBytes(w.fragments[..k]) == Costs(cfg.comp, contents[..k])
  {
    hide Cost, SizeWord, Stored, WordLen;
    if k > 0 {
      FragmentsCost(cfg, w, contents, k - 1);
      assert FragmentStored(cfg, w, k - 1, contents[k - 1]);
      StorageRule(cfg.comp, contents[k - 1]);
      assert Init(w.fragments[..k]) == w.fragments[..k - 1] && Init(contents[..k]) == contents[..k - 1];
    }
  }

  lemma {:induction false} RunCost(c: Compressor, blocks: seq<Bytes>)
    requires BlocksFit(blocks, 0x10_0000)
    ensures |StoredRun(c, blocks)| == Costs(c, blocks)
  {
    hide Cost, Stored;
    if blocks != [] {
      RunCost(c, Init(blocks));
      StorageRule(c, Last(blocks));
    }
  }

  /** The blocks of the given inodes. */
  function RunCosts(c: Compressor, m: Meaning, inodes: seq<nat>): nat {
    if inodes == [] then 0 else RunCosts(c, m, Init(inodes)) + Costs(c, RunOf(m, Last(inodes)))
  }

  lemma {:induction false} RunsCost(cfg: Config, m: Meaning, w: Writer, inodes: seq<nat>)
    requires ConfigOk(cfg) && RunsStored(cfg, w, m.runs)
    ensures RunBytes(w, inodes) == RunCosts(cfg.comp, m, inodes)
  {
    hide Costs, RangeLen, StoredRun, Words, Slice;
    if inodes != [] {
      var n := Last(inodes);
      RunsCost(cfg, m, w, Init(inodes));
      if n in w.reports {
        assert RunStored(cfg, w, n, m.runs[n]);
        RunCost(cfg.comp, m.runs[n]);
      } else {
        RangeLenSnoc([], 0);
        NoCosts(cfg.comp);
      }
    }
  }

  lemma NoCosts(c: Compressor)
    ensures Costs(c, []) == 0
  {
  }

  /** With deduplication, between files: the data area is what the fragments cost and what the
      blocks of exactly the kept inodes cost. */
  lemma SpaceInFull(cfg: Config, h: seq<PendingWrite>, sum: int)
    requires ConfigOk(cfg) && cfg.dedup && OneBucket(cfg, sum) && WellOrdered(cfg, h) && MeaningOf(h).open == None
    ensures var m, w := MeaningOf(h), HandleAll(cfg, h);
            w.file.pos == 96 + Costs(cfg.comp, m.fragments) + RunCosts(cfg.comp, m, KeptUnder(w, sum))
  {
    hide HandleAll, MeaningOf, WellOrdered, Layout, FragmentStored, RunStored, ConfigOk, KeptUnder, RunBytes,
      FragmentBytes, LayoutInv, Costs, RunCosts;
    var m, w := MeaningOf(h), HandleAll(cfg, h);
    WriterInvHolds(cfg, h);
    SpaceIsConserved(cfg, h, sum);
    FragmentsCost(cfg, w, m.fragments, |m.fragments|);
    assert w.fragments[..|m.fragments|] == w.fragments && m.fragments[..|m.fragments|] == m.fragments;
    RunsCost(cfg, m, w, KeptUnder(w, sum));
  }

  // ---- The metadata tables ----

  lemma {:induction false} EncodedCost(c: Compressor, chunks: seq<Bytes>)
    requires forall x :: x in chunks ==> |x| <= 0x2000
    ensures |EncodeAll(c, chunks)| == 2 * |chunks| + Costs(c, chunks)
  {
    hide Cost, EncodeBlock;
    if chunks == [] {
      EncodeNothing(c);
    } else {
      var front, last := Init(chunks), Last(chunks);
      EncodedCost(c, front);
      assert chunks == front + [last];
      EncodeAllAppend(c, front, [last]);
      EncodeOne(c, last);
      HeaderRule(c, last);
    }
  }

  lemma EncodeNothing(c: Compressor)
    ensures EncodeAll(c, []) == []
  {
  }

  /** A table is its stream in blocks of 8192 bytes, each at its cost and two bytes for its
      header. */
  lemma TableCost(c: Compressor, s: Bytes)
    ensures |TableOf(c, s)| == 2 * (|s| / 0x2000) + Costs(c, FullChunks(0x2000, s))
  {
    hide EncodeAll, Costs, FullChunks;
    ChunksCount(0x2000, s);
    EncodedCost(c, FullChunks(0x2000, s));
  }
}
