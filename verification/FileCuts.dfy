/** A regular file: its appended bytes are cut into blocks, and a file smaller than one
    block becomes a tail. */
module FileCuts {
  import opened SquashDefs
  import opened Chunking
  import opened PendingWrites
  import opened Fragments

  datatype RegState = RegState(buffered: Bytes, blockCount: nat, fileSize: nat)

  const EMPTY_FILE := RegState([], 0, 0)

  function PutBlocks(n: nat, chunks: seq<Bytes>): (calls: seq<WriterCall>)
    ensures |calls| == |chunks|
  {
    if chunks == [] then [] else [PutBlock(n, chunks[0])] + PutBlocks(n, chunks[1..])
  }

  function Appended(cfg: Config, r: RegState, data: Bytes): RegState
    requires 0 < cfg.blockSize
  {
    var all := r.buffered + data;
    RegState(Rest(cfg.blockSize, all), r.blockCount + |FullChunks(cfg.blockSize, all)|, r.fileSize + |data|)
  }

  function AppendCalls(cfg: Config, n: nat, r: RegState, data: Bytes): seq<WriterCall>
    requires 0 < cfg.blockSize
  {
    PutBlocks(n, FullChunks(cfg.blockSize, r.buffered + data))
  }

  function FlushCalls(cfg: Config, n: nat, r: RegState): seq<WriterCall> {
    if r.buffered == [] then
      []
    else if |r.buffered| < cfg.blockSize && r.blockCount == 0 then
      [PutTail(n, r.buffered)]
    else
      [PutBlock(n, r.buffered)]
  }

  function FlushedCount(cfg: Config, r: RegState): nat {
    if r.buffered == [] || (|r.buffered| < cfg.blockSize && r.blockCount == 0) then r.blockCount else r.blockCount + 1
  }

  function FinalizeCalls(cfg: Config, n: nat, r: RegState): seq<WriterCall> {
    FlushCalls(cfg, n, r) + if FlushedCount(cfg, r) != 0 then [PutDedup(n)] else []
  }

  function AppendAll(cfg: Config, r: RegState, pieces: seq<Bytes>): RegState
    requires 0 < cfg.blockSize
    decreases |pieces|
  {
    if pieces == [] then r else AppendAll(cfg, Appended(cfg, r, pieces[0]), pieces[1..])
  }

  function AppendAllCalls(cfg: Config, n: nat, r: RegState, pieces: seq<Bytes>): seq<WriterCall>
    requires 0 < cfg.blockSize
    decreases |pieces|
  {
    if pieces == [] then []
    else AppendCalls(cfg, n, r, pieces[0]) + AppendAllCalls(cfg, n, Appended(cfg, r, pieces[0]), pieces[1..])
  }

  /** What a whole file asks for, from its bytes alone: nothing, one tail, or blocks and one
      closing deduplication. */
  function FileCalls(cfg: Config, n: nat, data: Bytes): seq<WriterCall>
    requires 0 < cfg.blockSize
  {
    if data == [] then []
    else if |data| < cfg.blockSize then [PutTail(n, data)]
    else PutBlocks(n, AllChunks(cfg.blockSize, data)) + [PutDedup(n)]
  }

  /** The state after any appends depends only on the bytes so far. */
  function StateOf(cfg: Config, s: Bytes): RegState
    requires 0 < cfg.blockSize
  {
    RegState(Rest(cfg.blockSize, s), |FullChunks(cfg.blockSize, s)|, |s|)
  }

  lemma {:induction false} PutBlocksAppend(n: nat, a: seq<Bytes>, b: seq<Bytes>)
    ensures PutBlocks(n, a + b) == PutBlocks(n, a) + PutBlocks(n, b)
  {
    if a == [] {
      assert a + b == b;
    } else {
      assert (a + b)[1..] == a[1..] + b;
      PutBlocksAppend(n, a[1..], b);
    }
  }

  lemma AppendContinues(cfg: Config, n: nat, s: Bytes, piece: Bytes)
    requires 0 < cfg.blockSize
    ensures Appended(cfg, StateOf(cfg, s), piece) == StateOf(cfg, s + piece)
    ensures PutBlocks(n, FullChunks(cfg.blockSize, s)) + AppendCalls(cfg, n, StateOf(cfg, s), piece)
         == PutBlocks(n, FullChunks(cfg.blockSize, s + piece))
  {
    hide FullChunks, Rest, PutBlocks;
    ChunksAppend(cfg.blockSize, s, piece);
    PutBlocksAppend(n, FullChunks(cfg.blockSize, s), FullChunks(cfg.blockSize, Rest(cfg.blockSize, s) + piece));
  }

  lemma {:induction false} AppendsAccumulate(cfg: Config, n: nat, s: Bytes, pieces: seq<Bytes>)
    requires 0 < cfg.blockSize
    ensures AppendAll(cfg, StateOf(cfg, s), pieces) == StateOf(cfg, s + Flat(pieces))
    ensures PutBlocks(n, FullChunks(cfg.blockSize, s)) + AppendAllCalls(cfg, n, StateOf(cfg, s), pieces)
         == PutBlocks(n, FullChunks(cfg.blockSize, s + Flat(pieces)))
    decreases |pieces|
  {
    hide FullChunks, Rest, PutBlocks, StateOf, Appended, AppendCalls;
    if pieces == [] {
      assert s + Flat(pieces) == s;
    } else {
      AppendContinues(cfg, n, s, pieces[0]);
      AppendsAccumulate(cfg, n, s + pieces[0], pieces[1..]);
      assert s + Flat(pieces) == s + pieces[0] + Flat(pieces[1..]);
    }
  }

  /** However a file's bytes are split into appends, the state and the calls are the same:
      those of the whole file. */
  lemma ChunkingInvariance(cfg: Config, n: nat, pieces: seq<Bytes>)
    requires 0 < cfg.blockSize
    ensures AppendAllCalls(cfg, n, EMPTY_FILE, pieces)
            + FinalizeCalls(cfg, n, AppendAll(cfg, EMPTY_FILE, pieces))
         == FileCalls(cfg, n, Flat(pieces))
    ensures AppendAll(cfg, EMPTY_FILE, pieces).fileSize == |Flat(pieces)|
  {
    hide FullChunks, Rest;
    var data := Flat(pieces);
    EmptyState(cfg);
    AppendsAccumulate(cfg, n, [], pieces);
    assert [] + data == data;
    assert PutBlocks(n, []) == [];
    var full, rest := FullChunks(cfg.blockSize, data), Rest(cfg.blockSize, data);
    assert AppendAllCalls(cfg, n, EMPTY_FILE, pieces) == PutBlocks(n, full);
    if |data| < cfg.blockSize {
      ShortState(cfg, data);
    } else {
      LongState(cfg, data);
      PutBlocksAppend(n, full, if rest == [] then [] else [rest]);
      assert PutBlocks(n, [rest]) == [PutBlock(n, rest)];
    }
  }

  lemma EmptyState(cfg: Config)
    requires 0 < cfg.blockSize
    ensures StateOf(cfg, []) == EMPTY_FILE && FullChunks(cfg.blockSize, []) == []
  {
  }

  lemma ShortState(cfg: Config, data: Bytes)
    requires |data| < cfg.blockSize
    ensures FullChunks(cfg.blockSize, data) == [] && Rest(cfg.blockSize, data) == data
  {
  }

  lemma LongState(cfg: Config, data: Bytes)
    requires 0 < cfg.blockSize <= |data|
    ensures FullChunks(cfg.blockSize, data) != []
  {
  }
}
