/** Regular files put one after the other, on one thread, and the end of the data. */
module PackFiles {
  import opened SquashDefs
  import opened Chunking
  import opened PendingWrites
  import opened Fragments
  import opened FileCuts
  import opened DataRoundTrip
  import opened SqshWriters

  /** One file: created, appended to in any number of pieces, finalized. Its size is what was
      appended. */
  method PutFile(wr: SqshWriter, inode: nat, pieces: seq<Bytes>) returns (fileSize: nat)
    requires wr.Valid() && wr.currentBlock == []
    requires inode !in wr.tails && inode !in MeaningOf(wr.sent).runs
    requires wr.cfg.dedup ==> MeaningOf(wr.sent).open == None
    modifies wr
    ensures wr.Valid() && wr.currentBlock == []
    ensures wr.State() == RunCalls(wr.cfg, old(wr.State()), FileCalls(wr.cfg, inode, Flat(pieces)))
    ensures fileSize == |Flat(pieces)|
  {
    hide FiledOk, TailsHeld, HandleAll, WellOrdered, MeaningOf, RunCalls, FileCalls, Appended, AppendCalls,
      FinalizeCalls;
    var reg := new DirtreeReg(wr, inode);
    ghost var start := wr.State();
    NoCalls(wr.cfg, start);
    for i := 0 to |pieces|
      invariant reg.MayContinue() && |wr.currentBlock| < wr.cfg.blockSize
      invariant AppendAll(wr.cfg, reg.FileState(), pieces[i..]) == AppendAll(wr.cfg, EMPTY_FILE, pieces)
      invariant RunCalls(wr.cfg, wr.State(), AppendAllCalls(wr.cfg, inode, reg.FileState(), pieces[i..]))
             == RunCalls(wr.cfg, start, AppendAllCalls(wr.cfg, inode, EMPTY_FILE, pieces))
    {
      assert pieces[i..][0] == pieces[i] && pieces[i..][1..] == pieces[i + 1..];
      ghost var r := reg.FileState();
      RunCallsAppend(wr.cfg, wr.State(), AppendCalls(wr.cfg, inode, r, pieces[i]),
                     AppendAllCalls(wr.cfg, inode, Appended(wr.cfg, r, pieces[i]), pieces[i + 1..]));
      reg.Append(pieces[i]);
    }
    NoCalls(wr.cfg, wr.State());
    ghost var calls := AppendAllCalls(wr.cfg, inode, EMPTY_FILE, pieces);
    RunCallsAppend(wr.cfg, start, calls, FinalizeCalls(wr.cfg, inode, reg.FileState()));
    ChunkingInvariance(wr.cfg, inode, pieces);
    fileSize := reg.fileSize;
    reg.Finalize();
  }

  /** One more file in a row of files. */
  lemma NextFile(cfg: Config, files: seq<FileData>, f: FileData)
    requires 0 < cfg.blockSize && Distinct(files + [f])
    ensures Distinct(files) && f.inode !in TailsOf(cfg, files) && f.inode !in RunsOf(cfg, files)
    ensures AllCalls(cfg, files + [f]) == AllCalls(cfg, files) + FileCalls(cfg, f.inode, f.data)
  {
    var more := files + [f];
    assert Init(more) == files && Last(more) == f;
    forall g | g in files
      ensures g.inode != f.inode
    {
      var i :| 0 <= i < |files| && files[i] == g;
      assert more[i] == g && more[|files|] == f;
    }
    NotYetPut(cfg, files, f.inode);
    assert forall i :: 0 <= i < |files| ==> more[i] == files[i];
  }

  /** Which tails are in depends on the history alone. */
  lemma SameTails(cfg: Config, cs: Client, flushed: seq<Bytes>, a: map<nat, Bytes>, b: map<nat, Bytes>)
    requires ClientInv(cfg, cs, flushed, a) && ClientInv(cfg, cs, flushed, b)
    ensures a.Keys == b.Keys
  {
  }

  /** Puts the next of the files that are in. */
  method PutNextFile(wr: SqshWriter, ghost files: seq<FileData>, inode: nat, pieces: seq<Bytes>) returns (fileSize: nat)
    requires wr.Valid() && wr.currentBlock == [] && Distinct(files + [FileData(inode, Flat(pieces))])
    requires wr.State() == RunCalls(wr.cfg, NO_PROGRESS, AllCalls(wr.cfg, files))
    modifies wr
    ensures wr.Valid() && wr.currentBlock == [] && fileSize == |Flat(pieces)|
    ensures wr.State() == RunCalls(wr.cfg, NO_PROGRESS, AllCalls(wr.cfg, files + [FileData(inode, Flat(pieces))]))
  {
    hide FiledOk, TailsHeld, HandleAll, WellOrdered, MeaningOf, RunCalls, FileCalls, AllCalls, TailsOf, RunsOf, Flat,
      Distinct;
    ghost var f := FileData(inode, Flat(pieces));
    NextFile(wr.cfg, files, f);
    FilesKeepInv(wr.cfg, files);
    SameTails(wr.cfg, wr.ClientState(), MeaningOf(wr.sent).fragments, wr.tails, TailsOf(wr.cfg, files));
    RunCallsAppend(wr.cfg, NO_PROGRESS, AllCalls(wr.cfg, files), FileCalls(wr.cfg, inode, f.data));
    fileSize := PutFile(wr, inode, pieces);
  }

  /** After all files the open fragment is flushed; nothing else is left to do. */
  method FinishData(wr: SqshWriter, ghost files: seq<FileData>)
    requires wr.Valid() && wr.currentBlock == [] && Distinct(files)
    requires wr.State() == RunCalls(wr.cfg, NO_PROGRESS, AllCalls(wr.cfg, files))
    modifies wr
    ensures wr.Valid() && wr.State() == Outcome(wr.cfg, files)
  {
    hide FiledOk, TailsHeld, HandleAll, WellOrdered, MeaningOf, RunCalls, AllCalls, TailsOf, RunsOf, Distinct;
    FilesKeepInv(wr.cfg, files);
    OutcomeInv(wr.cfg, files);
    FlushKeepsInv(wr.cfg, wr.ClientState(), MeaningOf(wr.sent).fragments, wr.tails);
    assert wr.sent + [] == wr.sent;
    ghost var before, open := wr.sent, wr.currentFragment;
    wr.FlushFragment();
    SentOne(wr.cfg, before, Fragment(open));
  }
}
