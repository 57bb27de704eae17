/** The image does not depend on how the two threads were scheduled. */
module Reproducibility {
  import opened SquashDefs
  import opened PendingWrites
  import opened Fragments
  import opened DataRoundTrip
  import opened BoundedQueue
  import opened TwoThreads
  import opened ScheduleIndependence
  import opened ThreadTermination
  import opened Trees
  import opened Images
  import opened ImageRoundTrip
  import opened Archives
  import opened ArchiveContents
  import opened ArchiveOwners
  import opened ArchiveRoundTrip

  /** What the main thread has to write tables from, after a complete run of both threads. */
  function PackedAfter(cfg: Config, files: seq<FileData>, bound: nat, schedule: seq<Actor>, root: Node,
                       next: U32): (p: Packed)
    requires 0 < cfg.blockSize
    ensures FileOk(p.w)
  {
    var s := Exec(cfg, Start(AllCalls(cfg, files), bound), schedule);
    Packed(cfg, s.client, s.w, root, next)
  }

  predicate Complete(cfg: Config, files: seq<FileData>, bound: nat, schedule: seq<Actor>)
    requires 0 < cfg.blockSize
  {
    Exec(cfg, Start(AllCalls(cfg, files), bound), schedule).pc == Done
  }

  /** Any two complete runs, under any schedules and queue bounds, give the same image byte for
      byte: the one a single thread gives. */
  lemma ImageIsReproducible(cfg: Config, files: seq<FileData>, root: Node, next: U32, blockLog: U16, compression: U16,
                            bound1: nat, schedule1: seq<Actor>, bound2: nat, schedule2: seq<Actor>)
    requires ConfigOk(cfg) && Distinct(files) && 0 < bound1 && 0 < bound2
    requires Complete(cfg, files, bound1, schedule1) && Complete(cfg, files, bound2, schedule2)
    ensures ImageOf(PackedAfter(cfg, files, bound1, schedule1, root, next), blockLog, compression)
         == ImageOf(PackedAfter(cfg, files, bound2, schedule2, root, next), blockLog, compression)
    ensures PackedAfter(cfg, files, bound1, schedule1, root, next)
         == Packed(cfg, Outcome(cfg, files).client, HandleAll(cfg, Outcome(cfg, files).sent), root, next)
  {
    hide Exec, AllCalls, Outcome, HandleAll, ImageOf;
    ScheduleDoesNotMatter(cfg, files, bound1, schedule1);
    ScheduleDoesNotMatter(cfg, files, bound2, schedule2);
  }

  /** After any complete run of the two threads the image reads back, exactly when the owners can
      be counted. */
  lemma EveryScheduleReadsBack(cfg: Config, files: seq<FileData>, root: Node, next: U32, blockLog: U16,
                               compression: U16, bound: nat, schedule: seq<Actor>, fuel: nat)
    requires ConfigOk(cfg) && Distinct(files) && 0 < bound && Complete(cfg, files, bound, schedule)
    requires TreeFits(files, root) && Height(root) <= fuel
    requires SizesFit(PackedAfter(cfg, files, bound, schedule, root, next))
    ensures var p := PackedAfter(cfg, files, bound, schedule, root, next);
            ReadImage(cfg.comp, ImageOf(p, blockLog, compression), fuel) == Some(ContentOf(files, root, next))
            <==> OwnersFit(p)
  {
    hide Exec, AllCalls, Outcome, HandleAll, ImageOf, TreeFits, SizesFit, ReadImage, ContentOf, Height, PackedAfter,
      OwnersOf;
    ImageIsReproducible(cfg, files, root, next, blockLog, compression, bound, schedule, bound, schedule);
    WholeImageReadsBackIff(cfg, files, root, next, blockLog, compression, fuel);
  }

  /** The two-thread run of an archive: whatever the schedule, what is packed is what one thread
      packs, so its image shows the archive exactly when one thread's image does. */
  lemma ArchiveUnderAnySchedule(cfg: Config, xs: seq<Member>, blockLog: U16, compression: U16,
                                bound: nat, schedule: seq<Actor>, fuel: nat)
    requires ConfigOk(cfg) && ArchiveFits(cfg, xs) && Height(PackedArchive(cfg, xs).root) <= fuel
    requires 0 < bound && Complete(cfg, FilesOf(xs), bound, schedule)
    ensures var s := StateAfter(xs);
            var p := PackedAfter(cfg, FilesOf(xs), bound, schedule, ArchiveTree(xs), s.next % 0x1_0000_0000);
            var read := ReadImage(cfg.comp, ImageOf(p, blockLog, compression), fuel);
            && p == PackedArchive(cfg, xs)
            && (read.Some? && ImageShows(xs, read.value) <==> NoEmptyNames(s.nodes) && |Owners(s.nodes)| <= 0xffff)
  {
    hide Exec, AllCalls, Outcome, HandleAll, ImageOf, SizesFit, ReadImage, Height, PackedAfter, StateAfter, FilesOf,
      ArchiveTree, Complete, ImageShows, NoEmptyNames, Owners, PayloadsFit, DataFits, NamesFitBelow, ListingsFit;
    var s := StateAfter(xs);
    FilesAreDistinct(xs);
    ImageIsReproducible(cfg, FilesOf(xs), ArchiveTree(xs), s.next % 0x1_0000_0000, blockLog, compression,
                        bound, schedule, bound, schedule);
    ArchiveReadsBackIff(cfg, xs, blockLog, compression, fuel);
  }

  /** In every reachable state no thread sleeps although what it waits for holds: neither end
      of the queue, nor the client waiting for a fragment's entry. */
  lemma NobodyOversleeps(cfg: Config, files: seq<FileData>, bound: nat, schedule: seq<Actor>)
    requires ConfigOk(cfg) && Distinct(files) && 0 < bound
    ensures var s := Exec(cfg, Start(AllCalls(cfg, files), bound), schedule);
            && NoLostWakeup(s.queue)
            && (s.fragmentSleep ==> AwaitsFragment(s))
            && (s.pc != Done ==> ClientCanRun(s) || WriterCanRun(s))
  {
    hide AllCalls, RunCalls, Exec, WellOrdered, MeaningOf, ClientInv, HandleAll, NoLostWakeup, AwaitsFragment, EndsAt,
      ClientOk, WriterOk, ClientCanRun, WriterCanRun, EndOk, NothingLost;
    EndOkHolds(cfg, files, bound, schedule);
    var s := Exec(cfg, Start(AllCalls(cfg, files), bound), schedule);
    if s.pc != Done {
      SomeoneCanRun(cfg, Alone(cfg, AllCalls(cfg, files)), s);
    }
  }
}
