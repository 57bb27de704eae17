/** What an archive holds is what its image shows, path by path: exactly when. */
module ArchiveRoundTrip {
  import opened SquashDefs
  import opened PathModel
  import opened PendingWrites
  import opened DataRoundTrip
  import opened Trees
  import opened Images
  import opened ImageRoundTrip
  import opened ImageSizes
  import opened Archives
  import opened ArchiveContents
  import opened EmptyNames
  import opened ArchiveOwners

  /** What the fields of the format can express, apart from owners and empty names. */
  ghost predicate ArchiveFits(cfg: Config, xs: seq<Member>)
    requires 0 < cfg.blockSize
  {
    && PayloadsFit(xs) && DataFits(xs) && StateAfter(xs).next <= 0x1_0000_0000
    && NamesFitBelow(StateAfter(xs).nodes, []) && ListingsFit(StateAfter(xs).nodes)
    && SizesFit(PackedArchive(cfg, xs))
  }

  /** For any archive the fields of the format can express: a reader of the image finds at every path
      what the last member to matter put there, with its data, and nothing at any other path, if
      and only if no live path has an empty component and the live nodes have at most 65535
      distinct owners. */
  lemma ArchiveReadsBackIff(cfg: Config, xs: seq<Member>, blockLog: U16, compression: U16, fuel: nat)
    requires ConfigOk(cfg) && ArchiveFits(cfg, xs) && Height(PackedArchive(cfg, xs).root) <= fuel
    ensures var read := ReadImage(cfg.comp, ImageOf(PackedArchive(cfg, xs), blockLog, compression), fuel);
            read.Some? && ImageShows(xs, read.value)
            <==> NoEmptyNames(StateAfter(xs).nodes) && |Owners(StateAfter(xs).nodes)| <= 0xffff
  {
    hide StateAfter, Grow, ContentOf, FilesOf, ImageOf, ReadImage, ListingsFit, Height, TreeFits, PayloadsFit,
      DataFits, SizesFit, ImageShows, NodesOk, FilesKnown, Distinct, NoEmptyName, NamesFitBelow, PackedFor,
      OwnersOf, LoadedIds, AllReach, AsRead, IsOwner, ReadsBack, Owners;
    var files, m, next := FilesOf(xs), StateAfter(xs).nodes, StateAfter(xs).next % 0x1_0000_0000;
    var p := PackedArchive(cfg, xs);
    var img := ImageOf(p, blockLog, compression);
    ContentShows(xs, next);
    ArchiveOwnersCounted(cfg, xs);
    if !NoEmptyNames(m) {
      var q :| q in m && !NoEmptyName(q);
      EmptyNameIsNeverShown(cfg.comp, img, fuel, xs, q);
    } else {
      var root := Grow(files, m, []);
      ArchiveTreeFits(xs);
      FilesAreDistinct(xs);
      PackedParts(cfg, files, root, next);
      WholeImageReadsBackIff(cfg, files, root, next, blockLog, compression, fuel);
      ImageReadsBack(cfg, files, root, next, blockLog, compression, fuel);
      if !OwnersFit(p) && ReadImage(cfg.comp, img, fuel).Some? && ImageShows(xs, ReadImage(cfg.comp, img, fuel).value) {
        OwnersWouldFit(xs, p);
      }
    }
  }

  lemma ArchiveOwnersCounted(cfg: Config, xs: seq<Member>)
    requires 0 < cfg.blockSize
    ensures OwnersFit(PackedArchive(cfg, xs)) <==> |Owners(StateAfter(xs).nodes)| <= 0xffff
  {
    hide StateAfter, Grow, FilesOf, PackedFor, OwnersOf, Rooted;
    StateIsRooted(xs);
    RootThere(StateAfter(xs).nodes);
    PackedParts(cfg, FilesOf(xs), Grow(FilesOf(xs), StateAfter(xs).nodes, []), StateAfter(xs).next % 0x1_0000_0000);
    OwnersCounted(FilesOf(xs), StateAfter(xs).nodes, PackedArchive(cfg, xs));
  }

  lemma ArchiveTreeFits(xs: seq<Member>)
    requires PayloadsFit(xs) && DataFits(xs) && StateAfter(xs).next <= 0x1_0000_0000
    requires NamesFitBelow(StateAfter(xs).nodes, []) && NoEmptyNames(StateAfter(xs).nodes)
    requires ListingsFit(StateAfter(xs).nodes)
    ensures [] in StateAfter(xs).nodes && TreeFits(FilesOf(xs), Grow(FilesOf(xs), StateAfter(xs).nodes, []))
  {
    hide StateAfter, Grow, FilesOf, ListingsFit, TreeFits, PayloadsFit, DataFits, NodesOk, FilesKnown, NoEmptyNames,
      NamesFitBelow, Rooted;
    StateIsRooted(xs);
    RootThere(StateAfter(xs).nodes);
    EveryNodeFits(xs);
    EveryFileKnown(xs);
    GrowFits(FilesOf(xs), StateAfter(xs).nodes, []);
  }

  /** With conditions on the archive alone: a small one with few enough owners and no empty name is
      shown by its image. */
  lemma SmallArchivesReadBack(cfg: Config, xs: seq<Member>, blockLog: U16, compression: U16, fuel: nat)
    requires ConfigOk(cfg) && PayloadsFit(xs) && DataFits(xs) && StateAfter(xs).next <= 0x1_0000_0000
    requires NamesFitBelow(StateAfter(xs).nodes, []) && ListingsFit(StateAfter(xs).nodes)
    requires NoEmptyNames(StateAfter(xs).nodes) && |Owners(StateAfter(xs).nodes)| <= 0xffff
    requires SmallEnough(cfg.blockSize, FilesOf(xs), ArchiveTree(xs)) && Height(ArchiveTree(xs)) <= fuel
    ensures var read := ReadImage(cfg.comp, ImageOf(PackedArchive(cfg, xs), blockLog, compression), fuel);
            read.Some? && ImageShows(xs, read.value)
  {
    hide StateAfter, ArchiveTree, FilesOf, ImageOf, ReadImage, ListingsFit, Height, TreeFits, PayloadsFit, DataFits,
      SizesFit, SmallEnough, ImageShows, Distinct, NoEmptyNames, NamesFitBelow, PackedFor, Owners;
    TreeOfArchive(xs);
    ArchiveTreeFits(xs);
    FilesAreDistinct(xs);
    PackedParts(cfg, FilesOf(xs), ArchiveTree(xs), StateAfter(xs).next % 0x1_0000_0000);
    SmallImagesFit(cfg, FilesOf(xs), ArchiveTree(xs), StateAfter(xs).next % 0x1_0000_0000);
    ArchiveReadsBackIff(cfg, xs, blockLog, compression, fuel);
  }

  lemma TreeOfArchive(xs: seq<Member>)
    ensures [] in StateAfter(xs).nodes && ArchiveTree(xs) == Grow(FilesOf(xs), StateAfter(xs).nodes, [])
  {
    hide StateAfter, Grow, FilesOf;
    StateIsRooted(xs);
  }
}
