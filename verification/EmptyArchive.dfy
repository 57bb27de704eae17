/** The smallest archive meets every condition of the main theorem: its image shows the root
    directory and nothing else. */
module EmptyArchive {
  import opened SquashDefs
  import opened PathModel
  import opened PendingWrites
  import opened Trees
  import opened Images
  import opened ImageRoundTrip
  import opened ImageSizes
  import opened Archives
  import opened ArchiveContents
  import opened ArchiveOwners
  import opened ArchiveRoundTrip

  lemma NoEntries(m: Model)
    requires m == map[[] := Numbered(MADE_DIR, 1)]
    ensures NamesAt(m, []) == {} && Grow([], m, []) == Node(MetaOf(Numbered(MADE_DIR, 1)), Dir([]))
  {
  }

  lemma RootOnly()
    ensures StateAfter([]).nodes == map[[] := Numbered(MADE_DIR, 1)] && StateAfter([]).next == 2
    ensures ArchiveTree([]) == Node(MetaOf(Numbered(MADE_DIR, 1)), Dir([]))
  {
    NoEntries(StateAfter([]).nodes);
    assert FilesOf([]) == [];
  }

  /** Nothing to store and the root alone. */
  lemma EmptyIsSmall(blockSize: nat)
    requires 0 < blockSize
    ensures SmallEnough(blockSize, FilesOf([]), ArchiveTree([])) && Height(ArchiveTree([])) == 1
  {
    hide ArchiveTree, StateAfter;
    RootOnly();
    assert DataBytes(FilesOf([])) == 0;
  }

  /** An empty listing and one owner. */
  lemma EmptyListingFits(m: Model)
    requires m == map[[] := Numbered(MADE_DIR, 1)]
    ensures NamesFitBelow(m, []) && ListingsFit(m) && NoEmptyNames(m) && |Owners(m)| <= 0xffff
  {
    NoEntries(m);
    assert [] in m && m[[]].uid == 0 && m[[]].gid == 0;
    assert Owners(m) == {0};
  }

  /** The image of the empty archive: the root is there, and no other path is. */
  lemma EmptyArchiveShowsRoot(cfg: Config, blockLog: U16, compression: U16)
    requires ConfigOk(cfg)
    ensures var read := ReadImage(cfg.comp, ImageOf(PackedArchive(cfg, []), blockLog, compression), 1);
            && read.Some? && read.value.Folder? && read.value.meta.number == 1
            && forall q :: Lookup(read.value, q).Some? <==> q == []
  {
    hide PackedArchive, ImageOf, ReadImage, Height, StateAfter, NoEmptyNames, Owners, ArchiveTree, SmallEnough,
      ListingsFit, NamesFitBelow;
    RootOnly();
    EmptyIsSmall(cfg.blockSize);
    EmptyListingFits(StateAfter([]).nodes);
    SmallArchivesReadBack(cfg, [], blockLog, compression, 1);
    var read := ReadImage(cfg.comp, ImageOf(PackedArchive(cfg, []), blockLog, compression), 1);
    forall q
      ensures Lookup(read.value, q).Some? <==> q == []
    {
      assert PathShows([], read.value, q);
    }
    assert PathShows([], read.value, []);
  }
}
