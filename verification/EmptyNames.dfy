/** No reader finds an entry without a name, so an archive that leaves one is not shown by its image. */
module EmptyNames {
  import opened SquashDefs
  import opened Compressors
  import opened PathModel
  import opened PendingWrites
  import opened Metadata
  import opened Directories
  import opened Inodes
  import opened DataRoundTrip
  import opened Superblocks
  import opened Trees
  import opened Images
  import opened Archives
  import opened ArchiveContents

  /** No entry in or below the content has an empty name. */
  predicate Nameable(c: Content)
    decreases c
  {
    c.Folder? ==> KidsNameable(c.kids)
  }

  predicate KidsNameable(kids: seq<Named>)
    decreases kids
  {
    kids == [] || (kids[0].name != [] && Nameable(kids[0].content) && KidsNameable(kids[1..]))
  }

  lemma {:induction false} KidNameable(kids: seq<Named>, i: nat)
    requires KidsNameable(kids) && i < |kids|
    ensures kids[i].name != [] && Nameable(kids[i].content)
  {
    if i > 0 {
      KidNameable(kids[1..], i - 1);
    }
  }

  lemma {:induction false} LookupNames(c: Content, q: Path)
    requires Nameable(c) && Lookup(c, q).Some?
    ensures NoEmptyName(q)
    decreases |q|
  {
    if q != [] {
      var i := FindNamed(c.kids, q[0]).value;
      KidNameable(c.kids, i);
      LookupNames(c.kids[i].content, q[1..]);
      assert forall k :: 0 < k < |q| ==> q[k] == q[1..][k - 1];
    }
  }

  /** Whatever bytes a reader is given. */
  lemma {:induction false} NodesAreNameable(img: Image, fragments: seq<FragmentEntry>, at: Address, fuel: nat)
    requires 0 < img.blockSize && ReadNode(img, at, fuel).Some?
    ensures Nameable(Expand(img, fragments, ReadNode(img, at, fuel).value))
    decreases fuel, 0
  {
    hide ReadInode, ReadListing, Resolve, ReadKids, ExpandKids, KidsNameable, ReadFile;
    var head, raw := ReadInode(img.comp, img.blockSize, img.bytes, img.inodes + at.block, at.offset).value.0,
                     ReadInode(img.comp, img.blockSize, img.bytes, img.inodes + at.block, at.offset).value.1;
    if raw.RawDir? {
      var es := ReadListing(img, raw).value;
      ListingNames(img, raw);
      KidsAreNameable(img, fragments, es, fuel - 1);
    }
  }

  lemma ListingNames(img: Image, raw: Raw)
    requires raw.RawDir? && ReadListing(img, raw).Some?
    ensures forall e :: e in ReadListing(img, raw).value ==> e.name != []
  {
    hide ReadMeta, ParseListing;
    if raw.filesize > 3 {
      var b := ReadMeta(img.comp, img.bytes, img.dirs + raw.startBlock, raw.startOffset, raw.filesize - 3).value;
      ParsedNamesAreNonempty(b);
    }
  }

  lemma {:induction false} KidsAreNameable(img: Image, fragments: seq<FragmentEntry>, es: seq<Entry>, fuel: nat)
    requires 0 < img.blockSize && ReadKids(img, es, fuel).Some? && forall e :: e in es ==> e.name != []
    ensures KidsNameable(ExpandKids(img, fragments, ReadKids(img, es, fuel).value))
    decreases fuel, 1 + |es|
  {
    hide ReadNode, Expand, Nameable;
    if es != [] {
      NodesAreNameable(img, fragments, es[0].address, fuel);
      KidsAreNameable(img, fragments, es[1..], fuel);
      var kids := ReadKids(img, es, fuel).value;
      assert kids[1..] == ReadKids(img, es[1..], fuel).value;
      var all := ExpandKids(img, fragments, kids);
      assert all[1..] == ExpandKids(img, fragments, kids[1..]);
    }
  }

  /** No image shows an archive that leaves a path with an empty component. */
  lemma EmptyNameIsNeverShown(c: Compressor, img: Bytes, fuel: nat, xs: seq<Member>, p: Path)
    requires p in StateAfter(xs).nodes && !NoEmptyName(p)
    ensures var read := ReadImage(c, img, fuel); !(read.Some? && ImageShows(xs, read.value))
  {
    hide StateAfter, DecodeSuper, ReadIds, ReadFragments, ReadNode, Expand, Nameable, Lookup, SeenAs, NoEmptyName;
    var read := ReadImage(c, img, fuel);
    if read.Some? {
      ReadIsNameable(c, img, fuel);
      if Lookup(read.value, p).Some? {
        LookupNames(read.value, p);
      }
      assert !PathShows(xs, read.value, p);
    }
  }

  lemma ReadIsNameable(c: Compressor, img: Bytes, fuel: nat)
    requires ReadImage(c, img, fuel).Some?
    ensures Nameable(ReadImage(c, img, fuel).value)
  {
    hide DecodeSuper, ReadIds, ReadFragments, ReadNode, Expand, Nameable;
    var super := DecodeSuper(img).value;
    var ids := ReadIds(c, img, super.idTable, super.ids).value;
    var fragments := ReadFragments(c, img, super.fragmentTable, super.fragments).value;
    var image := Image(c, super.blockSize, img, super.inodeTable, super.directoryTable, ids);
    NodesAreNameable(image, fragments, super.root, fuel);
  }

  /** A regular file whose path ends in a slash is packed without complaint and lost to every
      reader: no path leads to it. */
  lemma TrailingSlashIsLost(c: Compressor, img: Bytes, fuel: nat, item: Item, pieces: seq<Bytes>)
    requires item.inodeType == TYPE_REG
    ensures var xs := [Member([0x64, SLASH], item, pieces)];
            var read := ReadImage(c, img, fuel);
            && [[0x64], []] in StateAfter(xs).nodes && NamesFitBelow(StateAfter(xs).nodes, [])
            && !(read.Some? && ImageShows(xs, read.value))
  {
    hide ReadImage, ImageShows;
    var x := Member([0x64, SLASH], item, pieces);
    var p: Path := [[0x64], []];
    SlashPath();
    OneMember([x]);
    assert StateAfter([]) == EMPTY_ROOT;
    RootAlone();
    PutFileExactly(EMPTY_ROOT, p, item);
    var m := StateAfter([x]).nodes;
    assert m == PutFile(EMPTY_ROOT, p, item).nodes;
    forall q | q in Under(m, [])
      ensures |Last(q)| <= 0xff
    {
      assert q <= p;
      assert q == p[..|q|] && Last(q) == p[|q| - 1];
    }
    assert p[1] == [];
    EmptyNameIsNeverShown(c, img, fuel, [x], p);
  }

  lemma SlashPath()
    ensures Target([0x64, SLASH]) == [[0x64], []]
  {
    var s: Bytes := [0x64, SLASH];
    assert Last(s) == SLASH;
    assert s[..1] == [0x64] && s[2..] == [];
    OneComponent([0x64]);
  }
}
