/** What a reader of an archive's image should find at every path, and that the tree written says so. */
module ArchiveContents {
  import opened SquashDefs
  import opened Chunking
  import opened PathModel
  import opened PendingWrites
  import opened DataRoundTrip
  import opened Trees
  import opened TreeRoundTrip
  import opened Images
  import opened ImageRoundTrip
  import opened Archives

  // ---- The files and their numbers ----

  /** While numbers last, no two files have the same one. */
  lemma {:induction false} FilesAreDistinct(xs: seq<Member>)
    requires StateAfter(xs).next <= 0x1_0000_0000
    ensures Distinct(FilesOf(xs))
    ensures forall i :: 0 <= i < |FilesOf(xs)| ==> FilesOf(xs)[i].inode < StateAfter(xs).next
  {
    hide StateAfter, Apply, ArrivalsOf;
    if xs != [] {
      OneMember(xs);
      MemberCounts(StateAfter(Init(xs)), Last(xs));
      FilesAreDistinct(Init(xs));
    }
  }

  lemma MemberCounts(s: PathState, x: Member)
    ensures s.next <= Apply(s, ArrivalOf(x)).next
    ensures IsFile(x) ==> s.next < Apply(s, ArrivalOf(x)).next
  {
    hide EnsureDirs, PutAt, Components, Target;
    ApplyGrows(s, ArrivalOf(x));
    TargetNonempty(x.pathname);
    EnsureDirsGrows(s.(next := s.next + 1), Init(Target(x.pathname)));
  }

  lemma {:induction false} FindFileFinds(files: seq<FileData>, i: nat)
    requires Distinct(files) && i < |files|
    ensures FindFile(files, files[i].inode) == Some(i)
    decreases |files|
  {
    if i < |files| - 1 {
      assert Init(files)[i] == files[i];
      FindFileFinds(Init(files), i);
    }
  }

  /** The file of member `k` is there under the number its node was given. */
  lemma {:induction false} FileIsThere(xs: seq<Member>, k: nat) returns (i: nat)
    requires k < |xs| && IsFile(xs[k])
    ensures i < |FilesOf(xs)|
    ensures FilesOf(xs)[i] == FileData(StateAfter(xs[..k]).next % 0x1_0000_0000, Flat(xs[k].pieces))
    decreases |xs|
  {
    hide StateAfter, Flat;
    if k == |xs| - 1 {
      assert xs[..k] == Init(xs);
      i := |FilesOf(Init(xs))|;
    } else {
      assert xs[..k] == Init(xs)[..k] && xs[k] == Init(xs)[k];
      i := FileIsThere(Init(xs), k);
    }
  }

  lemma FileFound(xs: seq<Member>, k: nat)
    requires k < |xs| && IsFile(xs[k]) && StateAfter(xs).next <= 0x1_0000_0000
    ensures var f := FindFile(FilesOf(xs), StateAfter(xs[..k]).next % 0x1_0000_0000);
            f.Some? && FilesOf(xs)[f.value].data == Flat(xs[k].pieces)
  {
    hide StateAfter, Flat, FindFile;
    FilesAreDistinct(xs);
    var i := FileIsThere(xs, k);
    FindFileFinds(FilesOf(xs), i);
  }

  // ---- Members the program and the format take ----

  predicate PayloadFits(inodeType: U16, payload: Payload) {
    if inodeType == TYPE_SYM then payload.LinkTo? && |payload.target| < 0x1_0000_0000
    else if inodeType == TYPE_BLK || inodeType == TYPE_CHR then payload.DeviceNumber?
    else if inodeType == TYPE_PIPE || inodeType == TYPE_SOCK then payload.Plain?
    else inodeType == TYPE_DIR || inodeType == TYPE_REG
  }

  /** No path of a file ends in a slash. */
  predicate MemberOk(x: Member) {
    x.item.inodeType != TYPE_DIR ==> x.pathname != [] && Last(x.pathname) != SLASH
  }

  predicate MembersOk(xs: seq<Member>) {
    forall k :: 0 <= k < |xs| ==> MemberOk(xs[k])
  }

  predicate NamesOk(p: Path) {
    forall i :: 0 <= i < |p| ==> 0 < |p[i]| <= 0xff
  }

  lemma {:induction false} ComponentsNonempty(s: Bytes)
    ensures forall c :: c in Components(s) ==> c != []
    decreases |s|
  {
    hide FirstSlash;
    if s != [] {
      var i := FirstSlash(s);
      if i < |s| {
        ComponentsNonempty(s[i + 1..]);
      }
    }
  }

  /** Where a member goes. */
  lemma PlaceOk(x: Member)
    requires MemberOk(x)
    ensures NoEmptyName(Components(x.pathname))
    ensures x.item.inodeType != TYPE_DIR ==> Target(x.pathname) == Components(x.pathname)
  {
    hide Components, Target;
    ComponentsNonempty(x.pathname);
    TargetIff(x.pathname);
    var p := Components(x.pathname);
    assert forall i :: 0 <= i < |p| ==> p[i] in p;
  }

  /** Every path is an old one or leads to the member. */
  lemma MemberPlaces(s: PathState, x: Member, p: Path)
    requires Rooted(s.nodes) && NoEmptyNames(s.nodes) && MemberOk(x) && p in Apply(s, ArrivalOf(x)).nodes
    ensures NoEmptyName(p)
  {
    hide MemberOk, Components, Target, PutFile, PutDir, Rooted;
    PlaceOk(x);
    var at := Components(x.pathname);
    if x.item.inodeType == TYPE_DIR {
      PutDirExactly(s, at, x.item);
    } else {
      TargetNonempty(x.pathname);
      PutFileExactly(s, at, x.item);
    }
    assert p in s.nodes || p <= at;
  }

  /** If no file's path ends in a slash, no live path has an empty component. */
  lemma {:induction false} EveryNameGiven(xs: seq<Member>)
    requires MembersOk(xs)
    ensures NoEmptyNames(StateAfter(xs).nodes)
    decreases |xs|
  {
    hide StateAfter, Apply, MemberOk, Rooted, NoEmptyName;
    if xs == [] {
      RootName();
    } else {
      EveryNameGiven(Init(xs));
      OneMember(xs);
      StateIsRooted(Init(xs));
      forall p | p in StateAfter(xs).nodes
        ensures NoEmptyName(p)
      {
        MemberPlaces(StateAfter(Init(xs)), Last(xs), p);
      }
    }
  }

  lemma RootName()
    ensures NoEmptyNames(StateAfter([]).nodes)
  {
  }

  predicate PayloadsFit(xs: seq<Member>) {
    forall k :: 0 <= k < |xs| ==> PayloadFits(xs[k].item.inodeType, xs[k].item.payload)
  }

  /** Kinds and payloads agree in every node if they do in every member. */
  lemma EveryPayloadFits(xs: seq<Member>, p: Path)
    requires PayloadsFit(xs) && p in StateAfter(xs).nodes
    ensures PayloadFits(StateAfter(xs).nodes[p].inodeType, StateAfter(xs).nodes[p].payload)
  {
    hide StateAfter, From;
    if !IsDir(StateAfter(xs).nodes, p) {
      var k := LastPutWins(xs, p);
      FromFacts(xs, k, p);
    }
  }

  ghost predicate NodesOk(m: Model) {
    forall p :: p in m ==> NamesOk(p) && PayloadFits(m[p].inodeType, m[p].payload)
  }

  /** In a rooted tree the last components of all paths are all the components there are. */
  lemma ComponentsAreNames(m: Model, p: Path)
    requires Rooted(m) && p in m && NamesFitBelow(m, []) && NoEmptyNames(m)
    ensures NamesOk(p)
  {
    hide Rooted;
    forall i | 0 <= i < |p|
      ensures 0 < |p[i]| <= 0xff
    {
      AncestorsIn(m, p[..i + 1], p);
      assert p[..i + 1] in Under(m, []) && Last(p[..i + 1]) == p[i];
    }
  }

  lemma EveryNodeFits(xs: seq<Member>)
    requires PayloadsFit(xs) && NamesFitBelow(StateAfter(xs).nodes, []) && NoEmptyNames(StateAfter(xs).nodes)
    ensures NodesOk(StateAfter(xs).nodes)
  {
    hide StateAfter, NamesOk, PayloadFits, Rooted, NamesFitBelow, NoEmptyNames;
    var m := StateAfter(xs).nodes;
    StateIsRooted(xs);
    forall p | p in m
      ensures NamesOk(p) && PayloadFits(m[p].inodeType, m[p].payload)
    {
      EveryPayloadFits(xs, p);
      ComponentsAreNames(m, p);
    }
  }

  // ---- The tree fits the format ----

  ghost predicate FilesKnown(files: seq<FileData>, m: Model) {
    forall p :: p in m && m[p].inodeType == TYPE_REG ==> KnownFile(files, m[p].number)
  }

  predicate KnownFile(files: seq<FileData>, number: nat) {
    var i := FindFile(files, number);
    i.Some? && |files[i.value].data| < 0x1_0000_0000_0000_0000
  }

  lemma {:induction false} GrowFits(files: seq<FileData>, m: Model, p: Path)
    requires NodesOk(m) && FilesKnown(files, m) && ListingsFit(m) && p in m
    ensures TreeFits(files, Grow(files, m, p))
    decreases Under(m, p), 1, 0
  {
    hide NamesOk, FindFile, NodesOk, FilesKnown, Sorted, NamesAt;
    if m[p].inodeType == TYPE_DIR {
      assert IsDir(m, p);
      NamesLead(m, p);
      SortedSorts(NamesAt(m, p));
      KidsGrowFit(files, m, p, Sorted(NamesAt(m, p)));
    } else {
      LeafFits(files, m, p);
    }
  }

  lemma LeafFits(files: seq<FileData>, m: Model, p: Path)
    requires NodesOk(m) && FilesKnown(files, m) && p in m && m[p].inodeType != TYPE_DIR
    ensures TreeFits(files, Grow(files, m, p))
  {
    hide NamesOk, FindFile;
    if m[p].inodeType == TYPE_REG {
      assert KnownFile(files, m[p].number);
    }
  }

  lemma {:induction false} KidsGrowFit(files: seq<FileData>, m: Model, p: Path, names: seq<Bytes>)
    requires NodesOk(m) && FilesKnown(files, m) && ListingsFit(m)
    requires forall n :: n in names ==> p + [n] in m
    ensures KidsFit(files, GrowKids(files, m, p, names))
    ensures ListingBound(GrowKids(files, m, p, names)) == ListingSize(names)
    decreases Under(m, p), 0, |names|
  {
    hide FindFile, ListingsFit, FilesKnown, TreeFits, Grow;
    if names != [] {
      BelowShrinks(m, p, names[0]);
      GrowFits(files, m, p + [names[0]]);
      KidsGrowFit(files, m, p, names[1..]);
      LastNameFits(m, p, names[0]);
    }
  }

  lemma LastNameFits(m: Model, p: Path, n: Bytes)
    requires NodesOk(m) && p + [n] in m
    ensures 0 < |n| <= 0xff
  {
    assert (p + [n])[|p|] == n;
  }

  // ---- Looking a path up ----

  function FindNamed(kids: seq<Named>, name: Bytes): (r: Option<nat>)
    ensures r.Some? ==> r.value < |kids| && kids[r.value].name == name
  {
    if kids == [] then None
    else if kids[0].name == name then Some(0)
    else
      match FindNamed(kids[1..], name)
      case Some(i) => Some(i + 1)
      case None => None
  }

  /** Following names from a node down. */
  function Lookup(c: Content, q: Path): Option<Content>
    decreases |q|
  {
    if q == [] then Some(c)
    else if !c.Folder? then None
    else
      match FindNamed(c.kids, q[0])
      case Some(i) => Lookup(c.kids[i].content, q[1..])
      case None => None
  }

  lemma {:induction false} KidFound(files: seq<FileData>, m: Model, p: Path, names: seq<Bytes>, parent: U32,
                                    name: Bytes)
    requires forall n :: n in names ==> p + [n] in m
    ensures var kids := ContentOfKids(files, GrowKids(files, m, p, names), parent);
            match FindNamed(kids, name)
            case Some(i) => name in names && kids[i].content == ContentOf(files, Grow(files, m, p + [name]), parent)
            case None => name !in names
    decreases |names|
  {
    hide ContentOf, Grow;
    if names != [] {
      KidFound(files, m, p, names[1..], parent, name);
      var kids := ContentOfKids(files, GrowKids(files, m, p, names), parent);
      var more := GrowKids(files, m, p, names[1..]);
      assert GrowKids(files, m, p, names)[1..] == more;
      assert kids[1..] == ContentOfKids(files, more, parent);
    }
  }

  lemma {:induction false} AncestorsIn(m: Model, r: Path, s: Path)
    requires Rooted(m) && s in m && r <= s
    ensures r in m
    decreases |s|
  {
    if r != s {
      PrefixOfInit(r, s);
      AncestorsIn(m, r, Init(s));
    }
  }

  /** The number of the directory a looked-up node is in; the one given for the start itself. */
  function ParentNumber(m: Model, p: Path, q: Path, parent: U32): U32 {
    if q != [] && p + Init(q) in m then m[p + Init(q)].number else parent
  }

  /** Looking up a path in what is seen finds exactly the model's node at that path. */
  lemma {:induction false} LookupFinds(files: seq<FileData>, m: Model, p: Path, q: Path, parent: U32)
    requires Rooted(m) && p in m
    ensures Lookup(ContentOf(files, Grow(files, m, p), parent), q)
         == if p + q in m then Some(ContentOf(files, Grow(files, m, p + q), ParentNumber(m, p, q, parent))) else None
    decreases |q|
  {
    hide Rooted, FindNamed, Sorted, NamesAt;
    if q == [] {
      assert p + q == p;
    } else if m[p].inodeType != TYPE_DIR {
      NothingUnderFiles(m, p, p + q);
      LeafIsNoFolder(files, m, p, parent);
    } else {
      var name, child := q[0], p + [q[0]];
      NamesLead(m, p);
      SortedSorts(NamesAt(m, p));
      KidFound(files, m, p, Sorted(NamesAt(m, p)), m[p].number, name);
      assert child + q[1..] == p + q;
      if child in m {
        LookupFinds(files, m, child, q[1..], m[p].number);
        if p + q in m {
          SameParent(m, p, q, parent);
        }
      } else if p + q in m {
        AncestorsIn(m, child, p + q);
      }
    }
  }

  lemma LeafIsNoFolder(files: seq<FileData>, m: Model, p: Path, parent: U32)
    requires p in m && m[p].inodeType != TYPE_DIR
    ensures !ContentOf(files, Grow(files, m, p), parent).Folder?
  {
  }

  lemma SameParent(m: Model, p: Path, q: Path, parent: U32)
    requires Rooted(m) && q != [] && p in m && p + q in m
    ensures ParentNumber(m, p + [q[0]], q[1..], m[p].number) == ParentNumber(m, p, q, parent)
  {
    InitOfSum(p, q);
    if q[1..] == [] {
      assert p + Init(q) == p;
    } else {
      InitOfSum([q[0]], q[1..]);
      assert q == [q[0]] + q[1..];
      assert p + [q[0]] + Init(q[1..]) == p + Init(q);
    }
  }

  lemma InitOfSum(p: Path, q: Path)
    requires q != []
    ensures Init(p + q) == p + Init(q)
  {
  }

  // ---- What a reader sees at a path ----

  /** The directories right below `p`. */
  ghost function SubdirsAt(m: Model, p: Path): set<Path> {
    set q | q in m && q != [] && Init(q) == p && m[q].inodeType == TYPE_DIR
  }

  /** A node as the archive described it; `data` matters for a regular file only, `subdirs` for a
      directory: its link count is theirs and two more. There are no attributes. */
  predicate Shows(i: Info, data: Bytes, parent: U32, subdirs: nat, c: Content) {
    && c.meta.mode == i.mode && c.meta.uid == i.uid && c.meta.gid == i.gid && c.meta.mtime == i.mtime
    && c.meta.number == i.number && c.meta.xattr == 0xffff_ffff
    && c.meta.nlink == (if i.inodeType == TYPE_DIR then (2 + subdirs) % 0x1_0000_0000 else 1)
    && if i.inodeType == TYPE_DIR then c.Folder? && c.parent == parent
       else if i.inodeType == TYPE_REG then c.File? && c.data == data
       else
         && c.Special?
         && (i.inodeType == TYPE_SYM ==> i.payload.LinkTo? && c.body == Sym(i.payload.target))
         && (i.inodeType == TYPE_BLK || i.inodeType == TYPE_CHR ==>
              i.payload.DeviceNumber? && c.body == Dev(i.inodeType, i.payload.rdev))
         && (i.inodeType == TYPE_PIPE || i.inodeType == TYPE_SOCK ==> c.body == Ipc(i.inodeType))
  }

  /** The data of the member that put the node at `p`. */
  ghost predicate HasData(xs: seq<Member>, p: Path, data: Bytes) {
    exists k: nat :: From(xs, k, p) && data == Flat(xs[k].pieces)
  }

  /** Those of the directories right below `p` whose names are given. */
  ghost function SubdirsNamed(m: Model, p: Path, names: set<Bytes>): set<Path> {
    set q | q in SubdirsAt(m, p) && Last(q) in names
  }

  lemma {:induction false} KidsLinks(files: seq<FileData>, m: Model, p: Path, names: set<Bytes>)
    requires forall n :: n in names ==> p + [n] in m
    ensures forall n :: n in Sorted(names) ==> p + [n] in m
    ensures CountDirKids(GrowKids(files, m, p, Sorted(names))) == |SubdirsNamed(m, p, names)|
    decreases |names|
  {
    hide Less, SubdirsNamed, GrowKids, Grow, CountDirKids, IsLeast;
    SortedSorts(names);
    if names == {} {
      NoneNamed(m, p);
      NoLinks(files, m, p);
    } else {
      var x := Least(names);
      KidsLinks(files, m, p, names - {x});
      OneMoreNamed(m, p, names, x);
      OneMoreLink(files, m, p, x, Sorted(names - {x}));
    }
  }

  lemma NoLinks(files: seq<FileData>, m: Model, p: Path)
    ensures CountDirKids(GrowKids(files, m, p, [])) == 0
  {
  }

  lemma OneMoreLink(files: seq<FileData>, m: Model, p: Path, x: Bytes, rest: seq<Bytes>)
    requires p + [x] in m && forall n :: n in rest ==> p + [n] in m
    ensures CountDirKids(GrowKids(files, m, p, [x] + rest))
         == CountDirKids(GrowKids(files, m, p, rest)) + if m[p + [x]].inodeType == TYPE_DIR then 1 else 0
  {
    var names := [x] + rest;
    assert names[1..] == rest;
    var kids := GrowKids(files, m, p, names);
    assert kids[0] == Kid(x, Grow(files, m, p + [x])) && kids[1..] == GrowKids(files, m, p, rest);
  }

  lemma NoneNamed(m: Model, p: Path)
    ensures SubdirsNamed(m, p, {}) == {}
  {
  }

  lemma OneMoreNamed(m: Model, p: Path, names: set<Bytes>, x: Bytes)
    requires x in names && p + [x] in m
    ensures |SubdirsNamed(m, p, names)|
         == |SubdirsNamed(m, p, names - {x})| + if m[p + [x]].inodeType == TYPE_DIR then 1 else 0
  {
    var all, rest := SubdirsNamed(m, p, names), SubdirsNamed(m, p, names - {x});
    assert Init(p + [x]) == p && Last(p + [x]) == x;
    forall q | q in all && Last(q) == x
      ensures q == p + [x]
    {
      assert q == Init(q) + [Last(q)];
    }
    if m[p + [x]].inodeType == TYPE_DIR {
      assert all == rest + {p + [x]};
    } else {
      assert all == rest;
    }
  }

  lemma DirLinks(files: seq<FileData>, m: Model, p: Path)
    requires p in m && m[p].inodeType == TYPE_DIR
    ensures Grow(files, m, p).body.Dir?
    ensures CountDirKids(Grow(files, m, p).body.kids) == |SubdirsAt(m, p)|
  {
    hide Sorted, GrowKids, CountDirKids, SubdirsAt;
    NamesLead(m, p);
    KidsLinks(files, m, p, NamesAt(m, p));
    AllNamed(m, p);
  }

  lemma AllNamed(m: Model, p: Path)
    ensures SubdirsNamed(m, p, NamesAt(m, p)) == SubdirsAt(m, p)
  {
  }

  /** As the model says, a regular file with the data it was put with. */
  ghost predicate SeenAs(xs: seq<Member>, p: Path, i: Info, data: Bytes, parent: U32, c: Content) {
    && Shows(i, data, parent, |SubdirsAt(StateAfter(xs).nodes, p)|, c)
    && (i.inodeType == TYPE_REG ==> HasData(xs, p, data))
  }

  lemma NodeShows(xs: seq<Member>, p: Path, parent: U32) returns (data: Bytes)
    requires PayloadsFit(xs) && StateAfter(xs).next <= 0x1_0000_0000 && p in StateAfter(xs).nodes
    ensures var m := StateAfter(xs).nodes;
            var c := ContentOf(FilesOf(xs), Grow(FilesOf(xs), m, p), parent);
            SeenAs(xs, p, m[p], data, parent, c)
  {
    hide StateAfter, PayloadsFit, FindFile, GrowKids, ContentOfKids, Sorted, NamesAt, From, Flat, CountDirKids,
      SubdirsAt;
    var m := StateAfter(xs).nodes;
    EveryPayloadFits(xs, p);
    if m[p].inodeType == TYPE_DIR {
      DirLinks(FilesOf(xs), m, p);
    }
    if m[p].inodeType == TYPE_REG {
      var k := LastPutWins(xs, p);
      FromFacts(xs, k, p);
      FileFound(xs, k);
      DataIs(xs, k, p);
      data := Flat(xs[k].pieces);
    } else {
      data := [];
    }
  }

  lemma FromFacts(xs: seq<Member>, k: nat, p: Path)
    requires From(xs, k, p)
    ensures p in StateAfter(xs).nodes && k < |xs|
    ensures StateAfter(xs).nodes[p] == Numbered(xs[k].item, StateAfter(xs[..k]).next)
  {
    hide StateAfter;
  }

  lemma DataIs(xs: seq<Member>, k: nat, p: Path)
    requires From(xs, k, p)
    ensures k < |xs| && HasData(xs, p, Flat(xs[k].pieces))
  {
    hide StateAfter;
  }

  /** File sizes are 64 bits wide. */
  predicate DataFits(xs: seq<Member>) {
    forall k :: 0 <= k < |xs| ==> |Flat(xs[k].pieces)| < 0x1_0000_0000_0000_0000
  }

  lemma EveryFileKnown(xs: seq<Member>)
    requires DataFits(xs) && StateAfter(xs).next <= 0x1_0000_0000
    ensures FilesKnown(FilesOf(xs), StateAfter(xs).nodes)
  {
    hide StateAfter, FindFile, From, Flat, FilesOf;
    var m := StateAfter(xs).nodes;
    forall p | p in m && m[p].inodeType == TYPE_REG
      ensures KnownFile(FilesOf(xs), m[p].number)
    {
      var k := LastPutWins(xs, p);
      FromFacts(xs, k, p);
      FileFound(xs, k);
    }
  }

  /** The tree of all members, as it is written. */
  ghost function ArchiveTree(xs: seq<Member>): Node {
    StateIsRooted(xs);
    Grow(FilesOf(xs), StateAfter(xs).nodes, [])
  }

  /** What the main thread holds when all members are in. */
  ghost function PackedArchive(cfg: Config, xs: seq<Member>): (p: Packed)
    requires 0 < cfg.blockSize
    ensures FileOk(p.w)
  {
    PackedFor(cfg, FilesOf(xs), ArchiveTree(xs), StateAfter(xs).next % 0x1_0000_0000)
  }

  /** A reader of the image, asked for any path, finds exactly what the archive left there. */
  ghost predicate ImageShows(xs: seq<Member>, content: Content) {
    forall q: Path :: PathShows(xs, content, q)
  }

  /** The node's own number, owners and so on; a directory also names the number of the one it is
      in, the root the next free number. */
  ghost predicate PathShows(xs: seq<Member>, content: Content, q: Path) {
    var m := StateAfter(xs).nodes;
    var parent := ParentNumber(m, [], q, StateAfter(xs).next % 0x1_0000_0000);
    && (Lookup(content, q).Some? <==> q in m)
    && (q in m ==> exists data :: SeenAs(xs, q, m[q], data, parent, Lookup(content, q).value))
  }

  lemma ContentShows(xs: seq<Member>, parent: U32)
    requires PayloadsFit(xs) && StateAfter(xs).next <= 0x1_0000_0000 && parent == StateAfter(xs).next % 0x1_0000_0000
    ensures [] in StateAfter(xs).nodes
    ensures ImageShows(xs, ContentOf(FilesOf(xs), Grow(FilesOf(xs), StateAfter(xs).nodes, []), parent))
  {
    hide StateAfter, PayloadsFit, Grow, ContentOf, Lookup, Rooted, SeenAs, FilesOf, IsDir;
    var files, m := FilesOf(xs), StateAfter(xs).nodes;
    StateIsRooted(xs);
    RootThere(m);
    var content := ContentOf(files, Grow(files, m, []), parent);
    forall q: Path
      ensures PathShows(xs, content, q)
    {
      assert [] + q == q;
      LookupFinds(files, m, [], q, parent);
      if q in m {
        var data := NodeShows(xs, q, ParentNumber(m, [], q, parent));
      }
    }
  }

  lemma RootThere(m: Model)
    requires Rooted(m)
    ensures [] in m
  {
  }
}
