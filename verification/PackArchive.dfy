/** The whole program on one thread: the members of an archive go into the tree and the file
    pipeline one after the other, then the tree is walked and the image finished. */
module ArchivePacker {
  import opened SquashDefs
  import opened Chunking
  import opened Compressors
  import opened PathModel
  import opened PathTrees
  import opened PendingWrites
  import opened Fragments
  import opened Metadata
  import opened Directories
  import opened Inodes
  import opened DataRoundTrip
  import opened Trees
  import opened TreeWriters
  import opened Images
  import opened ImageRoundTrip
  import opened Archives
  import opened ArchiveContents
  import opened ArchiveOwners
  import opened ArchiveRoundTrip
  import opened SqshWriters
  import opened PackFiles
  import opened PackImages

  method FindLeast(names: set<Bytes>) returns (x: Bytes)
    requires names != {}
    ensures x == Least(names)
  {
    hide Less;
    x :| x in names;
    var rest := names - {x};
    while rest != {}
      invariant rest <= names && x in names && x !in rest
      invariant forall y :: y in names - rest && y != x ==> Less(x, y)
      decreases rest
    {
      var y :| y in rest;
      LessTotal(x, y);
      if Less(y, x) {
        Undercut(names - rest, x, y);
        x := y;
      }
      rest := rest - {y};
    }
    LeastIsUnique(names, x);
  }

  lemma Undercut(seen: set<Bytes>, x: Bytes, y: Bytes)
    requires Less(y, x) && forall z :: z in seen && z != x ==> Less(x, z)
    ensures forall z :: z in seen ==> Less(y, z)
  {
    hide Less;
    forall z | z in seen && z != x
      ensures Less(y, z)
    {
      LessTransitive(y, x, z);
    }
  }

  lemma LeastIsUnique(names: set<Bytes>, x: Bytes)
    requires names != {} && IsLeast(x, names)
    ensures x == Least(names)
  {
    hide Less;
    LessTotal(x, Least(names));
  }

  // ---- Walking the tree ----

  /** Node kinds and payloads agree, and the size of every regular file is known. */
  ghost predicate Writable(files: seq<FileData>, sizes: map<U32, U64>, m: Model) {
    forall q :: q in m ==>
      && PayloadFits(m[q].inodeType, m[q].payload)
      && (m[q].inodeType == TYPE_REG ==> m[q].number in sizes && sizes[m[q].number] == SizeOf(files, m[q].number))
  }

  ghost function Written(cs: Client, w: Writer, files: seq<FileData>, m: Model, p: Path): Node
    requires p in m
  {
    Located(cs, w, Grow(files, m, p))
  }

  /** The entries of the directory at `p` that are still to be written. */
  ghost function KidsLeft(cs: Client, w: Writer, files: seq<FileData>, m: Model, p: Path, names: set<Bytes>): seq<Kid>
    requires forall n :: n in names ==> p + [n] in m
  {
    SortedSorts(names);
    LocatedKids(cs, w, GrowKids(files, m, p, Sorted(names)))
  }

  lemma NextKid(cs: Client, w: Writer, files: seq<FileData>, m: Model, p: Path, names: set<Bytes>)
    requires names != {} && forall n :: n in names ==> p + [n] in m
    ensures var x := Least(names);
            p + [x] in m &&
            KidsLeft(cs, w, files, m, p, names)
            == [Kid(x, Written(cs, w, files, m, p + [x]))] + KidsLeft(cs, w, files, m, p, names - {x})
  {
    hide Less, Grow, Located;
    var x := Least(names);
    SortedSorts(names);
    SortedSorts(names - {x});
    var names', kids := Sorted(names), GrowKids(files, m, p, Sorted(names));
    assert names'[0] == x && names'[1..] == Sorted(names - {x});
    assert kids[0] == Kid(x, Grow(files, m, p + [x])) && kids[1..] == GrowKids(files, m, p, names'[1..]);
  }

  lemma DirWritten(cs: Client, w: Writer, files: seq<FileData>, m: Model, p: Path)
    requires p in m && m[p].inodeType == TYPE_DIR
    ensures forall n :: n in NamesAt(m, p) <==> p + [n] in m
    ensures Written(cs, w, files, m, p) == Node(MetaOf(m[p]), Dir(KidsLeft(cs, w, files, m, p, NamesAt(m, p))))
  {
    hide Sorted, GrowKids, LocatedKids, NamesAt;
    NamesLead(m, p);
  }

  lemma LeafWritten(cs: Client, w: Writer, files: seq<FileData>, sizes: map<U32, U64>, m: Model, p: Path)
    requires Writable(files, sizes, m) && p in m && m[p].inodeType != TYPE_DIR
    ensures var i := m[p];
            var size := if i.number in sizes then sizes[i.number] else 0;
            Written(cs, w, files, m, p) == Located(cs, w, Node(MetaOf(i), LeafBody(i, size)))
    ensures var n := Written(cs, w, files, m, p); !n.body.Dir? && KindsOk(n) && AllNamesFit(n)
  {
    hide SizeOf, NarrowAll;
  }

  lemma TypeWritten(cs: Client, w: Writer, files: seq<FileData>, sizes: map<U32, U64>, m: Model, p: Path)
    requires Writable(files, sizes, m) && p in m
    ensures NodeType(Written(cs, w, files, m, p)) == m[p].inodeType
      && Written(cs, w, files, m, p).meta.number == m[p].number
  {
    hide SizeOf, NarrowAll;
    if m[p].inodeType == TYPE_DIR {
      DirWritten(cs, w, files, m, p);
    }
  }

  function EntryNames(es: seq<Entry>): seq<Bytes> {
    seq(|es|, k requires 0 <= k < |es| => es[k].name)
  }

  /** What the walk over a directory's entries has done so far. */
  ghost predicate Walked(c: Compressor, start: Ser, now: Ser, all: seq<Kid>, left: seq<Kid>, number: U32,
                         es: seq<Entry>, done: seq<Kid>) {
    && all == done + left && |done| == |es|
    && (forall k :: 0 <= k < |es| ==> es[k].name == done[k].name && AllNamesFit(done[k].node))
    && WriteKids(c, start, all, number) == (WriteKids(c, now, left, number).0, es + WriteKids(c, now, left, number).1)
  }

  lemma WalkStarts(c: Compressor, start: Ser, all: seq<Kid>, number: U32)
    ensures Walked(c, start, start, all, all, number, [], [])
  {
    var es := WriteKids(c, start, all, number).1;
    assert [] + es == es && [] + all == all;
  }

  lemma WalkGoesOn(c: Compressor, start: Ser, now: Ser, all: seq<Kid>, left: seq<Kid>, number: U32,
                   es: seq<Entry>, done: seq<Kid>, kid: Kid, rest: seq<Kid>, next: Ser, e: Entry)
    requires Walked(c, start, now, all, left, number, es, done) && left == [kid] + rest
    requires (next, e.address) == Trees.WriteNode(c, now, kid.node, number) && AllNamesFit(kid.node)
    requires e == Entry(kid.name, e.address, kid.node.meta.number, NodeType(kid.node))
    ensures Walked(c, start, next, all, rest, number, es + [e], done + [kid])
  {
    hide Trees.WriteNode, AllNamesFit;
    assert left[1..] == rest;
    var more := WriteKids(c, next, rest, number).1;
    assert es + ([e] + more) == es + [e] + more;
    assert done + ([kid] + rest) == done + [kid] + rest;
  }

  lemma WalkEnds(c: Compressor, start: Ser, now: Ser, all: seq<Kid>, number: U32, es: seq<Entry>, done: seq<Kid>,
                 n: Node)
    requires Walked(c, start, now, all, [], number, es, done) && n.body == Dir(all)
    ensures WriteKids(c, start, all, number) == (now, es)
    ensures AllNamesFit(n) <==> NamesFit(es)
    ensures done == all && |done| == |es| && forall k :: 0 <= k < |es| ==> es[k].name == done[k].name
  {
    assert all == done + [] == done;
    assert es + [] == es;
    NamesOfKids(n, es);
  }

  lemma KidFails(cs: Client, w: Writer, files: seq<FileData>, m: Model, p: Path, kid: Kid, k: nat)
    requires p in m && m[p].inodeType == TYPE_DIR
    requires forall n :: n in NamesAt(m, p) ==> p + [n] in m
    requires var all := KidsLeft(cs, w, files, m, p, NamesAt(m, p)); k < |all| && all[k] == kid
    requires !AllNamesFit(kid.node)
    ensures !AllNamesFit(Written(cs, w, files, m, p))
  {
    hide KidsLeft, NamesAt, Grow, Located;
    DirWritten(cs, w, files, m, p);
  }

  /** What a walk needs: the tree, the writers, and where the files went. */
  ghost predicate CanWalk(tree: PathTree, tw: TreeWriter, sizes: map<U32, U64>, files: seq<FileData>, node: Dirtree,
                          p: Path)
    reads tree, tree.at.Values, tw, tw.inodeWriter, tw.dentryWriter, tw.ids
  {
    tree.Valid() && tw.Valid() && p in tree.at && tree.at[p] == node && Writable(files, sizes, tree.Nodes())
  }

  method WriteFile(tree: PathTree, tw: TreeWriter, cs: Client, w: Writer, sizes: map<U32, U64>,
                   ghost files: seq<FileData>,
                   node: Dirtree, ghost p: Path, ghost parent: U32)
    returns (addr: Address)
    requires CanWalk(tree, tw, sizes, files, node, p) && p in tree.Nodes() && node.inodeType != TYPE_DIR
    modifies tw.inodeWriter, tw.ids
    ensures CanWalk(tree, tw, sizes, files, node, p) && AllNamesFit(Written(cs, w, files, tree.Nodes(), p))
    ensures (tw.State(), addr)
         == Trees.WriteNode(tw.inodeWriter.comp, old(tw.State()), Written(cs, w, files, tree.Nodes(), p), parent)
  {
    hide Written, PathTree.Valid, PathTree.Nodes, TreeWriter.Valid, Writable, AllNamesFit, KindsOk, Trees.WriteNode,
      Located;
    NodeIsThere(tree, p);
    LeafWritten(cs, w, files, sizes, tree.Nodes(), p);
    var i := node.AsInfo();
    var size := if i.number in sizes then sizes[i.number] else 0;
    addr := tw.WriteLeaf(Located(cs, w, Node(MetaOf(i), LeafBody(i, size))));
    LeafIsPut(tw.inodeWriter.comp, old(tw.State()), Written(cs, w, files, tree.Nodes(), p), parent);
  }

  /** `write_inode` of any node: children first, in the order of their names, then the listing,
      then the inode; it writes the node's subtree as the tree model says, or meets a name longer
      than 255 bytes. */
  method WriteInode(tree: PathTree, tw: TreeWriter, cs: Client, w: Writer, sizes: map<U32, U64>,
                    ghost files: seq<FileData>,
                    node: Dirtree, ghost p: Path, parent: U32)
    returns (addr: Address, ok: bool)
    requires CanWalk(tree, tw, sizes, files, node, p) && p in tree.Nodes()
    modifies tw.inodeWriter, tw.dentryWriter, tw.ids
    ensures CanWalk(tree, tw, sizes, files, node, p)
    ensures ok <==> AllNamesFit(Written(cs, w, files, tree.Nodes(), p))
    ensures ok ==>
      (tw.State(), addr)
      == Trees.WriteNode(tw.inodeWriter.comp, old(tw.State()), Written(cs, w, files, tree.Nodes(), p), parent)
    decreases Under(tree.Nodes(), p), 1
  {
    hide Written, KidsLeft, PathTree.Valid, PathTree.Nodes, TreeWriter.Valid, Writable, Under, NamesFit, AllNamesFit,
      Trees.WriteNode, NamesAt, WriteKids, PutInode, PutListing, DirRaw, TreeWriter.State;
    ghost var m := tree.Nodes();
    NodeIsThere(tree, p);
    if node.inodeType != TYPE_DIR {
      addr := WriteFile(tree, tw, cs, w, sizes, files, node, p, parent);
      return addr, true;
    }
    ghost var start := tw.State();
    DirWritten(cs, w, files, m, p);
    var es, fits := WriteEntries(tree, tw, cs, w, sizes, files, node, p);
    if !fits {
      addr := Address(0, 0);
      return addr, false;
    }
    DirIsPut(tw.inodeWriter.comp, start, Written(cs, w, files, m, p), parent);
    addr, ok := tw.WriteDir(MetaOf(node.AsInfo()), es, parent);
  }

  /** The children of a directory in the order of their names. */
  method WriteEntries(tree: PathTree, tw: TreeWriter, cs: Client, w: Writer, sizes: map<U32, U64>,
                      ghost files: seq<FileData>,
                      node: Dirtree, ghost p: Path)
    returns (es: seq<Entry>, ok: bool)
    requires CanWalk(tree, tw, sizes, files, node, p) && p in tree.Nodes() && node.inodeType == TYPE_DIR
    modifies tw.inodeWriter, tw.dentryWriter, tw.ids
    ensures CanWalk(tree, tw, sizes, files, node, p)
    ensures forall n :: n in NamesAt(tree.Nodes(), p) <==> p + [n] in tree.Nodes()
    ensures var n := Written(cs, w, files, tree.Nodes(), p);
            if ok then
              && (AllNamesFit(n) <==> NamesFit(es))
              && WriteKids(tw.inodeWriter.comp, old(tw.State()),
                           KidsLeft(cs, w, files, tree.Nodes(), p, NamesAt(tree.Nodes(), p)), node.number)
                 == (tw.State(), es)
            else !AllNamesFit(n)
    ensures ok ==> ListsNames(tree.Nodes(), p, EntryNames(es))
    decreases Under(tree.Nodes(), p), 0
  {
    hide Written, KidsLeft, Least, PathTree.Valid, PathTree.Nodes, TreeWriter.Valid, Writable, Under, NamesFit,
      AllNamesFit, Trees.WriteNode, NamesAt, Walked, WriteKids;
    ghost var m := tree.Nodes();
    NodeIsThere(tree, p);
    DirWritten(cs, w, files, m, p);
    EntriesAreNames(tree, p);
    ghost var c, start, all := tw.inodeWriter.comp, tw.State(), KidsLeft(cs, w, files, m, p, NamesAt(m, p));
    ghost var done: seq<Kid> := [];
    es := [];
    var names := node.entries.Keys;
    WalkStarts(c, start, all, node.number);
    while names != {}
      invariant names <= node.entries.Keys && CanWalk(tree, tw, sizes, files, node, p)
      invariant forall n :: n in names ==> p + [n] in m
      invariant Walked(c, start, tw.State(), all, KidsLeft(cs, w, files, m, p, names), node.number, es, done)
      decreases names
    {
      NextKid(cs, w, files, m, p, names);
      ghost var now, left := tw.State(), KidsLeft(cs, w, files, m, p, names);
      var name := FindLeast(names);
      var child := node.entries[name];
      ghost var kid := Kid(name, Written(cs, w, files, m, p + [name]));
      tree.EntryIsThere(p, name);
      BelowShrinks(m, p, name);
      TypeWritten(cs, w, files, sizes, m, p + [name]);
      NodeIsThere(tree, p + [name]);
      var kidAddr, fits := WriteInode(tree, tw, cs, w, sizes, files, child, p + [name], node.number);
      if !fits {
        KidIsOne(c, start, now, all, left, node.number, es, done, kid);
        KidFails(cs, w, files, m, p, kid, |done|);
        return es, false;
      }
      var e := Entry(name, kidAddr, child.number, child.inodeType);
      names := names - {name};
      WalkGoesOn(c, start, now, all, left, node.number, es, done, kid, KidsLeft(cs, w, files, m, p, names),
                 tw.State(), e);
      es := es + [e];
      done := done + [kid];
    }
    NoKidsLeft(cs, w, files, m, p);
    WalkEnds(c, start, tw.State(), all, node.number, es, done, Written(cs, w, files, m, p));
    NamesInOrder(cs, w, files, m, p, es, done);
    ok := true;
  }

  lemma NamesInOrder(cs: Client, w: Writer, files: seq<FileData>, m: Model, p: Path, es: seq<Entry>, done: seq<Kid>)
    requires forall n :: n in NamesAt(m, p) ==> p + [n] in m
    requires done == KidsLeft(cs, w, files, m, p, NamesAt(m, p)) && |done| == |es|
    requires forall k :: 0 <= k < |es| ==> es[k].name == done[k].name
    ensures ListsNames(m, p, EntryNames(es))
  {
    hide Sorted, NamesAt, ListsNames, GrowKids, LocatedKids;
    SortedSorts(NamesAt(m, p));
    var names := Sorted(NamesAt(m, p));
    forall k | 0 <= k < |es|
      ensures es[k].name == names[k]
    {
      KidAt(cs, w, files, m, p, names, k);
    }
    SortedListsNames(m, p);
    assert EntryNames(es) == names;
  }

  lemma NodeIsThere(tree: PathTree, p: Path)
    requires tree.Valid() && p in tree.at
    ensures p in tree.Nodes() && tree.Nodes()[p] == tree.at[p].AsInfo()
  {
  }

  lemma EntriesAreNames(tree: PathTree, p: Path)
    requires tree.Valid() && p in tree.at
    ensures tree.at[p].entries.Keys == NamesAt(tree.Nodes(), p)
  {
    hide PathTree.Valid, NamesAt;
    NamesLead(tree.Nodes(), p);
    forall n
      ensures n in tree.at[p].entries <==> n in NamesAt(tree.Nodes(), p)
    {
      tree.EntryIsThere(p, n);
    }
  }

  lemma LeafIsPut(c: Compressor, s: Ser, n: Node, parent: U32)
    requires !n.body.Dir?
    ensures Trees.WriteNode(c, s, n, parent) == PutInode(c, s, n.meta, LeafRaw(n))
  {
    hide PutInode, LeafRaw;
  }

  lemma DirIsPut(c: Compressor, s: Ser, n: Node, parent: U32)
    requires n.body.Dir?
    ensures var (s1, es) := WriteKids(c, s, n.body.kids, n.meta.number);
            var (s2, at) := PutListing(c, s1, es);
            Trees.WriteNode(c, s, n, parent) == PutInode(c, s2, n.meta, DirRaw(n.meta, es, at, parent))
  {
    hide PutInode, PutListing, DirRaw;
  }

  lemma NoKidsLeft(cs: Client, w: Writer, files: seq<FileData>, m: Model, p: Path)
    ensures KidsLeft(cs, w, files, m, p, {}) == []
  {
  }

  lemma KidIsOne(c: Compressor, start: Ser, now: Ser, all: seq<Kid>, left: seq<Kid>, number: U32,
                 es: seq<Entry>, done: seq<Kid>, kid: Kid)
    requires Walked(c, start, now, all, left, number, es, done) && left != [] && left[0] == kid
    ensures |done| < |all| && all[|done|] == kid
  {
  }

  // ---- When a name is too long ----

  lemma {:induction false} KidAt(cs: Client, w: Writer, files: seq<FileData>, m: Model, p: Path, names: seq<Bytes>,
                                 k: nat)
    requires (forall n :: n in names ==> p + [n] in m) && k < |names|
    ensures LocatedKids(cs, w, GrowKids(files, m, p, names))[k]
         == Kid(names[k], Written(cs, w, files, m, p + [names[k]]))
    decreases |names|
  {
    hide Grow, Located;
    var kids := GrowKids(files, m, p, names);
    assert kids[1..] == GrowKids(files, m, p, names[1..]);
    if k > 0 {
      KidAt(cs, w, files, m, p, names[1..], k - 1);
    }
  }

  /** The walk succeeds exactly when no live path below has a component of more than 255 bytes. */
  lemma {:induction false} NamesFitIff(cs: Client, w: Writer, files: seq<FileData>, m: Model, p: Path)
    requires Rooted(m) && p in m
    ensures AllNamesFit(Written(cs, w, files, m, p)) <==> NamesFitBelow(m, p)
    decreases Under(m, p)
  {
    hide Rooted, Sorted, NamesAt, Grow, GrowKids, Located, LocatedKids, Under;
    if m[p].inodeType == TYPE_DIR {
      var names := Sorted(NamesAt(m, p));
      SortedSorts(NamesAt(m, p));
      DirWritten(cs, w, files, m, p);
      var n := Written(cs, w, files, m, p);
      assert n.body.kids == LocatedKids(cs, w, GrowKids(files, m, p, names));
      forall k | 0 <= k < |names|
        ensures n.body.kids[k].name == names[k] && p + [names[k]] in m
        ensures AllNamesFit(n.body.kids[k].node) <==> NamesFitBelow(m, p + [names[k]])
      {
        KidAt(cs, w, files, m, p, names, k);
        BelowShrinks(m, p, names[k]);
        NamesFitIff(cs, w, files, m, p + [names[k]]);
      }
      BelowByEntry(m, p, names);
    } else {
      NothingBelow(m, p);
      LeafNames(cs, w, files, m, p);
    }
  }

  lemma LeafNames(cs: Client, w: Writer, files: seq<FileData>, m: Model, p: Path)
    requires p in m && m[p].inodeType != TYPE_DIR
    ensures AllNamesFit(Written(cs, w, files, m, p))
  {
  }

  lemma NothingBelow(m: Model, p: Path)
    requires Rooted(m) && p in m && m[p].inodeType != TYPE_DIR
    ensures NamesFitBelow(m, p)
  {
    forall q | q in m && p <= q && q != p
      ensures false
    {
      NothingUnderFiles(m, p, q);
    }
  }

  lemma BelowByEntry(m: Model, p: Path, names: seq<Bytes>)
    requires Rooted(m) && forall n :: n in names <==> p + [n] in m
    ensures NamesFitBelow(m, p) <==>
      forall k :: 0 <= k < |names| ==> |names[k]| <= 0xff && NamesFitBelow(m, p + [names[k]])
  {
    hide Rooted;
    if NamesFitBelow(m, p) {
      forall k | 0 <= k < |names|
        ensures |names[k]| <= 0xff && NamesFitBelow(m, p + [names[k]])
      {
        var child := p + [names[k]];
        assert names[k] in names && Last(child) == names[k] && child in Under(m, p);
        assert forall q :: q in Under(m, child) ==> q in Under(m, p);
      }
    }
    if forall k :: 0 <= k < |names| ==> |names[k]| <= 0xff && NamesFitBelow(m, p + [names[k]]) {
      forall q | q in Under(m, p)
        ensures |Last(q)| <= 0xff
      {
        var child := p + [q[|p|]];
        assert child <= q;
        AncestorsIn(m, child, q);
        var k :| 0 <= k < |names| && names[k] == q[|p|];
        assert q != child ==> q in Under(m, child);
        assert q == child ==> Last(q) == names[k];
      }
    }
  }

  // ---- The main program ----

  predicate SizesKnown(sizes: map<U32, U64>, files: seq<FileData>) {
    forall i :: 0 <= i < |files| ==> SizeKnown(sizes, files[i])
  }

  predicate SizeKnown(sizes: map<U32, U64>, f: FileData) {
    f.inode < 0x1_0000_0000 && f.inode in sizes && sizes[f.inode] == Narrow64(|f.data|)
  }

  lemma {:induction false} PrefixCounts(xs: seq<Member>, i: nat)
    requires i <= |xs|
    ensures StateAfter(xs[..i]).next <= StateAfter(xs).next
    decreases |xs|
  {
    hide StateAfter, Apply;
    if i < |xs| {
      assert xs[..i] == Init(xs)[..i];
      PrefixCounts(Init(xs), i);
      OneMember(xs);
      ApplyGrows(StateAfter(Init(xs)), ArrivalOf(Last(xs)));
    } else {
      assert xs[..i] == xs;
    }
  }

  /** One member more. */
  lemma NextMember(xs: seq<Member>, i: nat)
    requires i < |xs| && StateAfter(xs).next <= 0x1_0000_0000
    ensures StateAfter(xs[..i + 1]) == Apply(StateAfter(xs[..i]), ArrivalOf(xs[i]))
    ensures FilesOf(xs[..i + 1])
         == FilesOf(xs[..i])
            + if IsFile(xs[i]) then [FileData(StateAfter(xs[..i]).next % 0x1_0000_0000, Flat(xs[i].pieces))] else []
    ensures Distinct(FilesOf(xs[..i + 1]))
  {
    hide StateAfter, Apply, Flat;
    var more := xs[..i + 1];
    assert Init(more) == xs[..i] && Last(more) == xs[i];
    OneMember(more);
    PrefixCounts(xs, i + 1);
    FilesAreDistinct(more);
  }

  lemma SizeAdded(sizes: map<U32, U64>, files: seq<FileData>, number: U32, data: Bytes)
    requires SizesKnown(sizes, files) && Distinct(files + [FileData(number, data)])
    ensures SizesKnown(sizes[number := Narrow64(|data|)], files + [FileData(number, data)])
  {
    hide Narrow64;
    var more := files + [FileData(number, data)];
    forall i | 0 <= i < |more|
      ensures SizeKnown(sizes[number := Narrow64(|data|)], more[i])
    {
      assert i < |files| ==> more[i] == files[i] && SizeKnown(sizes, files[i]) && more[i].inode != more[|files|].inode;
    }
  }

  /** The size of a node's file is the one recorded for its number. */
  lemma AllWritable(xs: seq<Member>, sizes: map<U32, U64>)
    requires PayloadsFit(xs) && StateAfter(xs).next <= 0x1_0000_0000 && SizesKnown(sizes, FilesOf(xs))
    ensures Writable(FilesOf(xs), sizes, StateAfter(xs).nodes)
  {
    hide StateAfter, From, FilesOf, FindFile, PayloadFits, PayloadsFit, Narrow64, Flat;
    var files, m := FilesOf(xs), StateAfter(xs).nodes;
    forall q | q in m
      ensures PayloadFits(m[q].inodeType, m[q].payload)
      ensures m[q].inodeType == TYPE_REG ==> m[q].number in sizes && sizes[m[q].number] == SizeOf(files, m[q].number)
    {
      EveryPayloadFits(xs, q);
      if m[q].inodeType == TYPE_REG {
        var k := LastPutWins(xs, q);
        FromFacts(xs, k, q);
        FileFound(xs, k);
        assert SizeKnown(sizes, files[FindFile(files, m[q].number).value]);
      }
    }
  }

  /** One member into the tree and, if it is a file, into the pipeline. */
  method AddMember(tree: PathTree, wr: SqshWriter, sizes: map<U32, U64>, x: Member, ghost xs: seq<Member>, ghost i: nat)
    returns (sizes': map<U32, U64>)
    requires i < |xs| && x == xs[i] && StateAfter(xs).next <= 0x1_0000_0000
    requires tree.Valid() && tree.State() == StateAfter(xs[..i]) && SizesKnown(sizes, FilesOf(xs[..i]))
    requires wr.Valid() && wr.currentBlock == []
    requires wr.State() == RunCalls(wr.cfg, NO_PROGRESS, AllCalls(wr.cfg, FilesOf(xs[..i])))
    modifies tree`at, tree`nextInode, tree`next, tree.at.Values, wr
    ensures tree.Valid() && fresh(tree.at.Values - old(tree.at.Values)) && tree.State() == StateAfter(xs[..i + 1])
    ensures wr.Valid() && wr.currentBlock == [] && SizesKnown(sizes', FilesOf(xs[..i + 1]))
    ensures wr.State() == RunCalls(wr.cfg, NO_PROGRESS, AllCalls(wr.cfg, FilesOf(xs[..i + 1])))
  {
    hide StateAfter, FilesOf, PathTree.Valid, SqshWriter.Valid, RunCalls, AllCalls, Components, Target, Distinct,
      SizesKnown, Flat, PathModel.PutFile, PathModel.PutDir, Narrow64, SqshWriter.State, PathTree.Nodes;
    NextMember(xs, i);
    ghost var files, s := FilesOf(xs[..i]), StateAfter(xs[..i]);
    assert files + [] == files;
    sizes' := sizes;
    if x.item.inodeType == TYPE_DIR {
      tree.PutDir(x.pathname, x.item);
    } else {
      var child := tree.PutFile(x.pathname, x.item);
      if IsFile(x) {
        TargetNonempty(x.pathname);
        NumberGiven(tree, s, x, child);
        var fileSize := PackFiles.PutNextFile(wr, files, child.number, x.pieces);
        SizeAdded(sizes, files, child.number, Flat(x.pieces));
        sizes' := sizes[child.number := Narrow64(fileSize)];
      }
    }
  }

  lemma NumberGiven(tree: PathTree, s: PathState, x: Member, child: Dirtree)
    requires tree.Valid() && Target(x.pathname) != []
      && tree.State() == PathModel.PutFile(s, Target(x.pathname), x.item)
    requires Target(x.pathname) in tree.at && tree.at[Target(x.pathname)] == child
    ensures child.number == s.next % 0x1_0000_0000
  {
    hide PathTree.Valid, Target, EnsureDirs, PathTree.Nodes;
    NodeIsThere(tree, Target(x.pathname));
    var t := EnsureDirs(s.(next := s.next + 1), Init(Target(x.pathname)));
    PutThere(t.nodes, Target(x.pathname), Numbered(x.item, s.next));
  }

  /** The program on one thread. It fails only over a name longer than 255 bytes; else its output
      is the image of the archive, and where names, numbers and sizes suit the format, a reader
      of that image finds at every path what the archive put there last, exactly when no live path has
      an empty component and the owners can be counted. */
  method PackArchive(cfg: Config, xs: seq<Member>, blockLog: U16, compression: U16) returns (image: Bytes, ok: bool)
    requires ConfigOk(cfg) && PayloadsFit(xs) && StateAfter(xs).next <= 0x1_0000_0000
    ensures ok <==> NamesFitBelow(StateAfter(xs).nodes, [])
    ensures ok ==> image == ImageOf(PackedArchive(cfg, xs), blockLog, compression)
    ensures ok && DataFits(xs) && ListingsFit(StateAfter(xs).nodes) && SizesFit(PackedArchive(cfg, xs)) ==>
              forall fuel :: Height(PackedArchive(cfg, xs).root) <= fuel ==>
                var read := ReadImage(cfg.comp, image, fuel);
                read.Some? && ImageShows(xs, read.value)
                <==> NoEmptyNames(StateAfter(xs).nodes) && |Owners(StateAfter(xs).nodes)| <= 0xffff
  {
    hide StateAfter, FilesOf, PathTree.Valid, SqshWriter.Valid, RunCalls, AllCalls, Distinct, SizesKnown,
      PathTree.Nodes, Written, Grow, Outcome, HandleAll, Writable, TreeWriter.Valid, Trees.WriteNode, AllNamesFit,
      ImageOf, DataFits, ListingsFit, SizesFit, NoEmptyNames, Owners, ReadImage, ImageShows, Height,
      SqshWriter.State, Located, PayloadsFit, NamesFitBelow;
    var wr := new SqshWriter(cfg);
    var tree := new PathTree();
    var sizes: map<U32, U64> := map[];
    NothingYet(cfg, xs);
    for i := 0 to |xs|
      invariant tree.Valid() && fresh(tree) && fresh(tree.at.Values) && tree.State() == StateAfter(xs[..i])
      invariant wr.Valid() && fresh(wr) && wr.cfg == cfg && wr.currentBlock == [] && SizesKnown(sizes, FilesOf(xs[..i]))
      invariant wr.State() == RunCalls(cfg, NO_PROGRESS, AllCalls(cfg, FilesOf(xs[..i])))
    {
      sizes := AddMember(tree, wr, sizes, xs[i], xs, i);
    }
    assert xs[..|xs|] == xs;
    ghost var files := FilesOf(xs);
    FilesAreDistinct(xs);
    PackFiles.FinishData(wr, files);
    AllWritable(xs, sizes);
    image, ok := WriteArchive(tree, wr, sizes, xs, blockLog, compression);
    if ok && DataFits(xs) && ListingsFit(StateAfter(xs).nodes) && SizesFit(PackedArchive(cfg, xs)) {
      forall fuel | Height(PackedArchive(cfg, xs).root) <= fuel
        ensures var read := ReadImage(cfg.comp, image, fuel);
                read.Some? && ImageShows(xs, read.value)
                <==> NoEmptyNames(StateAfter(xs).nodes) && |Owners(StateAfter(xs).nodes)| <= 0xffff
      {
        ArchiveReadsBackIff(cfg, xs, blockLog, compression, fuel);
      }
    }
  }

  lemma NothingYet(cfg: Config, xs: seq<Member>)
    requires 0 < cfg.blockSize
    ensures xs[..0] == [] && StateAfter([]) == EMPTY_ROOT && FilesOf([]) == []
    ensures RunCalls(cfg, NO_PROGRESS, AllCalls(cfg, [])) == NO_PROGRESS && SizesKnown(map[], [])
  {
  }

  /** After `finish_data`: the walk from the root, then tables and superblock. */
  method WriteArchive(tree: PathTree, wr: SqshWriter, sizes: map<U32, U64>, ghost xs: seq<Member>, blockLog: U16,
                      compression: U16)
    returns (image: Bytes, ok: bool)
    requires tree.Valid() && tree.State() == StateAfter(xs) && Writable(FilesOf(xs), sizes, StateAfter(xs).nodes)
    requires wr.Valid() && wr.State() == Outcome(wr.cfg, FilesOf(xs))
    modifies wr
    ensures var p := PackedArchive(wr.cfg, xs);
            && (ok <==> NamesFitBelow(StateAfter(xs).nodes, []))
            && (ok ==> image == ImageOf(p, blockLog, compression))
  {
    hide StateAfter, FilesOf, PathTree.Valid, RunCalls, PathTree.Nodes, Grow, Outcome, HandleAll, Writable,
      TreeWriter.Valid, Trees.WriteNode, AllNamesFit, ImageOf, Located, ClientInv, MeaningOf, WellOrdered,
      NamesFitBelow, Rooted;
    ghost var p := PackedArchive(wr.cfg, xs);
    ghost var files := FilesOf(xs);
    WriterIsPacked(wr, files);
    RootIsThere(tree, xs);
    var tw := new TreeWriter(wr.cfg.comp);
    var cs, w := wr.ClientState(), wr.WriterState();
    var at, fits := WriteInode(tree, tw, cs, w, sizes, files, tree.root, [], tree.nextInode);
    StateIsRooted(xs);
    NamesFitIff(cs, w, files, StateAfter(xs).nodes, []);
    ok, image := fits, [];
    if ok {
      FinishImage(wr, tw, at, tree.nextInode, blockLog, compression, p);
      image := wr.outBytes;
    }
  }

  lemma WriterIsPacked(wr: SqshWriter, files: seq<FileData>)
    requires wr.Valid() && wr.State() == Outcome(wr.cfg, files)
    ensures wr.ClientState() == Outcome(wr.cfg, files).client
      && wr.WriterState() == HandleAll(wr.cfg, Outcome(wr.cfg, files).sent)
  {
    hide Outcome, HandleAll;
  }

  lemma RootIsThere(tree: PathTree, xs: seq<Member>)
    requires tree.Valid() && tree.State() == StateAfter(xs)
    ensures [] in tree.at && tree.at[[]] == tree.root && tree.Nodes() == StateAfter(xs).nodes && [] in tree.Nodes()
    ensures tree.nextInode == StateAfter(xs).next % 0x1_0000_0000
  {
    hide StateAfter;
    NodeIsThere(tree, []);
  }
}
