/** Owners, path by path: an image that shows an archive had room for all its uids and gids. */
module ArchiveOwners {
  import opened SquashDefs
  import opened PathModel
  import opened DataRoundTrip
  import opened Trees
  import opened Images
  import opened ImageRoundTrip
  import opened Archives
  import opened ArchiveContents
  import Ids

  function InfoAsRead(read: seq<U32>, order: seq<U32>, i: Info): Info {
    i.(uid := Ids.ReadAs(read, order, i.uid), gid := Ids.ReadAs(read, order, i.gid))
  }

  /** The model whose owners are what `read` has under their stored indices. */
  function ModelAsRead(read: seq<U32>, order: seq<U32>, m: Model): Model {
    map q | q in m :: InfoAsRead(read, order, m[q])
  }

  lemma {:induction false} GrowAsRead(files: seq<FileData>, read: seq<U32>, order: seq<U32>, m: Model, p: Path)
    requires p in m
    ensures AsRead(read, order, Grow(files, m, p)) == Grow(files, ModelAsRead(read, order, m), p)
    decreases Under(m, p), 1, 0
  {
    hide Ids.ReadAs, Sorted, FindFile;
    var v := ModelAsRead(read, order, m);
    if m[p].inodeType == TYPE_DIR {
      NamesLead(m, p);
      NamesLead(v, p);
      assert NamesAt(v, p) == NamesAt(m, p);
      SortedSorts(NamesAt(m, p));
      GrowKidsAsRead(files, read, order, m, p, Sorted(NamesAt(m, p)));
    }
  }

  lemma {:induction false} GrowKidsAsRead(files: seq<FileData>, read: seq<U32>, order: seq<U32>, m: Model, p: Path,
                                          names: seq<Bytes>)
    requires forall n :: n in names ==> p + [n] in m
    ensures AsReadKids(read, order, GrowKids(files, m, p, names))
         == GrowKids(files, ModelAsRead(read, order, m), p, names)
    decreases Under(m, p), 0, |names|
  {
    hide Grow, AsRead, InfoAsRead;
    if names != [] {
      BelowShrinks(m, p, names[0]);
      GrowAsRead(files, read, order, m, p + [names[0]]);
      GrowKidsAsRead(files, read, order, m, p, names[1..]);
      var kids := GrowKids(files, m, p, names);
      assert kids[1..] == GrowKids(files, m, p, names[1..]);
    }
  }

  /** Every owner in the tree is the owner of a node of the model. */
  lemma {:induction false} OwnerSomewhere(files: seq<FileData>, m: Model, p: Path, id: U32) returns (q: Path)
    requires p in m && IsOwner(Grow(files, m, p), id)
    ensures q in m && (m[q].uid == id || m[q].gid == id)
    decreases Under(m, p), 1, 0
  {
    hide Sorted, NamesAt, FindFile, KidsOwn;
    q := p;
    if m[p].uid != id && m[p].gid != id {
      NamesLead(m, p);
      SortedSorts(NamesAt(m, p));
      q := KidOwnerSomewhere(files, m, p, Sorted(NamesAt(m, p)), id);
    }
  }

  lemma {:induction false} KidOwnerSomewhere(files: seq<FileData>, m: Model, p: Path, names: seq<Bytes>, id: U32)
    returns (q: Path)
    requires (forall n :: n in names ==> p + [n] in m) && KidsOwn(GrowKids(files, m, p, names), id)
    ensures q in m && (m[q].uid == id || m[q].gid == id)
    decreases Under(m, p), 0, |names|
  {
    hide Grow, IsOwner;
    BelowShrinks(m, p, names[0]);
    var kids := GrowKids(files, m, p, names);
    assert kids[1..] == GrowKids(files, m, p, names[1..]);
    if IsOwner(kids[0].node, id) {
      q := OwnerSomewhere(files, m, p + [names[0]], id);
    } else {
      q := KidOwnerSomewhere(files, m, p, names[1..], id);
    }
  }

  /** Every owner of a node of the model is an owner in the tree. */
  lemma {:induction false} NodeOwns(files: seq<FileData>, m: Model, p: Path, q: Path, id: U32)
    requires Rooted(m) && p in m && q in m && p <= q && (id == m[q].uid || id == m[q].gid)
    ensures IsOwner(Grow(files, m, p), id)
    decreases |q| - |p|
  {
    hide Rooted, Sorted, NamesAt, FindFile, KidsOwn;
    if p != q {
      var name, child := q[|p|], p + [q[|p|]];
      AncestorsIn(m, child, q);
      ParentIsDir(m, p, name);
      NodeOwns(files, m, child, q, id);
      NamesLead(m, p);
      SortedSorts(NamesAt(m, p));
      var names := Sorted(NamesAt(m, p));
      var k :| 0 <= k < |names| && names[k] == name;
      KidOwns(files, m, p, names, k, id);
    }
  }

  lemma ParentIsDir(m: Model, p: Path, name: Bytes)
    requires Rooted(m) && p + [name] in m
    ensures IsDir(m, p)
  {
    assert Init(p + [name]) == p;
  }

  lemma {:induction false} KidOwns(files: seq<FileData>, m: Model, p: Path, names: seq<Bytes>, k: nat, id: U32)
    requires (forall n :: n in names ==> p + [n] in m) && k < |names|
    requires IsOwner(Grow(files, m, p + [names[k]]), id)
    ensures KidsOwn(GrowKids(files, m, p, names), id)
    decreases |names|
  {
    hide Grow, IsOwner;
    var kids := GrowKids(files, m, p, names);
    assert kids[1..] == GrowKids(files, m, p, names[1..]);
    if k > 0 {
      KidOwns(files, m, p, names[1..], k - 1, id);
    }
  }

  /** The distinct uids and gids of the live nodes. */
  ghost function Owners(m: Model): set<U32> {
    (set q | q in m :: m[q].uid) + (set q | q in m :: m[q].gid)
  }

  lemma {:induction false} SameSize(order: seq<U32>, ids: set<U32>)
    requires Ids.NoTwice(order) && forall id :: id in order <==> id in ids
    ensures |order| == |ids|
    decreases |order|
  {
    if order == [] {
      assert ids == {};
    } else {
      var id := Last(order);
      assert order == Init(order) + [id];
      SameSize(Init(order), ids - {id});
    }
  }

  /** The id table has one entry for each distinct owner of the live nodes. */
  lemma OwnersCounted(files: seq<FileData>, m: Model, p: Packed)
    requires Rooted(m) && [] in m && p.root == Grow(files, m, [])
    ensures |OwnersOf(p)| == |Owners(m)|
  {
    hide Rooted, Grow, IsOwner, OwnersOf, Ids.NoTwice;
    OwnersAreListed(p);
    forall id
      ensures id in OwnersOf(p) <==> id in Owners(m)
    {
      if IsOwner(p.root, id) {
        var q := OwnerSomewhere(files, m, [], id);
      }
      if id in Owners(m) {
        var q :| q in m && (m[q].uid == id || m[q].gid == id);
        NodeOwns(files, m, [], q, id);
      }
    }
    SameSize(OwnersOf(p), Owners(m));
  }

  lemma SameOwners(files: seq<FileData>, m: Model, v: Model, q: Path, parent: U32, xs: seq<Member>, data: Bytes,
                   parent': U32)
    requires q in m && q in v
    requires SeenAs(xs, q, m[q], data, parent', ContentOf(files, Grow(files, v, q), parent))
    ensures v[q].uid == m[q].uid && v[q].gid == m[q].gid
  {
    hide FindFile, HasData, Sorted, NamesAt, GrowKids, ContentOfKids, CountDirKids;
  }

  /** If the tree with its owners as read shows the archive, every owner reads back. */
  lemma ShownOwnersReadBack(xs: seq<Member>, read: seq<U32>, order: seq<U32>, parent: U32, id: U32)
    requires [] in StateAfter(xs).nodes
    requires var root := Grow(FilesOf(xs), StateAfter(xs).nodes, []);
             && AllReach(read, order, root) && IsOwner(root, id)
             && ImageShows(xs, ContentOf(FilesOf(xs), AsRead(read, order, root), parent))
    ensures ReadsBack(read, order, id)
  {
    hide StateAfter, Grow, ContentOf, Lookup, Rooted, SeenAs, FilesOf, AsRead, IsOwner, AllReach, Ids.Reaches,
      Ids.ReadAs;
    var files, m := FilesOf(xs), StateAfter(xs).nodes;
    var root, v := Grow(files, m, []), ModelAsRead(read, order, m);
    StateIsRooted(xs);
    AsReadRooted(read, order, m);
    GrowAsRead(files, read, order, m, []);
    var q := OwnerSomewhere(files, m, [], id);
    assert [] + q == q;
    LookupFinds(files, v, [], q, parent);
    assert PathShows(xs, ContentOf(files, Grow(files, v, []), parent), q);
    var parent' := ParentNumber(m, [], q, StateAfter(xs).next % 0x1_0000_0000);
    var data :| SeenAs(xs, q, m[q], data, parent', ContentOf(files, Grow(files, v, q), ParentNumber(v, [], q, parent)));
    SameOwners(files, m, v, q, ParentNumber(v, [], q, parent), xs, data, parent');
    OwnerReaches(read, order, root, id);
  }

  lemma AsReadRooted(read: seq<U32>, order: seq<U32>, m: Model)
    requires Rooted(m)
    ensures Rooted(ModelAsRead(read, order, m))
  {
    hide Ids.ReadAs;
    var v := ModelAsRead(read, order, m);
    assert forall p :: IsDir(m, p) ==> IsDir(v, p);
  }

  lemma {:induction false} OwnerReaches(read: seq<U32>, order: seq<U32>, n: Node, id: U32)
    requires AllReach(read, order, n) && IsOwner(n, id)
    ensures Ids.Reaches(read, order, id)
    decreases n
  {
    hide Ids.Reaches;
    if n.body.Dir? && KidsOwn(n.body.kids, id) {
      KidOwnerReaches(read, order, n.body.kids, id);
    }
  }

  lemma {:induction false} KidOwnerReaches(read: seq<U32>, order: seq<U32>, kids: seq<Kid>, id: U32)
    requires KidsReach(read, order, kids) && KidsOwn(kids, id)
    ensures Ids.Reaches(read, order, id)
    decreases kids
  {
    hide AllReach, IsOwner;
    if IsOwner(kids[0].node, id) {
      OwnerReaches(read, order, kids[0].node, id);
    } else {
      KidOwnerReaches(read, order, kids[1..], id);
    }
  }

  /** An image that shows the archive has room for its owners. */
  lemma OwnersWouldFit(xs: seq<Member>, p: Packed)
    requires [] in StateAfter(xs).nodes && p.root == Grow(FilesOf(xs), StateAfter(xs).nodes, [])
    requires ContentAsRead(FilesOf(xs), p).Some? && ImageShows(xs, ContentAsRead(FilesOf(xs), p).value)
    ensures OwnersFit(p)
  {
    hide StateAfter, Grow, ContentOf, FilesOf, ImageShows, OwnersOf, LoadedIds, AllReach, AsRead, IsOwner,
      Ids.Reaches, Ids.ReadAs;
    var order := OwnersOf(p);
    OwnersAreListed(p);
    LoadedIdsIff(order);
    forall id | id in order
      ensures ReadsBack(LoadedIds(order), order, id)
    {
      ShownOwnersReadBack(xs, LoadedIds(order), order, p.next, id);
    }
  }
}
