/** The tree in memory: nodes on the heap, each directory with a map of its entries, changed in
    place. Every method is proved against the map from paths to nodes. */
module PathTrees {
  import opened SquashDefs
  import opened PathModel

  class Dirtree {
    var inodeType: U16
    var mode: U16
    var uid: U32
    var gid: U32
    var mtime: U32
    const number: U32
    var payload: Payload
    var entries: map<Bytes, Dirtree>

    constructor (x: Item, number: U32)
      ensures AsInfo() == Numbered(x, number) && entries == map[]
    {
      inodeType, mode, uid, gid, mtime, payload := x.inodeType, x.mode, x.uid, x.gid, x.mtime, x.payload;
      this.number := number;
      entries := map[];
    }

    function AsInfo(): Info
      reads this
    {
      Info(inodeType, mode, uid, gid, mtime, number, payload)
    }

    method UpdateMetadata(x: Item)
      modifies this`mode, this`uid, this`gid, this`mtime
      ensures AsInfo() == SetMeta(old(AsInfo()), x)
    {
      mode, uid, gid, mtime := x.mode, x.uid, x.gid, x.mtime;
    }

    method PutChild(name: Bytes, child: Dirtree)
      modifies this`entries
      ensures entries == old(entries)[name := child]
    {
      entries := entries[name := child];
    }
  }

  type Links = map<Path, map<Bytes, Dirtree>>

  /** The root is at the empty path; entries lead exactly from each path to the next longer
      ones; no node is at two paths. */
  ghost predicate Linked(at: map<Path, Dirtree>, links: Links) {
    && links.Keys == at.Keys
    && (forall p :: p in at && p != [] ==> Leads(at, links, p))
    && (forall p, name :: p in at && name in links[p] ==> p + [name] in at)
    && (forall p, q :: p in at && q in at && at[p] == at[q] ==> p == q)
  }

  predicate Leads(at: map<Path, Dirtree>, links: Links, p: Path)
    requires p != [] && p in at
  {
    Init(p) in at && Init(p) in links && Last(p) in links[Init(p)] && links[Init(p)][Last(p)] == at[p]
  }

  function Reached(at: map<Path, Dirtree>, p: Path, child: Dirtree): map<Path, Dirtree> {
    (map q | q in at && !(p <= q) :: at[q])[p := child]
  }

  function Relinked(at: map<Path, Dirtree>, links: Links, p: Path, child: Dirtree): Links
    requires links.Keys == at.Keys && p != []
  {
    map q | q in Reached(at, p, child) ::
      if q == p then map[] else if q == Init(p) then links[q][Last(p) := child] else links[q]
  }

  predicate Kept(at: map<Path, Dirtree>, p: Path, q: Path) {
    q in at && !(p <= q)
  }

  lemma ReachedAt(at: map<Path, Dirtree>, links: Links, p: Path, child: Dirtree, q: Path)
    requires links.Keys == at.Keys && p != []
    ensures q in Reached(at, p, child) <==> q == p || Kept(at, p, q)
    ensures Relinked(at, links, p, child).Keys == Reached(at, p, child).Keys
    ensures q in Reached(at, p, child) ==>
      && Reached(at, p, child)[q] == (if q == p then child else at[q])
      && Relinked(at, links, p, child)[q]
         == if q == p then map[] else if q == Init(p) then links[q][Last(p) := child] else links[q]
  {
  }

  lemma LeadsKept(at: map<Path, Dirtree>, links: Links, p: Path, child: Dirtree, q: Path)
    requires links.Keys == at.Keys && p != [] && Init(p) in at
    requires q in Reached(at, p, child) && q != [] && (q != p ==> Leads(at, links, q))
    ensures Leads(Reached(at, p, child), Relinked(at, links, p, child), q)
  {
    hide Reached, Relinked;
    ReachedAt(at, links, p, child, q);
    ReachedAt(at, links, p, child, Init(q));
    PrefixOfInit(p, q);
    if q == p {
      assert !(p <= Init(p));
    } else if Init(q) == Init(p) && Last(q) == Last(p) {
      SameParts(p, q);
    }
  }

  lemma SameParts(p: Path, q: Path)
    requires p != [] && q != [] && Init(p) == Init(q) && Last(p) == Last(q)
    ensures p == q
  {
    assert p == Init(p) + [Last(p)] && q == Init(q) + [Last(q)];
  }

  lemma StepKept(at: map<Path, Dirtree>, links: Links, p: Path, child: Dirtree, q: Path, name: Bytes)
    requires Linked(at, links) && p != [] && Init(p) in at && q in Reached(at, p, child)
    requires name in Relinked(at, links, p, child)[q]
    ensures q + [name] in Reached(at, p, child)
  {
    hide Reached, Relinked;
    var r := q + [name];
    assert Init(r) == q && Last(r) == name;
    ReachedAt(at, links, p, child, q);
    ReachedAt(at, links, p, child, r);
    PrefixOfInit(p, r);
    if q == Init(p) && name == Last(p) {
      SameParts(p, r);
    } else {
      assert name in links[q];
    }
  }

  lemma OneEachKept(at: map<Path, Dirtree>, links: Links, p: Path, child: Dirtree, q: Path, r: Path)
    requires Linked(at, links) && p != [] && child !in at.Values
    requires q in Reached(at, p, child) && r in Reached(at, p, child)
    requires Reached(at, p, child)[q] == Reached(at, p, child)[r]
    ensures q == r
  {
    hide Reached, Relinked;
    ReachedAt(at, links, p, child, q);
    ReachedAt(at, links, p, child, r);
    assert q != p ==> at[q] in at.Values;
    assert r != p ==> at[r] in at.Values;
  }

  /** Replacing one entry drops the paths under it and links the new child, nothing else. */
  lemma RelinkedIsLinked(at: map<Path, Dirtree>, links: Links, p: Path, child: Dirtree)
    requires Linked(at, links) && p != [] && Init(p) in at && child !in at.Values
    ensures Linked(Reached(at, p, child), Relinked(at, links, p, child))
  {
    hide Leads, Reached, Relinked;
    var v, w := Reached(at, p, child), Relinked(at, links, p, child);
    ReachedAt(at, links, p, child, p);
    forall q | q in v && q != []
      ensures Leads(v, w, q)
    {
      ReachedAt(at, links, p, child, q);
      LeadsKept(at, links, p, child, q);
    }
    forall q, name | q in v && name in w[q]
      ensures q + [name] in v
    {
      StepKept(at, links, p, child, q, name);
    }
    forall q, r | q in v && r in v && v[q] == v[r]
      ensures q == r
    {
      OneEachKept(at, links, p, child, q, r);
    }
  }

  class PathTree {
    const root: Dirtree
    var nextInode: U32

    /** How far the numbering has come, not narrowed. */
    ghost var next: nat

    /** The node at every path. */
    ghost var at: map<Path, Dirtree>

    ghost predicate Valid()
      reads this, at.Values
    {
      && nextInode == next % 0x1_0000_0000
      && [] in at && at[[]] == root
      && Linked(at, EntryLinks())
      && Rooted(Nodes())
    }

    ghost function EntryLinks(): Links
      reads this`at, at.Values
    {
      map p | p in at :: at[p].entries
    }

    ghost function Nodes(): Model
      reads this`at, at.Values
    {
      map p | p in at :: at[p].AsInfo()
    }

    ghost function State(): PathState
      reads this, at.Values
    {
      PathState(Nodes(), next)
    }

    constructor ()
      ensures Valid() && State() == EMPTY_ROOT && fresh(at.Values)
    {
      var r := new Dirtree(MADE_DIR, 1);
      root := r;
      nextInode := 2;
      next := 2;
      at := map[[] := r];
      new;
      RootAlone();
      assert Nodes() == EMPTY_ROOT.nodes;
    }

    method NextInodeNumber() returns (number: U32)
      requires nextInode == next % 0x1_0000_0000
      modifies this`nextInode, this`next
      ensures number == old(next) % 0x1_0000_0000 && next == old(next) + 1 && nextInode == next % 0x1_0000_0000
    {
      number := nextInode;
      nextInode := (nextInode + 1) % 0x1_0000_0000;
      next := next + 1;
    }

    /** The child becomes the only thing at its path; whatever was there, and under it, is gone. */
    method Attach(dir: Dirtree, ghost p: Path, name: Bytes, child: Dirtree)
      requires Valid() && p in at && at[p] == dir && dir.inodeType == TYPE_DIR
      requires child !in at.Values && child.entries == map[]
      modifies this`at, dir`entries
      ensures Valid() && at.Values <= old(at.Values) + {child}
      ensures Nodes() == PutAt(old(Nodes()), p + [name], child.AsInfo())
      ensures p + [name] in at && at[p + [name]] == child
    {
      hide Linked, Rooted, Relinked, Reached, PutAt;
      ghost var t := p + [name];
      ghost var before, links, nodes := at, EntryLinks(), Nodes();
      assert Init(t) == p && Last(t) == name;
      RelinkedIsLinked(at, links, t, child);
      PutKeepsRooted(nodes, t, child.AsInfo());
      OneNodeEach(before, links);
      ReachedValues(before, t, child);
      dir.PutChild(name, child);
      at := Reached(at, t, child);
      LinksAfter(before, links, t, child);
      NodesAfter(before, links, nodes, t, child);
      ReachedAt(before, links, t, child, []);
      ReachedAt(before, links, t, child, t);
    }

    /** The directory of that name; one is made where there is none, also in place of another
        kind of node. */
    method GetSubdir(dir: Dirtree, ghost p: Path, name: Bytes) returns (sub: Dirtree)
      requires Valid() && p in at && at[p] == dir && dir.inodeType == TYPE_DIR
      modifies this`at, this`nextInode, this`next, dir`entries
      ensures Valid() && fresh(at.Values - old(at.Values))
      ensures State() == EnsureDir(old(State()), p + [name])
      ensures p + [name] in at && at[p + [name]] == sub && sub.inodeType == TYPE_DIR
    {
      hide Linked, Rooted, PutAt, Nodes, EntryLinks;
      EntryIsThere(p, name);
      if name in dir.entries && dir.entries[name].inodeType == TYPE_DIR {
        return dir.entries[name];
      }
      var number := NextInodeNumber();
      sub := new Dirtree(MADE_DIR, number);
      Attach(dir, p, name, sub);
    }

    /** Entries and paths agree. */
    lemma EntryIsThere(p: Path, name: Bytes)
      requires Valid() && p in at
      ensures name in at[p].entries <==> p + [name] in at
      ensures name in at[p].entries ==> at[p + [name]] == at[p].entries[name]
      ensures IsDir(Nodes(), p + [name]) <==> p + [name] in at && at[p + [name]].inodeType == TYPE_DIR
    {
      var t := p + [name];
      assert Init(t) == p && Last(t) == name;
      assert EntryLinks()[p] == at[p].entries;
      assert t in at ==> Leads(at, EntryLinks(), t);
    }

    method SubdirForPath(path: Bytes) returns (subdir: Dirtree)
      requires Valid()
      modifies this`at, this`nextInode, this`next, at.Values
      ensures Valid() && fresh(at.Values - old(at.Values))
      ensures State() == EnsureDirs(old(State()), Components(path))
      ensures Components(path) in at && at[Components(path)] == subdir && subdir.inodeType == TYPE_DIR
    {
      hide Linked, Rooted, PutAt, FirstSlash, EnsureDir, EnsureDirs, Components, Nodes, EntryLinks;
      RootIsThere();
      NothingToDo(State());
      subdir := root;
      ghost var done: Path := [];
      var rest := path;
      assert done + Components(rest) == Components(path);
      while rest != []
        invariant Valid() && fresh(at.Values - old(at.Values))
        invariant done in at && at[done] == subdir && subdir.inodeType == TYPE_DIR
        invariant State() == EnsureDirs(old(State()), done)
        invariant done + Components(rest) == Components(path)
        decreases |rest|
      {
        var i := FirstSlash(rest);
        var component := rest[..i];
        NextComponent(rest, done);
        if component != [] {
          OneDirFurther(old(State()), done, component);
          subdir := GetSubdir(subdir, done, component);
          done := done + [component];
        }
        rest := if i < |rest| then rest[i + 1..] else [];
      }
      assert done + [] == done;
    }

    lemma RootIsThere()
      requires Valid()
      ensures [] in at && at[[]] == root && root.inodeType == TYPE_DIR
    {
      RootedRoot(Nodes());
      assert at[[]].AsInfo() == Nodes()[[]];
    }

    /** The node is made, and numbered, before its parents are looked for. */
    method PutFile(path: Bytes, x: Item) returns (child: Dirtree)
      requires Valid()
      modifies this`at, this`nextInode, this`next, at.Values
      ensures Valid() && fresh(at.Values - old(at.Values))
      ensures State() == PathModel.PutFile(old(State()), Target(path), x)
      ensures Target(path) in at && at[Target(path)] == child
    {
      hide Linked, Rooted, PutAt, Components, EnsureDirs, LastSlash, ParentPart, NamePart, Nodes, EntryLinks;
      ghost var dir := Components(ParentPart(path));
      assert Init(Target(path)) == dir;
      var number := NextInodeNumber();
      child := new Dirtree(x, number);
      var parent := SubdirForPath(ParentPart(path));
      Attach(parent, dir, NamePart(path), child);
    }

    /** A directory of the archive: found or made, then given its metadata. */
    method PutDir(path: Bytes, x: Item)
      requires Valid()
      modifies this`at, this`nextInode, this`next, at.Values
      ensures Valid() && fresh(at.Values - old(at.Values))
      ensures State() == PathModel.PutDir(old(State()), Components(path), x)
    {
      hide Linked, Rooted, PutAt, Components, EnsureDirs;
      ghost var p := Components(path);
      var dir := SubdirForPath(path);
      UpdateAt(dir, p, x);
    }

    method UpdateAt(dir: Dirtree, ghost p: Path, x: Item)
      requires Valid() && p in at && at[p] == dir
      modifies dir`mode, dir`uid, dir`gid, dir`mtime
      ensures Valid() && p in old(Nodes()) && Nodes() == old(Nodes())[p := SetMeta(old(Nodes())[p], x)]
    {
      hide Linked, Rooted;
      ghost var nodes, links := Nodes(), EntryLinks();
      MetaKeepsRooted(nodes, p, x);
      OneNodeEach(at, links);
      dir.UpdateMetadata(x);
      assert EntryLinks() == links;
      assert Nodes() == nodes[p := SetMeta(nodes[p], x)];
    }

    lemma LinksAfter(before: map<Path, Dirtree>, links: Links, t: Path, child: Dirtree)
      requires links.Keys == before.Keys && t != [] && at == Reached(before, t, child) && child.entries == map[]
      requires forall q :: Kept(before, t, q) ==>
        before[q].entries == if q == Init(t) then links[q][Last(t) := child] else links[q]
      ensures EntryLinks() == Relinked(before, links, t, child)
    {
      hide Reached, Relinked;
      forall q
        ensures q in EntryLinks() <==> q in Relinked(before, links, t, child)
        ensures q in EntryLinks() ==> EntryLinks()[q] == Relinked(before, links, t, child)[q]
      {
        ReachedAt(before, links, t, child, q);
      }
    }

    lemma NodesAfter(before: map<Path, Dirtree>, links: Links, nodes: Model, t: Path, child: Dirtree)
      requires links.Keys == before.Keys == nodes.Keys && t != [] && at == Reached(before, t, child)
      requires forall q :: Kept(before, t, q) ==> before[q].AsInfo() == nodes[q]
      ensures Nodes() == PutAt(nodes, t, child.AsInfo())
    {
      hide Reached, Relinked;
      forall q
        ensures q in Nodes() <==> q == t || Kept(before, t, q)
        ensures q in Nodes() ==> Nodes()[q] == if q == t then child.AsInfo() else nodes[q]
      {
        ReachedAt(before, links, t, child, q);
      }
    }
  }

  lemma NothingToDo(s: PathState)
    ensures EnsureDirs(s, []) == s && Components([]) == []
  {
  }

  lemma OneDirFurther(s: PathState, p: Path, name: Bytes)
    ensures EnsureDirs(s, p + [name]) == EnsureDir(EnsureDirs(s, p), p + [name])
  {
    assert Init(p + [name]) == p;
  }

  /** Taking one component off the front of what is left. */
  lemma NextComponent(rest: Bytes, done: Path)
    requires rest != []
    ensures var i := FirstSlash(rest);
            var further := Components(if i < |rest| then rest[i + 1..] else []);
            done + Components(rest) == (if i == 0 then done else done + [rest[..i]]) + further
  {
    hide FirstSlash;
    NothingToDo(EMPTY_ROOT);
    var i := FirstSlash(rest);
    var further := Components(if i < |rest| then rest[i + 1..] else []);
    assert done + ([rest[..i]] + further) == done + [rest[..i]] + further;
    assert [] + further == further;
  }

  lemma ReachedValues(at: map<Path, Dirtree>, p: Path, child: Dirtree)
    ensures Reached(at, p, child).Values <= at.Values + {child}
  {
  }

  lemma OneNodeEach(at: map<Path, Dirtree>, links: Links)
    requires Linked(at, links)
    ensures forall p, q :: p in at && q in at && at[p] == at[q] ==> p == q
  {
  }
}
