/** From the members of an archive to the tree that is written: the map model's nodes, listed
    in the order of their names. */
module Archives {
  import opened SquashDefs
  import opened Chunking
  import opened PathModel
  import opened DataRoundTrip
  import opened Inodes
  import opened Trees
  import opened Images

  // ---- The order of names ----

  /** Byte by byte, a prefix first. */
  predicate Less(a: Bytes, b: Bytes) {
    b != [] && (a == [] || a[0] < b[0] || (a[0] == b[0] && Less(a[1..], b[1..])))
  }

  lemma {:induction false} LessTransitive(a: Bytes, b: Bytes, c: Bytes)
    requires Less(a, b) && Less(b, c)
    ensures Less(a, c)
  {
    if a != [] && a[0] == b[0] && b[0] == c[0] {
      LessTransitive(a[1..], b[1..], c[1..]);
    }
  }

  lemma {:induction false} LessTotal(a: Bytes, b: Bytes)
    ensures a == b || Less(a, b) || Less(b, a)
    ensures !(Less(a, b) && Less(b, a)) && !Less(a, a)
  {
    if a != [] && b != [] && a[0] == b[0] {
      LessTotal(a[1..], b[1..]);
      LessTotal(a[1..], a[1..]);
      assert a == [a[0]] + a[1..] && b == [b[0]] + b[1..];
    } else if a != [] {
      LessTotal(a[1..], a[1..]);
    }
  }

  /** The names agree on their first `k` bytes; then `a` ends or has the smaller byte. */
  predicate DifferAt(a: Bytes, b: Bytes, k: nat) {
    k <= |a| && k < |b| && a[..k] == b[..k] && (k == |a| || a[k] < b[k])
  }

  /** `a` comes before `b` in a dictionary of unsigned bytes. */
  ghost predicate Precedes(a: Bytes, b: Bytes) {
    exists k: nat :: DifferAt(a, b, k)
  }

  lemma DifferAtFront(a: Bytes, b: Bytes)
    requires a != [] && b != [] && a[0] != b[0]
    ensures forall k: nat :: DifferAt(a, b, k) ==> k == 0
  {
    forall k: nat | k > 0
      ensures !DifferAt(a, b, k)
    {
      if k <= |a| && k < |b| {
        assert a[..k][0] != b[..k][0];
      }
    }
  }

  lemma {:induction false} LessIffPrecedes(a: Bytes, b: Bytes)
    ensures Less(a, b) <==> Precedes(a, b)
  {
    if a != [] && b != [] && a[0] == b[0] {
      LessIffPrecedes(a[1..], b[1..]);
      if Less(a[1..], b[1..]) {
        var k: nat :| DifferAt(a[1..], b[1..], k);
        assert a == [a[0]] + a[1..] && b == [b[0]] + b[1..];
        assert DifferAt(a, b, k + 1);
      }
      if Precedes(a, b) {
        var k: nat :| DifferAt(a, b, k);
        assert a[1..][..k - 1] == a[..k][1..] && b[1..][..k - 1] == b[..k][1..];
        assert DifferAt(a[1..], b[1..], k - 1);
      }
    } else if Less(a, b) {
      assert DifferAt(a, b, 0);
    } else if a != [] && b != [] {
      DifferAtFront(a, b);
    }
  }

  ghost predicate IsLeast(x: Bytes, names: set<Bytes>) {
    x in names && forall y :: y in names && y != x ==> Less(x, y)
  }

  lemma {:induction false} LeastExists(names: set<Bytes>) returns (x: Bytes)
    requires names != {}
    ensures IsLeast(x, names)
    decreases |names|
  {
    var y :| y in names;
    var rest := names - {y};
    if rest == {} {
      assert names == {y};
      x := y;
    } else {
      var z := LeastExists(rest);
      LessTotal(y, z);
      if Less(y, z) {
        forall w | w in names && w != y
          ensures Less(y, w)
        {
          if w != z {
            LessTransitive(y, z, w);
          }
        }
        x := y;
      } else {
        x := z;
      }
    }
  }

  ghost function Least(names: set<Bytes>): (x: Bytes)
    requires names != {}
    ensures IsLeast(x, names)
  {
    LeastExistsFor(names);
    var x :| IsLeast(x, names);
    x
  }

  lemma LeastExistsFor(names: set<Bytes>)
    requires names != {}
    ensures exists x :: IsLeast(x, names)
  {
    var x := LeastExists(names);
  }

  ghost function Sorted(names: set<Bytes>): (s: seq<Bytes>)
    ensures |s| == |names|
    decreases |names|
  {
    if names == {} then [] else [Least(names)] + Sorted(names - {Least(names)})
  }

  predicate Increasing(s: seq<Bytes>) {
    forall i, j :: 0 <= i < j < |s| ==> Less(s[i], s[j])
  }

  lemma {:induction false} SortedSorts(names: set<Bytes>)
    ensures forall x :: x in Sorted(names) <==> x in names
    ensures Increasing(Sorted(names))
    decreases |names|
  {
    hide Less;
    if names != {} {
      var x, rest := Least(names), names - {Least(names)};
      SortedSorts(rest);
      var s := Sorted(names);
      assert s == [x] + Sorted(rest);
      assert forall j :: 0 < j < |s| ==> s[j] == Sorted(rest)[j - 1] && s[j] in Sorted(rest);
    }
  }

  // ---- The tree that is written ----

  /** The names of the entries of the directory at `p`. */
  ghost function NamesAt(m: Model, p: Path): set<Bytes> {
    set q | q in m && q != [] && Init(q) == p :: Last(q)
  }

  ghost function Under(m: Model, p: Path): set<Path> {
    set q | q in m && p <= q && q != p
  }

  lemma NamesLead(m: Model, p: Path)
    ensures forall n :: n in NamesAt(m, p) <==> p + [n] in m
  {
    forall n | p + [n] in m
      ensures n in NamesAt(m, p)
    {
      assert Init(p + [n]) == p && Last(p + [n]) == n;
    }
    forall n | n in NamesAt(m, p)
      ensures p + [n] in m
    {
      var q :| q in m && q != [] && Init(q) == p && Last(q) == n;
      assert q == p + [n];
    }
  }

  lemma BelowShrinks(m: Model, p: Path, n: Bytes)
    requires p + [n] in m
    ensures Under(m, p + [n]) < Under(m, p)
  {
    assert p + [n] in Under(m, p) && p + [n] !in Under(m, p + [n]);
  }

  function MetaOf(i: Info): Meta {
    Meta(i.mode, i.uid, i.gid, i.mtime, i.number, 1, XATTR_NONE)
  }

  /** A regular file's size is what was appended to its inode. */
  function SizeOf(files: seq<FileData>, number: nat): U64 {
    match FindFile(files, number)
    case Some(i) => Narrow64(|files[i].data|)
    case None => 0
  }

  function LeafBody(i: Info, size: U64): Body {
    if i.inodeType == TYPE_REG then Reg(0, [], 0, 0, size)
    else if i.payload.LinkTo? then Sym(i.payload.target)
    else if i.payload.DeviceNumber? then Dev(i.inodeType, i.payload.rdev)
    else Ipc(i.inodeType)
  }

  /** The node at `p` with all below it, entries in the order of their names. */
  ghost function Grow(files: seq<FileData>, m: Model, p: Path): Node
    requires p in m
    decreases Under(m, p), 1, 0
  {
    if m[p].inodeType == TYPE_DIR then
      NamesLead(m, p);
      SortedSorts(NamesAt(m, p));
      Node(MetaOf(m[p]), Dir(GrowKids(files, m, p, Sorted(NamesAt(m, p)))))
    else
      Node(MetaOf(m[p]), LeafBody(m[p], SizeOf(files, m[p].number)))
  }

  ghost function GrowKids(files: seq<FileData>, m: Model, p: Path, names: seq<Bytes>): (kids: seq<Kid>)
    requires forall n :: n in names ==> p + [n] in m
    ensures |kids| == |names|
    decreases Under(m, p), 0, |names|
  {
    if names == [] then []
    else
      BelowShrinks(m, p, names[0]);
      [Kid(names[0], Grow(files, m, p + [names[0]]))] + GrowKids(files, m, p, names[1..])
  }

  lemma {:induction false} KidsNamed(files: seq<FileData>, m: Model, p: Path, names: seq<Bytes>)
    requires forall n :: n in names ==> p + [n] in m
    ensures forall k :: 0 <= k < |names| ==> GrowKids(files, m, p, names)[k].name == names[k]
    decreases |names|
  {
    hide Grow;
    if names != [] {
      KidsNamed(files, m, p, names[1..]);
    }
  }

  /** The names, each once and in dictionary order, are those of the entries of `p`. */
  ghost predicate ListsNames(m: Model, p: Path, names: seq<Bytes>) {
    && (forall i, j :: 0 <= i < j < |names| ==> Precedes(names[i], names[j]))
    && (forall n :: p + [n] in m <==> n in names)
  }

  lemma SortedListsNames(m: Model, p: Path)
    ensures ListsNames(m, p, Sorted(NamesAt(m, p)))
  {
    hide Sorted, NamesAt, Less, Precedes;
    NamesLead(m, p);
    var names := Sorted(NamesAt(m, p));
    SortedSorts(NamesAt(m, p));
    forall i, j | 0 <= i < j < |names|
      ensures Precedes(names[i], names[j])
    {
      LessIffPrecedes(names[i], names[j]);
    }
  }

  function NamesOf(kids: seq<Kid>): seq<Bytes> {
    seq(|kids|, k requires 0 <= k < |kids| => kids[k].name)
  }

  /** A directory's entries are listed in strictly increasing order of their names, and they
      are all there. */
  lemma EntriesInOrder(files: seq<FileData>, m: Model, p: Path)
    requires p in m && m[p].inodeType == TYPE_DIR
    ensures Grow(files, m, p).body.Dir? && ListsNames(m, p, NamesOf(Grow(files, m, p).body.kids))
  {
    hide Sorted, NamesAt, GrowKids, ListsNames;
    NamesLead(m, p);
    SortedSorts(NamesAt(m, p));
    KidsNamed(files, m, p, Sorted(NamesAt(m, p)));
    SortedListsNames(m, p);
    assert NamesOf(Grow(files, m, p).body.kids) == Sorted(NamesAt(m, p));
  }

  /** A listing can hold the name of every entry below `p`. */
  ghost predicate NamesFitBelow(m: Model, p: Path) {
    forall q :: q in Under(m, p) ==> |Last(q)| <= 0xff
  }

  predicate NoEmptyName(p: Path) {
    forall i :: 0 <= i < |p| ==> p[i] != []
  }

  /** No live path has an empty component. */
  ghost predicate NoEmptyNames(m: Model) {
    forall p :: p in m ==> NoEmptyName(p)
  }

  /** The bytes a listing of these names can take at most. */
  function ListingSize(names: seq<Bytes>): nat {
    if names == [] then 0 else 20 + |names[0]| + ListingSize(names[1..])
  }

  /** The listing of every directory fits its 32-bit size field. */
  ghost predicate ListingsFit(m: Model) {
    forall p :: IsDir(m, p) ==> ListingSize(Sorted(NamesAt(m, p))) + 3 < 0x1_0000_0000
  }

  // ---- Members of an archive ----

  /** `data` is what the archive holds for a regular file, in the pieces it is read in. */
  datatype Member = Member(pathname: Bytes, item: Item, pieces: seq<Bytes>)

  function ArrivalOf(x: Member): Arrival {
    Arrival(x.pathname, x.item)
  }

  function ArrivalsOf(xs: seq<Member>): (es: seq<Arrival>)
    ensures |es| == |xs|
  {
    if xs == [] then [] else ArrivalsOf(Init(xs)) + [ArrivalOf(Last(xs))]
  }

  function StateAfter(xs: seq<Member>): PathState {
    ApplyAll(ArrivalsOf(xs))
  }

  predicate IsFile(x: Member) {
    x.item.inodeType == TYPE_REG
  }

  /** Each regular file has the number its node was given. */
  function FilesOf(xs: seq<Member>): seq<FileData> {
    if xs == [] then []
    else
      FilesOf(Init(xs))
      + if IsFile(Last(xs)) then [FileData(StateAfter(Init(xs)).next % 0x1_0000_0000, Flat(Last(xs).pieces))] else []
  }

  lemma OneMember(xs: seq<Member>)
    requires xs != []
    ensures Init(ArrivalsOf(xs)) == ArrivalsOf(Init(xs)) && Last(ArrivalsOf(xs)) == ArrivalOf(Last(xs))
    ensures StateAfter(xs) == Apply(StateAfter(Init(xs)), ArrivalOf(Last(xs)))
  {
    hide Apply;
  }

  lemma StateIsRooted(xs: seq<Member>)
    ensures Rooted(StateAfter(xs).nodes)
  {
    EveryRunIsRooted(ArrivalsOf(xs));
  }

  // ---- The last one put wins ----

  predicate PutsAt(x: Member, p: Path) {
    x.item.inodeType != TYPE_DIR && Target(x.pathname) == p
  }

  /** The node at `p` is the one member `k` put there, and no later member puts anything there. */
  ghost predicate From(xs: seq<Member>, k: nat, p: Path) {
    && k < |xs| && PutsAt(xs[k], p)
    && p in StateAfter(xs).nodes
    && StateAfter(xs).nodes[p] == Numbered(xs[k].item, StateAfter(xs[..k]).next)
    && forall j :: k < j < |xs| ==> !PutsAt(xs[j], p)
  }

  lemma FromLonger(xs: seq<Member>, k: nat, p: Path)
    requires xs != [] && From(Init(xs), k, p) && !PutsAt(Last(xs), p)
    requires p in StateAfter(xs).nodes && StateAfter(xs).nodes[p] == StateAfter(Init(xs)).nodes[p]
    ensures From(xs, k, p)
  {
    hide StateAfter, PutsAt;
    assert xs[..k] == Init(xs)[..k];
  }

  /** Every node that is not a directory is the one put at its path last. */
  lemma {:induction false} LastPutWins(xs: seq<Member>, p: Path) returns (k: nat)
    requires p in StateAfter(xs).nodes && !IsDir(StateAfter(xs).nodes, p)
    ensures From(xs, k, p)
    decreases |xs|
  {
    hide StateAfter, Apply, Components, Target, From;
    NoMembers();
    var x, s := Last(xs), StateAfter(Init(xs));
    OneMember(xs);
    StateIsRooted(Init(xs));
    UntouchedIsOld(s, ArrivalOf(x), p);
    if PutsAt(x, p) {
      k := |xs| - 1;
      PutLast(xs, p);
    } else {
      k := LastPutWins(Init(xs), p);
      FromLonger(xs, k, p);
    }
  }

  lemma NoMembers()
    ensures forall p :: p in StateAfter([]).nodes ==> IsDir(StateAfter([]).nodes, p)
  {
  }

  /** One entry: what is not a directory afterwards is what was put, or was there before. */
  lemma UntouchedIsOld(s: PathState, e: Arrival, p: Path)
    requires Rooted(s.nodes) && p in Apply(s, e).nodes && !IsDir(Apply(s, e).nodes, p)
    ensures (e.item.inodeType != TYPE_DIR && Target(e.pathname) == p)
            || (p in s.nodes && s.nodes[p] == Apply(s, e).nodes[p])
    ensures e.item.inodeType != TYPE_DIR && Target(e.pathname) == p ==> Apply(s, e).nodes[p] == Numbered(e.item, s.next)
  {
    hide Components, Target, PutFile, PutDir, Rooted;
    var v := Apply(s, e).nodes;
    if e.item.inodeType == TYPE_DIR {
      PutDirExactly(s, Components(e.pathname), e.item);
      assert p <= Components(e.pathname) ==> IsDir(v, p);
    } else {
      TargetNonempty(e.pathname);
      PutFileExactly(s, Target(e.pathname), e.item);
      assert p <= Target(e.pathname) && p != Target(e.pathname) ==> IsDir(v, p);
    }
  }

  lemma TargetNonempty(s: Bytes)
    ensures Target(s) != []
  {
  }

  lemma PutLast(xs: seq<Member>, p: Path)
    requires xs != [] && PutsAt(Last(xs), p) && p in StateAfter(xs).nodes
    requires StateAfter(xs).nodes[p] == Numbered(Last(xs).item, StateAfter(Init(xs)).next)
    ensures From(xs, |xs| - 1, p)
  {
    hide StateAfter, PutsAt;
    assert xs[..|xs| - 1] == Init(xs);
  }

  // ---- Where a directory's metadata comes from ----

  predicate DirMember(x: Member, p: Path) {
    x.item.inodeType == TYPE_DIR && Components(x.pathname) == p
  }

  predicate SameMeta(i: Info, x: Item) {
    i.mode == x.mode && i.uid == x.uid && i.gid == x.gid && i.mtime == x.mtime
  }

  /** Mode 0755, owner 0, time 0. */
  predicate DefaultMeta(i: Info) {
    i.mode == 0x1ed && i.uid == 0 && i.gid == 0 && i.mtime == 0
  }

  predicate DirAt(xs: seq<Member>, j: nat, p: Path, number: U32)
    requires j <= |xs|
  {
    var m := StateAfter(xs[..j]).nodes;
    IsDir(m, p) && m[p].number == number
  }

  /** From the first `k` members on the directory at `p` has been there, and no directory member
      named it. */
  ghost predicate DirSince(xs: seq<Member>, k: nat, p: Path, number: U32) {
    && k <= |xs|
    && (forall j :: k <= j <= |xs| ==> DirAt(xs, j, p, number))
    && (forall j :: k <= j < |xs| ==> !DirMember(xs[j], p))
  }

  /** One entry: a directory afterwards is named by it, or is as before, or was made on its way. */
  lemma DirAfterEntry(s: PathState, e: Arrival, p: Path)
    requires Rooted(s.nodes) && IsDir(Apply(s, e).nodes, p)
    ensures var v := Apply(s, e).nodes;
            if e.item.inodeType == TYPE_DIR && Components(e.pathname) == p then SameMeta(v[p], e.item)
            else if IsDir(s.nodes, p) then v[p] == s.nodes[p]
            else IsMadeDir(v[p])
  {
    hide Components, Target, PutFile, PutDir, Rooted, IsMadeDir;
    if e.item.inodeType == TYPE_DIR {
      PutDirExactly(s, Components(e.pathname), e.item);
    } else {
      TargetNonempty(e.pathname);
      PutFileExactly(s, Target(e.pathname), e.item);
    }
  }

  lemma DirSinceLonger(xs: seq<Member>, k: nat, p: Path, number: U32)
    requires xs != [] && DirSince(Init(xs), k, p, number) && !DirMember(Last(xs), p) && DirAt(xs, |xs|, p, number)
    ensures DirSince(xs, k, p, number)
  {
    hide StateAfter, DirMember;
    forall j | k <= j <= |xs|
      ensures DirAt(xs, j, p, number)
    {
      if j < |xs| {
        assert DirAt(Init(xs), j, p, number);
        assert xs[..j] == Init(xs)[..j];
      }
    }
  }

  /** A directory has mode, owner and time from the last directory member for its path since it was
      made; without one, those it was made with. */
  lemma {:induction false} DirMetaFrom(xs: seq<Member>, p: Path) returns (k: nat)
    requires IsDir(StateAfter(xs).nodes, p)
    ensures DirSince(xs, k, p, StateAfter(xs).nodes[p].number)
    ensures var i := StateAfter(xs).nodes[p];
            || (k > 0 && DirMember(xs[k - 1], p) && SameMeta(i, xs[k - 1].item))
            || (DefaultMeta(i) && (k == 0 || !IsDir(StateAfter(xs[..k - 1]).nodes, p)))
    decreases |xs|
  {
    hide StateAfter, Apply, DirMember, Components;
    assert xs[..|xs|] == xs;
    if xs == [] {
      k := 0;
      RootIsMade(p);
    } else {
      var s := StateAfter(Init(xs));
      var v := StateAfter(xs);
      assert xs[..|xs| - 1] == Init(xs);
      OneMember(xs);
      StateIsRooted(Init(xs));
      DirAfterEntry(s, ArrivalOf(Last(xs)), p);
      NamedByMember(Last(xs), p);
      if DirMember(Last(xs), p) || !IsDir(s.nodes, p) {
        k := |xs|;
      } else {
        k := DirMetaFrom(Init(xs), p);
        DirSinceLonger(xs, k, p, v.nodes[p].number);
        assert k > 0 ==> xs[..k - 1] == Init(xs)[..k - 1] && xs[k - 1] == Init(xs)[k - 1];
      }
    }
  }

  lemma NamedByMember(x: Member, p: Path)
    ensures DirMember(x, p) <==> ArrivalOf(x).item.inodeType == TYPE_DIR && Components(ArrivalOf(x).pathname) == p
    ensures ArrivalOf(x).item == x.item
  {
    hide Components;
  }

  lemma RootIsMade(p: Path)
    requires p in StateAfter([]).nodes
    ensures DefaultMeta(StateAfter([]).nodes[p])
  {
  }
}
