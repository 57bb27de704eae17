/** Paths as lists of components, and the tree as a map from them: what any sequence of
    archive entries is supposed to leave. */
module PathModel {
  import opened SquashDefs

  type Path = seq<Bytes>

  const SLASH: U8 := 0x2f

  // ---- Splitting a path ----

  function FirstSlash(s: Bytes): (i: nat)
    ensures i <= |s| && SLASH !in s[..i]
    ensures i < |s| ==> s[i] == SLASH
  {
    if s == [] || s[0] == SLASH then 0
    else
      var i := 1 + FirstSlash(s[1..]);
      assert s[..i] == [s[0]] + s[1..][..i - 1];
      i
  }

  /** The components between slashes, empty ones left out. */
  function Components(s: Bytes): Path
    decreases |s|
  {
    if s == [] then []
    else
      var i := FirstSlash(s);
      (if i == 0 then [] else [s[..i]]) + if i < |s| then Components(s[i + 1..]) else []
  }

  function LastSlash(s: Bytes): (i: Option<nat>)
    ensures i.Some? ==> i.value < |s| && s[i.value] == SLASH && SLASH !in s[i.value + 1..]
    ensures i.None? ==> SLASH !in s
  {
    if s == [] then None
    else if Last(s) == SLASH then Some(|s| - 1)
    else
      var i := LastSlash(Init(s));
      assert i.Some? ==> s[i.value + 1..] == Init(s)[i.value + 1..] + [Last(s)];
      assert s == Init(s) + [Last(s)];
      i
  }

  function NamePart(s: Bytes): (name: Bytes)
    ensures SLASH !in name
  {
    match LastSlash(s)
    case Some(i) => s[i + 1..]
    case None => s
  }

  function ParentPart(s: Bytes): Bytes {
    match LastSlash(s)
    case Some(i) => s[..i]
    case None => [SLASH]
  }

  /** Where a file put under `s` goes. */
  function Target(s: Bytes): Path {
    Components(ParentPart(s)) + [NamePart(s)]
  }

  lemma OneComponent(s: Bytes)
    requires SLASH !in s
    ensures Components(s) == if s == [] then [] else [s]
  {
    if s != [] {
      var i := FirstSlash(s);
      assert i < |s| ==> SLASH in s;
      assert s[..|s|] == s;
    }
  }

  lemma {:induction false} ComponentsAppend(s: Bytes, name: Bytes)
    ensures Components(s + [SLASH] + name) == Components(s) + Components(name)
    decreases |s|
  {
    hide FirstSlash, Components;
    var t := s + [SLASH] + name;
    var i := FirstSlash(t);
    SlashComesFirst(s, name);
    ComponentsStep(t);
    if i < |s| {
      ComponentsStep(s);
      assert t[..i] == s[..i];
      assert t[i + 1..] == s[i + 1..] + [SLASH] + name;
      ComponentsAppend(s[i + 1..], name);
    } else {
      assert t[..i] == s && t[i + 1..] == name;
      OneComponent(s);
    }
  }

  lemma ComponentsStep(s: Bytes)
    requires s != []
    ensures var i := FirstSlash(s);
            Components(s) == (if i == 0 then [] else [s[..i]]) + if i < |s| then Components(s[i + 1..]) else []
  {
    hide FirstSlash;
  }

  lemma {:induction false} SlashComesFirst(s: Bytes, name: Bytes)
    ensures FirstSlash(s + [SLASH] + name) == FirstSlash(s)
    ensures SLASH in s <==> FirstSlash(s) < |s|
  {
    if s != [] && s[0] != SLASH {
      assert (s + [SLASH] + name)[1..] == s[1..] + [SLASH] + name;
      SlashComesFirst(s[1..], name);
      assert SLASH in s <==> SLASH in s[1..];
    }
  }

  /** How a path is split, whole: at every slash (byte 0x2f), and what is between two slashes is a
      component unless it is empty. */
  lemma PathSplits(a: Bytes, b: Bytes)
    ensures Components(a + [0x2f] + b) == Components(a) + Components(b)
    ensures 0x2f !in a ==> Components(a) == if a == [] then [] else [a]
  {
    hide Components;
    ComponentsAppend(a, b);
    if 0x2f !in a {
      OneComponent(a);
    }
  }

  /** A file goes to its path's components exactly when the path does not end in a slash; else
      it goes under them, by an empty name. */
  lemma TargetIff(s: Bytes)
    ensures Target(s) == Components(s) <==> s != [] && Last(s) != SLASH
    ensures s == [] || Last(s) == SLASH ==> Target(s) == Components(s) + [[]]
  {
    hide Components;
    match LastSlash(s)
    case Some(i) =>
      assert s == s[..i] + [SLASH] + s[i + 1..];
      ComponentsAppend(s[..i], s[i + 1..]);
      OneComponent(s[i + 1..]);
      assert i + 1 < |s| ==> Last(s) in s[i + 1..] by {
        assert i + 1 < |s| ==> s[i + 1..][|s| - i - 2] == Last(s);
      }
      assert Components(s[..i]) + [] == Components(s[..i]);
    case None =>
      SlashAlone();
      OneComponent(s);
      assert s != [] ==> Last(s) in s;
  }

  lemma SlashAlone()
    ensures Components([SLASH]) == []
  {
  }

  // ---- The map model ----

  datatype Payload = Plain | LinkTo(target: Bytes) | DeviceNumber(rdev: U32)

  /** What a node is, apart from its entries. */
  datatype Info = Info(inodeType: U16, mode: U16, uid: U32, gid: U32, mtime: U32, number: U32, payload: Payload)

  /** What the archive says of an entry. */
  datatype Item = Item(inodeType: U16, mode: U16, uid: U32, gid: U32, mtime: U32, payload: Payload)

  type Model = map<Path, Info>

  /** The nodes, and how many numbers have been given out and the next one: they start at 1. */
  datatype PathState = PathState(nodes: Model, next: nat)

  function Numbered(x: Item, number: nat): Info {
    Info(x.inodeType, x.mode, x.uid, x.gid, x.mtime, number % 0x1_0000_0000, x.payload)
  }

  /** A directory made on the way to something else. */
  const MADE_DIR := Item(TYPE_DIR, 0x1ed, 0, 0, 0, Plain)

  const EMPTY_ROOT := PathState(map[[] := Numbered(MADE_DIR, 1)], 2)

  predicate IsDir(m: Model, p: Path) {
    p in m && m[p].inodeType == TYPE_DIR
  }

  /** Everything at and under `p` goes, and `x` takes its place. */
  function PutAt(m: Model, p: Path, x: Info): Model {
    (map q | q in m && !(p <= q) :: m[q])[p := x]
  }

  function EnsureDir(s: PathState, p: Path): PathState {
    if IsDir(s.nodes, p) then s else PathState(PutAt(s.nodes, p, Numbered(MADE_DIR, s.next)), s.next + 1)
  }

  /** All directories on the way to `p`, and `p` itself. */
  function EnsureDirs(s: PathState, p: Path): PathState {
    if p == [] then s else EnsureDir(EnsureDirs(s, Init(p)), p)
  }

  /** The file gets its number before any missing parent gets one. */
  function PutFile(s: PathState, p: Path, x: Item): PathState
    requires p != []
  {
    var t := EnsureDirs(s.(next := s.next + 1), Init(p));
    t.(nodes := PutAt(t.nodes, p, Numbered(x, s.next)))
  }

  function SetMeta(i: Info, x: Item): Info {
    i.(mode := x.mode, uid := x.uid, gid := x.gid, mtime := x.mtime)
  }

  /** A directory entry only updates what is there; its number and entries stay. */
  function PutDir(s: PathState, p: Path, x: Item): PathState {
    var t := EnsureDirs(s, p);
    if p in t.nodes then t.(nodes := t.nodes[p := SetMeta(t.nodes[p], x)]) else t
  }

  /** An archive entry, as the main loop sees it. */
  datatype Arrival = Arrival(pathname: Bytes, item: Item)

  function Apply(s: PathState, e: Arrival): PathState {
    if e.item.inodeType == TYPE_DIR then PutDir(s, Components(e.pathname), e.item)
    else PutFile(s, Target(e.pathname), e.item)
  }

  function ApplyAll(es: seq<Arrival>): PathState {
    if es == [] then EMPTY_ROOT else Apply(ApplyAll(Init(es)), Last(es))
  }

  // ---- What every run keeps ----

  /** The root is a directory, and every other node is in one. */
  ghost predicate Rooted(m: Model) {
    IsDir(m, []) && forall p :: p in m && p != [] ==> IsDir(m, Init(p))
  }

  /** Live numbers are distinct and between 1 and the last one given. */
  ghost predicate NumbersOk(s: PathState) {
    && (forall p :: p in s.nodes ==> 1 <= s.nodes[p].number < s.next)
    && (forall p, q :: p in s.nodes && q in s.nodes && s.nodes[p].number == s.nodes[q].number ==> p == q)
  }

  lemma PrefixOfInit(p: Path, q: Path)
    requires q != []
    ensures p <= q <==> p <= Init(q) || p == q
  {
    assert q == Init(q) + [Last(q)];
  }

  lemma PutKeepsRooted(m: Model, p: Path, x: Info)
    requires Rooted(m) && p != [] && IsDir(m, Init(p))
    ensures Rooted(PutAt(m, p, x))
  {
    var v := PutAt(m, p, x);
    forall q | q in v && q != []
      ensures IsDir(v, Init(q))
    {
      PrefixOfInit(p, q);
      if q == p {
        assert !(p <= Init(p));
      }
    }
  }

  /** Making directories leaves the root and everything it does not have to replace. */
  lemma {:induction false} EnsureDirsRooted(s: PathState, p: Path)
    requires Rooted(s.nodes)
    ensures Rooted(EnsureDirs(s, p).nodes) && IsDir(EnsureDirs(s, p).nodes, p)
    decreases |p|
  {
    hide PutAt, Rooted;
    if p == [] {
      assert Rooted(s.nodes) ==> IsDir(s.nodes, []) by { RootedRoot(s.nodes); }
    } else {
      EnsureDirsRooted(s, Init(p));
      var t := EnsureDirs(s, Init(p));
      if !IsDir(t.nodes, p) {
        PutKeepsRooted(t.nodes, p, Numbered(MADE_DIR, t.next));
        PutThere(t.nodes, p, Numbered(MADE_DIR, t.next));
      }
    }
  }

  lemma RootedRoot(m: Model)
    ensures Rooted(m) ==> IsDir(m, [])
  {
  }

  lemma PutThere(m: Model, p: Path, x: Info)
    ensures p in PutAt(m, p, x) && PutAt(m, p, x)[p] == x
  {
  }

  lemma {:induction false} EveryRunIsRooted(es: seq<Arrival>)
    ensures Rooted(ApplyAll(es).nodes)
  {
    hide PutAt, EnsureDirs, Components, Rooted, Target;
    if es == [] {
      RootAlone();
    } else {
      EveryRunIsRooted(Init(es));
      ApplyKeepsRooted(ApplyAll(Init(es)), Last(es));
    }
  }

  lemma RootAlone()
    ensures Rooted(EMPTY_ROOT.nodes) && NumbersOk(EMPTY_ROOT)
  {
  }

  lemma ApplyKeepsRooted(s: PathState, e: Arrival)
    requires Rooted(s.nodes)
    ensures Rooted(Apply(s, e).nodes)
  {
    hide PutAt, EnsureDirs, Components, Rooted;
    if e.item.inodeType == TYPE_DIR {
      var p := Components(e.pathname);
      EnsureDirsRooted(s, p);
      MetaKeepsRooted(EnsureDirs(s, p).nodes, p, e.item);
    } else {
      var p := Target(e.pathname);
      var s1 := s.(next := s.next + 1);
      EnsureDirsRooted(s1, Init(p));
      PutKeepsRooted(EnsureDirs(s1, Init(p)).nodes, p, Numbered(e.item, s.next));
    }
  }

  lemma MetaKeepsRooted(m: Model, p: Path, x: Item)
    requires Rooted(m) && p in m
    ensures Rooted(m[p := SetMeta(m[p], x)])
  {
  }

  // ---- Numbers ----

  lemma PutKeepsNumbers(s: PathState, p: Path, x: Info, next: nat)
    requires NumbersOk(s) && s.next <= next && 1 <= x.number < next
    requires forall q :: q in s.nodes ==> s.nodes[q].number != x.number
    ensures NumbersOk(PathState(PutAt(s.nodes, p, x), next))
  {
  }

  /** Nobody has a number between the ones given so far and the next. */
  ghost predicate NotYetGiven(m: Model, n: nat) {
    forall q :: q in m ==> m[q].number != n
  }

  lemma {:induction false} EnsureDirsNumbers(s: PathState, p: Path, reserved: nat)
    requires NumbersOk(s) && NotYetGiven(s.nodes, reserved) && reserved < s.next
    requires EnsureDirs(s, p).next <= 0x1_0000_0000
    ensures NumbersOk(EnsureDirs(s, p)) && NotYetGiven(EnsureDirs(s, p).nodes, reserved)
    ensures s.next <= EnsureDirs(s, p).next
    decreases |p|
  {
    hide PutAt, NumbersOk;
    if p != [] {
      EnsureDirsGrows(s, Init(p));
      EnsureDirsNumbers(s, Init(p), reserved);
      var t := EnsureDirs(s, Init(p));
      if !IsDir(t.nodes, p) {
        NextIsNew(t);
        PutKeepsNumbers(t, p, Numbered(MADE_DIR, t.next), t.next + 1);
        PutNumbers(t.nodes, p, Numbered(MADE_DIR, t.next), reserved);
      }
    }
  }

  lemma NextIsNew(s: PathState)
    requires NumbersOk(s)
    ensures NotYetGiven(s.nodes, s.next)
    ensures 1 <= s.next || s.nodes == map[]
  {
    if s.next == 0 {
      assert forall p :: p !in s.nodes;
    }
  }

  lemma PutNumbers(m: Model, p: Path, x: Info, n: nat)
    requires NotYetGiven(m, n) && x.number != n
    ensures NotYetGiven(PutAt(m, p, x), n)
  {
  }

  lemma {:induction false} EnsureDirsGrows(s: PathState, p: Path)
    ensures s.next <= EnsureDirs(s, p).next
    decreases |p|
  {
    hide PutAt;
    if p != [] {
      EnsureDirsGrows(s, Init(p));
    }
  }

  lemma ApplyGrows(s: PathState, e: Arrival)
    ensures s.next <= Apply(s, e).next
  {
    hide PutAt, EnsureDirs, Components;
    EnsureDirsGrows(s, Components(e.pathname));
    EnsureDirsGrows(s.(next := s.next + 1), Init(Target(e.pathname)));
  }

  lemma ApplyKeepsNumbers(s: PathState, e: Arrival)
    requires NumbersOk(s) && 1 <= s.next && Apply(s, e).next <= 0x1_0000_0000
    ensures NumbersOk(Apply(s, e))
  {
    hide PutAt, EnsureDirs, Components, NumbersOk;
    NextIsNew(s);
    NoZeroes(s);
    if e.item.inodeType == TYPE_DIR {
      var p := Components(e.pathname);
      EnsureDirsNumbers(s, p, 0);
      MetaKeepsNumbers(EnsureDirs(s, p), p, e.item);
    } else {
      var p := Target(e.pathname);
      var s1 := s.(next := s.next + 1);
      MoreNumbers(s);
      EnsureDirsNumbers(s1, Init(p), s.next);
      var t := EnsureDirs(s1, Init(p));
      PutKeepsNumbers(t, p, Numbered(e.item, s.next), t.next);
    }
  }

  lemma NoZeroes(s: PathState)
    requires NumbersOk(s)
    ensures NotYetGiven(s.nodes, 0)
  {
  }

  lemma MoreNumbers(s: PathState)
    requires NumbersOk(s)
    ensures NumbersOk(s.(next := s.next + 1))
  {
  }

  lemma MetaKeepsNumbers(s: PathState, p: Path, x: Item)
    requires NumbersOk(s)
    ensures p in s.nodes ==> NumbersOk(s.(nodes := s.nodes[p := SetMeta(s.nodes[p], x)]))
  {
  }

  /** After any archive: until the 32-bit numbers run out, live nodes have distinct numbers,
      between 1 and the last one given. */
  lemma {:induction false} NumbersAreDistinct(es: seq<Arrival>)
    requires ApplyAll(es).next <= 0x1_0000_0000
    ensures NumbersOk(ApplyAll(es)) && 2 <= ApplyAll(es).next
  {
    hide Apply, NumbersOk;
    if es == [] {
      RootAlone();
    } else {
      ApplyGrows(ApplyAll(Init(es)), Last(es));
      NumbersAreDistinct(Init(es));
      ApplyKeepsNumbers(ApplyAll(Init(es)), Last(es));
    }
  }

  lemma PutCount(m: Model, p: Path, x: Info)
    ensures |PutAt(m, p, x)| <= |m| + 1
  {
    var rest := map q | q in m && !(p <= q) :: m[q];
    SubsetCount(rest.Keys, m.Keys);
    assert |rest.Keys| == |rest| && |m.Keys| == |m|;
    assert PutAt(m, p, x) == rest[p := x];
  }

  lemma {:induction false} SubsetCount(a: set<Path>, b: set<Path>)
    requires a <= b
    ensures |a| <= |b|
    decreases |a|
  {
    if a != {} {
      var x :| x in a;
      SubsetCount(a - {x}, b - {x});
    }
  }

  lemma {:induction false} EnsureDirsCount(s: PathState, p: Path)
    ensures |EnsureDirs(s, p).nodes| - |s.nodes| <= EnsureDirs(s, p).next - s.next
    decreases |p|
  {
    hide PutAt;
    if p != [] {
      EnsureDirsCount(s, Init(p));
      var t := EnsureDirs(s, Init(p));
      PutCount(t.nodes, p, Numbered(MADE_DIR, t.next));
    }
  }

  lemma ApplyCount(s: PathState, e: Arrival)
    ensures |Apply(s, e).nodes| - |s.nodes| <= Apply(s, e).next - s.next
  {
    hide PutAt, EnsureDirs, Components;
    if e.item.inodeType == TYPE_DIR {
      var p := Components(e.pathname);
      EnsureDirsCount(s, p);
      SameCount(EnsureDirs(s, p).nodes, p, e.item);
    } else {
      var p, s1 := Target(e.pathname), s.(next := s.next + 1);
      EnsureDirsCount(s1, Init(p));
      PutCount(EnsureDirs(s1, Init(p)).nodes, p, Numbered(e.item, s.next));
    }
  }

  lemma SameCount(m: Model, p: Path, x: Item)
    ensures p in m ==> |m[p := SetMeta(m[p], x)]| == |m|
  {
    if p in m {
      assert m[p := SetMeta(m[p], x)].Keys == m.Keys;
      assert |m[p := SetMeta(m[p], x)].Keys| == |m[p := SetMeta(m[p], x)]| && |m.Keys| == |m|;
    }
  }

  /** There are never more live nodes than numbers given; replaced nodes keep theirs. */
  lemma {:induction false} LiveNodesAreCounted(es: seq<Arrival>)
    ensures |ApplyAll(es).nodes| <= ApplyAll(es).next - 1
  {
    hide Apply;
    if es != [] {
      LiveNodesAreCounted(Init(es));
      ApplyCount(ApplyAll(Init(es)), Last(es));
    }
  }

  // ---- What one entry changes, exactly ----

  /** A directory made on the way has mode 0755, owner 0 and time 0. */
  predicate IsMadeDir(i: Info) {
    i.inodeType == 8 && i.mode == 0x1ed && i.uid == 0 && i.gid == 0 && i.mtime == 0 && i.payload == Plain
  }

  /** How many of the first `k` directories on the way to `p` are not there. */
  function Missing(m: Model, p: Path, k: nat): nat
    requires k <= |p|
  {
    if k == 0 then 0 else Missing(m, p, k - 1) + if IsDir(m, p[..k]) then 0 else 1
  }

  lemma {:induction false} MissingBefore(m: Model, p: Path, k: nat)
    requires p != [] && k < |p|
    ensures Missing(m, p, k) == Missing(m, Init(p), k)
  {
    if k > 0 {
      MissingBefore(m, p, k - 1);
      assert p[..k] == Init(p)[..k];
    }
  }

  /** The directory that was missing at the first `k` components has the number of its turn. */
  predicate InTurn(m: Model, v: Model, p: Path, next: nat, k: nat)
    requires 0 < k <= |p|
  {
    !IsDir(m, p[..k]) ==> p[..k] in v && v[p[..k]].number == (next + Missing(m, p, k - 1)) % 0x1_0000_0000
  }

  /** The missing directories get the next numbers, the outermost first, and no number is left out. */
  lemma {:induction false} MadeInOrder(s: PathState, p: Path)
    requires Rooted(s.nodes)
    ensures EnsureDirs(s, p).next == s.next + Missing(s.nodes, p, |p|)
    ensures forall k :: 0 < k <= |p| ==> InTurn(s.nodes, EnsureDirs(s, p).nodes, p, s.next, k)
    decreases |p|
  {
    hide PutAt, Rooted, InTurn, MadeWay;
    if p != [] {
      var t, v := EnsureDirs(s, Init(p)), EnsureDirs(s, p);
      MadeInOrder(s, Init(p));
      MissingBefore(s.nodes, p, |p| - 1);
      EnsureDirsExactly(s, Init(p));
      EnsureDirsRooted(s, Init(p));
      assert p[..|p|] == p;
      SameAtPath(s.nodes, t.nodes, p);
      if !IsDir(t.nodes, p) {
        PutInTheWay(t.nodes, p, Numbered(MADE_DIR, t.next));
        PutThere(t.nodes, p, Numbered(MADE_DIR, t.next));
      }
      TurnsStay(s.nodes, t.nodes, v.nodes, p, s.next);
      LastInTurn(s.nodes, v.nodes, p, s.next);
    }
  }

  lemma LastInTurn(m: Model, v: Model, p: Path, next: nat)
    requires p != []
    requires IsDir(m, p) || (p in v && v[p].number == (next + Missing(m, p, |p| - 1)) % 0x1_0000_0000)
    ensures InTurn(m, v, p, next, |p|)
  {
    assert p[..|p|] == p;
  }

  lemma TurnsStay(m: Model, t: Model, v: Model, p: Path, next: nat)
    requires p != [] && forall q :: q in t && q != p ==> q in v && v[q] == t[q]
    requires forall k :: 0 < k < |p| ==> InTurn(m, t, Init(p), next, k)
    ensures forall k :: 0 < k < |p| ==> InTurn(m, v, p, next, k)
  {
    forall k | 0 < k < |p|
      ensures InTurn(m, v, p, next, k)
    {
      assert InTurn(m, t, Init(p), next, k);
      assert p[..k] == Init(p)[..k] && |p[..k]| != |p|;
      MissingBefore(m, p, k - 1);
    }
  }

  /** Making the parents does not make or remove what is under them. */
  lemma SameAtPath(m: Model, t: Model, p: Path)
    requires p != [] && MadeWay(m, t, Init(p))
    ensures IsDir(t, p) <==> IsDir(m, p)
  {
    assert !(p <= Init(p));
  }

  /** Making the directories of `p` adds what is missing on the way, turns what is in the way
      into directories, and changes nothing else. */
  ghost predicate MadeWay(m: Model, v: Model, p: Path) {
    && (forall q :: q in v <==> q in m || q <= p)
    && (forall q :: q <= p ==> IsDir(v, q))
    && (forall q :: q <= p && !IsDir(m, q) ==> IsMadeDir(v[q]))
    && (forall q :: q in m && (IsDir(m, q) || !(q <= p)) ==> v[q] == m[q])
  }

  lemma {:induction false} NothingUnderFiles(m: Model, p: Path, q: Path)
    requires Rooted(m) && !IsDir(m, p) && p <= q && p != q
    ensures q !in m
    decreases |q|
  {
    PrefixOfInit(p, q);
    if q in m && Init(q) != p {
      NothingUnderFiles(m, p, Init(q));
    }
  }

  /** At a path that is not a directory, only the path itself can be lost. */
  lemma PutInTheWay(m: Model, p: Path, x: Info)
    requires Rooted(m) && !IsDir(m, p)
    ensures forall q :: q in PutAt(m, p, x) <==> q in m || q == p
    ensures forall q :: q in m && q != p ==> PutAt(m, p, x)[q] == m[q]
  {
    forall q | q in m && q != p
      ensures !(p <= q)
    {
      if p <= q {
        NothingUnderFiles(m, p, q);
      }
    }
  }

  lemma {:induction false} EnsureDirsExactly(s: PathState, p: Path)
    requires Rooted(s.nodes)
    ensures MadeWay(s.nodes, EnsureDirs(s, p).nodes, p)
    decreases |p|
  {
    hide PutAt, Rooted;
    if p == [] {
      RootedRoot(s.nodes);
    } else {
      var t, v := EnsureDirs(s, Init(p)), EnsureDirs(s, p);
      EnsureDirsExactly(s, Init(p));
      EnsureDirsRooted(s, Init(p));
      if !IsDir(t.nodes, p) {
        PutInTheWay(t.nodes, p, Numbered(MADE_DIR, t.next));
        PutThere(t.nodes, p, Numbered(MADE_DIR, t.next));
      }
      OneStepFurther(s.nodes, t.nodes, v.nodes, p);
    }
  }

  lemma OneStepFurther(m: Model, t: Model, v: Model, p: Path)
    requires p != [] && MadeWay(m, t, Init(p)) && IsDir(v, p) && (IsDir(t, p) ==> v == t)
    requires forall q :: q in v <==> q in t || q == p
    requires forall q :: q in t && q != p ==> v[q] == t[q]
    requires !IsDir(t, p) ==> IsMadeDir(v[p])
    ensures MadeWay(m, v, p)
  {
    forall q
      ensures q in v <==> q in m || q <= p
      ensures q <= p ==> IsDir(v, q)
      ensures q <= p && !IsDir(m, q) ==> IsMadeDir(v[q])
      ensures q in m && (IsDir(m, q) || !(q <= p)) ==> v[q] == m[q]
    {
      PrefixOfInit(q, p);
      assert q <= Init(p) ==> IsDir(t, q);
    }
  }

  /** Putting a file: it is there, its parents are directories, what was at and under its path
      is gone, what was in the way of its parents is a directory now, the rest is as before. */
  lemma PutFileExactly(s: PathState, p: Path, x: Item)
    requires Rooted(s.nodes) && p != []
    ensures var m, v := s.nodes, PutFile(s, p, x).nodes;
            && (p in v && v[p] == Numbered(x, s.next))
            && (forall q :: q in v <==> q == p || (!(p <= q) && (q in m || q <= p)))
            && (forall q :: q <= p && q != p ==> IsDir(v, q) && (!IsDir(m, q) ==> IsMadeDir(v[q])))
            && (forall q :: q in m && !(p <= q) && (IsDir(m, q) || !(q <= p)) ==> v[q] == m[q])
  {
    hide Rooted, EnsureDirs;
    var m, v, t := s.nodes, PutFile(s, p, x).nodes, EnsureDirs(s.(next := s.next + 1), Init(p)).nodes;
    EnsureDirsExactly(s.(next := s.next + 1), Init(p));
    assert MadeWay(m, t, Init(p));
    forall q
      ensures q in v <==> q == p || (!(p <= q) && (q in m || q <= p))
      ensures q <= p && q != p ==> IsDir(v, q) && (!IsDir(m, q) ==> IsMadeDir(v[q]))
      ensures q in m && !(p <= q) && (IsDir(m, q) || !(q <= p)) ==> v[q] == m[q]
    {
      PrefixOfInit(q, p);
      assert q <= Init(p) ==> !(p <= q);
      assert q <= Init(p) ==> IsDir(t, q);
    }
  }

  /** What another file leaves alone, while numbers last: everything but what it replaces and
      what is in the way of its parents. */
  lemma SurvivesIff(s: PathState, p: Path, x: Item, q: Path)
    requires Rooted(s.nodes) && NumbersOk(s) && p != [] && q in s.nodes && x.inodeType != TYPE_DIR
    requires s.next < 0x1_0000_0000
    ensures var v := PutFile(s, p, x).nodes;
            (q in v && v[q] == s.nodes[q]) <==> !(p <= q) && (IsDir(s.nodes, q) || !(q <= p))
  {
    hide PutFile, Rooted;
    PutFileExactly(s, p, x);
    var m, v := s.nodes, PutFile(s, p, x).nodes;
    if p <= q {
      assert q in v ==> q == p;
      assert m[q].number < s.next;
    } else if q <= p {
      assert IsDir(v, q);
    }
  }

  /** A directory entry replaces nothing that is a directory and keeps every number. */
  lemma PutDirExactly(s: PathState, p: Path, x: Item)
    requires Rooted(s.nodes)
    ensures var m, v := s.nodes, PutDir(s, p, x).nodes;
            && (forall q :: q in v <==> q in m || q <= p)
            && (forall q :: q <= p ==> IsDir(v, q))
            && (forall q :: q <= p && q != p && !IsDir(m, q) ==> IsMadeDir(v[q]))
            && (v[p].mode == x.mode && v[p].uid == x.uid && v[p].gid == x.gid && v[p].mtime == x.mtime)
            && (IsDir(m, p) ==> v[p].number == m[p].number)
            && (forall q :: q in m && q != p && (IsDir(m, q) || !(q <= p)) ==> v[q] == m[q])
  {
    hide Rooted, EnsureDirs;
    EnsureDirsExactly(s, p);
    var m, t, v := s.nodes, EnsureDirs(s, p).nodes, PutDir(s, p, x).nodes;
    assert p <= p;
    assert IsDir(t, p);
    forall q
      ensures q <= p ==> IsDir(v, q)
    {
      assert q <= p ==> IsDir(t, q);
    }
  }
}
