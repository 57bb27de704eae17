/** The client side: packing tails into fragments, deduplicating them, and emitting writes. */
module Fragments {
  import opened SquashDefs
  import opened PendingWrites

  datatype FragmentIndex = FragmentIndex(fragment: nat, offset: nat)

  /** `current` is the open fragment, numbered `count`; `dups` files the inodes whose tails
      were not found elsewhere under the checksums of those tails. */
  datatype Client = Client(
    current: Bytes,
    count: nat,
    indices: map<nat, FragmentIndex>,
    dups: map<int, seq<nat>>)

  const INITIAL_CLIENT := Client([], 0, map[], map[])

  /** What a file asks of the writer. */
  datatype WriterCall =
    | PutTail(inode: nat, data: Bytes)
    | PutBlock(inode: nat, data: Bytes)
    | PutDedup(inode: nat)

  function IndexOf(cs: Client, n: nat): FragmentIndex {
    if n in cs.indices then cs.indices[n] else FragmentIndex(FRAGMENT_NONE, 0)
  }

  function Candidates(cs: Client, sum: int): seq<nat> {
    if sum in cs.dups then cs.dups[sum] else []
  }

  predicate PrefixAt(data: Bytes, frag: Bytes, offset: nat) {
    |data| + offset <= |frag| && frag[offset..offset + |data|] == data
  }

  /** The contents of fragment `k`, flushed or still open. */
  function ContentAt(cs: Client, flushed: seq<Bytes>, k: nat): Bytes {
    if k == cs.count then cs.current else if k < |flushed| then flushed[k] else []
  }

  predicate Holds(cs: Client, flushed: seq<Bytes>, index: FragmentIndex, data: Bytes) {
    PrefixAt(data, ContentAt(cs, flushed, index.fragment), index.offset)
  }

  /** The latest candidate whose place holds `data`. */
  function Search(cs: Client, flushed: seq<Bytes>, data: Bytes, candidates: seq<nat>): Option<FragmentIndex> {
    if candidates == [] then
      None
    else if Holds(cs, flushed, IndexOf(cs, Last(candidates)), data) then
      Some(IndexOf(cs, Last(candidates)))
    else
      Search(cs, flushed, data, Init(candidates))
  }

  predicate NeedsFlush(cfg: Config, cs: Client, data: Bytes) {
    |cs.current| + |data| > cfg.blockSize && cs.current != []
  }

  function Flushed(cs: Client): Client {
    cs.(current := [], count := cs.count + 1)
  }

  function Place(cs: Client, n: nat, data: Bytes): Client {
    cs.(indices := cs.indices[n := FragmentIndex(cs.count, |cs.current|)], current := cs.current + data)
  }

  function File(cfg: Config, cs: Client, n: nat, data: Bytes): Client {
    var sum := cfg.cksum(data);
    cs.(dups := cs.dups[sum := Candidates(cs, sum) + [n]])
  }

  function PlaceNew(cfg: Config, cs: Client, n: nat, data: Bytes): (Client, seq<PendingWrite>) {
    if NeedsFlush(cfg, cs, data) then
      (Place(Flushed(cs), n, data), [Fragment(cs.current)])
    else
      (Place(cs, n, data), [])
  }

  /** `flushed` is what reading back the flushed fragments gives. */
  function PutFragment(cfg: Config, cs: Client, flushed: seq<Bytes>, n: nat, data: Bytes): (Client, seq<PendingWrite>) {
    if !cfg.dedup then
      PlaceNew(cfg, cs, n, data)
    else
      match Search(cs, flushed, data, Candidates(cs, cfg.cksum(data)))
      case Some(index) => (cs.(indices := cs.indices[n := index]), [])
      case None => PlaceNew(cfg, File(cfg, cs, n, data), n, data)
  }

  function Call(cfg: Config, cs: Client, flushed: seq<Bytes>, call: WriterCall): (Client, seq<PendingWrite>) {
    match call
    case PutTail(n, data) => PutFragment(cfg, cs, flushed, n, data)
    case PutBlock(n, data) => (cs, [Block(data, n)])
    case PutDedup(n) => (cs, if cfg.dedup then [Dedup(n)] else [])
  }

  function FinishData(cs: Client): (Client, seq<PendingWrite>) {
    if cs.current == [] then (cs, []) else (Flushed(cs), [Fragment(cs.current)])
  }

  /** A client alone: its decisions look at the fragments it has sent, not at any file. */
  datatype Progress = Progress(client: Client, sent: seq<PendingWrite>)

  const NO_PROGRESS := Progress(INITIAL_CLIENT, [])

  function SentFragments(p: Progress): seq<Bytes> {
    MeaningOf(p.sent).fragments
  }

  function After(p: Progress, step: (Client, seq<PendingWrite>)): Progress {
    Progress(step.0, p.sent + step.1)
  }

  function RunCall(cfg: Config, p: Progress, call: WriterCall): Progress {
    After(p, Call(cfg, p.client, SentFragments(p), call))
  }

  function RunCalls(cfg: Config, p: Progress, calls: seq<WriterCall>): Progress
    decreases |calls|
  {
    if calls == [] then p else RunCalls(cfg, RunCall(cfg, p, calls[0]), calls[1..])
  }

  function Finish(p: Progress): Progress {
    After(p, FinishData(p.client))
  }

  // ---- Invariants ----

  /** Every tail given out sits, whole, where its index says. */
  ghost predicate TailsHeld(cs: Client, flushed: seq<Bytes>, tails: map<nat, Bytes>) {
    && cs.indices.Keys == tails.Keys
    && forall n :: n in tails ==> cs.indices[n].fragment <= cs.count && Holds(cs, flushed, cs.indices[n], tails[n])
  }

  /** `i` is filed under the sum of `n`'s tail and shares its place. */
  predicate Stands(cfg: Config, cs: Client, tails: map<nat, Bytes>, n: nat, i: nat)
    requires n in tails
  {
    i in Candidates(cs, cfg.cksum(tails[n])) && IndexOf(cs, i) == IndexOf(cs, n)
  }

  ghost predicate Represented(cfg: Config, cs: Client, tails: map<nat, Bytes>, n: nat)
    requires n in tails
  {
    exists i :: Stands(cfg, cs, tails, n, i)
  }

  ghost predicate FiledOk(cfg: Config, cs: Client, tails: map<nat, Bytes>) {
    && (forall sum, i :: sum in cs.dups && i in cs.dups[sum] ==> i in cs.indices)
    && (cfg.dedup ==> forall n :: n in tails ==> Represented(cfg, cs, tails, n))
  }

  ghost predicate ClientInv(cfg: Config, cs: Client, flushed: seq<Bytes>, tails: map<nat, Bytes>) {
    && cs.count == |flushed|
    && |cs.current| <= cfg.blockSize
    && TailsHeld(cs, flushed, tails)
    && FiledOk(cfg, cs, tails)
  }

  lemma {:induction false} SearchFinds(cs: Client, flushed: seq<Bytes>, data: Bytes, candidates: seq<nat>)
    ensures match Search(cs, flushed, data, candidates)
            case Some(index) => Holds(cs, flushed, index, data)
                                && exists i :: i in candidates && index == IndexOf(cs, i)
            case None => forall i :: i in candidates ==> !Holds(cs, flushed, IndexOf(cs, i), data)
  {
    if candidates != [] {
      SearchFinds(cs, flushed, data, Init(candidates));
      assert candidates == Init(candidates) + [Last(candidates)];
    }
  }

  /** Candidate `k` is the one found: it holds the tail and none after it does. */
  predicate LatestAt(cs: Client, flushed: seq<Bytes>, data: Bytes, candidates: seq<nat>, k: nat) {
    && k < |candidates| && Holds(cs, flushed, IndexOf(cs, candidates[k]), data)
    && forall j :: k < j < |candidates| ==> !Holds(cs, flushed, IndexOf(cs, candidates[j]), data)
  }

  /** Of several places that hold the tail the search gives that of the inode filed last. */
  lemma {:induction false} SearchTakesLatest(cs: Client, flushed: seq<Bytes>, data: Bytes, candidates: seq<nat>)
    requires Search(cs, flushed, data, candidates).Some?
    ensures exists k: nat :: LatestAt(cs, flushed, data, candidates, k)
                        && Search(cs, flushed, data, candidates).value == IndexOf(cs, candidates[k])
  {
    hide Holds;
    var front := Init(candidates);
    if Holds(cs, flushed, IndexOf(cs, Last(candidates)), data) {
      assert LatestAt(cs, flushed, data, candidates, |candidates| - 1);
    } else {
      SearchTakesLatest(cs, flushed, data, front);
      var k: nat :| LatestAt(cs, flushed, data, front, k)
                    && Search(cs, flushed, data, front).value == IndexOf(cs, front[k]);
      assert forall j :: 0 <= j < |front| ==> front[j] == candidates[j];
      assert LatestAt(cs, flushed, data, candidates, k);
    }
  }

  /** Flushing the open fragment, or adding to it, keeps what every place holds. */
  lemma FlushKeepsHeld(cs: Client, flushed: seq<Bytes>, index: FragmentIndex, data: Bytes)
    requires cs.count == |flushed| && index.fragment <= cs.count && Holds(cs, flushed, index, data)
    ensures Holds(Flushed(cs), flushed + [cs.current], index, data)
  {
  }

  lemma PlaceKeepsHeld(cs: Client, flushed: seq<Bytes>, n: nat, more: Bytes, index: FragmentIndex, data: Bytes)
    requires cs.count == |flushed| && index.fragment <= cs.count && Holds(cs, flushed, index, data)
    ensures Holds(Place(cs, n, more), flushed, index, data)
  {
    var grown := cs.current + more;
    if index.fragment == cs.count {
      assert grown[index.offset..index.offset + |data|] == cs.current[index.offset..index.offset + |data|];
    }
  }

  lemma PlaceHolds(cs: Client, flushed: seq<Bytes>, n: nat, data: Bytes)
    requires cs.count == |flushed|
    ensures Holds(Place(cs, n, data), flushed, IndexOf(Place(cs, n, data), n), data)
  {
    var grown := cs.current + data;
    assert grown[|cs.current|..|cs.current| + |data|] == data;
  }

  lemma FlushKeepsInv(cfg: Config, cs: Client, flushed: seq<Bytes>, tails: map<nat, Bytes>)
    requires ClientInv(cfg, cs, flushed, tails)
    ensures ClientInv(cfg, Flushed(cs), flushed + [cs.current], tails)
  {
    hide Holds, Represented;
    var v := Flushed(cs);
    forall n | n in tails
      ensures Holds(v, flushed + [cs.current], v.indices[n], tails[n])
    {
      FlushKeepsHeld(cs, flushed, cs.indices[n], tails[n]);
    }
    forall n | n in tails && cfg.dedup
      ensures Represented(cfg, v, tails, n)
    {
      StillRepresented(cfg, cs, tails, v, tails, n);
    }
  }

  /** Where a new tail goes in, once there is room. */
  function Added(cfg: Config, cs: Client, n: nat, data: Bytes): Client {
    Place(if cfg.dedup then File(cfg, cs, n, data) else cs, n, data)
  }

  lemma AddedKeepsInv(cfg: Config, cs: Client, flushed: seq<Bytes>, tails: map<nat, Bytes>, n: nat, data: Bytes)
    requires ClientInv(cfg, cs, flushed, tails) && n !in tails && |cs.current| + |data| <= cfg.blockSize
    ensures ClientInv(cfg, Added(cfg, cs, n, data), flushed, tails[n := data])
  {
    hide Holds, Represented, Candidates;
    var v := Added(cfg, cs, n, data);
    forall k | k in tails[n := data]
      ensures v.indices[k].fragment <= v.count && Holds(v, flushed, v.indices[k], tails[n := data][k])
    {
      if k == n {
        PlaceHolds(if cfg.dedup then File(cfg, cs, n, data) else cs, flushed, n, data);
      } else {
        FileKeepsHeld(cfg, cs, flushed, n, data, cs.indices[k], tails[k]);
        PlaceKeepsHeld(if cfg.dedup then File(cfg, cs, n, data) else cs, flushed, n, data, cs.indices[k], tails[k]);
      }
    }
    AddedKeepsFiled(cfg, cs, tails, n, data);
  }

  lemma FileKeepsHeld(cfg: Config, cs: Client, flushed: seq<Bytes>, n: nat, more: Bytes, index: FragmentIndex,
                      data: Bytes)
    ensures Holds(File(cfg, cs, n, more), flushed, index, data) == Holds(cs, flushed, index, data)
  {
  }

  lemma AddedKeepsFiled(cfg: Config, cs: Client, tails: map<nat, Bytes>, n: nat, data: Bytes)
    requires FiledOk(cfg, cs, tails) && cs.indices.Keys == tails.Keys && n !in tails
    ensures FiledOk(cfg, Added(cfg, cs, n, data), tails[n := data])
  {
    hide Represented;
    var v, more := Added(cfg, cs, n, data), tails[n := data];
    if cfg.dedup {
      forall k | k in more
        ensures Represented(cfg, v, more, k)
      {
        if k == n {
          StandsIn(cfg, v, more, n, n);
        } else {
          StillRepresented(cfg, cs, tails, v, more, k);
        }
      }
    }
  }

  lemma StandsIn(cfg: Config, cs: Client, tails: map<nat, Bytes>, n: nat, i: nat)
    requires n in tails && Stands(cfg, cs, tails, n, i)
    ensures Represented(cfg, cs, tails, n)
  {
  }

  lemma StillRepresented(cfg: Config, cs: Client, tails: map<nat, Bytes>, v: Client, more: map<nat, Bytes>, k: nat)
    requires k in tails && k in more && more[k] == tails[k] && Represented(cfg, cs, tails, k)
    requires forall i :: i in Candidates(cs, cfg.cksum(tails[k])) ==>
               i in Candidates(v, cfg.cksum(tails[k])) && i in cs.indices
    requires forall i :: (i in cs.indices || i == k) ==> IndexOf(v, i) == IndexOf(cs, i)
    ensures Represented(cfg, v, more, k)
  {
    var i :| Stands(cfg, cs, tails, k, i);
    StandsIn(cfg, v, more, k, i);
  }

  /** A hit points `n` at a place that already holds its tail. */
  lemma HitKeepsInv(cfg: Config, cs: Client, flushed: seq<Bytes>, tails: map<nat, Bytes>, n: nat, data: Bytes, i: nat)
    requires ClientInv(cfg, cs, flushed, tails) && n !in tails
    requires i in Candidates(cs, cfg.cksum(data)) && Holds(cs, flushed, IndexOf(cs, i), data)
    ensures ClientInv(cfg, cs.(indices := cs.indices[n := IndexOf(cs, i)]), flushed, tails[n := data])
  {
    hide Represented;
    var v, more := cs.(indices := cs.indices[n := IndexOf(cs, i)]), tails[n := data];
    assert i in cs.indices;
    if cfg.dedup {
      forall k | k in more
        ensures Represented(cfg, v, more, k)
      {
        if k == n {
          StandsIn(cfg, v, more, n, i);
        } else {
          StillRepresented(cfg, cs, tails, v, more, k);
        }
      }
    }
  }

  /** Packing a tail keeps every earlier place valid and gives the new tail a place that holds
      it; it flushes at most the open fragment, which becomes the next fragment. */
  lemma PutFragmentKeepsInv(cfg: Config, cs: Client, flushed: seq<Bytes>, tails: map<nat, Bytes>, n: nat, data: Bytes)
    requires ClientInv(cfg, cs, flushed, tails) && n !in tails && 0 < |data| < cfg.blockSize
    ensures var (cs', out) := PutFragment(cfg, cs, flushed, n, data);
            && (out == [] || (out == [Fragment(cs.current)] && cs.current != []))
            && ClientInv(cfg, cs', flushed + (if out == [] then [] else [cs.current]), tails[n := data])
            && (forall k :: k in tails ==> IndexOf(cs', k) == IndexOf(cs, k))
  {
    hide Holds, FiledOk, TailsHeld, Candidates;
    var candidates := Candidates(cs, cfg.cksum(data));
    var (cs', out) := PutFragment(cfg, cs, flushed, n, data);
    SearchFinds(cs, flushed, data, candidates);
    assert flushed + [] == flushed;
    if cfg.dedup && Search(cs, flushed, data, candidates).Some? {
      var i :| i in candidates && Search(cs, flushed, data, candidates).value == IndexOf(cs, i);
      HitKeepsInv(cfg, cs, flushed, tails, n, data, i);
    } else if NeedsFlush(cfg, cs, data) {
      FlushKeepsInv(cfg, cs, flushed, tails);
      FlushThenFile(cfg, cs, n, data);
      AddedKeepsInv(cfg, Flushed(cs), flushed + [cs.current], tails, n, data);
    } else {
      AddedKeepsInv(cfg, cs, flushed, tails, n, data);
    }
  }

  lemma FlushThenFile(cfg: Config, cs: Client, n: nat, data: Bytes)
    ensures File(cfg, Flushed(cs), n, data) == Flushed(File(cfg, cs, n, data))
  {
  }

  /** A tail put a second time always hits: nothing is emitted, nothing is added to the open
      fragment, and it gets a place that holds it. */
  lemma SecondCopyHits(cfg: Config, cs: Client, flushed: seq<Bytes>, tails: map<nat, Bytes>, n: nat, again: nat)
    requires ClientInv(cfg, cs, flushed, tails) && cfg.dedup && n in tails
    ensures var (cs', out) := PutFragment(cfg, cs, flushed, again, tails[n]);
            && out == []
            && cs'.current == cs.current && cs'.count == cs.count && cs'.dups == cs.dups
            && Holds(cs', flushed, IndexOf(cs', again), tails[n])
  {
    hide Holds;
    var data := tails[n];
    assert Represented(cfg, cs, tails, n);
    var i :| Stands(cfg, cs, tails, n, i);
    SearchFinds(cs, flushed, data, Candidates(cs, cfg.cksum(data)));
    assert Holds(cs, flushed, IndexOf(cs, i), data);
    HoldsFrame(cs, cs.(indices := cs.indices[again := IndexOf(cs, i)]), flushed);
    var index := Search(cs, flushed, data, Candidates(cs, cfg.cksum(data))).value;
    HoldsFrame(cs, cs.(indices := cs.indices[again := index]), flushed);
  }

  lemma HoldsFrame(cs: Client, v: Client, flushed: seq<Bytes>)
    requires v.current == cs.current && v.count == cs.count
    ensures forall index, data :: Holds(v, flushed, index, data) == Holds(cs, flushed, index, data)
  {
  }

  // ---- Where a tail goes ----

  /** Some filed tail is this tail. */
  predicate Found(cfg: Config, cs: Client, flushed: seq<Bytes>, data: Bytes) {
    cfg.dedup
    && exists i :: i in Candidates(cs, cfg.cksum(data)) && Holds(cs, flushed, IndexOf(cs, i), data)
  }

  /** A new tail goes behind what the open fragment has when both fit a block; else the open
      fragment is flushed and the tail starts the next one. A tail already held goes nowhere. */
  lemma WhereATailGoes(cfg: Config, cs: Client, flushed: seq<Bytes>, n: nat, data: Bytes)
    ensures var (cs', out) := PutFragment(cfg, cs, flushed, n, data);
            var fits := cs.current == [] || |cs.current| + |data| <= cfg.blockSize;
            if Found(cfg, cs, flushed, data) then
              out == [] && cs'.current == cs.current && cs'.count == cs.count
            else if fits then
              && out == [] && cs'.current == cs.current + data && cs'.count == cs.count
              && n in cs'.indices && cs'.indices[n] == FragmentIndex(cs.count, |cs.current|)
            else
              && out == [Fragment(cs.current)] && cs'.current == data && cs'.count == cs.count + 1
              && n in cs'.indices && cs'.indices[n] == FragmentIndex(cs.count + 1, 0)
  {
    hide Holds;
    SearchFinds(cs, flushed, data, Candidates(cs, cfg.cksum(data)));
    assert [] + data == data;
  }

  /** A tail that fits never flushes, whatever is filed. */
  lemma RoomMeansNoFlush(cfg: Config, cs: Client, flushed: seq<Bytes>, n: nat, data: Bytes)
    requires |cs.current| + |data| <= cfg.blockSize
    ensures PutFragment(cfg, cs, flushed, n, data).1 == []
  {
    hide Holds;
    WhereATailGoes(cfg, cs, flushed, n, data);
  }
}
