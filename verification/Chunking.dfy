/** Cutting a byte stream into full blocks of a fixed size and a rest. Both the
    file-data path and the metadata path buffer bytes this way. */
module Chunking {
  import opened SquashDefs
  import opened Arithmetic

  function FullChunks(size: nat, s: Bytes): (chunks: seq<Bytes>)
    requires 0 < size
    ensures forall c :: c in chunks ==> |c| == size
    decreases |s|
  {
    if |s| < size then [] else [s[..size]] + FullChunks(size, s[size..])
  }

  function Rest(size: nat, s: Bytes): (r: Bytes)
    requires 0 < size
    ensures |r| < size
    decreases |s|
  {
    if |s| < size then s else Rest(size, s[size..])
  }

  function Flat(chunks: seq<Bytes>): Bytes {
    if chunks == [] then [] else chunks[0] + Flat(chunks[1..])
  }

  /** Chunks of a whole finished stream: the rest is a last, shorter chunk. */
  function AllChunks(size: nat, s: Bytes): seq<Bytes>
    requires 0 < size
  {
    FullChunks(size, s) + if Rest(size, s) == [] then [] else [Rest(size, s)]
  }

  lemma {:induction false} FlatAppend(a: seq<Bytes>, b: seq<Bytes>)
    ensures Flat(a + b) == Flat(a) + Flat(b)
  {
    if a == [] {
      assert a + b == b;
    } else {
      assert (a + b)[1..] == a[1..] + b;
      FlatAppend(a[1..], b);
    }
  }

  lemma FlatNone()
    ensures Flat([]) == []
  {
  }

  lemma FlatSnoc(chunks: seq<Bytes>)
    requires chunks != []
    ensures Flat(chunks) == Flat(Init(chunks)) + Last(chunks)
  {
    FlatAppend(Init(chunks), [Last(chunks)]);
    assert Init(chunks) + [Last(chunks)] == chunks;
    assert Flat([Last(chunks)]) == Last(chunks);
  }

  /** Nothing is lost or reordered by the cut. */
  lemma {:induction false} ChunksCover(size: nat, s: Bytes)
    requires 0 < size
    ensures Flat(FullChunks(size, s)) + Rest(size, s) == s
    decreases |s|
  {
    if |s| >= size {
      ChunksCover(size, s[size..]);
      assert FullChunks(size, s)[1..] == FullChunks(size, s[size..]);
      assert s == s[..size] + s[size..];
    }
  }

  /** The shape of the cut follows from the length alone. */
  lemma {:induction false} ChunksCount(size: nat, s: Bytes)
    requires 0 < size
    ensures |FullChunks(size, s)| == |s| / size
    ensures |Rest(size, s)| == |s| % size
    decreases |s|
  {
    if |s| >= size {
      ChunksCount(size, s[size..]);
      StepDown(size, |s|);
    } else {
      Below(size, |s|);
    }
  }

  /** Cutting a longer stream only continues from the rest of the shorter one. */
  lemma {:induction false} ChunksAppend(size: nat, s: Bytes, t: Bytes)
    requires 0 < size
    ensures FullChunks(size, s + t) == FullChunks(size, s) + FullChunks(size, Rest(size, s) + t)
    ensures Rest(size, s + t) == Rest(size, Rest(size, s) + t)
    decreases |s|
  {
    if |s| >= size {
      assert (s + t)[..size] == s[..size];
      assert (s + t)[size..] == s[size..] + t;
      ChunksAppend(size, s[size..], t);
    }
  }

  lemma {:induction false} AllChunksCover(size: nat, s: Bytes)
    requires 0 < size
    ensures Flat(AllChunks(size, s)) == s
    ensures forall c :: c in AllChunks(size, s) ==> 0 < |c| <= size
  {
    ChunksCover(size, s);
    var r := Rest(size, s);
    if r != [] {
      FlatAppend(FullChunks(size, s), [r]);
      assert Flat([r]) == r;
    } else {
      assert AllChunks(size, s) == FullChunks(size, s);
    }
  }

  lemma AllChunksCount(size: nat, s: Bytes)
    requires 0 < size
    ensures |AllChunks(size, s)| == (|s| + size - 1) / size
  {
    ChunksCount(size, s);
    RoundUp(size, |s|);
  }

  /** Full chunk `k` is the stream's bytes from `size * k` on, and the rest is what is behind them. */
  lemma {:induction false} ChunkAt(size: nat, s: Bytes, k: nat, at: nat)
    requires 0 < size && k < |FullChunks(size, s)| && at == size * k
    ensures at + size <= |s| && FullChunks(size, s)[k] == s[at..at + size]
    decreases k
  {
    hide FullChunks;
    if k == 0 {
      FirstFull(size, s);
    } else {
      TimesNext(size, k - 1);
      ChunkBehindFirst(size, s, k);
      ChunkAt(size, s[size..], k - 1, at - size);
      Shifted(s, size, at - size);
    }
  }

  lemma FirstFull(size: nat, s: Bytes)
    requires 0 < size && 0 < |FullChunks(size, s)|
    ensures size <= |s| && FullChunks(size, s)[0] == s[0..size]
  {
  }

  lemma Shifted(s: Bytes, size: nat, at: nat)
    requires size <= |s| && at + size <= |s| - size
    ensures s[size..][at..at + size] == s[at + size..at + size + size]
  {
  }

  lemma ChunkBehindFirst(size: nat, s: Bytes, k: nat)
    requires 0 < size && 0 < k < |FullChunks(size, s)|
    ensures size <= |s| && k - 1 < |FullChunks(size, s[size..])|
    ensures FullChunks(size, s)[k] == FullChunks(size, s[size..])[k - 1]
  {
  }

  lemma {:induction false} RestAt(size: nat, s: Bytes)
    requires 0 < size
    ensures size * |FullChunks(size, s)| <= |s| && Rest(size, s) == s[size * |FullChunks(size, s)|..]
    decreases |s|
  {
    hide FullChunks, Rest;
    if |s| >= size {
      var more := |FullChunks(size, s[size..])|;
      RestAt(size, s[size..]);
      OneChunkMore(size, s);
      TimesNext(size, more);
      ShiftedRest(s, size, size * more);
    } else {
      NoChunks(size, s);
    }
  }

  lemma OneChunkMore(size: nat, s: Bytes)
    requires 0 < size <= |s|
    ensures |FullChunks(size, s)| == |FullChunks(size, s[size..])| + 1 && Rest(size, s) == Rest(size, s[size..])
  {
  }

  lemma NoChunks(size: nat, s: Bytes)
    requires |s| < size
    ensures FullChunks(size, s) == [] && Rest(size, s) == s == s[size * 0..]
  {
  }

  lemma ShiftedRest(s: Bytes, size: nat, at: nat)
    requires size <= |s| && at <= |s| - size
    ensures s[size..][at..] == s[at + size..]
  {
  }

  /** Every chunk of a finished stream is full but the last, and in its place. */
  lemma AllChunksAt(size: nat, s: Bytes, k: nat)
    requires 0 < size && k < |AllChunks(size, s)|
    ensures size * k < |s|
    ensures AllChunks(size, s)[k] == if size * k + size <= |s| then s[size * k..size * k + size] else s[size * k..]
  {
    hide FullChunks, Rest;
    RestAt(size, s);
    ChunksCount(size, s);
    if k < |FullChunks(size, s)| {
      ChunkAt(size, s, k, size * k);
    }
  }

  lemma RoundUp(size: nat, n: nat)
    requires 0 < size
    ensures (n + size - 1) / size == n / size + if n % size == 0 then 0 else 1
  {
    var q, r := n / size, n % size;
    assert n == size * q + r;
    if r == 0 {
      Euclid(size, q, n + size - 1, size - 1);
    } else {
      assert size * (q + 1) == size * q + size;
      Euclid(size, q + 1, n + size - 1, r - 1);
    }
  }

  lemma StepDown(size: nat, n: nat)
    requires 0 < size <= n
    ensures n / size == (n - size) / size + 1
    ensures n % size == (n - size) % size
  {
    Euclid(size, (n - size) / size + 1, n, (n - size) % size);
  }

  lemma Below(size: nat, n: nat)
    requires n < size
    ensures n / size == 0 && n % size == n
  {
  }
}
