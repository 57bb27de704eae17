/** Little-endian fields, records of them, and the buffer they are written through. */
module Endian {
  import opened SquashDefs
  import opened Arithmetic

  function Pow256(k: nat): nat {
    if k == 0 then 1 else 256 * Pow256(k - 1)
  }

  function Le(n: nat, k: nat): (b: Bytes)
    ensures |b| == k
  {
    if k == 0 then [] else [n % 256] + Le(n / 256, k - 1)
  }

  function Un(b: Bytes): nat {
    if b == [] then 0 else b[0] + 256 * Un(b[1..])
  }

  lemma {:induction false} UnLe(n: nat, k: nat)
    requires n < Pow256(k)
    ensures Un(Le(n, k)) == n
  {
    if k > 0 {
      UnLe(n / 256, k - 1);
      assert Le(n, k)[1..] == Le(n / 256, k - 1);
    }
  }

  lemma Limits()
    ensures Pow256(2) == 0x1_0000 && Pow256(4) == 0x1_0000_0000 && Pow256(8) == 0x1_0000_0000_0000_0000
  {
    assert Pow256(1) == 256;
    assert Pow256(2) == 0x1_0000;
    assert Pow256(3) == 0x100_0000;
    assert Pow256(4) == 0x1_0000_0000;
    assert Pow256(5) == 0x100_0000_0000;
    assert Pow256(6) == 0x1_0000_0000_0000;
    assert Pow256(7) == 0x100_0000_0000_0000;
  }

  // ---- Records ----

  /** The fields of a record, one after the other. */
  function Enc(values: seq<nat>, widths: seq<nat>): (b: Bytes)
    requires |values| == |widths|
    ensures |b| == Width(widths)
  {
    if values == [] then [] else Le(values[0], widths[0]) + Enc(values[1..], widths[1..])
  }

  function Width(widths: seq<nat>): nat {
    if widths == [] then 0 else widths[0] + Width(widths[1..])
  }

  predicate Fits(values: seq<nat>, widths: seq<nat>) {
    |values| == |widths|
    && (values == [] || (values[0] < Pow256(widths[0]) && Fits(values[1..], widths[1..])))
  }

  lemma {:induction false} FitsAll(values: seq<nat>, widths: seq<nat>)
    requires |values| == |widths| && forall i :: 0 <= i < |values| ==> values[i] < Pow256(widths[i])
    ensures Fits(values, widths)
    decreases |values|
  {
    if values != [] {
      FitsAll(values[1..], widths[1..]);
    }
  }

  /** A reader of records: the values of the fields at the front of `b`. */
  function Dec(b: Bytes, widths: seq<nat>): (values: seq<nat>)
    ensures |values| == |widths|
    decreases |widths|
  {
    if widths == [] then []
    else if widths[0] <= |b| then [Un(b[..widths[0]])] + Dec(b[widths[0]..], widths[1..])
    else [0] + Dec([], widths[1..])
  }

  /** Reading the fields that were written gives them back, whatever follows. */
  lemma {:induction false} DecEnc(values: seq<nat>, widths: seq<nat>, rest: Bytes)
    requires Fits(values, widths)
    ensures Dec(Enc(values, widths) + rest, widths) == values
    decreases |values|
  {
    if values != [] {
      var field := Le(values[0], widths[0]);
      var tail := Enc(values[1..], widths[1..]);
      var b := Enc(values, widths) + rest;
      assert b == field + (tail + rest);
      assert b[..widths[0]] == field && b[widths[0]..] == tail + rest;
      UnLe(values[0], widths[0]);
      DecEnc(values[1..], widths[1..], rest);
      assert values == [values[0]] + values[1..];
    }
  }

  // ---- The buffer ----

  lemma LeUnfold(n: nat, k: nat)
    requires 0 < k
    ensures Le(n, k) == [n % 256] + Le(n / 256, k - 1)
  {
  }

  /** One more low-order byte in front of a split field. */
  lemma PrependByte(n: nat, a: nat, b: nat, low: nat, high: nat)
    requires 0 < a && Le(n / 256, a - 1 + b) == Le(low / 256, a - 1) + Le(high, b)
    requires low % 256 == n % 256
    ensures Le(n, a + b) == Le(low, a) + Le(high, b)
  {
    hide Le;
    LeUnfold(n, a + b);
    LeUnfold(low, a);
  }

  /** Cutting off more low-order bits commutes with cutting off one byte. */
  lemma LowByte(n: nat, p: nat)
    requires 0 < p
    ensures n % (256 * p) % 256 == n % 256
    ensures n % (256 * p) / 256 == n / 256 % p
    ensures n / (256 * p) == n / 256 / p
  {
    var m := n / 256;
    var q, r := m / p, m % p;
    assert m == p * q + r;
    assert 256 * (p * q) == 256 * p * q;
    assert n == 256 * p * q + (256 * r + n % 256);
    Euclid(256 * p, q, n, 256 * r + n % 256);
  }

  lemma Split1(n: nat, b: nat)
    ensures Le(n, 1 + b) == Le(n % 0x100, 1) + Le(n / 0x100, b)
  {
    assert Le(n / 256, b) == Le(0, 0) + Le(n / 256, b);
    PrependByte(n, 1, b, n % 0x100, n / 0x100);
  }

  lemma Split2(n: nat, b: nat)
    ensures Le(n, 2 + b) == Le(n % 0x1_0000, 2) + Le(n / 0x1_0000, b)
  {
    hide Le;
    Split1(n / 256, b);
    LowByte(n, 0x100);
    PrependByte(n, 2, b, n % 0x1_0000, n / 0x1_0000);
  }

  lemma Split3(n: nat, b: nat)
    ensures Le(n, 3 + b) == Le(n % 0x100_0000, 3) + Le(n / 0x100_0000, b)
  {
    hide Le;
    Split2(n / 256, b);
    LowByte(n, 0x1_0000);
    PrependByte(n, 3, b, n % 0x100_0000, n / 0x100_0000);
  }

  lemma Split4(n: nat, b: nat)
    ensures Le(n, 4 + b) == Le(n % 0x1_0000_0000, 4) + Le(n / 0x1_0000_0000, b)
  {
    hide Le;
    Split3(n / 256, b);
    LowByte(n, 0x100_0000);
    PrependByte(n, 4, b, n % 0x1_0000_0000, n / 0x1_0000_0000);
  }

  /** A field takes the low-order bytes: narrowing to its width first changes nothing. */
  lemma LeNarrows(n: nat)
    ensures Le(n, 4) == Le(n % 0x1_0000_0000, 4)
  {
    Split4(n, 0);
    assert Le(n / 0x1_0000_0000, 0) == [];
    assert Le(n % 0x1_0000_0000, 4) + [] == Le(n % 0x1_0000_0000, 4);
  }

  lemma LeNarrows64(n: nat)
    ensures Le(n, 8) == Le(n % 0x1_0000_0000_0000_0000, 8)
  {
    hide Le;
    var m := n % 0x1_0000_0000_0000_0000;
    Split4(n, 4);
    Split4(m, 4);
    LeNarrows(n / 0x1_0000_0000);
    HalvesOf(n);
  }

  lemma HalvesOf(n: nat)
    ensures n % 0x1_0000_0000_0000_0000 % 0x1_0000_0000 == n % 0x1_0000_0000
    ensures n % 0x1_0000_0000_0000_0000 / 0x1_0000_0000 == n / 0x1_0000_0000 % 0x1_0000_0000
  {
  }

  /** Both buffers of the source, over a fixed array and over a vector, as one byte list. */
  class EndianBuffer {
    var bytes: Bytes

    constructor ()
      ensures bytes == []
    {
      bytes := [];
    }

    method L8(n: U8)
      modifies this
      ensures bytes == old(bytes) + Le(n, 1)
    {
      bytes := bytes + [n];
      assert Le(n, 1) == [n % 256] + Le(n / 256, 0);
    }

    method L8At(i: nat, n: U8)
      requires i < |bytes|
      modifies this
      ensures bytes == old(bytes)[i := n]
    {
      bytes := bytes[i := n];
    }

    method L16(n: U16)
      modifies this
      ensures bytes == old(bytes) + Le(n, 2)
    {
      Split1(n, 1);
      L8(n % 256);
      L8(n / 256 % 256);
    }

    /** Overwriting a field in place. */
    method L16At(offset: nat, n: U16)
      requires offset + 2 <= |bytes|
      modifies this
      ensures bytes == old(bytes)[..offset] + Le(n, 2) + old(bytes)[offset + 2..]
    {
      assert Le(n, 2) == [n % 256] + ([n / 256 % 256] + Le(n / 256 / 256, 0));
      L8At(offset, n % 256);
      L8At(offset + 1, n / 256 % 256);
    }

    method L32(n: U32)
      modifies this
      ensures bytes == old(bytes) + Le(n, 4)
    {
      hide Le;
      Split2(n, 2);
      L16(n % 0x1_0000);
      L16(n / 0x1_0000 % 0x1_0000);
    }

    method L64(n: U64)
      modifies this
      ensures bytes == old(bytes) + Le(n, 8)
    {
      hide Le;
      Split4(n, 4);
      L32(n % 0x1_0000_0000);
      L32(n / 0x1_0000_0000 % 0x1_0000_0000);
    }
  }
}
