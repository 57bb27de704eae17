/** Fields at fixed places in bytes, low-order byte first: how the format's description names
    them, without the writer's lists of fields and widths. */
module FormatBytes {
  import opened SquashDefs
  import opened Endian

  function At16(b: Bytes, i: nat): (n: nat)
    requires i + 2 <= |b|
    ensures n < 0x1_0000
  {
    var low: nat, high: nat := b[i], b[i + 1];
    low + 0x100 * high
  }

  function At32(b: Bytes, i: nat): (n: nat)
    requires i + 4 <= |b|
    ensures n < 0x1_0000_0000
  {
    At16(b, i) + 0x1_0000 * At16(b, i + 2)
  }

  function At64(b: Bytes, i: nat): (n: nat)
    requires i + 8 <= |b|
    ensures n < 0x1_0000_0000_0000_0000
  {
    At32(b, i) + 0x1_0000_0000 * At32(b, i + 4)
  }

  /** The bytes `[i, i + |part|)` are those of `part`. */
  predicate PartAt(b: Bytes, i: nat, part: Bytes) {
    i + |part| <= |b| && b[i..i + |part|] == part
  }

  lemma Field16(b: Bytes, i: nat, n: nat)
    requires n < 0x1_0000 && PartAt(b, i, Le(n, 2))
    ensures At16(b, i) == n
  {
    assert Le(n, 2) == [n % 256] + ([n / 256 % 256] + Le(n / 256 / 256, 0));
    assert b[i] == b[i..i + 2][0] && b[i + 1] == b[i..i + 2][1];
  }

  lemma Field32(b: Bytes, i: nat, n: nat)
    requires n < 0x1_0000_0000 && PartAt(b, i, Le(n, 4))
    ensures At32(b, i) == n
  {
    hide Le, At16;
    Split2(n, 2);
    SubSlice(b, i, i + 4, 0, 2);
    SubSlice(b, i, i + 4, 2, 4);
    var low, high := Le(n % 0x1_0000, 2), Le(n / 0x1_0000, 2);
    assert (low + high)[0..2] == low && (low + high)[2..4] == high;
    Field16(b, i, n % 0x1_0000);
    Field16(b, i + 2, n / 0x1_0000);
  }

  lemma Field64(b: Bytes, i: nat, n: nat)
    requires n < 0x1_0000_0000_0000_0000 && PartAt(b, i, Le(n, 8))
    ensures At64(b, i) == n
  {
    hide Le, At32;
    Split4(n, 4);
    SubSlice(b, i, i + 8, 0, 4);
    SubSlice(b, i, i + 8, 4, 8);
    var low, high := Le(n % 0x1_0000_0000, 4), Le(n / 0x1_0000_0000, 4);
    assert (low + high)[0..4] == low && (low + high)[4..8] == high;
    Field32(b, i, n % 0x1_0000_0000);
    Field32(b, i + 4, n / 0x1_0000_0000);
  }

  /** Where field `k` of a record starts. */
  function Offset(widths: seq<nat>, k: nat): nat
    requires k <= |widths|
  {
    if k == 0 then 0 else Offset(widths, k - 1) + widths[k - 1]
  }

  lemma {:induction false} OffsetShifts(widths: seq<nat>, k: nat)
    requires k < |widths|
    ensures Offset(widths, k + 1) == widths[0] + Offset(widths[1..], k)
  {
    if k > 0 {
      OffsetShifts(widths, k - 1);
    }
  }

  lemma {:induction false} FieldInRecord(values: seq<nat>, widths: seq<nat>, k: nat)
    requires |values| == |widths| && k < |values|
    ensures PartAt(Enc(values, widths), Offset(widths, k), Le(values[k], widths[k]))
    decreases k
  {
    hide Le, Offset;
    EncFront(values, widths);
    if k == 0 {
      NoOffset(widths);
    } else {
      FieldInRecord(values[1..], widths[1..], k - 1);
      OffsetShifts(widths, k - 1);
      PartBehind(Le(values[0], widths[0]), Enc(values[1..], widths[1..]), Offset(widths[1..], k - 1),
                 Le(values[k], widths[k]));
    }
  }

  lemma NoOffset(widths: seq<nat>)
    ensures Offset(widths, 0) == 0
  {
  }

  lemma EncFront(values: seq<nat>, widths: seq<nat>)
    requires |values| == |widths| > 0
    ensures Enc(values, widths) == Le(values[0], widths[0]) + Enc(values[1..], widths[1..])
    ensures PartAt(Enc(values, widths), 0, Le(values[0], widths[0]))
  {
    hide Le;
  }

  lemma PartBehind(front: Bytes, b: Bytes, i: nat, part: Bytes)
    requires PartAt(b, i, part)
    ensures PartAt(front + b, |front| + i, part)
  {
    var whole := front + b;
    assert whole[|front| + i..|front| + i + |part|] == b[i..i + |part|];
  }

  /** Field `k` of a record that starts at `i`, by its width. */
  lemma RecordField(b: Bytes, i: nat, values: seq<nat>, widths: seq<nat>, k: nat)
    requires |values| == |widths| && k < |values| && PartAt(b, i, Enc(values, widths))
    ensures PartAt(b, i + Offset(widths, k), Le(values[k], widths[k]))
    ensures i + Offset(widths, k) + widths[k] <= |b|
    ensures widths[k] == 2 && values[k] < 0x1_0000 ==> At16(b, i + Offset(widths, k)) == values[k]
    ensures widths[k] == 4 && values[k] < 0x1_0000_0000 ==> At32(b, i + Offset(widths, k)) == values[k]
    ensures widths[k] == 8 && values[k] < 0x1_0000_0000_0000_0000 ==> At64(b, i + Offset(widths, k)) == values[k]
  {
    hide Le, Enc, Offset, At16, At32, At64, PartAt;
    var at, field := Offset(widths, k), Le(values[k], widths[k]);
    FieldInRecord(values, widths, k);
    PartWithin(b, i, Enc(values, widths), at, field);
    PartInside(b, i + at, field);
    if widths[k] == 2 && values[k] < 0x1_0000 {
      Field16(b, i + at, values[k]);
    } else if widths[k] == 4 && values[k] < 0x1_0000_0000 {
      Field32(b, i + at, values[k]);
    } else if widths[k] == 8 && values[k] < 0x1_0000_0000_0000_0000 {
      Field64(b, i + at, values[k]);
    }
  }

  lemma PartInside(b: Bytes, i: nat, part: Bytes)
    requires PartAt(b, i, part)
    ensures i + |part| <= |b|
  {
  }

  /** A part of a part. */
  lemma PartWithin(b: Bytes, i: nat, part: Bytes, k: nat, inner: Bytes)
    requires PartAt(b, i, part) && PartAt(part, k, inner)
    ensures PartAt(b, i + k, inner)
  {
    SubSlice(b, i, i + |part|, k, k + |inner|);
  }
}
