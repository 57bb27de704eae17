/** Records appended to a buffer field by field. */
module Records {
  import opened SquashDefs
  import opened Endian

  lemma EncCons(v: nat, vs: seq<nat>, w: nat, ws: seq<nat>)
    requires |vs| == |ws|
    ensures Enc([v] + vs, [w] + ws) == Le(v, w) + Enc(vs, ws)
  {
    hide Le;
    assert ([v] + vs)[1..] == vs && ([w] + ws)[1..] == ws;
  }

  lemma {:induction false} EncSnoc(vs: seq<nat>, ws: seq<nat>, v: nat, w: nat)
    requires |vs| == |ws|
    ensures Enc(vs + [v], ws + [w]) == Enc(vs, ws) + Le(v, w)
  {
    hide Le;
    if vs == [] {
      EncCons(v, [], w, []);
    } else {
      assert vs == [vs[0]] + vs[1..] && ws == [ws[0]] + ws[1..];
      assert vs + [v] == [vs[0]] + (vs[1..] + [v]) && ws + [w] == [ws[0]] + (ws[1..] + [w]);
      EncCons(vs[0], vs[1..] + [v], ws[0], ws[1..] + [w]);
      EncCons(vs[0], vs[1..], ws[0], ws[1..]);
      EncSnoc(vs[1..], ws[1..], v, w);
    }
  }

  /** A record of fields, appended one by one behind `front`. */
  lemma Behind(front: Bytes, v: seq<nat>, w: seq<nat>, sum: Bytes)
    requires |v| == |w| > 0 && sum == front + Enc(Init(v), Init(w))
    ensures sum + Le(Last(v), Last(w)) == front + Enc(v, w)
  {
    hide Enc, Le;
    EncSnoc(Init(v), Init(w), Last(v), Last(w));
    InitLast(v);
    InitLast(w);
    Associative(front, Enc(Init(v), Init(w)), Le(Last(v), Last(w)));
  }

  lemma InitLast(s: seq<nat>)
    requires s != []
    ensures Init(s) + [Last(s)] == s
  {
  }

  lemma Associative(a: Bytes, b: Bytes, c: Bytes)
    ensures a + b + c == a + (b + c)
  {
  }

  lemma Fields1(front: Bytes, v: seq<nat>, w: seq<nat>)
    requires |v| == |w| == 1
    ensures front + Le(v[0], w[0]) == front + Enc(v, w)
  {
    hide Le;
    NoFields();
    assert Init(v) == [] && Init(w) == [];
    assert front + [] == front;
    Behind(front, v, w, front);
  }

  lemma NoFields()
    ensures Enc([], []) == []
  {
  }

  lemma Fields2(front: Bytes, v: seq<nat>, w: seq<nat>)
    requires |v| == |w| == 2
    ensures front + Le(v[0], w[0]) + Le(v[1], w[1])
         == front + Enc(v, w)
  {
    hide Enc, Le;
    Fields1(front, Init(v), Init(w));
    Behind(front, v, w, front + Enc(Init(v), Init(w)));
  }

  lemma Fields3(front: Bytes, v: seq<nat>, w: seq<nat>)
    requires |v| == |w| == 3
    ensures front + Le(v[0], w[0]) + Le(v[1], w[1]) + Le(v[2], w[2])
         == front + Enc(v, w)
  {
    hide Enc, Le;
    Fields2(front, Init(v), Init(w));
    Behind(front, v, w, front + Enc(Init(v), Init(w)));
  }

  lemma Fields4(front: Bytes, v: seq<nat>, w: seq<nat>)
    requires |v| == |w| == 4
    ensures front + Le(v[0], w[0]) + Le(v[1], w[1]) + Le(v[2], w[2]) + Le(v[3], w[3])
         == front + Enc(v, w)
  {
    hide Enc, Le;
    Fields3(front, Init(v), Init(w));
    Behind(front, v, w, front + Enc(Init(v), Init(w)));
  }

  lemma Fields5(front: Bytes, v: seq<nat>, w: seq<nat>)
    requires |v| == |w| == 5
    ensures front + Le(v[0], w[0]) + Le(v[1], w[1]) + Le(v[2], w[2]) + Le(v[3], w[3]) + Le(v[4], w[4])
         == front + Enc(v, w)
  {
    hide Enc, Le;
    Fields4(front, Init(v), Init(w));
    Behind(front, v, w, front + Enc(Init(v), Init(w)));
  }

  lemma Fields6(front: Bytes, v: seq<nat>, w: seq<nat>)
    requires |v| == |w| == 6
    ensures front + Le(v[0], w[0]) + Le(v[1], w[1]) + Le(v[2], w[2]) + Le(v[3], w[3]) + Le(v[4], w[4]) + Le(v[5], w[5])
         == front + Enc(v, w)
  {
    hide Enc, Le;
    Fields5(front, Init(v), Init(w));
    Behind(front, v, w, front + Enc(Init(v), Init(w)));
  }

  lemma Fields7(front: Bytes, v: seq<nat>, w: seq<nat>)
    requires |v| == |w| == 7
    ensures front + Le(v[0], w[0]) + Le(v[1], w[1]) + Le(v[2], w[2]) + Le(v[3], w[3]) + Le(v[4], w[4])
            + Le(v[5], w[5]) + Le(v[6], w[6])
         == front + Enc(v, w)
  {
    hide Enc, Le;
    Fields6(front, Init(v), Init(w));
    Behind(front, v, w, front + Enc(Init(v), Init(w)));
  }

  lemma Fields8(front: Bytes, v: seq<nat>, w: seq<nat>)
    requires |v| == |w| == 8
    ensures front + Le(v[0], w[0]) + Le(v[1], w[1]) + Le(v[2], w[2]) + Le(v[3], w[3]) + Le(v[4], w[4])
            + Le(v[5], w[5]) + Le(v[6], w[6]) + Le(v[7], w[7])
         == front + Enc(v, w)
  {
    hide Enc, Le;
    Fields7(front, Init(v), Init(w));
    Behind(front, v, w, front + Enc(Init(v), Init(w)));
  }
}
