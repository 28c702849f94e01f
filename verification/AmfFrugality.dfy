/**
 * The decoder on hostile input: whatever the bytes claim, what is decoded has at most one node
 * for every byte read, and one more when the input was cut short.
 */
module AmfFrugality {
  import opened Bytes
  import opened Amf0

  ghost function Nodes(v: Value): nat
    decreases v, 0
  {
    match v
    case Object(m) => 1 + FieldNodes(v, m.Keys)
    case Array(vs) => 1 + ListNodes(vs)
    case _ => 1
  }

  ghost function ListNodes(vs: seq<Value>): nat
    decreases vs, 1
  {
    if vs == [] then 0 else ListNodes(vs[..|vs| - 1]) + Nodes(vs[|vs| - 1])
  }

  /** The nodes under the fields `ks` of an object. */
  ghost function FieldNodes(v: Value, ks: set<bytes>): nat
    requires v.Object? && ks <= v.fields.Keys
    decreases v, 0, ks
  {
    if ks == {} then 0 else
    var k :| k in ks;
    Nodes(v.fields[k]) + FieldNodes(v, ks - {k})
  }

  /** The sum does not depend on the order in which the fields are taken. */
  lemma {:induction false} TakeField(v: Value, ks: set<bytes>, k: bytes)
    requires v.Object? && ks <= v.fields.Keys && k in ks
    ensures FieldNodes(v, ks) == Nodes(v.fields[k]) + FieldNodes(v, ks - {k})
    decreases ks
  {
    var j :| j in ks && FieldNodes(v, ks) == Nodes(v.fields[j]) + FieldNodes(v, ks - {j});
    if j != k {
      TakeField(v, ks - {j}, k);
      TakeField(v, ks - {k}, j);
      assert ks - {j} - {k} == ks - {k} - {j};
    }
  }

  lemma {:induction false} SameFields(v: Value, w: Value, ks: set<bytes>)
    requires v.Object? && w.Object? && ks <= v.fields.Keys && ks <= w.fields.Keys
    requires forall k | k in ks :: v.fields[k] == w.fields[k]
    ensures FieldNodes(v, ks) == FieldNodes(w, ks)
    decreases ks
  {
    if ks != {} {
      var k :| k in ks;
      TakeField(v, ks, k);
      TakeField(w, ks, k);
      SameFields(v, w, ks - {k});
    }
  }

  lemma PutField(m: map<bytes, Value>, k: bytes, x: Value)
    ensures Nodes(Object(m[k := x])) <= Nodes(Object(m)) + Nodes(x)
  {
    var v, w := Object(m), Object(m[k := x]);
    var others := m.Keys - {k};
    TakeField(w, w.fields.Keys, k);
    assert w.fields.Keys - {k} == others;
    SameFields(v, w, others);
    if k in m {
      TakeField(v, m.Keys, k);
    } else {
      assert m.Keys == others;
    }
  }

  /** One node may be had for free: the value at which the input ends. */
  function Slack(t: bool): nat { if t then 1 else 0 }

  lemma {:induction false} ValueNodes(b: bytes, i: nat)
    requires i <= |b|
    ensures var r := ValueAt(b, i, false); Nodes(r.value) <= r.i - i + Slack(r.trunc)
    decreases |b| - i, 0, 0
  {
    var m := U8(b, i, false);
    if m.value == 0x08 {
      var n := U32(b, m.i, false);
      ObjectNodes(b, n.i, n.trunc, map[]);
    } else if m.value == 0x03 {
      ObjectNodes(b, m.i, false, map[]);
    } else if m.value == 0x0A {
      var n := U32(b, m.i, false);
      if !n.trunc && n.value <= |b| % 0x1_0000_0000 {
        ItemNodes(b, n.i, false, n.value, []);
      }
    }
  }

  lemma {:induction false} ObjectNodes(b: bytes, i: nat, t: bool, acc: map<bytes, Value>)
    requires i <= |b|
    ensures var r := ObjectAt(b, i, t, acc);
            Nodes(Object(r.value)) <= Nodes(Object(acc)) + (r.i - i) + Slack(r.trunc)
    decreases |b| - i, 1, 0
  {
    if i < |b| && !t {
      var k := KeyAt(b, i);
      if k.value != None {
        var v := ValueAt(b, k.i, k.trunc);
        ValueNodes(b, k.i);
        PutField(acc, k.value.value, v.value);
        ObjectNodes(b, v.i, v.trunc, acc[k.value.value := v.value]);
      }
    }
  }

  lemma {:induction false} ItemNodes(b: bytes, i: nat, t: bool, n: nat, acc: seq<Value>)
    requires i <= |b|
    ensures var r := ItemsAt(b, i, t, n, acc);
            ListNodes(r.value) <= ListNodes(acc) + (r.i - i) + Slack(r.trunc)
    decreases |b| - i, 1, n
  {
    if n > 0 && !t {
      var v := ValueAt(b, i, t);
      ValueNodes(b, i);
      assert (acc + [v.value])[..|acc|] == acc;
      ItemNodes(b, v.i, v.trunc, n - 1, acc + [v.value]);
    }
  }

  lemma {:induction false} ValuesNodes(b: bytes, i: nat, t: bool, acc: seq<Value>)
    requires i <= |b|
    ensures var r := ValuesAt(b, i, t, acc);
            ListNodes(r.value) <= ListNodes(acc) + (r.i - i) + Slack(r.trunc)
    decreases |b| - i, if t then 0 else 1
  {
    if i < |b| && !t {
      var v := ValueAt(b, i, t);
      ValueNodes(b, i);
      assert (acc + [v.value])[..|acc|] == acc;
      ValuesNodes(b, v.i, v.trunc, acc + [v.value]);
    }
  }

  /** All that is decoded from any input has at most one node per byte, plus one. */
  lemma DecodedNodesBounded(b: bytes)
    ensures ListNodes(DecodeAll(b)) <= |b| + 1
  {
    ValuesNodes(b, 0, false, []);
  }
}
