/** Nothing is made up: every text that is decoded, from any input, stands in that input. */
module AmfQuotes {
  import opened Bytes
  import opened Amf0

  predicate StandsAt(s: bytes, b: bytes, i: int) {
    0 <= i <= |b| - |s| && b[i..i + |s|] == s
  }

  ghost predicate PartOf(s: bytes, b: bytes) {
    exists i :: StandsAt(s, b, i)
  }

  /** A text stands in `b`, and so does each text among the fields of an object. */
  ghost predicate Quoted(v: Value, b: bytes) {
    match v
    case Text(s) => PartOf(s, b)
    case Object(m) => FieldsQuoted(m, b)
    case _ => true
  }

  ghost predicate FieldsQuoted(m: map<bytes, Value>, b: bytes) {
    forall k :: k in m && m[k].Text? ==> PartOf(m[k].s, b)
  }

  lemma NothingIsPart(b: bytes)
    ensures PartOf([], b)
  {
    assert StandsAt([], b, 0);
  }

  lemma StrQuoted(b: bytes, i: nat, t: bool)
    requires i <= |b|
    ensures PartOf(Str(b, i, t).value, b)
  {
    var r := Str(b, i, t);
    NothingIsPart(b);
    if r.value != [] {
      assert StandsAt(r.value, b, r.i - |r.value|);
    }
  }

  lemma {:induction false} ValueQuoted(b: bytes, i: nat, t: bool)
    requires i <= |b|
    ensures Quoted(ValueAt(b, i, t).value, b)
    decreases |b| - i, 0, 0
  {
    if !t && i < |b| {
      StrQuoted(b, i + 1, false);
      if b[i] == 0x08 {
        var n := U32(b, i + 1, false);
        ObjectQuoted(b, n.i, n.trunc, map[]);
      } else if b[i] == 0x03 {
        ObjectQuoted(b, i + 1, false, map[]);
      }
    }
  }

  lemma {:induction false} ObjectQuoted(b: bytes, i: nat, t: bool, acc: map<bytes, Value>)
    requires i <= |b| && FieldsQuoted(acc, b)
    ensures FieldsQuoted(ObjectAt(b, i, t, acc).value, b)
    decreases |b| - i, 1, 0
  {
    if i < |b| && !t {
      var k := KeyAt(b, i);
      if k.value.Some? {
        var v := ValueAt(b, k.i, k.trunc);
        ValueQuoted(b, k.i, k.trunc);
        ObjectQuoted(b, v.i, v.trunc, acc[k.value.value := v.value]);
      }
    }
  }

  lemma {:induction false} ValuesQuoted(b: bytes, i: nat, t: bool, acc: seq<Value>)
    requires i <= |b| && forall v | v in acc :: Quoted(v, b)
    ensures forall v | v in ValuesAt(b, i, t, acc).value :: Quoted(v, b)
    decreases |b| - i, if t then 0 else 1
  {
    if i < |b| && !t {
      var v := ValueAt(b, i, t);
      ValueQuoted(b, i, t);
      ValuesQuoted(b, v.i, v.trunc, acc + [v.value]);
    }
  }

  /** Whatever the input, each text decoded from it at the top or as a field stands in it. */
  lemma DecodedTextStandsInInput(b: bytes)
    ensures forall v | v in DecodeAll(b) :: Quoted(v, b)
  {
    ValuesQuoted(b, 0, false, []);
  }
}
