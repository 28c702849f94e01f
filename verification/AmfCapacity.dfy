/**
 * How much the AMF0 decoder sets aside (node/rtmp/amf.go): every strict array reserves room for the
 * items it claims, up to the length of the whole input, and arrays can be nested.
 */
module AmfCapacity {
  import opened Bytes
  import opened Amf0

  /** The items reserved while the value at i is decoded. */
  function ValueRoom(b: bytes, i: nat, t: bool): nat
    requires i <= |b|
    decreases |b| - i, 0, 0
  {
    if t then 0 else
    var m := U8(b, i, t);
    if m.value == 0x08 then
      var n := U32(b, m.i, m.trunc);
      ObjectRoom(b, n.i, n.trunc)
    else if m.value == 0x03 then ObjectRoom(b, m.i, m.trunc)
    else if m.value == 0x0A then
      var n := U32(b, m.i, m.trunc);
      if n.trunc || n.value > |b| % 0x1_0000_0000 then 0 else n.value + ItemsRoom(b, n.i, n.trunc, n.value)
    else 0
  }

  function ObjectRoom(b: bytes, i: nat, t: bool): nat
    requires i <= |b|
    decreases |b| - i, 1, 0
  {
    if i < |b| && !t then
      var k := KeyAt(b, i);
      if k.value == None then 0
      else
        var v := ValueAt(b, k.i, k.trunc);
        ValueRoom(b, k.i, k.trunc) + ObjectRoom(b, v.i, v.trunc)
    else 0
  }

  function ItemsRoom(b: bytes, i: nat, t: bool, n: nat): nat
    requires i <= |b|
    decreases |b| - i, 1, n
  {
    if n > 0 && !t then
      var v := ValueAt(b, i, t);
      ValueRoom(b, i, t) + ItemsRoom(b, v.i, v.trunc, n - 1)
    else 0
  }

  function ValuesRoom(b: bytes, i: nat, t: bool): nat
    requires i <= |b|
    decreases |b| - i, if t then 0 else 1
  {
    if i < |b| && !t then
      var v := ValueAt(b, i, t);
      ValueRoom(b, i, t) + ValuesRoom(b, v.i, v.trunc)
    else 0
  }

  // ---- the bound ----

  /** `len` times `span`, as a sum. */
  function Area(len: nat, span: nat): nat {
    if span == 0 then 0 else len + Area(len, span - 1)
  }

  lemma {:induction false} AreaAdds(len: nat, a: nat, c: nat)
    ensures Area(len, a) + Area(len, c) == Area(len, a + c)
  {
    if c > 0 {
      AreaAdds(len, a, c - 1);
    }
  }

  lemma {:induction false} AreaIsProduct(len: nat, a: nat)
    ensures Area(len, a) == len * a
  {
    if a > 0 {
      AreaIsProduct(len, a - 1);
    }
  }

  /** Within what was read: a fifth of the product of the input's length and the bytes read. */
  ghost predicate Within(b: bytes, room: nat, i: nat, j: nat) {
    i <= j && 5 * room <= Area(|b|, j - i)
  }

  lemma WithinAdds(b: bytes, r: nat, s: nat, i: nat, j: nat, k: nat)
    requires Within(b, r, i, j) && Within(b, s, j, k)
    ensures Within(b, r + s, i, k)
  {
    AreaAdds(|b|, j - i, k - j);
  }

  lemma WithinMore(b: bytes, r: nat, i: nat, j: nat, i': nat)
    requires Within(b, r, i, j) && i' <= i
    ensures Within(b, r, i', j)
  {
    AreaAdds(|b|, i - i', j - i);
  }

  lemma NoRoom(b: bytes, i: nat, j: nat)
    requires i <= j
    ensures Within(b, 0, i, j)
  {
  }

  /** An array header of five bytes pays for what the array reserves. */
  lemma HeaderPays(b: bytes, n: nat, i: nat)
    requires n <= |b|
    ensures Within(b, n, i, i + 5)
  {
    AreaIsProduct(|b|, 5);
  }

  /** Where the objects begin that markers 0x08 and 0x03 announce. */
  lemma ObjectBehindCount(b: bytes, i: nat)
    requires i < |b| && b[i] == 0x08
    ensures var n := U32(b, i + 1, false); ValueAt(b, i, false).i == ObjectAt(b, n.i, n.trunc, map[]).i
  {
    var n := U32(b, i + 1, false);
    var o := ObjectAt(b, n.i, n.trunc, map[]);
    assert ValueAt(b, i, false) == At(Object(o.value), o.i, o.trunc);
  }

  lemma RoomBehindCount(b: bytes, i: nat)
    requires i < |b| && b[i] == 0x08
    ensures var n := U32(b, i + 1, false); ValueRoom(b, i, false) == ObjectRoom(b, n.i, n.trunc)
  {
  }

  lemma ObjectBehindMarker(b: bytes, i: nat)
    requires i < |b| && b[i] == 0x03
    ensures ValueAt(b, i, false).i == ObjectAt(b, i + 1, false, map[]).i
    ensures ValueRoom(b, i, false) == ObjectRoom(b, i + 1, false)
  {
  }

  lemma ItemsBehindCount(b: bytes, i: nat)
    requires i + 5 <= |b| && b[i] == 0x0A && BE32(b[i + 1..i + 5]) <= |b| % 0x1_0000_0000
    ensures var n := BE32(b[i + 1..i + 5]);
            && ValueAt(b, i, false).i == ItemsAt(b, i + 5, false, n, []).i
            && ValueAt(b, i, false).trunc == ItemsAt(b, i + 5, false, n, []).trunc
            && ValueRoom(b, i, false) == n + ItemsRoom(b, i + 5, false, n)
  {
  }

  predicate Reserves(b: bytes, i: nat) {
    i + 5 <= |b| && b[i] == 0x0A && BE32(b[i + 1..i + 5]) <= |b| % 0x1_0000_0000
  }

  lemma OthersReserveNothing(b: bytes, i: nat, t: bool)
    requires i <= |b| && (t || i == |b| || (b[i] !in {0x08, 0x03} && !Reserves(b, i)))
    ensures ValueRoom(b, i, t) == 0
  {
  }

  lemma {:induction false} ValueWithin(b: bytes, i: nat, t: bool)
    requires i <= |b|
    ensures Within(b, ValueRoom(b, i, t), i, ValueAt(b, i, t).i)
    decreases |b| - i, 0, 0
  {
    if !t && i < |b| && b[i] == 0x08 {
      var n := U32(b, i + 1, false);
      ObjectBehindCount(b, i);
      RoomBehindCount(b, i);
      ObjectWithin(b, n.i, n.trunc, map[]);
      WithinMore(b, ObjectRoom(b, n.i, n.trunc), n.i, ObjectAt(b, n.i, n.trunc, map[]).i, i);
    } else if !t && i < |b| && b[i] == 0x03 {
      ObjectBehindMarker(b, i);
      ObjectWithin(b, i + 1, false, map[]);
      WithinMore(b, ObjectRoom(b, i + 1, false), i + 1, ObjectAt(b, i + 1, false, map[]).i, i);
    } else if !t && Reserves(b, i) {
      ArrayWithin(b, i);
    } else {
      OthersReserveNothing(b, i, t);
      NoRoom(b, i, ValueAt(b, i, t).i);
    }
  }

  lemma {:induction false} ArrayWithin(b: bytes, i: nat)
    requires Reserves(b, i)
    ensures Within(b, ValueRoom(b, i, false), i, ValueAt(b, i, false).i)
    decreases |b| - i, 0, -1
  {
    var n := BE32(b[i + 1..i + 5]);
    ItemsBehindCount(b, i);
    HeaderPays(b, n, i);
    ItemsWithin(b, i + 5, false, n, []);
    WithinAdds(b, n, ItemsRoom(b, i + 5, false, n), i, i + 5, ItemsAt(b, i + 5, false, n, []).i);
  }

  lemma {:induction false} ObjectWithin(b: bytes, i: nat, t: bool, acc: map<bytes, Value>)
    requires i <= |b|
    ensures Within(b, ObjectRoom(b, i, t), i, ObjectAt(b, i, t, acc).i)
    decreases |b| - i, 1, 0
  {
    NoRoom(b, i, ObjectAt(b, i, t, acc).i);
    if i < |b| && !t {
      var k := KeyAt(b, i);
      if k.value.Some? {
        var v := ValueAt(b, k.i, k.trunc);
        var put := acc[k.value.value := v.value];
        ValueWithin(b, k.i, k.trunc);
        ObjectWithin(b, v.i, v.trunc, put);
        var end := ObjectAt(b, v.i, v.trunc, put).i;
        WithinAdds(b, ValueRoom(b, k.i, k.trunc), ObjectRoom(b, v.i, v.trunc), k.i, v.i, end);
        WithinMore(b, ObjectRoom(b, i, t), k.i, end, i);
      }
    }
  }

  lemma {:induction false} ItemsWithin(b: bytes, i: nat, t: bool, n: nat, acc: seq<Value>)
    requires i <= |b|
    ensures Within(b, ItemsRoom(b, i, t, n), i, ItemsAt(b, i, t, n, acc).i)
    decreases |b| - i, 1, n
  {
    NoRoom(b, i, ItemsAt(b, i, t, n, acc).i);
    if n > 0 && !t {
      var v := ValueAt(b, i, t);
      ValueWithin(b, i, t);
      ItemsWithin(b, v.i, v.trunc, n - 1, acc + [v.value]);
      var end := ItemsAt(b, v.i, v.trunc, n - 1, acc + [v.value]).i;
      WithinAdds(b, ValueRoom(b, i, t), ItemsRoom(b, v.i, v.trunc, n - 1), i, v.i, end);
    }
  }

  lemma {:induction false} ValuesWithin(b: bytes, i: nat, t: bool, acc: seq<Value>)
    requires i <= |b|
    ensures Within(b, ValuesRoom(b, i, t), i, ValuesAt(b, i, t, acc).i)
    decreases |b| - i, if t then 0 else 1
  {
    NoRoom(b, i, ValuesAt(b, i, t, acc).i);
    if i < |b| && !t {
      var v := ValueAt(b, i, t);
      ValueWithin(b, i, t);
      ValuesWithin(b, v.i, v.trunc, acc + [v.value]);
      var end := ValuesAt(b, v.i, v.trunc, acc + [v.value]).i;
      WithinAdds(b, ValueRoom(b, i, t), ValuesRoom(b, v.i, v.trunc), i, v.i, end);
    }
  }

  lemma WithinAll(b: bytes, r: nat, j: nat)
    requires Within(b, r, 0, j) && j <= |b|
    ensures 5 * r <= |b| * |b|
  {
    AreaAdds(|b|, j, |b| - j);
    AreaIsProduct(|b|, |b|);
  }

  lemma RoomWithinAll(b: bytes, t: bool) returns (j: nat)
    ensures j <= |b| && Within(b, ValuesRoom(b, 0, t), 0, j)
  {
    ValuesWithin(b, 0, t, []);
    j := ValuesAt(b, 0, t, []).i;
  }

  /** All in all the decoder reserves at most a fifth of the square of the input's length. */
  lemma ReservedIsQuadratic(b: bytes)
    ensures 5 * ValuesRoom(b, 0, false) <= |b| * |b|
  {
    var j := RoomWithinAll(b, false);
    WithinAll(b, ValuesRoom(b, 0, false), j);
  }

  // ---- an input that reaches it ----

  /** `b` is k array headers, each inside the one before, each claiming as many items as there are bytes. */
  ghost predicate Nested(b: bytes, k: nat) {
    && |b| == 5 * k && |b| < 0x1_0000_0000
    && forall q | 0 <= q < k :: Header(b, 5 * q)
  }

  ghost predicate Header(b: bytes, i: nat) {
    i + 5 <= |b| < 0x1_0000_0000 && b[i] == 0x0A && BE32(b[i + 1..i + 5]) == |b|
  }

  /** The value at i reserves this much, and is cut short by the end of the input. */
  ghost predicate CutAfter(b: bytes, i: nat, room: nat) {
    i <= |b| && ValueRoom(b, i, false) == room && ValueAt(b, i, false).trunc
  }

  lemma {:induction false} NestedRoom(b: bytes, k: nat, q: nat)
    requires Nested(b, k) && q <= k && k > 0
    ensures CutAfter(b, 5 * q, Area(|b|, k - q))
    decreases k - q
  {
    if q < k {
      assert Header(b, 5 * q);
      NestedRoom(b, k, q + 1);
      FirstItemEnds(b, 5 * q + 5, Area(|b|, k - q - 1));
    } else {
      NothingAtTheEnd(b);
    }
  }

  lemma NothingAtTheEnd(b: bytes)
    ensures CutAfter(b, |b|, 0)
  {
  }

  /** An array whose first item is cut short reserves for itself and that item. */
  lemma FirstItemEnds(b: bytes, i: nat, room: nat)
    requires 5 <= i && Header(b, i - 5) && CutAfter(b, i, room)
    ensures CutAfter(b, i - 5, |b| + room)
  {
    var v := ValueAt(b, i, false);
    ItemsBehindCount(b, i - 5);
    assert ItemsRoom(b, i, false, |b|) == ValueRoom(b, i, false) + ItemsRoom(b, v.i, true, |b| - 1);
    assert ItemsAt(b, i, false, |b|, []) == ItemsAt(b, v.i, true, |b| - 1, [] + [v.value]);
  }

  function Headers(k: nat, n: uint32): (b: bytes)
    ensures |b| == 5 * k
  {
    if k == 0 then [] else Headers(k - 1, n) + ([0x0A] + PutBE32(n))
  }

  lemma {:induction false} HeadersAre(k: nat, n: uint32, q: nat)
    requires q < k
    ensures var b := Headers(k, n); b[5 * q] == 0x0A && b[5 * q + 1..5 * q + 5] == PutBE32(n)
  {
    var b, init, last: bytes := Headers(k, n), Headers(k - 1, n), [0x0A] + PutBE32(n);
    if q == k - 1 {
      assert b[5 * q + 1..5 * q + 5] == last[1..5];
    } else {
      HeadersAre(k - 1, n, q);
      assert b[5 * q + 1..5 * q + 5] == init[5 * q + 1..5 * q + 5];
    }
  }

  lemma {:induction false} HeadersAreNested(k: nat)
    requires 5 * k < 0x1_0000_0000
    ensures Nested(Headers(k, 5 * k), k)
  {
    var b := Headers(k, 5 * k);
    BE32RoundTrip(5 * k);
    forall q | 0 <= q < k ensures Header(b, 5 * q) {
      HeadersAre(k, 5 * k, q);
    }
  }

  lemma NothingBehindACut(b: bytes, room: nat)
    requires b != [] && CutAfter(b, 0, room)
    ensures ValuesRoom(b, 0, false) == room
  {
    assert ValuesRoom(b, ValueAt(b, 0, false).i, true) == 0;
  }

  lemma FiveAreas(len: nat, k: nat)
    requires len == 5 * k
    ensures 5 * Area(len, k) == len * len
  {
    AreaIsProduct(len, k);
  }

  /** For every number of headers there is an input that reserves exactly the bound. */
  lemma NestedArraysReachIt(k: nat) returns (b: bytes)
    requires 0 < k && 5 * k < 0x1_0000_0000
    ensures |b| == 5 * k && 5 * ValuesRoom(b, 0, false) == |b| * |b|
  {
    b := Headers(k, 5 * k);
    HeadersAreNested(k);
    NestedRoom(b, k, 0);
    NothingBehindACut(b, Area(|b|, k));
    FiveAreas(|b|, k);
  }
}
