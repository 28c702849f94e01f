/**
 * How deep the AMF0 decoder recurses (node/rtmp/amf.go): an object's members are values, and so are
 * an array's items, with no limit but the input's.
 */
module AmfDepth {
  import opened Bytes
  import opened Amf0

  function Max(a: nat, b: nat): nat { if a >= b then a else b }

  /** Calls of `value` that are under way at once while the value at i is decoded. */
  function ValueDepth(b: bytes, i: nat, t: bool): nat
    requires i <= |b|
    decreases |b| - i, 0, 0
  {
    if t then 1 else
    var m := U8(b, i, t);
    if m.value == 0x08 then
      var n := U32(b, m.i, m.trunc);
      1 + ObjectDepth(b, n.i, n.trunc)
    else if m.value == 0x03 then 1 + ObjectDepth(b, m.i, m.trunc)
    else if m.value == 0x0A then
      var n := U32(b, m.i, m.trunc);
      if n.trunc || n.value > |b| % 0x1_0000_0000 then 1 else 1 + ItemsDepth(b, n.i, n.trunc, n.value)
    else 1
  }

  function ObjectDepth(b: bytes, i: nat, t: bool): nat
    requires i <= |b|
    decreases |b| - i, 1, 0
  {
    if i < |b| && !t then
      var k := KeyAt(b, i);
      if k.value == None then 0
      else
        var v := ValueAt(b, k.i, k.trunc);
        Max(ValueDepth(b, k.i, k.trunc), ObjectDepth(b, v.i, v.trunc))
    else 0
  }

  function ItemsDepth(b: bytes, i: nat, t: bool, n: nat): nat
    requires i <= |b|
    decreases |b| - i, 1, n
  {
    if n > 0 && !t then
      var v := ValueAt(b, i, t);
      Max(ValueDepth(b, i, t), ItemsDepth(b, v.i, v.trunc, n - 1))
    else 0
  }

  function ValuesDepth(b: bytes, i: nat, t: bool): nat
    requires i <= |b|
    decreases |b| - i, if t then 0 else 1
  {
    if i < |b| && !t then
      var v := ValueAt(b, i, t);
      Max(ValueDepth(b, i, t), ValuesDepth(b, v.i, v.trunc))
    else 0
  }

  // ---- the bound ----

  lemma KeyTakesThree(b: bytes, i: nat)
    requires i <= |b| && KeyAt(b, i).value.Some?
    ensures KeyAt(b, i).i >= i + 3
  {
  }

  lemma {:induction false} ValueDepthBounded(b: bytes, i: nat, t: bool)
    requires i <= |b|
    ensures 4 * ValueDepth(b, i, t) <= |b| - i + 4
    decreases |b| - i, 0, 0
  {
    if !t && i < |b| {
      var n := U32(b, i + 1, false);
      if b[i] == 0x08 {
        ObjectDepthBounded(b, n.i, n.trunc);
      } else if b[i] == 0x03 {
        ObjectDepthBounded(b, i + 1, false);
      } else if b[i] == 0x0A && !n.trunc {
        ItemsDepthBounded(b, n.i, false, n.value);
      }
    }
  }

  /** A key takes three bytes, so that each level takes four. */
  lemma {:induction false} ObjectDepthBounded(b: bytes, i: nat, t: bool)
    requires i <= |b|
    ensures 4 * ObjectDepth(b, i, t) <= |b| - i + 1
    decreases |b| - i, 1, 0
  {
    if i < |b| && !t {
      var k := KeyAt(b, i);
      if k.value.Some? {
        KeyTakesThree(b, i);
        var v := ValueAt(b, k.i, k.trunc);
        ValueDepthBounded(b, k.i, k.trunc);
        ObjectDepthBounded(b, v.i, v.trunc);
      }
    }
  }

  lemma {:induction false} ItemsDepthBounded(b: bytes, i: nat, t: bool, n: nat)
    requires i <= |b|
    ensures 4 * ItemsDepth(b, i, t, n) <= |b| - i + 4
    decreases |b| - i, 1, n
  {
    if n > 0 && !t {
      var v := ValueAt(b, i, t);
      ValueDepthBounded(b, i, t);
      ItemsDepthBounded(b, v.i, v.trunc, n - 1);
    }
  }

  lemma {:induction false} ValuesDepthBounded(b: bytes, i: nat, t: bool)
    requires i <= |b|
    ensures 4 * ValuesDepth(b, i, t) <= |b| - i + 4
    decreases |b| - i, if t then 0 else 1
  {
    if i < |b| && !t {
      var v := ValueAt(b, i, t);
      ValueDepthBounded(b, i, t);
      ValuesDepthBounded(b, v.i, v.trunc);
    }
  }

  /** On any input the decoder is never deeper in itself than one level for every four bytes, and one more. */
  lemma DepthBounded(b: bytes)
    ensures ValuesDepth(b, 0, false) <= |b| / 4 + 1
  {
    ValuesDepthBounded(b, 0, false);
  }

  // ---- an input that reaches it ----

  /** An object, opened, with a key of one byte. */
  const LEVEL: bytes := [0x03, 0x00, 0x01, 0x6B]

  function Levels(k: nat): (b: bytes)
    ensures |b| == 4 * k
  {
    if k == 0 then [] else LEVEL + Levels(k - 1)
  }

  ghost predicate LevelsFrom(b: bytes, i: nat, k: nat) {
    i + 4 * k == |b| && b[i..] == Levels(k)
  }

  lemma NextLevel(b: bytes, i: nat, k: nat)
    requires k > 0 && LevelsFrom(b, i, k)
    ensures b[i] == 0x03 && b[i + 1..i + 3] == [0x00, 0x01] && b[i + 3..i + 4] == [0x6B]
    ensures LevelsFrom(b, i + 4, k - 1)
  {
    assert b[i..][..4] == LEVEL && b[i..][4..] == Levels(k - 1);
    assert b[i..i + 4] == LEVEL;
    assert b[i] == LEVEL[0] && b[i + 1] == LEVEL[1] && b[i + 2] == LEVEL[2] && b[i + 3] == LEVEL[3];
    assert b[i + 4..] == b[i..][4..];
  }

  lemma LevelOpens(b: bytes, i: nat)
    requires i + 4 <= |b| && b[i] == 0x03 && b[i + 1..i + 3] == [0x00, 0x01]
    ensures KeyAt(b, i + 1).i == i + 4 && KeyAt(b, i + 1).value.Some? && !KeyAt(b, i + 1).trunc
    ensures ValueDepth(b, i, false) >= 1 + ValueDepth(b, i + 4, false)
  {
    assert BE16(b[i + 1..i + 3]) == 1;
    assert U8(b, i, false) == At(0x03, i + 1, false);
    assert ObjectDepth(b, i + 1, false) >= ValueDepth(b, i + 4, false);
  }

  lemma {:induction false} LevelsAreDeep(b: bytes, i: nat, k: nat)
    requires LevelsFrom(b, i, k)
    ensures ValueDepth(b, i, false) >= k + 1
    decreases k
  {
    if k > 0 {
      NextLevel(b, i, k);
      LevelOpens(b, i);
      LevelsAreDeep(b, i + 4, k - 1);
    }
  }

  /** For every number of levels there is an input that takes the decoder exactly that deep. */
  lemma NestedObjectsReachIt(k: nat) returns (b: bytes)
    requires k > 0
    ensures |b| == 4 * k && ValuesDepth(b, 0, false) == |b| / 4 + 1
  {
    b := Levels(k);
    assert b[0..] == b;
    LevelsAreDeep(b, 0, k);
    DepthBounded(b);
    DeepestIsFirst(b);
  }

  lemma DeepestIsFirst(b: bytes)
    requires b != []
    ensures ValuesDepth(b, 0, false) >= ValueDepth(b, 0, false)
  {
  }
}
