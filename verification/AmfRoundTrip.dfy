/**
 * Every tree of values that AMF0 can express (section 2 of the AMF0 specification), as the gateway's
 * own encoder and other people's write it, is decoded to exactly what it stands for.
 */
module AmfRoundTrip {
  import opened Bytes
  import opened Amf0

  /**
   * The gateway writes numbers, strings, nulls and objects, whose members are ordered. Publishers
   * also send booleans, of which any byte but zero is true, arrays with keys, under whatever count
   * they claim, arrays of items, and markers that bear no value, such as undefined.
   */
  datatype Tree =
    | Num(bits: uint64)
    | Str8(s: bytes)
    | Null
    | Obj(members: seq<Member>)
    | Flag(b: byte)
    | Bare(marker: byte)
    | Ecma(claimed: uint32, members: seq<Member>)
    | Strict(items: seq<Tree>)

  datatype Member = Member(key: bytes, tree: Tree)

  function Encode(t: Tree): bytes {
    match t
    case Num(bits) => EncNumber(bits)
    case Str8(s) => EncString(s)
    case Null => EncNull()
    case Obj(ms) => EncObject(Props(ms))
    case Flag(b) => [0x01, b]
    case Bare(m) => [m]
    case Ecma(n, ms) => [0x08] + (PutBE32(n) + (EncProps(Props(ms)) + OBJECT_END))
    case Strict(xs) => [0x0A] + (PutBE32(|xs| % 0x1_0000_0000) + EncodeAll(xs))
  }

  function Props(ms: seq<Member>): seq<Prop> {
    if ms == [] then [] else [Prop(ms[0].key, Encode(ms[0].tree))] + Props(ms[1..])
  }

  /** The value a tree stands for; of two members with one key the later one counts. */
  function Meaning(t: Tree): Value {
    match t
    case Num(bits) => Number(bits)
    case Str8(s) => Text(s)
    case Null => Nil
    case Obj(ms) => Object(Fields(ms, map[]))
    case Flag(b) => Boolean(b != 0)
    case Bare(_) => Nil
    case Ecma(_, ms) => Object(Fields(ms, map[]))
    case Strict(xs) => Array(Meanings(xs))
  }

  function Fields(ms: seq<Member>, acc: map<bytes, Value>): map<bytes, Value> {
    if ms == [] then acc else Fields(ms[1..], acc[ms[0].key := Meaning(ms[0].tree)])
  }

  /** Markers that are followed by a value. */
  predicate BearsValue(marker: byte) {
    marker in {0x00, 0x01, 0x02, 0x03, 0x08, 0x0A}
  }

  /**
   * Lengths fit their 16-bit fields, and no key is empty: an empty key is the end marker. An array
   * has no more items than the whole input has bytes, to 32 bits, which is what the decoder grants.
   */
  predicate Fits(t: Tree, len: nat) {
    match t
    case Num(_) => true
    case Str8(s) => |s| < 0x1_0000
    case Null => true
    case Obj(ms) => AllFit(ms, len)
    case Flag(_) => true
    case Bare(m) => !BearsValue(m)
    case Ecma(_, ms) => AllFit(ms, len)
    case Strict(xs) => |xs| <= len % 0x1_0000_0000 && TreesFit(xs, len)
  }

  predicate AllFit(ms: seq<Member>, len: nat) {
    ms == [] || (1 <= |ms[0].key| < 0x1_0000 && Fits(ms[0].tree, len) && AllFit(ms[1..], len))
  }

  predicate TreesFit(ts: seq<Tree>, len: nat) {
    ts == [] || (Fits(ts[0], len) && TreesFit(ts[1..], len))
  }

  function EncodeAll(ts: seq<Tree>): bytes {
    if ts == [] then [] else Encode(ts[0]) + EncodeAll(ts[1..])
  }

  function Meanings(ts: seq<Tree>): seq<Value> {
    if ts == [] then [] else [Meaning(ts[0])] + Meanings(ts[1..])
  }

  // ---- round trip ----

  /** `s` stands in `b` at index i. */
  ghost predicate Has(b: bytes, i: nat, s: bytes) {
    i + |s| <= |b| && b[i..i + |s|] == s
  }

  lemma HasBoth(b: bytes, i: nat, s: bytes, u: bytes)
    requires Has(b, i, s + u)
    ensures Has(b, i, s) && Has(b, i + |s|, u)
  {
    assert b[i..i + |s|] == (s + u)[..|s|];
    assert b[i + |s|..i + |s| + |u|] == (s + u)[|s|..];
  }

  lemma ReadsMarker(b: bytes, i: nat, m: byte, s: bytes)
    requires Has(b, i, [m] + s)
    ensures i < |b| && U8(b, i, false) == At(m, i + 1, false) && Has(b, i + 1, s)
  {
    HasBoth(b, i, [m], s);
    assert b[i] == b[i..i + 1][0];
  }

  lemma ReadsNumber(b: bytes, i: nat, bits: uint64)
    requires Has(b, i, PutBE64(bits))
    ensures F64(b, i, false) == At(bits, i + 8, false)
  {
    BE64RoundTrip(bits);
  }

  lemma ReadsString(b: bytes, i: nat, s: bytes)
    requires |s| < 0x1_0000 && Has(b, i, PutBE16(|s|) + s)
    ensures Str(b, i, false) == At(s, i + 2 + |s|, false)
  {
    HasBoth(b, i, PutBE16(|s|), s);
    BE16RoundTrip(|s|);
  }

  lemma ObjectValue(b: bytes, i: nat, o: At<map<bytes, Value>>)
    requires i < |b| && U8(b, i, false) == At(0x03, i + 1, false) && o == ObjectAt(b, i + 1, false, map[])
    ensures ValueAt(b, i, false) == At(Object(o.value), o.i, o.trunc)
  {
  }

  lemma TextValue(b: bytes, i: nat, x: At<bytes>)
    requires i < |b| && U8(b, i, false) == At(0x02, i + 1, false) && x == Str(b, i + 1, false)
    ensures ValueAt(b, i, false) == At(Text(x.value), x.i, x.trunc)
  {
  }

  lemma NumberValue(b: bytes, i: nat, x: At<uint64>)
    requires i < |b| && U8(b, i, false) == At(0x00, i + 1, false) && x == F64(b, i + 1, false)
    ensures ValueAt(b, i, false) == At(Number(x.value), x.i, x.trunc)
  {
  }

  lemma BareValue(b: bytes, i: nat, m: byte)
    requires i < |b| && U8(b, i, false) == At(m, i + 1, false) && !BearsValue(m)
    ensures ValueAt(b, i, false) == At(Nil, i + 1, false)
  {
  }

  lemma FlagValue(b: bytes, i: nat, x: At<byte>)
    requires i < |b| && U8(b, i, false) == At(0x01, i + 1, false) && x == U8(b, i + 1, false)
    ensures ValueAt(b, i, false) == At(Boolean(x.value != 0), x.i, x.trunc)
  {
  }

  lemma EcmaValue(b: bytes, i: nat, n: At<uint32>, o: At<map<bytes, Value>>)
    requires i < |b| && U8(b, i, false) == At(0x08, i + 1, false) && n == U32(b, i + 1, false)
    requires n.i <= |b| && o == ObjectAt(b, n.i, n.trunc, map[])
    ensures ValueAt(b, i, false) == At(Object(o.value), o.i, o.trunc)
  {
  }

  lemma StrictValue(b: bytes, i: nat, n: At<uint32>, a: At<seq<Value>>)
    requires i < |b| && U8(b, i, false) == At(0x0A, i + 1, false) && n == U32(b, i + 1, false)
    requires n.i <= |b| && !n.trunc && n.value <= |b| % 0x1_0000_0000 && a == ItemsAt(b, n.i, false, n.value, [])
    ensures ValueAt(b, i, false) == At(Array(a.value), a.i, a.trunc)
  {
  }

  lemma ReadsNum(b: bytes, i: nat, bits: uint64)
    requires Has(b, i, EncNumber(bits))
    ensures ValueAt(b, i, false) == At(Number(bits), i + |EncNumber(bits)|, false)
  {
    ReadsMarker(b, i, 0x00, PutBE64(bits));
    ReadsNumber(b, i + 1, bits);
    NumberValue(b, i, At(bits, i + 9, false));
  }

  lemma ReadsText(b: bytes, i: nat, s: bytes)
    requires |s| < 0x1_0000 && Has(b, i, EncString(s))
    ensures ValueAt(b, i, false) == At(Text(s), i + |EncString(s)|, false)
  {
    ReadsMarker(b, i, 0x02, PutBE16(|s|) + s);
    ReadsString(b, i + 1, s);
    TextValue(b, i, At(s, i + 3 + |s|, false));
  }

  lemma ReadsBare(b: bytes, i: nat, m: byte)
    requires !BearsValue(m) && Has(b, i, [m])
    ensures ValueAt(b, i, false) == At(Nil, i + 1, false)
  {
    assert [m] == [m] + [];
    ReadsMarker(b, i, m, []);
    BareValue(b, i, m);
  }

  lemma ReadsFlag(b: bytes, i: nat, f: byte)
    requires Has(b, i, [0x01, f])
    ensures ValueAt(b, i, false) == At(Boolean(f != 0), i + 2, false)
  {
    assert [0x01, f] == [0x01] + [f] && [f] == [f] + [];
    ReadsMarker(b, i, 0x01, [f]);
    ReadsMarker(b, i + 1, f, []);
    FlagValue(b, i, At(f, i + 2, false));
  }

  lemma ReadsCount(b: bytes, i: nat, m: byte, n: uint32, rest: bytes)
    requires Has(b, i, [m] + (PutBE32(n) + rest))
    ensures i < |b| && U8(b, i, false) == At(m, i + 1, false)
    ensures U32(b, i + 1, false) == At(n, i + 5, false) && Has(b, i + 5, rest)
  {
    ReadsMarker(b, i, m, PutBE32(n) + rest);
    HasBoth(b, i + 1, PutBE32(n), rest);
    BE32RoundTrip(n);
  }

  lemma {:induction false} ReadsEcma(b: bytes, i: nat, n: uint32, ms: seq<Member>)
    requires AllFit(ms, |b|) && Has(b, i, Encode(Ecma(n, ms)))
    ensures ValueAt(b, i, false) == At(Object(Fields(ms, map[])), i + |Encode(Ecma(n, ms))|, false)
    decreases ms, 3
  {
    PropsAreBody(ms, OBJECT_END);
    ReadsCount(b, i, 0x08, n, Body(ms, OBJECT_END));
    ReadsMembers(b, i + 5, ms, map[]);
    EcmaValue(b, i, At(n, i + 5, false), At(Fields(ms, map[]), i + 5 + |Body(ms, OBJECT_END)|, false));
  }

  lemma StrictBytes(xs: seq<Tree>)
    requires |xs| < 0x1_0000_0000
    ensures Encode(Strict(xs)) == [0x0A] + (PutBE32(|xs|) + EncodeAll(xs))
    ensures |Encode(Strict(xs))| == 5 + |EncodeAll(xs)|
  {
    assert |xs| % 0x1_0000_0000 == |xs|;
    Counted(|xs|, EncodeAll(xs));
  }

  lemma Counted(n: uint32, rest: bytes)
    ensures |[0x0A] + (PutBE32(n) + rest)| == 5 + |rest|
  {
  }

  lemma {:induction false} ReadsItems(b: bytes, i: nat, xs: seq<Tree>)
    requires TreesFit(xs, |b|) && Has(b, i, EncodeAll(xs))
    ensures ItemsAt(b, i, false, |xs|, []) == At(Meanings(xs), i + |EncodeAll(xs)|, false)
    decreases xs, 1
  {
    var end := i + |EncodeAll(xs)|;
    EncodedIsLaid(b, i, xs, end);
    LaidIsItems(b, i, xs, [], end);
    assert [] + Meanings(xs) == Meanings(xs);
  }

  lemma {:induction false} ReadsStrict(b: bytes, i: nat, xs: seq<Tree>)
    requires |xs| <= |b| % 0x1_0000_0000 && TreesFit(xs, |b|) && Has(b, i, Encode(Strict(xs)))
    ensures ValueAt(b, i, false) == At(Array(Meanings(xs)), i + |Encode(Strict(xs))|, false)
    decreases xs, 2
  {
    StrictBytes(xs);
    ReadsCount(b, i, 0x0A, |xs|, EncodeAll(xs));
    ReadsItems(b, i + 5, xs);
    StrictValue(b, i, At(|xs|, i + 5, false), At(Meanings(xs), i + 5 + |EncodeAll(xs)|, false));
  }

  lemma {:induction false} ReadsObject(b: bytes, i: nat, ms: seq<Member>)
    requires AllFit(ms, |b|) && Has(b, i, EncObject(Props(ms)))
    ensures ValueAt(b, i, false) == At(Object(Fields(ms, map[])), i + |EncObject(Props(ms))|, false)
    decreases ms, 3
  {
    PropsAreBody(ms, OBJECT_END);
    ReadsMarker(b, i, 0x03, Body(ms, OBJECT_END));
    ReadsMembers(b, i + 1, ms, map[]);
    ObjectValue(b, i, At(Fields(ms, map[]), i + 1 + |Body(ms, OBJECT_END)|, false));
  }

  lemma {:induction false} ReadsTree(b: bytes, i: nat, t: Tree)
    requires Fits(t, |b|) && Has(b, i, Encode(t))
    ensures ValueAt(b, i, false) == At(Meaning(t), i + |Encode(t)|, false)
    decreases t, 0
  {
    match t {
      case Num(bits) => ReadsNum(b, i, bits);
      case Str8(s) => ReadsText(b, i, s);
      case Null => ReadsBare(b, i, 0x05);
      case Obj(ms) => ReadsObject(b, i, ms);
      case Flag(f) => ReadsFlag(b, i, f);
      case Bare(m) => ReadsBare(b, i, m);
      case Ecma(n, ms) => ReadsEcma(b, i, n, ms);
      case Strict(xs) => ReadsStrict(b, i, xs);
    }
  }

  lemma ReadsKey(b: bytes, i: nat, key: bytes, rest: bytes)
    requires 1 <= |key| < 0x1_0000 && Has(b, i, (PutBE16(|key|) + key) + rest)
    ensures KeyAt(b, i) == At(Some(key), i + 2 + |key|, false) && Has(b, i + 2 + |key|, rest)
  {
    HasBoth(b, i, PutBE16(|key|) + key, rest);
    HasBoth(b, i, PutBE16(|key|), key);
    BE16RoundTrip(|key|);
  }

  lemma ReadsEnd(b: bytes, i: nat)
    requires Has(b, i, OBJECT_END)
    ensures KeyAt(b, i) == At(None, i + 3, false)
  {
    assert b[i..i + 2] == b[i..i + 3][..2] == [0, 0];
  }

  /** The members of an object, and then `g`, which is the end marker if nothing is amiss. */
  function Body(ms: seq<Member>, g: bytes): bytes {
    if ms == [] then g
    else (PutBE16(|ms[0].key| % 0x1_0000) + ms[0].key) + (Encode(ms[0].tree) + Body(ms[1..], g))
  }

  lemma Associative4(a: bytes, b: bytes, c: bytes, d: bytes)
    ensures ((a + b) + c) + d == a + (b + (c + d))
  {
  }

  lemma FirstProp(m: Member, ms: seq<Member>)
    ensures EncProps(Props([m] + ms)) == EncProp(Prop(m.key, Encode(m.tree))) + EncProps(Props(ms))
  {
    assert ([m] + ms)[1..] == ms;
    assert ([Prop(m.key, Encode(m.tree))] + Props(ms))[1..] == Props(ms);
  }

  lemma {:induction false} PropsAreBody(ms: seq<Member>, g: bytes)
    ensures EncProps(Props(ms)) + g == Body(ms, g)
  {
    if ms == [] {
      assert [] + g == g;
    } else {
      var m := ms[0];
      assert ms == [m] + ms[1..];
      FirstProp(m, ms[1..]);
      PropsAreBody(ms[1..], g);
      Associative4(PutBE16(|m.key| % 0x1_0000) + m.key, Encode(m.tree), EncProps(Props(ms[1..])), g);
    }
  }

  lemma ObjectStep(b: bytes, i: nat, key: bytes, j: nat, v: At<Value>, acc: map<bytes, Value>)
    requires i < |b| && KeyAt(b, i) == At(Some(key), j, false) && v == ValueAt(b, j, false)
    ensures ObjectAt(b, i, false, acc) == ObjectAt(b, v.i, v.trunc, acc[key := v.value])
  {
  }

  lemma FirstOfBody(ms: seq<Member>, g: bytes, len: nat)
    requires ms != [] && AllFit(ms, len)
    ensures var key := ms[0].key; Body(ms, g) == (PutBE16(|key|) + key) + (Encode(ms[0].tree) + Body(ms[1..], g))
    ensures |Body(ms, g)| == 2 + |ms[0].key| + |Encode(ms[0].tree)| + |Body(ms[1..], g)|
  {
  }

  lemma ReadsKeyAndTree(b: bytes, i: nat, key: bytes, t: bytes, rest: bytes)
    requires 1 <= |key| < 0x1_0000 && Has(b, i, (PutBE16(|key|) + key) + (t + rest))
    ensures KeyAt(b, i) == At(Some(key), i + 2 + |key|, false)
    ensures Has(b, i + 2 + |key|, t) && Has(b, i + 2 + |key| + |t|, rest)
  {
    ReadsKey(b, i, key, t + rest);
    HasBoth(b, i + 2 + |key|, t, rest);
  }

  lemma ReadsFirstMember(b: bytes, i: nat, ms: seq<Member>, g: bytes)
    requires ms != [] && AllFit(ms, |b|) && Has(b, i, Body(ms, g))
    ensures var j := i + 2 + |ms[0].key|;
            && KeyAt(b, i) == At(Some(ms[0].key), j, false)
            && Has(b, j, Encode(ms[0].tree)) && Has(b, j + |Encode(ms[0].tree)|, Body(ms[1..], g))
  {
    FirstOfBody(ms, g, |b|);
    ReadsKeyAndTree(b, i, ms[0].key, Encode(ms[0].tree), Body(ms[1..], g));
  }

  /** From index i on, the decoder meets the members `ms` one after the other, up to `end`. */
  ghost predicate Spelled(b: bytes, i: nat, ms: seq<Member>, end: nat)
    requires i <= |b|
    decreases |ms|
  {
    if ms == [] then i == end
    else
      i < |b| &&
      var k := KeyAt(b, i);
      && k.value == Some(ms[0].key)
      && var v := ValueAt(b, k.i, false);
         v.value == Meaning(ms[0].tree) && !v.trunc && Spelled(b, v.i, ms[1..], end)
  }

  lemma SpellFirst(b: bytes, i: nat, ms: seq<Member>, j: nat, v: At<Value>, end: nat)
    requires ms != [] && i < |b| && j <= |b| && KeyAt(b, i) == At(Some(ms[0].key), j, false)
    requires ValueAt(b, j, false) == v && v.value == Meaning(ms[0].tree) && !v.trunc && Spelled(b, v.i, ms[1..], end)
    ensures Spelled(b, i, ms, end)
  {
  }

  lemma FirstMemberIsRead(b: bytes, i: nat, ms: seq<Member>, g: bytes) returns (j: nat, v: At<Value>)
    requires ms != [] && AllFit(ms, |b|) && Has(b, i, Body(ms, g))
    ensures i < |b| && j <= |b| && KeyAt(b, i) == At(Some(ms[0].key), j, false)
    ensures ValueAt(b, j, false) == v && v.value == Meaning(ms[0].tree) && !v.trunc
    ensures Has(b, v.i, Body(ms[1..], g)) && v.i + |Body(ms[1..], g)| == i + |Body(ms, g)|
    decreases ms[0], 2
  {
    j := i + 2 + |ms[0].key|;
    FirstOfBody(ms, g, |b|);
    ReadsFirstMember(b, i, ms, g);
    ReadsTree(b, j, ms[0].tree);
    v := At(Meaning(ms[0].tree), j + |Encode(ms[0].tree)|, false);
  }

  lemma {:induction false} MembersAreSpelled(b: bytes, i: nat, ms: seq<Member>, g: bytes, end: nat)
    requires AllFit(ms, |b|) && Has(b, i, Body(ms, g)) && end + |g| == i + |Body(ms, g)|
    ensures Spelled(b, i, ms, end) && Has(b, end, g)
    decreases ms, 0
  {
    if ms != [] {
      var j, v := FirstMemberIsRead(b, i, ms, g);
      MembersAreSpelled(b, v.i, ms[1..], g, end);
      SpellFirst(b, i, ms, j, v, end);
    }
  }

  lemma {:induction false} SpelledIsRead(b: bytes, i: nat, ms: seq<Member>, acc: map<bytes, Value>, end: nat)
    requires i <= |b| && Spelled(b, i, ms, end)
    ensures end <= |b| && ObjectAt(b, i, false, acc) == ObjectAt(b, end, false, Fields(ms, acc))
    decreases |ms|
  {
    if ms != [] {
      var k := KeyAt(b, i);
      var v := ValueAt(b, k.i, false);
      ObjectStep(b, i, ms[0].key, k.i, v, acc);
      SpelledIsRead(b, v.i, ms[1..], acc[ms[0].key := v.value], end);
    }
  }

  /** Up to whatever stands behind the members, they are read with later ones counting. */
  lemma {:induction false} ReadsUpTo(b: bytes, i: nat, ms: seq<Member>, g: bytes, acc: map<bytes, Value>, end: nat)
    requires AllFit(ms, |b|) && Has(b, i, Body(ms, g)) && end + |g| == i + |Body(ms, g)|
    ensures end <= |b| && Has(b, end, g)
    ensures ObjectAt(b, i, false, acc) == ObjectAt(b, end, false, Fields(ms, acc))
    decreases ms, 1
  {
    MembersAreSpelled(b, i, ms, g, end);
    SpelledIsRead(b, i, ms, acc, end);
  }

  lemma {:induction false} BodyEnds(ms: seq<Member>, g: bytes)
    ensures |Body(ms, g)| >= |g|
  {
    if ms != [] {
      BodyEnds(ms[1..], g);
    }
  }

  lemma ObjectEnds(b: bytes, i: nat, acc: map<bytes, Value>)
    requires i < |b| && KeyAt(b, i).value == None
    ensures ObjectAt(b, i, false, acc) == At(acc, KeyAt(b, i).i, KeyAt(b, i).trunc)
  {
  }

  lemma {:induction false} ReadsMembers(b: bytes, i: nat, ms: seq<Member>, acc: map<bytes, Value>)
    requires AllFit(ms, |b|) && Has(b, i, Body(ms, OBJECT_END))
    ensures ObjectAt(b, i, false, acc) == At(Fields(ms, acc), i + |Body(ms, OBJECT_END)|, false)
    decreases ms, 2
  {
    BodyEnds(ms, OBJECT_END);
    var end := i + |Body(ms, OBJECT_END)| - 3;
    ReadsUpTo(b, i, ms, OBJECT_END, acc, end);
    ReadsEnd(b, end);
    ObjectEnds(b, end, Fields(ms, acc));
  }

  lemma ValuesStep(b: bytes, i: nat, acc: seq<Value>, v: At<Value>)
    requires i < |b| && v == ValueAt(b, i, false)
    ensures ValuesAt(b, i, false, acc) == ValuesAt(b, v.i, v.trunc, acc + [v.value])
  {
  }

  /** From index i on, the decoder meets the trees `ts` one after the other, up to `end`. */
  ghost predicate Laid(b: bytes, i: nat, ts: seq<Tree>, end: nat)
    requires i <= |b|
    decreases |ts|
  {
    if ts == [] then i == end
    else
      var v := ValueAt(b, i, false);
      i < |b| && v.value == Meaning(ts[0]) && !v.trunc && Laid(b, v.i, ts[1..], end)
  }

  lemma LayFirst(b: bytes, i: nat, ts: seq<Tree>, v: At<Value>, end: nat)
    requires ts != [] && i < |b|
    requires ValueAt(b, i, false) == v && v.value == Meaning(ts[0]) && !v.trunc && Laid(b, v.i, ts[1..], end)
    ensures Laid(b, i, ts, end)
  {
  }

  lemma ReadsFirstTree(b: bytes, i: nat, t: Tree, rest: bytes)
    requires Fits(t, |b|) && Has(b, i, Encode(t) + rest)
    ensures i < |b| && ValueAt(b, i, false) == At(Meaning(t), i + |Encode(t)|, false)
    ensures Has(b, i + |Encode(t)|, rest)
    decreases t, 1
  {
    HasBoth(b, i, Encode(t), rest);
    ReadsTree(b, i, t);
  }

  lemma FirstEncoded(ts: seq<Tree>)
    requires ts != []
    ensures EncodeAll(ts) == Encode(ts[0]) + EncodeAll(ts[1..])
    ensures |EncodeAll(ts)| == |Encode(ts[0])| + |EncodeAll(ts[1..])|
  {
  }

  lemma FirstIsRead(b: bytes, i: nat, ts: seq<Tree>) returns (v: At<Value>)
    requires ts != [] && TreesFit(ts, |b|) && Has(b, i, EncodeAll(ts))
    ensures i < |b| && v == ValueAt(b, i, false) && v.value == Meaning(ts[0]) && !v.trunc
    ensures Has(b, v.i, EncodeAll(ts[1..])) && v.i + |EncodeAll(ts[1..])| == i + |EncodeAll(ts)|
    decreases ts[0], 2
  {
    FirstEncoded(ts);
    ReadsFirstTree(b, i, ts[0], EncodeAll(ts[1..]));
    v := At(Meaning(ts[0]), i + |Encode(ts[0])|, false);
  }

  lemma {:induction false} EncodedIsLaid(b: bytes, i: nat, ts: seq<Tree>, end: nat)
    requires TreesFit(ts, |b|) && Has(b, i, EncodeAll(ts)) && end == i + |EncodeAll(ts)|
    ensures Laid(b, i, ts, end)
    decreases ts, 0
  {
    if ts != [] {
      var v := FirstIsRead(b, i, ts);
      EncodedIsLaid(b, v.i, ts[1..], end);
      LayFirst(b, i, ts, v, end);
    }
  }

  lemma ItemsStep(b: bytes, i: nat, n: nat, acc: seq<Value>, v: At<Value>)
    requires i <= |b| && n > 0 && v == ValueAt(b, i, false)
    ensures ItemsAt(b, i, false, n, acc) == ItemsAt(b, v.i, v.trunc, n - 1, acc + [v.value])
  {
  }

  lemma {:induction false} LaidIsItems(b: bytes, i: nat, ts: seq<Tree>, acc: seq<Value>, end: nat)
    requires i <= |b| && Laid(b, i, ts, end)
    ensures ItemsAt(b, i, false, |ts|, acc) == At(acc + Meanings(ts), end, false)
    decreases |ts|
  {
    if ts == [] {
      assert acc + [] == acc;
    } else {
      var v := ValueAt(b, i, false);
      ItemsStep(b, i, |ts|, acc, v);
      LaidIsItems(b, v.i, ts[1..], acc + [v.value], end);
      FirstMeaning(ts, acc);
    }
  }

  lemma Grouped(a: seq<Value>, b: seq<Value>, c: seq<Value>)
    ensures (a + b) + c == a + (b + c)
  {
  }

  lemma FirstMeaning(ts: seq<Tree>, acc: seq<Value>)
    requires ts != []
    ensures (acc + [Meaning(ts[0])]) + Meanings(ts[1..]) == acc + Meanings(ts)
  {
    Grouped(acc, [Meaning(ts[0])], Meanings(ts[1..]));
  }

  lemma {:induction false} LaidIsRead(b: bytes, i: nat, ts: seq<Tree>, acc: seq<Value>, end: nat)
    requires i <= |b| && Laid(b, i, ts, end)
    ensures end <= |b| && ValuesAt(b, i, false, acc) == ValuesAt(b, end, false, acc + Meanings(ts))
    decreases |ts|
  {
    if ts == [] {
      assert acc + [] == acc;
    } else {
      var v := ValueAt(b, i, false);
      ValuesStep(b, i, acc, v);
      LaidIsRead(b, v.i, ts[1..], acc + [v.value], end);
      FirstMeaning(ts, acc);
    }
  }

  lemma {:induction false} EachFits(ts: seq<Tree>, len: nat)
    requires forall t | t in ts :: Fits(t, len)
    ensures TreesFit(ts, len)
  {
    if ts != [] {
      assert ts[0] in ts;
      EachFits(ts[1..], len);
    }
  }

  /** Decoding any encoded list of trees gives exactly their meanings, and nothing is truncated. */
  lemma DecodeUndoesEncode(ts: seq<Tree>)
    requires forall t | t in ts :: Fits(t, |EncodeAll(ts)|)
    ensures DecodeAll(EncodeAll(ts)) == Meanings(ts)
    ensures !ValuesAt(EncodeAll(ts), 0, false, []).trunc
  {
    var b := EncodeAll(ts);
    assert b[0..0 + |b|] == b;
    EachFits(ts, |b|);
    EncodedIsLaid(b, 0, ts, |b|);
    LaidIsRead(b, 0, ts, [], |b|);
    assert [] + Meanings(ts) == Meanings(ts);
  }

  /** Values that stand whole in front of anything else are read first. */
  lemma WholeValuesFirst(ts: seq<Tree>, tail: bytes)
    requires forall t | t in ts :: Fits(t, |EncodeAll(ts) + tail|)
    ensures ValuesAt(EncodeAll(ts) + tail, 0, false, [])
         == ValuesAt(EncodeAll(ts) + tail, |EncodeAll(ts)|, false, Meanings(ts))
  {
    var b, end := EncodeAll(ts) + tail, |EncodeAll(ts)|;
    assert b[0..0 + end] == EncodeAll(ts);
    EachFits(ts, |b|);
    EncodedIsLaid(b, 0, ts, end);
    LaidIsRead(b, 0, ts, [], end);
    assert [] + Meanings(ts) == Meanings(ts);
  }

  /**
   * Whatever stands behind them, cut short or garbled, whole values are decoded, and come first.
   */
  lemma WholeValuesSurvive(ts: seq<Tree>, tail: bytes)
    requires forall t | t in ts :: Fits(t, |EncodeAll(ts) + tail|)
    ensures Meanings(ts) <= DecodeAll(EncodeAll(ts) + tail)
  {
    WholeValuesFirst(ts, tail);
    ValuesKeepFirst(EncodeAll(ts) + tail, |EncodeAll(ts)|, Meanings(ts));
  }

  lemma OversizedArrayIsCut(b: bytes, i: nat, n: uint32, tail: bytes)
    requires Has(b, i, [0x0A] + (PutBE32(n) + tail)) && n > |b| % 0x1_0000_0000
    ensures i < |b| && ValueAt(b, i, false) == At(Nil, i + 5, true)
  {
    ReadsCount(b, i, 0x0A, n, tail);
  }

  /**
   * A strict array that claims more items than the input has bytes is read as Nil, whatever items
   * follow, and nothing behind its count is decoded.
   */
  lemma OversizedArrayEndsIt(ts: seq<Tree>, n: uint32, tail: bytes, b: bytes)
    requires b == EncodeAll(ts) + ([0x0A] + (PutBE32(n) + tail)) && forall t | t in ts :: Fits(t, |b|)
    requires n > |b| % 0x1_0000_0000
    ensures DecodeAll(b) == Meanings(ts) + [Nil]
  {
    var end := |EncodeAll(ts)|;
    WholeValuesFirst(ts, [0x0A] + (PutBE32(n) + tail));
    assert b[end..] == [0x0A] + (PutBE32(n) + tail);
    OversizedArrayIsCut(b, end, n, tail);
    ValuesStep(b, end, Meanings(ts), At(Nil, end + 5, true));
  }

  lemma CutObjectRead(b: bytes, ms: seq<Member>, g: bytes)
    requires b == [0x03] + Body(ms, g) && AllFit(ms, |b|) && |g| < 2
    ensures var o := ObjectAt(b, 1, false, map[]); o.value == Fields(ms, map[]) && (o.trunc || o.i == |b|)
  {
    var end := |b| - |g|;
    BodyEnds(ms, g);
    assert b[1..1 + |Body(ms, g)|] == Body(ms, g);
    ReadsUpTo(b, 1, ms, g, map[], end);
    CutIsTheEnd(b, end, Fields(ms, map[]));
  }

  /** And an object that breaks off after some members keeps those. */
  lemma WholeMembersSurvive(ms: seq<Member>, g: bytes, b: bytes)
    requires b == [0x03] + Body(ms, g) && AllFit(ms, |b|) && |g| < 2
    ensures DecodeAll(b) == [Object(Fields(ms, map[]))]
  {
    CutObjectRead(b, ms, g);
    assert U8(b, 0, false) == At(0x03, 1, false);
    ObjectValue(b, 0, ObjectAt(b, 1, false, map[]));
    OneValue(b);
  }

  /** Less than a key's length field is no member. */
  lemma CutIsTheEnd(b: bytes, i: nat, acc: map<bytes, Value>)
    requires |b| - 2 < i <= |b|
    ensures ObjectAt(b, i, false, acc).value == acc
    ensures ObjectAt(b, i, false, acc).trunc || ObjectAt(b, i, false, acc).i == |b|
  {
  }

  lemma OneValue(b: bytes)
    requires b != [] && (ValueAt(b, 0, false).trunc || ValueAt(b, 0, false).i == |b|)
    ensures DecodeAll(b) == [ValueAt(b, 0, false).value]
  {
    var v := ValueAt(b, 0, false);
    ValuesStep(b, 0, [], v);
    assert [] + [v.value] == [v.value];
  }

  /** The 16-bit length field is the exact limit of a string: a longer one never comes back. */
  lemma StringRoundTripsExactlyWhenShort(s: bytes)
    ensures DecodeAll(EncString(s)) == [Text(s)] <==> |s| < 0x1_0000
  {
    if |s| < 0x1_0000 {
      DecodeUndoesEncode([Str8(s)]);
      assert EncodeAll([Str8(s)]) == EncString(s) + [] == EncString(s);
    } else {
      var b, n := EncString(s), |s| % 0x1_0000;
      LongStringReadsShort(s);
      ValuesStep(b, 0, [], At(Text(s[..n]), 3 + n, false));
      ValuesKeepFirst(b, 3 + n, [] + [Text(s[..n])]);
      assert DecodeAll(b)[0] == Text(s[..n]);
    }
  }

  lemma LongStringReadsShort(s: bytes)
    ensures ValueAt(EncString(s), 0, false) == At(Text(s[..|s| % 0x1_0000]), 3 + |s| % 0x1_0000, false)
  {
    var b, n := EncString(s), |s| % 0x1_0000;
    var short := s[..n];
    assert b == [0x02] + (PutBE16(n) + s);
    assert b[0..3 + n] == [0x02] + (PutBE16(n) + short);
    assert |short| == n;
    ReadsTree(b, 0, Str8(short));
  }

  lemma {:induction false} ValuesKeepFirst(b: bytes, i: nat, acc: seq<Value>)
    requires i <= |b|
    ensures acc <= ValuesAt(b, i, false, acc).value
    decreases |b| - i
  {
    if i < |b| {
      var v := ValueAt(b, i, false);
      if !v.trunc {
        ValuesKeepFirst(b, v.i, acc + [v.value]);
      }
    }
  }
}
