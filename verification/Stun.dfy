/**
 * The STUN responder for latency probes (node/node/probe.go), against a receiver that follows
 * RFC 5389: attributes are walked as in section 15, addresses undone as in section 15.2, and
 * MESSAGE-INTEGRITY and FINGERPRINT checked as in sections 15.4 and 15.5.
 * HMAC-SHA1 and CRC-32 are parameters.
 */
module Stun {
  import opened Bytes

  const MAGIC_COOKIE: uint32 := 0x2112_A442
  const BINDING_REQUEST: uint16 := 0x0001
  const BINDING_OK: uint16 := 0x0101
  const MESSAGE_INTEGRITY: uint16 := 0x0008
  const FINGERPRINT: uint16 := 0x8028
  const XOR_MAPPED: uint16 := 0x0020
  const FP_CRC_XOR: uint32 := 0x5354_554E

  type Digest = d: bytes | |d| == 20 witness seq(20, _ => 0)
  type Mac = (bytes, bytes) -> Digest
  type Crc = bytes -> uint32

  // ---- exclusive or ----

  function Pow2(n: nat): nat {
    if n == 0 then 1 else 2 * Pow2(n - 1)
  }

  /** Exclusive or of the low n bits. */
  function Xor(a: nat, b: nat, n: nat): (r: nat)
    ensures r < Pow2(n)
  {
    if n == 0 then 0
    else 2 * Xor(a / 2, b / 2, n - 1) + if a % 2 == b % 2 then 0 else 1
  }

  lemma {:induction false} XorUndoes(a: nat, b: nat, n: nat)
    requires a < Pow2(n)
    ensures Xor(Xor(a, b, n), b, n) == a
  {
    if n > 0 {
      XorUndoes(a / 2, b / 2, n - 1);
      var x := Xor(a, b, n);
      assert x / 2 == Xor(a / 2, b / 2, n - 1);
    }
  }

  lemma WordSizes()
    ensures Pow2(16) == 0x1_0000 && Pow2(32) == 0x1_0000_0000
  {
    assert Pow2(8) == 0x100;
    assert Pow2(16) == 0x1_0000;
    assert Pow2(24) == 0x100_0000;
  }

  function Xor16(a: uint16, b: uint16): uint16 {
    WordSizes();
    Xor(a, b, 16)
  }

  function Xor32(a: uint32, b: uint32): uint32 {
    WordSizes();
    Xor(a, b, 32)
  }

  lemma Xor16Undoes(a: uint16, b: uint16)
    ensures Xor16(Xor16(a, b), b) == a
  {
    WordSizes();
    XorUndoes(a, b, 16);
  }

  lemma Xor32Undoes(a: uint32, b: uint32)
    ensures Xor32(Xor32(a, b), b) == a
  {
    WordSizes();
    XorUndoes(a, b, 32);
  }

  // ---- the builder, as functions ----

  function Zeros(n: nat): (z: bytes)
    ensures |z| == n
  {
    seq(n, _ => 0)
  }

  /** How many zeros bring a length to a multiple of four. */
  function Padding(n: nat): (p: nat)
    ensures p < 4 && (n + p) % 4 == 0
  {
    (4 - n % 4) % 4
  }

  function WithLength(msg: bytes, n: int): (m: bytes)
    requires |msg| >= 20
    ensures |m| == |msg|
  {
    msg[..2] + PutBE16(n % 0x1_0000) + msg[4..]
  }

  function Unpadded(t: uint16, v: bytes): bytes {
    PutBE16(t) + PutBE16(|v| % 0x1_0000) + v
  }

  function Appended(msg: bytes, t: uint16, v: bytes): (m: bytes)
    requires |msg| >= 20
    ensures |m| == |msg| + 4 + |v| + Padding(|msg| + 4 + |v|)
  {
    var p := msg + Unpadded(t, v) + Zeros(Padding(|msg| + 4 + |v|));
    WithLength(p, |p| - 20)
  }

  function WithIntegrity(msg: bytes, pwd: bytes, mac: Mac): (m: bytes)
    requires |msg| >= 20
    ensures |m| >= 20
  {
    var sized := WithLength(msg, |msg| - 20 + 24);
    Appended(sized, MESSAGE_INTEGRITY, mac(pwd, sized))
  }

  function WithFingerprint(msg: bytes, crc: Crc): bytes
    requires |msg| >= 20
  {
    var sized := WithLength(msg, |msg| - 20 + 8);
    Appended(sized, FINGERPRINT, PutBE32(Xor32(crc(sized), FP_CRC_XOR)))
  }

  // ---- the receiver ----

  /** An attribute and where its header stands in the message. */
  datatype Attribute = Attribute(t: uint16, v: bytes, at: nat)

  function WordAt(msg: bytes, i: nat): uint16
    requires i + 2 <= |msg|
  {
    msg[i] as int * 0x100 + msg[i + 1]
  }

  /** Where the attribute at i ends, padding included. */
  function EndAt(msg: bytes, i: nat): (end: nat)
    requires i + 4 <= |msg|
    ensures end >= i + 4 + WordAt(msg, i + 2)
  {
    var len := WordAt(msg, i + 2);
    i + 4 + len + Padding(len)
  }

  predicate FitsAt(msg: bytes, i: nat) {
    i + 4 <= |msg| && EndAt(msg, i) <= |msg|
  }

  function AttributeAt(msg: bytes, i: nat): Attribute
    requires FitsAt(msg, i)
  {
    Attribute(WordAt(msg, i), msg[i + 4..i + 4 + WordAt(msg, i + 2)], i)
  }

  /** The attributes from offset i to the end of the message; None when they are not well formed. */
  function Walk(msg: bytes, i: nat): Option<seq<Attribute>>
    requires i <= |msg|
    decreases |msg| - i
  {
    if i == |msg| then Some([])
    else if !FitsAt(msg, i) then None
    else
      var rest := Walk(msg, EndAt(msg, i));
      if rest.None? then None else Some([AttributeAt(msg, i)] + rest.value)
  }

  function Attributes(msg: bytes): Option<seq<Attribute>>
    requires |msg| >= 20
  {
    Walk(msg, 20)
  }

  function FirstOf(attrs: seq<Attribute>, t: uint16): Option<Attribute> {
    if attrs == [] then None else if attrs[0].t == t then Some(attrs[0]) else FirstOf(attrs[1..], t)
  }

  /** Exactly `attrs` stand from offset i to the end. */
  predicate Walks(msg: bytes, i: nat, attrs: seq<Attribute>)
    decreases |attrs|
  {
    if attrs == [] then i == |msg|
    else FitsAt(msg, i) && AttributeAt(msg, i) == attrs[0] && Walks(msg, EndAt(msg, i), attrs[1..])
  }

  /** An aligned message with exactly these attributes. The header's length field may be stale. */
  predicate Holds(msg: bytes, attrs: seq<Attribute>) {
    |msg| >= 20 && |msg| % 4 == 0 && Walks(msg, 20, attrs)
  }

  predicate LengthCorrect(msg: bytes)
    requires |msg| >= 20
  {
    BE16(msg[2..4]) == |msg| - 20
  }

  /** Section 15.4: the MAC covers what precedes the attribute, with the length set to end after it. */
  predicate IntegrityAccepted(msg: bytes, attrs: seq<Attribute>, pwd: bytes, mac: Mac) {
    var a := FirstOf(attrs, 0x0008);
    && a.Some? && 20 <= a.value.at <= |msg|
    && a.value.v == mac(pwd, WithLength(msg[..a.value.at], a.value.at - 20 + 24))
  }

  /** Section 15.5: the last attribute, over everything before it, with the length as received. */
  predicate FingerprintAccepted(msg: bytes, attrs: seq<Attribute>, crc: Crc) {
    && attrs != []
    && var a := attrs[|attrs| - 1];
       a.t == 0x8028 && a.at <= |msg| && a.v == PutBE32(Xor32(crc(msg[..a.at]), 0x5354_554E))
  }

  datatype Address = Address(ip: bytes, port: uint16)

  /** Section 15.2, for IPv4. */
  function MappedAddress(attrs: seq<Attribute>): Option<Address> {
    var a := FirstOf(attrs, 0x0020);
    if a.Some? && |a.value.v| == 8 && a.value.v[1] == 0x01 then
      var v := a.value.v;
      Some(Address(PutBE32(Xor32(BE32(v[4..]), 0x2112_A442)), Xor16(BE16(v[2..4]), 0x2112)))
    else None
  }

  /** What a receiver that trusts nothing gets out of a message: the address, once all checks pass. */
  function Received(msg: bytes, pwd: bytes, mac: Mac, crc: Crc): Option<Address> {
    if |msg| < 20 || !LengthCorrect(msg) || Attributes(msg).None? then None
    else
      var attrs := Attributes(msg).value;
      if IntegrityAccepted(msg, attrs, pwd, mac) && FingerprintAccepted(msg, attrs, crc) then MappedAddress(attrs)
      else None
  }

  // ---- appending an attribute ----

  function Padded(t: uint16, v: bytes): bytes {
    Unpadded(t, v) + Zeros(Padding(|v|))
  }

  lemma WithLengthOfSum(a: bytes, b: bytes, n: int)
    requires |a| >= 20
    ensures WithLength(a + b, n) == WithLength(a, n) + b
  {
    assert (a + b)[..2] == a[..2] && (a + b)[4..] == a[4..] + b;
  }

  lemma LengthIsReplaced(msg: bytes, m: int, n: int)
    requires |msg| >= 20
    ensures WithLength(WithLength(msg, m), n) == WithLength(msg, n)
    ensures SameHeader(WithLength(msg, n), msg)
    ensures BE16(WithLength(msg, n)[2..4]) == n % 0x1_0000
  {
    var w := WithLength(msg, m);
    assert w[..2] == msg[..2] && w[4..] == msg[4..];
    BE16RoundTrip(n % 0x1_0000);
  }

  /** Behind an aligned message the attribute stands padded by its own length. */
  lemma AppendedShape(msg: bytes, t: uint16, v: bytes)
    requires |msg| >= 20 && |msg| % 4 == 0
    ensures var n := |msg| + |Padded(t, v)| - 20;
            Appended(msg, t, v) == WithLength(msg, n) + Padded(t, v)
  {
    assert Padding(|msg| + 4 + |v|) == Padding(|v|);
    var n := |msg| + |Padded(t, v)| - 20;
    assert msg + Unpadded(t, v) + Zeros(Padding(|v|)) == msg + Padded(t, v);
    WithLengthOfSum(msg, Padded(t, v), n);
  }

  /** Past offset i, b continues a. */
  ghost predicate Continues(b: bytes, a: bytes, i: nat) {
    |a| <= |b| && forall k | i <= k < |a| :: b[k] == a[k]
  }

  lemma SameAttribute(a: bytes, b: bytes, i: nat)
    requires Continues(b, a, i) && FitsAt(a, i)
    ensures FitsAt(b, i) && EndAt(b, i) == EndAt(a, i) && AttributeAt(b, i) == AttributeAt(a, i)
  {
    assert WordAt(b, i + 2) == WordAt(a, i + 2) && WordAt(b, i) == WordAt(a, i);
    var n := i + 4 + WordAt(a, i + 2);
    assert b[i + 4..n] == a[i + 4..n];
  }

  lemma {:induction false} WalkIsWalks(msg: bytes, i: nat, attrs: seq<Attribute>)
    requires i <= |msg|
    ensures Walk(msg, i) == Some(attrs) <==> Walks(msg, i, attrs)
    decreases |msg| - i
  {
    if i < |msg| && FitsAt(msg, i) {
      var end := EndAt(msg, i);
      if attrs != [] {
        WalkIsWalks(msg, end, attrs[1..]);
        assert attrs == [attrs[0]] + attrs[1..];
      }
      if Walk(msg, i) == Some(attrs) {
        assert attrs[1..] == Walk(msg, end).value;
      }
    }
  }

  /** Walking on into what follows. */
  lemma {:induction false} WalksOn(a: bytes, b: bytes, i: nat, xs: seq<Attribute>, ys: seq<Attribute>)
    requires Continues(b, a, i) && Walks(a, i, xs) && Walks(b, |a|, ys)
    ensures Walks(b, i, xs + ys)
    decreases |xs|
  {
    if xs == [] {
      assert xs + ys == ys;
    } else {
      SameAttribute(a, b, i);
      WalksOn(a, b, EndAt(a, i), xs[1..], ys);
      assert (xs + ys)[1..] == xs[1..] + ys;
    }
  }

  /** `p` is one attribute, padded. */
  ghost predicate Carries(p: bytes, t: uint16, v: bytes) {
    && |v| < 0x1_0000 && |p| == 4 + |v| + Padding(|v|) && |p| % 4 == 0
    && WordAt(p, 0) == t && WordAt(p, 2) == |v| && p[4..4 + |v|] == v
  }

  lemma PaddedShape(t: uint16, v: bytes)
    requires |v| < 0x1_0000
    ensures Padded(t, v) == [t / 0x100, t % 0x100, |v| / 0x100, |v| % 0x100] + (v + Zeros(Padding(|v|)))
  {
  }

  lemma PaddedCarries(t: uint16, v: bytes)
    requires |v| < 0x1_0000
    ensures Carries(Padded(t, v), t, v)
  {
    var head: bytes := [t / 0x100, t % 0x100, |v| / 0x100, |v| % 0x100];
    PaddedShape(t, v);
    WordsOf(t, |v|, v + Zeros(Padding(|v|)));
    MiddleOf(head, v, Zeros(Padding(|v|)));
    AlignedSum(4, |v| + Padding(|v|));
  }

  lemma WordsOf(t: uint16, n: uint16, rest: bytes)
    ensures var b := [t / 0x100, t % 0x100, n / 0x100, n % 0x100] + rest; WordAt(b, 0) == t && WordAt(b, 2) == n
  {
  }

  lemma MiddleOf(a: bytes, b: bytes, c: bytes)
    ensures (a + (b + c))[|a|..|a| + |b|] == b
  {
  }

  lemma WalksOne(m: bytes, i: nat, a: Attribute)
    requires FitsAt(m, i) && EndAt(m, i) == |m| && AttributeAt(m, i) == a
    ensures Walks(m, i, [a])
  {
    assert Walks(m, |m|, [a][1..]);
  }

  lemma WordsBehind(msg: bytes, p: bytes)
    requires |p| >= 4
    ensures WordAt(msg + p, |msg|) == WordAt(p, 0) && WordAt(msg + p, |msg| + 2) == WordAt(p, 2)
  {
  }

  lemma SliceBehind(msg: bytes, p: bytes, n: nat)
    requires 4 + n <= |p|
    ensures (msg + p)[|msg| + 4..|msg| + 4 + n] == p[4..4 + n]
  {
  }

  lemma WalksLast(msg: bytes, p: bytes, t: uint16, v: bytes)
    requires Carries(p, t, v)
    ensures Walks(msg + p, |msg|, [Attribute(t, v, |msg|)])
  {
    var m, n := msg + p, |msg|;
    WordsBehind(msg, p);
    SliceBehind(msg, p, |v|);
    assert EndAt(m, n) == |m|;
    WalksOne(m, n, Attribute(t, v, n));
  }

  lemma AlignedSum(m: nat, n: nat)
    requires m % 4 == 0 && n % 4 == 0
    ensures (m + n) % 4 == 0
  {
  }

  lemma ReadBehind(msg: bytes, attrs: seq<Attribute>, p: bytes, t: uint16, v: bytes)
    requires Holds(msg, attrs) && Carries(p, t, v)
    ensures Holds(msg + p, attrs + [Attribute(t, v, |msg|)])
  {
    WalksLast(msg, p, t, v);
    WalksOn(msg, msg + p, 20, attrs, [Attribute(t, v, |msg|)]);
    AlignedSum(|msg|, |p|);
  }

  lemma StaleLengthStillHolds(msg: bytes, attrs: seq<Attribute>, n: int)
    requires Holds(msg, attrs)
    ensures Holds(WithLength(msg, n), attrs)
  {
    assert Walks(WithLength(msg, n), |msg|, []) && attrs + [] == attrs;
    WalksOn(msg, WithLength(msg, n), 20, attrs, []);
  }

  /**
   * Appending to any aligned, walkable message: the attribute is read back after the old ones, and
   * the other header fields stand.
   */
  lemma AppendIsRead(msg: bytes, attrs: seq<Attribute>, t: uint16, v: bytes)
    requires Holds(msg, attrs) && |v| < 0x1_0000
    ensures Holds(Appended(msg, t, v), attrs + [Attribute(t, v, |msg|)])
    ensures SameHeader(Appended(msg, t, v), msg)
  {
    var n := |msg| + |Padded(t, v)| - 20;
    AppendedShape(msg, t, v);
    LengthIsReplaced(msg, n, n);
    StaleLengthStillHolds(msg, attrs, n);
    PaddedCarries(t, v);
    ReadBehind(WithLength(msg, n), attrs, Padded(t, v), t, v);
    HeaderOfSum(WithLength(msg, n), Padded(t, v));
  }

  /** The length field is right exactly while the length fits 16 bits. */
  lemma LengthCorrectExactlyWhenItFits(msg: bytes, t: uint16, v: bytes)
    requires |msg| >= 20
    ensures var m := Appended(msg, t, v); LengthCorrect(m) <==> |m| - 20 < 0x1_0000
  {
    var p := msg + Unpadded(t, v) + Zeros(Padding(|msg| + 4 + |v|));
    LengthIsReplaced(p, 0, |p| - 20);
  }

  /** Type, cookie and transaction are the same. */
  predicate SameHeader(a: bytes, b: bytes)
    requires |a| >= 20 && |b| >= 20
  {
    a[..2] == b[..2] && a[4..8] == b[4..8] && a[8..20] == b[8..20]
  }

  lemma HeaderOfSum(a: bytes, b: bytes)
    requires |a| >= 20
    ensures SameHeader(a + b, a) && (a + b)[2..4] == a[2..4]
  {
  }

  // ---- integrity and fingerprint together ----

  lemma {:induction false} FirstOfAppended(attrs: seq<Attribute>, a: Attribute, more: seq<Attribute>)
    requires FirstOf(attrs, a.t).None?
    ensures FirstOf(attrs + [a] + more, a.t) == Some(a)
  {
    if attrs != [] {
      FirstOfAppended(attrs[1..], a, more);
      assert (attrs + [a] + more)[1..] == attrs[1..] + [a] + more;
    }
  }

  function Signed(msg: bytes, pwd: bytes, mac: Mac, crc: Crc): bytes
    requires |msg| >= 20
  {
    WithFingerprint(WithIntegrity(msg, pwd, mac), crc)
  }

  /** What an appended attribute of whole words adds, the length having been set for it before. */
  lemma SizedShape(msg: bytes, t: uint16, v: bytes)
    requires |msg| >= 20 && |msg| % 4 == 0 && |v| % 4 == 0
    ensures var n := |msg| - 20 + 4 + |v|;
            Appended(WithLength(msg, n), t, v) == WithLength(msg, n) + Padded(t, v) && |Padded(t, v)| == 4 + |v|
  {
    var n := |msg| - 20 + 4 + |v|;
    AppendedShape(WithLength(msg, n), t, v);
    LengthIsReplaced(msg, n, n);
  }

  lemma IntegrityShape(msg: bytes, pwd: bytes, mac: Mac) returns (tag: bytes)
    requires |msg| >= 20 && |msg| % 4 == 0
    ensures |tag| == 24 && WithIntegrity(msg, pwd, mac) == WithLength(msg, |msg| - 20 + 24) + tag
  {
    var v := mac(pwd, WithLength(msg, |msg| - 20 + 24));
    SizedShape(msg, MESSAGE_INTEGRITY, v);
    tag := Padded(MESSAGE_INTEGRITY, v);
  }

  lemma FingerprintShape(msg: bytes, crc: Crc) returns (tag: bytes)
    requires |msg| >= 20 && |msg| % 4 == 0
    ensures |tag| == 8 && WithFingerprint(msg, crc) == WithLength(msg, |msg| - 20 + 8) + tag
  {
    var v := PutBE32(Xor32(crc(WithLength(msg, |msg| - 20 + 8)), FP_CRC_XOR));
    SizedShape(msg, FINGERPRINT, v);
    tag := Padded(FINGERPRINT, v);
  }

  lemma RelengthedSum(msg: bytes, m: int, tag: bytes, n: int)
    requires |msg| >= 20
    ensures WithLength(WithLength(msg, m) + tag, n) == WithLength(msg, n) + tag
  {
    WithLengthOfSum(WithLength(msg, m), tag, n);
    LengthIsReplaced(msg, m, n);
  }

  lemma Prefixes(a: bytes, b: bytes, c: bytes)
    ensures (a + b + c)[..|a|] == a && (a + b + c)[..|a + b|] == a + b
  {
  }

  /** The signed message up to an old length is the message itself but for its length field. */
  lemma PrefixOfSigned(msg: bytes, pwd: bytes, mac: Mac, crc: Crc)
    requires |msg| >= 20 && |msg| % 4 == 0
    ensures var mi := WithIntegrity(msg, pwd, mac);
            var m := Signed(msg, pwd, mac, crc);
            && |mi| == |msg| + 24 && |m| == |msg| + 32
            && m[..|mi|] == WithLength(mi, |mi| - 20 + 8)
            && m[..|msg|] == WithLength(msg, |mi| - 20 + 8)
  {
    var mi := WithIntegrity(msg, pwd, mac);
    var n := |mi| - 20 + 8;
    var tag := IntegrityShape(msg, pwd, mac);
    var tag' := FingerprintShape(mi, crc);
    RelengthedSum(msg, |msg| - 20 + 24, tag, n);
    Prefixes(WithLength(msg, n), tag, tag');
  }

  function IntegrityTag(msg: bytes, pwd: bytes, mac: Mac): Attribute
    requires |msg| >= 20
  {
    Attribute(MESSAGE_INTEGRITY, mac(pwd, WithLength(msg, |msg| - 20 + 24)), |msg|)
  }

  function FingerprintTag(msg: bytes, crc: Crc): Attribute
    requires |msg| >= 20
  {
    Attribute(FINGERPRINT, PutBE32(Xor32(crc(WithLength(msg, |msg| - 20 + 8)), FP_CRC_XOR)), |msg|)
  }

  /** The attributes of the signed message. */
  function SignedAttributes(msg: bytes, attrs: seq<Attribute>, pwd: bytes, mac: Mac, crc: Crc): seq<Attribute>
    requires |msg| >= 20
  {
    attrs + [IntegrityTag(msg, pwd, mac)] + [FingerprintTag(WithIntegrity(msg, pwd, mac), crc)]
  }

  lemma IntegrityHolds(msg: bytes, attrs: seq<Attribute>, pwd: bytes, mac: Mac)
    requires Holds(msg, attrs)
    ensures var mi := WithIntegrity(msg, pwd, mac);
            Holds(mi, attrs + [IntegrityTag(msg, pwd, mac)]) && SameHeader(mi, msg)
  {
    var sized := WithLength(msg, |msg| - 20 + 24);
    StaleLengthStillHolds(msg, attrs, |msg| - 20 + 24);
    LengthIsReplaced(msg, 0, |msg| - 20 + 24);
    AppendIsRead(sized, attrs, MESSAGE_INTEGRITY, mac(pwd, sized));
  }

  lemma FingerprintHolds(msg: bytes, attrs: seq<Attribute>, crc: Crc)
    requires Holds(msg, attrs)
    ensures var m := WithFingerprint(msg, crc);
            Holds(m, attrs + [FingerprintTag(msg, crc)]) && SameHeader(m, msg)
  {
    var sized := WithLength(msg, |msg| - 20 + 8);
    StaleLengthStillHolds(msg, attrs, |msg| - 20 + 8);
    LengthIsReplaced(msg, 0, |msg| - 20 + 8);
    AppendIsRead(sized, attrs, FINGERPRINT, PutBE32(Xor32(crc(sized), FP_CRC_XOR)));
  }

  lemma SameHeaders(a: bytes, b: bytes, c: bytes)
    requires |a| >= 20 && |b| >= 20 && |c| >= 20 && SameHeader(a, b) && SameHeader(b, c)
    ensures SameHeader(a, c)
  {
  }

  lemma SignedHeader(msg: bytes, attrs: seq<Attribute>, pwd: bytes, mac: Mac, crc: Crc)
    requires Holds(msg, attrs)
    ensures SameHeader(Signed(msg, pwd, mac, crc), msg)
  {
    var mi := WithIntegrity(msg, pwd, mac);
    IntegrityHolds(msg, attrs, pwd, mac);
    FingerprintHolds(mi, attrs + [IntegrityTag(msg, pwd, mac)], crc);
    SameHeaders(WithFingerprint(mi, crc), mi, msg);
  }

  lemma SignedHolds(msg: bytes, attrs: seq<Attribute>, pwd: bytes, mac: Mac, crc: Crc)
    requires Holds(msg, attrs)
    ensures Holds(Signed(msg, pwd, mac, crc), SignedAttributes(msg, attrs, pwd, mac, crc))
  {
    var mi := WithIntegrity(msg, pwd, mac);
    IntegrityHolds(msg, attrs, pwd, mac);
    FingerprintHolds(mi, attrs + [IntegrityTag(msg, pwd, mac)], crc);
  }

  lemma SignedLength(msg: bytes, pwd: bytes, mac: Mac, crc: Crc)
    requires |msg| >= 20
    ensures var m := Signed(msg, pwd, mac, crc); LengthCorrect(m) <==> |m| - 20 < 0x1_0000
  {
    var mi := WithIntegrity(msg, pwd, mac);
    var sized := WithLength(mi, |mi| - 20 + 8);
    LengthCorrectExactlyWhenItFits(sized, FINGERPRINT, PutBE32(Xor32(crc(sized), FP_CRC_XOR)));
  }

  /**
   * A receiver accepts both, whatever the MAC and the checksum are: that the fingerprint rewrote
   * the length after the MAC was taken does no harm.
   */
  lemma SignedIsAccepted(msg: bytes, attrs: seq<Attribute>, pwd: bytes, mac: Mac, crc: Crc)
    requires Holds(msg, attrs) && FirstOf(attrs, MESSAGE_INTEGRITY).None?
    ensures var m, all := Signed(msg, pwd, mac, crc), SignedAttributes(msg, attrs, pwd, mac, crc);
            Holds(m, all) && IntegrityAccepted(m, all, pwd, mac) && FingerprintAccepted(m, all, crc)
  {
    SignedHolds(msg, attrs, pwd, mac, crc);
    PrefixOfSigned(msg, pwd, mac, crc);
    var all := SignedAttributes(msg, attrs, pwd, mac, crc);
    FirstOfAppended(attrs, all[|attrs|], [all[|attrs| + 1]]);
    LengthIsReplaced(msg, |msg| + 24 - 20 + 8, |msg| - 20 + 24);
  }

  // ---- binding success ----

  /** The 4-byte form of an address, if it has one. */
  function To4(ip: bytes): (r: Option<bytes>)
    ensures r.Some? ==> |r.value| == 4
  {
    if |ip| == 4 then Some(ip)
    else if |ip| == 16 && ip[..10] == Zeros(10) && ip[10] == 0xff && ip[11] == 0xff then Some(ip[12..])
    else None
  }

  function XorMapped(ip4: bytes, port: uint16): bytes
    requires |ip4| == 4
  {
    [0x00, 0x01] + PutBE16(Xor16(port, MAGIC_COOKIE / 0x1_0000)) + PutBE32(Xor32(BE32(ip4), MAGIC_COOKIE))
  }

  function Response(req: bytes, ip4: bytes, port: uint16, pwd: bytes, mac: Mac, crc: Crc): bytes
    requires |req| >= 20 && |ip4| == 4
  {
    Signed(Appended(ResponseHeader(req), XOR_MAPPED, XorMapped(ip4, port)), pwd, mac, crc)
  }

  lemma PutUndoesBE32(b: bytes)
    requires |b| == 4
    ensures PutBE32(BE32(b)) == b
  {
    var v := BE32(b);
    assert v / 0x100 == b[0] as int * 0x1_0000 + b[1] as int * 0x100 + b[2];
    assert v / 0x100 / 0x100 == b[0] as int * 0x100 + b[1];
  }

  lemma XorMappedFields(ip4: bytes, port: uint16)
    requires |ip4| == 4
    ensures var v := XorMapped(ip4, port);
            && |v| == 8 && v[1] == 0x01
            && v[2..4] == PutBE16(Xor16(port, 0x2112)) && v[4..] == PutBE32(Xor32(BE32(ip4), 0x2112_A442))
  {
    var x, a := PutBE16(Xor16(port, 0x2112)), PutBE32(Xor32(BE32(ip4), 0x2112_A442));
    assert MAGIC_COOKIE / 0x1_0000 == 0x2112;
    TwoFields([0x00, 0x01], x, a);
  }

  lemma TwoFields(h: bytes, x: bytes, a: bytes)
    ensures (h + x + a)[|h|..|h| + |x|] == x && (h + x + a)[|h| + |x|..] == a
  {
  }

  lemma PortUndone(port: uint16)
    ensures Xor16(BE16(PutBE16(Xor16(port, 0x2112))), 0x2112) == port
  {
    BE16RoundTrip(Xor16(port, 0x2112));
    Xor16Undoes(port, 0x2112);
  }

  lemma AddressUndone(ip4: bytes)
    requires |ip4| == 4
    ensures PutBE32(Xor32(BE32(PutBE32(Xor32(BE32(ip4), 0x2112_A442))), 0x2112_A442)) == ip4
  {
    BE32RoundTrip(Xor32(BE32(ip4), 0x2112_A442));
    Xor32Undoes(BE32(ip4), 0x2112_A442);
    PutUndoesBE32(ip4);
  }

  lemma XorMappedUndone(ip4: bytes, port: uint16)
    requires |ip4| == 4
    ensures var v := XorMapped(ip4, port);
            && |v| == 8 && v[1] == 0x01
            && PutBE32(Xor32(BE32(v[4..]), 0x2112_A442)) == ip4
            && Xor16(BE16(v[2..4]), 0x2112) == port
  {
    XorMappedFields(ip4, port);
    PortUndone(port);
    AddressUndone(ip4);
  }

  function ResponseHeader(req: bytes): (h: bytes)
    requires |req| >= 20
    ensures |h| == 20
  {
    PutBE16(BINDING_OK) + [0, 0] + PutBE32(MAGIC_COOKIE) + req[8..20]
  }

  /** Success, this magic cookie, and the transaction of the request. */
  predicate AnswersTo(m: bytes, req: bytes)
    requires |m| >= 20 && |req| >= 20
  {
    m[..2] == [0x01, 0x01] && m[4..8] == [0x21, 0x12, 0xA4, 0x42] && m[8..20] == req[8..20]
  }

  lemma HeaderAnswers(req: bytes)
    requires |req| >= 20
    ensures AnswersTo(ResponseHeader(req), req) && Holds(ResponseHeader(req), [])
  {
    var h := ResponseHeader(req);
    assert h[..2] == PutBE16(BINDING_OK) && h[4..8] == PutBE32(MAGIC_COOKIE);
    assert h[8..20] == req[8..20];
  }

  lemma SameHeaderAnswers(a: bytes, b: bytes, req: bytes)
    requires |a| >= 20 && |b| >= 20 && |req| >= 20 && SameHeader(a, b) && AnswersTo(b, req)
    ensures AnswersTo(a, req)
  {
  }

  lemma UnsignedHolds(req: bytes, v: bytes)
    requires |req| >= 20 && |v| < 0x1_0000
    ensures var msg := Appended(ResponseHeader(req), XOR_MAPPED, v);
            Holds(msg, [Attribute(XOR_MAPPED, v, 20)]) && AnswersTo(msg, req)
  {
    var h := ResponseHeader(req);
    HeaderAnswers(req);
    AppendIsRead(h, [], XOR_MAPPED, v);
    assert [] + [Attribute(XOR_MAPPED, v, 20)] == [Attribute(XOR_MAPPED, v, 20)];
    SameHeaderAnswers(Appended(h, XOR_MAPPED, v), h, req);
  }

  lemma FirstIsFound(attrs: seq<Attribute>)
    requires attrs != []
    ensures FirstOf(attrs, attrs[0].t) == Some(attrs[0])
  {
  }

  lemma MappedIsRead(attrs: seq<Attribute>, ip4: bytes, port: uint16)
    requires |ip4| == 4 && attrs != [] && attrs[0] == Attribute(XOR_MAPPED, XorMapped(ip4, port), 20)
    ensures MappedAddress(attrs) == Some(Address(ip4, port))
  {
    XorMappedUndone(ip4, port);
    FirstIsFound(attrs);
  }

  /** A receiver gets the address out of a signed message with one attribute. */
  lemma SignedIsReceived(msg: bytes, ip4: bytes, port: uint16, pwd: bytes, mac: Mac, crc: Crc)
    requires |ip4| == 4 && |msg| == 32 && Holds(msg, [Attribute(XOR_MAPPED, XorMapped(ip4, port), 20)])
    ensures Received(Signed(msg, pwd, mac, crc), pwd, mac, crc) == Some(Address(ip4, port))
  {
    var xma, m := Attribute(XOR_MAPPED, XorMapped(ip4, port), 20), Signed(msg, pwd, mac, crc);
    var attrs := SignedAttributes(msg, [xma], pwd, mac, crc);
    SignedIsAccepted(msg, [xma], pwd, mac, crc);
    SignedLength(msg, pwd, mac, crc);
    PrefixOfSigned(msg, pwd, mac, crc);
    WalkIsWalks(m, 20, attrs);
    assert attrs[0] == xma;
    MappedIsRead(attrs, ip4, port);
    AcceptedIsReceived(m, attrs, pwd, mac, crc);
  }

  lemma AcceptedIsReceived(m: bytes, attrs: seq<Attribute>, pwd: bytes, mac: Mac, crc: Crc)
    requires |m| >= 20 && LengthCorrect(m) && Attributes(m) == Some(attrs)
    requires IntegrityAccepted(m, attrs, pwd, mac) && FingerprintAccepted(m, attrs, crc)
    ensures Received(m, pwd, mac, crc) == MappedAddress(attrs)
  {
  }

  /** What the browser makes of a response: success, its own transaction and address, every check passed. */
  lemma ResponseIsUnderstood(req: bytes, ip4: bytes, port: uint16, pwd: bytes, mac: Mac, crc: Crc)
    requires |req| >= 20 && |ip4| == 4
    ensures var m := Response(req, ip4, port, pwd, mac, crc);
            && |m| >= 20 && m[..2] == [0x01, 0x01]
            && m[4..8] == [0x21, 0x12, 0xA4, 0x42] && m[8..20] == req[8..20]
            && Received(m, pwd, mac, crc) == Some(Address(ip4, port))
  {
    var v := XorMapped(ip4, port);
    var msg := Appended(ResponseHeader(req), XOR_MAPPED, v);
    UnsignedHolds(req, v);
    SignedHeader(msg, [Attribute(XOR_MAPPED, v, 20)], pwd, mac, crc);
    SameHeaderAnswers(Signed(msg, pwd, mac, crc), msg, req);
    SignedIsReceived(msg, ip4, port, pwd, mac, crc);
  }

  // ---- the builder itself ----

  /** As long as padding is under way, more is due exactly when the length is not aligned. */
  lemma PadsFit(n: nat, pads: nat)
    requires pads <= Padding(n)
    ensures (n + pads) % 4 == 0 <==> pads == Padding(n)
  {
  }

  lemma OneMoreZero(msg: bytes, pads: nat)
    ensures (msg + Zeros(pads)) + [0] == msg + Zeros(pads + 1)
  {
  }

  class Builder {
    var msg: bytes

    constructor (header: bytes)
      ensures msg == header
    {
      msg := header;
    }

    method PutLength(n: int)
      requires |msg| >= 20
      modifies this
      ensures msg == WithLength(old(msg), n)
    {
      var low := n % 0x1_0000;
      msg := msg[2 := low / 0x100][3 := low % 0x100];
    }

    method Pad()
      modifies this
      ensures msg == old(msg) + Zeros(Padding(|old(msg)|))
    {
      ghost var pads := 0;
      while |msg| % 4 != 0
        invariant msg == old(msg) + Zeros(pads) && pads <= Padding(|old(msg)|)
        decreases Padding(|old(msg)|) - pads
      {
        PadsFit(|old(msg)|, pads);
        OneMoreZero(old(msg), pads);
        msg := msg + [0];
        pads := pads + 1;
      }
      PadsFit(|old(msg)|, pads);
    }

    method AppendAttr(t: uint16, v: bytes)
      requires |msg| >= 20
      modifies this
      ensures msg == Appended(old(msg), t, v)
    {
      var len := |v| % 0x1_0000;
      var head: bytes := [t / 0x100, t % 0x100, len / 0x100, len % 0x100];
      msg := (msg + head) + v;
      assert msg == old(msg) + Unpadded(t, v);
      Pad();
      PutLength(|msg| - 20);
    }

    method AddIntegrity(pwd: bytes, mac: Mac)
      requires |msg| >= 20
      modifies this
      ensures msg == WithIntegrity(old(msg), pwd, mac)
    {
      PutLength(|msg| - 20 + 24);
      AppendAttr(MESSAGE_INTEGRITY, mac(pwd, msg));
    }

    method AddFingerprint(crc: Crc)
      requires |msg| >= 20
      modifies this
      ensures msg == WithFingerprint(old(msg), crc)
    {
      PutLength(|msg| - 20 + 8);
      AppendAttr(FINGERPRINT, PutBE32(Xor32(crc(msg), FP_CRC_XOR)));
    }
  }

  method BindingSuccess(req: bytes, ip: bytes, port: uint16, pwd: bytes, mac: Mac, crc: Crc)
    returns (resp: Option<bytes>)
    requires |req| >= 20
    ensures To4(ip).None? ==> resp.None?
    ensures To4(ip).Some? ==> resp == Some(Response(req, To4(ip).value, port, pwd, mac, crc))
  {
    var ip4 := To4(ip);
    if ip4.None? { return None; }
    var out := new Builder(PutBE16(BINDING_OK) + [0, 0] + PutBE32(MAGIC_COOKIE) + req[8..20]);
    out.AppendAttr(XOR_MAPPED, XorMapped(ip4.value, port));
    out.AddIntegrity(pwd, mac);
    out.AddFingerprint(crc);
    resp := Some(out.msg);
  }

  /** A binding request by its bytes. */
  lemma RequestBytes(datagram: bytes)
    requires |datagram| >= 20
    ensures BE32(datagram[4..8]) == MAGIC_COOKIE <==> datagram[4..8] == [0x21, 0x12, 0xA4, 0x42]
    ensures BE16(datagram[..2]) == BINDING_REQUEST <==> datagram[..2] == [0x00, 0x01]
  {
    PutUndoesBE32(datagram[4..8]);
    assert PutBE32(MAGIC_COOKIE) == [0x21, 0x12, 0xA4, 0x42];
    assert datagram[..2] == [datagram[0], datagram[1]];
  }

  /** An address of four bytes, or one mapped into sixteen. */
  lemma To4Exactly(ip: bytes, ip4: bytes)
    ensures To4(ip) == Some(ip4) <==>
            |ip4| == 4 && (ip == ip4 || ip == [0, 0, 0, 0, 0, 0, 0, 0, 0, 0, 0xff, 0xff] + ip4)
  {
    var mapped: bytes := [0, 0, 0, 0, 0, 0, 0, 0, 0, 0, 0xff, 0xff];
    assert Zeros(10) == mapped[..10];
    if |ip| == 16 {
      assert ip == ip[..10] + [ip[10], ip[11]] + ip[12..];
    }
    if |ip4| == 4 && ip == mapped + ip4 {
      assert ip[..10] == mapped[..10] && ip[12..] == ip4 && ip[10] == 0xff && ip[11] == 0xff;
    }
  }

  /** One turn of the responder's loop: None when the datagram is dropped. */
  method Answer(datagram: bytes, ip: bytes, port: uint16, pwd: bytes, mac: Mac, crc: Crc)
    returns (resp: Option<bytes>)
    ensures resp.Some? <==>
              && |datagram| >= 20 && datagram[..2] == [0x00, 0x01] && datagram[4..8] == [0x21, 0x12, 0xA4, 0x42]
              && To4(ip).Some?
    ensures resp.Some? ==>
              && |resp.value| >= 20
              && Received(resp.value, pwd, mac, crc) == Some(Address(To4(ip).value, port))
              && resp.value[..2] == [0x01, 0x01] && resp.value[8..20] == datagram[8..20]
  {
    if |datagram| >= 20 {
      RequestBytes(datagram);
    }
    if |datagram| < 20 || BE32(datagram[4..8]) != MAGIC_COOKIE { return None; }
    if BE16(datagram[..2]) != BINDING_REQUEST { return None; }
    resp := BindingSuccess(datagram, ip, port, pwd, mac, crc);
    if resp.Some? {
      ResponseIsUnderstood(datagram, To4(ip).value, port, pwd, mac, crc);
    }
  }
}
