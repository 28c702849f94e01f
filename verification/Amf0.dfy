/**
 * The AMF0 codec (node/rtmp/amf.go; section 2 of the AMF0 specification). Numbers are kept as
 * their 64-bit patterns, strings as bytes, and a decoded object as a map without order.
 */
module Amf0 {
  import opened Bytes

  datatype Value =
    | Number(bits: uint64)
    | Boolean(flag: bool)
    | Text(s: bytes)
    | Nil
    | Object(fields: map<bytes, Value>)
    | Array(items: seq<Value>)

  // ---- the decoder on values: what is read at index i, the index after it, and the flag ----

  datatype At<+T> = At(value: T, i: nat, trunc: bool)

  function U8(b: bytes, i: nat, t: bool): At<byte> {
    if i + 1 > |b| then At(0, i, true) else At(b[i], i + 1, t)
  }

  function U16(b: bytes, i: nat, t: bool): At<uint16> {
    if i + 2 > |b| then At(0, i, true) else At(BE16(b[i..i + 2]), i + 2, t)
  }

  function U32(b: bytes, i: nat, t: bool): At<uint32> {
    if i + 4 > |b| then At(0, i, true) else At(BE32(b[i..i + 4]), i + 4, t)
  }

  function F64(b: bytes, i: nat, t: bool): At<uint64> {
    if i + 8 > |b| then At(0, i, true) else At(BE64(b[i..i + 8]), i + 8, t)
  }

  function Str(b: bytes, i: nat, t: bool): At<bytes> {
    var n := U16(b, i, t);
    if n.trunc || n.i + n.value > |b| then At([], n.i, true) else At(b[n.i..n.i + n.value], n.i + n.value, false)
  }

  /** The key of an object's next member; None at the end marker, or when the input ends. */
  function KeyAt(b: bytes, i: nat): (r: At<Option<bytes>>)
    requires i <= |b|
    ensures i <= r.i <= |b| && (r.value.Some? ==> i < r.i && !r.trunc)
  {
    var n := U16(b, i, false);
    if n.trunc then At(None, n.i, n.trunc)
    else if n.value == 0 then var e := U8(b, n.i, n.trunc); At(None, e.i, e.trunc)
    else if n.i + n.value > |b| then At(None, n.i, true)
    else At(Some(b[n.i..n.i + n.value]), n.i + n.value, false)
  }

  /** One value. An unknown marker reads as Nil; a read past the end sets the flag. */
  function ValueAt(b: bytes, i: nat, t: bool): (r: At<Value>)
    requires i <= |b|
    ensures i <= r.i <= |b| && (t ==> r.i == i && r.trunc) && (!r.trunc ==> i < r.i)
    decreases |b| - i, 0, 0
  {
    if t then At(Nil, i, t) else
    var m := U8(b, i, t);
    if m.value == 0x00 then var x := F64(b, m.i, m.trunc); At(Number(x.value), x.i, x.trunc)
    else if m.value == 0x01 then var x := U8(b, m.i, m.trunc); At(Boolean(x.value != 0), x.i, x.trunc)
    else if m.value == 0x02 then var x := Str(b, m.i, m.trunc); At(Text(x.value), x.i, x.trunc)
    else if m.value in {0x05, 0x06, 0x0D} then At(Nil, m.i, m.trunc)
    else if m.value == 0x08 then
      var n := U32(b, m.i, m.trunc);
      var o := ObjectAt(b, n.i, n.trunc, map[]);
      At(Object(o.value), o.i, o.trunc)
    else if m.value == 0x03 then
      var o := ObjectAt(b, m.i, m.trunc, map[]);
      At(Object(o.value), o.i, o.trunc)
    else if m.value == 0x0A then
      var n := U32(b, m.i, m.trunc);
      if n.trunc || n.value > |b| % 0x1_0000_0000 then At(Nil, n.i, true)
      else var a := ItemsAt(b, n.i, n.trunc, n.value, []); At(Array(a.value), a.i, a.trunc)
    else At(Nil, m.i, m.trunc)
  }

  /** The members of an object up to its end marker, on top of those in `acc`. */
  function ObjectAt(b: bytes, i: nat, t: bool, acc: map<bytes, Value>): (r: At<map<bytes, Value>>)
    requires i <= |b|
    ensures i <= r.i <= |b| && (t ==> r.trunc)
    decreases |b| - i, 1, 0
  {
    if i < |b| && !t then
      var k := KeyAt(b, i);
      if k.value == None then At(acc, k.i, k.trunc)
      else
        var v := ValueAt(b, k.i, k.trunc);
        ObjectAt(b, v.i, v.trunc, acc[k.value.value := v.value])
    else At(acc, i, t)
  }

  /** `n` more items of a strict array, fewer when the input ends. */
  function ItemsAt(b: bytes, i: nat, t: bool, n: nat, acc: seq<Value>): (r: At<seq<Value>>)
    requires i <= |b|
    ensures i <= r.i <= |b| && (t ==> r.trunc)
    decreases |b| - i, 1, n
  {
    if n > 0 && !t then
      var v := ValueAt(b, i, t);
      ItemsAt(b, v.i, v.trunc, n - 1, acc + [v.value])
    else At(acc, i, t)
  }

  function ValuesAt(b: bytes, i: nat, t: bool, acc: seq<Value>): (r: At<seq<Value>>)
    requires i <= |b|
    ensures i <= r.i <= |b| && (!r.trunc ==> r.i == |b|)
    decreases |b| - i, if t then 0 else 1
  {
    if i < |b| && !t then
      var v := ValueAt(b, i, t);
      ValuesAt(b, v.i, v.trunc, acc + [v.value])
    else At(acc, i, t)
  }

  function DecodeAll(b: bytes): seq<Value> {
    ValuesAt(b, 0, false, []).value
  }

  // ---- the decoder itself ----

  class AmfReader {
    const b: bytes
    var i: nat
    var trunc: bool

    constructor (b: bytes)
      ensures this.b == b && i == 0 && !trunc
    {
      this.b, i, trunc := b, 0, false;
    }

    method ReadU8() returns (v: byte)
      modifies this
      ensures At(v, i, trunc) == U8(b, old(i), old(trunc))
    {
      if i + 1 > |b| { trunc := true; return 0; }
      v, i := b[i], i + 1;
    }

    method ReadU16() returns (v: uint16)
      modifies this
      ensures At(v, i, trunc) == U16(b, old(i), old(trunc))
    {
      if i + 2 > |b| { trunc := true; return 0; }
      v, i := BE16(b[i..i + 2]), i + 2;
    }

    method ReadU32() returns (v: uint32)
      modifies this
      ensures At(v, i, trunc) == U32(b, old(i), old(trunc))
    {
      if i + 4 > |b| { trunc := true; return 0; }
      v, i := BE32(b[i..i + 4]), i + 4;
    }

    method ReadF64() returns (v: uint64)
      modifies this
      ensures At(v, i, trunc) == F64(b, old(i), old(trunc))
    {
      if i + 8 > |b| { trunc := true; return 0; }
      v, i := BE64(b[i..i + 8]), i + 8;
    }

    method ReadStr() returns (s: bytes)
      modifies this
      ensures At(s, i, trunc) == Str(b, old(i), old(trunc))
    {
      var n := ReadU16();
      if trunc || i + n > |b| {
        trunc := true;
        return [];
      }
      s := b[i..i + n];
      i := i + n;
    }

    method ReadValue() returns (v: Value)
      requires i <= |b|
      modifies this
      ensures i <= |b| && At(v, i, trunc) == ValueAt(b, old(i), old(trunc))
      decreases |b| - i, 0
    {
      if trunc { return Nil; }
      var m := ReadU8();
      match m {
        case 0x00 => var x := ReadF64(); v := Number(x);
        case 0x01 => var x := ReadU8(); v := Boolean(x != 0);
        case 0x02 => var s := ReadStr(); v := Text(s);
        case 0x08 =>
          var _ := ReadU32();
          var o := ReadObject();
          v := Object(o);
        case 0x03 =>
          var o := ReadObject();
          v := Object(o);
        case 0x0A =>
          var n := ReadU32();
          if trunc || n > |b| % 0x1_0000_0000 {
            trunc := true;
            return Nil;
          }
          var items := ReadItems(n);
          v := Array(items);
        case _ => v := Nil;
      }
    }

    method ReadItems(n: nat) returns (items: seq<Value>)
      requires i <= |b| && !trunc
      modifies this
      ensures i <= |b| && At(items, i, trunc) == ItemsAt(b, old(i), old(trunc), n, [])
      decreases |b| - i, 1
    {
      items := [];
      var k := 0;
      while k < n && !trunc
        invariant k <= n && old(i) <= i <= |b|
        invariant ItemsAt(b, i, trunc, n - k, items) == ItemsAt(b, old(i), old(trunc), n, [])
      {
        var v := ReadValue();
        items := items + [v];
        k := k + 1;
      }
    }

    method ReadKey() returns (key: Option<bytes>)
      requires i <= |b| && !trunc
      modifies this
      ensures At(key, i, trunc) == KeyAt(b, old(i))
    {
      var klen := ReadU16();
      if trunc { return None; }
      if klen == 0 {
        var _ := ReadU8();
        return None;
      }
      if i + klen > |b| {
        trunc := true;
        return None;
      }
      key := Some(b[i..i + klen]);
      i := i + klen;
    }

    method ReadObject() returns (o: map<bytes, Value>)
      requires i <= |b|
      modifies this
      ensures i <= |b| && At(o, i, trunc) == ObjectAt(b, old(i), old(trunc), map[])
      decreases |b| - i, 1
    {
      o := map[];
      while i < |b| && !trunc
        invariant old(i) <= i <= |b|
        invariant ObjectAt(b, i, trunc, o) == ObjectAt(b, old(i), old(trunc), map[])
        decreases |b| - i, if trunc then 0 else 1
      {
        var key := ReadKey();
        if key.None? { return; }
        var v := ReadValue();
        o := o[key.value := v];
      }
    }
  }

  method AmfDecodeAll(b: bytes) returns (out: seq<Value>)
    ensures out == DecodeAll(b)
  {
    var r := new AmfReader(b);
    out := [];
    while r.i < |r.b| && !r.trunc
      invariant r.i <= |r.b| && r.b == b && fresh(r)
      invariant ValuesAt(b, r.i, r.trunc, out) == ValuesAt(b, 0, false, [])
      decreases |b| - r.i, if r.trunc then 0 else 1
    {
      var v := r.ReadValue();
      out := out + [v];
    }
  }

  // ---- the encoder ----

  function EncNumber(bits: uint64): bytes { [0x00] + PutBE64(bits) }

  function EncString(s: bytes): bytes { [0x02] + (PutBE16(|s| % 0x1_0000) + s) }

  function EncNull(): bytes { [0x05] }

  /** An object member in order: its key and the bytes of its value. */
  datatype Prop = Prop(k: bytes, v: bytes)

  function EncProp(p: Prop): bytes { PutBE16(|p.k| % 0x1_0000) + p.k + p.v }

  function EncProps(props: seq<Prop>): bytes {
    if props == [] then [] else EncProp(props[0]) + EncProps(props[1..])
  }

  const OBJECT_END: bytes := [0x00, 0x00, 0x09]

  function EncObject(props: seq<Prop>): bytes { [0x03] + (EncProps(props) + OBJECT_END) }

  lemma {:induction false} EncPropsSnoc(props: seq<Prop>, p: Prop)
    ensures EncProps(props + [p]) == EncProps(props) + EncProp(p)
  {
    if props == [] {
      assert props + [p] == [p];
    } else {
      assert (props + [p])[1..] == props[1..] + [p];
      EncPropsSnoc(props[1..], p);
    }
  }

  method EncodeObject(props: seq<Prop>) returns (out: bytes)
    ensures out == EncObject(props)
  {
    out := [0x03];
    for n := 0 to |props|
      invariant out == [0x03] + EncProps(props[..n])
    {
      var p := props[n];
      assert props[..n + 1] == props[..n] + [p];
      EncPropsSnoc(props[..n], p);
      ghost var before := out;
      out := out + PutBE16(|p.k| % 0x1_0000);
      out := out + p.k;
      out := out + p.v;
      assert out == before + EncProp(p);
    }
    assert props[..|props|] == props;
    out := out + [0x00, 0x00, 0x09];
  }

  // ---- command payloads ----

  // The 64-bit patterns of the numbers 0, 1, 2 and 127.
  const ZERO: uint64 := 0
  const ONE: uint64 := 0x3FF0_0000_0000_0000
  const TWO: uint64 := 0x4000_0000_0000_0000
  const ONE_TWENTY_SEVEN: uint64 := 0x405F_C000_0000_0000

  function EncServer(): bytes {
    EncObject([
      Prop(Ascii("fmsVer"), EncString(Ascii("FMS/3,5,3,888"))),
      Prop(Ascii("capabilities"), EncNumber(ONE_TWENTY_SEVEN)),
      Prop(Ascii("mode"), EncNumber(ONE))])
  }

  function EncSuccess(): bytes {
    EncObject([
      Prop(Ascii("level"), EncString(Ascii("status"))),
      Prop(Ascii("code"), EncString(Ascii("NetConnection.Connect.Success"))),
      Prop(Ascii("description"), EncString(Ascii("Connection succeeded."))),
      Prop(Ascii("objectEncoding"), EncNumber(ZERO))])
  }

  function CmdConnectOK(txn: uint64): bytes {
    EncString(Ascii("_result")) + EncNumber(txn) + EncServer() + EncSuccess()
  }

  function EncInfo(level: string, code: bytes, desc: bytes): bytes {
    EncObject([
      Prop(Ascii("level"), EncString(Ascii(level))),
      Prop(Ascii("code"), EncString(code)),
      Prop(Ascii("description"), EncString(desc))])
  }

  function CmdError(txn: uint64, desc: bytes): bytes {
    EncString(Ascii("_error")) + EncNumber(txn) + EncNull()
    + EncInfo("error", Ascii("NetConnection.Connect.Rejected"), desc)
  }

  function CmdCreateStreamResult(txn: uint64, sid: uint64): bytes {
    EncString(Ascii("_result")) + EncNumber(txn) + EncNull() + EncNumber(sid)
  }

  function CmdResultEmpty(txn: uint64): bytes {
    EncString(Ascii("_result")) + EncNumber(txn) + EncNull()
  }

  function CmdOnStatusPublishStart(): bytes {
    EncString(Ascii("onStatus")) + EncNumber(ZERO) + EncNull()
    + EncInfo("status", Ascii("NetStream.Publish.Start"), Ascii("Started publishing stream."))
  }

  function CmdOnStatusError(code: bytes, desc: bytes): bytes {
    EncString(Ascii("onStatus")) + EncNumber(ZERO) + EncNull() + EncInfo("error", code, desc)
  }

  function CmdConnect(app: bytes, tcUrl: bytes): bytes {
    EncString(Ascii("connect")) + EncNumber(ONE)
    + EncObject([
        Prop(Ascii("app"), EncString(app)),
        Prop(Ascii("type"), EncString(Ascii("nonprivate"))),
        Prop(Ascii("flashVer"), EncString(Ascii("FMLE/3.0 (compatible; media-node)"))),
        Prop(Ascii("tcUrl"), EncString(tcUrl))])
    + EncNull()
  }

  function CmdCreateStream(): bytes {
    EncString(Ascii("createStream")) + EncNumber(TWO) + EncNull()
  }

  function CmdPublish(name: bytes): bytes {
    EncString(Ascii("publish")) + EncNumber(ZERO) + EncNull() + EncString(name) + EncString(Ascii("live"))
  }
}
