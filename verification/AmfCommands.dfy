/** Every command payload the gateway builds decodes to the command it is meant to be. */
module AmfCommands {
  import opened Bytes
  import opened Amf0
  import opened AmfRoundTrip

  // ---- short lists of trees and members, as the builders append them ----

  lemma {:induction false} EncodeAllSnoc(ts: seq<Tree>, t: Tree)
    ensures EncodeAll(ts + [t]) == EncodeAll(ts) + Encode(t)
    ensures Meanings(ts + [t]) == Meanings(ts) + [Meaning(t)]
  {
    if ts == [] {
      assert [] + [t] == [t] && EncodeAll([t]) == Encode(t) + [] == [] + Encode(t);
    } else {
      assert (ts + [t])[1..] == ts[1..] + [t];
      EncodeAllSnoc(ts[1..], t);
    }
  }

  lemma Trees3(a: Tree, b: Tree, c: Tree)
    ensures EncodeAll([a, b, c]) == Encode(a) + Encode(b) + Encode(c)
    ensures Meanings([a, b, c]) == [Meaning(a), Meaning(b), Meaning(c)]
  {
    EncodeAllSnoc([], a);
    EncodeAllSnoc([a], b);
    EncodeAllSnoc([a, b], c);
    assert [] + [a] == [a] && [a] + [b] == [a, b] && [a, b] + [c] == [a, b, c];
    assert [] + Encode(a) == Encode(a);
  }

  lemma Trees4(a: Tree, b: Tree, c: Tree, d: Tree)
    ensures EncodeAll([a, b, c, d]) == Encode(a) + Encode(b) + Encode(c) + Encode(d)
    ensures Meanings([a, b, c, d]) == [Meaning(a), Meaning(b), Meaning(c), Meaning(d)]
  {
    Trees3(a, b, c);
    EncodeAllSnoc([a, b, c], d);
    assert [a, b, c] + [d] == [a, b, c, d];
  }

  lemma DecodeFour(a: Tree, b: Tree, c: Tree, d: Tree)
    requires forall t, len: nat | t in [a, b, c, d] :: Fits(t, len)
    ensures DecodeAll(Encode(a) + Encode(b) + Encode(c) + Encode(d)) ==
            [Meaning(a), Meaning(b), Meaning(c), Meaning(d)]
  {
    Trees4(a, b, c, d);
    DecodeUndoesEncode([a, b, c, d]);
  }

  lemma LastMember(m: Member, acc: map<bytes, Value>)
    ensures Props([m]) == [Prop(m.key, Encode(m.tree))] && Fields([m], acc) == acc[m.key := Meaning(m.tree)]
  {
    assert [m][1..] == [];
  }

  lemma FirstMember(m: Member, ms: seq<Member>, acc: map<bytes, Value>)
    ensures Props([m] + ms) == [Prop(m.key, Encode(m.tree))] + Props(ms)
    ensures Fields([m] + ms, acc) == Fields(ms, acc[m.key := Meaning(m.tree)])
  {
    assert ([m] + ms)[1..] == ms;
  }

  lemma Members3(a: Member, b: Member, c: Member, acc: map<bytes, Value>)
    ensures Props([a, b, c]) ==
            [Prop(a.key, Encode(a.tree)), Prop(b.key, Encode(b.tree)), Prop(c.key, Encode(c.tree))]
    ensures Fields([a, b, c], acc) ==
            acc[a.key := Meaning(a.tree)][b.key := Meaning(b.tree)][c.key := Meaning(c.tree)]
  {
    var acc1 := acc[a.key := Meaning(a.tree)];
    assert [a, b, c] == [a] + [b, c] && [b, c] == [b] + [c];
    FirstMember(a, [b, c], acc);
    FirstMember(b, [c], acc1);
    LastMember(c, acc1[b.key := Meaning(b.tree)]);
  }

  lemma Members4(a: Member, b: Member, c: Member, d: Member)
    ensures Props([a, b, c, d]) ==
            [Prop(a.key, Encode(a.tree)), Prop(b.key, Encode(b.tree)), Prop(c.key, Encode(c.tree)), Prop(d.key, Encode(d.tree))]
    ensures Fields([a, b, c, d], map[]) ==
            map[a.key := Meaning(a.tree)][b.key := Meaning(b.tree)][c.key := Meaning(c.tree)][d.key := Meaning(d.tree)]
  {
    assert [a, b, c, d] == [a] + [b, c, d];
    FirstMember(a, [b, c, d], map[]);
    Members3(b, c, d, map[][a.key := Meaning(a.tree)]);
  }

  lemma Fit3(a: Member, b: Member, c: Member, len: nat)
    requires forall m | m in [a, b, c] :: 1 <= |m.key| < 0x1_0000 && Fits(m.tree, len)
    ensures AllFit([a, b, c], len)
  {
    assert a in [a, b, c] && b in [a, b, c] && c in [a, b, c];
    assert [a, b, c][1..] == [b, c] && [b, c][1..] == [c] && [c][1..] == [];
    assert AllFit([c], len) && AllFit([b, c], len);
  }

  lemma Fit4(a: Member, b: Member, c: Member, d: Member, len: nat)
    requires forall m | m in [a, b, c, d] :: 1 <= |m.key| < 0x1_0000 && Fits(m.tree, len)
    ensures AllFit([a, b, c, d], len)
  {
    assert a in [a, b, c, d] && b in [a, b, c, d] && c in [a, b, c, d] && d in [a, b, c, d];
    Fit3(b, c, d, len);
    assert [a, b, c, d][1..] == [b, c, d];
  }

  // ---- the information object of a status or an error ----

  function InfoFields(level: string, code: bytes, desc: bytes): map<bytes, Value> {
    map[Ascii("level") := Text(Ascii(level)), Ascii("code") := Text(code), Ascii("description") := Text(desc)]
  }

  function InfoTree(level: string, code: bytes, desc: bytes): Tree {
    Obj([Member(Ascii("level"), Str8(Ascii(level))), Member(Ascii("code"), Str8(code)),
         Member(Ascii("description"), Str8(desc))])
  }

  lemma InfoEncodes(level: string, code: bytes, desc: bytes)
    requires |level| < 0x1_0000 && |code| < 0x1_0000 && |desc| < 0x1_0000
    ensures Encode(InfoTree(level, code, desc)) == EncInfo(level, code, desc)
    ensures forall len: nat :: Fits(InfoTree(level, code, desc), len)
    ensures Meaning(InfoTree(level, code, desc)) == Object(InfoFields(level, code, desc))
  {
    var a, b, c := Member(Ascii("level"), Str8(Ascii(level))), Member(Ascii("code"), Str8(code)),
                   Member(Ascii("description"), Str8(desc));
    Members3(a, b, c, map[]);
    forall len: nat ensures Fits(InfoTree(level, code, desc), len) { Fit3(a, b, c, len); }
  }

  lemma StatusDecodes(name: string, txn: uint64, level: string, code: bytes, desc: bytes)
    requires |name| < 0x1_0000 && |level| < 0x1_0000 && |code| < 0x1_0000 && |desc| < 0x1_0000
    ensures DecodeAll(EncString(Ascii(name)) + EncNumber(txn) + EncNull() + EncInfo(level, code, desc)) ==
            [Text(Ascii(name)), Number(txn), Nil, Object(InfoFields(level, code, desc))]
  {
    var a, b, c, d := Str8(Ascii(name)), Num(txn), Null, InfoTree(level, code, desc);
    InfoEncodes(level, code, desc);
    DecodeFour(a, b, c, d);
  }

  lemma OnStatusErrorDecodes(code: bytes, desc: bytes)
    requires |code| < 0x1_0000 && |desc| < 0x1_0000
    ensures DecodeAll(CmdOnStatusError(code, desc)) ==
            [Text(Ascii("onStatus")), Number(ZERO), Nil, Object(InfoFields("error", code, desc))]
  {
    StatusDecodes("onStatus", ZERO, "error", code, desc);
  }

  lemma OnStatusPublishStartDecodes()
    ensures DecodeAll(CmdOnStatusPublishStart()) ==
            [Text(Ascii("onStatus")), Number(ZERO), Nil,
             Object(InfoFields("status", Ascii("NetStream.Publish.Start"), Ascii("Started publishing stream.")))]
  {
    StatusDecodes("onStatus", ZERO, "status", Ascii("NetStream.Publish.Start"), Ascii("Started publishing stream."));
  }

  lemma ErrorDecodes(txn: uint64, desc: bytes)
    requires |desc| < 0x1_0000
    ensures DecodeAll(CmdError(txn, desc)) ==
            [Text(Ascii("_error")), Number(txn), Nil,
             Object(InfoFields("error", Ascii("NetConnection.Connect.Rejected"), desc))]
  {
    StatusDecodes("_error", txn, "error", Ascii("NetConnection.Connect.Rejected"), desc);
  }

  // ---- the other commands ----

  lemma CreateStreamResultDecodes(txn: uint64, sid: uint64)
    ensures DecodeAll(CmdCreateStreamResult(txn, sid)) == [Text(Ascii("_result")), Number(txn), Nil, Number(sid)]
  {
    var a, b, c, d := Str8(Ascii("_result")), Num(txn), Null, Num(sid);
    DecodeFour(a, b, c, d);
  }

  lemma ResultEmptyDecodes(txn: uint64)
    ensures DecodeAll(CmdResultEmpty(txn)) == [Text(Ascii("_result")), Number(txn), Nil]
  {
    var a, b, c := Str8(Ascii("_result")), Num(txn), Null;
    Trees3(a, b, c);
    DecodeUndoesEncode([a, b, c]);
  }

  lemma CreateStreamDecodes()
    ensures DecodeAll(CmdCreateStream()) == [Text(Ascii("createStream")), Number(TWO), Nil]
  {
    var a, b, c := Str8(Ascii("createStream")), Num(TWO), Null;
    Trees3(a, b, c);
    DecodeUndoesEncode([a, b, c]);
  }

  lemma PublishDecodes(name: bytes)
    requires |name| < 0x1_0000
    ensures DecodeAll(CmdPublish(name)) ==
            [Text(Ascii("publish")), Number(ZERO), Nil, Text(name), Text(Ascii("live"))]
  {
    var a, b, c, d, e := Str8(Ascii("publish")), Num(ZERO), Null, Str8(name), Str8(Ascii("live"));
    Trees4(a, b, c, d);
    EncodeAllSnoc([a, b, c, d], e);
    DecodeUndoesEncode([a, b, c, d] + [e]);
  }

  lemma ConnectDecodes(app: bytes, tcUrl: bytes)
    requires |app| < 0x1_0000 && |tcUrl| < 0x1_0000
    ensures DecodeAll(CmdConnect(app, tcUrl)) ==
            [Text(Ascii("connect")), Number(ONE),
             Object(map[Ascii("app") := Text(app), Ascii("type") := Text(Ascii("nonprivate")),
                        Ascii("flashVer") := Text(Ascii("FMLE/3.0 (compatible; media-node)")),
                        Ascii("tcUrl") := Text(tcUrl)]),
             Nil]
  {
    var k, l, m, n := Member(Ascii("app"), Str8(app)), Member(Ascii("type"), Str8(Ascii("nonprivate"))),
                      Member(Ascii("flashVer"), Str8(Ascii("FMLE/3.0 (compatible; media-node)"))),
                      Member(Ascii("tcUrl"), Str8(tcUrl));
    Members4(k, l, m, n);
    var a, b, c, d := Str8(Ascii("connect")), Num(ONE), Obj([k, l, m, n]), Null;
    forall len: nat ensures Fits(c, len) { Fit4(k, l, m, n, len); }
    DecodeFour(a, b, c, d);
  }

  function ServerFields(): map<bytes, Value> {
    map[Ascii("fmsVer") := Text(Ascii("FMS/3,5,3,888")), Ascii("capabilities") := Number(ONE_TWENTY_SEVEN),
        Ascii("mode") := Number(ONE)]
  }

  function ServerTree(): Tree {
    Obj([Member(Ascii("fmsVer"), Str8(Ascii("FMS/3,5,3,888"))), Member(Ascii("capabilities"), Num(ONE_TWENTY_SEVEN)),
         Member(Ascii("mode"), Num(ONE))])
  }

  lemma ServerEncodes()
    ensures Encode(ServerTree()) == EncServer() && forall len: nat :: Fits(ServerTree(), len)
    ensures Meaning(ServerTree()) == Object(ServerFields())
  {
    var k, l, m := Member(Ascii("fmsVer"), Str8(Ascii("FMS/3,5,3,888"))),
                   Member(Ascii("capabilities"), Num(ONE_TWENTY_SEVEN)), Member(Ascii("mode"), Num(ONE));
    Members3(k, l, m, map[]);
    forall len: nat ensures Fits(ServerTree(), len) { Fit3(k, l, m, len); }
  }

  function SuccessFields(): map<bytes, Value> {
    map[Ascii("level") := Text(Ascii("status")), Ascii("code") := Text(Ascii("NetConnection.Connect.Success")),
        Ascii("description") := Text(Ascii("Connection succeeded.")), Ascii("objectEncoding") := Number(ZERO)]
  }

  function SuccessTree(): Tree {
    Obj([Member(Ascii("level"), Str8(Ascii("status"))),
         Member(Ascii("code"), Str8(Ascii("NetConnection.Connect.Success"))),
         Member(Ascii("description"), Str8(Ascii("Connection succeeded."))),
         Member(Ascii("objectEncoding"), Num(ZERO))])
  }

  lemma SuccessEncodes()
    ensures Encode(SuccessTree()) == EncSuccess() && forall len: nat :: Fits(SuccessTree(), len)
    ensures Meaning(SuccessTree()) == Object(SuccessFields())
  {
    var n, o, p, q := Member(Ascii("level"), Str8(Ascii("status"))),
                      Member(Ascii("code"), Str8(Ascii("NetConnection.Connect.Success"))),
                      Member(Ascii("description"), Str8(Ascii("Connection succeeded."))),
                      Member(Ascii("objectEncoding"), Num(ZERO));
    Members4(n, o, p, q);
    forall len: nat ensures Fits(SuccessTree(), len) { Fit4(n, o, p, q, len); }
  }

  lemma ResultDecodes(txn: uint64, t: Tree, u: Tree)
    requires forall len: nat :: Fits(t, len) && Fits(u, len)
    ensures DecodeAll(EncString(Ascii("_result")) + EncNumber(txn) + Encode(t) + Encode(u)) ==
            [Text(Ascii("_result")), Number(txn), Meaning(t), Meaning(u)]
  {
    DecodeFour(Str8(Ascii("_result")), Num(txn), t, u);
  }

  lemma ConnectOkDecodes(txn: uint64)
    ensures DecodeAll(CmdConnectOK(txn)) ==
            [Text(Ascii("_result")), Number(txn), Object(ServerFields()), Object(SuccessFields())]
  {
    ServerEncodes();
    SuccessEncodes();
    ResultDecodes(txn, ServerTree(), SuccessTree());
  }
}
