/** The bytes of a status error, and what is decoded when the three that end its object are damaged. */
module StatusBytes {
  import opened Bytes
  import opened Amf0
  import opened AmfRoundTrip
  import opened AmfCommands

  /** The information object up to its description, and the whole command up to there. */
  function InfoHead(code: bytes, size: uint16): bytes {
    [0x03] + (EncProp(Prop(Ascii("level"), EncString(Ascii("error")))) + EncProp(Prop(Ascii("code"), EncString(code)))
              + ((PutBE16(11) + Ascii("description")) + ([0x02] + PutBE16(size))))
  }

  function CommandHead(): bytes {
    EncString(Ascii("onStatus")) + EncNumber(ZERO) + EncNull()
  }

  function StatusHead(code: bytes, size: uint16): bytes {
    CommandHead() + InfoHead(code, size)
  }

  function InfoMembers(code: bytes, desc: bytes): seq<Member> {
    [Member(Ascii("level"), Str8(Ascii("error"))), Member(Ascii("code"), Str8(code)),
     Member(Ascii("description"), Str8(desc))]
  }

  lemma Props3(a: Prop, b: Prop, c: Prop)
    ensures EncProps([a, b, c]) == EncProp(a) + EncProp(b) + EncProp(c)
  {
    assert [a, b, c][1..] == [b, c] && [b, c][1..] == [c] && [c][1..] == [];
    assert EncProps([b, c]) == EncProp(b) + EncProps([c]) && EncProps([c]) == EncProp(c) + [];
  }

  /** All members of the information object, and nothing else. */
  lemma InfoHeadIsMembers(code: bytes, desc: bytes)
    requires |code| < 0x1_0000 && |desc| < 0x1_0000
    ensures InfoHead(code, |desc|) + desc == [0x03] + EncProps(Props(InfoMembers(code, desc)))
  {
    var ms := InfoMembers(code, desc);
    var a, b, c := Prop(Ascii("level"), EncString(Ascii("error"))), Prop(Ascii("code"), EncString(code)),
                   Prop(Ascii("description"), EncString(desc));
    Members3(ms[0], ms[1], ms[2], map[]);
    Props3(a, b, c);
    assert EncProp(c) == (PutBE16(11) + Ascii("description")) + ([0x02] + PutBE16(|desc|)) + desc;
  }

  lemma InfoIsMembers(code: bytes, desc: bytes)
    requires |code| < 0x1_0000 && |desc| < 0x1_0000
    ensures EncInfo("error", code, desc) == [0x03] + (EncProps(Props(InfoMembers(code, desc))) + OBJECT_END)
  {
    var ms := InfoMembers(code, desc);
    Members3(ms[0], ms[1], ms[2], map[]);
  }

  lemma Regroup(a: bytes, b: bytes, c: bytes, d: bytes, e: bytes, g: bytes)
    requires b + c == d + e
    ensures ((a + b) + c) + g == a + (d + (e + g))
  {
    Associative4(a, b, c, g);
    Associative4(a, d, e, g);
    assert a + (b + c) == a + b + c && a + (d + e) == a + d + e;
  }

  /** A status with any three bytes at its end, taken apart. */
  lemma StatusParts(code: bytes, desc: bytes, g: bytes)
    requires |code| < 0x1_0000 && |desc| < 0x1_0000
    ensures StatusHead(code, |desc|) + desc + g ==
            CommandHead() + ([0x03] + (EncProps(Props(InfoMembers(code, desc))) + g))
  {
    InfoHeadIsMembers(code, desc);
    Regroup(CommandHead(), InfoHead(code, |desc|), desc, [0x03], EncProps(Props(InfoMembers(code, desc))), g);
  }

  lemma StatusShape(code: bytes, desc: bytes)
    requires |code| < 0x1_0000 && |desc| < 0x1_0000
    ensures CmdOnStatusError(code, desc) == StatusHead(code, |desc|) + desc + OBJECT_END
  {
    StatusParts(code, desc, OBJECT_END);
    InfoIsMembers(code, desc);
  }

  lemma HeadLength(code: bytes, size: uint16)
    ensures |StatusHead(code, size)| == 62 + |code|
  {
  }

  ghost predicate Low(u: bytes) {
    forall x :: x in u ==> x < 0x80
  }

  predicate Plain(s: string) {
    forall i :: 0 <= i < |s| ==> s[i] < 128 as char
  }

  lemma LowAscii(s: string)
    requires Plain(s)
    ensures Low(Ascii(s))
  {
  }

  lemma LowString(s: bytes)
    requires Low(s) && |s| < 0x80
    ensures Low(EncString(s))
  {
  }

  lemma LowProp(k: bytes, v: bytes)
    requires Low(k) && Low(v) && |k| < 0x80
    ensures Low(EncProp(Prop(k, v)))
  {
  }

  lemma LowSum(a: bytes, b: bytes)
    requires Low(a) && Low(b)
    ensures Low(a + b)
  {
  }

  lemma LowCommandHead()
    ensures Low(CommandHead())
  {
    LowAscii("onStatus");
    LowString(Ascii("onStatus"));
    assert Low(EncNumber(ZERO)) && Low(EncNull());
    LowSum(EncString(Ascii("onStatus")), EncNumber(ZERO));
    LowSum(EncString(Ascii("onStatus")) + EncNumber(ZERO), EncNull());
  }

  lemma LowInfoProps()
    ensures Low(EncProp(Prop(Ascii("level"), EncString(Ascii("error")))))
    ensures Low(EncProp(Prop(Ascii("code"), EncString([1]))))
    ensures Low(PutBE16(11) + Ascii("description"))
  {
    LowAscii("level");
    LowAscii("error");
    LowAscii("code");
    LowAscii("description");
    LowString(Ascii("error"));
    LowString([1]);
    LowProp(Ascii("level"), EncString(Ascii("error")));
    LowProp(Ascii("code"), EncString([1]));
  }

  /** With a code of the one byte 1, only the two bytes of the description's length may be high. */
  lemma HighOnlyInLength(size: uint16, c: byte)
    requires c >= 0x80 && c !in PutBE16(size)
    ensures c !in StatusHead([1], size)
  {
    LowCommandHead();
    LowInfoProps();
  }

  // ---- a damaged end ----

  /** Bytes that are no key of an object's member. */
  predicate NoKey(g: bytes) {
    |g| == 3 && (BE16(g[..2]) == 0 || BE16(g[..2]) > 1)
  }

  lemma NoKeyRead(b: bytes, i: nat, g: bytes)
    requires NoKey(g) && Has(b, i, g) && i + 3 == |b|
    ensures KeyAt(b, i).value == None && (KeyAt(b, i).trunc || KeyAt(b, i).i == |b|)
  {
    assert b[i..i + 2] == b[i..i + 3][..2] == g[..2];
  }

  lemma DamagedObjectRead(b: bytes, i: nat, ms: seq<Member>, g: bytes)
    requires AllFit(ms, |b|) && Has(b, i, [0x03] + Body(ms, g)) && NoKey(g) && i + 1 + |Body(ms, g)| == |b|
    ensures i < |b| && var v := ValueAt(b, i, false); v.value == Object(Fields(ms, map[])) && (v.trunc || v.i == |b|)
  {
    BodyEnds(ms, g);
    var end := |b| - 3;
    ReadsMarker(b, i, 0x03, Body(ms, g));
    ReadsUpTo(b, i + 1, ms, g, map[], end);
    NoKeyRead(b, end, g);
    ObjectEnds(b, end, Fields(ms, map[]));
    ObjectValue(b, i, ObjectAt(b, i + 1, false, map[]));
  }

  lemma LastValueRead(b: bytes, i: nat, acc: seq<Value>)
    requires i < |b| && (ValueAt(b, i, false).trunc || ValueAt(b, i, false).i == |b|)
    ensures ValuesAt(b, i, false, acc).value == acc + [ValueAt(b, i, false).value]
  {
    var v := ValueAt(b, i, false);
    ValuesStep(b, i, acc, v);
  }

  lemma InfoMembersMean(code: bytes, desc: bytes, len: nat)
    requires |code| < 0x1_0000 && |desc| < 0x1_0000
    ensures AllFit(InfoMembers(code, desc), len)
    ensures Fields(InfoMembers(code, desc), map[]) == InfoFields("error", code, desc)
  {
    var ms := InfoMembers(code, desc);
    Members3(ms[0], ms[1], ms[2], map[]);
    Fit3(ms[0], ms[1], ms[2], len);
  }

  const HEAD := [Text(Ascii("onStatus")), Number(ZERO), Nil]

  lemma CommandHeadRead(b: bytes, rest: bytes)
    requires b == CommandHead() + rest
    ensures ValuesAt(b, 0, false, []) == ValuesAt(b, |CommandHead()|, false, HEAD)
    ensures Has(b, |CommandHead()|, rest)
  {
    var ts := [Str8(Ascii("onStatus")), Num(ZERO), Null];
    Trees3(ts[0], ts[1], ts[2]);
    assert EncodeAll(ts) == CommandHead() && b[0..0 + |b|] == b && [] + HEAD == HEAD;
    HasBoth(b, 0, CommandHead(), rest);
    EachFits(ts, |b|);
    EncodedIsLaid(b, 0, ts, |CommandHead()|);
    LaidIsRead(b, 0, ts, [], |CommandHead()|);
  }

  /** What is decoded of a command whose object ends in three bytes that are no key. */
  lemma DamagedRead(b: bytes, ms: seq<Member>, g: bytes)
    requires AllFit(ms, |b|) && NoKey(g) && b == CommandHead() + ([0x03] + (EncProps(Props(ms)) + g))
    ensures DecodeAll(b) == HEAD + [Object(Fields(ms, map[]))]
  {
    var i := |CommandHead()|;
    PropsAreBody(ms, g);
    CommandHeadRead(b, [0x03] + Body(ms, g));
    DamagedObjectRead(b, i, ms, g);
    LastValueRead(b, i, HEAD);
  }

  /** With three bytes at the end that are no key, a status says what it said. */
  lemma DamagedEndReadsTheSame(code: bytes, desc: bytes, g: bytes)
    requires |code| < 0x1_0000 && |desc| < 0x1_0000 && NoKey(g)
    ensures DecodeAll(StatusHead(code, |desc|) + desc + g) == DecodeAll(CmdOnStatusError(code, desc))
  {
    var b := StatusHead(code, |desc|) + desc + g;
    StatusParts(code, desc, g);
    InfoMembersMean(code, desc, |b|);
    DamagedRead(b, InfoMembers(code, desc), g);
    OnStatusErrorDecodes(code, desc);
  }
}
