/** Query parsing and name rewriting of the gateway (node/rtmp/server.go). Text is a sequence of runes. */
module StreamNames {
  import opened Bytes

  // ---- finding and splitting ----

  /** Where c first stands in s. */
  function Index(s: string, c: char): (i: Option<nat>)
    ensures i.Some? ==> i.value < |s| && s[i.value] == c && c !in s[..i.value]
    ensures i.None? ==> c !in s
  {
    if s == "" then None
    else if s[0] == c then Some(0)
    else
      var i := Index(s[1..], c);
      assert s == [s[0]] + s[1..];
      if i.Some? then
        assert s[..i.value + 1] == [s[0]] + s[1..][..i.value];
        Some(i.value + 1)
      else None
  }

  /** The pieces between the separators; always at least one. */
  function Split(s: string, c: char): (pieces: seq<string>)
    ensures |pieces| >= 1
    decreases |s|
  {
    var i := Index(s, c);
    if i.None? then [s] else [s[..i.value]] + Split(s[i.value + 1..], c)
  }

  function Join(pieces: seq<string>, c: char): string {
    if pieces == [] then ""
    else if |pieces| == 1 then pieces[0]
    else pieces[0] + [c] + Join(pieces[1..], c)
  }

  lemma IndexBehind(a: string, c: char, b: string)
    requires c !in a
    ensures Index(a + [c] + b, c) == Some(|a|)
  {
    var s := a + [c] + b;
    assert s[|a|] == c && s[..|a|] == a;
    assert forall i | |a| < i <= |s| :: s[..i][|a|] == c;
  }

  lemma SplitBehind(a: string, c: char, b: string)
    requires c !in a
    ensures Split(a + [c] + b, c) == [a] + Split(b, c)
  {
    IndexBehind(a, c, b);
    assert (a + [c] + b)[..|a|] == a && (a + [c] + b)[|a| + 1..] == b;
  }

  lemma {:induction false} SplitUndoesJoin(pieces: seq<string>, c: char)
    requires pieces != [] && forall p | p in pieces :: c !in p
    ensures Split(Join(pieces, c), c) == pieces
  {
    if |pieces| == 1 {
      assert pieces[0] in pieces && pieces == [pieces[0]];
      assert Index(pieces[0], c).None?;
    } else {
      SplitUndoesJoin(pieces[1..], c);
      SplitBehind(pieces[0], c, Join(pieces[1..], c));
    }
  }

  // ---- queries ----

  datatype Pair = Pair(key: string, value: string)

  /** What a piece says, when it has an equals sign: the text before and after the first one. */
  function PairOf(piece: string): Option<Pair> {
    var eq := Index(piece, '=');
    if eq.None? then None else Some(Pair(piece[..eq.value], piece[eq.value + 1..]))
  }

  /** The value of each key; of several pieces with one key the last counts. */
  function Parsed(pieces: seq<string>): map<string, string> {
    if pieces == [] then map[]
    else
      var before, pair := Parsed(pieces[..|pieces| - 1]), PairOf(pieces[|pieces| - 1]);
      if pair.None? then before else before[pair.value.key := pair.value.value]
  }

  /** The part of an app field that holds the query. */
  function QueryOf(app: string): string {
    var i := Index(app, '?');
    if i.None? then app else app[i.value + 1..]
  }

  function AppQuery(app: string): map<string, string> {
    Parsed(Split(QueryOf(app), '&'))
  }

  lemma ParsedSnoc(pieces: seq<string>, k: nat)
    requires k < |pieces|
    ensures Parsed(pieces[..k + 1]) ==
            var pair := PairOf(pieces[k]);
            if pair.None? then Parsed(pieces[..k]) else Parsed(pieces[..k])[pair.value.key := pair.value.value]
  {
    assert pieces[..k + 1][..k] == pieces[..k];
  }

  method ParseApp(app: string) returns (out: map<string, string>)
    ensures out == AppQuery(app)
  {
    out := map[];
    var q := app;
    var i := Index(app, '?');
    if i.Some? {
      q := app[i.value + 1..];
    }
    var pieces := Split(q, '&');
    for k := 0 to |pieces|
      invariant out == Parsed(pieces[..k])
    {
      ParsedSnoc(pieces, k);
      var eq := Index(pieces[k], '=');
      if eq.Some? {
        out := out[pieces[k][..eq.value] := pieces[k][eq.value + 1..]];
      }
    }
    assert pieces[..|pieces|] == pieces;
  }

  function Shown(pairs: seq<Pair>): (pieces: seq<string>)
    ensures |pieces| == |pairs|
  {
    seq(|pairs|, i requires 0 <= i < |pairs| => pairs[i].key + "=" + pairs[i].value)
  }

  /** A query as a client prints it. */
  function Print(pairs: seq<Pair>): string {
    Join(Shown(pairs), '&')
  }

  function MapOf(pairs: seq<Pair>): map<string, string> {
    if pairs == [] then map[]
    else MapOf(pairs[..|pairs| - 1])[pairs[|pairs| - 1].key := pairs[|pairs| - 1].value]
  }

  predicate Printable(p: Pair) {
    '&' !in p.key && '=' !in p.key && '?' !in p.key && '&' !in p.value
  }

  lemma PairOfShown(p: Pair)
    requires '=' !in p.key
    ensures PairOf(p.key + "=" + p.value) == Some(p)
  {
    var s := p.key + "=" + p.value;
    IndexBehind(p.key, '=', p.value);
    assert s == p.key + ['='] + p.value;
    assert s[..|p.key|] == p.key && s[|p.key| + 1..] == p.value;
  }

  lemma {:induction false} ParsedShown(pairs: seq<Pair>)
    requires forall p | p in pairs :: Printable(p)
    ensures Parsed(Shown(pairs)) == MapOf(pairs)
  {
    if pairs != [] {
      var n := |pairs| - 1;
      ParsedShown(pairs[..n]);
      assert Shown(pairs)[..n] == Shown(pairs[..n]);
      assert pairs[n] in pairs;
      PairOfShown(pairs[n]);
    }
  }

  lemma PrintSplits(pairs: seq<Pair>)
    requires pairs != [] && forall p | p in pairs :: Printable(p)
    ensures Split(Print(pairs), '&') == Shown(pairs)
  {
    forall s | s in Shown(pairs) ensures '&' !in s {
      var i :| 0 <= i < |pairs| && Shown(pairs)[i] == s;
      assert pairs[i] in pairs;
    }
    SplitUndoesJoin(Shown(pairs), '&');
  }

  /** Every value comes back verbatim, whatever '=', '+', '/' or '?' it holds. */
  lemma QueryRoundTrip(path: string, pairs: seq<Pair>)
    requires '?' !in path && pairs != [] && forall p | p in pairs :: Printable(p)
    ensures AppQuery(path + "?" + Print(pairs)) == MapOf(pairs)
    ensures DistinctKeys(pairs) ==>
              forall p | p in pairs ::
                var q := AppQuery(path + "?" + Print(pairs)); p.key in q && q[p.key] == p.value
  {
    if DistinctKeys(pairs) {
      forall p | p in pairs ensures p.key in MapOf(pairs) && MapOf(pairs)[p.key] == p.value {
        MapHoldsAll(pairs, p);
      }
    }
    var app := path + "?" + Print(pairs);
    assert app == path + ['?'] + Print(pairs);
    IndexBehind(path, '?', Print(pairs));
    assert QueryOf(app) == Print(pairs);
    PrintSplits(pairs);
    ParsedShown(pairs);
  }

  // ---- how long a parsed value can be ----

  /** A parsed value is shorter than the query by its key and the equals sign, and more when pieces are cut off. */
  lemma {:induction false} ParsedIsPart(pieces: seq<string>, key: string)
    requires key in Parsed(pieces)
    ensures exists p | p in pieces :: PairOf(p) == Some(Pair(key, Parsed(pieces)[key]))
  {
    var n := |pieces| - 1;
    var pair := PairOf(pieces[n]);
    if pair.Some? && pair.value.key == key {
      assert pieces[n] in pieces;
    } else {
      ParsedIsPart(pieces[..n], key);
      var p :| p in pieces[..n] && PairOf(p) == Some(Pair(key, Parsed(pieces)[key]));
      assert p in pieces;
    }
  }

  lemma {:induction false} PiecesAreShort(s: string, c: char, p: string)
    requires p in Split(s, c)
    ensures |p| <= |s| && (c in s ==> |p| < |s|)
    decreases |s|
  {
    var i := Index(s, c);
    if i.Some? && p != s[..i.value] {
      PiecesAreShort(s[i.value + 1..], c, p);
    }
  }

  lemma ValueIsShort(q: string, key: string)
    requires key in Parsed(Split(q, '&'))
    ensures |key| + 1 + |Parsed(Split(q, '&'))[key]| <= |q|
    ensures '&' in q ==> |key| + 1 + |Parsed(Split(q, '&'))[key]| < |q|
  {
    ParsedIsPart(Split(q, '&'), key);
    var p :| p in Split(q, '&') && PairOf(p) == Some(Pair(key, Parsed(Split(q, '&'))[key]));
    PiecesAreShort(q, '&', p);
  }

  // ---- queries without a path ----

  ghost predicate DistinctKeys(pairs: seq<Pair>) {
    forall i, j | 0 <= i < j < |pairs| :: pairs[i].key != pairs[j].key
  }

  lemma {:induction false} MapHoldsAll(pairs: seq<Pair>, p: Pair)
    requires DistinctKeys(pairs) && p in pairs
    ensures p.key in MapOf(pairs) && MapOf(pairs)[p.key] == p.value
  {
    var n := |pairs| - 1;
    if p != pairs[n] {
      var i :| 0 <= i < n && pairs[i] == p;
      assert p == pairs[..n][i];
      MapHoldsAll(pairs[..n], p);
    }
  }

  lemma ShownIsWhole(cut: string, pairs: seq<Pair>)
    requires '&' !in cut && forall p | p in pairs :: Printable(p)
    ensures forall s | s in [cut] + Shown(pairs) :: '&' !in s
  {
    forall s | s in [cut] + Shown(pairs) ensures '&' !in s {
      if s != cut {
        var i :| 0 <= i < |pairs| && Shown(pairs)[i] == s;
        assert pairs[i] in pairs;
      }
    }
  }

  lemma ShownPairOf(pairs: seq<Pair>, s: string)
    requires s in Shown(pairs) && forall p | p in pairs :: Printable(p)
    ensures PairOf(s).Some? && PairOf(s).value in pairs
  {
    var i :| 0 <= i < |pairs| && Shown(pairs)[i] == s;
    assert pairs[i] in pairs;
    PairOfShown(pairs[i]);
  }

  lemma OnlyFromFirst(cut: string, pairs: seq<Pair>, key: string)
    requires forall p | p in pairs :: Printable(p) && p.key != key
    requires key in Parsed([cut] + Shown(pairs))
    ensures |Parsed([cut] + Shown(pairs))[key]| < |cut|
  {
    var pieces := [cut] + Shown(pairs);
    ParsedIsPart(pieces, key);
    var s :| s in pieces && PairOf(s) == Some(Pair(key, Parsed(pieces)[key]));
    if s in Shown(pairs) {
      ShownPairOf(pairs, s);
    }
  }

  lemma FirstShown(pairs: seq<Pair>)
    requires pairs != []
    ensures Shown(pairs) == [pairs[0].key + "=" + pairs[0].value] + Shown(pairs[1..])
  {
  }

  /** A '?' in the first piece: what follows it is split instead. */
  lemma CutSplit(a: string, cut: string, pieces: seq<string>)
    requires '?' !in a && forall s | s in [cut] + pieces :: '&' !in s
    ensures Split(QueryOf(Join([a + ['?'] + cut] + pieces, '&')), '&') == [cut] + pieces
  {
    var tail := if pieces == [] then "" else ['&'] + Join(pieces, '&');
    var s := Join([a + ['?'] + cut] + pieces, '&');
    assert ([a + ['?'] + cut] + pieces)[1..] == pieces && ([cut] + pieces)[1..] == pieces;
    assert s == a + ['?'] + (cut + tail);
    IndexBehind(a, '?', cut + tail);
    assert Join([cut] + pieces, '&') == cut + tail == QueryOf(s);
    SplitUndoesJoin([cut] + pieces, '&');
  }

  lemma LaterMark(a: string, rest: string)
    requires '?' !in a && '?' in rest
    ensures '?' in a + rest && QueryOf(a + rest) == QueryOf(rest)
  {
    var i := Index(rest, '?').value;
    assert rest == rest[..i] + ['?'] + rest[i + 1..];
    assert a + rest == (a + rest[..i]) + ['?'] + rest[i + 1..];
    IndexBehind(a + rest[..i], '?', rest[i + 1..]);
  }

  predicate Kept(pairs: seq<Pair>, p: Pair) {
    p.key in AppQuery(Print(pairs)) && AppQuery(Print(pairs))[p.key] == p.value
  }

  lemma ShownCut(p: Pair, start: string, cut: string)
    requires '?' !in p.key && '?' !in start && p.value == start + ['?'] + cut
    ensures '?' !in p.key + "=" + start && p.key + "=" + p.value == (p.key + "=" + start) + ['?'] + cut
  {
    assert '?' !in "=";
  }

  /** What is parsed when the first value holds a '?' with `cut` behind it. */
  lemma CutQuery(pairs: seq<Pair>, start: string, cut: string)
    requires pairs != [] && '?' !in pairs[0].key && '?' !in start && pairs[0].value == start + ['?'] + cut
    requires '&' !in cut && forall p | p in pairs[1..] :: Printable(p)
    ensures AppQuery(Print(pairs)) == Parsed([cut] + Shown(pairs[1..]))
  {
    ShownCut(pairs[0], start, cut);
    FirstShown(pairs);
    ShownIsWhole(cut, pairs[1..]);
    CutSplit(pairs[0].key + "=" + start, cut, Shown(pairs[1..]));
  }

  lemma FirstValueCut(pairs: seq<Pair>)
    requires pairs != [] && DistinctKeys(pairs) && (forall p | p in pairs :: Printable(p)) && '?' in pairs[0].value
    ensures !Kept(pairs, pairs[0])
  {
    var first, rest := pairs[0], pairs[1..];
    var i := Index(first.value, '?').value;
    var start, cut := first.value[..i], first.value[i + 1..];
    assert Printable(first);
    assert forall q | q in rest :: q in pairs && q.key != first.key;
    CutQuery(pairs, start, cut);
    if first.key in Parsed([cut] + Shown(rest)) {
      OnlyFromFirst(cut, rest, first.key);
    }
  }

  lemma LaterValueCut(pairs: seq<Pair>)
    requires pairs != [] && Printable(pairs[0]) && '?' !in pairs[0].value && '?' in Print(pairs)
    ensures '?' in Print(pairs[1..]) && AppQuery(Print(pairs)) == AppQuery(Print(pairs[1..]))
  {
    FirstShown(pairs);
    var shown := pairs[0].key + "=" + pairs[0].value;
    assert '?' !in "=" && '?' !in shown;
    assert Shown(pairs)[1..] == Shown(pairs[1..]);
    if |pairs| > 1 {
      assert Print(pairs) == (shown + ['&']) + Print(pairs[1..]);
      LaterMark(shown + ['&'], Print(pairs[1..]));
    }
  }

  /** A query printed without a path loses a value as soon as one holds a '?'. */
  lemma {:induction false} BareQueryLoses(pairs: seq<Pair>) returns (p: Pair)
    requires DistinctKeys(pairs) && (forall p | p in pairs :: Printable(p)) && '?' in Print(pairs)
    ensures p in pairs && !Kept(pairs, p)
    decreases |pairs|
  {
    p := pairs[0];
    if '?' in p.value {
      FirstValueCut(pairs);
    } else {
      LaterValueCut(pairs);
      p := BareQueryLoses(pairs[1..]);
    }
  }

  /** Without a path in front, a query comes back exactly when no value holds a '?'. */
  lemma BareQueryRoundTrip(pairs: seq<Pair>)
    requires pairs != [] && DistinctKeys(pairs) && forall p | p in pairs :: Printable(p)
    ensures AppQuery(Print(pairs)) == MapOf(pairs) <==> '?' !in Print(pairs)
  {
    if '?' in Print(pairs) {
      var p := BareQueryLoses(pairs);
      MapHoldsAll(pairs, p);
    } else {
      assert QueryOf(Print(pairs)) == Print(pairs);
      PrintSplits(pairs);
      ParsedShown(pairs);
    }
  }

  // ---- safe names ----

  predicate Plain(c: char) {
    'a' <= c <= 'z' || 'A' <= c <= 'Z' || '0' <= c <= '9' || c == '-' || c == '.' || c == '_'
  }

  predicate Safe(c: char) {
    Plain(c) || c == '@'
  }

  predicate AllSafe(s: string) {
    forall i | 0 <= i < |s| :: Safe(s[i])
  }

  function SafeName(name: string): (s: string)
    ensures |s| == |name| && AllSafe(s)
    ensures forall i | 0 <= i < |name| :: s[i] == if Safe(name[i]) then name[i] else '_'
  {
    seq(|name|, i requires 0 <= i < |name| => if Safe(name[i]) then name[i] else '_')
  }

  method SafeStreamName(name: string) returns (b: string)
    ensures b == SafeName(name)
  {
    b := "";
    for i := 0 to |name|
      invariant b == SafeName(name)[..i]
    {
      var r := name[i];
      if 'a' <= r <= 'z' || 'A' <= r <= 'Z' || '0' <= r <= '9' || r == '-' || r == '.' || r == '_' || r == '@' {
        b := b + [r];
      } else {
        b := b + ['_'];
      }
    }
  }

  /** `host` is the outcome of splitting the remote address into host and port. */
  method IpStreamName(remote: string, host: Option<string>) returns (b: string)
    ensures var h := if host.Some? then host.value else remote;
            && |b| == 3 + |h| && b[..3] == "ip-"
            && (forall i | 0 <= i < |h| :: b[3 + i] == if Plain(h[i]) then h[i] else '-')
            && SafeName(b) == b && '@' !in b && '?' !in b
  {
    var h := if host.Some? then host.value else remote;
    b := "ip-";
    for i := 0 to |h|
      invariant |b| == 3 + i && b[..3] == "ip-"
      invariant forall j | 0 <= j < i :: b[3 + j] == if Plain(h[j]) then h[j] else '-'
      invariant forall j | 0 <= j < |b| :: Plain(b[j])
    {
      b := b + [if Plain(h[i]) then h[i] else '-'];
    }
  }

  /** Names in the safe alphabet are kept exactly. */
  lemma SafeNameFixesExactlySafeNames(name: string)
    ensures SafeName(name) == name <==> AllSafe(name)
    ensures SafeName(SafeName(name)) == SafeName(name)
  {
    if SafeName(name) == name {
      assert AllSafe(SafeName(name));
    }
    var s := SafeName(name);
    assert SafeName(s) == s;
  }

  // ---- publish names ----

  datatype PublishName = PublishName(explicit: string, token: string)

  function NameBefore(name: string): string {
    var i := Index(name, '?');
    if i.None? then name else name[..i.value]
  }

  function TokenIn(name: string): string {
    var q := AppQuery(name);
    if "token" in q then q["token"] else ""
  }

  /** An explicit name with its token, or the bare publish key. */
  function PublishParse(name: string): PublishName {
    if TokenIn(name) == "" && NameBefore(name) != "" then PublishName("", NameBefore(name))
    else PublishName(NameBefore(name), TokenIn(name))
  }

  method ParsePublish(name: string) returns (explicit: string, token: string)
    ensures PublishName(explicit, token) == PublishParse(name)
  {
    explicit := name;
    var i := Index(name, '?');
    if i.Some? {
      explicit := name[..i.value];
    }
    var q := ParseApp(name);
    token := if "token" in q then q["token"] else "";
    if token == "" && explicit != "" {
      token := explicit;
      explicit := "";
    }
  }

  function Rewritten(final: string, token: string): string {
    SafeName(final) + "?token=" + token
  }

  lemma RewrittenParts(final: string, token: string)
    ensures NameBefore(Rewritten(final, token)) == SafeName(final)
    ensures QueryOf(Rewritten(final, token)) == "token=" + token
  {
    var safe, s := SafeName(final), Rewritten(final, token);
    assert !Safe('?');
    assert s == safe + ['?'] + ("token=" + token);
    IndexBehind(safe, '?', "token=" + token);
  }

  lemma WholeQuery(q: string, pair: Pair)
    requires '&' !in q && PairOf(q) == Some(pair)
    ensures Parsed(Split(q, '&')) == map[pair.key := pair.value]
  {
    assert Index(q, '&') == None;
    assert Split(q, '&') == [q];
    ParsedSnoc([q], 0);
    assert [q][..1] == [q] && [q][..0] == [];
    assert Parsed([]) == map[];
  }

  lemma TokenComesBackExactlyWhole(final: string, token: string)
    ensures TokenIn(Rewritten(final, token)) == token <==> '&' !in token
  {
    RewrittenParts(final, token);
    var q := "token=" + token;
    if '&' !in token {
      assert '&' !in "token=";
      PairOfShown(Pair("token", token));
      assert "token" + "=" + token == q;
      WholeQuery(q, Pair("token", token));
    } else {
      var i :| 0 <= i < |token| && token[i] == '&';
      assert q[6 + i] == '&';
      if "token" in Parsed(Split(q, '&')) {
        ValueIsShort(q, "token");
      }
    }
  }

  /**
   * Parsing the rewritten name again gives back the name and the token, exactly when the token is
   * free of '&' and not empty; without a token only the empty name comes back.
   */
  lemma RewrittenNameReparses(final: string, token: string)
    ensures PublishParse(Rewritten(final, token)) == PublishName(SafeName(final), token)
            <==> '&' !in token && (token == "" ==> final == "")
  {
    RewrittenParts(final, token);
    TokenComesBackExactlyWhole(final, token);
  }
}
